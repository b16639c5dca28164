/** The two parsers as objects, fed by llhttp's callbacks. */
module HttpParserObjects {
  import opened Text
  import opened HttpRequests
  import opened HttpParsers

  datatype Kind = Request | Response

  /** What a parser has put together; `start` is the URL or the status text. */
  datatype Parsing = Parsing(
    assembly: Assembly, start: string, body: string,
    method_: string, statusCode: int, version: string, complete: bool)

  function Fresh(kind: Kind): Parsing {
    Parsing(NOTHING, "", "", "", 0, if kind == Request then "HTTP/1.1" else "", false)
  }

  function After(kind: Kind, p: Parsing, cb: Callback): Parsing {
    match cb
    case OnUrl(at) => if kind == Request then p.(start := p.start + at) else p
    case OnStatus(at) => if kind == Response then p.(start := p.start + at) else p
    case OnHeaderField(at) => p.(assembly := FieldPiece(p.assembly, at))
    case OnHeaderValue(at) => p.(assembly := ValuePiece(p.assembly, at))
    case OnBody(at) => p.(body := if kind == Request then p.body + at else BodyPiece(p.body, at))
    case OnMessageComplete(m, code, v) =>
      var q := p.(assembly := Commit(p.assembly), version := v, complete := true);
      if kind == Request then q.(method_ := m) else q.(statusCode := code)
  }

  function AfterAll(kind: Kind, p: Parsing, cbs: seq<Callback>): Parsing {
    if cbs == [] then p else After(kind, AfterAll(kind, p, cbs[..|cbs| - 1]), cbs[|cbs| - 1])
  }

  /** How the callbacks are spread over calls of feed does not matter. */
  lemma {:induction false} FedInParts(kind: Kind, p: Parsing, a: seq<Callback>, b: seq<Callback>)
    ensures AfterAll(kind, p, a + b) == AfterAll(kind, AfterAll(kind, p, a), b)
  {
    if b == [] {
      assert a + b == a;
    } else {
      FedInParts(kind, p, a, b[..|b| - 1]);
      assert (a + b)[..|a + b| - 1] == a + b[..|b| - 1];
    }
  }

  // ------------------------------------------------------------- a message in pieces

  function Starts(kind: Kind, pieces: seq<string>): (cbs: seq<Callback>)
    ensures |cbs| == |pieces|
  {
    seq(|pieces|, i requires 0 <= i < |pieces| => if kind == Request then OnUrl(pieces[i]) else OnStatus(pieces[i]))
  }

  function Fields(pieces: seq<string>): (cbs: seq<Callback>)
    ensures |cbs| == |pieces|
  {
    seq(|pieces|, i requires 0 <= i < |pieces| => OnHeaderField(pieces[i]))
  }

  function Values(pieces: seq<string>): (cbs: seq<Callback>)
    ensures |cbs| == |pieces|
  {
    seq(|pieces|, i requires 0 <= i < |pieces| => OnHeaderValue(pieces[i]))
  }

  function HeaderCallbacks(cs: seq<Cut>): seq<Callback> {
    if cs == [] then []
    else HeaderCallbacks(cs[..|cs| - 1]) + Fields(cs[|cs| - 1].name) + Values(cs[|cs| - 1].value)
  }

  function Bodies(chunks: seq<string>): (cbs: seq<Callback>)
    ensures |cbs| == |chunks|
  {
    seq(|chunks|, i requires 0 <= i < |chunks| => OnBody(chunks[i]))
  }

  lemma {:induction false} StartsJoin(kind: Kind, p: Parsing, pieces: seq<string>)
    ensures AfterAll(kind, p, Starts(kind, pieces)) == p.(start := p.start + Join(pieces))
  {
    var n := |pieces| - 1;
    if pieces == [] {
      assert p.start + "" == p.start;
    } else {
      StartsJoin(kind, p, pieces[..n]);
      assert Starts(kind, pieces)[..n] == Starts(kind, pieces[..n]);
      assert (p.start + Join(pieces[..n])) + pieces[n] == p.start + Join(pieces);
    }
  }

  lemma {:induction false} FieldsAre(kind: Kind, p: Parsing, pieces: seq<string>)
    ensures AfterAll(kind, p, Fields(pieces)) == p.(assembly := FieldPieces(p.assembly, pieces))
  {
    var n := |pieces| - 1;
    if pieces == [] {
    } else {
      FieldsAre(kind, p, pieces[..n]);
      assert Fields(pieces)[..n] == Fields(pieces[..n]);
    }
  }

  lemma {:induction false} ValuesAre(kind: Kind, p: Parsing, pieces: seq<string>)
    ensures AfterAll(kind, p, Values(pieces)) == p.(assembly := ValuePieces(p.assembly, pieces))
  {
    var n := |pieces| - 1;
    if pieces == [] {
    } else {
      ValuesAre(kind, p, pieces[..n]);
      assert Values(pieces)[..n] == Values(pieces[..n]);
    }
  }

  lemma {:induction false} HeadersAre(kind: Kind, p: Parsing, cs: seq<Cut>)
    ensures AfterAll(kind, p, HeaderCallbacks(cs)) == p.(assembly := Arrive(p.assembly, cs))
  {
    if cs == [] {
    } else {
      var front, c := cs[..|cs| - 1], cs[|cs| - 1];
      var q := AfterAll(kind, p, HeaderCallbacks(front));
      HeadersAre(kind, p, front);
      FedInParts(kind, p, HeaderCallbacks(front), Fields(c.name));
      FedInParts(kind, p, HeaderCallbacks(front) + Fields(c.name), Values(c.value));
      FieldsAre(kind, q, c.name);
      ValuesAre(kind, q.(assembly := FieldPieces(q.assembly, c.name)), c.value);
      hide AfterAll, Fields, Values, FieldPieces, ValuePieces;
    }
  }

  lemma {:induction false} BodiesJoin(kind: Kind, p: Parsing, chunks: seq<string>)
    requires p.body == ""
    ensures AfterAll(kind, p, Bodies(chunks)) ==
              p.(body := if kind == Request then Join(chunks) else BodyPieces(chunks))
  {
    var n := |chunks| - 1;
    if chunks == [] {
    } else {
      BodiesJoin(kind, p, chunks[..n]);
      assert Bodies(chunks)[..n] == Bodies(chunks[..n]);
      hide BodyPiece;
    }
  }

  /** A message cut into callbacks in any way comes out whole: start, headers and body
      depend on the pieces only through what they join to, and for a response's body
      through whether a piece straddles the limit. */
  lemma {:induction false} MessageAssembled(kind: Kind, starts: seq<string>, cs: seq<Cut>, chunks: seq<string>,
      m: string, code: int, v: string)
    requires forall i | 0 <= i < |cs| :: WellCut(cs[i])
    ensures var cbs := Starts(kind, starts) + HeaderCallbacks(cs) + Bodies(chunks) + [OnMessageComplete(m, code, v)];
            var p := AfterAll(kind, Fresh(kind), cbs);
            && p.complete && p.version == v && (if kind == Request then p.method_ == m else p.statusCode == code)
            && p.start == Join(starts) && p.assembly.headers == Merged(Wholes(cs)).0
            && p.body == (if kind == Request then Join(chunks)
                          else Prefix(Join(chunks), MAX_BODY_SIZE) + (if Straddles(chunks) then MARKER else ""))
  {
    var s, h, b, e := Starts(kind, starts), HeaderCallbacks(cs), Bodies(chunks), OnMessageComplete(m, code, v);
    FedInParts(kind, Fresh(kind), s, h);
    FedInParts(kind, Fresh(kind), s + h, b);
    assert (s + h + b + [e])[..|s + h + b|] == s + h + b;
    var p1 := AfterAll(kind, Fresh(kind), s);
    StartsJoin(kind, Fresh(kind), starts);
    var p2 := AfterAll(kind, p1, h);
    HeadersAre(kind, p1, cs);
    BodiesJoin(kind, p2, chunks);
    HeadersOfCuts(cs);
    BodyIs(chunks);
    assert Fresh(kind).start + Join(starts) == Join(starts);
    hide Join, Straddles, Prefix, BodyPieces, Arrive, Merged, Wholes, HeaderCallbacks;
  }

  // ----------------------------------------------------------------------- objects

  class ResponseParser {
    var response: HttpResponse
    var currentHeaderField: string
    var currentHeaderValue: string
    var lastWasField: bool
    var messageComplete: bool

    ghost function View(): Parsing
      reads this
    {
      Parsing(Assembly(currentHeaderField, currentHeaderValue, lastWasField, response.headers),
              response.statusText, response.body, "", response.statusCode, response.version, messageComplete)
    }

    constructor ()
      ensures View() == Fresh(Response)
      ensures response == HttpResponse("", 0, "", [], "") && !messageComplete
      ensures currentHeaderField == "" && currentHeaderValue == "" && !lastWasField
    {
      response := HttpResponse("", 0, "", [], "");
      currentHeaderField, currentHeaderValue, lastWasField, messageComplete := "", "", false, false;
    }

    method Reset()
      modifies this
      ensures View() == Fresh(Response)
      ensures response == HttpResponse("", 0, "", [], "") && !messageComplete
      ensures currentHeaderField == "" && currentHeaderValue == "" && !lastWasField
    {
      response := HttpResponse("", 0, "", [], "");
      currentHeaderField, currentHeaderValue, lastWasField, messageComplete := "", "", false, false;
    }

    method CommitHeader()
      modifies this
      ensures View() == old(View()).(assembly := Commit(old(View()).assembly))
    {
      if currentHeaderField != "" {
        response := response.(headers := response.headers + [Header(currentHeaderField, currentHeaderValue)]);
        currentHeaderField, currentHeaderValue := "", "";
      }
    }

    method OnStatusPiece(at: string)
      modifies this
      ensures View() == After(Response, old(View()), OnStatus(at))
    {
      response := response.(statusText := response.statusText + at);
    }

    method OnHeaderFieldPiece(at: string)
      modifies this
      ensures View() == After(Response, old(View()), OnHeaderField(at))
    {
      if !lastWasField { CommitHeader(); }
      currentHeaderField := currentHeaderField + at;
      lastWasField := true;
    }

    method OnHeaderValuePiece(at: string)
      modifies this
      ensures View() == After(Response, old(View()), OnHeaderValue(at))
    {
      currentHeaderValue := currentHeaderValue + at;
      lastWasField := false;
    }

    method OnBodyPiece(at: string)
      modifies this
      ensures View() == After(Response, old(View()), OnBody(at))
    {
      if |response.body| < MAX_BODY_SIZE {
        var space := MAX_BODY_SIZE - |response.body|;
        var toAppend := if |at| < space then |at| else space;
        response := response.(body := response.body + at[..toAppend]);
        if toAppend < |at| {
          response := response.(body := response.body + MARKER);
        }
        assert toAppend == |at| ==> at[..toAppend] == at;
      }
    }

    method OnComplete(m: string, code: int, v: string)
      modifies this
      ensures View() == After(Response, old(View()), OnMessageComplete(m, code, v))
    {
      CommitHeader();
      response := response.(statusCode := code, version := v);
      messageComplete := true;
    }

    /** llhttp makes these callbacks out of the data, unless a message is waiting to be
        taken; ok says that it met no error. */
    method Feed(callbacks: seq<Callback>, ok: bool) returns (complete: bool)
      modifies this
      ensures View() == if old(messageComplete) then old(View()) else AfterAll(Response, old(View()), callbacks)
      ensures complete == (old(messageComplete) || (ok && messageComplete))
    {
      if messageComplete { return true; }
      for i := 0 to |callbacks|
        invariant View() == AfterAll(Response, old(View()), callbacks[..i])
      {
        assert callbacks[..i + 1][..i] == callbacks[..i];
        hide AfterAll, FieldPiece, ValuePiece, BodyPiece, Commit;
        match callbacks[i]
        case OnUrl(_) =>
        case OnStatus(at) => OnStatusPiece(at);
        case OnHeaderField(at) => OnHeaderFieldPiece(at);
        case OnHeaderValue(at) => OnHeaderValuePiece(at);
        case OnBody(at) => OnBodyPiece(at);
        case OnMessageComplete(m, code, v) => OnComplete(m, code, v);
      }
      assert callbacks[..|callbacks|] == callbacks;
      complete := ok && messageComplete;
    }

    method Take() returns (r: Option<HttpResponse>)
      modifies this
      ensures if old(messageComplete)
              then View() == Fresh(Response) && r == Some(old(response)) && response == HttpResponse("", 0, "", [], "")
              else View() == old(View()) && r == None
    {
      if !messageComplete { return None; }
      r := Some(response);
      Reset();
    }
  }
}
