/** What each completed operation leads to, said of the whole system's step and in terms
    of the session's fields: which operation is outstanding next, what was written and
    reported, and exactly when the session closes. */
module MitmLaws {
  import opened Text
  import opened HttpRequests
  import opened MitmSpec
  import opened MitmSteps
  import opened World
  import opened WorldSteps

  /** An open session of a reachable state is about to run a handler. */
  predicate Ready(w: World, k: nat) {
    k < |w.sessions| && SessionInv(w.sessions[k]) && !w.sessions[k].closed
  }

  function After(w: World, k: nat, h: Handler): Session
    requires Ready(w, k)
  {
    Step(w, At(k, h)).sessions[k]
  }

  /** A handler changes its own session only. */
  lemma OthersUntouched(w: World, k: nat, h: Handler, j: nat)
    requires Ready(w, k) && j < |w.sessions| && j != k
    ensures |Step(w, At(k, h)).sessions| == |w.sessions|
    ensures Step(w, At(k, h)).sessions[j] == w.sessions[j]
  {
    hide Handled;
  }

  // ------------------------------------------------------------ the connection chain

  lemma AfterResolved(w: World, k: nat, ec: Ec)
    requires Ready(w, k) && w.sessions[k].ops.resolve > 0
    ensures var s, s' := w.sessions[k], After(w, k, Resolved(ec));
            && !s'.closed && s'.ops.resolve == 0
            && (if ec == Ok then s'.ops.connect == 1 && s'.ops.rawError == 0 && s'.reports == s.reports
                else
                  && s'.ops.connect == 0 && s'.ops.rawError == 1 && s'.closeAfterWrite
                  && s'.reports == s.reports + [Report(s.cur.id, s.cur.ref)])
  {
  }

  lemma AfterConnected(w: World, k: nat, ec: Ec)
    requires Ready(w, k) && w.sessions[k].ops.connect > 0
    ensures var s, s' := w.sessions[k], After(w, k, Connected(ec));
            && !s'.closed && s'.ops.connect == 0
            && (if ec == Ok then s'.ops.established == 1 && s'.ops.rawError == 0 && s'.reports == s.reports
                else
                  && s'.ops.established == 0 && s'.ops.rawError == 1 && s'.closeAfterWrite
                  && s'.reports == s.reports + [Report(s.cur.id, s.cur.ref)])
  {
  }

  lemma AfterEstablished(w: World, k: nat, ec: Ec, haveContext: bool)
    requires Ready(w, k) && w.sessions[k].ops.established > 0
    ensures var s' := After(w, k, Established(ec, haveContext));
            if ec == Ok && haveContext
            then !s'.closed && s'.tls && s'.ops.established == 0 && s'.ops.clientHs == s'.ops.upstreamHs == 1
            else s'.closed
  {
  }

  /** The second handshake to finish starts the first read from the client. */
  lemma AfterClientHandshake(w: World, k: nat)
    requires Ready(w, k) && w.sessions[k].ops.clientHs > 0
    ensures var s, s' := w.sessions[k], After(w, k, ClientHandshake(Ok));
            && !s'.closed && s'.clientHsDone && s'.upstreamHsDone == s.upstreamHsDone && s'.ops.clientHs == 0
            && s'.ops.clientRead == (if s.upstreamHsDone then 1 else 0)
  {
  }

  lemma AfterUpstreamHandshake(w: World, k: nat)
    requires Ready(w, k) && w.sessions[k].ops.upstreamHs > 0
    ensures var s, s' := w.sessions[k], After(w, k, UpstreamHandshake(Ok));
            && !s'.closed && s'.upstreamHsDone && s'.clientHsDone == s.clientHsDone && s'.ops.upstreamHs == 0
            && s'.ops.clientRead == (if s.clientHsDone then 1 else 0)
  {
  }

  // ------------------------------------------------------------------- one exchange

  /** Bytes are accumulated; without a complete request the session reads on, or closes
      at one mebibyte. */
  lemma AfterPartialRead(w: World, k: nat, data: string, empty: bool, seen: bool)
    requires Ready(w, k) && w.sessions[k].ops.clientRead > 0
    ensures var s := w.sessions[k];
            var s' := After(w, k, ClientRead(Ok, data, if empty then CompleteEmpty else Incomplete, seen));
            && s'.clientAcc == s.clientAcc + data
            && (if empty || |s.clientAcc| + |data| < 0x10_0000 then !s'.closed && s'.ops.clientRead == 1 else s'.closed)
  {
  }

  /** A complete request is the current transaction, with the next id; it waits for a
      decision, or its bytes are being written. */
  lemma AfterRequest(w: World, k: nat, data: string, req: HttpRequest, seen: bool)
    requires Ready(w, k) && w.sessions[k].ops.clientRead > 0
    ensures var s, s' := w.sessions[k], After(w, k, ClientRead(Ok, data, Complete(req), seen));
            && !s'.closed && s'.cur == Txn(w.nextId, true, |w.heap|, false) && s'.ops.clientRead == 0
            && s'.clientAcc == s.clientAcc + data
            && (if seen then s'.ops.decision == 1 && s'.ticket == |w.tickets| && s'.upstreamQ == []
                else s'.ops.upstreamWrite == 1 && s'.upstreamBuf == Serialize(req) && s'.upstreamQ == [Serialize(req)])
  {
    hide Serialize;
  }

  /** A written request is followed by reading its response. */
  lemma AfterUpstreamWrite(w: World, k: nat)
    requires Ready(w, k) && w.sessions[k].ops.upstreamWrite > 0
    ensures var s, s' := w.sessions[k], After(w, k, UpstreamWritten(Ok));
            && !s'.closed && s'.upstreamSent == s.upstreamSent + [s.upstreamBuf] && s'.upstreamQ == []
            && s'.ops.upstreamWrite == 0 && s'.ops.upstreamRead == 1
  {
  }

  /** A chunk that does not complete the response: relayed, and the reading goes on. */
  lemma AfterChunk(w: World, k: nat, data: string, parse: Parse<HttpResponse>)
    requires Ready(w, k) && w.sessions[k].ops.upstreamRead > 0 && !parse.Complete?
    ensures var s, s' := w.sessions[k], After(w, k, UpstreamRead(Ok, data, parse));
            && !s'.closed && s'.ops.upstreamRead == 1 && s'.reports == s.reports
            && s'.clientQ == s.clientQ + [data] && s'.upstreamAcc == s.upstreamAcc + data
            && s'.ops.clientWrite == 1 && s'.clientBuf == s'.clientQ[0]
  {
    hide KeepAlive;
  }

  /** A read that fails closes; at the end of the stream an unreported response that it
      completes is reported first. */
  lemma AfterReadError(w: World, k: nat, ec: Ec, data: string, parse: Parse<HttpResponse>)
    requires Ready(w, k) && w.sessions[k].ops.upstreamRead > 0 && ec != Ok
    ensures var s, s' := w.sessions[k], After(w, k, UpstreamRead(ec, data, parse));
            && s'.closed && s'.clientQ == s.clientQ
            && s'.reports == s.reports + (if (ec == Eof || ec == Truncated) && s.upstreamAcc != "" && parse.Complete?
                                          then [Report(s.cur.id, s.cur.ref)] else [])
  {
    hide KeepAlive;
  }

  /** A finished client write: the next buffer, or the close that was waiting for it. */
  lemma AfterClientWrite(w: World, k: nat)
    requires Ready(w, k) && w.sessions[k].ops.clientWrite > 0
    ensures w.sessions[k].clientQ != []
    ensures var s, s' := w.sessions[k], After(w, k, ClientWritten(Ok));
            && s'.clientSent == s.clientSent + [s.clientBuf] && s'.clientQ == s.clientQ[1..]
            && (s'.closed <==> |s.clientQ| == 1 && s.closeAfterWrite)
            && s'.ops.clientWrite == (if |s.clientQ| == 1 then 0 else 1)
            && (|s.clientQ| > 1 ==> s'.clientBuf == s.clientQ[1])
  {
  }

  // -------------------------------------------------------------------- keep-alive

  /** The value is that of the first header of this name, "" if there is none. */
  ghost predicate FirstValue(headers: seq<Header>, name: string, value: string) {
    || (value == "" && forall i | 0 <= i < |headers| :: headers[i].name != name)
    || exists i | 0 <= i < |headers| ::
         headers[i].name == name && headers[i].value == value && forall j | 0 <= j < i :: headers[j].name != name
  }

  lemma {:induction false} HeaderValueIsFirst(headers: seq<Header>, name: string)
    ensures FirstValue(headers, name, HeaderValue(headers, name))
  {
    if headers == [] {
    } else if headers[0].name == name {
      assert headers[0].value == HeaderValue(headers, name);
    } else {
      HeaderValueIsFirst(headers[1..], name);
      FirstValueShift(headers, name, HeaderValue(headers, name));
    }
  }

  lemma FirstValueShift(headers: seq<Header>, name: string, value: string)
    requires headers != [] && headers[0].name != name && FirstValue(headers[1..], name, value)
    ensures FirstValue(headers, name, value)
  {
    var rest := headers[1..];
    assert forall i | 0 < i < |headers| :: headers[i] == rest[i - 1];
    if i :| 0 <= i < |rest| && rest[i].name == name && rest[i].value == value
            && forall j | 0 <= j < i :: rest[j].name != name {
      assert headers[i + 1] == rest[i];
    }
  }

  lemma FirstValueUnique(headers: seq<Header>, name: string, v1: string, v2: string)
    requires FirstValue(headers, name, v1) && FirstValue(headers, name, v2)
    ensures v1 == v2
  {
  }

  lemma KeepAliveIs(req: HttpRequest, res: HttpResponse, connReq: string, connRes: string)
    requires FirstValue(req.headers, "Connection", connReq) && FirstValue(res.headers, "Connection", connRes)
    ensures KeepAlive(true, req, res) <==>
              if req.version == "HTTP/1.1" then !Within("close", connReq) && !Within("close", connRes)
              else Within("keep-alive", connReq) || Within("keep-alive", connRes)
  {
    HeaderValueIsFirst(req.headers, "Connection");
    HeaderValueIsFirst(res.headers, "Connection");
    FirstValueUnique(req.headers, "Connection", connReq, HeaderValue(req.headers, "Connection"));
    FirstValueUnique(res.headers, "Connection", connRes, HeaderValue(res.headers, "Connection"));
    ContainsIsWithin(connReq, "close");
    ContainsIsWithin(connRes, "close");
    ContainsIsWithin(connReq, "keep-alive");
    ContainsIsWithin(connRes, "keep-alive");
    hide FirstValue, HeaderValue, Contains, Within;
  }

  /** A complete response is reported once; then the next request is read, with nothing
      left of this one, or the session closes after the writes still queued.  The
      connection is kept after an HTTP/1.1 request unless either side says close, and
      otherwise only if either side says keep-alive; the first header named
      Connection speaks for its side. */
  lemma AfterResponse(w: World, k: nat, data: string, res: HttpResponse, connReq: string, connRes: string)
    requires Inv(w) && Ready(w, k) && w.sessions[k].ops.upstreamRead > 0
    requires w.sessions[k].cur.ref < |w.heap|
    requires FirstValue(w.heap[w.sessions[k].cur.ref].headers, "Connection", connReq)
    requires FirstValue(res.headers, "Connection", connRes)
    ensures var s, s' := w.sessions[k], After(w, k, UpstreamRead(Ok, data, Complete(res)));
            var kept := if w.heap[s.cur.ref].version == "HTTP/1.1"
                        then !Within("close", connReq) && !Within("close", connRes)
                        else Within("keep-alive", connReq) || Within("keep-alive", connRes);
            && !s'.closed && s'.reports == s.reports + [Report(s.cur.id, s.cur.ref)]
            && s'.clientQ == s.clientQ + [data] && s'.ops.clientWrite == 1 && s'.clientBuf == s'.clientQ[0]
            && (if kept
                then
                  && s'.ops.clientRead == 1 && !s'.closeAfterWrite
                  && s'.cur == Txn(0, false, 0, false) && s'.clientAcc == "" && s'.upstreamAcc == ""
                else
                  && s'.ops.clientRead == s'.ops.decision == s'.ops.upstreamWrite == s'.ops.upstreamRead == 0
                  && s'.closeAfterWrite)
  {
    var s := w.sessions[k];
    KeepAliveIs(w.heap[s.cur.ref], res, connReq, connRes);
    assert Joined(s) && TurnInv(s);
    hide KeepAlive, Inv, FirstValue, Within;
    RelayStep(s, data);
    hide Relay, Downstream;
  }

  // ------------------------------------------------------------------- a decision

  /** Forward: the request object's text is being written.  Drop: one report, and the
      error response after what is queued for the client. */
  lemma AfterDecision(w: World, t: nat)
    requires Inv(w) && Running(w, t) && !w.sessions[w.tickets[t].sess].closed
    ensures w.tickets[t].ref < |w.heap|
    ensures var x := w.tickets[t]; var s, s' := w.sessions[x.sess], Step(w, RunPosted(t)).sessions[x.sess];
            && !s'.closed && s'.ops.decision == 0
            && (if x.status.a == Forward
                then
                  && s'.ops.upstreamWrite == 1 && s'.upstreamBuf == Serialize(w.heap[x.ref])
                  && s'.upstreamQ == [Serialize(w.heap[x.ref])] && s'.reports == s.reports
                else
                  && s'.ops.upstreamWrite == 0 && s'.closeAfterWrite && s'.ops.clientWrite == 1
                  && s'.reports == s.reports + [Report(x.id, x.ref)]
                  && s'.clientQ == s.clientQ + ["HTTP/1.1 502 " + "Request Dropped by BurpTUI" + "\r\n"
                                                + "Content-Length: 0" + "\r\n" + "Connection: close" + "\r\n" + "\r\n"])
  {
    var x := w.tickets[t];
    OpenRuns(w, t);
    DecisionIsCurrent(w, t);
    DropText();
    hide Inv, Serialize, ErrorText, DROPPED;
    DecisionLeads(w.sessions[x.sess], x.status.a, w.heap[x.ref]);
  }

  lemma DropText()
    ensures ErrorText(DROPPED) == "HTTP/1.1 502 " + "Request Dropped by BurpTUI" + "\r\n"
                                  + "Content-Length: 0" + "\r\n" + "Connection: close" + "\r\n" + "\r\n"
  {
  }

  lemma DecisionLeads(s: Session, a: Action, req: HttpRequest)
    requires SessionInv(s) && s.ops.decision == 1 && !s.closed
    ensures var s' := OnDecision(s.(ops := s.ops.(decision := 0)), a, req);
            && !s'.closed && s'.ops.decision == 0
            && (if a == Forward
                then
                  && s'.ops.upstreamWrite == 1 && s'.upstreamBuf == Serialize(req)
                  && s'.upstreamQ == [Serialize(req)] && s'.reports == s.reports
                else
                  && s'.ops.upstreamWrite == 0 && s'.closeAfterWrite && s'.ops.clientWrite == 1
                  && s'.reports == s.reports + [Report(s.cur.id, s.cur.ref)]
                  && s'.clientQ == s.clientQ + [ErrorText(DROPPED)])
  {
    hide Serialize, ErrorText;
  }

  // ----------------------------------------------------------- exactly when it closes

  /** The causes: the timer; a handshake, established, read or write operation that
      failed; no certificate context; an incomplete request of a mebibyte; the raw error
      response written; the last client write when the session is closing. */
  ghost predicate Cause(s: Session, h: Handler) {
    || h.TimerFired?
    || (h.Established? && s.ops.established > 0 && (h.ec != Ok || !h.haveContext))
    || (h.ClientHandshake? && s.ops.clientHs > 0 && h.ec != Ok)
    || (h.UpstreamHandshake? && s.ops.upstreamHs > 0 && h.ec != Ok)
    || (h.ClientRead? && s.ops.clientRead > 0
        && (h.ec != Ok || (h.request.Incomplete? && |s.clientAcc| + |h.data| >= 0x10_0000)))
    || (h.UpstreamWritten? && s.ops.upstreamWrite > 0 && h.ec != Ok)
    || (h.UpstreamRead? && s.ops.upstreamRead > 0 && h.ec != Ok)
    || (h.ClientWritten? && s.ops.clientWrite > 0 && (h.ec != Ok || (|s.clientQ| == 1 && s.closeAfterWrite)))
    || (h.RawErrorWritten? && s.ops.rawError > 0)
  }

  lemma UpstreamReadCloses(w: World, k: nat, ec: Ec, data: string, parse: Parse<HttpResponse>)
    requires Ready(w, k)
    ensures After(w, k, UpstreamRead(ec, data, parse)).closed <==> w.sessions[k].ops.upstreamRead > 0 && ec != Ok
  {
    var s := w.sessions[k];
    if s.ops.upstreamRead == 0 {
    } else if ec != Ok {
      AfterReadError(w, k, ec, data, parse);
    } else if parse.Complete? {
      AnsweredStep(s, data, parse.message, Current(w, s));
      hide OnUpstreamRead, SessionInv;
    } else {
      AfterChunk(w, k, data, parse);
    }
  }

  lemma ClientReadCloses(w: World, k: nat, ec: Ec, data: string, parse: Parse<HttpRequest>, seen: bool)
    requires Ready(w, k)
    ensures After(w, k, ClientRead(ec, data, parse, seen)).closed <==>
              && w.sessions[k].ops.clientRead > 0
              && (ec != Ok || (parse.Incomplete? && |w.sessions[k].clientAcc| + |data| >= 0x10_0000))
  {
    hide Serialize, RemovedById;
  }

  lemma ConnectCloses(w: World, k: nat, h: Handler)
    requires Ready(w, k) && (h.Resolved? || h.Connected? || h.Established? || h.RawErrorWritten? || h.TimerFired?)
    ensures After(w, k, h).closed <==> Cause(w.sessions[k], h)
  {
    hide ErrorText, RemovedById, OpenInv;
  }

  lemma HandshakeCloses(w: World, k: nat, h: Handler)
    requires Ready(w, k) && (h.ClientHandshake? || h.UpstreamHandshake?)
    ensures After(w, k, h).closed <==> Cause(w.sessions[k], h)
  {
    hide RemovedById, OpenInv;
  }

  lemma WriteCloses(w: World, k: nat, h: Handler)
    requires Ready(w, k) && (h.UpstreamWritten? || h.ClientWritten?)
    ensures After(w, k, h).closed <==> Cause(w.sessions[k], h)
  {
    hide RemovedById;
  }

  lemma HandlerCloses(w: World, k: nat, h: Handler)
    requires Ready(w, k)
    ensures After(w, k, h).closed <==> Cause(w.sessions[k], h)
  {
    hide After, Ready;
    match h
    case Resolved(_) => ConnectCloses(w, k, h);
    case Connected(_) => ConnectCloses(w, k, h);
    case Established(_, _) => ConnectCloses(w, k, h);
    case RawErrorWritten => ConnectCloses(w, k, h);
    case TimerFired => ConnectCloses(w, k, h);
    case ClientHandshake(_) => HandshakeCloses(w, k, h);
    case UpstreamHandshake(_) => HandshakeCloses(w, k, h);
    case ClientRead(ec, data, req, seen) => ClientReadCloses(w, k, ec, data, req, seen);
    case UpstreamRead(ec, data, res) => UpstreamReadCloses(w, k, ec, data, res);
    case UpstreamWritten(_) => WriteCloses(w, k, h);
    case ClientWritten(_) => WriteCloses(w, k, h);
  }

  /** In every run an open session closes in a step exactly when that step is one of its
      own handlers and has a cause; nothing the user interface does closes it. */
  lemma {:induction false} ClosesExactly(n: nat, events: seq<Event>, e: Event, k: nat)
    requires k < |Exec(n, events).sessions| && !Exec(n, events).sessions[k].closed
    ensures k < |Exec(n, events + [e]).sessions|
    ensures Exec(n, events + [e]).sessions[k].closed <==>
              e.At? && e.k == k && Cause(Exec(n, events).sessions[k], e.h)
  {
    var w := Exec(n, events);
    assert (events + [e])[..|events|] == events;
    AlwaysHolds(n, events);
    assert SessionOk(w, k);
    hide Exec;
    assert Exec(n, events + [e]) == Step(w, e) by { ExecSnoc(n, events, e); }
    StepCloses(w, e, k);
  }

  lemma ExecSnoc(n: nat, events: seq<Event>, e: Event)
    ensures Exec(n, events + [e]) == Step(Exec(n, events), e)
  {
    assert (events + [e])[..|events|] == events;
  }

  lemma StepCloses(w: World, e: Event, k: nat)
    requires Inv(w) && Ready(w, k)
    ensures k < |Step(w, e).sessions|
    ensures Step(w, e).sessions[k].closed <==> e.At? && e.k == k && Cause(w.sessions[k], e.h)
  {
    hide Handled, SessionInv, Cause;
    match e {
      case At(j, h) => if j == k { HandlerCloses(w, k, h); }
      case RunPosted(t) =>
        if t < |w.tickets| && w.tickets[t].status.Posted? && w.tickets[t].sess == k {
          hide OnDecision, Serialize;
          AfterDecision(w, t);
        }
      case TakeFront(_, _) =>
      case TakeAll(_, _) =>
      case Deliver(_) =>
      case Edit(_, _) =>
      case PlainRequest(_, _, _) =>
      case PlainClose(_) =>
    }
  }
}
