/** The parser's callbacks: llhttp calls them with pieces of the message, cut wherever
    the network cut it; they assemble headers and body (src/http/HttpParser.cpp). */
module HttpParsers {
  import opened HttpRequests

  const MAX_BODY_SIZE := 1048576
  const MARKER: string := "\n\n[--- Body truncated for UI ---]"

  datatype Callback =
    | OnUrl(at: string)
    | OnStatus(at: string)
    | OnHeaderField(at: string)
    | OnHeaderValue(at: string)
    | OnBody(at: string)
    | OnMessageComplete(method_: string, statusCode: int, version: string)

  function Join(pieces: seq<string>): string {
    if pieces == [] then "" else Join(pieces[..|pieces| - 1]) + pieces[|pieces| - 1]
  }

  // ------------------------------------------------------------------ header assembly

  datatype Assembly = Assembly(field: string, value: string, lastWasField: bool, headers: seq<Header>)
  const NOTHING := Assembly("", "", false, [])

  function Commit(a: Assembly): Assembly {
    if a.field != "" then Assembly("", "", a.lastWasField, a.headers + [Header(a.field, a.value)]) else a
  }

  function FieldPiece(a: Assembly, at: string): Assembly {
    var b := if a.lastWasField then a else Commit(a);
    b.(field := b.field + at, lastWasField := true)
  }

  function ValuePiece(a: Assembly, at: string): Assembly {
    a.(value := a.value + at, lastWasField := false)
  }

  function FieldPieces(a: Assembly, pieces: seq<string>): Assembly {
    if pieces == [] then a else FieldPiece(FieldPieces(a, pieces[..|pieces| - 1]), pieces[|pieces| - 1])
  }

  function ValuePieces(a: Assembly, pieces: seq<string>): Assembly {
    if pieces == [] then a else ValuePiece(ValuePieces(a, pieces[..|pieces| - 1]), pieces[|pieces| - 1])
  }

  /** One header as it arrives: its name in pieces, then its value in pieces. */
  datatype Cut = Cut(name: seq<string>, value: seq<string>)

  predicate WellCut(c: Cut) {
    c.name != [] && c.value != []
  }

  function Whole(c: Cut): Header {
    Header(Join(c.name), Join(c.value))
  }

  function Wholes(cs: seq<Cut>): (hs: seq<Header>)
    ensures |hs| == |cs|
  {
    seq(|cs|, i requires 0 <= i < |cs| => Whole(cs[i]))
  }

  function Arrive(a: Assembly, cs: seq<Cut>): Assembly {
    if cs == [] then a
    else
      var c := cs[|cs| - 1];
      ValuePieces(FieldPieces(Arrive(a, cs[..|cs| - 1]), c.name), c.value)
  }

  /** What must come out: a header without a name is not kept, but its value is carried
      over to the front of the next one. */
  function Merged(hs: seq<Header>): (r: (seq<Header>, string)) {
    if hs == [] then ([], "")
    else
      var (kept, carry) := Merged(hs[..|hs| - 1]);
      var h := hs[|hs| - 1];
      if h.name == "" then (kept, carry + h.value) else (kept + [Header(h.name, carry + h.value)], "")
  }

  lemma {:induction false} FieldsJoin(a: Assembly, pieces: seq<string>)
    requires pieces != []
    ensures var b := if a.lastWasField then a else Commit(a);
            FieldPieces(a, pieces) == b.(field := b.field + Join(pieces), lastWasField := true)
  {
    var front := pieces[..|pieces| - 1];
    if front == [] {
      assert "" + pieces[0] == pieces[0];
    } else {
      FieldsJoin(a, front);
      var b := if a.lastWasField then a else Commit(a);
      assert (b.field + Join(front)) + pieces[|pieces| - 1] == b.field + Join(pieces);
    }
  }

  lemma {:induction false} ValuesJoin(a: Assembly, pieces: seq<string>)
    requires pieces != []
    ensures ValuePieces(a, pieces) == a.(value := a.value + Join(pieces), lastWasField := false)
  {
    var front := pieces[..|pieces| - 1];
    if front == [] {
      assert "" + pieces[0] == pieces[0];
    } else {
      ValuesJoin(a, front);
      assert (a.value + Join(front)) + pieces[|pieces| - 1] == a.value + Join(pieces);
    }
  }

  /** Between two headers: the last header waits for its commit, or only its value
      waits when it has no name. */
  lemma {:induction false} ArriveIs(cs: seq<Cut>)
    requires forall i | 0 <= i < |cs| :: WellCut(cs[i])
    ensures var a := Arrive(NOTHING, cs);
            !a.lastWasField && (Commit(a).headers, Commit(a).value) == Merged(Wholes(cs)) && Commit(a).field == ""
  {
    if cs == [] {
    } else {
      var front, c := cs[..|cs| - 1], cs[|cs| - 1];
      ArriveIs(front);
      assert Wholes(cs)[..|cs| - 1] == Wholes(front);
      var b := Commit(Arrive(NOTHING, front));
      FieldsJoin(Arrive(NOTHING, front), c.name);
      ValuesJoin(FieldPieces(Arrive(NOTHING, front), c.name), c.value);
      assert "" + Join(c.name) == Join(c.name);
      hide FieldPieces, ValuePieces, Join;
    }
  }

  /** However the headers are cut into pieces, the list is the same. */
  lemma {:induction false} HeadersOfCuts(cs: seq<Cut>)
    requires forall i | 0 <= i < |cs| :: WellCut(cs[i])
    ensures Commit(Arrive(NOTHING, cs)).headers == Merged(Wholes(cs)).0
  {
    ArriveIs(cs);
  }

  lemma {:induction false} ChunkingDoesNotMatter(cs: seq<Cut>, ds: seq<Cut>)
    requires forall i | 0 <= i < |cs| :: WellCut(cs[i])
    requires forall i | 0 <= i < |ds| :: WellCut(ds[i])
    requires Wholes(cs) == Wholes(ds)
    ensures Commit(Arrive(NOTHING, cs)).headers == Commit(Arrive(NOTHING, ds)).headers
  {
    ArriveIs(cs);
    ArriveIs(ds);
  }

  lemma {:induction false} MergedKeeps(hs: seq<Header>)
    ensures |Merged(hs).0| <= |hs|
    ensures Merged(hs) == (hs, "") <==> forall h | h in hs :: h.name != ""
    ensures |Merged(hs).0| == |hs| ==> Merged(hs) == (hs, "")
  {
    if hs == [] {
    } else {
      var front, h := hs[..|hs| - 1], hs[|hs| - 1];
      MergedKeeps(front);
      assert hs == front + [h];
      assert "" + h.value == h.value;
      assert h in hs;
      assert (forall x | x in hs :: x.name != "") <==> (forall x | x in front :: x.name != "") && h.name != "";
    }
  }

  /** The header list comes out as it was sent exactly when every name is non-empty. */
  lemma {:induction false} HeadersRecovered(cs: seq<Cut>)
    requires forall i | 0 <= i < |cs| :: WellCut(cs[i])
    ensures Commit(Arrive(NOTHING, cs)).headers == Wholes(cs) <==> forall h | h in Wholes(cs) :: h.name != ""
  {
    ArriveIs(cs);
    MergedKeeps(Wholes(cs));
  }

  /** A nameless header vanishes and its value is put in front of the next one. */
  lemma NamelessHeaderMerges(value: string, h: Header)
    requires h.name != ""
    ensures Merged([Header("", value), h]).0 == [Header(h.name, value + h.value)]
  {
    var hs := [Header("", value), h];
    assert hs[..1] == [Header("", value)] && hs[..1][..0] == [];
    assert "" + value == value;
    assert Merged([Header("", value)]) == ([], value);
  }

  // ---------------------------------------------------------------------------- body

  function BodyPiece(body: string, at: string): string {
    if |body| >= MAX_BODY_SIZE then body
    else
      var space := MAX_BODY_SIZE - |body|;
      if |at| <= space then body + at else body + at[..space] + MARKER
  }

  function BodyPieces(chunks: seq<string>): string {
    if chunks == [] then "" else BodyPiece(BodyPieces(chunks[..|chunks| - 1]), chunks[|chunks| - 1])
  }

  function Prefix(s: string, n: nat): string {
    if |s| <= n then s else s[..n]
  }

  /** The i-th chunk starts before the limit and ends after it. */
  predicate StraddlesAt(chunks: seq<string>, i: nat)
    requires i < |chunks|
  {
    |Join(chunks[..i])| < MAX_BODY_SIZE < |Join(chunks[..i])| + |chunks[i]|
  }

  predicate Straddles(chunks: seq<string>) {
    exists i | 0 <= i < |chunks| :: StraddlesAt(chunks, i)
  }

  lemma StraddlesSnoc(chunks: seq<string>)
    requires chunks != []
    ensures Straddles(chunks) <==> Straddles(chunks[..|chunks| - 1]) || StraddlesAt(chunks, |chunks| - 1)
  {
    var n := |chunks| - 1;
    forall i: nat | i < n ensures StraddlesAt(chunks, i) <==> StraddlesAt(chunks[..n], i) {
      assert chunks[..n][..i] == chunks[..i];
    }
  }

  lemma {:induction false} StraddledIsLong(chunks: seq<string>)
    ensures Straddles(chunks) ==> |Join(chunks)| > MAX_BODY_SIZE
  {
    if chunks == [] {
    } else {
      StraddlesSnoc(chunks);
      StraddledIsLong(chunks[..|chunks| - 1]);
      hide Straddles;
    }
  }

  /** The stored body is the first 2^20 bytes, and then the marker exactly when some
      chunk straddles the limit. */
  lemma {:induction false} BodyIs(chunks: seq<string>)
    ensures BodyPieces(chunks) == Prefix(Join(chunks), MAX_BODY_SIZE) + (if Straddles(chunks) then MARKER else "")
  {
    if chunks == [] {
    } else {
      var front, at := chunks[..|chunks| - 1], chunks[|chunks| - 1];
      BodyIs(front);
      StraddlesSnoc(chunks);
      StraddledIsLong(front);
      hide Straddles, Join;
      BodyGrows(Join(front), at, Straddles(front));
    }
  }

  lemma BodyGrows(data: string, at: string, marked: bool)
    requires marked ==> |data| > MAX_BODY_SIZE
    ensures var body := Prefix(data, MAX_BODY_SIZE) + (if marked then MARKER else "");
            BodyPiece(body, at) == Prefix(data + at, MAX_BODY_SIZE)
              + (if marked || |data| < MAX_BODY_SIZE < |data| + |at| then MARKER else "")
  {
    hide MARKER;
    var body := Prefix(data, MAX_BODY_SIZE) + (if marked then MARKER else "");
    if |data| < MAX_BODY_SIZE {
      assert body == data;
      var space := MAX_BODY_SIZE - |data|;
      if |at| > space { assert (data + at)[..MAX_BODY_SIZE] == data + at[..space]; }
    } else {
      assert |body| >= MAX_BODY_SIZE;
      assert (data + at)[..MAX_BODY_SIZE] == data[..MAX_BODY_SIZE];
    }
  }

  /** A long body goes unmarked exactly when some chunks end right at the limit. */
  lemma {:induction false} UnmarkedWhenAligned(chunks: seq<string>)
    requires |Join(chunks)| > MAX_BODY_SIZE
    ensures Straddles(chunks) <==> forall i | 0 <= i <= |chunks| :: |Join(chunks[..i])| != MAX_BODY_SIZE
  {
    var n := |chunks| - 1;
    var front := chunks[..n];
    StraddlesSnoc(chunks);
    forall i | 0 <= i <= n ensures front[..i] == chunks[..i] { assert front[..i] == chunks[..i]; }
    assert chunks[..n + 1] == chunks;
    assert front[..n] == front;
    hide Straddles;
    if |Join(front)| > MAX_BODY_SIZE {
      UnmarkedWhenAligned(front);
      assert (forall i | 0 <= i <= |chunks| :: |Join(chunks[..i])| != MAX_BODY_SIZE)
             <==> (forall i | 0 <= i <= n :: |Join(front[..i])| != MAX_BODY_SIZE);
    } else {
      StraddledIsLong(front);
      if |Join(front)| < MAX_BODY_SIZE {
        forall i | 0 <= i <= n ensures |Join(chunks[..i])| <= |Join(front)| { JoinGrows(front, i); }
      } else {
        assert |Join(chunks[..n])| == MAX_BODY_SIZE;
      }
    }
  }

  lemma {:induction false} JoinGrows(chunks: seq<string>, i: nat)
    requires i <= |chunks|
    ensures |Join(chunks[..i])| <= |Join(chunks)|
  {
    if i == |chunks| {
      assert chunks[..i] == chunks;
    } else {
      JoinGrows(chunks[..|chunks| - 1], i);
      assert chunks[..|chunks| - 1][..i] == chunks[..i];
    }
  }

  /** A first chunk of exactly the limit and then more: the body is cut without a marker. */
  lemma AlignedBodyUnmarked(first: string, more: string)
    requires |first| == MAX_BODY_SIZE && more != ""
    ensures |Join([first, more])| > MAX_BODY_SIZE && BodyPieces([first, more]) == first
  {
    var chunks := [first, more];
    JoinOne(first);
    JoinOne(more);
    JoinConcat([first], [more]);
    assert chunks[..1] == [first] && chunks == [first] + [more];
    UnmarkedWhenAligned(chunks);
    BodyIs(chunks);
    hide Straddles, BodyPieces;
    assert |Join(chunks[..1])| == MAX_BODY_SIZE;
    assert (first + more)[..MAX_BODY_SIZE] == first;
    assert first + "" == first;
  }

  // ------------------------------------------------------------- without the constants

  /** The pieces end to end. */
  lemma {:induction false} JoinConcat(a: seq<string>, b: seq<string>)
    ensures Join(a + b) == Join(a) + Join(b)
  {
    if b == [] {
      assert a + b == a;
    } else {
      var n := |b| - 1;
      JoinConcat(a, b[..n]);
      assert (a + b)[..|a + b| - 1] == a + b[..n];
      assert Join(a + b) == Join(a + b[..n]) + b[n];
    }
  }

  lemma JoinOne(piece: string)
    ensures Join([]) == "" && Join([piece]) == piece
  {
    assert [piece][..0] == [];
    assert "" + piece == piece;
  }

  /** A body of at most 1048576 bytes is stored whole; of a longer one that much is
      stored, and the marker after it if it was cut within a chunk. */
  lemma StoredBody(before: seq<string>, chunk: string, after: seq<string>)
    ensures var whole := Join(before + [chunk] + after);
            && (|whole| <= 1048576 ==> BodyPieces(before + [chunk] + after) == whole)
            && (|Join(before)| < 1048576 < |Join(before)| + |chunk| ==>
                  |whole| > 1048576 && BodyPieces(before + [chunk] + after) ==
                    whole[..1048576] + "\n\n[--- Body truncated for UI ---]")
            && (|Join(before)| == 1048576 && chunk != "" ==>
                  |whole| > 1048576 && BodyPieces(before + [chunk] + after) == whole[..1048576])
  {
    var chunks, n := before + [chunk] + after, |before|;
    BodyIs(chunks);
    StraddledIsLong(chunks);
    JoinConcat(before + [chunk], after);
    JoinConcat(before, [chunk]);
    JoinOne(chunk);
    assert chunks[..n] == before && chunks[n] == chunk;
    hide Join, BodyPieces;
    if |Join(before)| < MAX_BODY_SIZE < |Join(before)| + |chunk| {
      assert StraddlesAt(chunks, n);
    }
    if |Join(before)| == MAX_BODY_SIZE && chunk != "" {
      UnmarkedWhenAligned(chunks);
    }
  }
}
