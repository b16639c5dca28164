/** The request normaliser of the Repeater tab (src/tui/RepeaterManager.cpp:150-191). */
module Repeater {
  import opened Text
  import opened HttpRequests
  import opened MessageLaws

  const HOST: string := "Host:"
  const HOST_LOWER: string := "host:"
  const CONNECTION: string := "Connection:"
  const CONNECTION_LOWER: string := "connection:"
  const CONNECTION_CLOSE: string := "Connection: close"

  predicate Names(t: string, name: string, lower: string) {
    Contains(t, name) || Contains(t, lower)
  }

  function InsertAfterFirst(t: string, l: string): string {
    var end := Find(t, CRLF);
    if end.Some? then t[..end.value + 2] + l + CRLF + t[end.value + 2..] else t
  }

  function Ensured(t: string, name: string, lower: string, l: string): string {
    if Names(t, name, lower) then t else InsertAfterFirst(t, l)
  }

  function Normalised(raw: string, host: string): string {
    Ensured(Ensured(NormalText(raw), HOST, HOST_LOWER, "Host: " + host), CONNECTION, CONNECTION_LOWER, CONNECTION_CLOSE)
  }

  method NormalizeForSending(raw: string, host: string) returns (req: string)
    ensures req == Normalised(raw, host)
  {
    var str;
    str, req := NormalizeMessage(raw);
    req := EnsureHeader(req, HOST, HOST_LOWER, "Host: " + host);
    req := EnsureHeader(req, CONNECTION, CONNECTION_LOWER, CONNECTION_CLOSE);
  }

  method EnsureHeader(t: string, name: string, lower: string, l: string) returns (r: string)
    ensures r == Ensured(t, name, lower, l)
  {
    r := t;
    if Find(r, name) == None && Find(r, lower) == None {
      var firstLineEnd := Find(r, CRLF);
      if firstLineEnd != None {
        r := r[..firstLineEnd.value + 2] + (l + CRLF) + r[firstLineEnd.value + 2..];
      }
    }
  }

  // ------------------------------------------------------------ line insertion

  lemma FirstLineEnd(ls: seq<string>)
    requires IsDocument(ls) && |ls| > 1
    ensures Find(Unlines(ls, CRLF), CRLF) == Some(|ls[0]|)
  {
    var t := Unlines(ls, CRLF);
    var n := |ls[0]|;
    forall j: nat | j < n ensures !OccursAt(t, CRLF, j) {
      assert t[j] == ls[0][j] && ls[0][j] in ls[0];
      Mismatch(t, CRLF, j, 0);
    }
    assert t[n..n + 2] == CRLF;
    FindIs(t, CRLF, n);
  }

  function InsertLine(ls: seq<string>, l: string): seq<string>
    requires ls != []
  {
    [ls[0], l] + ls[1..]
  }

  lemma InsertionIsALine(ls: seq<string>, l: string)
    requires IsDocument(ls) && HasBlank(ls) && IsLine(l) && l != ""
    ensures InsertAfterFirst(Unlines(ls, CRLF), l) == Unlines(InsertLine(ls, l), CRLF)
    ensures var r := InsertLine(ls, l);
            IsDocument(r) && HasBlank(r) && BlankIndex(r, 1) == BlankIndex(ls, 1) + 1
  {
    FirstLineEnd(ls);
    var r := InsertLine(ls, l);
    var t := Unlines(ls, CRLF);
    var n := |ls[0]| + 2;
    assert t[..n] == ls[0] + CRLF && t[n..] == Unlines(ls[1..], CRLF);
    assert r[1..] == [l] + ls[1..];
    assert r[1..][1..] == ls[1..];
    BlankShift(ls, l, 1);
  }

  lemma {:induction false} BlankShift(ls: seq<string>, l: string, from: nat)
    requires ls != [] && l != "" && 1 <= from
    ensures BlankIndex(InsertLine(ls, l), from + 1) == BlankIndex(ls, from) + 1
    ensures from == 1 && |ls| > 1 ==> BlankIndex(InsertLine(ls, l), 1) == BlankIndex(ls, 1) + 1
    decreases |ls| - from
  {
    if from + 1 >= |ls| {
    } else {
      assert InsertLine(ls, l)[from + 1] == ls[from];
      if ls[from] != "" {
        BlankShift(ls, l, from + 1);
      }
    }
  }

  /** A name inside one line is not torn by inserting a line. */
  lemma InsertionKeeps(t: string, l: string, pat: string)
    requires Contains(t, pat) && '\n' !in pat
    ensures Contains(InsertAfterFirst(t, l), pat)
  {
    var end := Find(t, CRLF);
    if end.Some? {
      var n := end.value + 2;
      assert t[n - 1] == '\n' by { assert t[n - 2..n][1] == '\n'; }
      var i := Find(t, pat).value;
      NotTorn(t, n, l + CRLF, pat, i);
      var r := t[..n] + (l + CRLF) + t[n..];
      assert InsertAfterFirst(t, l) == t[..n] + l + CRLF + t[n..] == r;
      hide OccursAt, Find, InsertAfterFirst;
      Occurs(r, pat, if i < n && pat != "" then i else i + |l| + 2);
    }
  }

  lemma NotTorn(t: string, n: nat, x: string, pat: string, i: nat)
    requires 0 < n <= |t| && t[n - 1] == '\n' && OccursAt(t, pat, i) && '\n' !in pat
    ensures OccursAt(t[..n] + x + t[n..], pat, if i < n && pat != "" then i else i + |x|)
  {
    var r := t[..n] + x + t[n..];
    if i < n && pat != "" {
      forall j | i <= j < i + |pat| ensures t[j] != '\n' {
        assert t[i..i + |pat|][j - i] == pat[j - i];
        assert pat[j - i] in pat;
      }
      assert i + |pat| <= n - 1;
      assert r[i..i + |pat|] == t[i..i + |pat|];
    } else if pat != "" {
      assert r[i + |x|..i + |x| + |pat|] == t[i..i + |pat|];
    }
  }

  lemma InsertionShows(t: string, l: string, pat: string)
    requires Contains(t, CRLF) && pat <= l
    ensures Contains(InsertAfterFirst(t, l), pat)
  {
    var n := Find(t, CRLF).value + 2;
    var r := InsertAfterFirst(t, l);
    assert r[n..n + |pat|] == pat;
    Occurs(r, pat, n);
  }

  // ------------------------------------------------------------------- results

  /** The header lines the normaliser puts in front of the others. */
  function AddedLines(raw: string, host: string): seq<string> {
    var hosted := Ensured(NormalText(raw), HOST, HOST_LOWER, "Host: " + host);
    (if Names(hosted, CONNECTION, CONNECTION_LOWER) then [] else [CONNECTION_CLOSE])
    + (if Names(NormalText(raw), HOST, HOST_LOWER) then [] else ["Host: " + host])
  }

  function EnsuredLines(ls: seq<string>, name: string, lower: string, l: string): seq<string>
    requires ls != []
  {
    if Names(Unlines(ls, CRLF), name, lower) then ls else InsertLine(ls, l)
  }

  lemma EnsuredIsLines(ls: seq<string>, name: string, lower: string, l: string)
    requires IsDocument(ls) && HasBlank(ls) && IsLine(l) && l != ""
    ensures var r := EnsuredLines(ls, name, lower, l);
            && Ensured(Unlines(ls, CRLF), name, lower, l) == Unlines(r, CRLF)
            && IsDocument(r) && HasBlank(r) && r[BlankIndex(r, 1) + 1..] == ls[BlankIndex(ls, 1) + 1..]
  {
    InsertionIsALine(ls, l);
    hide Find, BlankIndex, Unlines, InsertAfterFirst;
  }

  /** The lines of the result. */
  function NormalisedAs(raw: string, host: string): seq<string> {
    var hosted := EnsuredLines(MessageLines(raw), HOST, HOST_LOWER, "Host: " + host);
    EnsuredLines(hosted, CONNECTION, CONNECTION_LOWER, CONNECTION_CLOSE)
  }

  lemma NormalisedShape(raw: string, host: string)
    requires IsLine(host)
    ensures var ls := MessageLines(raw); var r := NormalisedAs(raw, host);
            && Normalised(raw, host) == Unlines(r, CRLF) && IsDocument(r) && HasBlank(r) && HasBlank(ls)
            && r[BlankIndex(r, 1) + 1..] == ls[BlankIndex(ls, 1) + 1..]
  {
    var ls := MessageLines(raw);
    TerminatorAdded(LinesOf(Sanitize(raw)));
    EnsuredIsLines(ls, HOST, HOST_LOWER, "Host: " + host);
    EnsuredIsLines(EnsuredLines(ls, HOST, HOST_LOWER, "Host: " + host), CONNECTION, CONNECTION_LOWER, CONNECTION_CLOSE);
  }

  /** The result is the normal form with those lines after the start line, and
      nothing else touched. */
  lemma NormalisedLines(raw: string, host: string)
    requires IsLine(host)
    ensures LinesOf(Normalised(raw, host)) == [MessageLines(raw)[0]] + AddedLines(raw, host) + MessageLines(raw)[1..]
  {
    var ls := MessageLines(raw);
    hide Normalised, NormalisedAs, EnsuredLines, Ensured, LinesOf, Unlines, MessageLines, AddedLines, HasBlank;
    NormalisedShape(raw, host);
    LinesRoundTrip(NormalisedAs(raw, host), CRLF);
    EnsuredIsLines(ls, HOST, HOST_LOWER, "Host: " + host);
    AddedAre(raw, host);
  }

  lemma AddedAre(raw: string, host: string)
    requires var ls := MessageLines(raw);
             Ensured(Unlines(ls, CRLF), HOST, HOST_LOWER, "Host: " + host) ==
               Unlines(EnsuredLines(ls, HOST, HOST_LOWER, "Host: " + host), CRLF)
    ensures NormalisedAs(raw, host) == [MessageLines(raw)[0]] + AddedLines(raw, host) + MessageLines(raw)[1..]
  {
    var ls := MessageLines(raw);
    assert NormalText(raw) == Unlines(ls, CRLF);
    hide Names, Ensured, Unlines, MessageLines, NormalText, EnsuredLines;
    TwoEnsured(ls, HOST, HOST_LOWER, "Host: " + host, CONNECTION, CONNECTION_LOWER, CONNECTION_CLOSE);
  }

  lemma TwoEnsured(ls: seq<string>, n1: string, low1: string, l1: string, n2: string, low2: string, l2: string)
    requires ls != []
    ensures EnsuredLines(ls, n1, low1, l1) != []
    ensures var first := EnsuredLines(ls, n1, low1, l1);
            EnsuredLines(first, n2, low2, l2) ==
              [ls[0]]
              + ((if Names(Unlines(first, CRLF), n2, low2) then [] else [l2])
                 + (if Names(Unlines(ls, CRLF), n1, low1) then [] else [l1]))
              + ls[1..]
  {
    hide Names, Unlines, EnsuredLines;
    OneEnsured(ls, n1, low1, l1);
    OneEnsured(EnsuredLines(ls, n1, low1, l1), n2, low2, l2);
  }

  lemma OneEnsured(ls: seq<string>, name: string, lower: string, l: string)
    requires ls != []
    ensures var r := EnsuredLines(ls, name, lower, l);
            && r != [] && r[0] == ls[0]
            && r[1..] == (if Names(Unlines(ls, CRLF), name, lower) then [] else [l]) + ls[1..]
            && r == [r[0]] + r[1..]
  {
    hide Names, Unlines;
  }

  /** What leaves the Repeater is a CRLF-normal message with a closed header
      section, both names, the start line of the edited text and its exact body. */
  lemma NormalisedMessage(raw: string, host: string)
    requires IsLine(host)
    ensures var o := Normalised(raw, host);
            && CrlfNormal(o) && Contains(o, BLANK_LINE)
            && Names(o, HOST, HOST_LOWER) && Names(o, CONNECTION, CONNECTION_LOWER)
            && LinesOf(o)[0] == MessageLines(raw)[0]
            && AfterBlankLine(o) == AfterBlankLine(NormalText(raw))
  {
    NormalisedBody(raw, host);
    NamesPresent(raw, host);
    NormalisedLines(raw, host);
    hide Find, Normalised, AddedLines, LinesOf, MessageLines, AfterBlankLine, NormalText, CrlfNormal;
  }

  lemma NormalisedBody(raw: string, host: string)
    requires IsLine(host)
    ensures var o := Normalised(raw, host);
            CrlfNormal(o) && Contains(o, BLANK_LINE) && AfterBlankLine(o) == AfterBlankLine(NormalText(raw))
  {
    NormalisedShape(raw, host);
    SameTail(MessageLines(raw), NormalisedAs(raw, host));
  }

  lemma SameTail(ls: seq<string>, r: seq<string>)
    requires IsDocument(ls) && HasBlank(ls) && IsDocument(r) && HasBlank(r)
    requires r[BlankIndex(r, 1) + 1..] == ls[BlankIndex(ls, 1) + 1..]
    ensures var o := Unlines(r, CRLF);
            CrlfNormal(o) && Contains(o, BLANK_LINE) && AfterBlankLine(o) == AfterBlankLine(Unlines(ls, CRLF))
  {
    UnlinesIsNormal(r);
    FindBlank(r);
    BlankTextShape(ls);
    BlankTextShape(r);
    hide BlankIndex, AfterBlankLine, Find;
  }

  lemma NamesPresent(raw: string, host: string)
    ensures var o := Normalised(raw, host); Names(o, HOST, HOST_LOWER) && Names(o, CONNECTION, CONNECTION_LOWER)
  {
    var t := NormalText(raw);
    TerminatorAdded(LinesOf(Sanitize(raw)));
    FirstLineEnd(MessageLines(raw));
    var hostLine := "Host: " + host;
    assert hostLine[..5] == HOST;
    InsertionShows(t, hostLine, HOST);
    var hosted := Ensured(t, HOST, HOST_LOWER, hostLine);
    assert CONNECTION_CLOSE[..11] == CONNECTION;
    if Contains(hosted, HOST) {
      InsertionKeeps(hosted, CONNECTION_CLOSE, HOST);
    } else {
      InsertionKeeps(hosted, CONNECTION_CLOSE, HOST_LOWER);
    }
    if !Names(t, HOST, HOST_LOWER) {
      HasCrlf(t, hostLine);
    }
    InsertionShows(hosted, CONNECTION_CLOSE, CONNECTION);
  }

  lemma HasCrlf(t: string, l: string)
    requires Contains(t, CRLF)
    ensures Contains(InsertAfterFirst(t, l), CRLF)
  {
    var end := Find(t, CRLF).value;
    var r := InsertAfterFirst(t, l);
    assert r[end..end + 2] == t[end..end + 2] == CRLF;
    Occurs(r, CRLF, end);
  }

  /** Sending the result again, to whatever host, changes nothing if no marker is
      left in it. */
  lemma NormalisedIdempotent(raw: string, host: string, otherHost: string)
    requires IsLine(host) && Unmarked(Normalised(raw, host))
    ensures Normalised(Normalised(raw, host), otherHost) == Normalised(raw, host)
  {
    NormalisedMessage(raw, host);
    NormalTextFixes(Normalised(raw, host));
  }
}
