/** What holds between the printer, the parser and edited text. */
module MessageLaws {
  import opened Text
  import opened HttpRequests

  /** Whatever is edited, the bytes sent are its normal form: CRLF only, one closed
      header section; and sending them through the editor again changes nothing
      unless a marker is left in them. */
  lemma SentBytesAreNormalForm(raw: string)
    ensures Serialize(Parsed(raw)) == NormalText(raw)
    ensures CrlfNormal(Serialize(Parsed(raw))) && Contains(Serialize(Parsed(raw)), BLANK_LINE)
    ensures Unmarked(NormalText(raw)) ==> Parsed(NormalText(raw)).rawOverride == Parsed(raw).rawOverride
  {
    NormalTextShape(raw);
    if Unmarked(NormalText(raw)) {
      NormalTextFixes(NormalText(raw));
    }
  }

  // ----------------------------------------------------------- the parsed body

  /** The part of a message after the first CRLFCRLF. */
  function AfterBlankLine(t: string): string {
    var f := Find(t, BLANK_LINE);
    if f.Some? then t[f.value + 4..] else ""
  }

  function TrimCr(s: string): string {
    if s != "" && s[|s| - 1] == '\r' then TrimCr(s[..|s| - 1]) else s
  }

  /** The text ends in LF followed by at least one CR. */
  predicate EndsInStrayCr(s: string) {
    EndsWith(s, "\r") && EndsWith(TrimCr(s), LF)
  }

  lemma {:induction false} LastLineEmpty(s: string)
    ensures var ls := LinesOf(s); ls[|ls| - 1] == "" <==> TrimCr(s) == "" || EndsWith(TrimCr(s), LF)
    ensures TrimCr(s) == "" ==> LinesOf(s) == [""]
  {
    if s == "" {
    } else {
      var t := s[..|s| - 1];
      assert t + [s[|s| - 1]] == s;
      LinesOfSnoc(t, s[|s| - 1]);
      LastLineEmpty(t);
    }
  }

  lemma BlankTextShape(ls: seq<string>)
    requires IsDocument(ls) && HasBlank(ls)
    ensures AfterBlankLine(Unlines(ls, CRLF)) == BodyText(ls)
  {
    FindBlank(ls);
    hide Unlines, BlankIndex, Find, IsDocument;
  }

  lemma BodyNotEmpty(ls: seq<string>)
    requires HasBlank(ls) && ls[|ls| - 1] != ""
    ensures BodyText(ls) != ""
  {
    LastLineKept(ls[BlankIndex(ls, 1) + 1..]);
  }

  lemma LastLineKept(ls: seq<string>)
    requires ls != [] && ls[|ls| - 1] != ""
    ensures Unlines(ls, CRLF) != ""
  {
    assert |ls| == 1 || Unlines(ls, CRLF)[|ls[0]|] == '\r';
  }

  /** The parsed body is the part of the sent text after the blank line, exactly
      unless the edited text has a body and ends in LF CR...CR: then the last LF
      of the body is lost, because the check looks at the text before CR removal. */
  lemma BodyExact(raw: string)
    ensures var after := AfterBlankLine(NormalText(raw));
            Parsed(raw).body == after <==> !(EndsInStrayCr(Sanitize(raw)) && after != "")
  {
    var str, ls := Sanitize(raw), MessageLines(raw);
    TerminatorAdded(LinesOf(str));
    BlankTextShape(ls);
    assert NormalText(raw) == Unlines(ls, CRLF) && Parsed(raw).body == ParsedBody(ls, str);
    hide *;
    BodyLost(str, LinesOf(str), ls);
  }

  /** The same on the lines of the text and of its normal form. */
  lemma BodyLost(str: string, ls0: seq<string>, ls: seq<string>)
    requires ls0 == LinesOf(str) && ls == WithTerminator(ls0) && HasBlank(ls)
    ensures ParsedBody(ls, str) == BodyText(ls) <==> !(EndsInStrayCr(str) && BodyText(ls) != "")
  {
    BodyOfLines(ls, str);
    if HasBlank(ls0) {
      LastLineEmpty(str);
      NotOneLine(ls0);
      hide LinesOf, TrimCr, BodyText, ParsedBody, EndsInStrayCr, HasBlank, EndsWith, ButLast;
      BodyVerdict(str, BodyText(ls), ParsedBody(ls, str), ls[|ls| - 1] == "");
    } else {
      NoBodyAdded(ls0);
      hide LinesOf, TrimCr, BodyText, ParsedBody, EndsInStrayCr, HasBlank, EndsWith, ButLast;
    }
  }

  lemma NotOneLine(ls: seq<string>)
    requires HasBlank(ls)
    ensures ls != [""]
  {
  }

  /** A text whose header section had to be closed has no body. */
  lemma NoBodyAdded(ls: seq<string>)
    requires IsDocument(ls) && !HasBlank(ls)
    ensures HasBlank(WithTerminator(ls)) && BodyText(WithTerminator(ls)) == ""
    ensures WithTerminator(ls)[|WithTerminator(ls)| - 1] == ""
  {
    TerminatorAdded(ls);
    var r := WithTerminator(ls);
    hide WithTerminator, BlankIndex;
    assert r[BlankIndex(r, 1) + 1..] == [""];
  }

  /** When the last LF of the body is lost, given how the text ends. */
  lemma BodyVerdict(str: string, after: string, body: string, lastEmpty: bool)
    requires lastEmpty <==> EndsWith(TrimCr(str), LF)
    requires if lastEmpty then body == (if after != "" && !EndsWith(str, LF) then ButLast(after) else after)
             else body == (if EndsWith(str, LF) then after + LF else after)
    ensures body == after <==> !(EndsInStrayCr(str) && after != "")
  {
    TrimmedEnd(str);
    hide TrimCr;
  }

  /** What the parser keeps, in terms of the part after the blank line. */
  lemma BodyOfLines(ls: seq<string>, str: string)
    requires IsDocument(ls) && HasBlank(ls)
    ensures var after := BodyText(ls);
            if ls[|ls| - 1] == ""
            then ParsedBody(ls, str) == (if after != "" && !EndsWith(str, LF) then ButLast(after) else after)
            else after != "" && ParsedBody(ls, str) == (if EndsWith(str, LF) then after + LF else after)
  {
    var after := BodyText(ls);
    if ls[|ls| - 1] == "" {
      assert after + "" == after;
    } else {
      BodyNotEmpty(ls);
      assert ButLast(after + LF) == after;
    }
    hide Unlines, BlankIndex, BodyText, ButLast;
  }

  lemma TrimmedEnd(s: string)
    ensures EndsWith(TrimCr(s), LF) ==> EndsWith(s, LF) || EndsWith(s, "\r")
    ensures EndsWith(s, LF) ==> TrimCr(s) == s
  {
  }

  /** A text without a space has no marker. */
  lemma NoMarks(t: string)
    requires ' ' !in t
    ensures Sanitize(t) == t
  {
    forall i: nat ensures !OccursAt(t, HTTPS_MARK, i) && !OccursAt(t, HTTP_MARK, i) {
      Mismatch(t, HTTPS_MARK, i, 0);
      Mismatch(t, HTTP_MARK, i, 0);
    }
    FindNone(t, HTTPS_MARK);
    FindNone(t, HTTP_MARK);
  }

  /** The shortest family member: the final LF of the body is dropped. */
  lemma {:induction false} StrayCrLosesNewline()
    ensures AfterBlankLine(NormalText("A\n\nx\n\r")) == "x\r\n" && Parsed("A\n\nx\n\r").body == "x\r"
  {
    var raw := "A\n\nx\n\r";
    StrayCrLines();
    NoMarks(raw);
    hide Find, LinesOf, Sanitize;
    var ls := ["A", "", "x", ""];
    assert BlankIndex(ls, 1) == 1;
    assert MessageLines(raw) == ls;
    BlankTextShape(ls);
    assert ls[2..] == ["x"] + [""];
    UnlinesSnoc(["x"], "", CRLF);
    BodyOfLines(ls, raw);
  }

  lemma StrayCrLines()
    ensures LinesOf("A\n\nx\n\r") == ["A", "", "x", ""]
  {
    var s1 := "A" + ['\n'];
    var s2 := s1 + ['\n'];
    var s3 := s2 + ['x'];
    var s4 := s3 + ['\n'];
    assert s4 + ['\r'] == "A\n\nx\n\r";
    LinesOfOne("A");
    LinesOfSnoc("A", '\n');
    LinesOfSnoc(s1, '\n');
    LinesOfSnoc(s2, 'x');
    LinesOfSnoc(s3, '\n');
    LinesOfSnoc(s4, '\r');
    hide LinesOf;
    assert "" + ['x'] == "x";
    assert AddChar(["A", "", ""], 'x') == ["A", "", "x"];
  }

  /** Text from the editor goes out byte for byte exactly when it has a blank line and no
      marker anywhere; unless a marker is erased, the body is what follows the blank line. */
  lemma {:induction false} EditedTextIsSent(lines: seq<string>)
    requires IsDocument(lines)
    ensures var t := Unlines(lines, CRLF);
            && (Serialize(Parsed(t)) == t <==> Unmarked(t) && Contains(t, BLANK_LINE))
            && (Unmarked(t) ==> Parsed(t).body == AfterBlankLine(Serialize(Parsed(t))))
  {
    var t := Unlines(lines, CRLF);
    UnlinesIsNormal(lines);
    NormalTextFixes(t);
    SentBytesAreNormalForm(t);
    BodyExact(t);
    NormalHasNoStrayCr(t);
    SanitizeCounts(t, '\r');
    hide Unlines, NormalText, Serialize, Parsed, Sanitize, Unmarked, CrlfNormal, Contains, AfterBlankLine,
         EndsInStrayCr;
  }

  lemma OccursBetween(a: string, pat: string, b: string)
    ensures Contains(a + pat + b, pat)
  {
    assert (a + pat + b)[|a|..|a| + |pat|] == pat;
    Occurs(a + pat + b, pat, |a|);
  }

  /** A marker in the body, too, is silently taken out of what is sent. */
  lemma MarkedBodyChanged(start: string, body: string)
    requires IsLine(start) && IsLine(body)
    ensures var t := Unlines([start, "", body + HTTP_MARK], CRLF);
            Contains(t, BLANK_LINE) && CrlfNormal(t) && Serialize(Parsed(t)) != t
  {
    var ls := [start, "", body + HTTP_MARK];
    var t := Unlines(ls, CRLF);
    ThreeLines(start, body + HTTP_MARK);
    assert t == (start + BLANK_LINE + body) + HTTP_MARK + "";
    OccursBetween(start, BLANK_LINE, body + HTTP_MARK);
    OccursBetween(start + BLANK_LINE + body, HTTP_MARK, "");
    MarkIsLine(body);
    hide Unlines, Find, Serialize, Parsed, CrlfNormal;
    UnlinesIsNormal(ls);
    EditedTextIsSent(ls);
  }

  lemma ThreeLines(a: string, c: string)
    ensures Unlines([a, "", c], CRLF) == a + BLANK_LINE + c
  {
    assert [a, "", c][1..] == ["", c] && ["", c][1..] == [c];
    assert Unlines([c], CRLF) == c;
    assert Unlines(["", c], CRLF) == "" + CRLF + c;
    assert a + CRLF + ("" + CRLF + c) == a + BLANK_LINE + c;
  }

  lemma MarkIsLine(l: string)
    requires IsLine(l)
    ensures IsLine(l + HTTP_MARK)
  {
  }

  lemma NormalHasNoStrayCr(t: string)
    requires CrlfNormal(t)
    ensures !EndsInStrayCr(t)
  {
    assert t != "" ==> NormalAt(t, |t| - 1);
  }

  // ---------------------------------------------------------------- round trip

  predicate IsWord(s: string) {
    s != "" && forall i | 0 <= i < |s| :: !IsSpace(s[i])
  }

  predicate PlainHeader(h: Header) {
    && IsLine(h.name) && IsLine(h.value) && ':' !in h.name
    && (h.value != "" ==> h.value[0] != ' ' && h.value[0] != '\t')
  }

  /** The requests that survive printing and parsing (sections 2.1, 3 and 5 of
      RFC 9112). */
  predicate Printable(r: HttpRequest) {
    && r.rawOverride == "" && IsWord(r.method_) && IsWord(r.url) && IsWord(r.version)
    && (forall i | 0 <= i < |r.headers| :: PlainHeader(r.headers[i]))
    && CrlfNormal(r.body) && Unmarked(Serialize(r))
  }

  lemma {:induction false} WordPrefix(w: string, rest: string)
    requires (forall i | 0 <= i < |w| :: !IsSpace(w[i])) && (rest != "" ==> IsSpace(rest[0]))
    ensures TokenLength(w + rest) == |w|
  {
    if w == "" {
      assert w + rest == rest;
    } else {
      assert (w + rest)[1..] == w[1..] + rest;
      WordPrefix(w[1..], rest);
    }
  }

  lemma ExtractFirst(w: string, rest: string)
    requires IsWord(w) && (rest != "" ==> IsSpace(rest[0]))
    ensures ExtractWord(w + rest) == (w, rest)
    ensures ExtractWord(" " + w + rest) == (w, rest)
  {
    WordPrefix(w, rest);
    assert (" " + w + rest)[1..] == w + rest;
    assert DropSpaces(w + rest) == w + rest;
    assert DropSpaces(" " + w + rest) == w + rest;
  }

  lemma StartLineParses(r: HttpRequest)
    requires IsWord(r.method_) && IsWord(r.url) && IsWord(r.version)
    ensures IsLine(StartLine(r)) && ParsedStart(StartLine(r)) == (r.method_, r.url, r.version)
  {
    hide ExtractWord;
    var tail2 := " " + r.version;
    var tail1 := " " + r.url + tail2;
    assert StartLine(r) == r.method_ + tail1;
    ExtractFirst(r.method_, tail1);
    ExtractFirst(r.url, tail2);
    assert tail2 == " " + r.version + "";
    ExtractFirst(r.version, "");
    WordIsLine(r.method_);
    WordIsLine(r.url);
    WordIsLine(r.version);
  }

  lemma WordIsLine(w: string)
    requires IsWord(w)
    ensures IsLine(w)
  {
  }

  lemma HeaderParses(h: Header)
    requires PlainHeader(h)
    ensures IsLine(HeaderLine(h)) && HeaderLine(h) != "" && ParsedHeader(HeaderLine(h)) == [h]
  {
    var l := HeaderLine(h);
    forall j: nat | j < |h.name| ensures !OccursAt(l, ":", j) {
      assert l[j] == h.name[j];
      assert h.name[j] in h.name;
      Mismatch(l, ":", j, 0);
    }
    assert l[|h.name|..|h.name| + 1] == ":";
    FindIs(l, ":", |h.name|);
    assert l[..|h.name|] == h.name && l[|h.name| + 1..] == " " + h.value;
    assert (" " + h.value)[1..] == h.value;
    assert DropBlanks(" " + h.value) == DropBlanks(h.value) == h.value;
  }

  function HeaderLines(headers: seq<Header>): (ls: seq<string>)
    ensures |ls| == |headers|
  {
    if headers == [] then []
    else HeaderLines(headers[..|headers| - 1]) + [HeaderLine(headers[|headers| - 1])]
  }

  lemma {:induction false} HeadersParse(headers: seq<Header>)
    requires forall i | 0 <= i < |headers| :: PlainHeader(headers[i])
    ensures ParsedHeaders(HeaderLines(headers)) == headers
    ensures forall i | 0 <= i < |headers| :: HeaderLines(headers)[i] != "" && IsLine(HeaderLines(headers)[i])
  {
    if headers == [] {
    } else {
      var n := |headers| - 1;
      HeadersParse(headers[..n]);
      HeaderParses(headers[n]);
      assert HeaderLines(headers)[..n] == HeaderLines(headers[..n]);
    }
  }

  /** The lines a request is printed as. */
  function PrintedLines(r: HttpRequest): seq<string> {
    [StartLine(r)] + HeaderLines(r.headers) + [""] + LinesOf(r.body)
  }

  lemma {:induction false} HeaderTextIs(start: string, headers: seq<Header>)
    ensures Unlines([start] + HeaderLines(headers), CRLF) + CRLF == start + CRLF + HeaderText(headers)
  {
    var hl := HeaderLines(headers);
    if headers != [] {
      var n := |headers| - 1;
      HeaderTextIs(start, headers[..n]);
      assert [start] + hl == [start] + HeaderLines(headers[..n]) + [HeaderLine(headers[n])];
      UnlinesSnoc([start] + HeaderLines(headers[..n]), HeaderLine(headers[n]), CRLF);
    } else {
      assert [start] + hl == [start];
    }
  }

  lemma PrintedIs(r: HttpRequest)
    requires r.rawOverride == "" && CrlfNormal(r.body)
    ensures Serialize(r) == Unlines(PrintedLines(r), CRLF)
  {
    var a := [StartLine(r)] + HeaderLines(r.headers);
    UnlinesConcat(a + [""], LinesOf(r.body), CRLF);
    UnlinesSnoc(a, "", CRLF);
    HeaderTextIs(StartLine(r), r.headers);
    NormalFormFixes(r.body);
  }

  lemma {:induction false} BlankAfterHeaders(ls: seq<string>, from: nat, n: nat)
    requires from <= n && n + 1 < |ls| && ls[n] == ""
    requires forall i | from <= i < n :: ls[i] != ""
    ensures BlankIndex(ls, from) == n
    decreases n - from
  {
    if from >= n {
    } else {
      BlankAfterHeaders(ls, from + 1, n);
    }
  }

  lemma PrintedShape(r: HttpRequest)
    requires Printable(r)
    ensures var ls := PrintedLines(r); var n := |r.headers|;
            && IsDocument(ls) && BlankIndex(ls, 1) == n + 1 && HasBlank(ls)
            && ls[1..n + 1] == HeaderLines(r.headers) && ls[n + 2..] == LinesOf(r.body)
  {
    HeadersParse(r.headers);
    StartLineParses(r);
    hide StartLine, HeaderLines, LinesOf, Serialize, HeaderLine;
    LayoutShape(StartLine(r), HeaderLines(r.headers), LinesOf(r.body));
  }

  lemma LayoutShape(start: string, hs: seq<string>, body: seq<string>)
    requires IsLine(start) && IsDocument(body) && forall i | 0 <= i < |hs| :: hs[i] != "" && IsLine(hs[i])
    ensures var ls := [start] + hs + [""] + body; var n := |hs|;
            && IsDocument(ls) && BlankIndex(ls, 1) == n + 1 && HasBlank(ls)
            && ls[1..n + 1] == hs && ls[n + 2..] == body
  {
    var ls := [start] + hs + [""] + body;
    var n := |hs|;
    assert forall i | 1 <= i <= n :: ls[i] == hs[i - 1];
    assert forall i | n + 2 <= i < |ls| :: ls[i] == body[i - n - 2];
    BlankAfterHeaders(ls, 1, n + 1);
  }

  /** Printing and parsing recovers every part of the request. */
  lemma RoundTrip(r: HttpRequest)
    requires Printable(r)
    ensures Parsed(Serialize(r)) == r.(rawOverride := Serialize(r))
  {
    var t := Serialize(r);
    var ls := PrintedLines(r);
    PrintedIs(r);
    PrintedShape(r);
    LinesRoundTrip(ls, CRLF);
    assert MessageLines(t) == ls;
    StartLineParses(r);
    HeadersParse(r.headers);
    UnlinesIsNormal(ls);
    NormalHasNoStrayCr(t);
    BodyExact(t);
    BlankTextShape(ls);
    NormalFormFixes(r.body);
  }
}
