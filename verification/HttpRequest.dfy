/** The request model, its printer and the parser of edited text
    (src/http/HttpRequest.cpp). */
module HttpRequests {
  import opened Text

  datatype Header = Header(name: string, value: string)

  datatype HttpRequest = HttpRequest(
    method_: string, url: string, version: string,
    headers: seq<Header>, body: string, rawOverride: string)

  datatype HttpResponse = HttpResponse(
    version: string, statusCode: int, statusText: string, headers: seq<Header>, body: string)

  const EMPTY_REQUEST := HttpRequest("", "", "HTTP/1.1", [], "", "")

  const HTTPS_MARK: string := " (HTTPS)"
  const HTTP_MARK: string := " (HTTP)"

  /** The value of the first header of that name, "" if there is none. */
  function HeaderValue(headers: seq<Header>, name: string): string {
    if headers == [] then ""
    else if headers[0].name == name then headers[0].value
    else HeaderValue(headers[1..], name)
  }

  // ------------------------------------------------------------------ printer

  function HeaderLine(h: Header): string {
    h.name + ": " + h.value
  }

  function HeaderText(headers: seq<Header>): string {
    if headers == [] then ""
    else HeaderText(headers[..|headers| - 1]) + HeaderLine(headers[|headers| - 1]) + CRLF
  }

  function StartLine(r: HttpRequest): string {
    r.method_ + " " + r.url + " " + r.version
  }

  function Serialize(r: HttpRequest): string {
    if r.rawOverride != "" then r.rawOverride
    else StartLine(r) + CRLF + HeaderText(r.headers) + CRLF + r.body
  }

  method SerializeRequest(r: HttpRequest) returns (out: string)
    ensures out == Serialize(r)
  {
    if r.rawOverride != "" {
      return r.rawOverride;
    }
    out := r.method_ + " " + r.url + " " + r.version + CRLF;
    for i := 0 to |r.headers|
      invariant out == StartLine(r) + CRLF + HeaderText(r.headers[..i])
    {
      assert r.headers[..i + 1][..i] == r.headers[..i];
      out := out + r.headers[i].name + ": " + r.headers[i].value + CRLF;
    }
    assert r.headers[..|r.headers|] == r.headers;
    out := out + CRLF + r.body;
  }

  // -------------------------------------------------------------- normal form

  function EraseFirst(s: string, pat: string): string {
    var f := Find(s, pat);
    if f.Some? then s[..f.value] + s[f.value + |pat|..] else s
  }

  /** Removes the first " (HTTPS)" and then the first " (HTTP)". */
  function Sanitize(s: string): string {
    EraseFirst(EraseFirst(s, HTTPS_MARK), HTTP_MARK)
  }

  predicate Unmarked(s: string) {
    !Contains(s, HTTPS_MARK) && !Contains(s, HTTP_MARK)
  }

  /** Adds the blank line that ends the header section, if there is none. */
  function WithTerminator(ls: seq<string>): (r: seq<string>)
    requires IsDocument(ls)
    ensures IsDocument(r)
  {
    if HasBlank(ls) then ls
    else if |ls| > 1 && ls[|ls| - 1] == "" then ls + [""]
    else ls + ["", ""]
  }

  function MessageLines(raw: string): (ls: seq<string>)
    ensures IsDocument(ls)
  {
    WithTerminator(LinesOf(Sanitize(raw)))
  }

  function NormalText(raw: string): string {
    Unlines(MessageLines(raw), CRLF)
  }

  lemma {:induction false} BlankIndexExtends(ls: seq<string>, more: seq<string>, from: nat)
    requires ls != [] && more != [] && from < |ls| && more[0] == ""
    requires BlankIndex(ls, from) + 1 >= |ls|
    ensures var last := |ls| - 1;
            BlankIndex(ls + more, from) ==
              (if ls[last] == "" then last else if |more| > 1 then last + 1 else |ls| + 1)
    decreases |ls| - from
  {
    var all := ls + more;
    assert all[from] == ls[from];
    if from + 1 < |ls| {
      BlankIndexExtends(ls, more, from + 1);
    } else {
      assert all[from + 1] == "";
      assert BlankIndex(all, from + 1) == if |more| > 1 then from + 1 else |all|;
    }
  }

  /** The text sent always has its header section closed, and a text that needed
      closing has no body. */
  lemma TerminatorAdded(ls: seq<string>)
    requires IsDocument(ls)
    ensures HasBlank(WithTerminator(ls))
    ensures var r := WithTerminator(ls);
            !HasBlank(ls) ==> BlankIndex(r, 1) + 2 == |r| && r[|r| - 1] == ""
  {
    if !HasBlank(ls) {
      if |ls| == 1 {
        assert BlankIndex(WithTerminator(ls), 1) == 1;
      } else if ls[|ls| - 1] == "" {
        BlankIndexExtends(ls, [""], 1);
      } else {
        BlankIndexExtends(ls, ["", ""], 1);
      }
    }
  }

  /** The normal form is CRLF-normal and has a terminated header section. */
  lemma NormalTextShape(raw: string)
    ensures CrlfNormal(NormalText(raw)) && Contains(NormalText(raw), BLANK_LINE)
  {
    UnlinesIsNormal(MessageLines(raw));
    TerminatorAdded(LinesOf(Sanitize(raw)));
    FindBlank(MessageLines(raw));
  }

  /** The normal form as the steps build it: the terminator is at most one blank line. */
  lemma NormalTextParts(raw: string)
    ensures var base := CrlfForm(Sanitize(raw));
            NormalText(raw) == base || NormalText(raw) == base + CRLF || NormalText(raw) == base + BLANK_LINE
  {
    AddTerminator(LinesOf(Sanitize(raw)));
    hide Unlines, LinesOf, Sanitize, HasBlank;
  }

  lemma CutOut(s: string, i: nat, n: nat)
    requires i + n <= |s|
    ensures s == s[..i] + (s[i..i + n] + s[i + n..])
  {
  }

  lemma CountCut(a: string, x: string, b: string, c: char)
    requires Count(x, c) == 0
    ensures Count(a + (x + b), c) == Count(a + b, c)
  {
    hide Count;
    CountConcat(a, x + b, c);
    CountConcat(x, b, c);
    CountConcat(a, b, c);
  }

  /** Erasing a marker takes it out and nothing else; it has no CR or LF. */
  lemma EraseCounts(s: string, pat: string, c: char)
    requires Count(pat, c) == 0
    ensures Count(EraseFirst(s, pat), c) == Count(s, c)
    ensures |EraseFirst(s, pat)| == |s| - (if Contains(s, pat) then |pat| else 0)
  {
    hide Count, FindFrom;
    var f := Find(s, pat);
    if f.Some? {
      CutOut(s, f.value, |pat|);
      CountCut(s[..f.value], pat, s[f.value + |pat|..], c);
    }
  }

  lemma MarkCounts(c: char)
    requires c == '\r' || c == '\n'
    ensures Count(HTTPS_MARK, c) == 0 && Count(HTTP_MARK, c) == 0
  {
    CountAbsent(HTTPS_MARK, c);
    CountAbsent(HTTP_MARK, c);
  }

  lemma {:induction false} CountAbsent(s: string, c: char)
    requires c !in s
    ensures Count(s, c) == 0
  {
    if s == "" {
    } else {
      assert s[|s| - 1] in s;
      CountAbsent(s[..|s| - 1], c);
    }
  }

  lemma SanitizeCounts(s: string, c: char)
    requires c == '\r' || c == '\n'
    ensures Count(Sanitize(s), c) == Count(s, c)
    ensures if Unmarked(s) then Sanitize(s) == s else |Sanitize(s)| + |HTTP_MARK| <= |s|
  {
    MarkCounts(c);
    EraseCounts(s, HTTPS_MARK, c);
    EraseCounts(EraseFirst(s, HTTPS_MARK), HTTP_MARK, c);
  }

  /** In a normal form CR and LF are equally many. */
  lemma NormalTextCounts(raw: string)
    ensures Count(NormalText(raw), '\r') == Count(NormalText(raw), '\n')
    ensures |NormalText(raw)| <= |Sanitize(raw)| - Count(raw, '\r') + Count(raw, '\n') + 4
  {
    var base := CrlfForm(Sanitize(raw));
    NormalTextParts(raw);
    CrlfFormCounts(Sanitize(raw));
    SanitizeCounts(raw, '\r');
    SanitizeCounts(raw, '\n');
    CountEnds();
    CountConcat(base, CRLF, '\r');
    CountConcat(base, CRLF, '\n');
    CountConcat(base, BLANK_LINE, '\r');
    CountConcat(base, BLANK_LINE, '\n');
    hide CrlfForm, Sanitize, NormalText, Count;
  }

  /** A text is left alone exactly when it is unmarked, CRLF-normal and terminated: a
      marker taken out is longer than any terminator put in. */
  lemma NormalTextFixes(t: string)
    ensures NormalText(t) == t <==> Unmarked(t) && CrlfNormal(t) && Contains(t, BLANK_LINE)
  {
    NormalTextShape(t);
    SanitizeCounts(t, '\r');
    if Unmarked(t) {
      UnmarkedFixes(t);
    } else {
      NormalTextCounts(t);
      hide NormalText, Sanitize, Count, CrlfNormal, Unmarked;
    }
  }

  lemma UnmarkedFixes(t: string)
    requires Unmarked(t)
    ensures NormalText(t) == t <==> CrlfNormal(t) && Contains(t, BLANK_LINE)
  {
    NormalTextShape(t);
    if CrlfNormal(t) && Contains(t, BLANK_LINE) {
      NormalFormFixes(t);
      FindBlank(LinesOf(t));
    }
  }

  // -------------------------------------------------------------- line pieces

  predicate IsSpace(c: char) {
    c == ' ' || 9 <= c as int <= 13
  }

  function DropSpaces(s: string): string {
    if s != "" && IsSpace(s[0]) then DropSpaces(s[1..]) else s
  }

  function TokenLength(s: string): (n: nat)
    ensures n <= |s|
  {
    if s == "" || IsSpace(s[0]) then 0 else 1 + TokenLength(s[1..])
  }

  /** One stream extraction into a string: skips white space, takes a word. */
  function ExtractWord(s: string): (string, string) {
    var t := DropSpaces(s);
    (t[..TokenLength(t)], t[TokenLength(t)..])
  }

  function OrDefault(s: string, default: string): string {
    if s == "" then default else s
  }

  function ParsedStart(line: string): (string, string, string) {
    var (m, rest1) := ExtractWord(line);
    var (u, rest2) := ExtractWord(rest1);
    var (v, rest3) := ExtractWord(rest2);
    (OrDefault(m, "GET"), OrDefault(u, "/"), OrDefault(v, "HTTP/1.1"))
  }

  function DropBlanks(s: string): string {
    if s != "" && (s[0] == ' ' || s[0] == '\t') then DropBlanks(s[1..]) else s
  }

  /** A header line without a colon is skipped. */
  function ParsedHeader(line: string): seq<Header> {
    var colon := Find(line, ":");
    if colon.Some?
    then [Header(line[..colon.value], DropBlanks(line[colon.value + 1..]))]
    else []
  }

  predicate IsBlankChar(c: char) {
    c == ' ' || c == '\t'
  }

  /** The line is the name, a colon, blanks and the value; the name ends at the first
      colon and the value starts at the first character that is not a blank. */
  predicate IsHeaderLine(line: string, h: Header) {
    var start := |line| - |h.value|;
    && |h.name| < start && line[..|h.name|] == h.name && ':' !in h.name && line[|h.name|] == ':'
    && (forall i | |h.name| < i < start :: IsBlankChar(line[i]))
    && line[start..] == h.value && (h.value != "" ==> !IsBlankChar(h.value[0]))
  }

  lemma HeaderLineUnique(line: string, h: Header, g: Header)
    requires IsHeaderLine(line, h) && IsHeaderLine(line, g)
    ensures h == g
  {
    FirstColon(line, h, g);
    FirstColon(line, g, h);
    var i, j := |line| - |h.value|, |line| - |g.value|;
    assert i < |line| ==> line[i] == h.value[0];
    assert j < |line| ==> line[j] == g.value[0];
  }

  lemma InPrefix(s: string, j: nat, n: nat)
    requires j < |s| && n <= |s|
    ensures j < n ==> s[j] in s[..n]
  {
    assert j < n ==> s[..n][j] == s[j];
  }

  lemma FirstColon(line: string, h: Header, g: Header)
    requires IsHeaderLine(line, h) && IsHeaderLine(line, g)
    ensures |h.name| <= |g.name|
  {
    InPrefix(line, |g.name|, |h.name|);
  }

  lemma {:induction false} DropBlanksIs(s: string)
    ensures var v := DropBlanks(s);
            && |v| <= |s| && s[|s| - |v|..] == v && (v != "" ==> !IsBlankChar(v[0]))
            && forall i | 0 <= i < |s| - |v| :: IsBlankChar(s[i])
  {
    if s != "" && IsBlankChar(s[0]) {
      DropBlanksIs(s[1..]);
      var n := |s| - |DropBlanks(s)|;
      assert forall i | 0 < i < n :: s[i] == s[1..][i - 1];
      assert s[n..] == s[1..][n - 1..];
    } else {
      assert DropBlanks(s) == s;
    }
  }

  /** There is a header exactly when there is a colon, and then it is the line's. */
  lemma ParsedHeaderIs(line: string)
    ensures ':' !in line ==> ParsedHeader(line) == []
    ensures ':' in line ==> |ParsedHeader(line)| == 1 && IsHeaderLine(line, ParsedHeader(line)[0])
  {
    FindFromFirst(line, ":", 0);
    var colon := Find(line, ":");
    if colon.Some? {
      var n := colon.value;
      assert line[n..n + 1][0] == ':';
      forall i | 0 <= i < n ensures line[i] != ':' {
        assert !OccursAt(line, ":", i);
        assert line[i..i + 1] == [line[i]];
      }
      ColonFound(line, n);
    } else {
      forall i | 0 <= i < |line| ensures line[i] != ':' {
        assert !OccursAt(line, ":", i);
        assert line[i..i + 1] == [line[i]];
      }
    }
  }

  lemma ColonFound(line: string, n: nat)
    requires n < |line| && line[n] == ':' && forall i | 0 <= i < n :: line[i] != ':'
    ensures IsHeaderLine(line, Header(line[..n], DropBlanks(line[n + 1..])))
  {
    var rest := line[n + 1..];
    DropBlanksIs(rest);
    var v := DropBlanks(rest);
    assert line[|line| - |v|..] == rest[|rest| - |v|..];
    assert forall i | n < i < |line| :: line[i] == rest[i - n - 1];
  }

  method HeaderFrom(line: string) returns (r: seq<Header>)
    ensures r == [] <==> ':' !in line
    ensures ':' in line ==> |r| == 1 && IsHeaderLine(line, r[0])
    ensures r == ParsedHeader(line)
  {
    ParsedHeaderIs(line);
    var colonPos := Find(line, ":");
    if colonPos.Some? {
      var key := line[..colonPos.value];
      var val := DropBlanks(line[colonPos.value + 1..]);
      r := [Header(key, val)];
    } else {
      r := [];
    }
  }

  function ParsedHeaders(ls: seq<string>): seq<Header> {
    if ls == [] then [] else ParsedHeaders(ls[..|ls| - 1]) + ParsedHeader(ls[|ls| - 1])
  }

  // ------------------------------------------------------------------- parser

  /** The lines after the blank one. */
  function BodyText(ls: seq<string>): string
    requires HasBlank(ls)
  {
    Unlines(ls[BlankIndex(ls, 1) + 1..], CRLF)
  }

  function ButLast(s: string): string
    requires s != ""
  {
    s[..|s| - 1]
  }

  /** What the body loop collects: it adds LF to every line it reads, also to a
      last line that had none, and takes one character back when the (sanitized,
      not yet normalized) text does not end in LF. */
  function ParsedBody(ls: seq<string>, str: string): string
    requires IsDocument(ls) && HasBlank(ls)
  {
    var collected := BodyText(ls) + (if ls[|ls| - 1] == "" then "" else LF);
    if collected != "" && !EndsWith(str, LF) then ButLast(collected) else collected
  }

  function Parsed(raw: string): HttpRequest {
    var ls := MessageLines(raw);
    TerminatorAdded(LinesOf(Sanitize(raw)));
    var (m, u, v) := ParsedStart(ls[0]);
    HttpRequest(m, u, v, ParsedHeaders(ls[1..BlankIndex(ls, 1)]), ParsedBody(ls, Sanitize(raw)), NormalText(raw))
  }

  /** `std::getline` on the rest of a stream. */
  function GetLine(s: string): (r: (string, string))
    requires s != ""
    ensures |r.1| < |s|
  {
    var f := Find(s, LF);
    if f.Some? then (s[..f.value], s[f.value + 1..]) else (s, "")
  }

  /** The lines from the i-th on, as the stream still holds them. */
  ghost function TextFrom(ls: seq<string>, i: nat): string
    requires i <= |ls|
  {
    if i == |ls| then "" else Unlines(ls[i..], CRLF)
  }

  lemma GetLineReads(ls: seq<string>, i: nat)
    requires IsDocument(ls) && i < |ls| && TextFrom(ls, i) != ""
    ensures GetLine(TextFrom(ls, i)) ==
              (if i + 1 < |ls| then (ls[i] + "\r", TextFrom(ls, i + 1)) else (ls[i], ""))
  {
    var s := TextFrom(ls, i);
    var tl := ls[i..];
    assert tl[1..] == ls[i + 1..];
    if i + 1 < |ls| {
      var n := |ls[i]| + 1;
      assert s == ls[i] + "\r" + LF + TextFrom(ls, i + 1);
      assert s[..n] == ls[i] + "\r" && s[n + 1..] == TextFrom(ls, i + 1);
      forall j: nat | j < n ensures !OccursAt(s, LF, j) {
        assert s[j] == (ls[i] + "\r")[j];
        assert j < |ls[i]| ==> s[j] in ls[i];
        Mismatch(s, LF, j, 0);
      }
      assert s[n..n + 1] == LF;
      FindIs(s, LF, n);
    } else {
      forall j: nat ensures !OccursAt(s, LF, j) {
        assert j < |s| ==> s[j] in ls[i];
        Mismatch(s, LF, j, 0);
      }
    }
  }

  ghost function Collected(ls: seq<string>, from: nat, i: nat): string
    requires i <= |ls|
  {
    if i <= from then "" else Collected(ls, from, i - 1) + ls[i - 1] + (if i < |ls| then CRLF else LF)
  }

  lemma {:induction false} CollectedIs(ls: seq<string>, from: nat, i: nat)
    requires from < i <= |ls|
    ensures Collected(ls, from, i) == Unlines(ls[from..i], CRLF) + (if i < |ls| then CRLF else LF)
  {
    var l, end := ls[i - 1], if i < |ls| then CRLF else LF;
    assert Collected(ls, from, i) == Collected(ls, from, i - 1) + l + end;
    if i == from + 1 {
      assert ls[from..i] == [l];
      assert "" + l == l;
    } else {
      CollectedIs(ls, from, i - 1);
      assert ls[from..i - 1] + [l] == ls[from..i];
      UnlinesSnoc(ls[from..i - 1], l, CRLF);
      hide Collected, Unlines;
    }
  }

  /** The stream runs dry after the last line, or before it when it is empty. */
  lemma CollectedAll(ls: seq<string>, from: nat, i: nat)
    requires IsDocument(ls) && from < |ls| && i <= |ls|
    requires i < |ls| ==> i + 1 == |ls| && ls[i] == ""
    requires i == |ls| ==> ls[i - 1] != ""
    ensures Collected(ls, from, i) == Unlines(ls[from..], CRLF) + (if ls[|ls| - 1] == "" then "" else LF)
  {
    var last := |ls| - 1;
    assert ls[from..|ls|] == ls[from..];
    if i == |ls| {
      CollectedIs(ls, from, i);
    } else if from < last {
      CollectedIs(ls, from, last);
      assert ls[from..] == ls[from..last] + [""];
      UnlinesSnoc(ls[from..last], "", CRLF);
    }
  }

  method NormalizeCrlf(s: string) returns (out: string)
    ensures out == CrlfForm(s)
  {
    out := "";
    for i := 0 to |s|
      invariant out == CrlfForm(s[..i])
    {
      assert s[..i + 1] == s[..i] + [s[i]];
      CrlfFormSnoc(s[..i], s[i]);
      if s[i] == '\r' { continue; }
      if s[i] == '\n' {
        out := out + CRLF;
      } else {
        out := out + [s[i]];
      }
    }
    assert s[..|s|] == s;
  }

  lemma EndsInEmptyLine(ls: seq<string>)
    requires IsDocument(ls)
    ensures EndsWith(Unlines(ls, CRLF), CRLF) <==> |ls| > 1 && ls[|ls| - 1] == ""
  {
    var last := |ls| - 1;
    if last == 0 {
      assert IsLine(ls[0]);
      OneLineEnd(ls);
    } else {
      assert ls == ls[..last] + [ls[last]] && IsLine(ls[last]);
      LastLineEnd(ls[..last], ls[last]);
    }
    hide *;
  }

  lemma LastLineEnd(front: seq<string>, l: string)
    requires front != [] && IsLine(l)
    ensures EndsWith(Unlines(front + [l], CRLF), CRLF) <==> l == ""
  {
    hide *;
    UnlinesSnoc(front, l, CRLF);
    AfterCrlf(l, Unlines(front, CRLF));
  }

  lemma OneLineEnd(ls: seq<string>)
    requires |ls| == 1 && IsLine(ls[0])
    ensures !EndsWith(Unlines(ls, CRLF), CRLF)
  {
    var l := ls[0];
    assert "" + l == l;
    LineEnd(l, "");
  }

  lemma AfterCrlf(l: string, front: string)
    requires IsLine(l)
    ensures EndsWith(front + CRLF + l, CRLF) <==> l == ""
  {
    if l == "" {
      assert front + CRLF + l == front + CRLF;
    } else {
      LineEnd(l, front + CRLF);
    }
  }

  lemma LineEnd(l: string, front: string)
    requires IsLine(l)
    ensures l != "" ==> !EndsWith(front + l, CRLF)
  {
    if l == "" {
    } else {
      var t := front + l;
      assert l[|l| - 1] in l && t[|t| - 1] == l[|l| - 1];
    }
  }

  lemma AddTerminator(ls: seq<string>)
    requires IsDocument(ls)
    ensures Unlines(ls + [""], CRLF) == Unlines(ls, CRLF) + CRLF
    ensures Unlines(ls + ["", ""], CRLF) == Unlines(ls, CRLF) + BLANK_LINE
  {
    UnlinesSnoc(ls, "", CRLF);
    UnlinesSnoc(ls + [""], "", CRLF);
    assert ls + ["", ""] == ls + [""] + [""];
  }

  /** The steps shared by the parser and the Repeater: erase the markers, force
      CRLF, close the header section. */
  method NormalizeMessage(raw: string) returns (str: string, normalized: string)
    ensures str == Sanitize(raw) && normalized == NormalText(raw)
  {
    str := raw;
    var p1 := Find(str, HTTPS_MARK);
    if p1.Some? { str := str[..p1.value] + str[p1.value + 8..]; }
    var p2 := Find(str, HTTP_MARK);
    if p2.Some? { str := str[..p2.value] + str[p2.value + 7..]; }

    normalized := NormalizeCrlf(str);
    ghost var ls := LinesOf(str);
    FindBlank(ls);
    EndsInEmptyLine(ls);
    AddTerminator(ls);
    if Find(normalized, BLANK_LINE) == None {
      if EndsWith(normalized, CRLF) {
        normalized := normalized + CRLF;
      } else {
        normalized := normalized + BLANK_LINE;
      }
    }
  }

  predicate EndsHeaders(line: string) {
    line == "\r" || line == ""
  }

  function Bare(line: string): string {
    if line != "" && line[|line| - 1] == '\r' then line[..|line| - 1] else line
  }

  /** The state of the reading loop once i lines are read; b is the blank line. */
  ghost predicate ReadSoFar(
      ls: seq<string>, b: nat, i: nat, stream: string, inBody: bool, headers: seq<Header>, body: string)
  {
    && IsDocument(ls) && HasBlank(ls) && b == BlankIndex(ls, 1)
    && 1 <= i <= |ls| && stream == TextFrom(ls, i)
    && (i == |ls| ==> ls[i - 1] != "")
    && (if inBody then b < i && headers == ParsedHeaders(ls[1..b]) && body == Collected(ls, b + 1, i)
        else i <= b && headers == ParsedHeaders(ls[1..i]) && body == "")
  }

  ghost predicate ReadAll(ls: seq<string>, headers: seq<Header>, body: string) {
    && IsDocument(ls) && HasBlank(ls)
    && headers == ParsedHeaders(ls[1..BlankIndex(ls, 1)])
    && body == BodyText(ls) + (if ls[|ls| - 1] == "" then "" else LF)
  }

  lemma ReadHeader(ls: seq<string>, i: nat)
    requires 1 <= i < |ls|
    ensures ParsedHeaders(ls[1..i + 1]) == ParsedHeaders(ls[1..i]) + ParsedHeader(ls[i])
  {
    assert ls[1..i + 1][..i - 1] == ls[1..i];
  }

  lemma ReadDone(ls: seq<string>, b: nat, i: nat, inBody: bool, headers: seq<Header>, body: string)
    requires ReadSoFar(ls, b, i, "", inBody, headers, body)
    ensures ReadAll(ls, headers, body)
  {
    if i < |ls| {
      assert ls[i..][1..] == ls[i + 1..];
    }
    assert inBody;
    CollectedAll(ls, b + 1, i);
  }

  method ParseRawHttpRequest(raw: string) returns (req: HttpRequest)
    ensures req == Parsed(raw)
  {
    hide Find, Unlines, LinesOf, ParsedStart, ParsedHeaders, BlankIndex;
    var str, normalized := NormalizeMessage(raw);
    ghost var ls := MessageLines(raw);
    TerminatorAdded(LinesOf(str));

    // First line: METHOD URL VERSION
    var m, u, v, stream := ReadStartLine(normalized, ls);

    // Headers until the blank line, then the body
    var headers, body := ReadRest(stream, ls);
    if body != "" && !EndsWith(str, LF) {
      body := ButLast(body);
    }
    req := HttpRequest(m, u, v, headers, body, normalized);
  }

  method ReadStartLine(normalized: string, ghost ls: seq<string>)
    returns (m: string, u: string, v: string, rest: string)
    requires IsDocument(ls) && HasBlank(ls) && normalized == Unlines(ls, CRLF)
    ensures (m, u, v) == ParsedStart(ls[0]) && rest == TextFrom(ls, 1)
  {
    assert ls[0..] == ls;
    GetLineReads(ls, 0);
    var line;
    line, rest := GetLine(normalized).0, GetLine(normalized).1;
    line := Bare(line);
    var w1 := ExtractWord(line);
    var w2 := ExtractWord(w1.1);
    var w3 := ExtractWord(w2.1);
    m, u, v := OrDefault(w1.0, "GET"), OrDefault(w2.0, "/"), OrDefault(w3.0, "HTTP/1.1");
  }

  method ReadRest(rest: string, ghost ls: seq<string>) returns (headers: seq<Header>, body: string)
    requires IsDocument(ls) && HasBlank(ls) && rest == TextFrom(ls, 1)
    ensures ReadAll(ls, headers, body)
  {
    ghost var i, b := 1, BlankIndex(ls, 1);
    var stream, line, inBody := rest, "", false;
    headers, body := [], "";
    ReadStart(ls);
    hide *;
    while stream != ""
      invariant ReadSoFar(ls, b, i, stream, inBody, headers, body)
      decreases |stream|
    {
      ReadNext(ls, b, i, stream, inBody, headers, body);
      line, stream := GetLine(stream).0, GetLine(stream).1;
      if !inBody {
        if EndsHeaders(line) {
          inBody := true;
        } else {
          var header := HeaderFrom(Bare(line));
          headers := headers + header;
        }
      } else {
        body := body + line + LF;
      }
      i := i + 1;
    }
    ReadDone(ls, b, i, inBody, headers, body);
  }

  /** Reading one more line, in each state of the loop. */
  lemma ReadNext(ls: seq<string>, b: nat, i: nat, stream: string, inBody: bool, headers: seq<Header>, body: string)
    requires ReadSoFar(ls, b, i, stream, inBody, headers, body) && stream != ""
    ensures i < |ls| && var (line, rest) := GetLine(stream);
            && (!inBody && EndsHeaders(line) ==> ReadSoFar(ls, b, i + 1, rest, true, headers, body))
            && (!inBody && !EndsHeaders(line) ==>
                  ReadSoFar(ls, b, i + 1, rest, false, headers + ParsedHeader(Bare(line)), body))
            && (inBody ==> ReadSoFar(ls, b, i + 1, rest, true, headers, body + line + LF))
  {
    hide Find, ParsedHeader, Unlines, BlankIndex;
    GetLineReads(ls, i);
    LastLineShows(ls, i);
    BlankLineIs(ls, b, i);
    var (line, rest) := GetLine(stream);
    if inBody {
      if i + 1 < |ls| {
        assert body + (ls[i] + "\r") + LF == body + ls[i] + CRLF;
      }
    } else {
      ReadHeader(ls, i);
    }
  }

  lemma ReadStart(ls: seq<string>)
    requires IsDocument(ls) && HasBlank(ls)
    ensures ReadSoFar(ls, BlankIndex(ls, 1), 1, TextFrom(ls, 1), false, [], "")
  {
    assert ls[1..1] == [];
  }

  lemma BlankLineIs(ls: seq<string>, b: nat, i: nat)
    requires IsDocument(ls) && HasBlank(ls) && b == BlankIndex(ls, 1) && 1 <= i < |ls|
    ensures i < b ==> ls[i] != ""
    ensures ls[b] == ""
  {
    if i < b {
      NoBlankBefore(ls, 1, i);
    }
  }

  lemma {:induction false} NoBlankBefore(ls: seq<string>, from: nat, i: nat)
    requires from <= i < BlankIndex(ls, from) && i + 1 < |ls|
    ensures ls[i] != ""
    decreases i - from
  {
    if from == i {
    } else {
      NoBlankBefore(ls, from + 1, i);
    }
  }

  lemma LastLineShows(ls: seq<string>, i: nat)
    requires IsDocument(ls) && i < |ls|
    ensures i + 1 == |ls| ==> TextFrom(ls, i) == ls[i]
    ensures |ls[i]| > 0 ==> ls[i][|ls[i]| - 1] != '\r'
  {
    assert |ls[i]| > 0 ==> ls[i][|ls[i]| - 1] in ls[i];
  }
}
