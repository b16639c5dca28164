/** Strings as sequences of lines.

A text is kept in three shapes by the program: as one string, as the editor's
array of lines, and as CRLF-separated message text.  `LinesOf` and `Unlines`
relate them: `LinesOf` forgets CR and splits at LF, `Unlines` joins again.
Substring search is specified here once, for every caller of `std::string::find`. */
module Text {
  datatype Option<+T> = None | Some(value: T)

  const CRLF: string := "\r\n"
  const LF: string := "\n"
  const BLANK_LINE: string := "\r\n\r\n"

  // ---------------------------------------------------------------- searching

  predicate OccursAt(s: string, pat: string, i: nat) {
    i + |pat| <= |s| && s[i..i + |pat|] == pat
  }

  predicate Contains(s: string, pat: string) {
    Find(s, pat).Some?
  }

  /** The first occurrence at or after `from`. */
  function FindFrom(s: string, pat: string, from: nat): (r: Option<nat>)
    ensures r.Some? ==> from <= r.value && OccursAt(s, pat, r.value)
    decreases |s| - from
  {
    if |s| < from + |pat| then None
    else if OccursAt(s, pat, from) then Some(from)
    else if from == |s| then None
    else FindFrom(s, pat, from + 1)
  }

  function Find(s: string, pat: string): (r: Option<nat>)
    ensures r.Some? ==> OccursAt(s, pat, r.value)
  {
    FindFrom(s, pat, 0)
  }

  /** Nothing occurs before the result, and nowhere if there is none. */
  lemma FindFromFirst(s: string, pat: string, from: nat)
    ensures var r := FindFrom(s, pat, from);
            if r.Some? then forall i | from <= i < r.value :: !OccursAt(s, pat, i)
            else forall i | from <= i :: !OccursAt(s, pat, i)
    decreases |s| - from
  {
    if from < |s| {
      FindFromFirst(s, pat, from + 1);
    }
  }

  /** `Find` is the only function with its contract. */
  lemma FindIs(s: string, pat: string, i: nat)
    requires OccursAt(s, pat, i)
    requires forall j | 0 <= j < i :: !OccursAt(s, pat, j)
    ensures Find(s, pat) == Some(i)
  {
    FindFromFirst(s, pat, 0);
  }

  lemma FindNone(s: string, pat: string)
    requires forall i: nat :: !OccursAt(s, pat, i)
    ensures Find(s, pat) == None
  {
    var r := Find(s, pat);
  }

  lemma Occurs(s: string, pat: string, i: nat)
    requires OccursAt(s, pat, i)
    ensures Contains(s, pat)
  {
    FindFromFirst(s, pat, 0);
  }

  /** The pattern is somewhere in the text. */
  ghost predicate Within(pat: string, s: string) {
    exists a: string, b: string :: s == a + pat + b
  }

  lemma ContainsIsWithin(s: string, pat: string)
    ensures Contains(s, pat) <==> Within(pat, s)
  {
    var f := Find(s, pat);
    if f.Some? {
      assert s == s[..f.value] + pat + s[f.value + |pat|..];
    }
    if Within(pat, s) {
      var a: string, b: string :| s == a + pat + b;
      assert s[|a|..|a| + |pat|] == pat;
      Occurs(s, pat, |a|);
    }
  }

  /** A prefix in which nothing starts only shifts the result. */
  lemma FindAfter(p: string, s: string, pat: string)
    requires forall i: nat | i < |p| :: !OccursAt(p + s, pat, i)
    ensures var f := Find(s, pat); Find(p + s, pat) == if f.Some? then Some(|p| + f.value) else None
  {
    var t := p + s;
    forall i: nat | |p| <= i ensures OccursAt(t, pat, i) <==> OccursAt(s, pat, i - |p|) {
      if i + |pat| <= |t| {
        assert t[i..i + |pat|] == s[i - |p|..i - |p| + |pat|];
      }
    }
    assert forall i: nat :: OccursAt(t, pat, |p| + i) <==> OccursAt(s, pat, i);
    FindFromFirst(s, pat, 0);
    hide OccursAt;
    var f := Find(s, pat);
    forall i: nat | |p| <= i && (f.Some? ==> i < |p| + f.value) ensures !OccursAt(t, pat, i) {
      assert !OccursAt(s, pat, i - |p|);
    }
    if f.Some? {
      assert OccursAt(t, pat, |p| + f.value);
      FindIs(t, pat, |p| + f.value);
    } else {
      FindNone(t, pat);
    }
  }

  /** One character that differs rules an occurrence out. */
  lemma Mismatch(s: string, pat: string, i: nat, j: nat)
    requires j < |pat| && (i + j < |s| ==> s[i + j] != pat[j])
    ensures !OccursAt(s, pat, i)
  {
    assert i + |pat| <= |s| ==> s[i..i + |pat|][j] == s[i + j];
  }

  predicate EndsWith(s: string, suffix: string) {
    |suffix| <= |s| && s[|s| - |suffix|..] == suffix
  }

  // -------------------------------------------------------------------- lines

  /** A line holds neither CR nor LF. */
  predicate IsLine(l: string) {
    '\r' !in l && '\n' !in l
  }

  predicate AreLines(ls: seq<string>) {
    forall i | 0 <= i < |ls| :: IsLine(ls[i])
  }

  /** What the editor and every message text are made of: at least one line. */
  predicate IsDocument(ls: seq<string>) {
    ls != [] && AreLines(ls)
  }

  function Unlines(ls: seq<string>, sep: string): (s: string)
    requires ls != []
  {
    if |ls| == 1 then ls[0] else ls[0] + sep + Unlines(ls[1..], sep)
  }

  /** Splits at LF and forgets CR. */
  function LinesOf(s: string): (ls: seq<string>)
    ensures IsDocument(ls)
  {
    if s == "" then [""]
    else
      var ls := LinesOf(s[..|s| - 1]);
      AddChar(ls, s[|s| - 1])
  }

  function AddChar(ls: seq<string>, c: char): (r: seq<string>)
    requires IsDocument(ls)
    ensures IsDocument(r)
  {
    var last := |ls| - 1;
    if c == '\r' then ls
    else if c == '\n' then ls + [""]
    else ls[last := ls[last] + [c]]
  }

  function CrlfForm(s: string): string {
    Unlines(LinesOf(s), CRLF)
  }

  /** Every CR starts a CRLF and every LF ends one. */
  predicate CrlfNormal(s: string) {
    forall i | 0 <= i < |s| :: NormalAt(s, i)
  }

  predicate NormalAt(s: string, i: nat)
    requires i < |s|
  {
    && (s[i] == '\r' ==> i + 1 < |s| && s[i + 1] == '\n')
    && (s[i] == '\n' ==> 0 < i && s[i - 1] == '\r')
  }

  // ------------------------------------------------------- facts about Unlines

  lemma {:induction false} UnlinesSnoc(ls: seq<string>, l: string, sep: string)
    requires ls != []
    ensures Unlines(ls + [l], sep) == Unlines(ls, sep) + sep + l
  {
    var all := ls + [l];
    assert all[1..] == ls[1..] + [l];
    if |ls| <= 1 {
    } else {
      UnlinesSnoc(ls[1..], l, sep);
    }
  }

  lemma {:induction false} UnlinesConcat(a: seq<string>, b: seq<string>, sep: string)
    requires a != [] && b != []
    ensures Unlines(a + b, sep) == Unlines(a, sep) + sep + Unlines(b, sep)
  {
    assert (a + b)[1..] == a[1..] + b;
    if |a| > 1 {
      UnlinesConcat(a[1..], b, sep);
      calc {
        Unlines(a + b, sep);
        a[0] + sep + (Unlines(a[1..], sep) + sep + Unlines(b, sep));
        (a[0] + sep + Unlines(a[1..], sep)) + sep + Unlines(b, sep);
      }
    } else {
      assert (a + b)[1..] == b;
    }
  }

  lemma {:induction false} UnlinesLast(ls: seq<string>, more: string, sep: string)
    requires ls != []
    ensures var last := |ls| - 1;
            Unlines(ls[last := ls[last] + more], sep) == Unlines(ls, sep) + more
  {
    var last := |ls| - 1;
    var up := ls[last := ls[last] + more];
    if last > 0 {
      UnlinesSnoc(ls[..last], ls[last], sep);
      UnlinesSnoc(ls[..last], up[last], sep);
      assert ls == ls[..last] + [ls[last]];
      assert up == ls[..last] + [up[last]];
    }
  }

  // -------------------------------------------------------------- round trips

  lemma LinesOfSnoc(s: string, c: char)
    ensures LinesOf(s + [c]) == AddChar(LinesOf(s), c)
  {
    assert (s + [c])[..|s + [c]| - 1] == s;
  }

  /** What one more character adds to the normal form. */
  lemma CrlfFormSnoc(s: string, c: char)
    ensures CrlfForm(s + [c]) == CrlfForm(s) + (if c == '\r' then "" else if c == '\n' then CRLF else [c])
  {
    LinesOfSnoc(s, c);
    if c == '\n' {
      UnlinesSnoc(LinesOf(s), "", CRLF);
    } else if c != '\r' {
      UnlinesLast(LinesOf(s), [c], CRLF);
    }
  }

  function Count(s: string, c: char): nat {
    if s == "" then 0 else Count(s[..|s| - 1], c) + (if s[|s| - 1] == c then 1 else 0)
  }

  lemma {:induction false} CountConcat(a: string, b: string, c: char)
    ensures Count(a + b, c) == Count(a, c) + Count(b, c)
  {
    if b == "" {
      assert a + b == a;
    } else {
      CountConcat(a, b[..|b| - 1], c);
      assert (a + b)[..|a + b| - 1] == a + b[..|b| - 1];
    }
  }

  lemma CountEnds()
    ensures Count(CRLF, '\r') == Count(CRLF, '\n') == 1
    ensures Count(BLANK_LINE, '\r') == Count(BLANK_LINE, '\n') == 2
  {
    assert CRLF == ['\r'] + ['\n'] && BLANK_LINE == CRLF + CRLF;
    CountConcat(['\r'], ['\n'], '\r');
    CountConcat(['\r'], ['\n'], '\n');
    CountConcat(CRLF, CRLF, '\r');
    CountConcat(CRLF, CRLF, '\n');
  }

  /** Forcing CRLF drops every CR and puts one before every LF. */
  lemma {:induction false} CrlfFormCounts(s: string)
    ensures |CrlfForm(s)| == |s| - Count(s, '\r') + Count(s, '\n')
    ensures Count(CrlfForm(s), '\r') == Count(CrlfForm(s), '\n')
  {
    if s == "" {
      assert CrlfForm(s) == "";
    } else {
      var front, c := s[..|s| - 1], s[|s| - 1];
      CrlfFormCounts(front);
      assert front + [c] == s;
      CrlfFormSnoc(front, c);
      var more := if c == '\r' then "" else if c == '\n' then CRLF else [c];
      CountConcat(CrlfForm(front), more, '\r');
      CountConcat(CrlfForm(front), more, '\n');
      CountEnds();
      hide CrlfForm;
    }
  }

  lemma {:induction false} LinesOfLine(ls: seq<string>, s: string, l: string)
    requires LinesOf(s) == ls && IsLine(l)
    ensures var last := |ls| - 1; LinesOf(s + l) == ls[last := ls[last] + l]
  {
    hide LinesOf;
    if l == "" {
      assert s + l == s;
      assert ls[|ls| - 1] + l == ls[|ls| - 1];
    } else {
      var n := |l| - 1;
      LinesOfLine(ls, s, l[..n]);
      assert (s + l[..n]) + [l[n]] == s + l;
      assert l[..n] + [l[n]] == l;
      LinesOfSnoc(s + l[..n], l[n]);
      assert ls[|ls| - 1] + l == ls[|ls| - 1] + l[..n] + [l[n]];
    }
  }

  lemma LinesOfOne(l: string)
    requires IsLine(l)
    ensures LinesOf(l) == [l]
  {
    LinesOfLine([""], "", l);
    assert "" + l == l;
  }

  /** Joining lines with LF or CRLF and splitting again gives the lines back. */
  lemma {:induction false} LinesRoundTrip(ls: seq<string>, sep: string)
    requires IsDocument(ls) && (sep == LF || sep == CRLF)
    ensures LinesOf(Unlines(ls, sep)) == ls
  {
    hide LinesOf;
    var last := |ls| - 1;
    if last == 0 {
      LinesOfOne(ls[0]);
    } else {
      var front := ls[..last];
      LinesRoundTrip(front, sep);
      UnlinesSnoc(front, ls[last], sep);
      assert front + [ls[last]] == ls;
      var s := Unlines(front, sep);
      if sep == CRLF {
        LinesOfSnoc(s, '\r');
        LinesOfSnoc(s + "\r", '\n');
        assert s + "\r" + "\n" == s + CRLF;
      } else {
        LinesOfSnoc(s, '\n');
      }
      LinesOfLine(front + [""], s + sep, ls[last]);
      assert "" + ls[last] == ls[last];
    }
  }

  /** A document is determined by its joined text. */
  lemma UnlinesInjective(a: seq<string>, b: seq<string>, sep: string)
    requires IsDocument(a) && IsDocument(b) && (sep == LF || sep == CRLF)
    requires Unlines(a, sep) == Unlines(b, sep)
    ensures a == b
  {
    LinesRoundTrip(a, sep);
    LinesRoundTrip(b, sep);
  }

  lemma {:induction false} UnlinesIsNormal(ls: seq<string>)
    requires IsDocument(ls)
    ensures CrlfNormal(Unlines(ls, CRLF))
  {
    if |ls| <= 1 {
    } else {
      UnlinesIsNormal(ls[1..]);
      var rest := Unlines(ls[1..], CRLF);
      var s := ls[0] + CRLF + rest;
      var n := |ls[0]|;
      assert s[n] == '\r' && s[n + 1] == '\n';
      forall i | 0 <= i < |s| ensures NormalAt(s, i) {
        if i < n {
          assert s[i] == ls[0][i];
          assert s[i] in ls[0];
        } else if i >= n + 2 {
          assert NormalAt(rest, i - n - 2);
          assert rest == s[n + 2..];
        }
      }
    }
  }

  /** The normal form is reached by exactly the CRLF-normal texts, and leaves those alone. */
  lemma {:induction false} NormalFormFixes(s: string)
    ensures CrlfForm(s) == s <==> CrlfNormal(s)
  {
    UnlinesIsNormal(LinesOf(s));
    if CrlfNormal(s) {
      NormalPrefix(s, |s|);
      assert s[..|s|] == s;
      assert s != "" ==> NormalAt(s, |s| - 1);
    }
  }

  lemma {:induction false} NormalPrefix(s: string, n: nat)
    requires CrlfNormal(s) && n <= |s|
    ensures CrlfForm(s[..n]) == (if n > 0 && s[n - 1] == '\r' then s[..n - 1] else s[..n])
  {
    if n == 0 {
    } else {
      NormalPrefix(s, n - 1);
      assert s[..n - 1] + [s[n - 1]] == s[..n];
      CrlfFormSnoc(s[..n - 1], s[n - 1]);
      assert NormalAt(s, n - 1);
      assert n > 1 ==> NormalAt(s, n - 2);
      if s[n - 1] == '\n' {
        assert n > 1 && s[n - 2] == '\r';
        assert s[..n - 2] + CRLF == s[..n];
      } else if s[n - 1] != '\r' && n > 1 {
        assert s[n - 2] != '\r';
      }
    }
  }

  lemma CrlfFormIdempotent(s: string)
    ensures CrlfForm(CrlfForm(s)) == CrlfForm(s)
  {
    UnlinesIsNormal(LinesOf(s));
    NormalFormFixes(CrlfForm(s));
  }

  // -------------------------------------------------- the blank line in a text

  /** The first empty line after the first line that is not the last line either;
      |ls| when there is none. */
  function BlankIndex(ls: seq<string>, from: nat): (b: nat)
    ensures b <= |ls|
    ensures b + 1 < |ls| ==> from <= b && ls[b] == ""
    decreases |ls| - from
  {
    if from + 1 >= |ls| then |ls|
    else if ls[from] == "" then from
    else BlankIndex(ls, from + 1)
  }

  predicate HasBlank(ls: seq<string>) {
    BlankIndex(ls, 1) + 1 < |ls|
  }

  lemma {:induction false} BlankIndexTail(ls: seq<string>, from: nat)
    requires ls != [] && 1 <= from
    ensures BlankIndex(ls[1..], from - 1) + 1 == BlankIndex(ls, from)
    decreases |ls| - from
  {
    if from + 1 >= |ls| || ls[from] == "" {
    } else {
      BlankIndexTail(ls, from + 1);
    }
  }

  /** CRLFCRLF first occurs right after the lines before the blank one, and what
      follows it is the text of the lines after the blank one. */
  ghost predicate BlankFound(ls: seq<string>)
    requires IsDocument(ls)
  {
    var t := Unlines(ls, CRLF);
    var b := BlankIndex(ls, 1);
    var f := Find(t, BLANK_LINE);
    if b + 1 < |ls|
    then f.Some? && t[..f.value] == Unlines(ls[..b], CRLF) && t[f.value + 4..] == Unlines(ls[b + 1..], CRLF)
    else f == None
  }

  lemma {:induction false} FindBlank(ls: seq<string>)
    requires IsDocument(ls)
    ensures BlankFound(ls)
  {
    hide Find, OccursAt;
    NoBlankInLine(ls);
    if |ls| == 1 {
      forall i: nat ensures !OccursAt(ls[0], BLANK_LINE, i) {
        Mismatch(ls[0], BLANK_LINE, i, 0);
      }
      FindNone(ls[0], BLANK_LINE);
    } else if |ls| >= 3 && ls[1] == "" {
      BlankFirst(ls);
    } else {
      NoBlankAtEnd(ls);
      FindBlank(ls[1..]);
      BlankLater(ls);
    }
  }

  lemma BlankFirst(ls: seq<string>)
    requires IsDocument(ls) && |ls| >= 3 && ls[1] == ""
    ensures var t := Unlines(ls, CRLF);
            Find(t, BLANK_LINE) == Some(|ls[0]|) && t[..|ls[0]|] == Unlines(ls[..1], CRLF)
            && t[|ls[0]| + 4..] == Unlines(ls[2..], CRLF)
  {
    var rest := Unlines(ls[2..], CRLF);
    assert ls[1..][1..] == ls[2..];
    assert Unlines(ls[1..], CRLF) == CRLF + rest;
    var t := ls[0] + CRLF + (CRLF + rest);
    assert t == ls[0] + BLANK_LINE + rest;
    assert t == Unlines(ls, CRLF);
    assert OccursAt(t, BLANK_LINE, |ls[0]|);
    NoBlankInLine(ls);
    FindIs(t, BLANK_LINE, |ls[0]|);
    assert ls[..1] == [ls[0]];
  }

  /** The search passes over a first line that the blank line does not follow. */
  lemma BlankLater(ls: seq<string>)
    requires IsDocument(ls) && |ls| >= 2 && !(|ls| >= 3 && ls[1] == "")
    requires forall i: nat | i < |ls[0]| + 2 :: !OccursAt(Unlines(ls, CRLF), BLANK_LINE, i)
    requires BlankFound(ls[1..])
    ensures BlankFound(ls)
  {
    hide Find;
    var p := ls[0] + CRLF;
    assert p + Unlines(ls[1..], CRLF) == Unlines(ls, CRLF);
    FindAfter(p, Unlines(ls[1..], CRLF), BLANK_LINE);
    BlankIndexTail(ls, 2);
    hide BlankIndex;
    assert BlankIndex(ls, 1) == BlankIndex(ls[1..], 1) + 1;
    var b := BlankIndex(ls[1..], 1);
    if b + 1 < |ls| - 1 {
      BlankSlices(ls, b);
      var rest := Unlines(ls[1..], CRLF);
      var k := Find(rest, BLANK_LINE).value;
      assert (p + rest)[..|p| + k] == p + rest[..k];
      assert (p + rest)[|p| + k + 4..] == rest[k + 4..];
    }
  }

  lemma BlankSlices(ls: seq<string>, b: nat)
    requires |ls| >= 2 && 1 <= b && b + 1 < |ls| - 1
    ensures Unlines(ls[..b + 1], CRLF) == ls[0] + CRLF + Unlines(ls[1..][..b], CRLF)
    ensures ls[b + 2..] == ls[1..][b + 1..]
  {
    assert ls[..b + 1][1..] == ls[1..][..b];
  }

  lemma NoBlankInLine(ls: seq<string>)
    requires IsDocument(ls)
    ensures forall i: nat | i < |ls[0]| :: !OccursAt(Unlines(ls, CRLF), BLANK_LINE, i)
  {
    var t := Unlines(ls, CRLF);
    forall i: nat | i < |ls[0]| ensures !OccursAt(t, BLANK_LINE, i) {
      assert t[i] == ls[0][i] && ls[0][i] in ls[0];
      Mismatch(t, BLANK_LINE, i, 0);
    }
  }

  /** The end of the first line starts a CRLFCRLF only if the next line is blank. */
  lemma NoBlankAtEnd(ls: seq<string>)
    requires IsDocument(ls) && |ls| >= 2 && !(|ls| >= 3 && ls[1] == "")
    ensures var n := |ls[0]|; var t := Unlines(ls, CRLF);
            !OccursAt(t, BLANK_LINE, n) && !OccursAt(t, BLANK_LINE, n + 1)
  {
    var n := |ls[0]|;
    var t := Unlines(ls, CRLF);
    var rest := Unlines(ls[1..], CRLF);
    assert t == ls[0] + CRLF + rest;
    assert t[n + 1] == '\n';
    Mismatch(t, BLANK_LINE, n + 1, 0);
    if ls[1] != "" {
      assert rest[0] == ls[1][0] && ls[1][0] in ls[1];
      assert t[n + 2] == rest[0];
    }
    Mismatch(t, BLANK_LINE, n, 2);
  }
}
