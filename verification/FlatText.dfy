/** The editor seen as one string and one offset.

The program keeps an array of lines with a row and a column.  Cutting the array at
the cursor gives two documents, `Before` and `After`; `Glue` puts them together.
Every key works at the cut, so each is understood on the two halves. */
module FlatText {
  import opened Text

  /** A one-dimensional editor. */
  datatype Flat = Flat(text: string, pos: nat)

  predicate InRange(f: Flat) {
    f.pos <= |f.text|
  }

  predicate IsPosition(ls: seq<string>, row: int, col: int) {
    0 <= row < |ls| && 0 <= col <= |ls[row]|
  }

  function Before(ls: seq<string>, row: nat, col: nat): (a: seq<string>)
    requires IsPosition(ls, row, col)
    ensures |a| == row + 1
  {
    ls[..row] + [ls[row][..col]]
  }

  function After(ls: seq<string>, row: nat, col: nat): (b: seq<string>)
    requires IsPosition(ls, row, col)
    ensures |b| == |ls| - row
  {
    [ls[row][col..]] + ls[row + 1..]
  }

  function Last(a: seq<string>): string
    requires a != []
  {
    a[|a| - 1]
  }

  function Glue(a: seq<string>, b: seq<string>): seq<string>
    requires a != [] && b != []
  {
    a[..|a| - 1] + [Last(a) + b[0]] + b[1..]
  }

  /** The offset of a position in the lines joined by LF. */
  function Offset(ls: seq<string>, row: nat, col: nat): nat
    requires IsPosition(ls, row, col)
  {
    |Unlines(Before(ls, row, col), LF)|
  }

  function View(ls: seq<string>, row: nat, col: nat): (f: Flat)
    requires IsDocument(ls) && IsPosition(ls, row, col)
    ensures InRange(f)
  {
    Cut(ls, row, col);
    Flat(Unlines(ls, LF), Offset(ls, row, col))
  }

  // ----------------------------------------------------------- the flat editor

  function StripCr(s: string): string {
    if s == "" then "" else StripCr(s[..|s| - 1]) + (if s[|s| - 1] == '\r' then "" else [s[|s| - 1]])
  }

  lemma {:induction false} StripCrConcat(a: string, b: string)
    ensures StripCr(a + b) == StripCr(a) + StripCr(b)
  {
    if b == "" {
      assert a + b == a;
    } else {
      StripCrConcat(a, b[..|b| - 1]);
      assert (a + b)[..|a + b| - 1] == a + b[..|b| - 1];
    }
  }

  /** Stripping takes out every CR and nothing else. */
  lemma StripCrIs(a: string, b: string)
    requires '\r' !in b
    ensures StripCr(b) == b && StripCr(a + ['\r'] + b) == StripCr(a) + b
  {
    StripCrOnly();
    hide StripCr;
    StripCrNothing(b);
    StripCrConcat(a + ['\r'], b);
    StripCrConcat(a, ['\r']);
    assert StripCr(a) + "" == StripCr(a);
  }

  lemma StripCrOnly()
    ensures StripCr(['\r']) == ""
  {
    assert ['\r'][..0] == [];
  }

  lemma {:induction false} StripCrNothing(s: string)
    requires '\r' !in s
    ensures StripCr(s) == s
  {
    if s == "" {
    } else {
      StripCrNothing(s[..|s| - 1]);
      assert s[|s| - 1] in s;
    }
  }

  function FlatInsert(f: Flat, s: string): (r: Flat)
    requires InRange(f)
    ensures InRange(r)
  {
    var t := StripCr(s);
    Flat(f.text[..f.pos] + t + f.text[f.pos..], f.pos + |t|)
  }

  function FlatBackspace(f: Flat): Flat
    requires InRange(f)
  {
    if f.pos == 0 then f else Flat(f.text[..f.pos - 1] + f.text[f.pos..], f.pos - 1)
  }

  function FlatDelete(f: Flat): Flat
    requires InRange(f)
  {
    if f.pos == |f.text| then f else Flat(f.text[..f.pos] + f.text[f.pos + 1..], f.pos)
  }

  function FlatLeft(f: Flat): Flat {
    if f.pos == 0 then f else f.(pos := f.pos - 1)
  }

  function FlatRight(f: Flat): Flat {
    if f.pos >= |f.text| then f else f.(pos := f.pos + 1)
  }

  /** The offset just after the last LF before p. */
  function LineStart(t: string, p: nat): (r: nat)
    requires p <= |t|
    ensures r <= p && (r > 0 ==> t[r - 1] == '\n') && forall i | r <= i < p :: t[i] != '\n'
  {
    if p == 0 || t[p - 1] == '\n' then p else LineStart(t, p - 1)
  }

  /** The offset of the first LF from p on, or the end. */
  function LineEnd(t: string, p: nat): (r: nat)
    requires p <= |t|
    ensures p <= r <= |t| && (r < |t| ==> t[r] == '\n') && forall i | p <= i < r :: t[i] != '\n'
    decreases |t| - p
  {
    if p == |t| || t[p] == '\n' then p else LineEnd(t, p + 1)
  }

  function FlatHome(f: Flat): Flat
    requires InRange(f)
  {
    f.(pos := LineStart(f.text, f.pos))
  }

  function FlatEnd(f: Flat): Flat
    requires InRange(f)
  {
    f.(pos := LineEnd(f.text, f.pos))
  }

  function Min(a: int, b: int): int { if a < b then a else b }
  function Max(a: int, b: int): int { if a < b then b else a }

  /** The same column one line up, or the end of that line when it is shorter. */
  function FlatUp(f: Flat): Flat
    requires InRange(f)
  {
    var start := LineStart(f.text, f.pos);
    if start == 0 then f
    else
      var above := LineStart(f.text, start - 1);
      f.(pos := Min(above + (f.pos - start), start - 1))
  }

  function FlatDown(f: Flat): Flat
    requires InRange(f)
  {
    var end := LineEnd(f.text, f.pos);
    if end == |f.text| then f
    else f.(pos := Min(end + 1 + (f.pos - LineStart(f.text, f.pos)), LineEnd(f.text, end + 1)))
  }

  /** The start of the line n lines above the one starting at s, or of the first. */
  function LineAbove(t: string, s: nat, n: nat): (r: nat)
    requires s <= |t|
    ensures r <= s
    decreases n
  {
    if n == 0 || s == 0 then s else LineAbove(t, LineStart(t, s - 1), n - 1)
  }

  /** The start of the line n lines below the one starting at s, or of the last. */
  function LineBelow(t: string, s: nat, n: nat): (r: nat)
    requires s <= |t|
    ensures s <= r <= |t|
    decreases n
  {
    if n == 0 || LineEnd(t, s) == |t| then s else LineBelow(t, LineEnd(t, s) + 1, n - 1)
  }

  /** The same column of the line that starts there, or the end of that line. */
  function AtColumnOf(f: Flat, start: nat): Flat
    requires InRange(f) && start <= |f.text|
  {
    f.(pos := Min(start + (f.pos - LineStart(f.text, f.pos)), LineEnd(f.text, start)))
  }

  const PAGE := 10

  function FlatPageUp(f: Flat): Flat
    requires InRange(f)
  {
    AtColumnOf(f, LineAbove(f.text, LineStart(f.text, f.pos), PAGE))
  }

  function FlatPageDown(f: Flat): Flat
    requires InRange(f)
  {
    AtColumnOf(f, LineBelow(f.text, LineStart(f.text, f.pos), PAGE))
  }

  // ------------------------------------------------------------- cut and glue

  lemma {:induction false} GlueText(a: seq<string>, b: seq<string>, sep: string)
    requires a != [] && b != []
    ensures Unlines(Glue(a, b), sep) == Unlines(a, sep) + Unlines(b, sep)
  {
    if |a| == 1 {
      var g := Glue(a, b);
      assert g == [a[0] + b[0]] + b[1..];
      assert g[1..] == b[1..];
      if |b| > 1 {
        assert (a[0] + b[0]) + sep + Unlines(b[1..], sep) == a[0] + (b[0] + sep + Unlines(b[1..], sep));
      }
    } else {
      GlueText(a[1..], b, sep);
      assert Glue(a, b)[1..] == Glue(a[1..], b);
      assert a[0] + sep + (Unlines(a[1..], sep) + Unlines(b, sep)) ==
        (a[0] + sep + Unlines(a[1..], sep)) + Unlines(b, sep);
    }
  }

  lemma Cut(ls: seq<string>, row: nat, col: nat)
    requires IsDocument(ls) && IsPosition(ls, row, col)
    ensures var a, b := Before(ls, row, col), After(ls, row, col);
            && IsDocument(a) && IsDocument(b) && Glue(a, b) == ls
            && Unlines(ls, LF) == Unlines(a, LF) + Unlines(b, LF)
  {
    var a, b := Before(ls, row, col), After(ls, row, col);
    assert IsLine(ls[row]);
    assert ls[row][..col] + ls[row][col..] == ls[row];
    assert Glue(a, b) == ls;
    GlueText(a, b, LF);
  }

  /** Cutting at a position and gluing gives the document back. */
  lemma Halves(ls: seq<string>, row: nat, col: nat)
    requires IsDocument(ls) && IsPosition(ls, row, col)
    ensures var a, b := Before(ls, row, col), After(ls, row, col);
            && IsDocument(a) && IsDocument(b) && Glue(a, b) == ls && |Last(a)| == col
            && View(ls, row, col) == Flat(Unlines(a, LF) + Unlines(b, LF), |Unlines(a, LF)|)
  {
    Cut(ls, row, col);
  }

  /** The editor state whose halves are a and b. */
  lemma Glued(a: seq<string>, b: seq<string>)
    requires IsDocument(a) && IsDocument(b)
    ensures var ls, row, col := Glue(a, b), |a| - 1, |Last(a)|;
            && IsDocument(ls) && IsPosition(ls, row, col)
            && View(ls, row, col) == Flat(Unlines(a, LF) + Unlines(b, LF), |Unlines(a, LF)|)
  {
    var ls := Glue(a, b);
    GlueText(a, b, LF);
    assert IsLine(Last(a)) && IsLine(b[0]);
    assert Before(ls, |a| - 1, |Last(a)|) == a;
  }

  /** The flat view determines the lines and the cursor. */
  lemma ViewInjective(ls1: seq<string>, r1: nat, c1: nat, ls2: seq<string>, r2: nat, c2: nat)
    requires IsDocument(ls1) && IsPosition(ls1, r1, c1) && IsDocument(ls2) && IsPosition(ls2, r2, c2)
    requires View(ls1, r1, c1) == View(ls2, r2, c2)
    ensures ls1 == ls2 && r1 == r2 && c1 == c2
  {
    UnlinesInjective(ls1, ls2, LF);
    Halves(ls1, r1, c1);
    Halves(ls2, r2, c2);
    var a1, a2 := Before(ls1, r1, c1), Before(ls2, r2, c2);
    assert Unlines(a1, LF) == Unlines(ls1, LF)[..Offset(ls1, r1, c1)] == Unlines(a2, LF);
    UnlinesInjective(a1, a2, LF);
  }

  // ----------------------------------------------------- one character at a cut

  /** The front half with its last character taken off. */
  function DropLast(a: seq<string>): (seq<string>, string)
    requires a != []
  {
    var last := |a| - 1;
    if a[last] != "" then (a[last := a[last][..|a[last]| - 1]], [a[last][|a[last]| - 1]])
    else if last > 0 then (a[..last], LF)
    else (a, "")
  }

  lemma DropLastText(a: seq<string>)
    requires IsDocument(a)
    ensures var (d, c) := DropLast(a); IsDocument(d) && Unlines(a, LF) == Unlines(d, LF) + c
    ensures DropLast(a).1 == "" <==> Unlines(a, LF) == ""
  {
    var last := |a| - 1;
    var (d, c) := DropLast(a);
    assert IsLine(a[last]);
    if a[last] != "" {
      assert d[last] + c == a[last];
      assert d[last := d[last] + c] == a;
      UnlinesLast(d, c, LF);
    } else if last > 0 {
      assert a == d + [""];
      UnlinesSnoc(d, "", LF);
    }
  }

  /** The back half with its first character taken off. */
  function DropFirst(b: seq<string>): (string, seq<string>)
    requires b != []
  {
    if b[0] != "" then ([b[0][0]], b[0 := b[0][1..]])
    else if |b| > 1 then (LF, b[1..])
    else ("", b)
  }

  lemma DropFirstText(b: seq<string>)
    requires IsDocument(b)
    ensures var (c, d) := DropFirst(b); IsDocument(d) && Unlines(b, LF) == c + Unlines(d, LF)
    ensures DropFirst(b).0 == "" <==> Unlines(b, LF) == ""
  {
    var (c, d) := DropFirst(b);
    assert IsLine(b[0]);
    if b[0] != "" {
      assert d[1..] == b[1..];
      assert c + d[0] == b[0];
      if |b| > 1 {
        assert (c + d[0]) + LF + Unlines(b[1..], LF) == c + (d[0] + LF + Unlines(b[1..], LF));
      }
    }
  }

  lemma AddCharText(a: seq<string>, c: char)
    requires IsDocument(a)
    ensures Unlines(AddChar(a, c), LF) == Unlines(a, LF) + StripCr([c])
  {
    assert [c][..0] == "";
    if c == '\n' {
      UnlinesSnoc(a, "", LF);
    } else if c != '\r' {
      UnlinesLast(a, [c], LF);
    }
  }

  lemma StripCrSnoc(s: string, c: char)
    ensures StripCr(s + [c]) == StripCr(s) + StripCr([c])
  {
    assert (s + [c])[..|s|] == s;
    assert [c][..0] == "";
  }

  // -------------------------------------------------------- line ends at a cut

  lemma {:induction false} StartOfLast(a: seq<string>, rest: string)
    requires IsDocument(a)
    ensures var t := Unlines(a, LF) + rest; var p := |Unlines(a, LF)|;
            LineStart(t, p) == p - |Last(a)| && |Last(a)| <= p
            && (|a| > 1 ==> p - |Last(a)| == |Unlines(a[..|a| - 1], LF)| + 1)
            && (|a| == 1 ==> p == |Last(a)|)
  {
    var last := |a| - 1;
    var s := Unlines(a, LF);
    var t := s + rest;
    assert IsLine(a[last]);
    if last > 0 {
      assert a == a[..last] + [a[last]];
      UnlinesSnoc(a[..last], a[last], LF);
    }
    var start := |s| - |a[last]|;
    assert s[start..] == a[last];
    forall i | start <= i < |s| ensures t[i] != '\n' {
      assert t[i] == s[start..][i - start];
      assert a[last][i - start] in a[last];
    }
    assert start > 0 ==> t[start - 1] == '\n';
    StartUnique(t, |s|, start);
  }

  lemma StartUnique(t: string, p: nat, r: nat)
    requires r <= p <= |t| && (r > 0 ==> t[r - 1] == '\n') && forall i | r <= i < p :: t[i] != '\n'
    ensures LineStart(t, p) == r
  {
  }

  lemma EndUnique(t: string, p: nat, r: nat)
    requires p <= r <= |t| && (r < |t| ==> t[r] == '\n') && forall i | p <= i < r :: t[i] != '\n'
    ensures LineEnd(t, p) == r
  {
  }

  lemma EndOfFirst(front: string, b: seq<string>)
    requires IsDocument(b)
    ensures var t := front + Unlines(b, LF);
            LineEnd(t, |front|) == |front| + |b[0]| && |b[0]| <= |Unlines(b, LF)|
            && (|b| > 1 <==> |front| + |b[0]| < |t|)
  {
    var s := Unlines(b, LF);
    var t := front + s;
    assert IsLine(b[0]);
    assert s[..|b[0]|] == b[0];
    forall i | |front| <= i < |front| + |b[0]| ensures t[i] != '\n' {
      assert t[i] == s[..|b[0]|][i - |front|];
      assert b[0][i - |front|] in b[0];
    }
    EndUnique(t, |front|, |front| + |b[0]|);
  }

  // -------------------------------------------------------------- laws of keys

  function Backspaces(f: Flat, n: nat): (r: Flat)
    requires InRange(f)
    ensures InRange(r)
  {
    if n == 0 then f else FlatBackspace(Backspaces(f, n - 1))
  }

  lemma {:induction false} BackspacesErase(f: Flat, t: string, n: nat)
    requires InRange(f) && n <= |t|
    ensures Backspaces(Flat(f.text[..f.pos] + t + f.text[f.pos..], f.pos + |t|), n)
              == Flat(f.text[..f.pos] + t[..|t| - n] + f.text[f.pos..], f.pos + |t| - n)
  {
    if n == 0 {
      assert t[..|t|] == t;
    } else {
      BackspacesErase(f, t, n - 1);
      var l, r := f.text[..f.pos], f.text[f.pos..];
      var k := |t| - n + 1;
      var m := l + t[..k] + r;
      assert m[..f.pos + k - 1] == l + t[..k - 1];
      assert m[f.pos + k..] == r;
    }
  }

  /** Inserting any string, over any number of lines, and pressing Backspace once
      per character that is not a CR restores the lines and the cursor. */
  lemma InsertThenErase(ls: seq<string>, row: nat, col: nat, s: string, ls': seq<string>, row': nat, col': nat)
    requires IsDocument(ls) && IsPosition(ls, row, col) && IsDocument(ls') && IsPosition(ls', row', col')
    requires View(ls', row', col') == Backspaces(FlatInsert(View(ls, row, col), s), |StripCr(s)|)
    ensures ls' == ls && row' == row && col' == col
  {
    var f := View(ls, row, col);
    var t := StripCr(s);
    BackspacesErase(f, t, |t|);
    assert t[..0] == "" && f.text[..f.pos] + "" + f.text[f.pos..] == f.text;
    ViewInjective(ls, row, col, ls', row', col');
  }

  // ---------------------------------------------------------------- selections

  predicate NotAfter(r1: int, c1: int, r2: int, c2: int) {
    r1 < r2 || (r1 == r2 && c1 <= c2)
  }

  /** The lines between two positions. */
  function Between(ls: seq<string>, r1: nat, c1: nat, r2: nat, c2: nat): (m: seq<string>)
    requires IsPosition(ls, r1, c1) && IsPosition(ls, r2, c2) && NotAfter(r1, c1, r2, c2)
    ensures |m| == r2 - r1 + 1
  {
    if r1 == r2 then [ls[r1][c1..c2]]
    else [ls[r1][c1..]] + ls[r1 + 1..r2] + [ls[r2][..c2]]
  }

  lemma BetweenAt(ls: seq<string>, r1: nat, c1: nat, r2: nat, c2: nat, r: nat)
    requires IsPosition(ls, r1, c1) && IsPosition(ls, r2, c2) && NotAfter(r1, c1, r2, c2) && r1 <= r <= r2
    ensures var start, end := if r == r1 then c1 else 0, if r == r2 then c2 else |ls[r]|;
            start <= end && Between(ls, r1, c1, r2, c2)[r - r1] == ls[r][start..end]
  {
  }

  lemma UnlinesNext(ls: seq<string>, k: nat, sep: string)
    requires k < |ls|
    ensures Unlines(ls[..k + 1], sep) == (if k == 0 then "" else Unlines(ls[..k], sep) + sep) + ls[k]
  {
    assert ls[..k + 1] == ls[..k] + [ls[k]];
    if k > 0 { UnlinesSnoc(ls[..k], ls[k], sep); } else { assert "" + ls[0] == ls[0]; }
  }

  /** Those lines are the flat text between the two offsets. */
  lemma BetweenText(ls: seq<string>, r1: nat, c1: nat, r2: nat, c2: nat)
    requires IsDocument(ls) && IsPosition(ls, r1, c1) && IsPosition(ls, r2, c2) && NotAfter(r1, c1, r2, c2)
    ensures var m := Between(ls, r1, c1, r2, c2);
            var o1, o2 := Offset(ls, r1, c1), Offset(ls, r2, c2);
            && o1 <= o2 <= |Unlines(ls, LF)|
            && Unlines(m, LF) == Unlines(ls, LF)[o1..o2]
            && Unlines(m, CRLF) == CrlfForm(Unlines(ls, LF)[o1..o2])
  {
    var m := Between(ls, r1, c1, r2, c2);
    var a1, a2 := Before(ls, r1, c1), Before(ls, r2, c2);
    Halves(ls, r1, c1);
    Halves(ls, r2, c2);
    GlueMiddle(ls, r1, c1, r2, c2);
    GlueText(a1, m, LF);
    var text := Unlines(ls, LF);
    var o1, o2 := Offset(ls, r1, c1), Offset(ls, r2, c2);
    assert text[..o2] == Unlines(a2, LF) == Unlines(a1, LF) + Unlines(m, LF);
    assert text[o1..o2] == text[..o2][o1..];
    LinesRoundTrip(m, LF);
  }

  lemma GlueMiddle(ls: seq<string>, r1: nat, c1: nat, r2: nat, c2: nat)
    requires IsDocument(ls) && IsPosition(ls, r1, c1) && IsPosition(ls, r2, c2) && NotAfter(r1, c1, r2, c2)
    ensures var m := Between(ls, r1, c1, r2, c2); IsDocument(m) && Glue(Before(ls, r1, c1), m) == Before(ls, r2, c2)
  {
    var m := Between(ls, r1, c1, r2, c2);
    var g := Glue(Before(ls, r1, c1), m);
    assert IsLine(ls[r1]) && IsLine(ls[r2]);
    if r1 == r2 {
      assert ls[r1][..c1] + ls[r1][c1..c2] == ls[r1][..c2];
    } else {
      assert ls[r1][..c1] + ls[r1][c1..] == ls[r1];
      assert g == ls[..r1] + [ls[r1]] + ls[r1 + 1..r2] + [ls[r2][..c2]];
      assert ls[..r2] == ls[..r1] + [ls[r1]] + ls[r1 + 1..r2];
    }
  }
}
