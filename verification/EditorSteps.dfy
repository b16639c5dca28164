/** Each update of the line array, proved to be one step of the flat editor. */
module EditorSteps {
  import opened Text
  import opened FlatText

  /** From halves (a, b) to halves (a', b'). */
  lemma Moved(ls: seq<string>, row: nat, col: nat, ls': seq<string>, a': seq<string>, b': seq<string>)
    requires IsDocument(ls) && IsPosition(ls, row, col) && IsDocument(a') && IsDocument(b') && ls' == Glue(a', b')
    ensures IsDocument(ls') && IsPosition(ls', |a'| - 1, |Last(a')|)
    ensures View(ls', |a'| - 1, |Last(a')|) == Flat(Unlines(a', LF) + Unlines(b', LF), |Unlines(a', LF)|)
    ensures var f := View(ls, row, col); var a, b := Before(ls, row, col), After(ls, row, col);
            f.text[..f.pos] == Unlines(a, LF) && f.text[f.pos..] == Unlines(b, LF) && IsDocument(a) && IsDocument(b)
  {
    Halves(ls, row, col);
    Glued(a', b');
  }

  lemma InsertInLine(ls: seq<string>, row: nat, col: nat, s: string)
    requires IsDocument(ls) && IsPosition(ls, row, col) && IsLine(s)
    ensures var ls' := ls[row := ls[row][..col] + s + ls[row][col..]];
            && IsDocument(ls') && IsPosition(ls', row, col + |s|)
            && View(ls', row, col + |s|) == FlatInsert(View(ls, row, col), s)
  {
    var a, b := Before(ls, row, col), After(ls, row, col);
    var ls' := ls[row := ls[row][..col] + s + ls[row][col..]];
    var a' := a[row := a[row] + s];
    UnlinesLast(a, s, LF);
    Cut(ls, row, col);
    assert IsLine(a[row]);
    GlueAt(a', b, ls', row);
    Moved(ls, row, col, ls', a', b);
    StripCrNothing(s);
  }

  /** A way to see that an array is a glued one. */
  lemma GlueAt(a: seq<string>, b: seq<string>, ls: seq<string>, row: nat)
    requires |a| == row + 1 && b != [] && row < |ls|
    requires ls[..row] == a[..row] && ls[row] == a[row] + b[0] && ls[row + 1..] == b[1..]
    ensures ls == Glue(a, b)
  {
    assert ls == ls[..row] + [ls[row]] + ls[row + 1..];
  }

  lemma SplitAt(ls: seq<string>, row: nat, col: nat)
    requires IsDocument(ls) && IsPosition(ls, row, col)
    ensures var cut := ls[row := ls[row][..col]];
            var ls' := cut[..row + 1] + [ls[row][col..]] + cut[row + 1..];
            && IsDocument(ls') && IsPosition(ls', row + 1, 0)
            && View(ls', row + 1, 0) == FlatInsert(View(ls, row, col), LF)
  {
    var a, b := Before(ls, row, col), After(ls, row, col);
    var cut := ls[row := ls[row][..col]];
    var ls' := cut[..row + 1] + [ls[row][col..]] + cut[row + 1..];
    Cut(ls, row, col);
    AddCharText(a, '\n');
    assert ls'[..row + 1] == a;
    assert ls'[row + 2..] == ls[row + 1..];
    GlueAt(a + [""], b, ls', row + 1);
    Moved(ls, row, col, ls', a + [""], b);
  }

  /** One character off the end of the front half, or off the start of the back half. */
  lemma Backspaced(f: Flat, x: string, c: string, y: string)
    requires InRange(f) && f.text[..f.pos] == x + c && |c| == 1 && f.text[f.pos..] == y
    ensures FlatBackspace(f) == Flat(x + y, |x|)
  {
    assert f.text[..f.pos - 1] == f.text[..f.pos][..f.pos - 1] == x;
  }

  lemma Deleted(f: Flat, x: string, c: string, y: string)
    requires InRange(f) && f.text[..f.pos] == x && |c| == 1 && f.text[f.pos..] == c + y
    ensures FlatDelete(f) == Flat(x + y, |x|)
  {
    assert f.text[f.pos + 1..] == f.text[f.pos..][1..] == y;
  }

  lemma EraseBefore(ls: seq<string>, row: nat, col: nat)
    requires IsDocument(ls) && IsPosition(ls, row, col) && col > 0
    ensures var ls' := ls[row := ls[row][..col - 1] + ls[row][col..]];
            && IsDocument(ls') && IsPosition(ls', row, col - 1)
            && View(ls', row, col - 1) == FlatBackspace(View(ls, row, col))
  {
    var a, b := Before(ls, row, col), After(ls, row, col);
    var ls' := ls[row := ls[row][..col - 1] + ls[row][col..]];
    Cut(ls, row, col);
    DropLastText(a);
    var d := a[row := ls[row][..col - 1]];
    assert ls[row][..col][..col - 1] == ls[row][..col - 1];
    assert d == DropLast(a).0;
    GlueAt(d, b, ls', row);
    Moved(ls, row, col, ls', d, b);
    hide Unlines, DropLast, Glue, Before, After, View, FlatBackspace;
    Backspaced(View(ls, row, col), Unlines(d, LF), [ls[row][col - 1]], Unlines(b, LF));
  }

  lemma JoinAbove(ls: seq<string>, row: nat)
    requires IsDocument(ls) && 0 < row < |ls|
    ensures var up := ls[row - 1 := ls[row - 1] + ls[row]];
            var ls' := up[..row] + up[row + 1..];
            && IsDocument(ls') && IsPosition(ls', row - 1, |ls[row - 1]|)
            && View(ls', row - 1, |ls[row - 1]|) == FlatBackspace(View(ls, row, 0))
  {
    var a, b := Before(ls, row, 0), After(ls, row, 0);
    var up := ls[row - 1 := ls[row - 1] + ls[row]];
    var ls' := up[..row] + up[row + 1..];
    Cut(ls, row, 0);
    assert a == ls[..row] + [""];
    UnlinesSnoc(ls[..row], "", LF);
    assert ls'[..row - 1] == ls[..row - 1] == ls[..row][..row - 1];
    assert ls'[row..] == ls[row + 1..];
    GlueAt(ls[..row], b, ls', row - 1);
    Moved(ls, row, 0, ls', ls[..row], b);
    assert Unlines(a, LF) == Unlines(ls[..row], LF) + LF + "" == Unlines(ls[..row], LF) + LF;
    hide Unlines, Glue, Before, After, View, FlatBackspace;
    Backspaced(View(ls, row, 0), Unlines(ls[..row], LF), LF, Unlines(b, LF));
  }

  lemma EraseAfter(ls: seq<string>, row: nat, col: nat)
    requires IsDocument(ls) && IsPosition(ls, row, col) && col < |ls[row]|
    ensures var ls' := ls[row := ls[row][..col] + ls[row][col + 1..]];
            && IsDocument(ls') && IsPosition(ls', row, col)
            && View(ls', row, col) == FlatDelete(View(ls, row, col))
  {
    var a, b := Before(ls, row, col), After(ls, row, col);
    var ls' := ls[row := ls[row][..col] + ls[row][col + 1..]];
    var d := DropFirst(b).1;
    Cut(ls, row, col);
    DropFirstText(b);
    assert ls[row][col..][1..] == ls[row][col + 1..];
    GlueAt(a, d, ls', row);
    Moved(ls, row, col, ls', a, d);
    hide Unlines, DropFirst, Glue, Before, After, View, FlatDelete;
    Deleted(View(ls, row, col), Unlines(a, LF), [ls[row][col]], Unlines(d, LF));
  }

  lemma JoinBelow(ls: seq<string>, row: nat)
    requires IsDocument(ls) && row + 1 < |ls|
    ensures var down := ls[row := ls[row] + ls[row + 1]];
            var ls' := down[..row + 1] + down[row + 2..];
            && IsDocument(ls') && IsPosition(ls', row, |ls[row]|)
            && View(ls', row, |ls[row]|) == FlatDelete(View(ls, row, |ls[row]|))
  {
    var col := |ls[row]|;
    var a, b := Before(ls, row, col), After(ls, row, col);
    var down := ls[row := ls[row] + ls[row + 1]];
    var ls' := down[..row + 1] + down[row + 2..];
    Cut(ls, row, col);
    DropFirstText(b);
    assert DropFirst(b).1 == ls[row + 1..];
    assert ls'[row + 1..] == ls[row + 2..] == ls[row + 1..][1..];
    assert ls'[..row] == ls[..row];
    GlueAt(a, ls[row + 1..], ls', row);
    Moved(ls, row, col, ls', a, ls[row + 1..]);
    assert DropFirst(b).0 == LF;
    hide Unlines, DropFirst, Glue, Before, After, View, FlatDelete;
    Deleted(View(ls, row, col), Unlines(a, LF), LF, Unlines(ls[row + 1..], LF));
  }

  /** The flat offset is 0 at the first position only and the end at the last only. */
  lemma Edges(ls: seq<string>, row: nat, col: nat)
    requires IsDocument(ls) && IsPosition(ls, row, col)
    ensures View(ls, row, col).pos == 0 <==> row == 0 && col == 0
    ensures View(ls, row, col).pos == |View(ls, row, col).text| <==> row + 1 == |ls| && col == |ls[row]|
  {
    Halves(ls, row, col);
    DropLastText(Before(ls, row, col));
    DropFirstText(After(ls, row, col));
  }

  lemma FlatEdges(ls: seq<string>, row: nat, col: nat)
    requires IsDocument(ls) && IsPosition(ls, row, col)
    ensures row == 0 && col == 0 ==> FlatBackspace(View(ls, row, col)) == View(ls, row, col)
    ensures row + 1 == |ls| && col == |ls[row]| ==> FlatDelete(View(ls, row, col)) == View(ls, row, col)
  {
    Edges(ls, row, col);
  }

  lemma RowOffsets(ls: seq<string>, row: nat, col: nat)
    requires IsDocument(ls) && IsPosition(ls, row, col)
    ensures Offset(ls, row, col) == Offset(ls, row, 0) + col
  {
    var a := Before(ls, row, 0);
    UnlinesLast(a, ls[row][..col], LF);
    assert a[row] + ls[row][..col] == ls[row][..col];
    assert a[row := ls[row][..col]] == Before(ls, row, col);
  }

  lemma NextRow(ls: seq<string>, row: nat)
    requires IsDocument(ls) && row + 1 < |ls|
    ensures Offset(ls, row + 1, 0) == Offset(ls, row, |ls[row]|) + 1
  {
    var a := Before(ls, row, |ls[row]|);
    assert ls[..row + 1] == ls[..row] + [ls[row]];
    assert ls[row][..|ls[row]|] == ls[row] && ls[row + 1][..0] == "";
    assert Before(ls, row + 1, 0) == a + [""];
    UnlinesSnoc(a, "", LF);
  }

  /** Where the ends of the cursor's line are, in the flat text. */
  lemma Columns(ls: seq<string>, row: nat, col: nat)
    requires IsDocument(ls) && IsPosition(ls, row, col)
    ensures var f := View(ls, row, col);
            && LineStart(f.text, f.pos) == Offset(ls, row, 0) == f.pos - col
            && LineEnd(f.text, f.pos) == Offset(ls, row, |ls[row]|) == f.pos - col + |ls[row]|
  {
    var a, b := Before(ls, row, col), After(ls, row, col);
    Halves(ls, row, col);
    StartOfLast(a, Unlines(b, LF));
    EndOfFirst(Unlines(a, LF), b);
    RowOffsets(ls, row, col);
    RowOffsets(ls, row, |ls[row]|);
  }

  lemma MoveUp(ls: seq<string>, row: nat, col: nat)
    requires IsDocument(ls) && IsPosition(ls, row, col)
    ensures FlatUp(View(ls, row, col)) ==
      (if row == 0 then View(ls, row, col) else View(ls, row - 1, Min(col, |ls[row - 1]|)))
  {
    Columns(ls, row, col);
    Edges(ls, row, 0);
    if row > 0 {
      var n := |ls[row - 1]|;
      NextRow(ls, row - 1);
      Columns(ls, row - 1, n);
      RowOffsets(ls, row - 1, Min(col, n));
    }
    hide Unlines, LineStart, LineEnd, Offset, IsDocument;
  }

  lemma MoveDown(ls: seq<string>, row: nat, col: nat)
    requires IsDocument(ls) && IsPosition(ls, row, col)
    ensures FlatDown(View(ls, row, col)) ==
      (if row + 1 == |ls| then View(ls, row, col) else View(ls, row + 1, Min(col, |ls[row + 1]|)))
  {
    Columns(ls, row, col);
    Edges(ls, row, |ls[row]|);
    if row + 1 < |ls| {
      NextRow(ls, row);
      Columns(ls, row + 1, 0);
      RowOffsets(ls, row + 1, Min(col, |ls[row + 1]|));
    }
    hide Unlines, LineStart, LineEnd, Offset;
  }

  /** The line above starts after the LF before this one's first character. */
  lemma StartAbove(ls: seq<string>, row: nat)
    requires IsDocument(ls) && row < |ls|
    ensures Offset(ls, row, 0) <= |Unlines(ls, LF)| && (Offset(ls, row, 0) == 0 <==> row == 0)
    ensures row > 0 ==> LineStart(Unlines(ls, LF), Offset(ls, row, 0) - 1) == Offset(ls, row - 1, 0)
  {
    assert View(ls, row, 0).pos <= |View(ls, row, 0).text|;
    Edges(ls, row, 0);
    if row > 0 {
      NextRow(ls, row - 1);
      Columns(ls, row - 1, |ls[row - 1]|);
    }
    hide Unlines, LineStart, LineEnd, Offset;
  }

  lemma StartBelow(ls: seq<string>, row: nat)
    requires IsDocument(ls) && row < |ls|
    ensures Offset(ls, row, 0) <= |Unlines(ls, LF)|
    ensures var end := LineEnd(Unlines(ls, LF), Offset(ls, row, 0));
            if row + 1 == |ls| then end == |Unlines(ls, LF)|
            else end < |Unlines(ls, LF)| && end + 1 == Offset(ls, row + 1, 0)
  {
    assert View(ls, row, 0).pos <= |View(ls, row, 0).text|;
    Columns(ls, row, 0);
    Edges(ls, row, |ls[row]|);
    if row + 1 < |ls| { NextRow(ls, row); }
    hide Unlines, LineStart, Before, After;
  }

  lemma {:induction false} RowsUp(ls: seq<string>, row: nat, n: nat)
    requires IsDocument(ls) && row < |ls|
    ensures Offset(ls, row, 0) <= |Unlines(ls, LF)|
    ensures LineAbove(Unlines(ls, LF), Offset(ls, row, 0), n) == Offset(ls, Max(0, row - n), 0)
    decreases n
  {
    StartAbove(ls, row);
    hide Unlines, LineStart, Offset, IsDocument;
    if n == 0 || row == 0 {
    } else {
      RowsUp(ls, row - 1, n - 1);
    }
  }

  lemma {:induction false} RowsDown(ls: seq<string>, row: nat, n: nat)
    requires IsDocument(ls) && row < |ls|
    ensures Offset(ls, row, 0) <= |Unlines(ls, LF)|
    ensures LineBelow(Unlines(ls, LF), Offset(ls, row, 0), n) == Offset(ls, Min(|ls| - 1, row + n), 0)
    decreases n
  {
    StartBelow(ls, row);
    hide Unlines, LineEnd, Offset, IsDocument;
    if n == 0 || row + 1 == |ls| {
    } else {
      RowsDown(ls, row + 1, n - 1);
    }
  }

  /** Going to another row, the column clipped, is going to that line's column. */
  lemma ToRow(ls: seq<string>, row: nat, col: nat, target: nat)
    requires IsDocument(ls) && IsPosition(ls, row, col) && target < |ls|
    ensures Offset(ls, target, 0) <= |Unlines(ls, LF)|
    ensures AtColumnOf(View(ls, row, col), Offset(ls, target, 0)) == View(ls, target, Min(col, |ls[target]|))
  {
    assert View(ls, target, 0).pos <= |View(ls, target, 0).text|;
    Columns(ls, row, col);
    Columns(ls, target, 0);
    RowOffsets(ls, target, Min(col, |ls[target]|));
  }

  lemma MovePageUp(ls: seq<string>, row: nat, col: nat, up: nat)
    requires IsDocument(ls) && IsPosition(ls, row, col) && up == Max(0, row - PAGE)
    ensures FlatPageUp(View(ls, row, col)) == View(ls, up, Min(col, |ls[up]|))
  {
    Columns(ls, row, col);
    RowsUp(ls, row, PAGE);
    ToRow(ls, row, col, up);
    hide Unlines, Offset, LineAbove, LineStart, LineEnd, AtColumnOf, IsDocument;
  }

  lemma MovePageDown(ls: seq<string>, row: nat, col: nat, down: nat)
    requires IsDocument(ls) && IsPosition(ls, row, col) && down == Min(|ls| - 1, row + PAGE)
    ensures FlatPageDown(View(ls, row, col)) == View(ls, down, Min(col, |ls[down]|))
  {
    Columns(ls, row, col);
    RowsDown(ls, row, PAGE);
    ToRow(ls, row, col, down);
    hide Unlines, Offset, LineBelow, LineStart, LineEnd, AtColumnOf, IsDocument;
  }

  lemma MoveLeft(ls: seq<string>, row: nat, col: nat)
    requires IsDocument(ls) && IsPosition(ls, row, col)
    ensures FlatLeft(View(ls, row, col)) ==
      (if col > 0 then View(ls, row, col - 1)
       else if row > 0 then View(ls, row - 1, |ls[row - 1]|)
       else View(ls, row, col))
  {
    Edges(ls, row, col);
    if col > 0 {
      RowOffsets(ls, row, col);
      RowOffsets(ls, row, col - 1);
    } else if row > 0 {
      NextRow(ls, row - 1);
    }
  }

  lemma MoveRight(ls: seq<string>, row: nat, col: nat)
    requires IsDocument(ls) && IsPosition(ls, row, col)
    ensures FlatRight(View(ls, row, col)) ==
      (if col < |ls[row]| then View(ls, row, col + 1)
       else if row + 1 < |ls| then View(ls, row + 1, 0)
       else View(ls, row, col))
  {
    Edges(ls, row, col);
    if col < |ls[row]| {
      RowOffsets(ls, row, col);
      RowOffsets(ls, row, col + 1);
    } else if row + 1 < |ls| {
      NextRow(ls, row);
    }
  }

  // -------------------------------------------------- reading a text into lines

  /** `done` are the lines read, `rest` is what is left of `clean`. */
  ghost predicate SplitSoFar(done: seq<string>, rest: string, clean: string) {
    && AreLines(done) && '\r' !in rest
    && LinesOf(clean) == done + LinesOf(rest)
  }

  lemma FindMiss(s: string, start: nat)
    requires start <= |s| && FindFrom(s, LF, start) == None
    ensures '\n' !in s[start..]
  {
    FindFromFirst(s, LF, start);
    hide FindFrom;
    forall i | start <= i < |s| ensures s[i] != '\n' {
      assert !OccursAt(s, LF, i);
      assert s[i..i + 1] == [s[i]];
    }
  }

  lemma FindHit(s: string, start: nat)
    requires start <= |s| && FindFrom(s, LF, start).Some?
    ensures var e := FindFrom(s, LF, start).value;
            start <= e < |s| && s[e] == '\n' && '\n' !in s[start..e]
  {
    var e := FindFrom(s, LF, start).value;
    FindFromFirst(s, LF, start);
    hide FindFrom;
    assert s[e..e + 1][0] == '\n';
    forall i | start <= i < e ensures s[i] != '\n' {
      assert !OccursAt(s, LF, i);
      assert s[i..i + 1] == [s[i]];
    }
  }

  lemma LastPiece(done: seq<string>, rest: string, clean: string)
    requires SplitSoFar(done, rest, clean) && '\n' !in rest
    ensures LinesOf(clean) == done + [rest]
  {
    LinesOfLine([""], "", rest);
    assert "" + rest == rest;
  }

  lemma NextPiece(done: seq<string>, rest: string, n: nat, clean: string)
    requires SplitSoFar(done, rest, clean) && n < |rest| && rest[n] == '\n' && '\n' !in rest[..n]
    ensures SplitSoFar(done + [rest[..n]], rest[n + 1..], clean)
  {
    assert IsLine(rest[..n]);
    FirstLineOf(rest[..n], rest[n + 1..]);
    assert rest == rest[..n] + LF + rest[n + 1..];
  }

  /** The same, with the rest as a suffix of the whole. */
  lemma NextPieceAt(done: seq<string>, clean: string, start: nat, end: nat)
    requires start <= end < |clean| && SplitSoFar(done, clean[start..], clean)
    requires clean[end] == '\n' && '\n' !in clean[start..end]
    ensures SplitSoFar(done + [clean[start..end]], clean[end + 1..], clean)
  {
    var rest, n := clean[start..], end - start;
    assert rest[..n] == clean[start..end] && rest[n + 1..] == clean[end + 1..];
    hide SplitSoFar;
    NextPiece(done, rest, n, clean);
  }

  lemma SplitStart(clean: string)
    requires '\r' !in clean
    ensures SplitSoFar([], clean[0..], clean) && LinesOf("") == [""]
  {
    assert clean[0..] == clean;
  }

  lemma AddCharCons(l: string, ls: seq<string>, c: char)
    requires IsLine(l) && IsDocument(ls)
    ensures IsDocument([l] + ls) && AddChar([l] + ls, c) == [l] + AddChar(ls, c)
  {
  }

  lemma {:induction false} FirstLineOf(l: string, rest: string)
    requires IsLine(l)
    ensures LinesOf(l + LF + rest) == [l] + LinesOf(rest)
  {
    if rest == "" {
      LinesOfLine([""], "", l);
      assert "" + l == l;
      LinesOfSnoc(l, '\n');
      assert l + LF + "" == l + LF;
    } else {
      var front, c := rest[..|rest| - 1], rest[|rest| - 1];
      hide LinesOf, AddChar, IsLine, IsDocument;
      FirstLineOf(l, front);
      assert front + [c] == rest;
      assert l + LF + rest == (l + LF + front) + [c];
      LinesOfSnoc(l + LF + front, c);
      LinesOfSnoc(front, c);
      AddCharCons(l, LinesOf(front), c);
    }
  }

  lemma {:induction false} CleanLines(s: string)
    ensures '\r' !in StripCr(s) && LinesOf(StripCr(s)) == LinesOf(s)
  {
    if s == "" {
    } else {
      CleanLines(s[..|s| - 1]);
      CleanLast(s);
    }
  }

  lemma CleanLast(s: string)
    requires s != "" && var t := s[..|s| - 1]; LinesOf(StripCr(t)) == LinesOf(t)
    ensures LinesOf(StripCr(s)) == LinesOf(s)
  {
    var t, c := s[..|s| - 1], s[|s| - 1];
    if c == '\r' {
      assert StripCr(s) == StripCr(t) + "" == StripCr(t);
    } else {
      assert StripCr(s) == StripCr(t) + [c];
      LinesOfSnoc(StripCr(t), c);
    }
  }

  lemma InsertMore(f: Flat, s: string, c: char)
    requires InRange(f)
    ensures FlatInsert(FlatInsert(f, s), [c]) == FlatInsert(f, s + [c])
  {
    StripCrSnoc(s, c);
    var g := FlatInsert(f, s);
    assert g.text[..g.pos] == f.text[..f.pos] + StripCr(s);
    assert g.text[g.pos..] == f.text[f.pos..];
  }
}
