/** The editable text box (src/tui/TextEditor.cpp): an array of lines, a cursor, a
    scroll position and a mouse selection, updated in place by events. */
module TextEditors {
  import opened Text
  import opened FlatText
  import opened EditorSteps

  datatype Key =
    | ArrowUp | ArrowDown | ArrowLeft | ArrowRight | Home | End | PageUp | PageDown
    | Return | Backspace | Delete | Tab | Character(s: string)

  /** What each key does to a one-dimensional editor. */
  function KeyEffect(key: Key, f: Flat): Flat
    requires InRange(f)
  {
    match key
    case ArrowUp => FlatUp(f)
    case ArrowDown => FlatDown(f)
    case ArrowLeft => FlatLeft(f)
    case ArrowRight => FlatRight(f)
    case Home => FlatHome(f)
    case End => FlatEnd(f)
    case PageUp => FlatPageUp(f)
    case PageDown => FlatPageDown(f)
    case Return => FlatInsert(f, LF)
    case Backspace => FlatBackspace(f)
    case Delete => FlatDelete(f)
    case Tab => FlatInsert(f, "    ")
    case Character(s) => FlatInsert(f, s)
  }

  predicate EditsText(key: Key) {
    key.Return? || key.Backspace? || key.Delete? || key.Tab? || key.Character?
  }

  /** What the keys mean for text and offset. */
  lemma ErasingKeys(f: Flat)
    requires InRange(f)
    ensures var g := KeyEffect(Backspace, f);
            if f.pos == 0 then g == f else g.text == f.text[..f.pos - 1] + f.text[f.pos..] && g.pos == f.pos - 1
    ensures var g := KeyEffect(Delete, f);
            if f.pos == |f.text| then g == f else g.text == f.text[..f.pos] + f.text[f.pos + 1..] && g.pos == f.pos
  {
  }

  lemma InsertingKeys(f: Flat, s: string)
    requires InRange(f)
    ensures var g := KeyEffect(Return, f); g.text == f.text[..f.pos] + "\n" + f.text[f.pos..] && g.pos == f.pos + 1
    ensures var g := KeyEffect(Tab, f); g.text == f.text[..f.pos] + "    " + f.text[f.pos..] && g.pos == f.pos + 4
    ensures var g, t := KeyEffect(Character(s), f), StripCr(s);
            g.text == f.text[..f.pos] + t + f.text[f.pos..] && g.pos == f.pos + |t|
  {
    StripCrNothing("\n");
    StripCrNothing("    ");
    hide StripCr;
  }

  lemma ArrowKeys(f: Flat)
    requires InRange(f)
    ensures KeyEffect(ArrowLeft, f).pos == if f.pos == 0 then 0 else f.pos - 1
    ensures KeyEffect(ArrowRight, f).pos == if f.pos == |f.text| then f.pos else f.pos + 1
  {
  }

  datatype Button = LeftButton | RightButton | WheelUp | WheelDown | OtherButton
  datatype Motion = Pressed | Released | Moving

  /** A mouse event; relY and relX are the pointer relative to the text. */
  datatype Mouse = Mouse(inside: bool, button: Button, motion: Motion, relY: int, relX: int)

  predicate Presses(e: Mouse) {
    e.inside && e.button == LeftButton && e.motion == Pressed
  }

  /** Presses and drags move the cursor and the end of the selection. */
  predicate Moves(selecting: bool, e: Mouse) {
    Presses(e) || (selecting && e.inside && e.button == LeftButton)
  }

  predicate Copies(e: Mouse) {
    e.inside && e.button == RightButton && e.motion == Pressed
  }

  /** Outside the box only the release that ends a selection is taken. */
  predicate Handles(selecting: bool, e: Mouse) {
    if !e.inside then selecting && e.motion == Released
    else match e.button
         case WheelUp => true
         case WheelDown => true
         case LeftButton => e.motion != Moving || selecting
         case RightButton => e.motion == Pressed
         case OtherButton => false
  }

  predicate SelectingAfter(selecting: bool, e: Mouse) {
    Presses(e) || (selecting && (e.inside || e.motion != Released))
  }

  /** A press is a left button going down inside the box; what else is taken, moved or
      copied, said button by button. */
  lemma MouseMeans(selecting: bool, e: Mouse)
    ensures Presses(e) <==> e.inside && e.button == LeftButton && e.motion == Pressed
    ensures Moves(selecting, e) <==> e.inside && e.button == LeftButton && (selecting || e.motion == Pressed)
    ensures Copies(e) <==> e.inside && e.button == RightButton && e.motion == Pressed
    ensures !e.inside ==> (Handles(selecting, e) <==> selecting && e.motion == Released)
    ensures e.inside && e.button == LeftButton ==> (Handles(selecting, e) <==> selecting || e.motion != Moving)
    ensures e.inside && e.button == RightButton ==> (Handles(selecting, e) <==> e.motion == Pressed)
    ensures e.inside && (e.button == WheelUp || e.button == WheelDown) ==> Handles(selecting, e)
    ensures e.inside && e.button == OtherButton ==> !Handles(selecting, e)
  {
  }

  predicate SelectingAfterAll(selecting: bool, es: seq<Mouse>) {
    if es == [] then selecting else SelectingAfter(SelectingAfterAll(selecting, es[..|es| - 1]), es[|es| - 1])
  }

  /** A release ends a selection in progress if and only if the pointer is outside the box. */
  lemma ReleaseEndsOutside(e: Mouse)
    requires e.motion == Released
    ensures !SelectingAfter(true, e) <==> !e.inside
  {
  }

  /** So after any mouse events a selection is in progress if and only if there was a
      press in the box with no release outside it since. */
  lemma {:induction false} SelectingIs(es: seq<Mouse>)
    ensures SelectingAfterAll(false, es) <==>
            exists i | 0 <= i < |es| ::
              && es[i].inside && es[i].button == LeftButton && es[i].motion == Pressed
              && forall j | i < j < |es| :: es[j].inside || es[j].motion != Released
  {
    if es == [] {
    } else {
      var front, e := es[..|es| - 1], es[|es| - 1];
      SelectingIs(front);
      if Presses(e) {
        assert es[|es| - 1] == e;
      } else if SelectingAfterAll(false, es) {
        var i :| 0 <= i < |front| && Presses(front[i])
                 && forall j | i < j < |front| :: front[j].inside || front[j].motion != Released;
        assert Presses(es[i]);
        assert forall j | i < j < |front| :: es[j] == front[j];
      } else {
        forall i | 0 <= i < |es| && Presses(es[i])
          ensures exists j :: i < j < |es| && !(es[j].inside || es[j].motion != Released)
        {
          if !SelectingAfterAll(false, front) {
            assert front[i] == es[i];
            var j :| i < j < |front| && !(front[j].inside || front[j].motion != Released);
            assert es[j] == front[j];
          }
        }
      }
    }
  }

  predicate IsWordChar(c: char) {
    'a' <= c <= 'z' || 'A' <= c <= 'Z' || '0' <= c <= '9' || c in "_-./:=&?"
  }

  /** Letters, digits and _ - . / : = & ? by their codes. */
  lemma WordChars(c: char)
    ensures var n := c as int;
            IsWordChar(c) <==>
              || 97 <= n <= 122 || 65 <= n <= 90 || 48 <= n <= 57
              || n in {95, 45, 46, 47, 58, 61, 38, 63}
  {
  }

  function WordStart(line: string, col: nat): (r: nat)
    requires col <= |line|
    ensures r <= col && (r > 0 ==> !IsWordChar(line[r - 1])) && forall i | r <= i < col :: IsWordChar(line[i])
  {
    if col > 0 && IsWordChar(line[col - 1]) then WordStart(line, col - 1) else col
  }

  function WordEnd(line: string, col: nat): (r: nat)
    requires col <= |line|
    ensures col <= r <= |line| && (r < |line| ==> !IsWordChar(line[r]))
    ensures forall i | col <= i < r :: IsWordChar(line[i])
    decreases |line| - col
  {
    if col < |line| && IsWordChar(line[col]) then WordEnd(line, col + 1) else col
  }

  /** Press and release inside the box: the selection is still in progress, it is shown
      though empty, and nothing is copied. */
  method Click(editor: TextEditor, relY: int, relX: int)
    requires editor.Valid()
    modifies editor
    ensures editor.Valid() && editor.selecting && editor.hasSelection && editor.SelectionText() == ""
  {
    var _, _ := editor.OnMouse(Mouse(true, LeftButton, Pressed, relY, relX));
    var _, copied := editor.OnMouse(Mouse(true, LeftButton, Released, relY, relX));
    assert copied == "";
  }

  class TextEditor {
    var lines: seq<string>
    var cursorRow: int
    var cursorCol: int
    var scrollY: int
    var boxRows: int  // the height of the box on the screen, set by rendering
    var selecting: bool
    var hasSelection: bool
    var selStartRow: int
    var selStartCol: int
    var selEndRow: int
    var selEndCol: int

    /** There is a line, no line holds CR or LF, and the cursor is a position in them. */
    ghost predicate TextValid()
      reads this
    {
      IsDocument(lines) && IsPosition(lines, cursorRow, cursorCol) && 0 <= scrollY
    }

    /** Between events the ends of a shown selection are positions too. */
    ghost predicate Valid()
      reads this
    {
      && TextValid()
      && (hasSelection ==> IsPosition(lines, selStartRow, selStartCol) && IsPosition(lines, selEndRow, selEndCol))
    }

    ghost function Shown(): Flat
      reads this
      requires TextValid()
    {
      View(lines, cursorRow, cursorCol)
    }

    constructor ()
      ensures Valid() && Shown() == Flat("", 0) && !hasSelection && !selecting
    {
      lines := [""];
      cursorRow, cursorCol, scrollY, boxRows := 0, 0, 0, 0;
      selecting, hasSelection := false, false;
      selStartRow, selStartCol, selEndRow, selEndCol := -1, -1, -1, -1;
    }

    method SetText(text: string)
      modifies this
      ensures Valid() && lines == LinesOf(text) && Shown() == Flat(Unlines(LinesOf(text), LF), 0)
      ensures !hasSelection && !selecting && scrollY == 0
    {
      lines := [];
      var clean := "";
      for i := 0 to |text|
        invariant clean == StripCr(text[..i]) && lines == []
      {
        assert text[..i + 1][..i] == text[..i];
        if text[i] != '\r' { clean := clean + [text[i]]; }
      }
      assert text[..|text|] == text;
      CleanLines(text);
      SplitLines(clean);
      cursorRow, cursorCol, scrollY := 0, 0, 0;
      hasSelection, selecting := false, false;
      assert Before(lines, 0, 0) == [""];
    }

    method SplitLines(clean: string)
      requires '\r' !in clean && lines == []
      modifies this`lines
      ensures lines == LinesOf(clean)
    {
      var start := 0;
      SplitStart(clean);
      hide SplitSoFar, FindFrom, LinesOf;
      while start < |clean|
        invariant start <= |clean|
        invariant start < |clean| || clean == "" ==> SplitSoFar(lines, clean[start..], clean)
        invariant start == |clean| && clean != "" ==> lines == LinesOf(clean)
        invariant clean == "" ==> lines == []
      {
        var end := FindFrom(clean, LF, start);
        if end == None {
          FindMiss(clean, start);
          LastPiece(lines, clean[start..], clean);
          lines := lines + [clean[start..]];
          break;
        } else {
          FindHit(clean, start);
          NextPieceAt(lines, clean, start, end.value);
          lines := lines + [clean[start..end.value]];
          start := end.value + 1;
          if start == |clean| {
            LastPiece(lines, "", clean);
            lines := lines + [""];
            break;
          }
        }
      }
      if lines == [] { lines := lines + [""]; }
    }

    /** The CRLF form of the lines. */
    method GetText() returns (r: string)
      requires Valid()
      ensures r == Unlines(lines, CRLF)
    {
      r := "";
      for i := 0 to |lines|
        invariant r == if i == 0 then "" else Unlines(lines[..i], CRLF) + (if i < |lines| then CRLF else "")
      {
        if i > 0 {
          assert lines[..i + 1] == lines[..i] + [lines[i]];
          UnlinesSnoc(lines[..i], lines[i], CRLF);
        }
        r := r + lines[i];
        if i + 1 < |lines| { r := r + CRLF; }
      }
      assert lines[..|lines|] == lines;
    }

    /** The flat text between the two ends, LF as CRLF. */
    ghost function SelectionText(): string
      reads this
      requires Valid() && hasSelection
    {
      var start, end := View(lines, selStartRow, selStartCol).pos, View(lines, selEndRow, selEndCol).pos;
      CrlfForm(Unlines(lines, LF)[Min(start, end)..Max(start, end)])
    }

    /** The text between the ends of the selection, whichever end comes first. */
    method GetSelectedText() returns (r: string)
      requires Valid()
      ensures r == if hasSelection then SelectionText() else ""
    {
      if !hasSelection || lines == [] { return ""; }
      var r1, c1, r2, c2 := selStartRow, selStartCol, selEndRow, selEndCol;
      if r1 > r2 || (r1 == r2 && c1 > c2) {
        r1, r2, c1, c2 := r2, r1, c2, c1;
      }
      r1 := Max(0, Min(|lines| - 1, r1));
      r2 := Max(0, Min(|lines| - 1, r2));
      r := CollectSelection(r1, c1, r2, c2);
      BetweenText(lines, r1, c1, r2, c2);
    }

    method CollectSelection(r1: int, c1: int, r2: int, c2: int) returns (out: string)
      requires Valid() && IsPosition(lines, r1, c1) && IsPosition(lines, r2, c2) && NotAfter(r1, c1, r2, c2)
      ensures out == Unlines(Between(lines, r1, c1, r2, c2), CRLF)
    {
      out := "";
      ghost var m := Between(lines, r1, c1, r2, c2);
      hide Between, Unlines, IsDocument;
      var r := r1;
      while r <= r2
        invariant r1 <= r <= r2 + 1
        invariant out == if r == r1 then "" else Unlines(m[..r - r1], CRLF) + (if r <= r2 then CRLF else "")
      {
        var line := lines[r];
        var start := if r == r1 then Max(0, Min(|line|, c1)) else 0;
        var end := if r == r2 then Max(0, Min(|line|, c2)) else |line|;
        BetweenAt(lines, r1, c1, r2, c2, r);
        UnlinesNext(m, r - r1, CRLF);
        if start < end { out := out + line[start..end]; }
        if r < r2 { out := out + CRLF; }
        r := r + 1;
      }
      assert m[..|m|] == m;
    }

    function VisibleHeight(): int
      reads this
    {
      Max(2, boxRows - 2)
    }

    method EnsureCursorVisible(visibleHeight: int)
      requires TextValid()
      modifies this`scrollY
      ensures TextValid()
      ensures visibleHeight <= 0 ==> scrollY == old(scrollY)
      ensures visibleHeight > 0 ==>
        scrollY <= cursorRow < scrollY + visibleHeight && scrollY <= Max(0, |lines| - visibleHeight)
    {
      if visibleHeight <= 0 { return; }
      if cursorRow < scrollY {
        scrollY := cursorRow;
      } else if cursorRow >= scrollY + visibleHeight {
        scrollY := cursorRow - visibleHeight + 1;
      }
      var maxScroll := Max(0, |lines| - visibleHeight);
      scrollY := Max(0, Min(maxScroll, scrollY));
    }

    /** A typed character or a pasted string. */
    method InsertString(str: string)
      requires TextValid()
      modifies this`lines, this`cursorRow, this`cursorCol
      ensures TextValid() && Shown() == FlatInsert(old(Shown()), str)
    {
      ghost var f := Shown();
      assert f.text == f.text[..f.pos] + StripCr(str[..0]) + f.text[f.pos..];
      for i := 0 to |str|
        invariant TextValid() && Shown() == FlatInsert(f, str[..i])
      {
        var c := str[i];
        assert str[..i + 1] == str[..i] + [c];
        InsertMore(f, str[..i], c);
        InsertChar(c);
      }
      assert str[..|str|] == str;
    }

    method InsertChar(c: char)
      requires TextValid()
      modifies this`lines, this`cursorRow, this`cursorCol
      ensures TextValid() && Shown() == FlatInsert(old(Shown()), [c])
    {
      assert [c][..0] == "";
      if c == '\r' {
        ghost var f := Shown();
        assert StripCr([c]) == "";
        assert f.text == f.text[..f.pos] + "" + f.text[f.pos..];
        return;
      }
      if c == '\n' {
        SplitAt(lines, cursorRow, cursorCol);
        var rem := lines[cursorRow][cursorCol..];
        lines := lines[cursorRow := lines[cursorRow][..cursorCol]];
        lines := lines[..cursorRow + 1] + [rem] + lines[cursorRow + 1..];
        cursorRow := cursorRow + 1;
        cursorCol := 0;
      } else {
        InsertInLine(lines, cursorRow, cursorCol, [c]);
        lines := lines[cursorRow := lines[cursorRow][..cursorCol] + [c] + lines[cursorRow][cursorCol..]];
        cursorCol := cursorCol + 1;
      }
    }

    method OnReturn()
      requires Valid()
      modifies this`lines, this`cursorRow, this`cursorCol, this`scrollY, this`hasSelection
      ensures Valid() && Shown() == FlatInsert(old(Shown()), LF) && !hasSelection
    {
      SplitAt(lines, cursorRow, cursorCol);
      var left, right := lines[cursorRow][..cursorCol], lines[cursorRow][cursorCol..];
      lines := lines[cursorRow := left];
      lines := lines[..cursorRow + 1] + [right] + lines[cursorRow + 1..];
      cursorRow := cursorRow + 1;
      cursorCol := 0;
      EnsureCursorVisible(VisibleHeight());
      hasSelection := false;
    }

    method OnBackspace()
      requires Valid()
      modifies this`lines, this`cursorRow, this`cursorCol, this`scrollY, this`hasSelection
      ensures Valid() && Shown() == FlatBackspace(old(Shown())) && !hasSelection
    {
      hide Unlines, FlatDelete, FlatBackspace;
      FlatEdges(lines, cursorRow, cursorCol);
      if cursorCol > 0 {
        EraseBefore(lines, cursorRow, cursorCol);
        lines := lines[cursorRow := lines[cursorRow][..cursorCol - 1] + lines[cursorRow][cursorCol..]];
        cursorCol := cursorCol - 1;
      } else if cursorRow > 0 {
        JoinAbove(lines, cursorRow);
        var prevLen := |lines[cursorRow - 1]|;
        lines := lines[cursorRow - 1 := lines[cursorRow - 1] + lines[cursorRow]];
        lines := lines[..cursorRow] + lines[cursorRow + 1..];
        cursorRow := cursorRow - 1;
        cursorCol := prevLen;
        EnsureCursorVisible(VisibleHeight());
      }
      hasSelection := false;
    }

    method OnDelete()
      requires Valid()
      modifies this`lines, this`scrollY, this`hasSelection
      ensures Valid() && Shown() == FlatDelete(old(Shown())) && !hasSelection
    {
      hide Unlines, FlatDelete, FlatBackspace;
      FlatEdges(lines, cursorRow, cursorCol);
      if cursorCol < |lines[cursorRow]| {
        EraseAfter(lines, cursorRow, cursorCol);
        lines := lines[cursorRow := lines[cursorRow][..cursorCol] + lines[cursorRow][cursorCol + 1..]];
      } else if cursorRow + 1 < |lines| {
        JoinBelow(lines, cursorRow);
        lines := lines[cursorRow := lines[cursorRow] + lines[cursorRow + 1]];
        lines := lines[..cursorRow + 1] + lines[cursorRow + 2..];
        EnsureCursorVisible(VisibleHeight());
      }
      hasSelection := false;
    }

    method OnTab()
      requires Valid()
      modifies this`lines, this`cursorCol, this`hasSelection
      ensures Valid() && Shown() == FlatInsert(old(Shown()), "    ") && !hasSelection
    {
      InsertInLine(lines, cursorRow, cursorCol, "    ");
      lines := lines[cursorRow := lines[cursorRow][..cursorCol] + "    " + lines[cursorRow][cursorCol..]];
      cursorCol := cursorCol + 4;
      hasSelection := false;
    }

    method OnCharacter(s: string)
      requires Valid()
      modifies this`lines, this`cursorRow, this`cursorCol, this`scrollY, this`hasSelection
      ensures Valid() && Shown() == FlatInsert(old(Shown()), s) && !hasSelection
    {
      InsertString(s);
      EnsureCursorVisible(VisibleHeight());
      hasSelection := false;
    }

    method OnLeft()
      requires Valid()
      modifies this`cursorRow, this`cursorCol, this`scrollY, this`hasSelection
      ensures Valid() && Shown() == FlatLeft(old(Shown())) && !hasSelection
    {
      MoveLeft(lines, cursorRow, cursorCol);
      if cursorCol > 0 {
        cursorCol := cursorCol - 1;
      } else if cursorRow > 0 {
        cursorRow := cursorRow - 1;
        cursorCol := |lines[cursorRow]|;
        EnsureCursorVisible(VisibleHeight());
      }
      hasSelection := false;
    }

    method OnRight()
      requires Valid()
      modifies this`cursorRow, this`cursorCol, this`scrollY, this`hasSelection
      ensures Valid() && Shown() == FlatRight(old(Shown())) && !hasSelection
    {
      MoveRight(lines, cursorRow, cursorCol);
      if cursorCol < |lines[cursorRow]| {
        cursorCol := cursorCol + 1;
      } else if cursorRow + 1 < |lines| {
        cursorRow := cursorRow + 1;
        cursorCol := 0;
        EnsureCursorVisible(VisibleHeight());
      }
      hasSelection := false;
    }

    method OnHome()
      requires Valid()
      modifies this`cursorCol, this`hasSelection
      ensures Valid() && Shown() == FlatHome(old(Shown())) && !hasSelection && cursorCol == 0
    {
      Columns(lines, cursorRow, cursorCol);
      Columns(lines, cursorRow, 0);
      cursorCol := 0;
      hasSelection := false;
    }

    method OnEnd()
      requires Valid()
      modifies this`cursorCol, this`hasSelection
      ensures Valid() && Shown() == FlatEnd(old(Shown())) && !hasSelection && cursorCol == |lines[cursorRow]|
    {
      Columns(lines, cursorRow, cursorCol);
      Columns(lines, cursorRow, |lines[cursorRow]|);
      cursorCol := |lines[cursorRow]|;
      hasSelection := false;
    }

    method OnUp()
      requires Valid()
      modifies this`cursorRow, this`cursorCol, this`scrollY, this`hasSelection
      ensures Valid() && Shown() == FlatUp(old(Shown())) && !hasSelection
      ensures if old(cursorRow) == 0 then cursorRow == old(cursorRow) && cursorCol == old(cursorCol)
              else cursorRow == old(cursorRow) - 1 && cursorCol == Min(old(cursorCol), |lines[cursorRow]|)
    {
      MoveUp(lines, cursorRow, cursorCol);
      if cursorRow > 0 {
        cursorRow := cursorRow - 1;
        cursorCol := Min(cursorCol, |lines[cursorRow]|);
        EnsureCursorVisible(VisibleHeight());
      }
      hasSelection := false;
    }

    method OnDown()
      requires Valid()
      modifies this`cursorRow, this`cursorCol, this`scrollY, this`hasSelection
      ensures Valid() && Shown() == FlatDown(old(Shown())) && !hasSelection
      ensures if old(cursorRow) + 1 == |lines| then cursorRow == old(cursorRow) && cursorCol == old(cursorCol)
              else cursorRow == old(cursorRow) + 1 && cursorCol == Min(old(cursorCol), |lines[cursorRow]|)
    {
      MoveDown(lines, cursorRow, cursorCol);
      if cursorRow + 1 < |lines| {
        cursorRow := cursorRow + 1;
        cursorCol := Min(cursorCol, |lines[cursorRow]|);
        EnsureCursorVisible(VisibleHeight());
      }
      hasSelection := false;
    }

    /** To another row, the column clipped. */
    method GoToRow(row: int)
      requires Valid() && 0 <= row < |lines|
      modifies this`cursorRow, this`cursorCol, this`scrollY, this`hasSelection
      ensures Valid() && !hasSelection
      ensures cursorRow == row && cursorCol == Min(old(cursorCol), |lines[row]|)
    {
      cursorRow := row;
      cursorCol := Min(cursorCol, |lines[cursorRow]|);
      EnsureCursorVisible(VisibleHeight());
      hasSelection := false;
    }

    method OnPageUp()
      requires Valid()
      modifies this`cursorRow, this`cursorCol, this`scrollY, this`hasSelection
      ensures Valid() && Shown() == FlatPageUp(old(Shown())) && !hasSelection
      ensures cursorRow == (if old(cursorRow) < 10 then 0 else old(cursorRow) - 10)
      ensures cursorCol == Min(old(cursorCol), |lines[cursorRow]|)
    {
      var row := Max(0, cursorRow - PAGE);
      MovePageUp(lines, cursorRow, cursorCol, row);
      hide View, FlatPageUp, FlatPageDown;
      GoToRow(row);
    }

    method OnPageDown()
      requires Valid()
      modifies this`cursorRow, this`cursorCol, this`scrollY, this`hasSelection
      ensures Valid() && Shown() == FlatPageDown(old(Shown())) && !hasSelection
      ensures cursorRow == (if old(cursorRow) + 10 < |lines| then old(cursorRow) + 10 else |lines| - 1)
      ensures cursorCol == Min(old(cursorCol), |lines[cursorRow]|)
    {
      var row := Min(|lines| - 1, cursorRow + PAGE);
      MovePageDown(lines, cursorRow, cursorCol, row);
      hide View, FlatPageUp, FlatPageDown;
      GoToRow(row);
    }

    /** The keyboard part of the event handler. */
    method OnKey(key: Key)
      requires Valid()
      modifies this`lines, this`cursorRow, this`cursorCol, this`scrollY, this`hasSelection
      ensures Valid() && Shown() == KeyEffect(key, old(Shown())) && !hasSelection
      // editing: what becomes of the text and of the offset in it
      ensures key == Backspace ==>
        var f, g := old(Shown()), Shown();
        if f.pos == 0 then g == f else g.text == f.text[..f.pos - 1] + f.text[f.pos..] && g.pos == f.pos - 1
      ensures key == Delete ==>
        var f, g := old(Shown()), Shown();
        if f.pos == |f.text| then g == f else g.text == f.text[..f.pos] + f.text[f.pos + 1..] && g.pos == f.pos
      ensures key == Return ==>
        var f, g := old(Shown()), Shown();
        g.text == f.text[..f.pos] + "\n" + f.text[f.pos..] && g.pos == f.pos + 1
      ensures key == Tab ==>
        var f, g := old(Shown()), Shown();
        g.text == f.text[..f.pos] + "    " + f.text[f.pos..] && g.pos == f.pos + 4
      ensures key.Character? ==>
        var f, g, t := old(Shown()), Shown(), StripCr(key.s);
        g.text == f.text[..f.pos] + t + f.text[f.pos..] && g.pos == f.pos + |t|
      // moving: the lines stay
      ensures !EditsText(key) ==> lines == old(lines)
      ensures key == ArrowLeft ==> Shown().pos == if old(Shown()).pos == 0 then 0 else old(Shown()).pos - 1
      ensures key == ArrowRight ==>
        Shown().pos == if old(Shown()).pos == |Shown().text| then |Shown().text| else old(Shown()).pos + 1
      ensures key == Home ==> cursorRow == old(cursorRow) && cursorCol == 0
      ensures key == End ==> cursorRow == old(cursorRow) && cursorCol == |lines[cursorRow]|
      ensures key == ArrowUp && old(cursorRow) == 0 ==> cursorRow == 0 && cursorCol == old(cursorCol)
      ensures key == ArrowDown && old(cursorRow) + 1 == |lines| ==>
        cursorRow == old(cursorRow) && cursorCol == old(cursorCol)
      ensures key == ArrowUp && old(cursorRow) > 0 ==> cursorRow == old(cursorRow) - 1
      ensures key == ArrowDown && old(cursorRow) + 1 < |lines| ==> cursorRow == old(cursorRow) + 1
      ensures key == PageUp ==> cursorRow == if old(cursorRow) < 10 then 0 else old(cursorRow) - 10
      ensures key == PageDown ==>
        cursorRow == if old(cursorRow) + 10 < |lines| then old(cursorRow) + 10 else |lines| - 1
      ensures || key == PageUp || key == PageDown
              || (key == ArrowUp && old(cursorRow) > 0) || (key == ArrowDown && old(cursorRow) + 1 < |lines|) ==>
        cursorCol == if old(cursorCol) < |lines[cursorRow]| then old(cursorCol) else |lines[cursorRow]|
    {
      hide KeyEffect, View, StripCr;
      if EditsText(key) { OnEditingKey(key); } else { OnMovingKey(key); }
    }

    method OnEditingKey(key: Key)
      requires Valid() && EditsText(key)
      modifies this`lines, this`cursorRow, this`cursorCol, this`scrollY, this`hasSelection
      ensures Valid() && Shown() == KeyEffect(key, old(Shown())) && !hasSelection
      ensures key == Backspace ==>
        var f, g := old(Shown()), Shown();
        if f.pos == 0 then g == f else g.text == f.text[..f.pos - 1] + f.text[f.pos..] && g.pos == f.pos - 1
      ensures key == Delete ==>
        var f, g := old(Shown()), Shown();
        if f.pos == |f.text| then g == f else g.text == f.text[..f.pos] + f.text[f.pos + 1..] && g.pos == f.pos
      ensures key == Return ==>
        var f, g := old(Shown()), Shown();
        g.text == f.text[..f.pos] + "\n" + f.text[f.pos..] && g.pos == f.pos + 1
      ensures key == Tab ==>
        var f, g := old(Shown()), Shown();
        g.text == f.text[..f.pos] + "    " + f.text[f.pos..] && g.pos == f.pos + 4
      ensures key.Character? ==>
        var f, g, t := old(Shown()), Shown(), StripCr(key.s);
        g.text == f.text[..f.pos] + t + f.text[f.pos..] && g.pos == f.pos + |t|
    {
      ErasingKeys(Shown());
      if key.Character? { InsertingKeys(Shown(), key.s); } else { InsertingKeys(Shown(), ""); }
      hide FlatBackspace, FlatDelete, FlatInsert, FlatLeft, FlatRight, FlatHome, FlatEnd, FlatUp, FlatDown;
      hide FlatPageUp, FlatPageDown, StripCr;
      if key == Return {
        OnReturn();
      } else if key == Backspace {
        OnBackspace();
      } else if key == Delete {
        OnDelete();
      } else if key == Tab {
        OnTab();
      } else {
        OnCharacter(key.s);
      }
    }

    method OnMovingKey(key: Key)
      requires Valid() && !EditsText(key)
      modifies this`cursorRow, this`cursorCol, this`scrollY, this`hasSelection
      ensures Valid() && Shown() == KeyEffect(key, old(Shown())) && !hasSelection
      ensures key == ArrowLeft ==> Shown().pos == if old(Shown()).pos == 0 then 0 else old(Shown()).pos - 1
      ensures key == ArrowRight ==>
        Shown().pos == if old(Shown()).pos == |Shown().text| then |Shown().text| else old(Shown()).pos + 1
      ensures key == Home ==> cursorRow == old(cursorRow) && cursorCol == 0
      ensures key == End ==> cursorRow == old(cursorRow) && cursorCol == |lines[cursorRow]|
      ensures key == ArrowUp && old(cursorRow) == 0 ==> cursorRow == 0 && cursorCol == old(cursorCol)
      ensures key == ArrowDown && old(cursorRow) + 1 == |lines| ==>
        cursorRow == old(cursorRow) && cursorCol == old(cursorCol)
      ensures key == ArrowUp && old(cursorRow) > 0 ==> cursorRow == old(cursorRow) - 1
      ensures key == ArrowDown && old(cursorRow) + 1 < |lines| ==> cursorRow == old(cursorRow) + 1
      ensures key == PageUp ==> cursorRow == if old(cursorRow) < 10 then 0 else old(cursorRow) - 10
      ensures key == PageDown ==>
        cursorRow == if old(cursorRow) + 10 < |lines| then old(cursorRow) + 10 else |lines| - 1
      ensures || key == PageUp || key == PageDown
              || (key == ArrowUp && old(cursorRow) > 0) || (key == ArrowDown && old(cursorRow) + 1 < |lines|) ==>
        cursorCol == if old(cursorCol) < |lines[cursorRow]| then old(cursorCol) else |lines[cursorRow]|
    {
      ArrowKeys(Shown());
      hide FlatBackspace, FlatDelete, FlatInsert, FlatLeft, FlatRight, FlatHome, FlatEnd, FlatUp, FlatDown;
      hide FlatPageUp, FlatPageDown, StripCr;
      if key == ArrowUp {
        OnUp();
      } else if key == ArrowDown {
        OnDown();
      } else if key == ArrowLeft {
        OnLeft();
      } else if key == ArrowRight {
        OnRight();
      } else if key == Home {
        OnHome();
      } else if key == End {
        OnEnd();
      } else if key == PageUp {
        OnPageUp();
      } else {
        OnPageDown();
      }
    }

    // The mouse part.  relY and relX are the pointer relative to the text.

    /** The line under the pointer, or the nearest one. */
    function TargetRow(relY: int): (row: int)
      reads this
      ensures relY >= 0 && 0 <= scrollY + relY < |lines| ==> row == scrollY + relY
      ensures relY < 0 && 0 <= scrollY < |lines| ==> row == scrollY
      ensures relY >= 0 && scrollY + relY >= |lines| > 0 ==> row == |lines| - 1
    {
      Max(0, Min(|lines| - 1, scrollY + Max(0, relY)))
    }

    /** The column under the pointer, or the nearest one. */
    function TargetCol(row: int, relX: int): (col: int)
      reads this
      requires 0 <= row < |lines|
      ensures 0 <= relX <= |lines[row]| ==> col == relX
      ensures relX < 0 ==> col == 0
      ensures relX > |lines[row]| ==> col == |lines[row]|
    {
      Max(0, Min(|lines[row]|, Max(0, relX)))
    }

    /** The longest run of word characters around a position, if it is on one. */
    method GetWordAt(row: int, col: int) returns (word: string)
      ensures if 0 <= row < |lines| && 0 <= col < |lines[row]| && IsWordChar(lines[row][col])
              then word == lines[row][WordStart(lines[row], col)..WordEnd(lines[row], col)]
              else word == ""
    {
      if row < 0 || row >= |lines| { return ""; }
      var line := lines[row];
      if col < 0 || col >= |line| { return ""; }
      if !IsWordChar(line[col]) { return ""; }
      var start, end := col, col;
      while start > 0 && IsWordChar(line[start - 1])
        invariant 0 <= start <= col && WordStart(line, start) == WordStart(line, col)
      {
        start := start - 1;
      }
      while end < |line| && IsWordChar(line[end])
        invariant col <= end <= |line| && WordEnd(line, end) == WordEnd(line, col)
      {
        end := end + 1;
      }
      word := line[start..end];
    }

    /** What a right click copies: the selection if one is shown, else the word, else all. */
    ghost function RightClickText(row: int, col: int): string
      reads this
      requires Valid() && IsPosition(lines, row, col)
    {
      if hasSelection then SelectionText()
      else if col < |lines[row]| && IsWordChar(lines[row][col])
      then lines[row][WordStart(lines[row], col)..WordEnd(lines[row], col)]
      else Unlines(lines, CRLF)
    }

    method RightClick(row: int, col: int) returns (copied: string)
      requires Valid() && IsPosition(lines, row, col)
      ensures copied == RightClickText(row, col)
    {
      if hasSelection {
        copied := GetSelectedText();
      } else {
        var word := GetWordAt(row, col);
        if word != "" { copied := word; } else { copied := GetText(); }
      }
    }

    /** The mouse part of the event handler, tests in its order.  The inner part of the
        left-release branch is not there: a drag has already taken every left event
        while selecting.  `copied` is what goes to the clipboard. */
    method OnMouse(e: Mouse) returns (handled: bool, copied: string)
      requires Valid()
      modifies this`cursorRow, this`cursorCol, this`scrollY, this`selecting, this`hasSelection
      modifies this`selStartRow, this`selStartCol, this`selEndRow, this`selEndCol
      ensures Valid()
      ensures selecting == SelectingAfter(old(selecting), e)
      ensures hasSelection == (old(hasSelection) || Presses(e))
      ensures Presses(e) ==> (selStartRow, selStartCol) == (selEndRow, selEndCol) == (cursorRow, cursorCol)
      ensures !Presses(e) ==> (selStartRow, selStartCol) == (old(selStartRow), old(selStartCol))
      ensures Moves(old(selecting), e) ==>
        && (selEndRow, selEndCol) == (cursorRow, cursorCol)
        && cursorRow == old(TargetRow(e.relY)) && cursorCol == TargetCol(cursorRow, e.relX)
      ensures !Moves(old(selecting), e) ==>
        (selEndRow, selEndCol, cursorRow, cursorCol) == old((selEndRow, selEndCol, cursorRow, cursorCol))
      ensures scrollY == if !e.inside then old(scrollY)
                         else if e.button == WheelUp then Max(0, old(scrollY) - 3)
                         else if e.button == WheelDown then Min(Max(0, |lines| - VisibleHeight()), old(scrollY) + 3)
                         else old(scrollY)
      ensures copied == if Copies(e)
                        then old(RightClickText(TargetRow(e.relY), TargetCol(TargetRow(e.relY), e.relX)))
                        else ""
      ensures handled == Handles(old(selecting), e)
    {
      copied := "";
      if e.inside {
        var targetRow := TargetRow(e.relY);
        var targetCol := TargetCol(targetRow, e.relX);
        if e.button == WheelUp {
          scrollY := Max(0, scrollY - 3);
          return true, "";
        }
        if e.button == WheelDown {
          scrollY := Min(Max(0, |lines| - VisibleHeight()), scrollY + 3);
          return true, "";
        }
        if e.button == LeftButton && e.motion == Pressed {
          cursorRow, cursorCol := targetRow, targetCol;
          selStartRow, selStartCol := targetRow, targetCol;
          selEndRow, selEndCol := targetRow, targetCol;
          selecting, hasSelection := true, true;
          return true, "";
        }
        if selecting && e.button == LeftButton {
          cursorRow, cursorCol := targetRow, targetCol;
          selEndRow, selEndCol := targetRow, targetCol;
          return true, "";
        }
        if e.button == LeftButton && e.motion == Released {
          return true, "";
        }
        if e.button == RightButton && e.motion == Pressed {
          copied := RightClick(targetRow, targetCol);
          return true, copied;
        }
      } else if selecting && e.motion == Released {
        selecting := false;
        return true, "";
      }
      handled := false;
    }
  }

  /** Typing or pasting a text and then pressing Backspace once for each character of it
      that is not a CR leaves lines and cursor as they were. */
  method TypeAndErase(editor: TextEditor, s: string)
    requires editor.Valid()
    modifies editor
    ensures editor.Valid() && editor.lines == old(editor.lines)
    ensures editor.cursorRow == old(editor.cursorRow) && editor.cursorCol == old(editor.cursorCol)
  {
    ghost var f, ls, row, col := editor.Shown(), editor.lines, editor.cursorRow, editor.cursorCol;
    var n := |StripCr(s)|;
    editor.OnKey(Character(s));
    ghost var g := editor.Shown();
    hide FlatBackspace, FlatInsert, StripCr, View, FlatDelete, FlatLeft, FlatRight, FlatHome, FlatEnd;
    hide FlatUp, FlatDown, FlatPageUp, FlatPageDown;
    for i := 0 to n
      invariant editor.Valid() && editor.Shown() == Backspaces(g, i)
    {
      editor.OnKey(Backspace);
    }
    InsertThenErase(ls, row, col, s, editor.lines, editor.cursorRow, editor.cursorCol);
  }
}
