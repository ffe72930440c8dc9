/** A change of columns keeps the lines exactly if no blank row breaks one and no character leaves a gap. */
module KeptLines {
  import opened Wrappers
  import opened TerminalRows
  import opened TerminalRing
  import opened FastResize
  import opened Reflow
  import opened ReflowText
  import opened Transcript
  import opened Typing
  import opened Retyping
  import opened ReflowLines
  import opened LineBreaks

  // ----- Spaces have width 1 -----

  predicate NarrowSpaceCells(cells: seq<Cell>) {
    forall i :: 0 <= i < |cells| ==> cells[i].text != [] ==> cells[i].text[0] == SPACE ==> !IsTail(cells, i + 1)
  }

  predicate NarrowSpaceLines(lines: seq<Line>) {
    forall i :: 0 <= i < |lines| ==> NarrowSpaceCells(lines[i].cells)
  }

  lemma {:induction false} NarrowItems(cells: seq<Cell>, n: nat)
    requires n <= |cells| && NarrowSpaceCells(cells)
    ensures NarrowSpaces(Items(cells, n))
    decreases n
  {
    hide CellItems, NarrowSpaceCells, NarrowSpaces;
    if n > 0 {
      NarrowItems(cells, n - 1);
      NarrowCell(cells, n - 1);
      NarrowConcat(Items(cells, n - 1), CellItems(cells, n - 1));
    } else {
      NarrowNothing();
    }
  }

  lemma NarrowNothing()
    ensures NarrowSpaces([])
  {
  }

  lemma NarrowConcat(a: seq<Item>, b: seq<Item>)
    requires NarrowSpaces(a) && NarrowSpaces(b)
    ensures NarrowSpaces(a + b)
  {
  }

  lemma NarrowCell(cells: seq<Cell>, i: nat)
    requires i < |cells| && NarrowSpaceCells(cells)
    ensures NarrowSpaces(CellItems(cells, i))
  {
  }

  lemma NarrowPart(line: Line, cursorCol: Option<int>)
    requires WellFormed(line.cells) && NarrowSpaceCells(line.cells)
    ensures NarrowSpaces(RowPart(line, cursorCol))
  {
    hide Items, Cut, TrimSpaces, IsBlank;
    NarrowItems(line.cells, |line.cells|);
    var items := RowItems(line, cursorCol.Some?);
    assert NarrowSpaces(items);
    CutValid(items, 0, cursorCol);
  }

  predicate NarrowSpaceItems(s: seq<seq<Item>>) {
    forall i :: 0 <= i < |s| ==> NarrowSpaces(s[i])
  }

  lemma {:induction false} NarrowLogical(lines: seq<Line>, n: nat, cursorLine: int, cursorCol: int)
    requires n <= |lines| && WellFormedLines(lines) && NarrowSpaceLines(lines)
    ensures NarrowSpaceItems(LogicalLines(lines, n, cursorLine, cursorCol))
    decreases n
  {
    hide RowPart, EndsLine;
    if n > 0 {
      NarrowLogical(lines, n - 1, cursorLine, cursorCol);
      NarrowPart(lines[n - 1], if n - 1 == cursorLine then Some(cursorCol) else None);
    }
  }

  // ----- Gaps -----

  predicate NoGaps(s: seq<seq<Item>>, cols: nat)
    requires LinesOfItems(s) && 2 <= cols
  {
    forall i :: 0 <= i < |s| ==> Gaps(0, s[i], cols) == 0
  }

  lemma RestOfSpaces(items: seq<Item>)
    requires items != [] && AllValid(items) && NarrowSpaces(items) && AllSpaces(CodePoints(items))
    ensures ValidGlyph(items[0].glyph) && items[0].glyph.width <= 1
    ensures AllValid(items[1..]) && NarrowSpaces(items[1..]) && AllSpaces(CodePoints(items[1..]))
  {
    var s := CodePoints(items);
    assert s[0] == SPACE;
    forall i | 0 <= i < |items| - 1 ensures CodePoints(items[1..])[i] == SPACE {
      assert s[i + 1] == SPACE;
    }
  }

  lemma {:induction false} SpacesLeaveNoGap(col: nat, items: seq<Item>, cols: nat)
    requires col <= cols && 2 <= cols && AllValid(items) && NarrowSpaces(items) && AllSpaces(CodePoints(items))
    ensures Gaps(col, items, cols) == 0
    decreases |items|
  {
    hide AllValid, NarrowSpaces, AllSpaces, CodePoints;
    if items != [] {
      RestOfSpaces(items);
      SpacesLeaveNoGap(NextColumn(col, items[0].glyph.width, cols), items[1..], cols);
    }
  }

  lemma BlankItemsNoGaps(s: seq<seq<Item>>, items: seq<Item>, cols: nat)
    requires LinesOfItems(s) && s != [] && LineOfItems(items) && 2 <= cols
    requires AllSpaces(CodePoints(items)) && NarrowSpaces(items)
    ensures var s' := s[|s| - 1 := s[|s| - 1] + items];
            && LinesOfItems(s') && LinesOfItems(s' + [[]])
            && (NoGaps(s', cols) <==> NoGaps(s, cols)) && (NoGaps(s' + [[]], cols) <==> NoGaps(s, cols))
  {
    hide Gaps, EndColumn, AllSpaces, NarrowSpaces, Spread;
    var n := |s| - 1;
    SpreadConcat(0, s[n], items, cols);
    SpacesLeaveNoGap(EndColumn(0, s[n], cols), items, cols);
    var s' := s[n := s[n] + items];
    assert forall i :: 0 <= i < |s| ==> LineOfItems(s'[i]);
    assert s'[n] == s[n] + items && forall i :: 0 <= i < n ==> s'[i] == s[i];
    if NoGaps(s', cols) {
      forall i | 0 <= i < |s| ensures Gaps(0, s[i], cols) == 0 {
        assert Gaps(0, s'[i], cols) == 0;
      }
    }
    NoGapsInEmpty(s', cols);
  }

  lemma BlankRowNoGaps(lines: seq<Line>, n: nat, cursorLine: int, cursorCol: int, cols: nat)
    requires n < |lines| && WellFormedLines(lines) && NarrowSpaceLines(lines) && 2 <= cols
    requires AllSpaces(OldRow(lines[n], CursorOn(n, cursorLine, cursorCol)).text)
    ensures LinesOfItems(LogicalLines(lines, n, cursorLine, cursorCol))
    ensures LinesOfItems(LogicalLines(lines, n + 1, cursorLine, cursorCol))
    ensures NoGaps(LogicalLines(lines, n + 1, cursorLine, cursorCol), cols)
            <==> NoGaps(LogicalLines(lines, n, cursorLine, cursorCol), cols)
  {
    hide LogicalLines, RowPart, EndsLine, OldRow, NoGaps, AllSpaces;
    LogicalAreLines(lines, n, cursorLine, cursorCol);
    LogicalStep(lines, n, cursorLine, cursorCol);
    var c := CursorOn(n, cursorLine, cursorCol);
    PartIsLine(lines[n], c);
    PartHasText(lines[n], c);
    NarrowPart(lines[n], c);
    BlankItemsNoGaps(LogicalLines(lines, n, cursorLine, cursorCol), RowPart(lines[n], c), cols);
  }

  lemma {:induction false} BlankRowsNoGaps(lines: seq<Line>, m: nat, n: nat, cursorLine: int, cursorCol: int, cols: nat)
    requires m <= n <= |lines| && WellFormedLines(lines) && NarrowSpaceLines(lines) && 2 <= cols
    requires forall i :: m <= i < n ==> AllSpaces(OldRow(lines[i], CursorOn(i, cursorLine, cursorCol)).text)
    ensures LinesOfItems(LogicalLines(lines, m, cursorLine, cursorCol))
    ensures LinesOfItems(LogicalLines(lines, n, cursorLine, cursorCol))
    ensures NoGaps(LogicalLines(lines, n, cursorLine, cursorCol), cols)
            <==> NoGaps(LogicalLines(lines, m, cursorLine, cursorCol), cols)
    decreases n
  {
    hide LogicalLines, OldRow, NoGaps, AllSpaces;
    LogicalAreLines(lines, m, cursorLine, cursorCol);
    if m < n {
      BlankRowsNoGaps(lines, m, n - 1, cursorLine, cursorCol, cols);
      BlankRowNoGaps(lines, n - 1, cursorLine, cursorCol, cols);
    }
  }

  // ----- The last row with text -----

  lemma {:induction false} NotEmptied(s: seq<seq<int>>)
    requires s == [] || s[|s| - 1] != []
    ensures DropEmpty(s) == s && DropEmpty(s + [[]]) == s
  {
    DropOne(s);
  }

  /** With text on the last line, that line is kept. */
  lemma KeptUpTo(s: seq<seq<int>>, text: seq<int>)
    requires s != [] && !AllSpaces(text)
    ensures var s' := Extended(s, text);
            DropEmpty(TrimEach(s')) == TrimEach(s') && DropEmpty(TrimEach(s' + [[]])) == TrimEach(s')
  {
    hide TrimRight;
    var s', n := Extended(s, text), |s| - 1;
    TrimIsSpaces(s[n] + text);
    SpacesConcat(s[n], text);
    TrimEachAppend(s', []);
    NothingTrimmed();
    NotEmptied(TrimEach(s'));
  }

  predicate HasText(lines: seq<Line>, i: nat, cursorLine: int, cursorCol: int)
    requires i < |lines|
  {
    !AllSpaces(OldRow(lines[i], CursorOn(i, cursorLine, cursorCol)).text)
  }

  /** The number of rows up to the last one with text. */
  function TextRows(lines: seq<Line>, n: nat, cursorLine: int, cursorCol: int): (m: nat)
    requires n <= |lines|
    ensures m <= n && (forall i :: m <= i < n ==> !HasText(lines, i, cursorLine, cursorCol))
    ensures m > 0 ==> HasText(lines, m - 1, cursorLine, cursorCol)
  {
    if n == 0 || HasText(lines, n - 1, cursorLine, cursorCol) then n
    else TextRows(lines, n - 1, cursorLine, cursorCol)
  }

  lemma OldPrefix(lines: seq<Line>, m: nat, n: nat, cursorLine: int, cursorCol: int)
    requires m <= n <= |lines|
    ensures OldRows(lines, n, cursorLine, cursorCol)[..m] == OldRows(lines, m, cursorLine, cursorCol)
  {
  }

  /** Rows without text at the end do not matter. */
  lemma OldLinesUpTo(lines: seq<Line>, m: nat, n: nat, cursorLine: int, cursorCol: int)
    requires m <= n <= |lines| && forall i :: m <= i < n ==> !HasText(lines, i, cursorLine, cursorCol)
    ensures LinesOf(OldRows(lines, n, cursorLine, cursorCol)) == LinesOf(OldRows(lines, m, cursorLine, cursorCol))
  {
    hide LinesOf, AllSpaces, OldRow;
    var rows := OldRows(lines, n, cursorLine, cursorCol);
    forall i | m <= i < |rows| ensures AllSpaces(rows[i].text) {
      assert !HasText(lines, i, cursorLine, cursorCol);
    }
    BlankRowsAdd(rows, m);
    OldPrefix(lines, m, n, cursorLine, cursorCol);
  }

  /** The lines of the old rows when the last row has text. */
  lemma OldLinesAt(lines: seq<Line>, n: nat, cursorLine: int, cursorCol: int)
    requires n < |lines| && HasText(lines, n, cursorLine, cursorCol)
    ensures var s := Extended(TextLines(OldRows(lines, n, cursorLine, cursorCol)),
                              OldRow(lines[n], CursorOn(n, cursorLine, cursorCol)).text);
            LinesOf(OldRows(lines, n + 1, cursorLine, cursorCol)) == TrimEach(s)
  {
    hide TextLines, TrimEach, Extended, OldRow, AllSpaces, DropEmpty;
    OldRowsStep(lines, n, cursorLine, cursorCol);
    var row := OldRow(lines[n], CursorOn(n, cursorLine, cursorCol));
    TextLinesAppend(OldRows(lines, n, cursorLine, cursorCol), row);
    KeptUpTo(TextLines(OldRows(lines, n, cursorLine, cursorCol)), row.text);
  }

  /** And of the logical lines. */
  lemma TypedLinesAt(lines: seq<Line>, n: nat, cursorLine: int, cursorCol: int, cols: nat)
    requires n < |lines| && WellFormedLines(lines) && HasText(lines, n, cursorLine, cursorCol) && 2 <= cols
    ensures LinesOfItems(LogicalLines(lines, n, cursorLine, cursorCol))
    ensures LinesOfItems(LogicalLines(lines, n + 1, cursorLine, cursorCol))
    ensures var s, part := LogicalLines(lines, n, cursorLine, cursorCol),
            RowPart(lines[n], CursorOn(n, cursorLine, cursorCol));
            var s' := s[|s| - 1 := s[|s| - 1] + part];
            && LinesOfItems(s') && TypedLines(LogicalLines(lines, n + 1, cursorLine, cursorCol), cols)
               == TrimEach(SpreadEach(s', cols))
  {
    hide LogicalLines, RowPart, EndsLine, OldRow, TrimEach, Extended, AllSpaces, DropEmpty, SpreadEach, Spread,
         EndColumn;
    LogicalAreLines(lines, n, cursorLine, cursorCol);
    LogicalStep(lines, n, cursorLine, cursorCol);
    var s, c := LogicalLines(lines, n, cursorLine, cursorCol), CursorOn(n, cursorLine, cursorCol);
    var part := RowPart(lines[n], c);
    PartIsLine(lines[n], c);
    PartHasText(lines[n], c);
    SpreadExtended(s, part, cols);
    var col := EndColumn(0, s[|s| - 1], cols);
    SpreadSpaces(col, part, cols);
    KeptUpTo(SpreadEach(s, cols), Spread(col, part, cols));
    SpreadEmptyLine(s[|s| - 1 := s[|s| - 1] + part], cols);
  }

  // ----- The exact condition -----

  /** No blank row that counts as wrapped, other than the one with the cursor, is followed by a row with text. */
  predicate KeepsBreaks(lines: seq<Line>, cursorLine: int, cursorCol: int) {
    forall i: nat, j: nat ::
      i < j < |lines| && BrokenAt(lines, i, cursorLine) ==> !HasText(lines, j, cursorLine, cursorCol)
  }

  lemma {:induction false} NoneBroken(lines: seq<Line>, n: nat, cursorLine: int)
    requires n <= |lines|
    ensures BrokenRows(lines, n, cursorLine) == 0 <==> forall i :: 0 <= i < n ==> !BrokenAt(lines, i, cursorLine)
    decreases n
  {
    hide BrokenAt;
    if n > 0 {
      NoneBroken(lines, n - 1, cursorLine);
    }
  }

  /** Up to the last row with text the lines agree, if no row breaks one. */
  lemma AgreeAtText(lines: seq<Line>, n: nat, cursorLine: int, cursorCol: int)
    requires n < |lines| && WellFormedLines(lines) && HasText(lines, n, cursorLine, cursorCol)
    requires BrokenRows(lines, n, cursorLine) == 0
    ensures var s, c := LogicalLines(lines, n, cursorLine, cursorCol), CursorOn(n, cursorLine, cursorCol);
            var s' := s[|s| - 1 := s[|s| - 1] + RowPart(lines[n], c)];
            TrimEach(Extended(TextLines(OldRows(lines, n, cursorLine, cursorCol)), OldRow(lines[n], c).text))
            == TrimEach(CodesEach(s'))
  {
    hide LogicalLines, RowPart, OldRow, TextLines, Extended, CodesEach, TrimRight, BrokenAt;
    var s, c := LogicalLines(lines, n, cursorLine, cursorCol), CursorOn(n, cursorLine, cursorCol);
    LinesAgree(lines, n, cursorLine, cursorCol);
    var a, b, row, part := TextLines(OldRows(lines, n, cursorLine, cursorCol)), CodesEach(s), OldRow(lines[n], c),
        RowPart(lines[n], c);
    CodesExtended(s, part);
    PartCodes(lines[n], c, a[|a| - 1]);
    AgreeEnds(a, b, row.text, CodePoints(part));
    TrimEachAppend(Extended(a, row.text), []);
    TrimEachAppend(Extended(b, CodePoints(part)), []);
    SameInit(TrimEach(Extended(a, row.text)), TrimEach(Extended(b, CodePoints(part))), TrimRight([]));
  }

  lemma SameInit(a: seq<seq<int>>, b: seq<seq<int>>, x: seq<int>)
    requires a + [x] == b + [x]
    ensures a == b
  {
    assert a == (a + [x])[..|a + [x]| - 1] && b == (b + [x])[..|b + [x]| - 1];
  }

  /** Typing shows the same text exactly if there are no gaps. */
  lemma GapsShow(s: seq<seq<Item>>, cols: nat)
    requires LinesOfItems(s) && NarrowSpaceItems(s) && 2 <= cols
    ensures TrimEach(CodesEach(s)) == TrimEach(SpreadEach(s, cols)) <==> NoGaps(s, cols)
  {
    hide Spread, Gaps, TrimRight;
    var a, b := TrimEach(CodesEach(s)), TrimEach(SpreadEach(s, cols));
    forall i | 0 <= i < |s| ensures a[i] == b[i] <==> Gaps(0, s[i], cols) == 0 {
      TrimmedLength(s[i], cols);
      SpreadLength(0, s[i], cols);
    }
    if a == b {
      forall i | 0 <= i < |s| ensures Gaps(0, s[i], cols) == 0 {
        assert a[i] == b[i];
      }
    }
  }

  lemma NoGapsInEmpty(s: seq<seq<Item>>, cols: nat)
    requires LinesOfItems(s) && 2 <= cols
    ensures LinesOfItems(s + [[]]) && (NoGaps(s + [[]], cols) <==> NoGaps(s, cols))
  {
    hide Gaps;
    SpreadNothing(0, cols);
    if NoGaps(s + [[]], cols) {
      forall i | 0 <= i < |s| ensures Gaps(0, s[i], cols) == 0 {
        assert Gaps(0, (s + [[]])[i], cols) == 0;
      }
    }
  }

  lemma AtLastText(lines: seq<Line>, n: nat, cursorLine: int, cursorCol: int, cols: nat)
    requires n < |lines| && WellFormedLines(lines) && NarrowSpaceLines(lines) && 2 <= cols
    requires HasText(lines, n, cursorLine, cursorCol)
    ensures LinesOfItems(LogicalLines(lines, n + 1, cursorLine, cursorCol))
    ensures LinesOf(OldRows(lines, n + 1, cursorLine, cursorCol))
            == TypedLines(LogicalLines(lines, n + 1, cursorLine, cursorCol), cols)
            <==> BrokenRows(lines, n, cursorLine) == 0
                 && NoGaps(LogicalLines(lines, n + 1, cursorLine, cursorCol), cols)
  {
    hide LogicalLines, RowPart, OldRow, TextLines, LinesOf, TypedLines, NoGaps, EndsLine, HasText, BrokenRows,
         SpreadEach,
         CodesEach;
    var s, c := LogicalLines(lines, n, cursorLine, cursorCol), CursorOn(n, cursorLine, cursorCol);
    OldLinesAt(lines, n, cursorLine, cursorCol);
    TypedLinesAt(lines, n, cursorLine, cursorCol, cols);
    CountLines(lines, n, cursorLine, cursorCol);
    var s' := s[|s| - 1 := s[|s| - 1] + RowPart(lines[n], c)];
    if BrokenRows(lines, n, cursorLine) == 0 {
      AgreeAtText(lines, n, cursorLine, cursorCol);
      LogicalStep(lines, n, cursorLine, cursorCol);
      NarrowLogical(lines, n + 1, cursorLine, cursorCol);
      NarrowInit(LogicalLines(lines, n + 1, cursorLine, cursorCol), s');
      GapsShow(s', cols);
      NoGapsInEmpty(s', cols);
    } else {
      SpreadSize(s', cols);
    }
  }

  lemma NarrowInit(s: seq<seq<Item>>, s': seq<seq<Item>>)
    requires NarrowSpaceItems(s) && (s == s' || s == s' + [[]])
    ensures NarrowSpaceItems(s')
  {
    assert forall i :: 0 <= i < |s'| ==> s'[i] == s[i];
  }

  lemma SpreadSize(s: seq<seq<Item>>, cols: nat)
    requires LinesOfItems(s) && 2 <= cols
    ensures |SpreadEach(s, cols)| == |s|
  {
  }

  /** The lines of the old rows and those that typing the logical lines gives. */
  lemma SameLinesIff(lines: seq<Line>, cursorLine: int, cursorCol: int, cols: nat)
    requires WellFormedLines(lines) && NarrowSpaceLines(lines) && 2 <= cols
    ensures LinesOfItems(LogicalLines(lines, |lines|, cursorLine, cursorCol))
    ensures var s := LogicalLines(lines, |lines|, cursorLine, cursorCol);
            LinesOf(OldRows(lines, |lines|, cursorLine, cursorCol)) == TypedLines(s, cols)
            <==> KeepsBreaks(lines, cursorLine, cursorCol) && NoGaps(s, cols)
  {
    hide LogicalLines, OldRow, LinesOf, TypedLines, NoGaps, BrokenRows, BrokenAt, AllSpaces;
    var n := |lines|;
    var m := TextRows(lines, n, cursorLine, cursorCol);
    OldLinesUpTo(lines, m, n, cursorLine, cursorCol);
    forall i | m <= i < n ensures AllSpaces(OldRow(lines[i], CursorOn(i, cursorLine, cursorCol)).text) {
      assert !HasText(lines, i, cursorLine, cursorCol);
    }
    BlankRowsTyped(lines, m, n, cursorLine, cursorCol, cols);
    BlankRowsNoGaps(lines, m, n, cursorLine, cursorCol, cols);
    if m == 0 {
      NothingThere(lines, cursorLine, cursorCol, cols);
    } else {
      AtLastText(lines, m - 1, cursorLine, cursorCol, cols);
      NoneBroken(lines, m - 1, cursorLine);
      if BrokenRows(lines, m - 1, cursorLine) != 0 {
        var i: nat :| i < m - 1 && BrokenAt(lines, i, cursorLine);
        assert HasText(lines, m - 1, cursorLine, cursorCol);
      }
    }
  }

  lemma NothingThere(lines: seq<Line>, cursorLine: int, cursorCol: int, cols: nat)
    requires WellFormedLines(lines) && 2 <= cols
    ensures var s := LogicalLines(lines, 0, cursorLine, cursorCol);
            LinesOfItems(s) && LinesOf(OldRows(lines, 0, cursorLine, cursorCol)) == [] == TypedLines(s, cols)
            && NoGaps(s, cols)
  {
    NoRowsYet(lines, cursorLine, cursorCol);
    NothingTrimmed();
    SpreadNothing(0, cols);
    assert SpreadEach([[]], cols) == [[]];
    assert TrimEach([[]]) == [] + [[]];
    DropOne([]);
    assert DropEmpty([]) == [];
  }

  // ----- The ring -----

  /** The logical lines of a ring, with the row of the cursor cut. */
  function Logical(r: Ring, cursorRow: int, cursorCol: int): (s: seq<seq<Item>>)
    requires Valid(r)
    ensures LinesOfItems(s) && s != []
  {
    hide LinesOfItems, AllLines, LogicalLines, WellFormedLines, Valid;
    LinesWellFormed(r);
    LogicalAreLines(AllLines(r), |AllLines(r)|, r.active + cursorRow, cursorCol);
    LogicalLines(AllLines(r), |AllLines(r)|, r.active + cursorRow, cursorCol)
  }

  /** The lines that its rows hold. */
  function OldLines(r: Ring, cursorRow: int, cursorCol: int): seq<seq<int>>
    requires Valid(r)
  {
    LinesOf(OldRows(AllLines(r), |AllLines(r)|, r.active + cursorRow, cursorCol))
  }

  /** All rows that the reflow has written, those that fell off the ring first. */
  function NewRows(o: Output): seq<TextRow>
    requires Ready(o)
  {
    RowsOf(o.lost + AllLines(o.ring))
  }

  /** No row of the new ring has to be used twice. */
  predicate FitsRing(s: seq<seq<Item>>, cols: nat, total: nat, style: Style)
    requires LinesOfItems(s)
  {
    2 <= cols && 0 < total && |TypeLines(s, cols, total, style).full| < total
  }

  /** As long as the rows of the new width fit the ring, its lines are those of typing, gaps included. */
  lemma ReflowedLines(r: Ring, newCols: nat, newRows: nat, newTotal: nat, cursorRow: int, cursorCol: int, style: Style)
    requires Valid(r) && 2 <= newCols && 1 <= newRows <= newTotal
    requires FitsRing(Logical(r, cursorRow, cursorCol), newCols, newTotal, style)
    ensures var o := Reflowed(r, newCols, newRows, newTotal, cursorRow, cursorCol, style);
            LinesOf(NewRows(o)) == TypedLines(Logical(r, cursorRow, cursorCol), newCols)
  {
    hide AllLines, Reflowed, LogicalLines, TypeLines, LinesOf, SameButBlank, Rows, RowsOf, SpreadEach, LinesOfItems;
    ReflowRetypes(r, newCols, newRows, newTotal, cursorRow, cursorCol, style);
    var o := Reflowed(r, newCols, newRows, newTotal, cursorRow, cursorCol, style);
    var s := Logical(r, cursorRow, cursorCol);
    SameLines(o.lost + AllLines(o.ring), Rows(TypeLines(s, newCols, newTotal, style), newCols, newTotal, style));
    PageRowsLines(s, newCols, newTotal, style);
  }

  /**
    A change of columns keeps the lines of the old rows, with that of the cursor cut, exactly if no wrapped blank row
    comes before a row with text and no double-width character leaves the last column of a row blank; as long as the
    rows fit the new ring.
   */
  lemma ReflowKeepsLinesIff(r: Ring, newCols: nat, newRows: nat, newTotal: nat, cursorRow: int, cursorCol: int,
                            style: Style)
    requires Valid(r) && 2 <= newCols && 1 <= newRows <= newTotal && NarrowSpaceLines(AllLines(r))
    requires FitsRing(Logical(r, cursorRow, cursorCol), newCols, newTotal, style)
    ensures var o := Reflowed(r, newCols, newRows, newTotal, cursorRow, cursorCol, style);
            LinesOf(NewRows(o)) == OldLines(r, cursorRow, cursorCol)
            <==> KeepsBreaks(AllLines(r), r.active + cursorRow, cursorCol)
                 && NoGaps(Logical(r, cursorRow, cursorCol), newCols)
  {
    hide AllLines, Reflowed, LogicalLines, TypeLines, LinesOf, RowsOf, OldRows, TypedLines, NoGaps, KeepsBreaks,
         LinesOfItems, NarrowSpaceLines;
    LinesWellFormed(r);
    ReflowedLines(r, newCols, newRows, newTotal, cursorRow, cursorCol, style);
    SameLinesIff(AllLines(r), r.active + cursorRow, cursorCol, newCols);
  }
}
