/** A change of columns after printing: the transcript stays the same. */
module PrintAndResize {
  import opened Wrappers
  import opened Basics
  import opened TerminalRows
  import opened TerminalRing
  import opened FastResize
  import opened Reflow
  import opened ReflowText
  import opened TerminalResize
  import opened TerminalState
  import opened Transcript
  import opened Typing
  import opened Pages
  import opened Retyping
  import opened ReflowLines
  import opened LineBreaks
  import opened KeptLines
  import opened PageReading
  import opened PrintAndRead

  // ----- The logical lines of a page -----

  /** No wrapped row is blank. */
  predicate NoBlankWraps(lines: seq<Line>) {
    forall i :: 0 <= i < |lines| ==> lines[i].wrap ==> !IsBlank(lines[i])
  }

  lemma {:induction false} LogicalPrefix(a: seq<Line>, b: seq<Line>, n: nat, i: int, c: int, j: int, d: int)
    requires n <= |a| && n <= |b| && a[..n] == b[..n] && WellFormedLines(a) && WellFormedLines(b)
    requires !(0 <= i < n) && !(0 <= j < n)
    ensures LogicalLines(a, n, i, c) == LogicalLines(b, n, j, d)
    decreases n
  {
    hide RowPart, EndsLine;
    if n > 0 {
      assert a[n - 1] == a[..n][n - 1] == b[n - 1];
      assert a[..n - 1] == a[..n][..n - 1] == b[..n - 1];
      LogicalPrefix(a, b, n - 1, i, c, j, d);
    }
  }

  /** The logical lines of rows none of which has the cursor. */
  function LinesBefore(full: seq<Line>): (s: seq<seq<Item>>)
    requires WellFormedLines(full)
    ensures s != []
  {
    LogicalLines(full, |full|, -1, 0)
  }

  lemma LinesBeforeAppend(full: seq<Line>, line: Line)
    requires WellFormedLines(full) && WellFormed(line.cells)
    ensures WellFormedLines(full + [line])
    ensures var s := LinesBefore(full); var s' := s[|s| - 1 := s[|s| - 1] + RowPart(line, None)];
            LinesBefore(full + [line]) == if EndsLine(line, None) then s' + [[]] else s'
  {
    hide LogicalLines, RowPart, EndsLine;
    LogicalPrefix(full, full + [line], |full|, -1, 0, -1, 0);
    LogicalStep(full + [line], |full|, -1, 0);
  }

  /** The code points of the lines of a page; the last one ends with the current row. */
  function PageCodes(p: Page): (s: seq<seq<int>>)
    requires WellFormedLines(p.full)
    ensures s != []
  {
    Extended(CodesEach(LinesBefore(p.full)), CodePoints(p.tail))
  }

  lemma WrappedCodes(full: seq<Line>, line: Line)
    requires WellFormedLines(full) && WellFormed(line.cells) && line.wrap && !IsBlank(line)
    ensures WellFormedLines(full + [line])
    ensures CodesEach(LinesBefore(full + [line])) == Extended(CodesEach(LinesBefore(full)), FullText(line.cells))
  {
    hide LinesBefore, RowPart, FullText, IsBlank, Extended, CodesEach;
    LinesBeforeAppend(full, line);
    PartCodes(line, None, []);
    CodesExtended(LinesBefore(full), RowPart(line, None));
  }

  lemma TypeCodes(p: Page, item: Item, cols: nat, style: Style)
    requires PageOk(p, cols) && MayFollow(p, item) && 2 <= cols && WellFormedLines(p.full)
    requires NoBlankWraps(Type(p, item, cols, style).full)
    ensures 0 <= Width(p.tail) <= cols && WellFormedLines(Type(p, item, cols, style).full)
    ensures PageCodes(Type(p, item, cols, style))
            == Extended(PageCodes(p), Spaces(GapBefore(Width(p.tail), item.glyph.width, cols)) + [item.glyph.codePoint])
  {
    hide LinesBefore, FullText, RowCells, Extended, CodesEach, IsBlank;
    TailWidth(p.tail, item);
    RowFullText(p.tail, cols, style);
    var s, w, c := CodesEach(LinesBefore(p.full)), Width(p.tail), item.glyph.codePoint;
    if w + item.glyph.width <= cols {
      assert CodePoints(p.tail + [item]) == CodePoints(p.tail) + [c];
      ExtendTwice(s, CodePoints(p.tail), [c]);
      assert Spaces(0) + [c] == [c];
    } else {
      var line := Line(RowCells(p.tail, cols, style), true);
      assert (p.full + [line])[|p.full|] == line;
      WrappedCodes(p.full, line);
      ExtendTwice(s, CodePoints(p.tail), Spaces(cols - w) + [c]);
      ExtendTwice(s, CodePoints(p.tail) + Spaces(cols - w), [c]);
      Assoc(CodePoints(p.tail), Spaces(cols - w), [c]);
      assert CodePoints([item]) == [c];
    }
  }

  lemma {:induction false} TypeAllPrefix(p: Page, items: seq<Item>, cols: nat, style: Style)
    requires PageOk(p, cols) && AllMayFollow(p, items) && 2 <= cols
    ensures p.full <= TypeAll(p, items, cols, style).full
    decreases |items|
  {
    hide RowCells, Width;
    if items != [] {
      TypeStep(p, items, cols, style);
      TypeAllPrefix(Type(p, items[0], cols, style), items[1..], cols, style);
    }
  }

  lemma PrefixNoBlankWraps(a: seq<Line>, b: seq<Line>)
    requires a <= b && NoBlankWraps(b)
    ensures NoBlankWraps(a)
  {
    hide IsBlank;
    assert forall i :: 0 <= i < |a| ==> a[i] == b[i];
  }

  lemma {:induction false} TypeAllCodes(p: Page, items: seq<Item>, cols: nat, style: Style)
    requires PageOk(p, cols) && AllMayFollow(p, items) && 2 <= cols && WellFormedLines(p.full)
    requires NoBlankWraps(TypeAll(p, items, cols, style).full)
    ensures 0 <= Width(p.tail) <= cols && AllValid(items) && WellFormedLines(TypeAll(p, items, cols, style).full)
    ensures PageCodes(TypeAll(p, items, cols, style)) == Extended(PageCodes(p), Spread(Width(p.tail), items, cols))
    decreases |items|
  {
    hide PageCodes, Type, RowCells, Width, GapBefore, NextColumn, NoBlankWraps, Extended;
    PageWidth(p, cols);
    if items == [] {
      ExtendByNothing(PageCodes(p));
    } else {
      TypeStep(p, items, cols, style);
      TypeLinesOf(p, items[0], cols, style);
      var p1, w, g := Type(p, items[0], cols, style), Width(p.tail), items[0].glyph;
      TypeAllPrefix(p1, items[1..], cols, style);
      PrefixNoBlankWraps(p1.full, TypeAll(p, items, cols, style).full);
      TypeCodes(p, items[0], cols, style);
      TypeAllCodes(p1, items[1..], cols, style);
      ExtendTwice(PageCodes(p), Spaces(GapBefore(w, g.width, cols)) + [g.codePoint],
                  Spread(NextColumn(w, g.width, cols), items[1..], cols));
    }
  }

  lemma BlankTail(tail: seq<Item>, cols: nat, style: Style)
    requires FitsRow(tail, cols) && EndsInText(tail) && IsBlank(Line(RowCells(tail, cols, style), false))
    ensures tail == []
  {
    hide RowCells, FullText, IsBlank;
    var line := Line(RowCells(tail, cols, style), false);
    RowFullText(tail, cols, style);
    BlankRowCodes(line);
    forall i | 0 <= i < |tail| ensures tail[i].glyph.codePoint == SPACE {
      assert CodePoints(tail)[i] == FullText(line.cells)[i];
    }
  }

  lemma TrimmedPart(line: Line)
    requires WellFormed(line.cells) && !line.wrap && !IsBlank(line)
    ensures EndsInText(RowPart(line, None))
  {
    hide Items, Cut, IsBlank;
    CutNowhere(RowItems(line, false), 0);
  }

  predicate NoSpaceAtEnd(s: seq<int>) {
    s == [] || s[|s| - 1] != SPACE
  }

  lemma SameTrimmed(t: seq<int>, codes: seq<int>, spaces: seq<int>)
    requires NoSpaceAtEnd(t) && NoSpaceAtEnd(codes) && AllSpaces(spaces)
    requires TrimRight([] + t) == TrimRight([] + (codes + spaces))
    ensures t == codes
  {
    hide TrimRight;
    assert [] + t == t && [] + (codes + spaces) == codes + spaces;
    NotTrimmedText(t);
    NotTrimmedText(codes);
    TrimMore(codes, spaces);
  }

  /** A row that ends a line, and whose text does not end in a space, contributes its text. */
  lemma EndedPart(tail: seq<Item>, cols: nat, style: Style)
    requires FitsRow(tail, cols) && EndsInText(tail)
    ensures CodePoints(RowPart(Line(RowCells(tail, cols, style), false), None)) == CodePoints(tail)
  {
    hide RowCells, FullText, RowPart, IsBlank, TrimRight, FitsRow, Width;
    var line := Line(RowCells(tail, cols, style), false);
    RowFullText(tail, cols, style);
    if IsBlank(line) {
      BlankTail(tail, cols, style);
      NoPart(line);
    } else {
      PartCodes(line, None, []);
      TrimmedPart(line);
      SameTrimmed(CodePoints(RowPart(line, None)), CodePoints(tail), Spaces(cols - Width(tail)));
    }
  }

  lemma EndRowCodes(p: Page, cols: nat, total: nat, style: Style)
    requires PageOk(p, cols) && |p.full| < total && EndsInText(p.tail) && WellFormedLines(p.full)
    ensures WellFormedLines(EndRow(p, cols, total, style).full)
    ensures PageCodes(EndRow(p, cols, total, style)) == PageCodes(p) + [[]]
  {
    hide LinesBefore, RowCells, RowPart, CodesEach, Extended, EndsInText, FitsRow;
    NotStale(p.full, total);
    var line, s := CurrentLine(p, cols, total, style), LinesBefore(p.full);
    EndedPart(p.tail, cols, style);
    LinesBeforeAppend(p.full, line);
    CodesExtended(s, RowPart(line, None));
    CodesExtended(s[|s| - 1 := s[|s| - 1] + RowPart(line, None)], []);
    NoCodes();
    ExtendByNothing(PageCodes(p) + [[]]);
  }

  /** The code points of the logical lines of typed rows: what each line spreads to. */
  lemma {:induction false} TypeLinesCodes(s: seq<seq<Item>>, cols: nat, total: nat, style: Style)
    requires LinesOfItems(s) && s != [] && 2 <= cols && 0 < total && |TypeLines(s, cols, total, style).full| < total
    requires EndInText(s) && NoBlankWraps(TypeLines(s, cols, total, style).full)
    ensures WellFormedLines(TypeLines(s, cols, total, style).full)
    ensures PageCodes(TypeLines(s, cols, total, style)) == SpreadEach(s, cols)
    decreases |s|
  {
    hide PageCodes, LineOfItems, TypeLines, PageOk, EndsInText, Spread, NoBlankWraps, EndRow, TypeAll, WellFormedLines,
         Width;
    var n := |s| - 1;
    WidthOfNothing();
    if n == 0 {
      assert s == [s[0]];
      TypeOneLine(s[0], cols, total, style);
      EmptyCodes(cols);
      LineMayFollow(Page([], []), s[0]);
      TypeAllCodes(Page([], []), s[0], cols, style);
      assert Extended([[]], Spread(0, s[0], cols)) == SpreadEach(s, cols) by {
        assert [] + Spread(0, s[0], cols) == Spread(0, s[0], cols);
      }
    } else {
      var init := s[..n];
      assert s == init + [s[n]];
      MoreTypedGrows(init, s[n], cols, total, style);
      TypeMoreLines(init, s[n], cols, total, style);
      var p := TypeLines(init, cols, total, style);
      EndRowGrows(p, cols, total, style);
      var p1 := EndRow(p, cols, total, style);
      LineMayFollow(p1, s[n]);
      TypeAllPrefix(p1, s[n], cols, style);
      PrefixNoBlankWraps(p1.full, TypeLines(s, cols, total, style).full);
      EndedPrefix(p, cols, total, style);
      PrefixNoBlankWraps(p.full, p1.full);
      TypeLinesCodes(init, cols, total, style);
      LastTail(init, cols, total, style);
      EndRowCodes(p, cols, total, style);
      TypeAllCodes(p1, s[n], cols, style);
      ExtendEmpty(SpreadEach(init, cols), Spread(0, s[n], cols));
      assert SpreadEach(s, cols) == SpreadEach(init, cols) + [Spread(0, s[n], cols)];
    }
  }

  lemma LineMayFollow(p: Page, items: seq<Item>)
    requires LineOfItems(items)
    ensures AllMayFollow(p, items)
  {
  }

  lemma EmptyCodes(cols: nat)
    ensures PageOk(Page([], []), cols) && WellFormedLines([]) && PageCodes(Page([], [])) == [[]]
  {
    NoCodes();
    assert CodesEach([[]]) == [[]];
    ExtendByNothing([[]]);
  }

  lemma EndedPrefix(p: Page, cols: nat, total: nat, style: Style)
    requires PageOk(p, cols) && 0 < total
    ensures p.full <= EndRow(p, cols, total, style).full
  {
  }

  // ----- The row of the cursor -----

  /** The column of the cursor at the end of a row. */
  function EndCursor(tail: seq<Item>, cols: nat): (c: int)
    requires FitsRow(tail, cols) && 2 <= cols
    ensures 0 <= c < cols
  {
    WidthNonNegative(tail);
    if Width(tail) == cols then cols - 1 else Width(tail)
  }

  /** Up to the cursor at its end, a row contributes its text and at most one space. */
  lemma CursorPart(tail: seq<Item>, cols: nat, style: Style, wrap: bool)
    requires FitsRow(tail, cols) && 2 <= cols
    ensures var line := Line(RowCells(tail, cols, style), wrap);
            |line.cells[EndCursor(tail, cols)].text| <= 1 ==>
              exists j: nat :: CodePoints(RowPart(line, Some(EndCursor(tail, cols)))) == CodePoints(tail) + Spaces(j)
  {
    hide RowCells, FullText, RowItems, Cut;
    RowFullText(tail, cols, style);
    RowPrefixText(tail, cols, style);
    var line, c, w := Line(RowCells(tail, cols, style), wrap), EndCursor(tail, cols), Width(tail);
    if |line.cells[c].text| <= 1 {
      CutCodes(line, c);
      if line.cells[c].text == [] {
        assert CodePoints(RowPart(line, Some(c))) == CodePoints(tail) + Spaces(cols - w);
      } else {
        TextStep(line.cells, c);
        assert [line.cells[c].text[0]] == line.cells[c].text;
        BlankFullText(line.cells, w, c + 1);
        assert CodePoints(RowPart(line, Some(c))) == CodePoints(tail) + Spaces(c + 1 - w);
      }
    }
  }

  /** The logical lines of the rows down to that of the cursor. */
  function ToCursor(r: Ring, row: nat, col: int): (s: seq<seq<Item>>)
    requires Valid(r) && row < r.rows
    ensures LinesOfItems(s) && s != []
  {
    hide LinesOfItems, LogicalLines, WellFormedLines;
    LinesWellFormed(r);
    LogicalAreLines(AllLines(r), r.active + row + 1, r.active + row, col);
    LogicalLines(AllLines(r), r.active + row + 1, r.active + row, col)
  }

  /** With the cursor at the end of a page, they are the lines of the page, perhaps with a space at the end. */
  lemma PageToCursor(r: Ring, row: nat, p: Page, style: Style) returns (x: seq<seq<Item>>, j: nat)
    requires Valid(r) && row < r.rows && PageOk(p, r.cols) && 2 <= r.cols && |p.full| < |r.view|
             && WellFormedLines(p.full)
    requires LinesOn(r, row, p.full, CurrentLine(p, r.cols, |r.view|, style), style)
    requires |CurrentLine(p, r.cols, |r.view|, style).cells[EndCursor(p.tail, r.cols)].text| <= 1
    ensures ToCursor(r, row, EndCursor(p.tail, r.cols)) == x + [[]] && x != []
    ensures CodesEach(x) == Extended(PageCodes(p), Spaces(j))
  {
    hide LogicalLines, RowCells, RowPart, Stale, AllLines, CodesEach, Extended, Valid, Blanks;
    var col, lines, n := EndCursor(p.tail, r.cols), AllLines(r), |p.full|;
    var line := CurrentLine(p, r.cols, |r.view|, style);
    NotStale(p.full, |r.view|);
    FitsWindow(p.full, line, |r.view|);
    LinesWellFormed(r);
    assert lines[..n] == p.full[..n] && lines[n] == line && r.active + row == n;
    LogicalPrefix(lines, p.full, n, n, col, -1, 0);
    LogicalStep(lines, n, n, col);
    CursorPart(p.tail, r.cols, style, false);
    var s, part := LinesBefore(p.full), RowPart(line, Some(col));
    j :| CodePoints(part) == CodePoints(p.tail) + Spaces(j);
    x := s[|s| - 1 := s[|s| - 1] + part];
    CodesExtended(s, part);
    ExtendTwice(CodesEach(s), CodePoints(p.tail), Spaces(j));
  }

  // ----- The new ring -----

  lemma {:induction false} BlankRowsSkipped(q: Progress, lines: seq<Line>, m: nat, n: nat, cursorLine: int,
                                            cursorCol: int,
                                            style: Style)
    requires Ready(q.out) && m <= n <= |lines| && WellFormedLines(lines) && cursorLine < m
    requires forall i :: m <= i < n ==> IsBlank(lines[i])
    ensures CopyLines(q, lines, n, cursorLine, cursorCol, style).out
            == CopyLines(q, lines, m, cursorLine, cursorCol, style).out
    decreases n
  {
    hide Ready, CopyLine, IsBlank;
    if m < n {
      BlankRowsSkipped(q, lines, m, n - 1, cursorLine, cursorCol, style);
      SkippedRow(CopyLines(q, lines, n - 1, cursorLine, cursorCol, style), lines[n - 1], n == |lines|, style);
    }
  }

  /** The rows below the cursor are blank. */
  predicate BlankBelow(r: Ring, row: nat)
    requires Valid(r)
  {
    forall i :: r.active + row < i < |AllLines(r)| ==> IsBlank(AllLines(r)[i])
  }

  /** With nothing below the cursor, the transcript of the new ring is that of typing the lines down to the cursor. */
  lemma ReflowedText(r: Ring, newCols: nat, newRows: nat, newTotal: nat, row: nat, col: int, style: Style)
    requires Valid(r) && 2 <= newCols && 1 <= newRows <= newTotal && row < r.rows && BlankBelow(r, row)
    requires FitsRing(ToCursor(r, row, col), newCols, newTotal, style)
    ensures var o := Reflowed(r, newCols, newRows, newTotal, row, col, style);
            TranscriptText(o.ring) == Trim(PageText(TypeLines(ToCursor(r, row, col), newCols, newTotal, style)))
  {
    hide AllLines, CopyLines, TypeLines, LogicalLines, RowCells, Stale, Typed, Ready, EndRows, Start, PageOk, PageText,
         Trim,
         TranscriptText;
    LinesWellFormed(r);
    StartTyped(newCols, newRows, newTotal, style);
    StartSize(newCols, newRows, newTotal, style);
    var lines, start, n := AllLines(r), Progress(Start(newCols, newRows, newTotal, style), 0), r.active + row;
    var p, k := CopyLinesTyped(start, lines, n + 1, n, col, newCols, newTotal, style);
    BlankRowsSkipped(start, lines, n + 1, |lines|, n, col, style);
    EndedText(p, k, newCols, newTotal, style);
    var o := Reflowed(r, newCols, newRows, newTotal, row, col, style);
    TypedRows(o, p, style);
    ReadPage(o.ring, o.row, p, style);
  }

  lemma TypedRows(o: Output, p: Page, style: Style)
    requires Typed(o, p, style)
    ensures Valid(o.ring) && 0 < |o.ring.view| && PageOk(p, o.ring.cols)
    ensures LinesOn(o.ring, o.row, p.full, CurrentLine(p, o.ring.cols, |o.ring.view|, style), style)
  {
    hide LinesOn;
  }

  lemma BlankRowsBelow(r: Ring, row: nat, full: seq<Line>, line: Line, style: Style)
    requires LinesOn(r, row, full, line, style)
    ensures BlankBelow(r, row)
  {
    hide AllLines, Window;
    BlankIsBlank(r.cols, style);
  }

  lemma BlankIsBlank(cols: nat, style: Style)
    ensures IsBlank(BlankLine(cols, style, false))
  {
  }

  // ----- Text -----

  /** Without gaps, the text of typed lines is that of their code points. */
  lemma TypedWithoutGaps(x: seq<seq<Item>>, cols: nat, total: nat, style: Style)
    requires LinesOfItems(x + [[]]) && LinesOfItems(x) && x != [] && 2 <= cols && FitsRing(x + [[]], cols, total, style)
    requires EndInText(x) && NoGaps(x, cols)
    ensures Trim(PageText(TypeLines(x + [[]], cols, total, style))) == Trim(JoinLines(CodesEach(x)))
  {
    hide PageText, TypeLines, Trim, JoinLines, LineOfItems, EndsInText, Gaps, Spread, EndRow;
    TypeEmptyLine(x, cols, total, style);
    var p := TypeLines(x, cols, total, style);
    EndRowGrows(p, cols, total, style);
    EndedOnce(p, cols, total, style);
    TypeLinesContent(x, cols, total, style);
    assert SpreadEach(x, cols) == CodesEach(x) by {
      forall i | 0 <= i < |x| ensures SpreadEach(x, cols)[i] == CodesEach(x)[i] {
        LineIsValid(x[i]);
        assert Gaps(0, x[i], cols) == 0;
        SpreadLength(0, x[i], cols);
      }
    }
  }

  lemma LineIsValid(items: seq<Item>)
    requires LineOfItems(items)
    ensures AllValid(items)
  {
  }

  lemma {:induction false} SpreadEnd(col: nat, items: seq<Item>, cols: nat)
    requires col <= cols && 2 <= cols && AllValid(items)
    ensures var t := Spread(col, items, cols);
            if items == [] then t == [] else t != [] && t[|t| - 1] == items[|items| - 1].glyph.codePoint
    decreases |items|
  {
    hide GapBefore, NextColumn, Spaces;
    if items != [] {
      assert ValidGlyph(items[0].glyph);
      NextFits(col, items[0].glyph.width, cols);
      SpreadEnd(NextColumn(col, items[0].glyph.width, cols), items[1..], cols);
    }
  }

  lemma NextFits(col: nat, width: nat, cols: nat)
    requires col <= cols && 2 <= cols && width <= 2
    ensures NextColumn(col, width, cols) <= cols
  {
  }

  lemma JoinSpaces(s: seq<seq<int>>, j: nat)
    requires s != []
    ensures JoinLines(Extended(s, Spaces(j))) == JoinLines(s) + Spaces(j)
  {
    var n := |s| - 1;
    assert Extended(s, Spaces(j))[..n] == s[..n];
    if n > 0 {
      Assoc(JoinLines(s[..n]) + [NEWLINE], s[n], Spaces(j));
    }
  }

  lemma CodesEnd(x: seq<seq<Item>>, s: seq<seq<Item>>, cols: nat, j: nat)
    requires LinesOfItems(s) && s != [] && 2 <= cols && EndInText(s) && |x| == |s|
    requires CodesEach(x) == Extended(SpreadEach(s, cols), Spaces(j))
    ensures EndInText(x)
  {
    hide Spread;
    forall i | 0 <= i < |x| - 1 ensures EndsInText(x[i]) {
      assert CodePoints(x[i]) == CodesEach(x)[i] == Spread(0, s[i], cols);
      LineIsValid(s[i]);
      SpreadEnd(0, s[i], cols);
      assert EndsInText(s[i]);
    }
  }

  /** A change of columns with the cursor at the end of the typed lines. */
  lemma ReflowedPage(r: Ring, row: nat, s: seq<seq<Item>>, newCols: nat, newRows: nat, newTotal: nat, style: Style,
                     newStyle: Style)
    requires Valid(r) && row < r.rows && 2 <= r.cols && 0 < |r.view| && 2 <= newCols && 1 <= newRows <= newTotal
    requires LinesOfItems(s) && s != [] && EndInText(s) && |TypeLines(s, r.cols, |r.view|, style).full| < |r.view|
    requires var p := TypeLines(s, r.cols, |r.view|, style);
             && LinesOn(r, row, p.full, CurrentLine(p, r.cols, |r.view|, style), style)
             && NoBlankWraps(p.full)
             && |CurrentLine(p, r.cols, |r.view|, style).cells[EndCursor(p.tail, r.cols)].text| <= 1
             && var l := ToCursor(r, row, EndCursor(p.tail, r.cols));
             && NoGaps(l, newCols) && FitsRing(l, newCols, newTotal, newStyle)
    ensures var col := EndCursor(TypeLines(s, r.cols, |r.view|, style).tail, r.cols);
            TranscriptText(Reflowed(r, newCols, newRows, newTotal, row, col, newStyle).ring) == TranscriptText(r)
  {
    hide LinesOn, TypeLines, RowCells, Stale, EndsInText, NoGaps, PageText, Trim, JoinLines, ToCursor, NoBlankWraps,
         LineOfItems, TranscriptText, Reflowed, EndCursor, Valid, Spread, PageCodes, CurrentLine;
    var cols, total := r.cols, |r.view|;
    var p := TypeLines(s, cols, total, style);
    var line := CurrentLine(p, cols, total, style);
    TypeLinesCodes(s, cols, total, style);
    var x, j := PageToCursor(r, row, p, style);
    ReadPage(r, row, p, style);
    TypeLinesContent(s, cols, total, style);
    BlankRowsBelow(r, row, p.full, line, style);
    ReflowedText(r, newCols, newRows, newTotal, row, EndCursor(p.tail, cols), newStyle);
    CodesEnd(x, s, cols, j);
    InitOfLines(x, newCols);
    TypedWithoutGaps(x, newCols, newTotal, newStyle);
    JoinSpaces(SpreadEach(s, cols), j);
    TrimAppend(JoinLines(SpreadEach(s, cols)), Spaces(j));
  }

  lemma InitOfLines(x: seq<seq<Item>>, cols: nat)
    requires LinesOfItems(x + [[]]) && 2 <= cols && NoGaps(x + [[]], cols)
    ensures LinesOfItems(x) && NoGaps(x, cols)
  {
    assert forall i :: 0 <= i < |x| ==> (x + [[]])[i] == x[i];
    NoGapsInEmpty(x, cols);
  }

  // ----- The terminal -----

  lemma ResizedMain(t: Term, newCols: nat, newRows: nat)
    requires Inv(t) && !t.onAlt && CanResizeTo(t, newCols, newRows) && newCols != t.cols
    ensures Valid(t.main) && 2 <= newCols && 1 <= newRows <= |t.main.view|
    ensures ResizeTerminal(t, newCols, newRows).main
            == Reflowed(t.main, newCols, newRows, |t.main.view|, t.row, t.col, t.Pen()).ring
  {
    hide Valid, Reflowed, DefaultTabStops;
  }

  /** The conditions under which a change of columns keeps the transcript of printed lines. */
  predicate KeepsTranscript(t: Term, newCols: nat)
    requires Inv(t) && 2 <= newCols
  {
    hide LinesOfItems, NoGaps, FitsRing, Valid;
    InvParts(t);
    && NoBlankWraps(AllLines(t.main))
    && !t.onAlt && OneCodePoint(t.main, t.row, t.col)
    && NoGaps(ToCursor(t.main, t.row, t.col), newCols)
    && FitsRing(ToCursor(t.main, t.row, t.col), newCols, |t.main.view|, t.Pen())
  }

  /** The character at a position has no combining code points. */
  predicate OneCodePoint(r: Ring, row: nat, col: nat)
    requires Valid(r) && row < r.rows && col < r.cols
  {
    |r.view[row].value.cells[col].text| <= 1
  }

  /**
    After printing lines that fit, a change of columns leaves the transcript the same, as long as no wrapped row is
    blank, the cursor is not on a character with combining ones, no double-width character of the new rows leaves a
    column blank, and the new rows down to the one after the cursor fit the ring.
   */
  lemma ResizeAfterPrinting(lines: seq<seq<Glyph>>, cols: nat, rows: nat, total: nat, newCols: nat, newRows: nat)
    requires 2 <= cols && 2 <= rows <= total && lines != [] && AreLines(lines) && NoTrailingSpace(lines)
    requires RowsNeeded(lines, cols) <= total && newCols != cols && 2 <= newCols && 2 <= newRows <= total
    ensures var t := Initial(cols, rows, total);
            && LegalRun(t, LinesOps(lines)) && CanResizeTo(Run(t, LinesOps(lines)), newCols, newRows)
            && var t1 := Run(t, LinesOps(lines));
            && (KeepsTranscript(t1, newCols) ==>
                  TranscriptText(ResizeTerminal(t1, newCols, newRows).main) == TranscriptText(t1.main))
  {
    hide Inv, Initial, Run, LegalRun, TranscriptText, LinesOps, PrintedPage, PrintingOn, AreLines, RowsNeeded,
         ResizeTerminal, KeepsTranscript, NoTrailingSpace, PageOk;
    InitialPrinting(cols, rows, total);
    var t := Initial(cols, rows, total);
    PrintLines(t, cols, total, lines);
    PrintedSize(lines, cols, total);
    PrintedThenResized(Run(t, LinesOps(lines)), lines, cols, total, newCols, newRows);
  }

  lemma PrintedThenResized(t: Term, lines: seq<seq<Glyph>>, cols: nat, total: nat, newCols: nat, newRows: nat)
    requires AreLines(lines) && lines != [] && NoTrailingSpace(lines) && 2 <= cols && 0 < total
    requires PrintingOn(t, cols, total, PrintedPage(lines, cols, total))
    requires |PrintedPage(lines, cols, total).full| < total
    requires newCols != cols && 2 <= newCols && 2 <= newRows <= total
    ensures CanResizeTo(t, newCols, newRows)
    ensures KeepsTranscript(t, newCols) ==>
              TranscriptText(ResizeTerminal(t, newCols, newRows).main) == TranscriptText(t.main)
  {
    hide Inv, TranscriptText, PrintedPage, PrintingOn, LinesOn, PageOk, AreLines, ResizeTerminal, EndInText,
         KeepsTranscript, Reflowed, TypeLines, NoTrailingSpace, LinesOfItems, Valid, CurrentLine;
    PrintedRows(t, cols, total, PrintedPage(lines, cols, total));
    ResizesTo(t, cols, total, PrintedPage(lines, cols, total), newCols, newRows);
    LinesEndInText(lines);
    PrintedIsTyped(lines, cols, total);
    if KeepsTranscript(t, newCols) {
      ResizedMain(t, newCols, newRows);
      ReflowedTerm(t, ItemLines(lines), newCols, newRows);
    }
  }

  lemma LinesEndInText(lines: seq<seq<Glyph>>)
    requires NoTrailingSpace(lines)
    ensures EndInText(ItemLines(lines))
  {
    forall i | 0 <= i < |lines| ensures EndsInText(ItemLines(lines)[i]) {
      assert ItemLines(lines)[i] == ItemsOfLine(lines[i]);
    }
  }

  lemma PrintedIsTyped(lines: seq<seq<Glyph>>, cols: nat, total: nat)
    requires AreLines(lines) && 2 <= cols && 0 < total
    ensures LinesOfItems(ItemLines(lines))
    ensures PrintedPage(lines, cols, total) == TypeLines(ItemLines(lines), cols, total, NORMAL)
  {
    ItemLinesOk(lines);
  }

  lemma ResizesTo(t: Term, cols: nat, total: nat, p: Page, newCols: nat, newRows: nat)
    requires PrintingOn(t, cols, total, p) && 2 <= newCols && 2 <= newRows <= total
    ensures CanResizeTo(t, newCols, newRows) && !t.onAlt && t.cols == cols && |t.main.view| == total
    ensures t.col == EndCursor(p.tail, cols)
  {
    hide LinesOn, Valid;
  }

  lemma ReflowedTerm(t: Term, s: seq<seq<Item>>, newCols: nat, newRows: nat)
    requires Inv(t) && 2 <= t.cols && 0 < |t.main.view| && 2 <= newCols && 1 <= newRows <= |t.main.view|
    requires LinesOfItems(s) && s != [] && EndInText(s)
             && |TypeLines(s, t.cols, |t.main.view|, NORMAL).full| < |t.main.view|
    requires PrintingOn(t, t.cols, |t.main.view|, TypeLines(s, t.cols, |t.main.view|, NORMAL))
    requires KeepsTranscript(t, newCols)
    ensures Valid(t.main)
    ensures TranscriptText(Reflowed(t.main, newCols, newRows, |t.main.view|, t.row, t.col, t.Pen()).ring)
            == TranscriptText(t.main)
  {
    hide Inv, LinesOn, TranscriptText, TypeLines, EndInText, LinesOfItems, NoGaps, FitsRing, Reflowed, NoBlankWraps,
         ToCursor,
         PageOk, CurrentLine, Valid, PrintingOn;
    var p := TypeLines(s, t.cols, |t.main.view|, NORMAL);
    PrintedRows(t, t.cols, |t.main.view|, p);
    ColumnAtEnd(t, p);
    LineHere(t.main, t.row, p.full, CurrentLine(p, t.cols, |t.main.view|, NORMAL), NORMAL);
    FullRows(t.main, t.row, p.full, CurrentLine(p, t.cols, |t.main.view|, NORMAL));
    PrefixNoBlankWraps(p.full, AllLines(t.main));
    ReflowedPage(t.main, t.row, s, newCols, newRows, |t.main.view|, NORMAL, t.Pen());
  }

  lemma ColumnAtEnd(t: Term, p: Page)
    requires PrintingOn(t, t.cols, |t.main.view|, p) && 2 <= t.cols
    ensures t.col == EndCursor(p.tail, t.cols) && 0 <= t.col < t.cols == t.main.cols
  {
    hide LinesOn, Valid;
  }

  lemma FullRows(r: Ring, row: nat, full: seq<Line>, line: Line)
    requires LinesOn(r, row, full, line, NORMAL) && |full| < |r.view|
    ensures full <= AllLines(r)
  {
    hide AllLines, Window;
    FitsWindow(full, line, |r.view|);
  }
}
