/** Changing the number of columns types the logical lines of the old rows again. */
module Retyping {
  import opened Wrappers
  import opened Basics
  import opened TerminalRows
  import opened TerminalRing
  import opened FastResize
  import opened Reflow
  import opened ReflowText
  import opened Typing
  import opened Pages

  // ----- Typing on a page of rows -----

  /** The rows that have been left, and the code points on the current one. */
  datatype Page = Page(full: seq<Line>, tail: seq<Item>)

  predicate PageOk(p: Page, cols: nat) {
    FitsRow(p.tail, cols)
  }

  function CurrentLine(p: Page, cols: nat, total: nat, style: Style): (line: Line)
    requires PageOk(p, cols) && 0 < total
    ensures LineOk(Some(line), cols)
  {
    Line(RowCells(p.tail, cols, style), Stale(p.full, total))
  }

  /** All rows of a page. */
  function Rows(p: Page, cols: nat, total: nat, style: Style): (s: seq<Line>)
    requires PageOk(p, cols) && 0 < total
    ensures |s| == |p.full| + 1
  {
    p.full + [CurrentLine(p, cols, total, style)]
  }

  /** A code point that may come next: a combining one needs a character before it. */
  predicate MayFollow(p: Page, item: Item) {
    ValidGlyph(item.glyph) && (item.glyph.width == 0 ==> p.tail != [])
  }

  /** A character that does not fit begins a new row, and the row before it counts as wrapped. */
  function Type(p: Page, item: Item, cols: nat, style: Style): (p': Page)
    requires PageOk(p, cols) && MayFollow(p, item) && 2 <= cols
    ensures PageOk(p', cols) && p'.tail != []
  {
    TailWidth(p.tail, item);
    if Width(p.tail) + item.glyph.width <= cols then Page(p.full, p.tail + [item])
    else Page(p.full + [Line(RowCells(p.tail, cols, style), true)], [item])
  }

  lemma TailWidth(tail: seq<Item>, item: Item)
    ensures Width(tail + [item]) == Width(tail) + item.glyph.width && Width([item]) == item.glyph.width
  {
    WidthConcat(tail, [item]);
    assert [item][..0] == [];
  }

  predicate AllMayFollow(p: Page, items: seq<Item>) {
    && (forall i :: 0 <= i < |items| ==> ValidGlyph(items[i].glyph))
    && (items != [] && items[0].glyph.width == 0 ==> p.tail != [])
  }

  function TypeAll(p: Page, items: seq<Item>, cols: nat, style: Style): (p': Page)
    requires PageOk(p, cols) && AllMayFollow(p, items) && 2 <= cols
    ensures PageOk(p', cols)
    decreases |items|
  {
    if items == [] then p else TypeAll(Type(p, items[0], cols, style), items[1..], cols, style)
  }

  function EndRow(p: Page, cols: nat, total: nat, style: Style): (p': Page)
    requires PageOk(p, cols) && 0 < total
    ensures PageOk(p', cols) && p'.tail == []
  {
    Page(p.full + [CurrentLine(p, cols, total, style)], [])
  }

  function EndRows(p: Page, n: nat, cols: nat, total: nat, style: Style): (p': Page)
    requires PageOk(p, cols) && 0 < total
    ensures PageOk(p', cols)
    decreases n
  {
    if n == 0 then p else EndRow(EndRows(p, n - 1, cols, total, style), cols, total, style)
  }

  // ----- The output of the reflow is such a page -----

  /** The rows that have fallen off a ring. */
  function Dropped(full: seq<Line>, total: nat): seq<Line>
    requires 0 < total
  {
    full[..Max(0, |full| + 1 - total)]
  }

  /** The output holds the rows full and the current one. */
  predicate Holds(o: Output, full: seq<Line>, line: Line, style: Style) {
    && Ready(o) && 0 < |o.ring.view| && LinesOn(o.ring, o.row, full, line, style)
    && o.lost == Dropped(full, |o.ring.view|)
  }

  predicate SameShape(o: Output, o': Output) {
    o'.ring.cols == o.ring.cols && o'.ring.rows == o.ring.rows && |o'.ring.view| == |o.ring.view|
  }

  lemma ReadyParts(o: Output)
    requires Ready(o)
    ensures Valid(o.ring) && o.row < o.ring.rows && o.col <= o.ring.cols && 2 <= o.ring.cols && 0 < |o.ring.view|
  {
  }

  lemma NewLineHolds(o: Output, full: seq<Line>, line: Line, style: Style, moveCursor: bool)
    requires Holds(o, full, line, style)
    ensures var cols, total := o.ring.cols, |o.ring.view|; var o' := NewLine(o, style, moveCursor);
            && Holds(o', full + [line], BlankLine(cols, style, Stale(full + [line], total)), style)
            && SameShape(o, o') && o'.col == 0
  {
    hide Ready, AllLines, Scroll, Window, Stale, Valid, Spare, BlankLine;
    ReadyParts(o);
    LineEnded(o.ring, o.row, full, line, style);
    if o.row == o.ring.rows - 1 {
      LostWhenFull(o, full, line, style);
    } else {
      NotFullYet(o.ring, o.row, full, line, style);
    }
  }

  lemma NotFullYet(r: Ring, row: nat, full: seq<Line>, line: Line, style: Style)
    requires LinesOn(r, row, full, line, style) && row < r.rows - 1
    ensures |full| + 1 < |r.view|
  {
  }

  lemma LostWhenFull(o: Output, full: seq<Line>, line: Line, style: Style)
    requires Holds(o, full, line, style) && o.row == o.ring.rows - 1
    ensures Valid(o.ring) && o.lost + LostRows(o.ring) == Dropped(full + [line], |o.ring.view|)
  {
    hide Ready, Stale, AllLines, Window, Valid, Spare;
    ReadyParts(o);
    var total := |o.ring.view|;
    FullOrNot(o.ring, o.row, full, line, style);
    if o.ring.active == total - o.ring.rows {
      FirstOfWindow(full, line, total);
      assert LostRows(o.ring) == [AllLines(o.ring)[0]];
    }
  }

  lemma FullOrNot(r: Ring, row: nat, full: seq<Line>, line: Line, style: Style)
    requires LinesOn(r, row, full, line, style) && row == r.rows - 1
    ensures r.active == |r.view| - r.rows <==> |r.view| <= |full| + 1
    ensures r.active < |r.view| - r.rows ==> LostRows(r) == []
    ensures r.active == |r.view| - r.rows ==> LostRows(r) == [AllLines(r)[0]]
  {
  }

  lemma FirstOfWindow(full: seq<Line>, line: Line, total: nat)
    requires 0 < total <= |full| + 1
    ensures Window(full, line, total)[0] == (full + [line])[|full| + 1 - total]
    ensures full[..|full| + 1 - total] + [(full + [line])[|full| + 1 - total]] == (full + [line])[..|full| + 2 - total]
  {
  }

  /** The output is a page. */
  predicate Typed(o: Output, p: Page, style: Style) {
    && Ready(o) && 0 < |o.ring.view| && PageOk(p, o.ring.cols) && o.col == Width(p.tail)
    && Holds(o, p.full, CurrentLine(p, o.ring.cols, |o.ring.view|, style), style)
  }

  lemma BlankRow(cols: nat, style: Style, wrap: bool)
    ensures FitsRow([], cols) && Line(RowCells([], cols, style), wrap) == BlankLine(cols, style, wrap)
    ensures Width([]) == 0
  {
  }

  lemma NewLineTyped(o: Output, p: Page, style: Style, moveCursor: bool)
    requires Typed(o, p, style)
    ensures var cols, total := o.ring.cols, |o.ring.view|; var o' := NewLine(o, style, moveCursor);
            Typed(o', EndRow(p, cols, total, style), style) && SameShape(o, o')
  {
    hide Ready, LinesOn, Stale, RowCells, FitsRow, NewLine;
    var cols, total := o.ring.cols, |o.ring.view|;
    var line := CurrentLine(p, cols, total, style);
    NewLineHolds(o, p.full, line, style, moveCursor);
    BlankRow(cols, style, Stale(p.full + [line], total));
  }

  lemma {:induction false} NewLinesTyped(o: Output, p: Page, n: nat, style: Style)
    requires Typed(o, p, style)
    ensures var cols, total := o.ring.cols, |o.ring.view|; var o' := NewLines(o, n, style);
            Typed(o', EndRows(p, n, cols, total, style), style) && SameShape(o, o')
    decreases n
  {
    hide Typed, EndRow, NewLine, Ready, PageOk;
    TypedParts(o, p, style);
    if n > 0 {
      NewLinesTyped(o, p, n - 1, style);
      var o1, p1 := NewLines(o, n - 1, style), EndRows(p, n - 1, o.ring.cols, |o.ring.view|, style);
      NewLineTyped(o1, p1, style, false);
    }
  }

  lemma TypedParts(o: Output, p: Page, style: Style)
    requires Typed(o, p, style)
    ensures Ready(o) && 0 < |o.ring.view| && PageOk(p, o.ring.cols) && o.col == Width(p.tail) && 2 <= o.ring.cols
  {
  }

  /** The row is marked as wrapped and left. */
  lemma WrapTyped(o: Output, p: Page, style: Style)
    requires Typed(o, p, style)
    ensures Valid(o.ring) && o.row < o.ring.rows && Ready(o.(ring := SetLineWrap(o.ring, o.row, true)))
    ensures var o1 := NewLine(o.(ring := SetLineWrap(o.ring, o.row, true)), style, true);
            var full := p.full + [Line(RowCells(p.tail, o.ring.cols, style), true)];
            Typed(o1, Page(full, []), style) && SameShape(o, o1)
  {
    hide LinesOn, Stale, RowCells, FitsRow, NewLine;
    var cols, total := o.ring.cols, |o.ring.view|;
    var line := CurrentLine(p, cols, total, style);
    LineHere(o.ring, o.row, p.full, line, style);
    var o0 := o.(ring := SetLineWrap(o.ring, o.row, true));
    LineWritten(o.ring, o.row, p.full, line, line.(wrap := true), style);
    assert Ready(o0);
    NewLineHolds(o0, p.full, line.(wrap := true), style, true);
    BlankRow(cols, style, Stale(p.full + [line.(wrap := true)], total));
  }

  lemma PlaceTyped(o: Output, p: Page, item: Item, style: Style)
    requires Typed(o, p, style) && MayFollow(p, item) && Width(p.tail) + item.glyph.width <= o.ring.cols
    ensures CanPlace(o, item.glyph)
    ensures var o' := Place(o, item); Typed(o', Page(p.full, p.tail + [item]), style) && SameShape(o, o')
  {
    hide Ready, LinesOn, Stale, RowCells, Put, Place, Valid;
    ReadyParts(o);
    var cols, total := o.ring.cols, |o.ring.view|;
    var line := CurrentLine(p, cols, total, style);
    TailFits(p, item, cols, style);
    var next := CurrentLine(Page(p.full, p.tail + [item]), cols, total, style);
    LineHere(o.ring, o.row, p.full, line, style);
    LineWritten(o.ring, o.row, p.full, line, next, style);
    Placed(o, line, item);
    var c := if item.glyph.width == 0 then o.col - 1 else o.col;
    assert next == line.(cells := Put(line.cells, c, item.glyph, item.style));
    assert Place(o, item) == o.(ring := WithRow(o.ring, o.row, next), col := o.col + item.glyph.width);
  }

  lemma Placed(o: Output, line: Line, item: Item)
    requires CanPlace(o, item.glyph) && Valid(o.ring) && o.row < o.ring.rows && o.ring.view[o.row] == Some(line)
    ensures var c := if item.glyph.width == 0 then o.col - 1 else o.col;
            && WellFormed(line.cells) && 0 <= c < |line.cells| == o.ring.cols
            && (item.glyph.width == 2 ==> c + 1 < |line.cells|)
            && var line' := line.(cells := Put(line.cells, c, item.glyph, item.style));
            && LineOk(Some(line'), o.ring.cols)
            && Place(o, item) == o.(ring := WithRow(o.ring, o.row, line'), col := o.col + item.glyph.width)
            && Ready(Place(o, item))
  {
    hide Put;
  }

  lemma TailFits(p: Page, item: Item, cols: nat, style: Style)
    requires PageOk(p, cols) && MayFollow(p, item) && Width(p.tail) + item.glyph.width <= cols
    ensures FitsRow(p.tail + [item], cols) && Width(p.tail + [item]) == Width(p.tail) + item.glyph.width
    ensures 0 <= Width(p.tail) && (item.glyph.width == 0 ==> 0 < Width(p.tail))
    ensures RowCells(p.tail + [item], cols, style)
            == Put(RowCells(p.tail, cols, style),
                   if item.glyph.width == 0 then Width(p.tail) - 1 else Width(p.tail), item.glyph, item.style)
  {
    hide Put;
    TailWidth(p.tail, item);
    var items := p.tail + [item];
    assert items[..|items| - 1] == p.tail;
    FitsPrefix(items, cols);
  }

  lemma FeedTyped(o: Output, p: Page, item: Item, here: bool, style: Style)
    requires Typed(o, p, style) && MayFollow(p, item)
    ensures item.glyph.width == 0 ==> 0 < o.col
    ensures var o' := Feed(o, item, here, style);
            Typed(o', Type(p, item, o.ring.cols, style), style) && SameShape(o, o')
  {
    hide NewLine, Place, LinesOn, RowCells, Stale, FitsRow, Width, Valid;
    TypedParts(o, p, style);
    var cols := o.ring.cols;
    TailWidth(p.tail, item);
    WidthOfNothing();
    if item.glyph.width == 0 {
      TailFits(p, item, cols, style);
    }
    if Width(p.tail) + item.glyph.width > cols {
      WrapTyped(o, p, style);
      var o1 := NewLine(o.(ring := SetLineWrap(o.ring, o.row, true)), style, true);
      var p1 := Page(p.full + [Line(RowCells(p.tail, cols, style), true)], []);
      PlaceTyped(o1, p1, item, style);
      assert [] + [item] == [item];
      CursorPlaced(Place(o1, item), p1.(tail := [item]), o1, style);
    } else {
      PlaceTyped(o, p, item, style);
      if item.glyph.width > 0 {
        CursorPlaced(Place(o, item), p.(tail := p.tail + [item]), o, style);
      }
    }
  }

  /** Recording the cursor does not change the page. */
  lemma CursorPlaced(o: Output, p: Page, o1: Output, style: Style)
    requires Typed(o, p, style) && Ready(o1) && SameShape(o, o1) && o1.col < o1.ring.cols
    ensures Typed(o.(cursorRow := o1.row, cursorCol := o1.col, placed := true), p, style)
  {
    hide LinesOn, Stale, RowCells, FitsRow, Valid, BlankFrom;
  }

  lemma TypeStep(p: Page, items: seq<Item>, cols: nat, style: Style)
    requires PageOk(p, cols) && AllMayFollow(p, items) && 2 <= cols && items != []
    ensures MayFollow(p, items[0]) && AllMayFollow(Type(p, items[0], cols, style), items[1..])
    ensures TypeAll(p, items, cols, style) == TypeAll(Type(p, items[0], cols, style), items[1..], cols, style)
  {
    hide Type;
  }

  lemma {:induction false} TypeConcat(p: Page, a: seq<Item>, b: seq<Item>, cols: nat, style: Style)
    requires PageOk(p, cols) && AllMayFollow(p, a) && 2 <= cols && AllMayFollow(TypeAll(p, a, cols, style), b)
    ensures AllMayFollow(p, a + b)
    ensures TypeAll(p, a + b, cols, style) == TypeAll(TypeAll(p, a, cols, style), b, cols, style)
    decreases |a|
  {
    hide Type, PageOk;
    if a == [] {
      assert a + b == b;
    } else {
      TypeConcat(Type(p, a[0], cols, style), a[1..], b, cols, style);
      assert (a + b)[1..] == a[1..] + b;
    }
  }

  lemma {:induction false} FeedAllTyped(o: Output, p: Page, items: seq<Item>, oldCol: nat, cursorCol: Option<int>,
                                        style: Style)
    requires Typed(o, p, style) && Feedable(o, items) && AllMayFollow(p, items)
    ensures AllMayFollow(p, Cut(items, oldCol, cursorCol))
    ensures var o' := FeedAll(o, items, oldCol, cursorCol, style);
            && Typed(o', TypeAll(p, Cut(items, oldCol, cursorCol), o.ring.cols, style), style) && SameShape(o, o')
    decreases |items|
  {
    hide Typed, Type, Feed, Ready, PageOk;
    TypedParts(o, p, style);
    if items != [] {
      var here, cols := cursorCol == Some(oldCol) && items[0].glyph.width > 0, o.ring.cols;
      FeedTyped(o, p, items[0], here, style);
      var o1, p1 := Feed(o, items[0], here, style), Type(p, items[0], cols, style);
      TypedParts(o1, p1, style);
      if here {
        assert Cut(items, oldCol, cursorCol) == [items[0]] && [items[0]][1..] == [];
        assert TypeAll(p1, [], cols, style) == p1;
      } else {
        FeedAllTyped(o1, p1, items[1..], oldCol + items[0].glyph.width, cursorCol, style);
        var rest := Cut(items[1..], oldCol + items[0].glyph.width, cursorCol);
        assert Cut(items, oldCol, cursorCol) == [items[0]] + rest;
        assert ([items[0]] + rest)[1..] == rest;
      }
    }
  }

  // ----- Logical lines -----

  /** What a row contributes: nothing if it is blank, and up to the character under the cursor if that is on it. */
  function RowPart(line: Line, cursorCol: Option<int>): (s: seq<Item>)
    requires WellFormed(line.cells)
  {
    if cursorCol.None? && IsBlank(line) then [] else Cut(RowItems(line, cursorCol.Some?), 0, cursorCol)
  }

  /** Whether a line ends with a row. */
  predicate EndsLine(line: Line, cursorCol: Option<int>) {
    !line.wrap || (cursorCol.None? && IsBlank(line))
  }

  /** Rows joined into lines; the last line is the one that goes on. */
  function LogicalLines(lines: seq<Line>, n: nat, cursorLine: int, cursorCol: int): (s: seq<seq<Item>>)
    requires n <= |lines| && WellFormedLines(lines)
    ensures s != []
    decreases n
  {
    if n == 0 then [[]]
    else
      var s := LogicalLines(lines, n - 1, cursorLine, cursorCol);
      var c := if n - 1 == cursorLine then Some(cursorCol) else None;
      var s' := s[|s| - 1 := s[|s| - 1] + RowPart(lines[n - 1], c)];
      if EndsLine(lines[n - 1], c) then s' + [[]] else s'
  }

  predicate LineOfItems(items: seq<Item>) {
    (forall i :: 0 <= i < |items| ==> ValidGlyph(items[i].glyph)) && (items != [] ==> items[0].glyph.width > 0)
  }

  predicate LinesOfItems(s: seq<seq<Item>>) {
    forall i :: 0 <= i < |s| ==> LineOfItems(s[i])
  }

  /** Lines typed one after the other. */
  function TypeLines(s: seq<seq<Item>>, cols: nat, total: nat, style: Style): (p: Page)
    requires LinesOfItems(s) && 2 <= cols && 0 < total
    ensures PageOk(p, cols)
  {
    if s == [] then Page([], [])
    else
      var last := s[|s| - 1];
      if |s| == 1 then TypeAll(Page([], []), last, cols, style)
      else TypeAll(EndRow(TypeLines(s[..|s| - 1], cols, total, style), cols, total, style), last, cols, style)
  }

  lemma {:induction false} CutIsLine(items: seq<Item>, oldCol: nat, cursorCol: Option<int>)
    requires LineOfItems(items)
    ensures LineOfItems(Cut(items, oldCol, cursorCol))
  {
    CutValid(items, oldCol, cursorCol);
  }

  lemma {:induction false} CutValid(items: seq<Item>, oldCol: nat, cursorCol: Option<int>)
    requires forall i :: 0 <= i < |items| ==> ValidGlyph(items[i].glyph)
    ensures Cut(items, oldCol, cursorCol) <= items
    decreases |items|
  {
    if items != [] {
      CutValid(items[1..], oldCol + items[0].glyph.width, cursorCol);
    }
  }

  lemma PartIsLine(line: Line, cursorCol: Option<int>)
    requires WellFormed(line.cells)
    ensures LineOfItems(RowPart(line, cursorCol))
  {
    hide RowItems, Cut;
    RowItemsLine(line, cursorCol.Some?);
    CutIsLine(RowItems(line, cursorCol.Some?), 0, cursorCol);
  }

  lemma RowItemsLine(line: Line, atCursor: bool)
    requires WellFormed(line.cells)
    ensures LineOfItems(RowItems(line, atCursor))
  {
  }

  lemma {:induction false} LogicalAreLines(lines: seq<Line>, n: nat, cursorLine: int, cursorCol: int)
    requires n <= |lines| && WellFormedLines(lines)
    ensures LinesOfItems(LogicalLines(lines, n, cursorLine, cursorCol))
    ensures LogicalLines(lines, n, cursorLine, cursorCol) != []
    decreases n
  {
    hide RowPart;
    if n > 0 {
      LogicalAreLines(lines, n - 1, cursorLine, cursorCol);
      var c := if n - 1 == cursorLine then Some(cursorCol) else None;
      PartIsLine(lines[n - 1], c);
    }
  }

  lemma TypeOneLine(line: seq<Item>, cols: nat, total: nat, style: Style)
    requires LineOfItems(line) && 2 <= cols && 0 < total
    ensures TypeLines([line], cols, total, style) == TypeAll(Page([], []), line, cols, style)
  {
  }

  lemma TypeMoreLines(s: seq<seq<Item>>, line: seq<Item>, cols: nat, total: nat, style: Style)
    requires LinesOfItems(s) && LineOfItems(line) && s != [] && 2 <= cols && 0 < total
    ensures TypeLines(s + [line], cols, total, style)
            == TypeAll(EndRow(TypeLines(s, cols, total, style), cols, total, style), line, cols, style)
  {
    assert (s + [line])[..|s|] == s;
  }

  /** A line that goes on. */
  lemma TypeLonger(s: seq<seq<Item>>, items: seq<Item>, cols: nat, total: nat, style: Style)
    requires LinesOfItems(s) && s != [] && LineOfItems(items) && 2 <= cols && 0 < total
    ensures var s' := s[|s| - 1 := s[|s| - 1] + items];
            && LinesOfItems(s')
            && TypeLines(s', cols, total, style) == TypeAll(TypeLines(s, cols, total, style), items, cols, style)
  {
    hide TypeAll, EndRow;
    var n := |s| - 1;
    var s' := s[n := s[n] + items];
    assert s'[..n] == s[..n];
    if n == 0 {
      TypeConcat(Page([], []), s[0], items, cols, style);
    } else {
      TypeConcat(EndRow(TypeLines(s[..n], cols, total, style), cols, total, style), s[n], items, cols, style);
    }
  }

  /** An empty line at the end. */
  lemma TypeEmptyLine(s: seq<seq<Item>>, cols: nat, total: nat, style: Style)
    requires LinesOfItems(s) && s != [] && 2 <= cols && 0 < total
    ensures LinesOfItems(s + [[]])
    ensures TypeLines(s + [[]], cols, total, style) == EndRow(TypeLines(s, cols, total, style), cols, total, style)
  {
    hide EndRow;
    TypeMoreLines(s, [], cols, total, style);
  }

  // ----- All rows -----

  lemma CopyLineTyped(q: Progress, p: Page, line: Line, cursorCol: Option<int>, last: bool, style: Style)
    requires Typed(q.out, p, style) && WellFormed(line.cells) && (cursorCol.Some? ==> !q.out.placed)
    requires !(cursorCol.None? && IsBlank(line))
    ensures LineOfItems(RowPart(line, cursorCol)) && 0 < |q.out.ring.view| && 2 <= q.out.ring.cols
    ensures var cols, total := q.out.ring.cols, |q.out.ring.view|;
            var p2 := TypeAll(EndRows(p, q.skipped, cols, total, style), RowPart(line, cursorCol), cols, style);
            var q' := CopyLine(q, line, cursorCol, last, style);
            && Typed(q'.out, if !last && !line.wrap then EndRow(p2, cols, total, style) else p2, style)
            && q'.skipped == 0 && SameShape(q.out, q'.out)
  {
    hide Typed, Ready, NewLine, NewLines, FeedAll, TypeAll, EndRow, EndRows, RowItems, Cut, PageOk;
    TypedParts(q.out, p, style);
    PartIsLine(line, cursorCol);
    var cols, total := q.out.ring.cols, |q.out.ring.view|;
    NewLinesTyped(q.out, p, q.skipped, style);
    var o1, p1 := NewLines(q.out, q.skipped, style), EndRows(p, q.skipped, cols, total, style);
    var items := RowItems(line, cursorCol.Some?);
    RowItemsLine(line, cursorCol.Some?);
    FeedAllTyped(o1, p1, items, 0, cursorCol, style);
    var o2, p2 := FeedAll(o1, items, 0, cursorCol, style), TypeAll(p1, RowPart(line, cursorCol), cols, style);
    NewLineTyped(o2, p2, style, true);
  }

  predicate StartsAs(q: Progress, cols: nat, total: nat, style: Style) {
    && 0 < total && 2 <= cols && q.out.ring.cols == cols && |q.out.ring.view| == total && !q.out.placed
    && q.skipped == 0
    && Typed(q.out, Page([], []), style)
  }

  /** After n rows the output is a page, and with the pending blank rows the page of the logical lines. */
  lemma {:induction false} CopyLinesTyped(q: Progress, lines: seq<Line>, n: nat, cursorLine: int, cursorCol: int,
                                          cols: nat, total: nat, style: Style)
    returns (p: Page, k: nat)
    requires StartsAs(q, cols, total, style) && n <= |lines| && WellFormedLines(lines) && Ready(q.out)
    ensures var q' := CopyLines(q, lines, n, cursorLine, cursorCol, style);
            && Typed(q'.out, p, style) && q'.out.ring.cols == cols && |q'.out.ring.view| == total
            && (n < |lines| ==> k == q'.skipped)
    ensures PageOk(p, cols) && LinesOfItems(LogicalLines(lines, n, cursorLine, cursorCol))
    ensures EndRows(p, k, cols, total, style)
            == TypeLines(LogicalLines(lines, n, cursorLine, cursorCol), cols, total, style)
    decreases n
  {
    hide Typed, Ready, CopyLine, TypeAll, EndRow, RowPart, PageOk, EndRows, TypeLines, IsBlank;
    LogicalAreLines(lines, n, cursorLine, cursorCol);
    if n == 0 {
      p, k := Page([], []), 0;
      TypedParts(q.out, p, style);
      NoRowsEnded(p, cols, total, style);
      TypeNothing(cols, total, style);
    } else {
      p, k := CopyLinesTyped(q, lines, n - 1, cursorLine, cursorCol, cols, total, style);
      var q1 := CopyLines(q, lines, n - 1, cursorLine, cursorCol, style);
      var c, last, line := if n - 1 == cursorLine then Some(cursorCol) else None, n == |lines|, lines[n - 1];
      var s := LogicalLines(lines, n - 1, cursorLine, cursorCol);
      LogicalAreLines(lines, n - 1, cursorLine, cursorCol);
      if c.Some? {
        NotPlacedBefore(q, lines, n - 1, cursorLine, cursorCol, style);
      }
      PartIsLine(line, c);
      if c.None? && IsBlank(line) {
        SkippedRow(q1, line, last, style);
        assert s[|s| - 1 := s[|s| - 1] + RowPart(line, c)] == s by { NoPart(line); }
        TypeEmptyLine(s, cols, total, style);
        OneMoreEnded(p, k, cols, total, style);
        k := k + 1;
      } else {
        CopyLineTyped(q1, p, line, c, last, style);
        TypeLonger(s, RowPart(line, c), cols, total, style);
        var s' := s[|s| - 1 := s[|s| - 1] + RowPart(line, c)];
        p := TypeAll(EndRows(p, k, cols, total, style), RowPart(line, c), cols, style);
        k := 0;
        if !line.wrap {
          TypeEmptyLine(s', cols, total, style);
          if last {
            k := 1;
            OneMoreEnded(p, 0, cols, total, style);
            NoRowsEnded(p, cols, total, style);
          } else {
            p := EndRow(p, cols, total, style);
            NoRowsEnded(p, cols, total, style);
          }
        } else {
          NoRowsEnded(p, cols, total, style);
        }
      }
    }
  }

  lemma NoRowsEnded(p: Page, cols: nat, total: nat, style: Style)
    requires PageOk(p, cols) && 0 < total
    ensures EndRows(p, 0, cols, total, style) == p
  {
  }

  lemma OneMoreEnded(p: Page, n: nat, cols: nat, total: nat, style: Style)
    requires PageOk(p, cols) && 0 < total
    ensures EndRows(p, n + 1, cols, total, style) == EndRow(EndRows(p, n, cols, total, style), cols, total, style)
  {
  }

  lemma TypeNothing(cols: nat, total: nat, style: Style)
    requires 2 <= cols && 0 < total
    ensures TypeLines([[]], cols, total, style) == Page([], [])
  {
  }

  lemma NoPart(line: Line)
    requires WellFormed(line.cells) && IsBlank(line)
    ensures RowPart(line, None) == [] && forall s: seq<Item> :: s + [] == s
  {
  }

  lemma SkippedRow(q: Progress, line: Line, last: bool, style: Style)
    requires Ready(q.out) && WellFormed(line.cells) && IsBlank(line)
    ensures CopyLine(q, line, None, last, style) == q.(skipped := q.skipped + 1)
  {
  }

  lemma StartTyped(newCols: nat, newRows: nat, newTotal: nat, style: Style)
    requires 2 <= newCols && 1 <= newRows <= newTotal
    ensures Typed(Start(newCols, newRows, newTotal, style), Page([], []), style)
  {
    var o := Start(newCols, newRows, newTotal, style);
    BlankRow(newCols, style, false);
    assert AllLines(o.ring) == [BlankLine(newCols, style, false)] + Blanks(newCols, newRows - 1, style);
    assert Window([], BlankLine(newCols, style, false), newTotal) == [BlankLine(newCols, style, false)];
    assert Stale([], newTotal) == false;
  }

  /** The rows that fell off and those of the ring are the rows of the page and blank ones. */
  lemma WholePage(o: Output, p: Page, style: Style)
    requires Typed(o, p, style)
    ensures Valid(o.ring) && 0 < |o.ring.view| && o.row < o.ring.rows
    ensures var cols := o.ring.cols;
            o.lost + AllLines(o.ring)
              == Rows(p, cols, |o.ring.view|, style) + Blanks(cols, o.ring.rows - 1 - o.row, style)
  {
    hide AllLines, RowCells, Stale, Valid, Spare, BlankFrom;
    ReadyParts(o);
    var total, line := |o.ring.view|, CurrentLine(p, o.ring.cols, |o.ring.view|, style);
    DroppedAndKept(p.full, line, total);
    Assoc(o.lost, Window(p.full, line, total), Blanks(o.ring.cols, o.ring.rows - 1 - o.row, style));
  }

  lemma DroppedAndKept(full: seq<Line>, line: Line, total: nat)
    requires 0 < total
    ensures Dropped(full, total) + Window(full, line, total) == full + [line]
  {
  }

  predicate BlankRows(s: seq<Line>, from: nat) {
    forall i :: from <= i < |s| ==> BlankFrom(s[i].cells, 0)
  }

  /** The same rows, except for blank ones at the end. */
  ghost predicate SameButBlank(a: seq<Line>, b: seq<Line>) {
    exists m: nat :: m <= |a| && m <= |b| && a[..m] == b[..m] && BlankRows(a, m) && BlankRows(b, m)
  }

  lemma {:induction false} EndedRows(p: Page, n: nat, cols: nat, total: nat, style: Style)
    requires PageOk(p, cols) && 0 < total
    ensures var a, b := Rows(p, cols, total, style), Rows(EndRows(p, n, cols, total, style), cols, total, style);
            |a| <= |b| && b[..|a|] == a && BlankRows(b, |a|)
    decreases n
  {
    hide RowCells, Stale, PageOk;
    if n > 0 {
      EndedRows(p, n - 1, cols, total, style);
      var p1 := EndRows(p, n - 1, cols, total, style);
      var b1, b := Rows(p1, cols, total, style), Rows(EndRows(p, n, cols, total, style), cols, total, style);
      assert b[..|b1|] == b1;
      BlankRow(cols, style, Stale(b1, total));
      BlankCellsBlank(cols, style);
    }
  }

  /**
    After a change of columns the rows that fell off the ring, followed by the history and the screen, are the rows
    that typing the logical lines of the old rows on a page of the new width leaves, up to blank rows at the end.
    This includes which rows count as wrapped.
   */
  lemma ReflowRetypes(r: Ring, newCols: nat, newRows: nat, newTotal: nat, cursorRow: int, cursorCol: int, style: Style)
    requires Valid(r) && 2 <= newCols && 1 <= newRows <= newTotal
    ensures WellFormedLines(AllLines(r))
    ensures var o := Reflowed(r, newCols, newRows, newTotal, cursorRow, cursorCol, style);
            var s := LogicalLines(AllLines(r), |AllLines(r)|, r.active + cursorRow, cursorCol);
            && LinesOfItems(s)
            && SameButBlank(o.lost + AllLines(o.ring),
                            Rows(TypeLines(s, newCols, newTotal, style), newCols, newTotal, style))
  {
    hide AllLines, CopyLines, TypeLines, LogicalLines, RowCells, Stale, Typed, Ready, EndRows, Start, PageOk, BlankFrom;
    LinesWellFormed(r);
    StartTyped(newCols, newRows, newTotal, style);
    var lines, start := AllLines(r), Progress(Start(newCols, newRows, newTotal, style), 0);
    StartSize(newCols, newRows, newTotal, style);
    var p, k := CopyLinesTyped(start, lines, |lines|, r.active + cursorRow, cursorCol, newCols, newTotal, style);
    var o := Reflowed(r, newCols, newRows, newTotal, cursorRow, cursorCol, style);
    WholePage(o, p, style);
    EndedRows(p, k, newCols, newTotal, style);
    var a := o.lost + AllLines(o.ring);
    var m := |Rows(p, newCols, newTotal, style)|;
    BlankLinesBlank(newCols, o.ring.rows - 1 - o.row, style);
    assert a[..m] == Rows(p, newCols, newTotal, style);
  }

  lemma StartSize(newCols: nat, newRows: nat, newTotal: nat, style: Style)
    requires 2 <= newCols && 1 <= newRows <= newTotal
    ensures var o := Start(newCols, newRows, newTotal, style);
            o.ring.cols == newCols && |o.ring.view| == newTotal && !o.placed && Ready(o)
  {
  }

  lemma BlankLinesBlank(cols: nat, n: nat, style: Style)
    ensures BlankRows(Blanks(cols, n, style), 0)
  {
    BlankCellsBlank(cols, style);
  }
}
