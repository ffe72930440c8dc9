/** Reflowing conserves the text: what is not in the new ring is in the rows that fell off it. */
module ReflowText {
  import opened Wrappers
  import opened Basics
  import opened TerminalRows
  import opened TerminalRing
  import opened FastResize
  import opened Reflow

  // ----- Text, without spaces -----

  function NonSpace(s: seq<int>): seq<int> {
    if s == [] then [] else NonSpace(s[..|s| - 1]) + if s[|s| - 1] == SPACE then [] else [s[|s| - 1]]
  }

  function RowText(cells: seq<Cell>): seq<int> {
    if cells == [] then [] else RowText(cells[..|cells| - 1]) + NonSpace(cells[|cells| - 1].text)
  }

  function LinesText(lines: seq<Line>): seq<int> {
    if lines == [] then [] else LinesText(lines[..|lines| - 1]) + RowText(lines[|lines| - 1].cells)
  }

  function ItemsText(items: seq<Item>): seq<int> {
    if items == [] then [] else ItemsText(items[..|items| - 1]) + NonSpace([items[|items| - 1].glyph.codePoint])
  }

  lemma {:induction false} NonSpaceConcat(a: seq<int>, b: seq<int>)
    ensures NonSpace(a + b) == NonSpace(a) + NonSpace(b)
    decreases |b|
  {
    if b == [] {
      assert a + b == a;
    } else {
      NonSpaceConcat(a, b[..|b| - 1]);
      assert (a + b)[..|a + b| - 1] == a + b[..|b| - 1];
    }
  }

  lemma {:induction false} RowTextConcat(a: seq<Cell>, b: seq<Cell>)
    ensures RowText(a + b) == RowText(a) + RowText(b)
    decreases |b|
  {
    hide NonSpace;
    if b == [] {
      assert a + b == a;
    } else {
      RowTextConcat(a, b[..|b| - 1]);
      assert (a + b)[..|a + b| - 1] == a + b[..|b| - 1];
    }
  }

  lemma {:induction false} LinesTextConcat(a: seq<Line>, b: seq<Line>)
    ensures LinesText(a + b) == LinesText(a) + LinesText(b)
    decreases |b|
  {
    hide RowText;
    if b == [] {
      assert a + b == a;
    } else {
      LinesTextConcat(a, b[..|b| - 1]);
      assert (a + b)[..|a + b| - 1] == a + b[..|b| - 1];
      Assoc(LinesText(a), LinesText(b[..|b| - 1]), RowText(b[|b| - 1].cells));
    }
  }

  lemma {:induction false} ItemsTextConcat(a: seq<Item>, b: seq<Item>)
    ensures ItemsText(a + b) == ItemsText(a) + ItemsText(b)
    decreases |b|
  {
    hide NonSpace;
    if b == [] {
      assert a + b == a;
    } else {
      ItemsTextConcat(a, b[..|b| - 1]);
      assert (a + b)[..|a + b| - 1] == a + b[..|b| - 1];
    }
  }

  lemma {:induction false} BlankText(s: seq<int>)
    requires forall i :: 0 <= i < |s| ==> s[i] == SPACE
    ensures NonSpace(s) == []
  {
    if s != [] {
      BlankText(s[..|s| - 1]);
    }
  }

  lemma {:induction false} BlankRowText(cells: seq<Cell>)
    requires BlankFrom(cells, 0)
    ensures RowText(cells) == []
  {
    if cells != [] {
      BlankRowText(cells[..|cells| - 1]);
      BlankText(cells[|cells| - 1].text);
    }
  }

  lemma {:induction false} BlankLineText(line: Line)
    requires IsBlank(line)
    ensures RowText(line.cells) == []
    decreases |line.cells|
  {
    var cells := line.cells;
    if cells != [] {
      BlankLineText(line.(cells := cells[..|cells| - 1]));
      BlankText(cells[|cells| - 1].text);
    }
  }

  lemma {:induction false} BlankLinesText(lines: seq<Line>)
    requires forall i :: 0 <= i < |lines| ==> BlankFrom(lines[i].cells, 0)
    ensures LinesText(lines) == []
  {
    if lines != [] {
      BlankLinesText(lines[..|lines| - 1]);
      BlankRowText(lines[|lines| - 1].cells);
    }
  }

  lemma RowTextPrefix(cells: seq<Cell>, col: nat)
    requires col <= |cells| && BlankFrom(cells, col)
    ensures RowText(cells) == RowText(cells[..col])
  {
    RowTextConcat(cells[..col], cells[col..]);
    assert cells == cells[..col] + cells[col..];
    BlankRowText(cells[col..]);
  }

  // ----- One code point -----

  lemma RowTextAppend(cells: seq<Cell>, n: nat)
    requires n < |cells|
    ensures RowText(cells[..n + 1]) == RowText(cells[..n]) + NonSpace(cells[n].text)
    ensures cells[n].text == [] ==> RowText(cells[..n + 1]) == RowText(cells[..n])
  {
    hide NonSpace;
    assert cells[..n + 1][..n] == cells[..n];
    NonSpaceNothing();
  }

  lemma NonSpaceNothing()
    ensures NonSpace([]) == []
  {
  }

  /** Row r extends the text of cell base, which is followed by nothing but its own right half. */
  lemma ExtendedText(cells: seq<Cell>, r: seq<Cell>, base: nat, end: nat, before: seq<int>, t: seq<int>)
    requires |r| == |cells| && base < end <= |r| && end <= base + 2
    requires r[..base] == cells[..base] && r[base].text == before + t
    requires RowText(cells) == RowText(cells[..base]) + NonSpace(before)
    requires end == base + 2 ==> r[base + 1].text == []
    requires BlankFrom(r, end)
    ensures RowText(r) == RowText(cells) + NonSpace(t)
  {
    hide RowText, NonSpace;
    RowTextPrefix(r, end);
    RowTextAppend(r, base);
    if end == base + 2 {
      RowTextAppend(r, base + 1);
    }
    NonSpaceConcat(before, t);
    Assoc(RowText(cells[..base]), NonSpace(before), NonSpace(t));
  }

  lemma CombiningText(cells: seq<Cell>, col: nat, codePoint: int, style: Style)
    requires WellFormed(cells) && col < |cells| && BlankFrom(cells, col + 1)
    ensures RowText(PutCombining(cells, col, codePoint, style)) == RowText(cells) + NonSpace([codePoint])
  {
    hide RowText, NonSpace;
    var r := PutCombining(cells, col, codePoint, style);
    var base := if IsTail(cells, col) then col - 1 else col;
    RowTextPrefix(cells, col + 1);
    RowTextAppend(cells, base);
    RowTextAppend(cells, col);
    ExtendedText(cells, r, base, col + 1, cells[base].text, [codePoint]);
  }

  lemma BlankTailText(cells: seq<Cell>, col: nat)
    requires col <= |cells| && BlankFrom(cells, col)
    ensures RowText(cells) == RowText(cells[..col]) + NonSpace([])
  {
    hide RowText;
    RowTextPrefix(cells, col);
    NonSpaceNothing();
  }

  lemma NarrowText(cells: seq<Cell>, col: nat, codePoint: int, style: Style)
    requires WellFormed(cells) && col < |cells| && BlankFrom(cells, col)
    ensures RowText(PutNarrow(cells, col, codePoint, style)) == RowText(cells) + NonSpace([codePoint])
  {
    hide RowText, NonSpace;
    BlankTailText(cells, col);
    ExtendedText(cells, PutNarrow(cells, col, codePoint, style), col, col + 1, [], [codePoint]);
  }

  lemma PutWideOnBlank(cells: seq<Cell>, col: nat, codePoint: int, style: Style)
    requires WellFormed(cells) && col + 1 < |cells| && BlankFrom(cells, col)
    ensures PutWide(cells, col, codePoint, style)
            == cells[col := Cell([codePoint], style)][col + 1 := Cell([], cells[col + 1].style)]
  {
    assert [codePoint] + [SPACE][1..] == [codePoint];
  }

  lemma WideText(cells: seq<Cell>, col: nat, codePoint: int, style: Style)
    requires WellFormed(cells) && col + 1 < |cells| && BlankFrom(cells, col)
    ensures RowText(PutWide(cells, col, codePoint, style)) == RowText(cells) + NonSpace([codePoint])
  {
    hide RowText, NonSpace, PutWide;
    PutWideOnBlank(cells, col, codePoint, style);
    BlankTailText(cells, col);
    ExtendedText(cells, PutWide(cells, col, codePoint, style), col, col + 2, [], [codePoint]);
  }

  lemma PutText(cells: seq<Cell>, col: nat, g: Glyph, style: Style)
    requires WellFormed(cells) && ValidGlyph(g) && BlankFrom(cells, col)
    requires col + g.width <= |cells| && (g.width == 0 ==> 0 < col)
    ensures RowText(Put(cells, if g.width == 0 then col - 1 else col, g, style))
            == RowText(cells) + NonSpace([g.codePoint])
  {
    if g.width == 0 {
      CombiningText(cells, col - 1, g.codePoint, style);
    } else if g.width == 1 {
      NarrowText(cells, col, g.codePoint, style);
    } else {
      WideText(cells, col, g.codePoint, style);
    }
  }

  // ----- The output -----

  /** All rows written so far, including those that fell off the ring. */
  function Whole(o: Output): seq<Line>
    requires Ready(o)
  {
    o.lost + AllLines(o.ring)
  }

  function WholeText(o: Output): seq<int>
    requires Ready(o)
  {
    LinesText(Whole(o))
  }

  lemma ScrollWhole(r: Ring, style: Style)
    requires Valid(r)
    ensures var r' := Scroll(r, 0, r.rows, style); var blank := Screen(r')[r.rows - 1];
            && BlankFrom(blank.cells, 0)
            && LostRows(r) + AllLines(r') == AllLines(r) + [blank]
  {
    hide Scroll, History, Screen, BlankCells, LineOk, Last;
    var s, s' := Screen(r), Screen(Scroll(r, 0, r.rows, style));
    ScrollRefinesListScroll(r, 0, r.rows, style);
    var blank := Cleared(if r.rows < |r.view| then r.view[r.rows] else r.view[0], r.cols, style);
    WholeRegion(s, blank);
    assert s' == s[1..] + [blank] && s'[r.rows - 1] == blank;
    ScrolledLists(History(r), s, History(Scroll(r, 0, r.rows, style)), blank, |r.view| - r.rows);
    BlankCellsBlank(r.cols, style);
  }

  lemma WholeRegion(s: seq<Line>, blank: Line)
    requires s != []
    ensures s[..0] + s[1..|s|] + [blank] + s[|s|..] == s[1..] + [blank]
  {
  }

  lemma BlankCellsBlank(cols: nat, style: Style)
    ensures BlankFrom(BlankCells(cols, style), 0)
  {
  }

  lemma ScrolledLists(h: seq<Line>, s: seq<Line>, h': seq<Line>, blank: Line, capacity: nat)
    requires s != [] && |h| <= capacity
    requires h' == Last(h + [s[0]], if |h| < capacity then |h| + 1 else capacity)
    ensures (if |h| < capacity then [] else [(h + s)[0]]) + (h' + (s[1..] + [blank])) == h + s + [blank]
  {
    var dropped := if |h| < capacity then [] else [(h + s)[0]];
    var rest := s[1..] + [blank];
    assert dropped + h' == h + [s[0]];
    Assoc(dropped, h', rest);
    Assoc(h, [s[0]], rest);
    assert [s[0]] + rest == s + [blank];
    Assoc(h, s, [blank]);
  }

  lemma NewLineText(o: Output, style: Style, moveCursor: bool)
    requires Ready(o)
    ensures WholeText(NewLine(o, style, moveCursor)) == WholeText(o)
  {
    hide Scroll, AllLines, LostRows, Valid;
    if o.row == o.ring.rows - 1 {
      var r' := Scroll(o.ring, 0, o.ring.rows, style);
      ScrollWhole(o.ring, style);
      var blank := Screen(r')[r'.rows - 1];
      assert o.lost + LostRows(o.ring) + AllLines(r') == o.lost + (LostRows(o.ring) + AllLines(r'));
      assert Whole(NewLine(o, style, moveCursor)) == Whole(o) + [blank];
      LinesTextConcat(Whole(o), [blank]);
      BlankLinesText([blank]);
    }
  }

  lemma {:induction false} NewLinesText(o: Output, n: nat, style: Style)
    requires Ready(o)
    ensures WholeText(NewLines(o, n, style)) == WholeText(o)
    decreases n
  {
    hide Ready, WholeText, NewLine;
    if n > 0 {
      NewLinesText(o, n - 1, style);
      NewLineText(NewLines(o, n - 1, style), style, false);
    }
  }

  lemma OneLineText(line: Line)
    ensures LinesText([line]) == RowText(line.cells)
  {
    hide RowText;
    assert [line][..0] == [];
  }

  /** Changing one row whose successors are blank. */
  lemma UpdatedText(lines: seq<Line>, p: nat, line: Line, t: seq<int>)
    requires p < |lines| && RowText(line.cells) == RowText(lines[p].cells) + t
    requires forall i :: p < i < |lines| ==> BlankFrom(lines[i].cells, 0)
    ensures LinesText(lines[p := line]) == LinesText(lines) + t
  {
    hide LinesText, RowText;
    var a, b := lines[..p], lines[p + 1..];
    BlankLinesText(b);
    assert lines == a + [lines[p]] + b && lines[p := line] == a + [line] + b;
    LinesTextConcat(a + [lines[p]], b);
    LinesTextConcat(a + [line], b);
    LinesTextConcat(a, [lines[p]]);
    LinesTextConcat(a, [line]);
    OneLineText(line);
    OneLineText(lines[p]);
  }

  lemma RowUpdateText(o: Output, line: Line, t: seq<int>)
    requires Ready(o) && LineOk(Some(line), o.ring.cols)
    requires RowText(line.cells) == RowText(o.ring.view[o.row].value.cells) + t
    ensures Valid(WithRow(o.ring, o.row, line))
    ensures LinesText(o.lost + AllLines(WithRow(o.ring, o.row, line))) == WholeText(o) + t
  {
    var r' := WithRow(o.ring, o.row, line);
    var p := |o.lost| + o.ring.active + o.row;
    var before := Whole(o);
    assert before[p] == o.ring.view[o.row].value;
    forall i | p < i < |before| ensures BlankFrom(before[i].cells, 0) {
      assert before[i] == o.ring.view[i - |o.lost| - o.ring.active].value;
    }
    assert History(r') == History(o.ring);
    assert Screen(r') == Screen(o.ring)[o.row := line];
    assert o.lost + AllLines(r') == before[p := line];
    UpdatedText(before, p, line, t);
  }

  lemma PlaceText(o: Output, item: Item)
    requires CanPlace(o, item.glyph)
    ensures WholeText(Place(o, item)) == WholeText(o) + NonSpace([item.glyph.codePoint])
  {
    hide Put, AllLines;
    var line := o.ring.view[o.row].value;
    var col := PlaceColumn(o, item.glyph);
    PutText(line.cells, o.col, item.glyph, item.style);
    RowUpdateText(o, line.(cells := Put(line.cells, col, item.glyph, item.style)), NonSpace([item.glyph.codePoint]));
  }

  lemma WrapText(o: Output, width: nat, style: Style)
    requires Ready(o) && width <= 2
    ensures WholeText(WrapIfFull(o, width, style)) == WholeText(o)
  {
    hide NewLine, AllLines;
    if o.col + width > o.ring.cols {
      var wrapped := o.(ring := SetLineWrap(o.ring, o.row, true));
      RowUpdateText(o, o.ring.view[o.row].value.(wrap := true), []);
      NewLineText(wrapped, style, true);
    }
  }

  lemma FeedText(o: Output, item: Item, here: bool, style: Style)
    requires Ready(o) && ValidGlyph(item.glyph) && (item.glyph.width == 0 ==> 0 < o.col)
    ensures WholeText(Feed(o, item, here, style)) == WholeText(o) + NonSpace([item.glyph.codePoint])
  {
    hide Place, WrapIfFull, AllLines, LinesText;
    WrapText(o, item.glyph.width, style);
    PlaceText(WrapIfFull(o, item.glyph.width, style), item);
  }

  /** The code points of a row up to and including the character under the cursor. */
  function Cut(items: seq<Item>, oldCol: nat, cursorCol: Option<int>): seq<Item> {
    if items == [] then []
    else if cursorCol == Some(oldCol) && items[0].glyph.width > 0 then [items[0]]
    else if items[0].glyph.width < 0 then items
    else [items[0]] + Cut(items[1..], oldCol + items[0].glyph.width, cursorCol)
  }

  lemma {:induction false} FeedAllText(o: Output, items: seq<Item>, oldCol: nat, cursorCol: Option<int>, style: Style)
    requires Feedable(o, items)
    ensures WholeText(FeedAll(o, items, oldCol, cursorCol, style))
            == WholeText(o) + ItemsText(Cut(items, oldCol, cursorCol))
    decreases |items|
  {
    hide Feed, Ready, WholeText;
    if items != [] {
      var here := cursorCol == Some(oldCol) && items[0].glyph.width > 0;
      FeedText(o, items[0], here, style);
      assert ItemsText([items[0]]) == NonSpace([items[0].glyph.codePoint]) by { assert [items[0]][..0] == []; }
      if !here {
        var o1 := Feed(o, items[0], here, style);
        var rest := Cut(items[1..], oldCol + items[0].glyph.width, cursorCol);
        FeedAllText(o1, items[1..], oldCol + items[0].glyph.width, cursorCol, style);
        ItemsTextConcat([items[0]], rest);
      }
    }
  }

  // ----- One row -----

  lemma {:induction false} CombiningItemsText(codePoints: seq<int>, style: Style)
    ensures ItemsText(CombiningItems(codePoints, style)) == NonSpace(codePoints)
    decreases |codePoints|
  {
    if codePoints != [] {
      var n := |codePoints| - 1;
      CombiningItemsText(codePoints[..n], style);
      assert CombiningItems(codePoints, style)[..n] == CombiningItems(codePoints[..n], style);
      NonSpaceConcat(codePoints[..n], [codePoints[n]]);
      assert codePoints == codePoints[..n] + [codePoints[n]];
    }
  }

  lemma OneItemText(item: Item)
    ensures ItemsText([item]) == NonSpace([item.glyph.codePoint])
  {
    hide NonSpace;
    assert [item][..0] == [];
  }

  lemma NoItemsText()
    ensures ItemsText([]) == []
  {
  }

  lemma CellItemsText(cells: seq<Cell>, i: nat)
    requires i < |cells|
    ensures ItemsText(CellItems(cells, i)) == NonSpace(cells[i].text)
  {
    hide NonSpace, ItemsText;
    var text, style := cells[i].text, cells[i].style;
    if text == [] {
      NonSpaceNothing();
      NoItemsText();
    } else {
      var base := Item(Glyph(text[0], if IsTail(cells, i + 1) then 2 else 1), style);
      CombiningItemsText(text[1..], style);
      ItemsTextConcat([base], CombiningItems(text[1..], style));
      NonSpaceConcat([text[0]], text[1..]);
      assert text == [text[0]] + text[1..];
      OneItemText(base);
    }
  }

  lemma {:induction false} ItemsRowText(cells: seq<Cell>, n: nat)
    requires n <= |cells|
    ensures ItemsText(Items(cells, n)) == RowText(cells[..n])
    decreases n
  {
    hide NonSpace, CellItems, ItemsText;
    if n == 0 {
      NoItemsText();
    } else {
      ItemsRowText(cells, n - 1);
      CellItemsText(cells, n - 1);
      ItemsTextConcat(Items(cells, n - 1), CellItems(cells, n - 1));
      RowTextAppend(cells, n - 1);
    }
  }

  lemma {:induction false} TrimText(items: seq<Item>)
    ensures ItemsText(TrimSpaces(items)) == ItemsText(items)
  {
    if items != [] && items[|items| - 1].glyph.codePoint == SPACE {
      TrimText(items[..|items| - 1]);
      BlankText([SPACE]);
    }
  }

  /** The number of columns taken by the code points. */
  function Width(items: seq<Item>): int {
    if items == [] then 0 else Width(items[..|items| - 1]) + items[|items| - 1].glyph.width
  }

  lemma {:induction false} WidthConcat(a: seq<Item>, b: seq<Item>)
    ensures Width(a + b) == Width(a) + Width(b)
    decreases |b|
  {
    if b == [] {
      assert a + b == a;
    } else {
      WidthConcat(a, b[..|b| - 1]);
      assert (a + b)[..|a + b| - 1] == a + b[..|b| - 1];
    }
  }

  lemma {:induction false} CombiningWidth(items: seq<Item>)
    requires forall i :: 0 <= i < |items| ==> items[i].glyph.width == 0
    ensures Width(items) == 0
  {
    if items != [] {
      CombiningWidth(items[..|items| - 1]);
    }
  }

  lemma CellWidth(cells: seq<Cell>, i: nat)
    requires i < |cells|
    ensures Width(CellItems(cells, i)) == if cells[i].text == [] then 0 else if IsTail(cells, i + 1) then 2 else 1
  {
    var text, style := cells[i].text, cells[i].style;
    if text != [] {
      var base := Item(Glyph(text[0], if IsTail(cells, i + 1) then 2 else 1), style);
      CombiningWidth(CombiningItems(text[1..], style));
      WidthConcat([base], CombiningItems(text[1..], style));
      assert [base][..0] == [];
    }
  }

  lemma {:induction false} ItemsWidth(cells: seq<Cell>, n: nat)
    requires n <= |cells| && WellFormed(cells)
    ensures Width(Items(cells, n)) == n + if IsTail(cells, n) then 1 else 0
    decreases n
  {
    hide CellItems, Width;
    if n > 0 {
      ItemsWidth(cells, n - 1);
      CellWidth(cells, n - 1);
      WidthConcat(Items(cells, n - 1), CellItems(cells, n - 1));
    } else {
      WidthOfNothing();
    }
  }

  lemma WidthOfNothing()
    ensures Width([]) == 0
  {
  }

  /** Past the cursor column nothing is cut. */
  lemma {:induction false} CutAfter(items: seq<Item>, oldCol: nat, c: int)
    requires c < oldCol && forall i :: 0 <= i < |items| ==> ValidGlyph(items[i].glyph)
    ensures Cut(items, oldCol, Some(c)) == items
    decreases |items|
  {
    if items != [] {
      CutAfter(items[1..], oldCol + items[0].glyph.width, c);
    }
  }

  lemma {:induction false} CutNowhere(items: seq<Item>, oldCol: nat)
    requires forall i :: 0 <= i < |items| ==> ValidGlyph(items[i].glyph)
    ensures Cut(items, oldCol, None) == items
    decreases |items|
  {
    if items != [] {
      CutNowhere(items[1..], oldCol + items[0].glyph.width);
    }
  }

  /** Before the cursor column nothing is cut. */
  lemma {:induction false} CutBefore(a: seq<Item>, b: seq<Item>, oldCol: nat, c: int)
    requires forall i :: 0 <= i < |a| ==> ValidGlyph(a[i].glyph)
    requires 0 <= Width(a) && oldCol + Width(a) <= c
    ensures Cut(a + b, oldCol, Some(c)) == a + Cut(b, oldCol + Width(a), Some(c))
    decreases |a|
  {
    hide Cut, Width;
    if a == [] {
      assert a + b == b;
      WidthOfNothing();
    } else {
      WidthHead(a);
      WidthNonNegative(a[1..]);
      CutBefore(a[1..], b, oldCol + a[0].glyph.width, c);
      assert (a + b)[0] == a[0] && (a + b)[1..] == a[1..] + b;
      CutStep(a + b, oldCol, c);
      Assoc([a[0]], a[1..], Cut(b, oldCol + Width(a), Some(c)));
      assert [a[0]] + a[1..] == a;
    }
  }

  lemma CutStep(items: seq<Item>, oldCol: nat, c: int)
    requires items != [] && 0 <= items[0].glyph.width && (c == oldCol ==> items[0].glyph.width == 0)
    ensures Cut(items, oldCol, Some(c)) == [items[0]] + Cut(items[1..], oldCol + items[0].glyph.width, Some(c))
  {
  }

  lemma WidthHead(a: seq<Item>)
    requires a != []
    ensures Width(a) == a[0].glyph.width + Width(a[1..])
  {
    WidthConcat([a[0]], a[1..]);
    assert [a[0]][..0] == [];
    assert a == [a[0]] + a[1..];
  }

  lemma {:induction false} WidthNonNegative(a: seq<Item>)
    requires forall i :: 0 <= i < |a| ==> ValidGlyph(a[i].glyph)
    ensures 0 <= Width(a)
  {
    if a != [] {
      WidthNonNegative(a[..|a| - 1]);
    }
  }

  lemma CellItemsHead(cells: seq<Cell>, i: nat)
    requires i < |cells|
    ensures forall k :: 0 <= k < |CellItems(cells, i)| ==> ValidGlyph(CellItems(cells, i)[k].glyph)
    ensures cells[i].text != [] ==> CellItems(cells, i) != []
    ensures cells[i].text != [] ==>
              CellItems(cells, i)[0] == Item(Glyph(cells[i].text[0], if IsTail(cells, i + 1) then 2 else 1),
                                             cells[i].style)
  {
  }

  lemma {:induction false} ItemsPrefix(cells: seq<Cell>, c: nat, n: nat)
    requires c < n <= |cells|
    ensures Items(cells, c) + CellItems(cells, c) <= Items(cells, n)
    decreases n
  {
    hide CellItems;
    if c < n - 1 {
      ItemsPrefix(cells, c, n - 1);
    }
  }

  lemma {:induction false} ItemsSplit(cells: seq<Cell>, c: nat) returns (rest: seq<Item>)
    requires c < |cells| && cells[c].text != []
    ensures Items(cells, |cells|) == Items(cells, c) + rest
    ensures forall i :: 0 <= i < |rest| ==> ValidGlyph(rest[i].glyph)
    ensures rest != []
            && rest[0] == Item(Glyph(cells[c].text[0], if IsTail(cells, c + 1) then 2 else 1), cells[c].style)
  {
    hide CellItems, Items;
    var all, before := Items(cells, |cells|), Items(cells, c);
    ItemsPrefix(cells, c, |cells|);
    CellItemsHead(cells, c);
    rest := all[|before|..];
    assert rest[0] == all[|before|] == (before + CellItems(cells, c))[|before|];
  }

  /** A row up to its character in column c; its combining code points go with the rest of the row. */
  function CutRowText(cells: seq<Cell>, c: int): seq<int> {
    if 0 <= c < |cells| && cells[c].text != [] then RowText(cells[..c]) + NonSpace([cells[c].text[0]])
    else RowText(cells)
  }

  lemma CutHere(rest: seq<Item>, c: nat)
    requires rest != [] && rest[0].glyph.width > 0
    ensures Cut(rest, c, Some(c)) == [rest[0]]
  {
  }

  lemma {:induction false} CutAtCharacter(cells: seq<Cell>, c: nat)
    requires WellFormed(cells) && c < |cells| && cells[c].text != []
    ensures ItemsText(Cut(Items(cells, |cells|), 0, Some(c))) == CutRowText(cells, c)
  {
    hide NonSpace, RowText, Width, Items, Cut, ItemsText;
    var rest := ItemsSplit(cells, c);
    var before := Items(cells, c);
    ItemsWidth(cells, c);
    CutBefore(before, rest, 0, c);
    CutHere(rest, c);
    ItemsTextConcat(before, [rest[0]]);
    OneItemText(rest[0]);
    ItemsRowText(cells, c);
  }

  lemma CutNothing(col: nat, c: int)
    ensures Cut([], col, Some(c)) == []
  {
  }

  lemma CutOverWide(rest: seq<Item>, col: nat)
    requires rest != [] && rest[0].glyph.width == 2 && forall i :: 0 <= i < |rest| ==> ValidGlyph(rest[i].glyph)
    ensures Cut(rest, col, Some(col + 1)) == rest
  {
    CutAfter(rest[1..], col + 2, col + 1);
    assert rest == [rest[0]] + rest[1..];
  }

  lemma {:induction false} CutMissesRow(cells: seq<Cell>, c: int)
    requires WellFormed(cells) && !(0 <= c < |cells| && cells[c].text != [])
    ensures Cut(Items(cells, |cells|), 0, Some(c)) == Items(cells, |cells|)
  {
    hide Width, CellItems, Items, Cut;
    var all := Items(cells, |cells|);
    if c < 0 {
      CutAfter(all, 0, c);
    } else if |cells| <= c {
      ItemsWidth(cells, |cells|);
      CutBefore(all, [], 0, c);
      CutNothing(Width(all), c);
      assert all + [] == all;
    } else {
      // The cursor is on the right half of the character that starts at column c - 1.
      var rest := ItemsSplit(cells, c - 1);
      var before := Items(cells, c - 1);
      ItemsWidth(cells, c - 1);
      CutBefore(before, rest, 0, c);
      CutOverWide(rest, c - 1);
    }
  }

  lemma {:induction false} CutText(line: Line, c: int)
    requires WellFormed(line.cells)
    ensures ItemsText(Cut(RowItems(line, true), 0, Some(c))) == CutRowText(line.cells, c)
  {
    hide Items, Cut;
    var cells := line.cells;
    if 0 <= c < |cells| && cells[c].text != [] {
      CutAtCharacter(cells, c);
    } else {
      CutMissesRow(cells, c);
      ItemsRowText(cells, |cells|);
      assert cells[..|cells|] == cells;
    }
  }

  lemma {:induction false} UncutText(line: Line)
    requires WellFormed(line.cells)
    ensures ItemsText(Cut(RowItems(line, false), 0, None)) == RowText(line.cells)
  {
    hide Items, Cut;
    var cells := line.cells;
    CutNowhere(RowItems(line, false), 0);
    TrimText(Items(cells, |cells|));
    ItemsRowText(cells, |cells|);
    assert cells[..|cells|] == cells;
  }

  // ----- All rows -----

  function OldRowText(line: Line, cursorCol: Option<int>): seq<int> {
    match cursorCol
    case None => RowText(line.cells)
    case Some(c) => CutRowText(line.cells, c)
  }

  lemma CopyLineText(p: Progress, line: Line, cursorCol: Option<int>, last: bool, style: Style)
    requires Ready(p.out) && WellFormed(line.cells) && (cursorCol.Some? ==> !p.out.placed)
    ensures WholeText(CopyLine(p, line, cursorCol, last, style).out) == WholeText(p.out) + OldRowText(line, cursorCol)
  {
    hide Ready, WholeText, NewLines, NewLine, FeedAll, RowItems, Cut, RowText, CutRowText;
    if !(!p.out.placed && cursorCol.Some?) && IsBlank(line) {
      BlankLineText(line);
    } else {
      var o1 := NewLines(p.out, p.skipped, style);
      NewLinesText(p.out, p.skipped, style);
      var items := RowItems(line, cursorCol.Some?);
      FeedAllText(o1, items, 0, cursorCol, style);
      if cursorCol.Some? {
        CutText(line, cursorCol.value);
      } else {
        UncutText(line);
      }
      NewLineText(FeedAll(o1, items, 0, cursorCol, style), style, true);
    }
  }

  /** The old rows in order, the cursor row up to the cursor. */
  function OldText(lines: seq<Line>, n: nat, cursorLine: int, cursorCol: int): seq<int>
    requires n <= |lines|
    decreases n
  {
    if n == 0 then []
    else OldText(lines, n - 1, cursorLine, cursorCol)
         + OldRowText(lines[n - 1], if n - 1 == cursorLine then Some(cursorCol) else None)
  }

  /** The cursor is placed on the row it was on, so not before that row has been reached. */
  lemma {:induction false} NotPlacedBefore(p: Progress, lines: seq<Line>, n: nat, cursorLine: int, cursorCol: int,
                                           style: Style)
    requires Ready(p.out) && n <= |lines| && WellFormedLines(lines) && !p.out.placed && n <= cursorLine
    ensures !CopyLines(p, lines, n, cursorLine, cursorCol, style).out.placed
    decreases n
  {
    hide Ready;
    if n > 0 {
      NotPlacedBefore(p, lines, n - 1, cursorLine, cursorCol, style);
      var q := CopyLines(p, lines, n - 1, cursorLine, cursorCol, style);
      NotPlacedOnOtherRow(q, lines[n - 1], n == |lines|, style);
    }
  }

  lemma NotPlacedOnOtherRow(p: Progress, line: Line, last: bool, style: Style)
    requires Ready(p.out) && WellFormed(line.cells) && !p.out.placed
    ensures !CopyLine(p, line, None, last, style).out.placed
  {
    hide Ready, RowItems;
    NewLinesNotPlaced(p.out, p.skipped, style);
    var o1 := NewLines(p.out, p.skipped, style);
    FeedAllNotPlaced(o1, RowItems(line, false), 0, style);
  }

  lemma {:induction false} NewLinesNotPlaced(o: Output, n: nat, style: Style)
    requires Ready(o)
    ensures NewLines(o, n, style).placed == o.placed
    decreases n
  {
    hide Ready;
    if n > 0 {
      NewLinesNotPlaced(o, n - 1, style);
    }
  }

  lemma FeedNotPlaced(o: Output, item: Item, style: Style)
    requires Ready(o) && ValidGlyph(item.glyph) && !o.placed && (item.glyph.width <= 0 ==> 0 < o.col)
    ensures !Feed(o, item, false, style).placed
  {
    hide Ready, Valid, Scroll, SetChar;
  }

  lemma {:induction false} FeedAllNotPlaced(o: Output, items: seq<Item>, oldCol: nat, style: Style)
    requires Feedable(o, items) && !o.placed
    ensures !FeedAll(o, items, oldCol, None, style).placed
    decreases |items|
  {
    hide Ready, Feed;
    if items != [] {
      var o1 := Feed(o, items[0], false, style);
      FeedNotPlaced(o, items[0], style);
      FeedAllNotPlaced(o1, items[1..], oldCol + items[0].glyph.width, style);
    }
  }

  lemma {:induction false} CopyLinesText(p: Progress, lines: seq<Line>, n: nat, cursorLine: int, cursorCol: int,
                                         style: Style)
    requires Ready(p.out) && n <= |lines| && WellFormedLines(lines) && !p.out.placed
    ensures WholeText(CopyLines(p, lines, n, cursorLine, cursorCol, style).out)
            == WholeText(p.out) + OldText(lines, n, cursorLine, cursorCol)
    decreases n
  {
    hide Ready, WholeText, CopyLine, OldRowText;
    if n > 0 {
      CopyLinesText(p, lines, n - 1, cursorLine, cursorCol, style);
      if n - 1 == cursorLine {
        NotPlacedBefore(p, lines, n - 1, cursorLine, cursorCol, style);
      }
      CopyLineText(CopyLines(p, lines, n - 1, cursorLine, cursorCol, style), lines[n - 1],
                   if n - 1 == cursorLine then Some(cursorCol) else None, n == |lines|, style);
    }
  }

  lemma StartText(newCols: nat, newRows: nat, newTotal: nat, style: Style)
    requires 2 <= newCols && 1 <= newRows <= newTotal
    ensures WholeText(Start(newCols, newRows, newTotal, style)) == []
  {
    BlankLinesText(Whole(Start(newCols, newRows, newTotal, style)));
  }

  /**
    Conservation of text: the rows that fell off the ring followed by the new history and screen hold the text of
    the old history and screen, with the cursor row cut after the character under the cursor.
   */
  lemma ReflowConservesText(r: Ring, newCols: nat, newRows: nat, newTotal: nat, cursorRow: int, cursorCol: int,
                            style: Style)
    requires Valid(r) && 2 <= newCols && 1 <= newRows <= newTotal
    ensures var o := Reflowed(r, newCols, newRows, newTotal, cursorRow, cursorCol, style);
            LinesText(o.lost) + LinesText(AllLines(o.ring))
            == OldText(AllLines(r), |AllLines(r)|, r.active + cursorRow, cursorCol)
  {
    hide CopyLines, LinesText, AllLines, BlankFrom;
    LinesWellFormed(r);
    StartText(newCols, newRows, newTotal, style);
    var o := Reflowed(r, newCols, newRows, newTotal, cursorRow, cursorCol, style);
    CopyLinesText(Progress(Start(newCols, newRows, newTotal, style), 0), AllLines(r), |AllLines(r)|,
                  r.active + cursorRow, cursorCol, style);
    LinesTextConcat(o.lost, AllLines(o.ring));
  }

  lemma {:induction false} OldTextFrom(lines: seq<Line>, n: nat, cursorLine: int, cursorCol: int)
    requires n <= |lines| && cursorLine < n
    ensures OldText(lines, n, cursorLine, cursorCol)
            == if cursorLine < 0 then LinesText(lines[..n])
               else LinesText(lines[..cursorLine]) + CutRowText(lines[cursorLine].cells, cursorCol)
                    + LinesText(lines[cursorLine + 1..n])
    decreases n
  {
    hide RowText, CutRowText, LinesText, OldText;
    if n == 0 {
      EmptySliceText(lines, 0);
      NoOldText(lines, cursorLine, cursorCol);
    } else {
      OldTextStep(lines, n, cursorLine, cursorCol);
      if cursorLine < n - 1 {
        OldTextFrom(lines, n - 1, cursorLine, cursorCol);
        LinesTextStep(lines, if 0 <= cursorLine then cursorLine + 1 else 0, n);
      } else {
        OldTextUncut(lines, n - 1, cursorLine, cursorCol);
        EmptySliceText(lines, n);
      }
    }
  }

  lemma NoOldText(lines: seq<Line>, cursorLine: int, cursorCol: int)
    ensures OldText(lines, 0, cursorLine, cursorCol) == []
  {
  }

  lemma OldTextStep(lines: seq<Line>, n: nat, cursorLine: int, cursorCol: int)
    requires 0 < n <= |lines|
    ensures var row := lines[n - 1].cells;
            OldText(lines, n, cursorLine, cursorCol)
            == OldText(lines, n - 1, cursorLine, cursorCol) + if n - 1 == cursorLine then CutRowText(row, cursorCol)
                                                              else RowText(row)
  {
    hide RowText, CutRowText;
  }

  lemma LinesTextStep(lines: seq<Line>, from: nat, n: nat)
    requires from < n <= |lines|
    ensures LinesText(lines[from..n]) == LinesText(lines[from..n - 1]) + RowText(lines[n - 1].cells)
  {
    hide RowText;
    assert lines[from..n][..n - 1 - from] == lines[from..n - 1];
  }

  lemma EmptySliceText(lines: seq<Line>, n: nat)
    requires n <= |lines|
    ensures LinesText(lines[n..n]) == []
  {
  }

  lemma {:induction false} OldTextUncut(lines: seq<Line>, n: nat, cursorLine: int, cursorCol: int)
    requires n <= |lines| && n <= cursorLine
    ensures OldText(lines, n, cursorLine, cursorCol) == LinesText(lines[..n])
    decreases n
  {
    hide RowText, CutRowText;
    if n > 0 {
      OldTextUncut(lines, n - 1, cursorLine, cursorCol);
      assert lines[..n][..n - 1] == lines[..n - 1];
    }
  }

  // ----- What is lost -----

  /** Rows fall off only when the ring is full. */
  predicate LostOnlyWhenFull(o: Output)
    requires Ready(o)
  {
    o.lost == [] || o.ring.active == |o.ring.view| - o.ring.rows
  }

  lemma NewLineLost(o: Output, style: Style, moveCursor: bool)
    requires Ready(o) && LostOnlyWhenFull(o)
    ensures LostOnlyWhenFull(NewLine(o, style, moveCursor))
  {
  }

  lemma {:induction false} NewLinesLost(o: Output, n: nat, style: Style)
    requires Ready(o) && LostOnlyWhenFull(o)
    ensures LostOnlyWhenFull(NewLines(o, n, style))
    decreases n
  {
    hide Ready, LostOnlyWhenFull, NewLine;
    if n > 0 {
      NewLinesLost(o, n - 1, style);
      NewLineLost(NewLines(o, n - 1, style), style, false);
    }
  }

  lemma FeedLost(o: Output, item: Item, here: bool, style: Style)
    requires Ready(o) && ValidGlyph(item.glyph) && (item.glyph.width == 0 ==> 0 < o.col) && LostOnlyWhenFull(o)
    ensures LostOnlyWhenFull(Feed(o, item, here, style))
  {
    hide NewLine, SetChar;
    if o.col + item.glyph.width > o.ring.cols {
      NewLineLost(o.(ring := SetLineWrap(o.ring, o.row, true)), style, true);
    }
  }

  lemma {:induction false} FeedAllLost(o: Output, items: seq<Item>, oldCol: nat, cursorCol: Option<int>, style: Style)
    requires Feedable(o, items) && LostOnlyWhenFull(o)
    ensures LostOnlyWhenFull(FeedAll(o, items, oldCol, cursorCol, style))
    decreases |items|
  {
    hide Ready, LostOnlyWhenFull, Feed;
    if items != [] {
      var here := cursorCol == Some(oldCol) && items[0].glyph.width > 0;
      FeedLost(o, items[0], here, style);
      if !here {
        FeedAllLost(Feed(o, items[0], here, style), items[1..], oldCol + items[0].glyph.width, cursorCol, style);
      }
    }
  }

  lemma {:induction false} CopyLinesLost(p: Progress, lines: seq<Line>, n: nat, cursorLine: int, cursorCol: int,
                                         style: Style)
    requires Ready(p.out) && n <= |lines| && WellFormedLines(lines) && LostOnlyWhenFull(p.out)
    ensures LostOnlyWhenFull(CopyLines(p, lines, n, cursorLine, cursorCol, style).out)
    decreases n
  {
    hide Ready, LostOnlyWhenFull, NewLines, NewLine, FeedAll, RowItems;
    if n > 0 {
      CopyLinesLost(p, lines, n - 1, cursorLine, cursorCol, style);
      var q := CopyLines(p, lines, n - 1, cursorLine, cursorCol, style);
      var c := if n - 1 == cursorLine then Some(cursorCol) else None;
      NewLinesLost(q.out, q.skipped, style);
      var o1, items := NewLines(q.out, q.skipped, style), RowItems(lines[n - 1], c.Some?);
      FeedAllLost(o1, items, 0, c, style);
      NewLineLost(FeedAll(o1, items, 0, c, style), style, true);
    }
  }

  /**
    The text of the new history and screen is a suffix of the old text.  It is all of it exactly when only blank
    rows fell off the ring, and in particular when the new history is not full.
   */
  lemma ReflowKeepsText(r: Ring, newCols: nat, newRows: nat, newTotal: nat, cursorRow: int, cursorCol: int,
                        style: Style)
    requires Valid(r) && 2 <= newCols && 1 <= newRows <= newTotal
    ensures var o := Reflowed(r, newCols, newRows, newTotal, cursorRow, cursorCol, style);
            var before := OldText(AllLines(r), |AllLines(r)|, r.active + cursorRow, cursorCol);
            var after := LinesText(AllLines(o.ring));
            && |after| <= |before| && after == before[|before| - |after|..]
            && (after == before <==> LinesText(o.lost) == [])
            && (o.ring.active < |o.ring.view| - o.ring.rows ==> after == before)
  {
    hide CopyLines, LinesText, AllLines, BlankFrom, OldText;
    ReflowConservesText(r, newCols, newRows, newTotal, cursorRow, cursorCol, style);
    LinesWellFormed(r);
    CopyLinesLost(Progress(Start(newCols, newRows, newTotal, style), 0), AllLines(r), |AllLines(r)|,
                  r.active + cursorRow, cursorCol, style);
    NoLinesText();
  }

  lemma NoLinesText()
    ensures LinesText([]) == []
  {
  }
}
