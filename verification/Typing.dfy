/** Characters written one after the other on blank rows: the cells and the text of such a row. */
module Typing {
  import opened Basics
  import opened TerminalRows
  import opened Reflow
  import opened ReflowText
  import opened Transcript

  /** Code points that can stand on a row: the first one is not combining, and all fit. */
  predicate FitsRow(items: seq<Item>, cols: nat) {
    && (forall i :: 0 <= i < |items| ==> ValidGlyph(items[i].glyph))
    && (items != [] ==> items[0].glyph.width > 0) && Width(items) <= cols
  }

  lemma {:induction false} FitsPrefix(items: seq<Item>, cols: nat)
    requires FitsRow(items, cols) && items != []
    ensures FitsRow(items[..|items| - 1], cols) && 0 <= Width(items[..|items| - 1])
    ensures Width(items) == Width(items[..|items| - 1]) + items[|items| - 1].glyph.width
    ensures items[|items| - 1].glyph.width == 0 ==> 0 < Width(items[..|items| - 1])
  {
    var init := items[..|items| - 1];
    WidthNonNegative(init);
    if init != [] {
      WidthHead(init);
      WidthNonNegative(init[1..]);
    }
  }

  /** The cells of a row with these code points from column 0 on. */
  function RowCells(items: seq<Item>, cols: nat, style: Style): (c: seq<Cell>)
    requires FitsRow(items, cols)
    ensures |c| == cols && WellFormed(c) && BlankFrom(c, Max(0, Width(items)))
    decreases |items|
  {
    hide Put;
    if items == [] then BlankCells(cols, style)
    else
      FitsPrefix(items, cols);
      var init, item := items[..|items| - 1], items[|items| - 1];
      var c := RowCells(init, cols, style);
      PutKeepsBlank(c, Width(init), item.glyph, item.style);
      Put(c, if item.glyph.width == 0 then Width(init) - 1 else Width(init), item.glyph, item.style)
  }

  function CodePoints(items: seq<Item>): (s: seq<int>)
    ensures |s| == |items| && forall i :: 0 <= i < |s| ==> s[i] == items[i].glyph.codePoint
  {
    seq(|items|, i requires 0 <= i < |items| => items[i].glyph.codePoint)
  }

  function Spaces(n: nat): (s: seq<int>)
    ensures |s| == n && forall i :: 0 <= i < n ==> s[i] == SPACE
  {
    seq(n, _ => SPACE)
  }

  lemma TextStep(cells: seq<Cell>, n: nat)
    requires n < |cells|
    ensures FullText(cells[..n + 1]) == FullText(cells[..n]) + cells[n].text
  {
    assert cells[..n + 1][..n] == cells[..n];
  }

  /** Cells that agree have the same text. */
  lemma SameText(a: seq<Cell>, b: seq<Cell>, n: nat)
    requires n <= |a| && n <= |b| && a[..n] == b[..n]
    ensures FullText(a[..n]) == FullText(b[..n])
  {
  }

  lemma CombiningAppends(cells: seq<Cell>, w: nat, c: int, style: Style)
    requires WellFormed(cells) && 0 < w <= |cells|
    ensures FullText(PutCombining(cells, w - 1, c, style)[..w]) == FullText(cells[..w]) + [c]
  {
    hide FullText;
    var r := PutCombining(cells, w - 1, c, style);
    TextStep(cells, w - 1);
    TextStep(r, w - 1);
    if IsTail(cells, w - 1) {
      TextStep(cells, w - 2);
      TextStep(r, w - 2);
      SameText(cells, r, w - 2);
      assert FullText(cells[..w - 1]) + [] == FullText(cells[..w - 1]);
      assert FullText(r[..w - 1]) + [] == FullText(r[..w - 1]);
      Assoc(FullText(cells[..w - 2]), cells[w - 2].text, [c]);
    } else {
      SameText(cells, r, w - 1);
      Assoc(FullText(cells[..w - 1]), cells[w - 1].text, [c]);
    }
  }

  lemma NarrowAppends(cells: seq<Cell>, w: nat, c: int, style: Style)
    requires WellFormed(cells) && w < |cells| && BlankFrom(cells, w)
    ensures FullText(PutNarrow(cells, w, c, style)[..w + 1]) == FullText(cells[..w]) + [c]
  {
    hide FullText;
    var r := PutNarrow(cells, w, c, style);
    TextStep(r, w);
    SameText(cells, r, w);
  }

  lemma WideAppends(cells: seq<Cell>, w: nat, c: int, style: Style)
    requires WellFormed(cells) && w + 1 < |cells| && BlankFrom(cells, w)
    ensures FullText(PutWide(cells, w, c, style)[..w + 2]) == FullText(cells[..w]) + [c]
  {
    hide FullText, PutWide;
    PutWideOnBlank(cells, w, c, style);
    var r := PutWide(cells, w, c, style);
    TextStep(r, w);
    TextStep(r, w + 1);
    SameText(cells, r, w);
    assert FullText(r[..w + 1]) + [] == FullText(r[..w + 1]);
  }

  /** Writing a code point at the end of the text of a row appends it. */
  lemma PutAppends(cells: seq<Cell>, w: nat, g: Glyph, style: Style)
    requires WellFormed(cells) && ValidGlyph(g) && BlankFrom(cells, w)
    requires w + g.width <= |cells| && (g.width == 0 ==> 0 < w)
    ensures FullText(Put(cells, if g.width == 0 then w - 1 else w, g, style)[..w + g.width])
            == FullText(cells[..w]) + [g.codePoint]
  {
    hide FullText;
    if g.width == 0 {
      CombiningAppends(cells, w, g.codePoint, style);
    } else if g.width == 1 {
      NarrowAppends(cells, w, g.codePoint, style);
    } else {
      WideAppends(cells, w, g.codePoint, style);
    }
  }

  lemma {:induction false} BlankFullText(cells: seq<Cell>, w: nat, n: nat)
    requires w <= n <= |cells| && BlankFrom(cells, w)
    ensures FullText(cells[..n]) == FullText(cells[..w]) + Spaces(n - w)
    decreases n
  {
    hide FullText;
    if n > w {
      BlankFullText(cells, w, n - 1);
      TextStep(cells, n - 1);
      assert Spaces(n - w) == Spaces(n - 1 - w) + [SPACE];
      Assoc(FullText(cells[..w]), Spaces(n - 1 - w), [SPACE]);
    } else {
      assert FullText(cells[..w]) + Spaces(0) == FullText(cells[..w]);
    }
  }

  lemma {:induction false} RowPrefixText(items: seq<Item>, cols: nat, style: Style)
    requires FitsRow(items, cols)
    ensures 0 <= Width(items) && FullText(RowCells(items, cols, style)[..Width(items)]) == CodePoints(items)
    decreases |items|
  {
    hide FullText, Put, Width;
    WidthNonNegative(items);
    if items == [] {
      WidthOfNothing();
      NoText(RowCells(items, cols, style));
    } else {
      FitsPrefix(items, cols);
      var n := |items| - 1;
      var init, item := items[..n], items[n];
      RowPrefixText(init, cols, style);
      PutAppends(RowCells(init, cols, style), Width(init), item.glyph, item.style);
      assert CodePoints(items) == CodePoints(init) + [item.glyph.codePoint];
    }
  }

  lemma NoText(cells: seq<Cell>)
    ensures FullText(cells[..0]) == []
  {
  }

  /** The text of a row: its code points in order, and spaces up to the last column. */
  lemma RowFullText(items: seq<Item>, cols: nat, style: Style)
    requires FitsRow(items, cols)
    ensures 0 <= Width(items)
    ensures FullText(RowCells(items, cols, style)) == CodePoints(items) + Spaces(cols - Width(items))
  {
    hide FullText, RowCells;
    RowPrefixText(items, cols, style);
    var cells := RowCells(items, cols, style);
    BlankFullText(cells, Width(items), cols);
    assert cells[..cols] == cells;
  }
}
