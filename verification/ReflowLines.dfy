/** Where lines break after a change of columns: the text of the logical lines. */
module ReflowLines {
  import opened Basics
  import opened TerminalRows
  import opened TerminalRing
  import opened Reflow
  import opened ReflowText
  import opened Transcript
  import opened Typing
  import opened Pages
  import opened Retyping

  // ----- Lines of text -----

  /** The text of a row, and whether the line goes on in the next one. */
  datatype TextRow = TextRow(text: seq<int>, wrap: bool)

  /** Wrapped rows joined; the last line is the one that goes on. */
  function TextLines(rows: seq<TextRow>): (s: seq<seq<int>>)
    ensures s != []
  {
    if rows == [] then [[]]
    else
      var s, row := TextLines(rows[..|rows| - 1]), rows[|rows| - 1];
      var s' := Extended(s, row.text);
      if row.wrap then s' else s' + [[]]
  }

  /** More text on the last line. */
  function Extended(s: seq<seq<int>>, text: seq<int>): (s': seq<seq<int>>)
    requires s != []
    ensures |s'| == |s|
  {
    s[|s| - 1 := s[|s| - 1] + text]
  }

  function TrimEach(s: seq<seq<int>>): (s': seq<seq<int>>)
    ensures |s'| == |s| && forall i :: 0 <= i < |s| ==> s'[i] == TrimRight(s[i])
  {
    seq(|s|, i requires 0 <= i < |s| => TrimRight(s[i]))
  }

  function DropEmpty(s: seq<seq<int>>): seq<seq<int>> {
    if s != [] && s[|s| - 1] == [] then DropEmpty(s[..|s| - 1]) else s
  }

  /** The lines of some rows, without the spaces at their ends and without blank lines at the end. */
  function LinesOf(rows: seq<TextRow>): seq<seq<int>> {
    DropEmpty(TrimEach(TextLines(rows)))
  }

  function RowOf(line: Line): TextRow {
    TextRow(FullText(line.cells), line.wrap)
  }

  function RowsOf(lines: seq<Line>): (s: seq<TextRow>)
    ensures |s| == |lines| && forall i :: 0 <= i < |s| ==> s[i] == RowOf(lines[i])
  {
    seq(|lines|, i requires 0 <= i < |lines| => RowOf(lines[i]))
  }

  lemma TextLinesAppend(rows: seq<TextRow>, row: TextRow)
    ensures var s := Extended(TextLines(rows), row.text);
            TextLines(rows + [row]) == if row.wrap then s else s + [[]]
  {
    assert (rows + [row])[..|rows|] == rows;
  }

  lemma RowsOfAppend(full: seq<Line>, line: Line)
    ensures RowsOf(full + [line]) == RowsOf(full) + [RowOf(line)]
  {
  }

  lemma ExtendTwice(s: seq<seq<int>>, a: seq<int>, b: seq<int>)
    requires s != []
    ensures Extended(Extended(s, a), b) == Extended(s, a + b)
  {
    Assoc(s[|s| - 1], a, b);
  }

  lemma ExtendByNothing(s: seq<seq<int>>)
    requires s != []
    ensures Extended(s, []) == s
  {
    assert s[|s| - 1] + [] == s[|s| - 1];
  }

  // ----- The lines of a page -----

  /** The columns that stay blank before a character that does not fit into them. */
  function GapBefore(col: nat, width: nat, cols: nat): nat
    requires col <= cols
  {
    if col + width <= cols then 0 else cols - col
  }

  function NextColumn(col: nat, width: nat, cols: nat): nat {
    if col + width <= cols then col + width else width
  }

  /** The text of code points typed from a column on. */
  function Spread(col: nat, items: seq<Item>, cols: nat): seq<int>
    requires col <= cols && 2 <= cols && AllValid(items)
    decreases |items|
  {
    if items == [] then []
    else
      var g := items[0].glyph;
      assert ValidGlyph(g);
      Spaces(GapBefore(col, g.width, cols)) + [g.codePoint] + Spread(NextColumn(col, g.width, cols), items[1..], cols)
  }

  predicate AllValid(items: seq<Item>) {
    forall i :: 0 <= i < |items| ==> ValidGlyph(items[i].glyph)
  }

  /** The lines of a page; the last one ends with the current row. */
  function PageLines(p: Page): (s: seq<seq<int>>)
    ensures s != []
  {
    Extended(TextLines(RowsOf(p.full)), CodePoints(p.tail))
  }

  lemma TypeLinesOf(p: Page, item: Item, cols: nat, style: Style)
    requires PageOk(p, cols) && MayFollow(p, item) && 2 <= cols
    ensures 0 <= Width(p.tail) <= cols
    ensures var p' := Type(p, item, cols, style);
            && PageLines(p') == Extended(PageLines(p), Spaces(GapBefore(Width(p.tail), item.glyph.width, cols))
                                                       + [item.glyph.codePoint])
            && Width(p'.tail) == NextColumn(Width(p.tail), item.glyph.width, cols)
  {
    hide TextLines, FullText, RowCells, Extended;
    TailWidth(p.tail, item);
    RowFullText(p.tail, cols, style);
    var s, w, c := TextLines(RowsOf(p.full)), Width(p.tail), item.glyph.codePoint;
    if w + item.glyph.width <= cols {
      assert CodePoints(p.tail + [item]) == CodePoints(p.tail) + [c];
      ExtendTwice(s, CodePoints(p.tail), [c]);
      assert Spaces(0) + [c] == [c];
    } else {
      var line := Line(RowCells(p.tail, cols, style), true);
      RowsOfAppend(p.full, line);
      TextLinesAppend(RowsOf(p.full), RowOf(line));
      assert CodePoints([item]) == [c];
      ExtendTwice(s, CodePoints(p.tail) + Spaces(cols - w), [c]);
      ExtendTwice(s, CodePoints(p.tail), Spaces(cols - w) + [c]);
      Assoc(CodePoints(p.tail), Spaces(cols - w), [c]);
    }
  }

  lemma {:induction false} TypeAllLines(p: Page, items: seq<Item>, cols: nat, style: Style)
    requires PageOk(p, cols) && AllMayFollow(p, items) && 2 <= cols
    ensures 0 <= Width(p.tail) <= cols && AllValid(items)
    ensures PageLines(TypeAll(p, items, cols, style)) == Extended(PageLines(p), Spread(Width(p.tail), items, cols))
    decreases |items|
  {
    hide PageLines, Type, RowCells, Extended, Width, GapBefore, NextColumn;
    PageWidth(p, cols);
    if items == [] {
      ExtendByNothing(PageLines(p));
    } else {
      TypeStep(p, items, cols, style);
      TypeLinesOf(p, items[0], cols, style);
      var p1, w, g := Type(p, items[0], cols, style), Width(p.tail), items[0].glyph;
      TypeAllLines(p1, items[1..], cols, style);
      ExtendTwice(PageLines(p), Spaces(GapBefore(w, g.width, cols)) + [g.codePoint],
                  Spread(NextColumn(w, g.width, cols), items[1..], cols));
    }
  }

  lemma PageWidth(p: Page, cols: nat)
    requires PageOk(p, cols)
    ensures 0 <= Width(p.tail) <= cols
  {
    WidthNonNegative(p.tail);
  }

  lemma EndRowLines(p: Page, cols: nat, total: nat, style: Style)
    requires PageOk(p, cols) && 0 < total && |p.full| < total
    ensures 0 <= Width(p.tail) <= cols
    ensures PageLines(EndRow(p, cols, total, style)) == Extended(PageLines(p), Spaces(cols - Width(p.tail))) + [[]]
  {
    hide TextLines, FullText, RowCells;
    PageWidth(p, cols);
    NotStale(p.full, total);
    RowFullText(p.tail, cols, style);
    var line := CurrentLine(p, cols, total, style);
    RowsOfAppend(p.full, line);
    TextLinesAppend(RowsOf(p.full), RowOf(line));
    ExtendTwice(TextLines(RowsOf(p.full)), CodePoints(p.tail), Spaces(cols - Width(p.tail)));
    assert CodePoints([]) == [];
    ExtendByNothing(Extended(TextLines(RowsOf(p.full)), RowOf(line).text) + [[]]);
  }

  // ----- Trimming -----

  predicate AllSpaces(s: seq<int>) {
    forall i :: 0 <= i < |s| ==> s[i] == SPACE
  }

  lemma {:induction false} TrimMore(s: seq<int>, t: seq<int>)
    requires AllSpaces(t)
    ensures TrimRight(s + t) == TrimRight(s)
    decreases |t|
  {
    if t == [] {
      assert s + t == s;
    } else {
      var u := s + t;
      assert u[|u| - 1] == t[|t| - 1] && u[..|u| - 1] == s + t[..|t| - 1];
      TrimMore(s, t[..|t| - 1]);
    }
  }

  lemma TrimExtended(s: seq<seq<int>>, t: seq<int>)
    requires s != [] && AllSpaces(t)
    ensures TrimEach(Extended(s, t)) == TrimEach(s)
  {
    TrimMore(s[|s| - 1], t);
  }

  lemma TrimEachAppend(s: seq<seq<int>>, t: seq<int>)
    ensures TrimEach(s + [t]) == TrimEach(s) + [TrimRight(t)]
  {
  }

  lemma NothingTrimmed()
    ensures TrimRight([]) == []
  {
  }

  lemma DropOne(s: seq<seq<int>>)
    ensures DropEmpty(s + [[]]) == DropEmpty(s)
  {
    assert (s + [[]])[..|s|] == s;
  }

  /** A blank row at the end, wrapped or not, adds no line. */
  lemma BlankRowAdds(rows: seq<TextRow>, row: TextRow)
    requires AllSpaces(row.text)
    ensures LinesOf(rows + [row]) == LinesOf(rows)
  {
    hide TextLines, Extended, TrimRight, DropEmpty;
    TextLinesAppend(rows, row);
    var s := Extended(TextLines(rows), row.text);
    TrimExtended(TextLines(rows), row.text);
    TrimEachAppend(s, []);
    NothingTrimmed();
    DropOne(TrimEach(s));
  }

  lemma {:induction false} BlankRowsAdd(rows: seq<TextRow>, m: nat)
    requires m <= |rows| && forall i :: m <= i < |rows| ==> AllSpaces(rows[i].text)
    ensures LinesOf(rows) == LinesOf(rows[..m])
    decreases |rows|
  {
    hide LinesOf, AllSpaces;
    if m < |rows| {
      var n := |rows| - 1;
      BlankRowsAdd(rows[..n], m);
      BlankRowAdds(rows[..n], rows[n]);
      assert rows[..n] + [rows[n]] == rows && rows[..n][..m] == rows[..m];
    } else {
      assert rows[..m] == rows;
    }
  }

  lemma BlankRowText(line: Line)
    requires BlankFrom(line.cells, 0)
    ensures AllSpaces(RowOf(line).text)
  {
    hide FullText;
    BlankFullText(line.cells, 0, |line.cells|);
    NoText(line.cells);
    assert line.cells[..|line.cells|] == line.cells;
  }

  /** Rows that differ in blank ones at the end have the same lines. */
  lemma SameLines(a: seq<Line>, b: seq<Line>)
    requires SameButBlank(a, b)
    ensures LinesOf(RowsOf(a)) == LinesOf(RowsOf(b))
  {
    hide LinesOf, AllSpaces, BlankFrom, RowOf;
    var m: nat :| m <= |a| && m <= |b| && a[..m] == b[..m] && BlankRows(a, m) && BlankRows(b, m);
    BlankLast(a, m);
    BlankLast(b, m);
    BlankRowsAdd(RowsOf(a), m);
    BlankRowsAdd(RowsOf(b), m);
    assert RowsOf(a)[..m] == RowsOf(a[..m]) && RowsOf(b)[..m] == RowsOf(b[..m]);
  }

  lemma BlankLast(a: seq<Line>, m: nat)
    requires m <= |a| && BlankRows(a, m)
    ensures forall i :: m <= i < |a| ==> AllSpaces(RowsOf(a)[i].text)
  {
    hide AllSpaces, BlankFrom, RowOf;
    forall i | m <= i < |a| ensures AllSpaces(RowsOf(a)[i].text) {
      BlankRowText(a[i]);
    }
  }

  // ----- The lines of a typed page -----

  function SpreadEach(s: seq<seq<Item>>, cols: nat): (t: seq<seq<int>>)
    requires LinesOfItems(s) && 2 <= cols
    ensures |t| == |s| && forall i :: 0 <= i < |s| ==> t[i] == Spread(0, s[i], cols)
  {
    seq(|s|, i requires 0 <= i < |s| => Spread(0, s[i], cols))
  }

  lemma EmptyPage()
    ensures PageLines(Page([], [])) == [[]] && Width([]) == 0
  {
    assert RowsOf([]) == [] && CodePoints([]) == [];
    ExtendByNothing([[]]);
  }

  lemma {:induction false} TypedText(s: seq<seq<Item>>, cols: nat, total: nat, style: Style)
    requires LinesOfItems(s) && s != [] && 2 <= cols && 0 < total && |TypeLines(s, cols, total, style).full| < total
    ensures TrimEach(PageLines(TypeLines(s, cols, total, style))) == TrimEach(SpreadEach(s, cols))
    decreases |s|
  {
    hide PageLines, TrimEach, SpreadEach, LineOfItems, TypeLines, PageOk;
    var n := |s| - 1;
    if n == 0 {
      assert s == [s[0]];
      OneTyped(s[0], cols, total, style);
    } else {
      assert s == s[..n] + [s[n]];
      MoreTypedGrows(s[..n], s[n], cols, total, style);
      TypedText(s[..n], cols, total, style);
      MoreTyped(s[..n], s[n], cols, total, style);
    }
  }

  lemma OneTyped(line: seq<Item>, cols: nat, total: nat, style: Style)
    requires LineOfItems(line) && 2 <= cols && 0 < total
    ensures TrimEach(PageLines(TypeLines([line], cols, total, style))) == TrimEach(SpreadEach([line], cols))
  {
    hide PageLines, TrimRight, Spread, TypeAll, TypeLines, Width;
    EmptyPage();
    TypeOneLine(line, cols, total, style);
    TypeAllLines(Page([], []), line, cols, style);
    var t := Spread(0, line, cols);
    assert [] + t == t;
    assert Extended([[]], t) == [t];
    assert SpreadEach([line], cols) == [t];
  }

  lemma MoreTypedGrows(s: seq<seq<Item>>, line: seq<Item>, cols: nat, total: nat, style: Style)
    requires LinesOfItems(s) && LineOfItems(line) && s != [] && 2 <= cols && 0 < total
    ensures LinesOfItems(s + [line])
    ensures |TypeLines(s, cols, total, style).full| < |TypeLines(s + [line], cols, total, style).full|
  {
    hide TypeAll, EndRow, TypeLines, PageOk;
    TypeMoreLines(s, line, cols, total, style);
    var p := TypeLines(s, cols, total, style);
    EndRowGrows(p, cols, total, style);
    TypeAllGrows(EndRow(p, cols, total, style), line, cols, style);
  }

  lemma MoreTyped(s: seq<seq<Item>>, line: seq<Item>, cols: nat, total: nat, style: Style)
    requires LinesOfItems(s) && LineOfItems(line) && s != [] && 2 <= cols && 0 < total
    requires |TypeLines(s, cols, total, style).full| < total
    requires TrimEach(PageLines(TypeLines(s, cols, total, style))) == TrimEach(SpreadEach(s, cols))
    ensures LinesOfItems(s + [line])
    ensures TrimEach(PageLines(TypeLines(s + [line], cols, total, style))) == TrimEach(SpreadEach(s + [line], cols))
  {
    hide PageLines, TrimRight, Spread, TypeAll, EndRow, TypeLines, Width, PageOk, Extended;
    TypeMoreLines(s, line, cols, total, style);
    var p, t := TypeLines(s, cols, total, style), Spread(0, line, cols);
    EndRowGrows(p, cols, total, style);
    var p1 := EndRow(p, cols, total, style);
    EndRowLines(p, cols, total, style);
    WidthOfNothing();
    TypeAllLines(p1, line, cols, style);
    var closed := Extended(PageLines(p), Spaces(cols - Width(p.tail)));
    TrimExtended(PageLines(p), Spaces(cols - Width(p.tail)));
    ExtendEmpty(closed, t);
    TrimEachAppend(closed, t);
    assert SpreadEach(s + [line], cols) == SpreadEach(s, cols) + [t];
    TrimEachAppend(SpreadEach(s, cols), t);
  }

  lemma ExtendEmpty(s: seq<seq<int>>, t: seq<int>)
    ensures Extended(s + [[]], t) == s + [t]
  {
    assert [] + t == t;
  }

  lemma EndRowGrows(p: Page, cols: nat, total: nat, style: Style)
    requires PageOk(p, cols) && 0 < total
    ensures |EndRow(p, cols, total, style).full| == |p.full| + 1 && EndRow(p, cols, total, style).tail == []
  {
  }

  lemma {:induction false} TypeAllGrows(p: Page, items: seq<Item>, cols: nat, style: Style)
    requires PageOk(p, cols) && AllMayFollow(p, items) && 2 <= cols
    ensures |p.full| <= |TypeAll(p, items, cols, style).full|
    decreases |items|
  {
    hide RowCells, Width;
    if items != [] {
      TypeStep(p, items, cols, style);
      TypeAllGrows(Type(p, items[0], cols, style), items[1..], cols, style);
    }
  }

  /** The rows of a page that no ring has recycled hold the lines that were typed. */
  lemma PageRowsLines(s: seq<seq<Item>>, cols: nat, total: nat, style: Style)
    requires LinesOfItems(s) && s != [] && 2 <= cols && 0 < total && |TypeLines(s, cols, total, style).full| < total
    ensures var p := TypeLines(s, cols, total, style);
            LinesOf(RowsOf(Rows(p, cols, total, style))) == DropEmpty(TrimEach(SpreadEach(s, cols)))
  {
    hide TextLines, Extended, TrimRight, Spread, TypeLines, DropEmpty, FullText, RowCells, Width;
    var p := TypeLines(s, cols, total, style);
    TypedText(s, cols, total, style);
    PageWidth(p, cols);
    NotStale(p.full, total);
    RowFullText(p.tail, cols, style);
    var line, spaces := CurrentLine(p, cols, total, style), Spaces(cols - Width(p.tail));
    RowsOfAppend(p.full, line);
    TextLinesAppend(RowsOf(p.full), RowOf(line));
    ExtendTwice(TextLines(RowsOf(p.full)), CodePoints(p.tail), spaces);
    TrimExtended(PageLines(p), spaces);
    var all := Extended(PageLines(p), spaces);
    TrimEachAppend(all, []);
    NothingTrimmed();
    DropOne(TrimEach(all));
  }
}
