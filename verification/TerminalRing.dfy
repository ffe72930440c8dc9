/**
  The ring of rows of a terminal buffer (TerminalBuffer.java), as a value: the
  rows are listed from the first screen row on, so that the screen is a prefix
  and the scroll history a suffix.
 */
module TerminalRing {
  import opened Wrappers
  import opened TerminalRows
  import opened Rotation

  /**
    first is the physical index of the first screen row; it matters only when
    the length of the ring changes.
   */
  datatype Ring = Ring(view: seq<Option<Line>>, first: nat, active: nat, rows: nat, cols: nat)

  predicate LineOk(line: Option<Line>, cols: nat) {
    line.Some? ==> |line.value.cells| == cols && WellFormed(line.value.cells)
  }

  /** Sizes fit, and every row that exists is a well-formed row of the ring's width. */
  predicate Shaped(r: Ring) {
    && 1 <= r.rows && 1 <= r.cols
    && r.rows + r.active <= |r.view|
    && forall i :: 0 <= i < |r.view| ==> LineOk(r.view[i], r.cols)
  }

  /** Additionally, all rows of the screen and the history exist. */
  predicate Valid(r: Ring) {
    && Shaped(r)
    && (forall i :: 0 <= i < r.rows ==> r.view[i].Some?)
    && (forall i :: |r.view| - r.active <= i < |r.view| ==> r.view[i].Some?)
  }

  function Lines(view: seq<Option<Line>>): (s: seq<Line>)
    requires forall i :: 0 <= i < |view| ==> view[i].Some?
    ensures |s| == |view|
    ensures forall i :: 0 <= i < |s| ==> s[i] == view[i].value
  {
    seq(|view|, i requires 0 <= i < |view| => view[i].value)
  }

  function Screen(r: Ring): (s: seq<Line>)
    requires Valid(r)
    ensures |s| == r.rows
  {
    Lines(r.view[..r.rows])
  }

  function History(r: Ring): (s: seq<Line>)
    requires Valid(r)
    ensures |s| == r.active
  {
    Lines(r.view[|r.view| - r.active..])
  }

  function BlankLine(cols: nat, style: Style, wrap: bool): Line {
    Line(BlankCells(cols, style), wrap)
  }

  /** TerminalRow.clear keeps the wrap flag of the row it blanks. */
  function Cleared(line: Option<Line>, cols: nat, style: Style): (l: Line)
    ensures |l.cells| == cols && WellFormed(l.cells)
  {
    BlankLine(cols, style, line.Some? && line.value.wrap)
  }

  /** A row that does not exist yet is created blank, in style 0. */
  function RowAt(r: Ring, i: nat): (l: Line)
    requires Shaped(r) && i < |r.view|
    ensures LineOk(Some(l), r.cols)
  {
    if r.view[i].Some? then r.view[i].value else BlankLine(r.cols, ZERO_STYLE, false)
  }

  function WithRow(r: Ring, i: nat, line: Line): (r': Ring)
    requires Shaped(r) && i < |r.view| && LineOk(Some(line), r.cols)
    ensures Shaped(r') && (Valid(r) ==> Valid(r'))
  {
    r.(view := r.view[i := Some(line)])
  }

  /** allocateFullLineIfNecessary. */
  function Allocated(r: Ring, i: nat): (r': Ring)
    requires Shaped(r) && i < |r.view|
    ensures Shaped(r') && (r.view[i].Some? ==> r' == r)
    ensures r' == r.(view := r'.view) && |r'.view| == |r.view|
    ensures r'.view[i].Some? && forall j :: 0 <= j < |r.view| && r.view[j].Some? ==> r'.view[j] == r.view[j]
  {
    WithRow(r, i, RowAt(r, i))
  }

  // ----- Construction -----

  /** The first n of all rows exist and are blank. */
  function FreshRows(cols: nat, total: nat, n: nat, style: Style): (v: seq<Option<Line>>)
    ensures |v| == total
    ensures forall i :: 0 <= i < total ==> v[i] == if i < n then Some(BlankLine(cols, style, false)) else None
  {
    var blank := BlankLine(cols, style, false);
    seq(total, i => if i < n then Some(blank) else None)
  }

  function Fresh(cols: nat, total: nat, rows: nat, style: Style): (r: Ring)
    requires 1 <= cols && 1 <= rows <= total
    ensures Valid(r)
  {
    Ring(FreshRows(cols, total, rows, style), 0, 0, rows, cols)
  }

  // ----- Writing -----

  function SetChar(r: Ring, col: nat, row: nat, g: Glyph, style: Style): (r': Ring)
    requires Shaped(r) && row < r.rows && col < r.cols
    requires ValidGlyph(g) && (g.width == 2 ==> col + 1 < r.cols)
    ensures Shaped(r') && (Valid(r) ==> Valid(r'))
    ensures r' == r.(view := r'.view) && |r'.view| == |r.view|
  {
    var line := RowAt(r, row);
    WithRow(r, row, line.(cells := Put(line.cells, col, g, style)))
  }

  function SetLineWrap(r: Ring, row: nat, wrap: bool): (r': Ring)
    requires Valid(r) && row < r.rows
    ensures Valid(r')
    ensures r' == r.(view := r'.view) && |r'.view| == |r.view|
  {
    WithRow(r, row, r.view[row].value.(wrap := wrap))
  }

  /** The first w columns, from column sx on, of a row are overwritten. */
  function FillCells(cells: seq<Cell>, sx: nat, w: nat, codePoint: int, style: Style): (c: seq<Cell>)
    requires WellFormed(cells) && sx + w <= |cells|
    ensures |c| == |cells| && WellFormed(c)
    decreases w
  {
    if w == 0 then cells
    else Put(FillCells(cells, sx, w - 1, codePoint, style), sx + w - 1, Glyph(codePoint, 1), style)
  }

  /** blockSet, for code points of width 1; nothing happens when w or h is not positive. */
  function BlockSet(r: Ring, sx: nat, sy: int, w: int, h: int, codePoint: int, style: Style): (r': Ring)
    requires Shaped(r) && 0 <= sy && sx + w <= r.cols && sy + h <= r.rows
    ensures Shaped(r') && (Valid(r) ==> Valid(r'))
    ensures r' == r.(view := r'.view) && |r'.view| == |r.view|
    decreases if h < 0 then 0 else h
  {
    if h <= 0 || w <= 0 then r
    else
      var r1 := BlockSet(r, sx, sy, w, h - 1, codePoint, style);
      var line := RowAt(r1, sy + h - 1);
      WithRow(r1, sy + h - 1, line.(cells := FillCells(line.cells, sx, w, codePoint, style)))
  }

  /** On rows of width-1 characters, filling overwrites exactly the given columns. */
  lemma {:induction false} FillNarrow(cells: seq<Cell>, sx: nat, w: nat, codePoint: int, style: Style)
    requires Narrow(cells) && sx + w <= |cells|
    ensures FillCells(cells, sx, w, codePoint, style)
            == cells[..sx] + seq(w, _ => Cell([codePoint], style)) + cells[sx + w..]
    decreases w
  {
    hide Put;
    if w > 0 {
      FillNarrow(cells, sx, w - 1, codePoint, style);
      PutNarrowOnNarrow(FillCells(cells, sx, w - 1, codePoint, style), sx + w - 1, codePoint, style);
    }
  }

  /** The constructor's blockSet creates the rows of the screen. */
  lemma {:induction false} BlankScreenRows(cols: nat, total: nat, rows: nat, h: nat, style: Style)
    requires 1 <= cols && 1 <= rows <= total && h <= rows
    ensures BlockSet(Ring(FreshRows(cols, total, 0, style), 0, 0, rows, cols), 0, 0, cols, h, SPACE, style).view
            == FreshRows(cols, total, h, style)
    decreases h
  {
    hide FillCells;
    if h > 0 {
      BlankScreenRows(cols, total, rows, h - 1, style);
      var blank := BlankCells(cols, ZERO_STYLE);
      FillNarrow(blank, 0, cols, SPACE, style);
      assert FillCells(blank, 0, cols, SPACE, style) == BlankCells(cols, style);
      assert FreshRows(cols, total, h - 1, style)[h - 1 := Some(BlankLine(cols, style, false))]
             == FreshRows(cols, total, h, style);
    }
  }

  /** A block set that has finished y rows and x columns of the next one. */
  function PartialBlockSet(r: Ring, sx: nat, sy: nat, w: nat, y: nat, x: nat, codePoint: int, style: Style): (r': Ring)
    requires Shaped(r) && sx + w <= r.cols && sy + y < r.rows && x <= w
    ensures Shaped(r') && (Valid(r) ==> Valid(r'))
    ensures r' == r.(view := r'.view) && |r'.view| == |r.view|
  {
    var r1 := BlockSet(r, sx, sy, w, y, codePoint, style);
    var line := RowAt(r1, sy + y);
    if x == 0 then r1
    else WithRow(r1, sy + y, line.(cells := FillCells(line.cells, sx, x, codePoint, style)))
  }

  lemma PartialBlockSetStep(r: Ring, sx: nat, sy: nat, w: nat, y: nat, x: nat, codePoint: int, style: Style)
    requires Shaped(r) && sx + w <= r.cols && sy + y < r.rows && x < w
    ensures SetChar(PartialBlockSet(r, sx, sy, w, y, x, codePoint, style), sx + x, sy + y, Glyph(codePoint, 1), style)
            == PartialBlockSet(r, sx, sy, w, y, x + 1, codePoint, style)
  {
    var r1 := BlockSet(r, sx, sy, w, y, codePoint, style);
    var line := RowAt(r1, sy + y);
    var r2 := PartialBlockSet(r, sx, sy, w, y, x, codePoint, style);
    assert RowAt(r2, sy + y) == line.(cells := FillCells(line.cells, sx, x, codePoint, style));
  }

  lemma PartialBlockSetEnds(r: Ring, sx: nat, sy: nat, w: nat, y: nat, codePoint: int, style: Style)
    requires Shaped(r) && 0 < w && sx + w <= r.cols && sy + y < r.rows
    ensures PartialBlockSet(r, sx, sy, w, y, 0, codePoint, style) == BlockSet(r, sx, sy, w, y, codePoint, style)
    ensures PartialBlockSet(r, sx, sy, w, y, w, codePoint, style) == BlockSet(r, sx, sy, w, y + 1, codePoint, style)
  {
    hide FillCells;
  }

  /** One row of a block copy. */
  function CopyRow(r: Ring, sx: nat, sy: nat, w: nat, dx: nat, dy: nat): (r': Ring)
    requires Shaped(r) && sx + w <= r.cols && sy < r.rows && dx + w <= r.cols && dy < r.rows
    ensures Shaped(r') && (Valid(r) ==> Valid(r'))
    ensures r' == r.(view := r'.view) && |r'.view| == |r.view|
  {
    var r2 := Allocated(Allocated(r, sy), dy);
    var dest, source := r2.view[dy].value, r2.view[sy].value;
    WithRow(r2, dy, dest.(cells := CopyInterval(dest.cells, source.cells, sx, sx + w, dx, sy == dy)))
  }

  /** The first n rows of a block copy, taken from the top when copying up and from the bottom otherwise. */
  function CopyRows(r: Ring, sx: nat, sy: nat, w: nat, h: nat, dx: nat, dy: nat, n: nat): (r': Ring)
    requires Shaped(r) && sx + w <= r.cols && sy + h <= r.rows && dx + w <= r.cols && dy + h <= r.rows && n <= h
    ensures Shaped(r') && (Valid(r) ==> Valid(r'))
    ensures r' == r.(view := r'.view) && |r'.view| == |r.view|
    decreases n
  {
    if n == 0 then r
    else
      var y := if sy > dy then n - 1 else h - n;
      CopyRow(CopyRows(r, sx, sy, w, h, dx, dy, n - 1), sx, sy + y, w, dx, dy + y)
  }

  function BlockCopy(r: Ring, sx: nat, sy: nat, w: nat, h: nat, dx: nat, dy: nat): (r': Ring)
    requires Shaped(r) && sx + w <= r.cols && sy + h <= r.rows && dx + w <= r.cols && dy + h <= r.rows
    ensures Shaped(r') && (Valid(r) ==> Valid(r'))
    ensures r' == r.(view := r'.view) && |r'.view| == |r.view|
  {
    if w == 0 then r else CopyRows(r, sx, sy, w, h, dx, dy, h)
  }

  // ----- Scrolling -----

  /**
    The rows of a ring after one scroll step: the row at the top of the region goes to the end of the history,
    and the first row behind the screen (or, with no such row, the one just removed) enters above the bottom.
   */
  function Shift<T>(v: seq<T>, rows: nat, top: nat, bottom: nat): (v': seq<T>)
    requires top < bottom <= rows <= |v|
    ensures |v'| == |v|
  {
    if rows < |v| then
      v[..top] + v[top + 1..bottom] + [v[rows]] + v[bottom..rows] + v[rows + 1..] + [v[top]]
    else
      v[..top] + v[top + 1..bottom] + [v[top]] + v[bottom..]
  }

  function ScrolledView(r: Ring, top: nat, bottom: nat, style: Style): (v: seq<Option<Line>>)
    requires Shaped(r) && top < bottom <= r.rows
    ensures |v| == |r.view|
  {
    var v := Shift(r.view, r.rows, top, bottom);
    v[bottom - 1 := Some(Cleared(v[bottom - 1], r.cols, style))]
  }

  lemma ShiftAt<T>(v: seq<T>, rows: nat, top: nat, bottom: nat, i: nat)
    requires top < bottom <= rows <= |v| && i < |v|
    ensures Shift(v, rows, top, bottom)[i]
            == if i < top || bottom <= i < rows then v[i]
               else if i < bottom - 1 then v[i + 1]
               else if i == bottom - 1 then (if rows < |v| then v[rows] else v[top])
               else if i < |v| - 1 then v[i + 1]
               else v[top]
  {
  }

  lemma ScrolledViewLines(r: Ring, top: nat, bottom: nat, style: Style)
    requires Valid(r) && top < bottom <= r.rows
    ensures forall i :: 0 <= i < |r.view| ==> LineOk(ScrolledView(r, top, bottom, style)[i], r.cols)
    ensures forall i :: 0 <= i < r.rows ==> ScrolledView(r, top, bottom, style)[i].Some?
    ensures forall i :: |r.view| - r.active <= i < |r.view| ==> ScrolledView(r, top, bottom, style)[i].Some?
    ensures r.rows < |r.view| ==> ScrolledView(r, top, bottom, style)[|r.view| - r.active - 1].Some?
  {
    forall i | 0 <= i < |r.view|
      ensures LineOk(ScrolledView(r, top, bottom, style)[i], r.cols)
      ensures i < r.rows || |r.view| - r.active <= i + 1 ==> ScrolledView(r, top, bottom, style)[i].Some?
    {
      ShiftAt(r.view, r.rows, top, bottom, i);
    }
  }

  /** scrollDownOneLine: one line leaves the region at its top, one blank line enters at its bottom. */
  function Scroll(r: Ring, top: nat, bottom: nat, style: Style): (r': Ring)
    requires Valid(r) && top < bottom <= r.rows
    ensures Valid(r') && r'.rows == r.rows && r'.cols == r.cols && |r'.view| == |r.view| && r'.first < |r.view|
  {
    ScrolledViewLines(r, top, bottom, style);
    Ring(ScrolledView(r, top, bottom, style), Index(r.first, 1, |r.view|),
         if r.active < |r.view| - r.rows then r.active + 1 else r.active, r.rows, r.cols)
  }

  /** The last n elements. */
  function Last<T>(s: seq<T>, n: nat): seq<T>
    requires n <= |s|
  {
    s[|s| - n..]
  }

  /** The scrolled view row by row. */
  lemma ScrolledViewAt(r: Ring, top: nat, bottom: nat, style: Style, i: nat)
    requires Shaped(r) && top < bottom <= r.rows && i < |r.view|
    ensures ScrolledView(r, top, bottom, style)[i]
            == if i < top || bottom <= i < r.rows then r.view[i]
               else if i < bottom - 1 then r.view[i + 1]
               else if i == bottom - 1 then
                 Some(Cleared(if r.rows < |r.view| then r.view[r.rows] else r.view[top], r.cols, style))
               else if i < |r.view| - 1 then r.view[i + 1]
               else r.view[top]
  {
    ShiftAt(r.view, r.rows, top, bottom, i);
  }

  lemma ScrollScreen(r: Ring, top: nat, bottom: nat, style: Style)
    requires Valid(r) && top < bottom <= r.rows
    ensures var recycled := if r.rows < |r.view| then r.view[r.rows] else r.view[top];
            Screen(Scroll(r, top, bottom, style))
            == Screen(r)[..top] + Screen(r)[top + 1..bottom] + [Cleared(recycled, r.cols, style)] + Screen(r)[bottom..]
  {
    var recycled := if r.rows < |r.view| then r.view[r.rows] else r.view[top];
    var a := Screen(Scroll(r, top, bottom, style));
    var b := Screen(r)[..top] + Screen(r)[top + 1..bottom] + [Cleared(recycled, r.cols, style)] + Screen(r)[bottom..];
    forall i | 0 <= i < r.rows ensures a[i] == b[i] {
      ScrolledViewAt(r, top, bottom, style, i);
    }
  }

  lemma ScreenAt(r: Ring, i: nat)
    requires Valid(r) && i < r.rows
    ensures Screen(r)[i] == r.view[i].value
  {
  }

  lemma HistoryAt(r: Ring, i: nat)
    requires Valid(r) && i < r.active
    ensures History(r)[i] == r.view[|r.view| - r.active + i].value
  {
  }

  lemma LastAt<T>(s: seq<T>, n: nat, k: nat)
    requires k < n <= |s|
    ensures |Last(s, n)| == n && Last(s, n)[k] == s[|s| - n + k]
  {
  }

  lemma LastSize<T>(s: seq<T>, n: nat)
    requires n <= |s|
    ensures |Last(s, n)| == n
  {
  }

  lemma ScrollHistoryAt(r: Ring, top: nat, bottom: nat, style: Style, k: nat)
    requires Valid(r) && top < bottom <= r.rows && k < Scroll(r, top, bottom, style).active
    ensures var r' := Scroll(r, top, bottom, style); var h := History(r) + [Screen(r)[top]];
            History(r')[k] == h[|h| - r'.active + k]
  {
    hide ScrolledView, LineOk, Index, Screen, History;
    var r' := Scroll(r, top, bottom, style);
    HistoryAt(r', k);
    ScrolledViewAt(r, top, bottom, style, |r.view| - r'.active + k);
    if k < r'.active - 1 {
      HistoryAt(r, k + 1 + r.active - r'.active);
    } else {
      ScreenAt(r, top);
    }
  }

  lemma ScrollHistory(r: Ring, top: nat, bottom: nat, style: Style)
    requires Valid(r) && top < bottom <= r.rows
    ensures History(Scroll(r, top, bottom, style))
            == Last(History(r) + [Screen(r)[top]], if r.active < |r.view| - r.rows then r.active + 1 else r.active)
  {
    hide Valid, Index, Screen, History, Last, ScrolledView;
    var r' := Scroll(r, top, bottom, style);
    var h := History(r) + [Screen(r)[top]];
    LastSize(h, r'.active);
    forall k: nat | k < r'.active ensures History(r')[k] == Last(h, r'.active)[k] {
      ScrollHistoryAt(r, top, bottom, style, k);
      LastAt(h, r'.active, k);
    }
    assert History(r') == Last(h, r'.active);
  }

  /** In terms of lists: the region loses its top line to the history, whose oldest line is dropped when it is full. */
  lemma ScrollRefinesListScroll(r: Ring, top: nat, bottom: nat, style: Style)
    requires Valid(r) && top < bottom <= r.rows
    ensures var s, h, capacity := Screen(r), History(r), |r.view| - r.rows;
            var recycled := if r.rows < |r.view| then r.view[r.rows] else r.view[top];
            && Screen(Scroll(r, top, bottom, style))
               == s[..top] + s[top + 1..bottom] + [Cleared(recycled, r.cols, style)] + s[bottom..]
            && History(Scroll(r, top, bottom, style))
               == Last(h + [s[top]], if |h| < capacity then |h| + 1 else capacity)
  {
    ScrollScreen(r, top, bottom, style);
    ScrollHistory(r, top, bottom, style);
  }

  /**
    The revealed line does not count as wrapped exactly if the row that is used for
    it did not exist or was unwrapped.
   */
  lemma RevealedLineWraps(r: Ring, top: nat, bottom: nat, style: Style)
    requires Valid(r) && top < bottom <= r.rows
    ensures var recycled := if r.rows < |r.view| then r.view[r.rows] else r.view[top];
            !Screen(Scroll(r, top, bottom, style))[bottom - 1].wrap <==> recycled.None? || !recycled.value.wrap
  {
    hide ScrolledView;
    ScrolledViewAt(r, top, bottom, style, bottom - 1);
    ScreenAt(Scroll(r, top, bottom, style), bottom - 1);
  }

  // ----- Clearing the history -----

  function ClearTranscript(r: Ring): (r': Ring)
    requires Valid(r)
    ensures Valid(r') && Screen(r') == Screen(r) && History(r') == []
  {
    r.(view := r.view[..|r.view| - r.active] + seq(r.active, _ => None), active := 0)
  }
}
