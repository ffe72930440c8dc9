/** Rows written one after the other into a ring that starts empty: what the ring holds of them. */
module Pages {
  import opened Wrappers
  import opened Basics
  import opened TerminalRows
  import opened TerminalRing
  import opened FastResize
  import opened ReflowText

  function Blanks(cols: nat, n: nat, style: Style): (s: seq<Line>)
    ensures |s| == n && forall i :: 0 <= i < n ==> s[i] == BlankLine(cols, style, false)
  {
    seq(n, _ => BlankLine(cols, style, false))
  }

  /** No row outside the screen and the history counts as wrapped. */
  predicate Spare(r: Ring) {
    forall i :: r.rows <= i < |r.view| - r.active ==> r.view[i].Some? ==> !r.view[i].value.wrap
  }

  /** A row that is used again keeps its wrap flag: the row after full takes it from the row it replaces. */
  predicate Stale(full: seq<Line>, total: nat)
    requires 0 < total
  {
    total <= |full| && full[|full| - total].wrap
  }

  /** What a ring for total rows holds of the rows full and a last one. */
  function Window(full: seq<Line>, line: Line, total: nat): (s: seq<Line>)
    ensures |s| == Min(|full| + 1, total)
  {
    Last(full + [line], Min(|full| + 1, total))
  }

  /** The rows full have been written, line is the one at the given row of the screen, and those below are blank. */
  predicate LinesOn(r: Ring, row: nat, full: seq<Line>, line: Line, style: Style) {
    && Valid(r) && row < r.rows && Spare(r) && r.active + row + 1 == Min(|full| + 1, |r.view|)
    && AllLines(r) == Window(full, line, |r.view|) + Blanks(r.cols, r.rows - 1 - row, style)
  }

  lemma WithRowLines(r: Ring, row: nat, line: Line)
    requires Valid(r) && row < r.rows && LineOk(Some(line), r.cols)
    ensures AllLines(WithRow(r, row, line)) == AllLines(r)[r.active + row := line]
  {
    var r' := WithRow(r, row, line);
    assert History(r') == History(r);
    assert Screen(r') == Screen(r)[row := line];
  }

  lemma WindowUpdate(full: seq<Line>, line: Line, line': Line, total: nat)
    requires 0 < total
    ensures Window(full, line, total)[Min(|full| + 1, total) - 1 := line'] == Window(full, line', total)
  {
    hide Last;
    var m := Min(|full| + 1, total);
    forall i: nat | i < m ensures Window(full, line, total)[m - 1 := line'][i] == Window(full, line', total)[i] {
      LastAt(full + [line], m, i);
      LastAt(full + [line'], m, i);
    }
  }

  lemma LastOfWindow(full: seq<Line>, line: Line, total: nat)
    requires 0 < total
    ensures var w := Window(full, line, total); w != [] && w[|w| - 1] == line
  {
  }

  lemma LineHere(r: Ring, row: nat, full: seq<Line>, line: Line, style: Style)
    requires LinesOn(r, row, full, line, style)
    ensures r.view[row] == Some(line)
  {
    hide AllLines, Window;
    LineAt(r, r.active + row);
    LastOfWindow(full, line, |r.view|);
  }

  /** Writing on the current row. */
  lemma LineWritten(r: Ring, row: nat, full: seq<Line>, line: Line, line': Line, style: Style)
    requires LinesOn(r, row, full, line, style) && LineOk(Some(line'), r.cols)
    ensures LinesOn(WithRow(r, row, line'), row, full, line', style)
  {
    hide AllLines, Window, LineOk;
    var r' := WithRow(r, row, line');
    WithRowLines(r, row, line');
    WindowUpdate(full, line, line', |r.view|);
    var k := Min(|full| + 1, |r.view|) - 1;
    assert (Window(full, line, |r.view|) + Blanks(r.cols, r.rows - 1 - row, style))[k := line']
           == Window(full, line, |r.view|)[k := line'] + Blanks(r.cols, r.rows - 1 - row, style);
  }

  /** A scroll while there is room: no line is lost. */
  lemma ScrollLinesUp(r: Ring, style: Style)
    requires Valid(r) && Spare(r) && r.active + r.rows < |r.view|
    ensures var r' := Scroll(r, 0, r.rows, style);
            Spare(r') && r'.active == r.active + 1 && AllLines(r') == AllLines(r) + [BlankLine(r.cols, style, false)]
  {
    var r' := Scroll(r, 0, r.rows, style);
    ScrollWhole(r, style);
    ScrollScreen(r, 0, r.rows, style);
    forall i | r.rows <= i < |r.view| - r'.active ensures r'.view[i].Some? ==> !r'.view[i].value.wrap {
      ScrolledViewAt(r, 0, r.rows, style, i);
    }
  }

  /** A scroll of a full ring: the oldest line is lost, and its row with its wrap flag is the new one. */
  lemma ScrollFullRing(r: Ring, style: Style)
    requires Valid(r) && r.active + r.rows == |r.view|
    ensures var r' := Scroll(r, 0, r.rows, style);
            && Spare(r') && r'.active == r.active
            && AllLines(r') == AllLines(r)[1..] + [BlankLine(r.cols, style, AllLines(r)[0].wrap)]
  {
    hide History, Screen, Last, ScrolledView;
    var r' := Scroll(r, 0, r.rows, style);
    ScrollRefinesListScroll(r, 0, r.rows, style);
    LineAt(r, 0);
    var line := BlankLine(r.cols, style, AllLines(r)[0].wrap);
    WholeRegion(Screen(r), line);
    OldestDropped(History(r), Screen(r), line);
  }

  lemma OldestDropped(h: seq<Line>, s: seq<Line>, line: Line)
    requires s != []
    ensures Last(h + [s[0]], |h|) + (s[1..] + [line]) == (h + s)[1..] + [line]
  {
  }

  lemma WindowWithRoom(full: seq<Line>, line: Line, next: Line, total: nat)
    requires |full| + 1 < total
    ensures Window(full + [line], next, total) == Window(full, line, total) + [next]
  {
  }

  lemma FullWindow(full: seq<Line>, line: Line, next: Line, total: nat)
    requires 0 < total <= |full| + 1
    ensures Window(full + [line], next, total) == Window(full, line, total)[1..] + [next]
    ensures Window(full, line, total)[0].wrap == Stale(full + [line], total)
  {
  }

  lemma NotStale(full: seq<Line>, total: nat)
    requires |full| < total
    ensures !Stale(full, total)
  {
  }

  /** Going to the next row, scrolling at the bottom of the screen. */
  lemma LineEnded(r: Ring, row: nat, full: seq<Line>, line: Line, style: Style)
    requires LinesOn(r, row, full, line, style)
    ensures var r' := if row + 1 < r.rows then r else Scroll(r, 0, r.rows, style);
            && r'.cols == r.cols && r'.rows == r.rows && |r'.view| == |r.view|
            && LinesOn(r', if row + 1 < r.rows then row + 1 else row, full + [line],
                       BlankLine(r.cols, style, Stale(full + [line], |r.view|)), style)
  {
    hide AllLines, Scroll, Window, Stale, BlankLine;
    var total, k := |r.view|, r.rows - 1 - row;
    var w, next := Window(full, line, total), BlankLine(r.cols, style, Stale(full + [line], total));
    if |full| + 1 < total {
      WindowWithRoom(full, line, next, total);
      NotStale(full + [line], total);
      if k > 0 {
        assert Blanks(r.cols, k, style) == [BlankLine(r.cols, style, false)] + Blanks(r.cols, k - 1, style);
        Assoc(w, [next], Blanks(r.cols, k - 1, style));
      } else {
        ScrollLinesUp(r, style);
        assert w + Blanks(r.cols, 0, style) == w && w + [next] + Blanks(r.cols, 0, style) == w + [next];
      }
    } else {
      assert k == 0;
      assert w + Blanks(r.cols, 0, style) == w;
      ScrollFullRing(r, style);
      FullWindow(full, line, next, total);
      assert w[1..] + [next] + Blanks(r.cols, 0, style) == w[1..] + [next];
    }
  }
}
