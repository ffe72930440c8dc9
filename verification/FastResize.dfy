/** Changing the number of rows while the columns stay (the first branch of TerminalBuffer.resize). */
module FastResize {
  import opened Wrappers
  import opened TerminalRows
  import opened TerminalRing
  import opened Rotation

  predicate IsBlank(line: Line) {
    forall i :: 0 <= i < |line.cells| ==> forall j :: 0 <= j < |line.cells[i].text| ==> line.cells[i].text[j] == SPACE
  }

  predicate BlankAt(r: Ring, i: nat)
    requires i < |r.view|
  {
    r.view[i].Some? ==> IsBlank(r.view[i].value)
  }

  /** Going up from row i, every blank row below the cursor saves one row of the shift. */
  function SkipBlankRows(r: Ring, cursorRow: int, i: nat, shift: nat): (s: nat)
    requires i < r.rows <= |r.view|
    ensures s <= shift
    ensures shift - s <= i && (cursorRow >= 0 && cursorRow <= i ==> shift - s <= i - cursorRow)
    decreases i
  {
    if i == 0 || cursorRow >= i || shift == 0 then shift
    else SkipBlankRows(r, cursorRow, i - 1, if BlankAt(r, i) then shift - 1 else shift)
  }

  /** How far the top of the screen moves down the ring; negative when rows come back from the history. */
  function ShiftOfTop(r: Ring, newRows: nat, cursorRow: int): (s: int)
    requires Shaped(r) && 1 <= newRows
    ensures newRows < r.rows ==> 0 <= s <= r.rows - newRows
    ensures newRows >= r.rows ==> s <= 0 && r.rows - newRows <= s && -(r.active as int) <= s
  {
    if newRows < r.rows then SkipBlankRows(r, cursorRow, r.rows - 1, r.rows - newRows)
    else if newRows - r.rows <= r.active then r.rows - newRows
    else -(r.active as int)
  }

  /** The rows that a growing screen uncovers below its bottom are blanked. */
  function ClearedRows(v: seq<Option<Line>>, from: nat, n: nat, cols: nat, style: Style): (v': seq<Option<Line>>)
    requires from + n <= |v|
    ensures |v'| == |v|
    ensures forall i :: 0 <= i < |v| ==>
              v'[i] == if from <= i < from + n then Some(Cleared(v[i], cols, style)) else v[i]
  {
    seq(|v|, i requires 0 <= i < |v| => if from <= i < from + n then Some(Cleared(v[i], cols, style)) else v[i])
  }

  function Uncovered(r: Ring, newRows: nat, style: Style): (v: seq<Option<Line>>)
    requires Shaped(r) && newRows <= |r.view|
    ensures |v| == |r.view|
  {
    if newRows - r.rows > r.active then ClearedRows(r.view, r.rows, newRows - r.rows - r.active, r.cols, style)
    else r.view
  }

  /** The steps from the first row to the new first row. */
  function Turn(shift: int, total: nat): (k: nat)
    requires -(total as int) <= shift <= total
    ensures k <= total
  {
    if shift < 0 then shift + total else shift
  }

  /** A ring whose array is from now on used only up to a new total. */
  function Reindexed<T>(v: seq<T>, first: nat, newTotal: nat): (v': seq<T>)
    requires 1 <= newTotal <= |v|
    ensures |v'| == newTotal
  {
    Rotate(Rotate(v, |v| - Index(first, 0, |v|))[..newTotal], first)
  }

  lemma ReindexedMembers<T>(v: seq<T>, first: nat, newTotal: nat)
    requires 1 <= newTotal <= |v|
    ensures forall i :: 0 <= i < newTotal ==> Reindexed(v, first, newTotal)[i] in v
  {
    var p := Rotate(v, |v| - Index(first, 0, |v|));
    assert forall i :: 0 <= i < |v| ==> p[i] in v;
    assert forall i :: 0 <= i < newTotal ==> Rotate(p[..newTotal], first)[i] in p;
  }

  lemma ReindexedSame<T>(v: seq<T>, first: nat)
    requires 0 < |v|
    ensures Reindexed(v, first, |v|) == v
  {
    var n, k := |v|, Index(first, 0, |v|);
    DivModUnique(n - k, if k == 0 then 1 else 0, if k == 0 then 0 else n - k, n);
    var p := Rotate(v, n - k);
    assert p[..n] == p;
  }

  /** The ring with its first row moved by the shift. */
  function Turned(r: Ring, shift: int, newRows: nat, newTotal: nat, style: Style, alt: bool): (r': Ring)
    requires Shaped(r) && 1 <= newRows <= newTotal <= |r.view|
    requires -(r.active as int) <= shift <= r.rows
  {
    var v, k := Uncovered(r, newRows, style), Turn(shift, |r.view|);
    var first := Index(r.first, k, |r.view|);
    Ring(Reindexed(v[k..] + v[..k], first, newTotal), first, if alt then 0 else r.active + shift, newRows, r.cols)
  }

  lemma TurnedShaped(r: Ring, shift: int, newRows: nat, newTotal: nat, style: Style, alt: bool)
    requires Shaped(r) && 1 <= newRows <= newTotal <= |r.view|
    requires -(r.active as int) <= shift <= r.rows && (alt || newRows + r.active + shift <= newTotal)
    ensures Shaped(Turned(r, shift, newRows, newTotal, style, alt))
  {
    hide Index, Reindexed;
    var v, k := Uncovered(r, newRows, style), Turn(shift, |r.view|);
    var turned, first := v[k..] + v[..k], Index(r.first, k, |r.view|);
    assert forall i :: 0 <= i < |v| ==> LineOk(turned[i], r.cols);
    ReindexedMembers(turned, first, newTotal);
    forall i | 0 <= i < newTotal
      ensures LineOk(Reindexed(turned, first, newTotal)[i], r.cols)
    {
      assert Reindexed(turned, first, newTotal)[i] in turned;
    }
  }

  function Resized(r: Ring, newRows: nat, newTotal: nat, cursorRow: int, style: Style, alt: bool): (r': Ring)
    requires Shaped(r) && 1 <= newRows <= newTotal <= |r.view|
  {
    Turned(r, ShiftOfTop(r, newRows, cursorRow), newRows, newTotal, style, alt)
  }

  // ----- The main screen: the total stays -----

  /** The history followed by the screen. */
  function AllLines(r: Ring): (s: seq<Line>)
    requires Valid(r)
    ensures |s| == r.active + r.rows
  {
    History(r) + Screen(r)
  }

  lemma TurnedValid(r: Ring, shift: int, newRows: nat, style: Style)
    requires Valid(r) && 1 <= newRows <= |r.view|
    requires if newRows < r.rows then 0 <= shift <= r.rows - newRows
             else shift == if newRows - r.rows <= r.active then r.rows - newRows else -(r.active as int)
    ensures var r' := Turned(r, shift, newRows, |r.view|, style, false);
            var k := Turn(shift, |r.view|);
            && Valid(r') && |r'.view| == |r.view| && r'.rows == newRows && r'.cols == r.cols
            && r'.active == r.active + shift
            && r'.view == Uncovered(r, newRows, style)[k..] + Uncovered(r, newRows, style)[..k]
  {
    hide Reindexed, Index, Uncovered, LineOk;
    var v, k := Uncovered(r, newRows, style), Turn(shift, |r.view|);
    ReindexedSame(v[k..] + v[..k], Index(r.first, k, |r.view|));
    var r' := Turned(r, shift, newRows, |r.view|, style, false);
    forall i | 0 <= i < |r.view|
      ensures LineOk(r'.view[i], r.cols)
      ensures i < newRows || |r.view| - (r.active + shift) <= i ==> r'.view[i].Some?
    {
      var j := if i < |r.view| - k then i + k else i + k - |r.view|;
      assert r'.view[i] == v[j];
      UncoveredRow(r, newRows, style, j);
    }
  }

  /** The rows of the screen, of the history and those uncovered exist. */
  lemma UncoveredRow(r: Ring, newRows: nat, style: Style, j: nat)
    requires Valid(r) && newRows <= |r.view| && j < |r.view|
    ensures LineOk(Uncovered(r, newRows, style)[j], r.cols)
    ensures j < r.rows || |r.view| - r.active <= j || (r.active < newRows - r.rows && j < newRows - r.active) ==>
              Uncovered(r, newRows, style)[j].Some?
  {
  }

  /**
    Row i of the new history and screen, counted from the oldest, is row i of the old one as long as that exists,
    and a cleared row after it.  So rows are only cut off or added at the bottom, and no history is lost.
   */
  lemma ResizeKeepsLines(r: Ring, newRows: nat, cursorRow: int, style: Style)
    requires Valid(r) && 1 <= newRows <= |r.view|
    ensures var r' := Resized(r, newRows, |r.view|, cursorRow, style, false);
            && Valid(r') && r'.rows == newRows && r'.active == r.active + ShiftOfTop(r, newRows, cursorRow)
            && (forall i :: 0 <= i < |AllLines(r')| && i < |AllLines(r)| ==> AllLines(r')[i] == AllLines(r)[i])
            && (forall i :: |AllLines(r)| <= i < |AllLines(r')| ==> IsBlank(AllLines(r')[i]))
            && (|AllLines(r')| < |AllLines(r)| ==> newRows < r.rows)
  {
    var shift := ShiftOfTop(r, newRows, cursorRow);
    TurnedValid(r, shift, newRows, style);
    hide Turned, Valid;
    var r' := Resized(r, newRows, |r.view|, cursorRow, style, false);
    forall i | 0 <= i < |AllLines(r')|
      ensures i < |AllLines(r)| ==> AllLines(r')[i] == AllLines(r)[i]
      ensures |AllLines(r)| <= i ==> IsBlank(AllLines(r')[i])
    {
      LineAfterTurn(r, r', shift, newRows, style, i);
    }
  }

  /** Where line i of history and screen stands in the view. */
  function Position(i: nat, active: nat, total: nat): (k: nat)
    requires active <= total && i < total
    ensures k < total
  {
    if i < active then total - active + i else i - active
  }

  lemma LineAt(r: Ring, i: nat)
    requires Valid(r) && i < r.active + r.rows
    ensures Some(AllLines(r)[i]) == r.view[Position(i, r.active, |r.view|)]
  {
  }

  lemma TurnedAt<T>(v: seq<T>, shift: int, active: nat, i: nat)
    requires 0 <= active + shift <= |v| && active <= |v| && -(|v| as int) <= shift <= |v| && i < |v|
    ensures var k := Turn(shift, |v|);
            (v[k..] + v[..k])[Position(i, active + shift, |v|)] == v[Position(i, active, |v|)]
  {
    var k := Turn(shift, |v|);
    var j := Position(i, active + shift, |v|);
    assert (v[k..] + v[..k])[j] == v[if j < |v| - k then j + k else j + k - |v|];
  }

  lemma LineAfterTurn(r: Ring, r': Ring, shift: int, newRows: nat, style: Style, i: nat)
    requires Valid(r) && Valid(r') && 1 <= newRows <= |r.view|
    requires if newRows < r.rows then 0 <= shift <= r.rows - newRows
             else shift == if newRows - r.rows <= r.active then r.rows - newRows else -(r.active as int)
    requires var v, k := Uncovered(r, newRows, style), Turn(shift, |r.view|); r'.view == v[k..] + v[..k]
    requires r'.rows == newRows && r'.active == r.active + shift && i < r'.active + newRows
    ensures i < r.active + r.rows ==> AllLines(r')[i] == AllLines(r)[i]
    ensures r.active + r.rows <= i ==> IsBlank(AllLines(r')[i])
  {
    hide AllLines, LineOk, Turn, Uncovered, IsBlank, Position;
    LineAt(r', i);
    TurnedAt(Uncovered(r, newRows, style), shift, r.active, i);
    if i < r.active + r.rows {
      LineAt(r, i);
      CoveredRow(r, newRows, style, i);
    } else {
      UncoveredIsBlank(r, newRows, style, i);
    }
  }

  lemma CoveredRow(r: Ring, newRows: nat, style: Style, i: nat)
    requires Valid(r) && newRows <= |r.view| && i < r.active + r.rows
    ensures var k := Position(i, r.active, |r.view|); Uncovered(r, newRows, style)[k] == r.view[k]
  {
  }

  lemma UncoveredIsBlank(r: Ring, newRows: nat, style: Style, i: nat)
    requires Valid(r) && r.rows < newRows <= |r.view| && r.active + r.rows <= i < newRows
    ensures var row := Uncovered(r, newRows, style)[Position(i, r.active, |r.view|)]; row.Some? && IsBlank(row.value)
  {
  }

  /** The cursor stays on the screen, on its line, unless that line has moved into the history. */
  lemma ResizeCursor(r: Ring, newRows: nat, cursorRow: nat)
    requires Shaped(r) && 1 <= newRows <= |r.view| && cursorRow < r.rows
    ensures cursorRow - ShiftOfTop(r, newRows, cursorRow) < newRows
  {
  }
}
