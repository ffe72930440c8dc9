/** The rows that disappear when the screen gets fewer rows and the columns stay (TerminalBuffer.resize). */
module ShrunkScreen {
  import opened Wrappers
  import opened Basics
  import opened TerminalRows
  import opened TerminalRing
  import opened FastResize

  /** The number of blank rows below the cursor, from row i upwards. */
  function BlanksBelow(r: Ring, cursorRow: int, i: nat): nat
    requires i < r.rows <= |r.view|
  {
    if i == 0 || cursorRow >= i then 0 else BlanksBelow(r, cursorRow, i - 1) + if BlankAt(r, i) then 1 else 0
  }

  /** The number of blank rows below the cursor that follow each other directly, from row i upwards. */
  function TrailingBlanks(r: Ring, cursorRow: int, i: nat): (n: nat)
    requires i < r.rows <= |r.view|
    ensures n <= i
  {
    if i == 0 || cursorRow >= i || !BlankAt(r, i) then 0 else 1 + TrailingBlanks(r, cursorRow, i - 1)
  }

  lemma {:induction false} SkippedRows(r: Ring, cursorRow: int, i: nat, shift: nat)
    requires i < r.rows <= |r.view|
    ensures SkipBlankRows(r, cursorRow, i, shift) == shift - Min(shift, BlanksBelow(r, cursorRow, i))
  {
    hide BlankAt;
    if i > 0 && cursorRow < i && shift > 0 {
      SkippedRows(r, cursorRow, i - 1, if BlankAt(r, i) then shift - 1 else shift);
    }
  }

  lemma {:induction false} TrailingAreBlank(r: Ring, cursorRow: int, i: nat)
    requires i < r.rows <= |r.view|
    ensures var n := TrailingBlanks(r, cursorRow, i);
            && (forall j :: i - n < j <= i ==> BlankAt(r, j))
            && n <= BlanksBelow(r, cursorRow, i)
            && (n < BlanksBelow(r, cursorRow, i) ==> !BlankAt(r, i - n))
  {
    hide BlankAt;
    if i > 0 && cursorRow < i && BlankAt(r, i) {
      TrailingAreBlank(r, cursorRow, i - 1);
    }
  }

  /**
    A caller can tell: there are enough blank rows at the bottom, or there are no
    other blank rows below the cursor.
   */
  predicate OnlyBlankRowsGo(r: Ring, newRows: nat, cursorRow: int)
    requires newRows < r.rows <= |r.view|
  {
    var i := r.rows - 1;
    r.rows - newRows <= TrailingBlanks(r, cursorRow, i)
      || BlanksBelow(r, cursorRow, i) == TrailingBlanks(r, cursorRow, i)
  }

  lemma LineOfRow(r: Ring, k: nat)
    requires Valid(r) && k < r.rows
    ensures IsBlank(AllLines(r)[r.active + k]) <==> BlankAt(r, k)
  {
    hide IsBlank;
    LineAt(r, r.active + k);
  }

  /** Rows that disappear at the bottom are blank exactly under that condition. */
  lemma LostRowsAreBlank(r: Ring, newRows: nat, cursorRow: int, style: Style)
    requires Valid(r) && 1 <= newRows < r.rows
    ensures var r' := Resized(r, newRows, |r.view|, cursorRow, style, false);
            && Valid(r') && |AllLines(r')| <= |AllLines(r)|
            && ((forall i :: |AllLines(r')| <= i < |AllLines(r)| ==> IsBlank(AllLines(r)[i])) <==>
                OnlyBlankRowsGo(r, newRows, cursorRow))
  {
    hide IsBlank, BlankAt, Resized, LineOk;
    var r', n, i := Resized(r, newRows, |r.view|, cursorRow, style, false), r.rows - newRows, r.rows - 1;
    ResizeKeepsLines(r, newRows, cursorRow, style);
    SkippedRows(r, cursorRow, i, n);
    TrailingAreBlank(r, cursorRow, i);
    var lost := Min(n, BlanksBelow(r, cursorRow, i));
    assert |AllLines(r')| == |AllLines(r)| - lost;
    forall k: nat | k < r.rows ensures IsBlank(AllLines(r)[r.active + k]) <==> BlankAt(r, k) {
      LineOfRow(r, k);
    }
    if OnlyBlankRowsGo(r, newRows, cursorRow) {
      forall j | |AllLines(r')| <= j < |AllLines(r)| ensures IsBlank(AllLines(r)[j]) {
        var k := j - r.active;
        assert BlankAt(r, k);
        assert AllLines(r)[r.active + k] == AllLines(r)[j];
      }
    } else {
      var k := i - TrailingBlanks(r, cursorRow, i);
      assert !IsBlank(AllLines(r)[r.active + k]);
    }
  }

  function TextRow(codePoint: int): Option<Line> {
    Some(Line([Cell([codePoint], ZERO_STYLE), Cell([codePoint], ZERO_STYLE)], false))
  }

  /** Three rows, the middle one blank, the cursor on the first. */
  const THREE_ROWS := Ring([TextRow(65), TextRow(SPACE), TextRow(66)], 0, 0, 3, 2)

  lemma ThreeRows()
    ensures Valid(THREE_ROWS) && ShiftOfTop(THREE_ROWS, 2, 0) == 0 && !IsBlank(TextRow(66).value)
  {
    var r := THREE_ROWS;
    assert !IsBlank(TextRow(66).value) by {
      assert TextRow(66).value.cells[0].text[0] == 66;
    }
    assert BlankAt(r, 1) && !BlankAt(r, 2);
    assert SkipBlankRows(r, 0, 1, 1) == 0;
  }

  /** Shrunk to two rows, the text of the last row is gone although the blank row could have gone. */
  lemma LastRowLost()
    ensures Valid(THREE_ROWS)
    ensures var r' := Resized(THREE_ROWS, 2, 3, 0, ZERO_STYLE, false);
            Valid(r') && AllLines(r') == [TextRow(65).value, TextRow(SPACE).value] && !IsBlank(TextRow(66).value)
  {
    hide Resized, IsBlank;
    var r := THREE_ROWS;
    ThreeRows();
    ResizeKeepsLines(r, 2, 0, ZERO_STYLE);
    var r' := Resized(r, 2, 3, 0, ZERO_STYLE, false);
    assert AllLines(r)[0] == TextRow(65).value && AllLines(r)[1] == TextRow(SPACE).value;
    assert AllLines(r')[0] == AllLines(r)[0] && AllLines(r')[1] == AllLines(r)[1];
  }
}
