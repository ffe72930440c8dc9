/** Inserting and deleting lines on any screen. */
module LineEditing {
  import opened Wrappers
  import opened Basics
  import opened TerminalRows
  import opened TerminalRing
  import opened RowCopies
  import opened BlockCopies
  import opened TerminalState

  // ----- Whole rows -----

  /** Row src copied over row dst. */
  function Over(dst: seq<Cell>, src: seq<Cell>, live: bool): (r: seq<Cell>)
    requires WellFormed(dst) && WellFormed(src) && |dst| == |src|
    ensures |r| == |dst| && WellFormed(r)
  {
    CopyInterval(dst, src, 0, |src|, 0, live)
  }

  lemma OverText(dst: seq<Cell>, src: seq<Cell>, live: bool, i: nat)
    requires WellFormed(dst) && WellFormed(src) && |dst| == |src| && (live ==> dst == src) && i < |dst|
    ensures Over(dst, src, live)[i].text
            == if IsTail(src, i + 1) then WithKept(src[i].text, Kept(dst, i)) else src[i].text
  {
    hide CopyInterval, Kept, WithKept;
    CopyIntervalText(dst, src, 0, |src|, 0, live, i);
  }

  lemma OverStyle(dst: seq<Cell>, src: seq<Cell>, live: bool, i: nat)
    requires WellFormed(dst) && WellFormed(src) && |dst| == |src| && (live ==> dst == src) && i < |dst|
    ensures !IsTail(src, i) ==> Over(dst, src, live)[i].style == src[i].style
  {
    hide CopyInterval;
    CopyIntervalStyle(dst, src, 0, |src|, 0, live, i);
  }

  /** The copy has its right halves where the source has them. */
  lemma OverTails(dst: seq<Cell>, src: seq<Cell>, live: bool, i: int)
    requires WellFormed(dst) && WellFormed(src) && |dst| == |src| && (live ==> dst == src)
    ensures IsTail(Over(dst, src, live), i) == IsTail(src, i)
  {
    hide Over, Kept;
    if 0 <= i < |dst| {
      OverText(dst, src, live, i);
    }
  }

  /** What a copied row leaves for a character that lands on it is what the source would leave. */
  lemma KeptOfCopy(dst: seq<Cell>, src: seq<Cell>, live: bool, i: nat)
    requires WellFormed(dst) && WellFormed(src) && |dst| == |src| && (live ==> dst == src)
    ensures Kept(Over(dst, src, live), i) == Kept(src, i)
  {
    hide Over;
    OverTails(dst, src, live, i + 2);
    if i + 1 < |dst| {
      OverText(dst, src, live, i + 1);
    }
  }

  predicate SameText(a: seq<Cell>, b: seq<Cell>) {
    |a| == |b| && forall i :: 0 <= i < |a| ==> a[i].text == b[i].text
  }

  /** Row a is copied over row b, and the copy back over row c. */
  lemma ThereAndBackAt(a: seq<Cell>, b: seq<Cell>, c: seq<Cell>, live: bool, live2: bool, i: nat)
    requires WellFormed(a) && WellFormed(b) && WellFormed(c) && |a| == |b| == |c| && i < |a|
    requires (live ==> b == a) && (live2 ==> c == Over(b, a, live))
    ensures Over(c, Over(b, a, live), live2)[i].text == a[i].text
            <==> !(IsTail(a, i + 1) && (Kept(b, i) != [] || Kept(c, i) != []))
  {
    hide Over, Kept;
    var copy := Over(b, a, live);
    OverText(b, a, live, i);
    OverText(c, copy, live2, i);
    OverTails(b, a, live, i + 1);
    if IsTail(a, i + 1) {
      var text := a[i].text;
      assert copy[i].text[0] == text[0] && copy[i].text[1..] == Kept(b, i) + text[1..];
      PutBetween(text, Kept(c, i), Kept(b, i));
    }
  }

  lemma PutBetween(text: seq<int>, s: seq<int>, t: seq<int>)
    requires text != []
    ensures [text[0]] + s + (t + text[1..]) == text <==> s == [] && t == []
  {
    if s == [] && t == [] {
      assert [text[0]] + [] + ([] + text[1..]) == text;
    } else {
      assert |[text[0]] + s + (t + text[1..])| > |text|;
    }
  }

  lemma ThereAndBack(a: seq<Cell>, b: seq<Cell>, c: seq<Cell>, live: bool, live2: bool)
    requires WellFormed(a) && WellFormed(b) && WellFormed(c) && |a| == |b| == |c|
    requires (live ==> b == a) && (live2 ==> c == Over(b, a, live))
    ensures SameText(Over(c, Over(b, a, live), live2), a)
            <==> !Lands(b, a, 0, |a|, 0) && !Lands(c, a, 0, |a|, 0)
  {
    hide Over, Kept;
    var back := Over(c, Over(b, a, live), live2);
    forall i | 0 <= i < |a|
      ensures back[i].text == a[i].text <==> !(IsTail(a, i + 1) && (Kept(b, i) != [] || Kept(c, i) != []))
    {
      ThereAndBackAt(a, b, c, live, live2, i);
    }
    if Lands(b, a, 0, |a|, 0) || Lands(c, a, 0, |a|, 0) {
      var i :| 0 <= i < |a| && IsTail(a, i + 1) && (Kept(b, i) != [] || Kept(c, i) != []);
      assert back[i].text != a[i].text;
    }
  }

  /** Landing on a copy is landing on its source. */
  lemma LandsOnCopy(dst: seq<Cell>, src: seq<Cell>, a: seq<Cell>)
    requires WellFormed(dst) && WellFormed(src) && |dst| == |src| == |a|
    ensures Lands(Over(dst, src, false), a, 0, |a|, 0) == Lands(src, a, 0, |a|, 0)
  {
    hide Over, Kept;
    forall i: nat | i < |a| ensures Kept(Over(dst, src, false), i) == Kept(src, i) {
      KeptOfCopy(dst, src, false, i);
    }
  }

  lemma NeverLandsOnItself(a: seq<Cell>)
    ensures !Lands(a, a, 0, |a|, 0)
  {
  }

  lemma NeverLandsOnBlank(a: seq<Cell>, style: Style)
    ensures !Lands(BlankCells(|a|, style), a, 0, |a|, 0)
  {
  }

  // ----- Rows of the screen -----

  function WrapAt(r: Ring, y: nat): bool
    requires Valid(r) && y < r.rows
  {
    r.view[y].value.wrap
  }

  lemma CopyKeepsWrap(r: Ring, c: Copy, y: nat)
    requires Valid(r) && CopyFits(r, c) && y < r.rows
    ensures WrapAt(CopyBlockOf(r, c), y) == WrapAt(r, y)
  {
    hide BlockCopy, CopyInterval;
    BlockCopyRow(r, c.sx, c.sy, c.w, c.h, c.dx, c.dy, y);
    ScreenAt(r, y);
    ScreenAt(CopyBlockOf(r, c), y);
  }

  lemma {:induction false} FillKeepsWrap(r: Ring, sx: nat, sy: nat, w: int, h: int, style: Style, y: nat)
    requires Valid(r) && sx + w <= r.cols && sy + h <= r.rows && y < r.rows
    ensures WrapAt(BlockSet(r, sx, sy, w, h, SPACE, style), y) == WrapAt(r, y)
    decreases if h < 0 then 0 else h
  {
    hide FillCells;
    if h > 0 && w > 0 {
      FillKeepsWrap(r, sx, sy, w, h - 1, style, y);
    }
  }

  lemma RowCleared(cells: seq<Cell>, style: Style)
    requires WellFormed(cells)
    ensures FillCells(cells, 0, |cells|, SPACE, style) == BlankCells(|cells|, style)
  {
    hide FillCells;
    var filled := FillCells(cells, 0, |cells|, SPACE, style);
    forall i | 0 <= i < |cells| ensures filled[i] == BlankCells(|cells|, style)[i] {
      FillCellsAt(cells, 0, |cells|, SPACE, style, i);
    }
  }

  /** Moving rows from sy on to dy on and clearing the rows from cy on. */
  function RowsMoved(r: Ring, sy: nat, h: nat, dy: nat, cy: nat, n: nat, style: Style): (r': Ring)
    requires Valid(r) && sy + h <= r.rows && dy + h <= r.rows && cy + n <= r.rows
    ensures Valid(r') && r'.rows == r.rows && r'.cols == r.cols
  {
    ClearArea(CopyBlockOf(r, Copy(0, sy, r.cols, h, 0, dy)), Area(0, cy, r.cols, n), style)
  }

  lemma MovedRow(r: Ring, sy: nat, h: nat, dy: nat, cy: nat, n: nat, style: Style, y: nat)
    requires Valid(r) && sy + h <= r.rows && dy + h <= r.rows && cy + n <= r.rows && y < r.rows
    ensures var r' := RowsMoved(r, sy, h, dy, cy, n, style);
            && WrapAt(r', y) == WrapAt(r, y)
            && CellsAt(r', y) == if cy <= y < cy + n then BlankCells(r.cols, style)
                                 else if dy <= y < dy + h then Over(CellsAt(r, y), CellsAt(r, y - dy + sy), sy == dy)
                                 else CellsAt(r, y)
  {
    hide CellsAt, WrapAt, BlockSet, CopyBlockOf, CopyInterval, FillCells, BlankCells;
    var c := Copy(0, sy, r.cols, h, 0, dy);
    var r1 := CopyBlockOf(r, c);
    RowCopied(r, c, y);
    CopyKeepsWrap(r, c, y);
    RowFilled(r1, 0, cy, r.cols, n, SPACE, style, y);
    FillKeepsWrap(r1, 0, cy, r.cols, n, style, y);
    RowCleared(CellsAt(r1, y), style);
  }

  /** Inserting n blank lines at a row of a region that ends at bottom. */
  function RowsInserted(r: Ring, row: nat, n: nat, bottom: nat, style: Style): (r': Ring)
    requires Valid(r) && row + n <= bottom <= r.rows
    ensures Valid(r') && r'.rows == r.rows && r'.cols == r.cols
  {
    RowsMoved(r, row, bottom - row - n, row + n, row, n, style)
  }

  /** Deleting n lines at a row of a region that ends at bottom. */
  function RowsDeleted(r: Ring, row: nat, n: nat, bottom: nat, style: Style): (r': Ring)
    requires Valid(r) && row + n <= bottom <= r.rows
    ensures Valid(r') && r'.rows == r.rows && r'.cols == r.cols
  {
    RowsMoved(r, row + n, bottom - row - n, row, bottom - n, n, style)
  }

  /** A caller can tell: no double-width character of the row lands over combining code points n rows below or above. */
  predicate Restorable(r: Ring, row: nat, n: nat, y: nat)
    requires Valid(r) && row <= y && y + n < r.rows
  {
    var cells := CellsAt(r, y);
    && !Lands(CellsAt(r, y + n), cells, 0, |cells|, 0)
    && (row + n <= y ==> !Lands(CellsAt(r, y - n), cells, 0, |cells|, 0))
  }

  /** What inserting and then deleting n lines leaves in row y. */
  ghost predicate IsRestored(r: Ring, r': Ring, row: nat, n: nat, bottom: nat, style: Style, y: nat)
    requires Valid(r) && Valid(r') && r'.rows == r.rows && r'.cols == r.cols && bottom <= r.rows && y < r.rows
  {
    var before, after := CellsAt(r, y), CellsAt(r', y);
    && WrapAt(r', y) == WrapAt(r, y)
    && if !(row <= y < bottom) then after == before
       else if bottom - n <= y then after == BlankCells(r.cols, style)
       else
         && (SameText(after, before) <==> Restorable(r, row, n, y))
         && forall i :: 0 <= i < |before| && !IsTail(before, i) ==> after[i].style == before[i].style
  }

  lemma BackStyle(a: seq<Cell>, b: seq<Cell>, c: seq<Cell>, live: bool, live2: bool)
    requires WellFormed(a) && WellFormed(b) && WellFormed(c) && |a| == |b| == |c|
    requires (live ==> b == a) && (live2 ==> c == Over(b, a, live))
    ensures forall i :: 0 <= i < |a| && !IsTail(a, i) ==> Over(c, Over(b, a, live), live2)[i].style == a[i].style
  {
    hide Over;
    forall i | 0 <= i < |a| && !IsTail(a, i) ensures Over(c, Over(b, a, live), live2)[i].style == a[i].style {
      OverStyle(b, a, live, i);
      OverTails(b, a, live, i);
      OverStyle(c, Over(b, a, live), live2, i);
    }
  }

  lemma InsertedThenDeleted(r: Ring, row: nat, n: nat, bottom: nat, style: Style, y: nat)
    requires Valid(r) && row + n <= bottom <= r.rows && y < r.rows
    ensures IsRestored(r, RowsDeleted(RowsInserted(r, row, n, bottom, style), row, n, bottom, style), row, n, bottom,
                       style, y)
  {
    hide CellsAt, WrapAt, RowsMoved, BlankCells, Over, SameText, Lands, IsTail;
    var r1 := RowsInserted(r, row, n, bottom, style);
    var h := bottom - row - n;
    MovedRow(r, row, h, row + n, row, n, style, y);
    MovedRow(r1, row + n, h, row, bottom - n, n, style, y);
    if row <= y < bottom - n {
      MovedRow(r, row, h, row + n, row, n, style, y + n);
      var a, b, c := CellsAt(r, y), CellsAt(r, y + n), CellsAt(r1, y);
      ThereAndBack(a, b, c, n == 0, n == 0);
      BackStyle(a, b, c, n == 0, n == 0);
      if n == 0 {
        NeverLandsOnItself(a);
        LandsOnOwnCopy(a);
      } else if y < row + n {
        NeverLandsOnBlank(a, style);
      } else {
        LandsOnCopy(a, CellsAt(r, y - n), a);
      }
    }
  }

  lemma LandsOnOwnCopy(a: seq<Cell>)
    requires WellFormed(a)
    ensures !Lands(Over(a, a, true), a, 0, |a|, 0)
  {
    hide Over;
    forall i: nat | i < |a| ensures Kept(Over(a, a, true), i) == Kept(a, i) {
      KeptOfCopy(a, a, true, i);
    }
  }

  // ----- IL and DL -----

  lemma CurFits(t: Term)
    requires Inv(t)
    ensures Valid(t.Cur()) && t.Cur().rows == t.rows && t.Cur().cols == t.cols && 0 <= t.row && 0 <= t.bottom <= t.rows
  {
  }

  /** The number of lines that IL and DL move: at most to the end of the region, and none below it. */
  function LinesMoved(t: Term, n: nat): (k: nat)
    ensures t.row < t.bottom ==> t.row + k <= t.bottom
  {
    Max(0, Min(n, t.bottom - t.row))
  }

  lemma InsertLinesRows(t: Term, r: Ring, n: nat)
    requires Inv(t) && r == t.Cur() && Valid(r) && 0 <= t.row < t.bottom <= r.rows
    ensures RowsInserted(r, t.row, LinesMoved(t, n), t.bottom, t.Pen()) == InsertLines(t, n).Cur()
  {
    hide Valid, BlockCopy, BlockSet;
  }

  lemma DeleteLinesRows(t: Term, r: Ring, n: nat)
    requires Inv(t) && r == t.Cur() && Valid(r) && 0 <= t.row < t.bottom <= r.rows
    ensures RowsDeleted(r, t.row, LinesMoved(t, n), t.bottom, t.Pen()) == DeleteLines(t, n).Cur()
  {
    hide Valid, BlockCopy, BlockSet;
  }

  lemma InsertLinesKeeps(t: Term, n: nat)
    requires Inv(t)
    ensures SameButRows(t, InsertLines(t, n))
  {
    hide Valid, CopyBlock, ClearBlock;
  }

  lemma InsertNothing(t: Term, n: nat)
    requires Inv(t) && t.bottom <= t.row
    ensures InsertLines(t, n).Cur() == t.Cur()
  {
    hide Valid;
  }

  lemma DeleteNothing(t: Term, n: nat)
    requires Inv(t) && t.bottom <= t.row
    ensures DeleteLines(t, n).Cur() == t.Cur()
  {
    hide Valid;
  }

  /** Row y of t' is what IL n and DL n should leave of row y of t. */
  ghost predicate RestoredOn(t: Term, t': Term, n: nat, y: nat) {
    var r, r' := t.Cur(), t'.Cur();
    && Valid(r) && Valid(r') && r'.rows == r.rows && r'.cols == r.cols && y < r.rows && 0 <= t.row
    && 0 <= t.bottom <= r.rows
    && IsRestored(r, r', t.row, LinesMoved(t, n), t.bottom, t.Pen(), y)
  }

  /**
    IL n and then DL n, on any screen and for any n: the lines pushed off the bottom of the region are blank, lines
    outside the region are unchanged, and the text of every other line is back exactly if it is restorable.
   */
  lemma InsertThenDelete(t: Term, n: nat, y: nat)
    requires Inv(t) && y < t.rows
    ensures RestoredOn(t, DeleteLines(InsertLines(t, n), n), n, y)
  {
    hide Inv, Valid, InsertLines, DeleteLines, RowsInserted, RowsDeleted, IsRestored;
    var t1 := InsertLines(t, n);
    CurFits(DeleteLines(t1, n));
    CurFits(t);
    InsertLinesKeeps(t, n);
    CurFits(t1);
    if t.row < t.bottom {
      BothRows(t, t.Cur(), n);
      InsertedThenDeleted(t.Cur(), t.row, LinesMoved(t, n), t.bottom, t.Pen(), y);
    } else {
      InsertNothing(t, n);
      DeleteNothing(t1, n);
      UntouchedRow(t.Cur(), t.row, LinesMoved(t, n), t.bottom, t.Pen(), y);
    }
  }

  lemma BothRows(t: Term, r: Ring, n: nat)
    requires Inv(t) && r == t.Cur() && Valid(r) && 0 <= t.row < t.bottom <= r.rows
    ensures RowsDeleted(RowsInserted(r, t.row, LinesMoved(t, n), t.bottom, t.Pen()), t.row, LinesMoved(t, n), t.bottom,
                        t.Pen())
            == DeleteLines(InsertLines(t, n), n).Cur()
  {
    hide Inv, Valid, InsertLines, DeleteLines, RowsInserted, RowsDeleted;
    var t1 := InsertLines(t, n);
    InsertLinesRows(t, r, n);
    InsertLinesKeeps(t, n);
    DeleteLinesRows(t1, t1.Cur(), n);
  }

  lemma UntouchedRow(r: Ring, row: nat, n: nat, bottom: nat, style: Style, y: nat)
    requires Valid(r) && bottom <= row && bottom <= r.rows && y < r.rows
    ensures IsRestored(r, r, row, n, bottom, style, y)
  {
  }

  /** A screen of two rows, on which a double-width character stands above a letter with an accent. */
  const TWO_ROWS := Ring([Some(Line(WIDE, false)), Some(Line(ACCENTED, false))], 0, 0, 2, 3)

  /** IL 1 and DL 1 at the top leave the accent on the double-width character. */
  lemma NotRestored()
    ensures Valid(TWO_ROWS) && !Restorable(TWO_ROWS, 0, 1, 0)
    ensures CellsAt(RowsDeleted(RowsInserted(TWO_ROWS, 0, 1, 2, NORMAL), 0, 1, 2, NORMAL), 0)[0].text == [0x4E2D, 0x301]
  {
    hide RowsMoved, Over;
    var r1 := RowsInserted(TWO_ROWS, 0, 1, 2, NORMAL);
    assert Kept(ACCENTED, 0) == [0x301];
    MovedRow(TWO_ROWS, 0, 1, 1, 0, 1, NORMAL, 1);
    MovedRow(TWO_ROWS, 0, 1, 1, 0, 1, NORMAL, 0);
    MovedRow(r1, 1, 1, 0, 1, 1, NORMAL, 0);
    var copy := Over(ACCENTED, WIDE, false);
    OverText(ACCENTED, WIDE, false, 0);
    OverTails(ACCENTED, WIDE, false, 1);
    OverText(BlankCells(3, NORMAL), copy, false, 0);
    assert copy[0].text == [0x4E2D, 0x301];
  }
}
