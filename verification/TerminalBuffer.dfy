/** The terminal buffer as it is stored: a circular array of row objects (TerminalBuffer.java). */
module TerminalBuffers {
  import opened Wrappers
  import opened TerminalRows
  import opened TerminalRing
  import opened Rotation
  import opened FastResize
  import opened Reflow
  import opened TerminalResize
  import opened Transcript

  class TerminalRow {
    var cells: seq<Cell>
    var wrap: bool

    constructor (columns: nat, style: Style)
      ensures cells == BlankCells(columns, style) && !wrap
    {
      cells := BlankCells(columns, style);
      wrap := false;
    }

    method Clear(style: Style)
      modifies `cells
      ensures cells == BlankCells(|old(cells)|, style)
    {
      cells := BlankCells(|cells|, style);
    }

    predicate IsBlankRow()
      reads this
    {
      IsBlank(Line(cells, wrap))
    }

    method SetChar(col: nat, g: Glyph, style: Style)
      requires col < |cells| && WellFormed(cells) && ValidGlyph(g) && (g.width == 2 ==> col + 1 < |cells|)
      modifies `cells
      ensures cells == Put(old(cells), col, g, style)
    {
      cells := Put(cells, col, g, style);
    }

    method CopyFrom(line: TerminalRow, x1: nat, x2: nat, dx: nat)
      requires WellFormed(cells) && WellFormed(line.cells) && |cells| == |line.cells|
      requires x1 <= x2 <= |cells| && dx + (x2 - x1) <= |cells|
      modifies `cells
      ensures cells == CopyInterval(old(cells), old(line.cells), x1, x2, dx, line == this)
    {
      cells := CopyInterval(cells, line.cells, x1, x2, dx, line == this);
    }
  }

  /** A stored row and the line it stands for. */
  ghost predicate Holds(row: TerminalRow?, line: Option<Line>)
    reads row
  {
    if row == null then line.None? else line == Some(Line(row.cells, row.wrap))
  }

  /** The row after a block of len rows is taken out and put back in front of the block. */
  ghost function MoveDown<T>(s: seq<T>, len: nat): (r: seq<T>)
    requires len < |s|
    ensures |r| == |s|
  {
    [s[len]] + s[..len] + s[len + 1..]
  }

  /** While the block moves down from its end: the rows before position i have still to move. */
  ghost function PartlyMoved<T>(s: seq<T>, len: nat, i: nat): seq<T>
    requires i <= len < |s|
  {
    s[..i] + [s[i]] + s[i..len] + s[len + 1..]
  }

  lemma PartlyMovedStep<T>(s: seq<T>, len: nat, i: nat)
    requires i < len < |s|
    ensures |PartlyMoved(s, len, i + 1)| == |s| && PartlyMoved(s, len, i + 1)[i] == s[i]
    ensures PartlyMoved(s, len, i + 1)[i + 1 := s[i]] == PartlyMoved(s, len, i)
  {
    assert PartlyMoved(s, len, i + 1)[i] == s[i];
  }

  lemma PartlyMovedEnds<T>(s: seq<T>, len: nat)
    requires len < |s|
    ensures PartlyMoved(s, len, len) == s && MoveDown(s, 0) == s
    ensures |PartlyMoved(s, len, 0)| == |s| && PartlyMoved(s, len, 0)[0 := s[len]] == MoveDown(s, len)
  {
  }

  /** Moving the rows above and below the region down by one and then turning the ring by one is a scroll step. */
  lemma TwoMovesAndATurn<T>(p0: seq<T>, p1: seq<T>, p2: seq<T>, first: nat, rows: nat, top: nat, bottom: nat)
    requires top < bottom <= rows <= |p0| && |p1| == |p0| && |p2| == |p0|
    requires Rotate(p1, first) == MoveDown(Rotate(p0, first), top)
    requires Rotate(p2, first + bottom) == MoveDown(Rotate(p1, first + bottom), rows - bottom)
    ensures Rotate(p2, first + 1) == Shift(Rotate(p0, first), rows, top, bottom)
  {
    hide MoveDown, Shift;
    var n := |p0|;
    var v, v1 := Rotate(p0, first), Rotate(p1, first);
    RotateMore(p1, first, bottom);
    var w' := Rotate(p2, first + bottom);
    RotateMore(p2, first + bottom, n - bottom + 1);
    RotateFullTurn(p2, first + 1);
    assert first + bottom + (n - bottom + 1) == first + 1 + n;
    assert Rotate(p2, first + 1) == w'[n - bottom + 1..] + w'[..n - bottom + 1];
    MovedIsShift(v, v1, w', rows, top, bottom);
  }

  lemma MovedIsShift<T>(v: seq<T>, v1: seq<T>, w: seq<T>, rows: nat, top: nat, bottom: nat)
    requires top < bottom <= rows <= |v|
    requires v1 == MoveDown(v, top) && w == MoveDown(v1[bottom..] + v1[..bottom], rows - bottom)
    ensures w[|v| - bottom + 1..] + w[..|v| - bottom + 1] == Shift(v, rows, top, bottom)
  {
    var k := |v| - bottom + 1;
    var shifted := w[k..] + w[..k];
    forall i: nat | i < |v|
      ensures shifted[i] == Shift(v, rows, top, bottom)[i]
    {
      ShiftAt(v, rows, top, bottom, i);
      MovedAt(v, v1, w, rows, top, bottom, i);
    }
  }

  lemma MovedAt<T>(v: seq<T>, v1: seq<T>, w: seq<T>, rows: nat, top: nat, bottom: nat, i: nat)
    requires top < bottom <= rows <= |v| && i < |v|
    requires v1 == MoveDown(v, top) && w == MoveDown(v1[bottom..] + v1[..bottom], rows - bottom)
    ensures (w[|v| - bottom + 1..] + w[..|v| - bottom + 1])[i]
            == if i < top || bottom <= i < rows then v[i]
               else if i < bottom - 1 then v[i + 1]
               else if i == bottom - 1 then (if rows < |v| then v[rows] else v[top])
               else if i < |v| - 1 then v[i + 1]
               else v[top]
  {
    hide MoveDown;
    var k := |v| - bottom + 1;
    var j := if i < bottom - 1 then k + i else i - bottom + 1;
    assert (w[k..] + w[..k])[i] == w[j];
    var s := v1[bottom..] + v1[..bottom];
    MoveDownAt(s, rows - bottom, j);
    var x := if j == 0 then rows - bottom else if j <= rows - bottom then j - 1 else j;
    var m := if x < |v| - bottom then bottom + x else x - (|v| - bottom);
    assert s[x] == v1[m];
    MoveDownAt(v, top, m);
  }

  lemma MoveDownAt<T>(s: seq<T>, len: nat, i: nat)
    requires len < |s| && i < |s|
    ensures MoveDown(s, len)[i] == if i == 0 then s[len] else if i <= len then s[i - 1] else s[i]
  {
  }

  /** The row objects belong to the buffer and are pairwise different. */
  ghost predicate Separate(refs: seq<TerminalRow?>, repr: set<object>) {
    && (forall i :: 0 <= i < |refs| && refs[i] != null ==> refs[i] in repr)
    && (forall i, j :: 0 <= i < j < |refs| && refs[i] != null ==> refs[i] != refs[j])
  }

  lemma SeparateStore(refs: seq<TerminalRow?>, repr: set<object>, i: nat, row: TerminalRow)
    requires Separate(refs, repr) && i < |refs| && row !in repr
    ensures Separate(refs[i := row], repr + {row})
  {
    var stored := refs[i := row];
    forall a, b | 0 <= a < b < |refs| && stored[a] != null
      ensures stored[a] != stored[b]
    {
      assert a != i ==> refs[a] in repr;
      assert b != i && refs[b] != null ==> refs[b] in repr;
    }
  }

  class TerminalBuffer {
    var lines: array<TerminalRow?>
    var totalRows: nat
    var screenRows: nat
    var columns: nat
    var activeTranscriptRows: nat
    var screenFirstRow: nat

    ghost var Repr: set<object>
    /** The abstract value of the buffer. */
    ghost var ring: Ring

    /** The row objects, from the first row of the screen on. */
    ghost function Refs(): seq<TerminalRow?>
      requires 1 <= totalRows <= lines.Length
      reads this, lines
    {
      Rotate(lines[..totalRows], screenFirstRow)
    }

    ghost predicate Sized()
      reads this, lines
    {
      && 1 <= totalRows <= lines.Length
      && Shaped(ring) && |ring.view| == totalRows && ring.first == screenFirstRow
      && ring.active == activeTranscriptRows && ring.rows == screenRows && ring.cols == columns
      && Separate(Refs(), Repr)
    }

    /** The row objects are pairwise different and hold the lines of the ring. */
    ghost predicate Valid()
      reads this, Repr
      ensures Valid() ==> this in Repr
    {
      && this in Repr && lines in Repr
      && Sized()
      && (forall i :: 0 <= i < totalRows ==> Holds(Refs()[i], ring.view[i]))
    }

    function ExternalToInternalRow(externalRow: int): (index: nat)
      requires 1 <= totalRows && screenRows + activeTranscriptRows <= totalRows
      requires 0 <= activeTranscriptRows + externalRow && externalRow <= screenRows
      reads this
      ensures index < totalRows
      ensures index == Index(screenFirstRow, Turn(externalRow, totalRows), totalRows)
    {
      TurnIndex(screenFirstRow, externalRow, totalRows);
      Wrapped(screenFirstRow + externalRow, totalRows)
    }

    constructor (cols: nat, total: nat, rows: nat)
      requires 1 <= cols && 1 <= rows <= total
      ensures Valid() && fresh(Repr)
      ensures ring == Fresh(cols, total, rows, NORMAL)
    {
      hide FillCells, Index, WellFormed, TerminalRing.BlockSet;
      lines := new TerminalRow?[total](_ => null);
      totalRows, screenRows, columns := total, rows, cols;
      activeTranscriptRows, screenFirstRow := 0, 0;
      ring := Ring(FreshRows(cols, total, 0, NORMAL), 0, 0, rows, cols);
      new;
      Repr := {this, lines};
      BlankScreenRows(cols, total, rows, rows, NORMAL);
      forall i | 0 <= i < total
        ensures Refs()[i] == null
      {
        RotateAt(lines[..total], 0, i);
      }
      assert Valid();
      BlockSet(0, 0, columns, screenRows, SPACE, NORMAL);
    }

    /** Stores a row object at position i. */
    method Store(index: nat, row: TerminalRow, ghost i: nat)
      requires 1 <= totalRows <= lines.Length && i < totalRows && index == Index(screenFirstRow, i, totalRows)
      modifies lines
      ensures Refs() == old(Refs())[i := row]
    {
      ghost var before := lines[..totalRows];
      RotateUpdate(before, screenFirstRow, i, row);
      lines[index] := row;
      assert lines[..totalRows] == before[index := row];
    }

    method AllocateFullLineIfNecessary(index: nat, ghost i: nat) returns (row: TerminalRow)
      requires Valid() && i < totalRows && index == Index(screenFirstRow, i, totalRows)
      modifies lines, `Repr, `ring
      ensures Valid() && fresh(Repr - old(Repr)) && Refs()[i] == row
      ensures ring == Allocated(old(ring), i)
      ensures forall j :: 0 <= j < totalRows && j != i ==> Refs()[j] == old(Refs()[j])
      ensures old(Refs()[i]) != null ==> row == old(Refs()[i])
    {
      hide Index, Rotate;
      RotateAt(lines[..totalRows], screenFirstRow, i);
      if lines[index] == null {
        row := new TerminalRow(columns, ZERO_STYLE);
        SeparateStore(Refs(), Repr, i, row);
        Store(index, row, i);
        Repr := Repr + {row};
        ring := Allocated(ring, i);
      } else {
        row := lines[index];
        ring := Allocated(ring, i);
        assert ring == old(ring);
      }
    }

    method SetChar(col: nat, row: nat, g: Glyph, style: Style)
      requires Valid() && row < screenRows && col < columns
      requires ValidGlyph(g) && (g.width == 2 ==> col + 1 < columns)
      modifies Repr
      ensures Valid() && fresh(Repr - old(Repr))
      ensures ring == TerminalRing.SetChar(old(ring), col, row, g, style)
    {
      hide Index, Rotate, Put;
      var line := AllocateFullLineIfNecessary(ExternalToInternalRow(row), row);
      line.SetChar(col, g, style);
      ring := TerminalRing.SetChar(old(ring), col, row, g, style);
    }

    method BlockSet(sx: nat, sy: nat, w: int, h: int, codePoint: int, style: Style)
      requires Valid() && sx + w <= columns && sy <= screenRows && sy + h <= screenRows
      modifies Repr
      ensures Valid() && fresh(Repr - old(Repr))
      ensures ring == TerminalRing.BlockSet(old(ring), sx, sy, w, h, codePoint, style)
    {
      hide Index, RowAt, WithRow, FillCells, Separate, Rotate, Holds;
      var y := 0;
      while y < h
        invariant 0 <= y && (if 0 <= h then y <= h else y == 0)
        invariant Valid() && fresh(Repr - old(Repr))
        invariant ring == TerminalRing.BlockSet(old(ring), sx, sy, w, y, codePoint, style)
      {
        if 0 < w {
          SetRow(old(ring), sx, sy, w, y, codePoint, style);
        }
        y := y + 1;
      }
    }

    /** One row of a block set on the ring r, whose y rows above have been set. */
    method SetRow(ghost r: Ring, sx: nat, sy: nat, w: nat, y: nat, codePoint: int, style: Style)
      requires Valid() && 0 < w && sx + w <= columns && sy + y < screenRows && Shaped(r) && r.cols == columns
               && r.rows == screenRows
      requires ring == TerminalRing.BlockSet(r, sx, sy, w, y, codePoint, style)
      modifies Repr
      ensures Valid() && fresh(Repr - old(Repr))
      ensures ring == TerminalRing.BlockSet(r, sx, sy, w, y + 1, codePoint, style)
    {
      hide Index, Separate, Rotate, Holds, TerminalRing.BlockSet, PartialBlockSet, TerminalRing.SetChar;
      PartialBlockSetEnds(r, sx, sy, w, y, codePoint, style);
      var x := 0;
      while x < w
        invariant 0 <= x <= w
        invariant Valid() && fresh(Repr - old(Repr))
        invariant ring == PartialBlockSet(r, sx, sy, w, y, x, codePoint, style)
      {
        PartialBlockSetStep(r, sx, sy, w, y, x, codePoint, style);
        SetChar(sx + x, sy + y, Glyph(codePoint, 1), style);
        x := x + 1;
      }
    }

    /** One row of a block copy; source and destination may be the same row. */
    method CopyOneRow(sx: nat, sy: nat, w: nat, dx: nat, dy: nat)
      requires Valid() && sx + w <= columns && sy < screenRows && dx + w <= columns && dy < screenRows
      modifies Repr
      ensures Valid() && fresh(Repr - old(Repr))
      ensures ring == CopyRow(old(ring), sx, sy, w, dx, dy)
    {
      hide Index, Rotate, CopyInterval, Allocated, WellFormed;
      var source := AllocateFullLineIfNecessary(ExternalToInternalRow(sy), sy);
      var dest := AllocateFullLineIfNecessary(ExternalToInternalRow(dy), dy);
      CopyBetween(source, dest, sx, sy, w, dx, dy);
      ring := CopyRow(old(ring), sx, sy, w, dx, dy);
    }

    method CopyBetween(source: TerminalRow, dest: TerminalRow, sx: nat, ghost sy: nat, w: nat, dx: nat, ghost dy: nat)
      requires Valid() && sx + w <= columns && sy < screenRows && dx + w <= columns && dy < screenRows
      requires Refs()[sy] == source && Refs()[dy] == dest
      modifies Repr
      ensures Valid() && Repr == old(Repr)
      ensures var dest, source := old(ring).view[dy].value, old(ring).view[sy].value;
              var copied := CopyInterval(dest.cells, source.cells, sx, sx + w, dx, sy == dy);
              ring == WithRow(old(ring), dy, dest.(cells := copied))
    {
      hide Index, Rotate, CopyInterval;
      assert source == dest <==> sy == dy;
      assert Holds(source, ring.view[sy]) && Holds(dest, ring.view[dy]);
      dest.CopyFrom(source, sx, sx + w, dx);
      ring := WithRow(ring, dy, Line(dest.cells, dest.wrap));
    }

    method BlockCopy(sx: nat, sy: nat, w: nat, h: nat, dx: nat, dy: nat)
      requires Valid() && sx + w <= columns && sy + h <= screenRows && dx + w <= columns && dy + h <= screenRows
      modifies Repr
      ensures Valid() && fresh(Repr - old(Repr))
      ensures ring == TerminalRing.BlockCopy(old(ring), sx, sy, w, h, dx, dy)
    {
      hide Index, CopyRow, Shaped, Separate, Rotate, Holds;
      if w == 0 { return; }
      var copyingUp := sy > dy;
      var y := 0;
      while y < h
        invariant 0 <= y <= h
        invariant Valid() && fresh(Repr - old(Repr))
        invariant ring == CopyRows(old(ring), sx, sy, w, h, dx, dy, y)
      {
        var y2 := if copyingUp then y else h - (y + 1);
        CopyOneRow(sx, sy + y2, w, dx, dy + y2);
        y := y + 1;
      }
    }

    method SetLineWrap(row: nat, wrap: bool)
      requires Valid() && TerminalRing.Valid(ring) && row < screenRows
      modifies Repr
      ensures Valid() && Repr == old(Repr)
      ensures ring == TerminalRing.SetLineWrap(old(ring), row, wrap)
    {
      var index := ExternalToInternalRow(row);
      hide Index, Rotate;
      RotateAt(lines[..totalRows], screenFirstRow, row);
      var line := lines[index];
      assert Refs()[row] == line;
      line.wrap := wrap;
      ring := TerminalRing.SetLineWrap(ring, row, wrap);
    }

    method GetLineWrap(row: nat) returns (wrap: bool)
      requires Valid() && TerminalRing.Valid(ring) && row < screenRows
      ensures wrap == ring.view[row].value.wrap
    {
      RotateAt(lines[..totalRows], screenFirstRow, row);
      assert Holds(Refs()[row], ring.view[row]);
      wrap := lines[ExternalToInternalRow(row)].wrap;
    }

    /** Stores a row object at position i, counted from row src. */
    method Assign(src: nat, i: nat, row: TerminalRow?)
      requires 1 <= totalRows <= lines.Length && i < totalRows
      modifies lines
      ensures Rotate(lines[..totalRows], src) == old(Rotate(lines[..totalRows], src))[i := row]
    {
      ghost var before := lines[..totalRows];
      RotateUpdate(before, src, i, row);
      lines[Index(src, i, totalRows)] := row;
      assert lines[..totalRows] == before[Index(src, i, totalRows) := row];
    }

    method BlockCopyLinesDown(src: nat, len: nat)
      requires 1 <= totalRows <= lines.Length && len < totalRows
      modifies lines
      ensures Rotate(lines[..totalRows], src) == MoveDown(old(Rotate(lines[..totalRows], src)), len)
    {
      hide Index, Rotate, MoveDown, PartlyMoved;
      PartlyMovedEnds(Rotate(lines[..totalRows], src), len);
      if len == 0 { return; }
      ghost var s := Rotate(lines[..totalRows], src);
      RotateAt(lines[..totalRows], src, len);
      var overwritten := lines[Index(src, len, totalRows)];
      var i := len;
      while i > 0
        invariant 0 <= i <= len
        invariant Rotate(lines[..totalRows], src) == PartlyMoved(s, len, i)
      {
        i := i - 1;
        RotateAt(lines[..totalRows], src, i);
        PartlyMovedStep(s, len, i);
        Assign(src, i + 1, lines[Index(src, i, totalRows)]);
      }
      Assign(src, 0, overwritten);
    }

    /** The first steps of a scroll: keep the rows outside the region in place and turn the ring by one. */
    method ShiftRows(top: nat, bottom: nat)
      requires 1 <= totalRows <= lines.Length && top < bottom <= screenRows
               && screenRows + activeTranscriptRows <= totalRows
      modifies lines, `screenFirstRow, `activeTranscriptRows
      ensures Refs() == Shift(old(Refs()), screenRows, top, bottom)
      ensures screenFirstRow == Index(old(screenFirstRow), 1, totalRows)
      ensures activeTranscriptRows
              == if old(activeTranscriptRows) < totalRows - screenRows then old(activeTranscriptRows) + 1
                 else old(activeTranscriptRows)
    {
      hide Index, Shift, MoveDown, Rotate;
      ghost var p0 := lines[..totalRows];
      BlockCopyLinesDown(screenFirstRow, top);
      ghost var p1 := lines[..totalRows];
      var below := ExternalToInternalRow(bottom);
      BlockCopyLinesDown(below, screenRows - bottom);
      ghost var p2 := lines[..totalRows];
      RotateIndex(p1, screenFirstRow, bottom);
      RotateIndex(p2, screenFirstRow, bottom);
      TwoMovesAndATurn(p0, p1, p2, screenFirstRow, screenRows, top, bottom);
      RotateIndex(p2, screenFirstRow, 1);
      screenFirstRow := Index(screenFirstRow, 1, totalRows);
      if activeTranscriptRows < totalRows - screenRows {
        activeTranscriptRows := activeTranscriptRows + 1;
      }
    }

    method ScrollDownOneLine(top: nat, bottom: nat, style: Style)
      requires Valid() && TerminalRing.Valid(ring) && top < bottom <= screenRows
      modifies Repr
      ensures Valid() && fresh(Repr - old(Repr))
      ensures ring == Scroll(old(ring), top, bottom, style)
      ensures forall i :: 0 <= i < totalRows && i != bottom - 1 ==>
                Refs()[i] == Shift(old(Refs()), screenRows, top, bottom)[i]
    {
      hide Scroll, Shift, Rotate;
      ghost var refs := Refs();
      ShiftRows(top, bottom);
      assert forall i :: 0 <= i < totalRows ==> Holds(refs[i], old(ring).view[i]);
      ClearRevealed(old(ring), top, bottom, style, refs);
    }

    /** The last step of a scroll: blank the row above the bottom margin, creating it if it does not exist. */
    method ClearRevealed(ghost r: Ring, ghost top: nat, bottom: nat, style: Style, ghost refs: seq<TerminalRow?>)
      requires TerminalRing.Valid(r) && top < bottom <= r.rows
      requires this in Repr && lines in Repr && 1 <= totalRows <= lines.Length && totalRows == |r.view|
      requires r.rows == screenRows && r.cols == columns && |refs| == totalRows
      requires screenFirstRow == Index(r.first, 1, totalRows)
      requires activeTranscriptRows == if r.active < totalRows - r.rows then r.active + 1 else r.active
      requires Refs() == Shift(refs, screenRows, top, bottom)
      requires Separate(refs, Repr) && forall i :: 0 <= i < totalRows ==> Holds(refs[i], r.view[i])
      modifies Repr
      ensures Valid() && fresh(Repr - old(Repr))
      ensures ring == Scroll(r, top, bottom, style)
      ensures totalRows == old(totalRows) && screenRows == old(screenRows)
      ensures forall i :: 0 <= i < totalRows && i != bottom - 1 ==> Refs()[i] == Shift(refs, screenRows, top, bottom)[i]
    {
      hide Index, Rotate, Shift;
      ShiftSeparate(refs, Repr, screenRows, top, bottom);
      ShiftHolds(refs, r.view, screenRows, top, bottom);
      var i := bottom - 1;
      ShiftAt(r.view, screenRows, top, bottom, i);
      RotateAt(lines[..totalRows], screenFirstRow, i);
      var index := ExternalToInternalRow(i);
      ring := Scroll(r, top, bottom, style);
      if lines[index] == null {
        var row := new TerminalRow(columns, style);
        SeparateStore(Refs(), Repr, i, row);
        Store(index, row, i);
        Repr := Repr + {row};
      } else {
        lines[index].Clear(style);
      }
    }

    /** Arrays.fill(lines, from, to, null). */
    method Discard(from: nat, to: nat)
      requires from <= to <= lines.Length
      modifies lines
      ensures forall i :: 0 <= i < lines.Length ==> lines[i] == if from <= i < to then null else old(lines[i])
    {
      var k := from;
      while k < to
        invariant from <= k <= to
        invariant forall i :: 0 <= i < lines.Length ==> lines[i] == if from <= i < k then null else old(lines[i])
      {
        lines[k] := null;
        k := k + 1;
      }
    }

    method ClearTranscript()
      requires Valid() && TerminalRing.Valid(ring) && screenFirstRow < totalRows
      modifies Repr
      ensures Valid() && Repr == old(Repr)
      ensures ring == TerminalRing.ClearTranscript(old(ring))
    {
      hide Index, Rotate;
      ghost var before := lines[..totalRows];
      DiscardHistory();
      DiscardedRows(before, lines[..totalRows], screenFirstRow, activeTranscriptRows);
      activeTranscriptRows := 0;
      ring := TerminalRing.ClearTranscript(ring);
    }

    method DiscardHistory()
      requires screenFirstRow < totalRows <= lines.Length && activeTranscriptRows <= totalRows
      modifies lines
      ensures HistoryNulled(old(lines[..totalRows]), lines[..totalRows], screenFirstRow, activeTranscriptRows)
    {
      if screenFirstRow < activeTranscriptRows {
        Discard(totalRows + screenFirstRow - activeTranscriptRows, totalRows);
        Discard(0, screenFirstRow);
      } else {
        Discard(screenFirstRow - activeTranscriptRows, screenFirstRow);
      }
    }

    // ----- Resizing with the same number of columns -----

    method RowIsBlank(row: nat) returns (b: bool)
      requires Valid() && row < screenRows
      ensures b == BlankAt(ring, row)
    {
      hide Index, Rotate, IsBlank;
      RotateAt(lines[..totalRows], screenFirstRow, row);
      assert Holds(Refs()[row], ring.view[row]);
      var line := lines[ExternalToInternalRow(row)];
      b := line == null || line.IsBlankRow();
    }

    method ComputeShift(newRows: nat, cursorRow: int) returns (shift: int)
      requires Valid() && 1 <= newRows
      ensures shift == ShiftOfTop(ring, newRows, cursorRow)
    {
      hide Index, Rotate, IsBlank, Separate, LineOk, BlankAt;
      shift := screenRows - newRows;
      if shift > 0 && shift < screenRows {
        // Blank rows at the bottom, below the cursor, can be given up.
        var i := screenRows - 1;
        while i > 0 && cursorRow < i && shift > 0
          invariant 0 <= i < screenRows && 0 <= shift
          invariant SkipBlankRows(ring, cursorRow, i, shift) == ShiftOfTop(ring, newRows, cursorRow)
        {
          var blank := RowIsBlank(i);
          if blank {
            shift := shift - 1;
          }
          i := i - 1;
        }
      } else if shift < 0 && shift < -(activeTranscriptRows as int) {
        shift := -(activeTranscriptRows as int);
      }
    }

    /** Blanks n rows after the screen. */
    method UncoverRows(n: nat, style: Style)
      requires Valid() && screenRows + n <= totalRows
      modifies Repr
      ensures Valid() && fresh(Repr - old(Repr))
      ensures ring == old(ring).(view := ClearedRows(old(ring).view, old(ring).rows, n, old(ring).cols, style))
      ensures totalRows == old(totalRows)
    {
      var i := 0;
      while i < n
        invariant 0 <= i <= n
        invariant Valid() && fresh(Repr - old(Repr)) && totalRows == old(totalRows)
        invariant ring == old(ring).(view := ClearedRows(old(ring).view, old(ring).rows, i, old(ring).cols, style))
      {
        ClearRow(screenRows + i, style);
        assert ClearedRows(old(ring).view, screenRows, i, columns, style)[screenRows + i]
               == old(ring).view[screenRows + i];
        assert ring.view == ClearedRows(old(ring).view, screenRows, i + 1, columns, style);
        i := i + 1;
      }
    }

    method ClearRow(i: nat, style: Style)
      requires Valid() && i < totalRows
      modifies Repr
      ensures Valid() && fresh(Repr - old(Repr))
      ensures ring == WithRow(old(ring), i, Cleared(old(ring).view[i], old(ring).cols, style))
      ensures totalRows == old(totalRows)
    {
      hide Index, Rotate;
      var line := AllocateFullLineIfNecessary(Index(screenFirstRow, i, totalRows), i);
      assert Holds(Refs()[i], ring.view[i]);
      line.Clear(style);
      ring := WithRow(old(ring), i, Cleared(old(ring).view[i], columns, style));
    }

    /** Moves the first row of the screen and sets the new sizes. */
    method TurnTo(shift: int, newRows: nat, newTotal: nat, style: Style, alt: bool, ghost before: Ring)
      requires Valid() && TerminalRing.Valid(before) && 1 <= newRows <= newTotal <= totalRows == |before.view|
      requires -(activeTranscriptRows as int) <= shift <= screenRows
      requires if alt then newRows == newTotal else newRows + activeTranscriptRows + shift <= newTotal
      requires ring == before.(view := Uncovered(before, newRows, style))
      modifies this
      ensures Valid() && Repr == old(Repr)
      ensures ring == Turned(before, shift, newRows, newTotal, style, alt)
    {
      hide Index, Wrapped, Rotate, Reindexed, LineOk, Uncovered, Separate;
      ghost var k, refs, p := Turn(shift, totalRows), Refs(), lines[..totalRows];
      ghost var first := Index(screenFirstRow, k, totalRows);
      TurnIndex(screenFirstRow, shift, totalRows);
      TurnedShaped(before, shift, newRows, newTotal, style, alt);
      screenFirstRow := Wrapped(screenFirstRow + shift, totalRows);
      TurnedRefs(p, old(screenFirstRow), k, newTotal, refs, ring.view, Repr);
      totalRows := newTotal;
      activeTranscriptRows := if alt then 0 else activeTranscriptRows + shift;
      screenRows := newRows;
      ring := Turned(before, shift, newRows, newTotal, style, alt);
      assert lines[..totalRows] == p[..newTotal];
    }

    method ResizeFast(newRows: nat, newTotal: nat, cursorRow: int, style: Style, alt: bool) returns (row: int)
      requires Valid() && CanResize(ring, columns, newRows, newTotal, alt) && newRows <= totalRows
      modifies Repr
      ensures Valid() && fresh(Repr - old(Repr))
      ensures ring == Resized(old(ring), newRows, newTotal, cursorRow, style, alt)
      ensures row == cursorRow - ShiftOfTop(old(ring), newRows, cursorRow)
    {
      hide LineOk, Turned, ClearedRows, SkipBlankRows, Separate, Rotate;
      var shift := ComputeShift(newRows, cursorRow);
      ghost var before := ring;
      if newRows - screenRows > activeTranscriptRows {
        // The rows uncovered by the resizing are not all from the history.
        UncoverRows(newRows - screenRows - activeTranscriptRows, style);
      }
      TurnTo(shift, newRows, newTotal, style, alt, before);
      row := cursorRow - shift;
    }

    // ----- Resizing with another number of columns -----

    method WriteNewLine(pen: Pen, style: Style, moveCursor: bool, ghost o: Output) returns (next: Pen)
      requires Valid() && Ready(o) && o.ring == ring && pen == PenOf(o)
      modifies Repr
      ensures Valid() && fresh(Repr - old(Repr))
      ensures ring == NewLine(o, style, moveCursor).ring && next == PenOf(NewLine(o, style, moveCursor))
    {
      hide Scroll, Shift, Separate, Rotate, BlankFrom, LineOk;
      if pen.row == screenRows - 1 {
        next := pen.(col := 0, cursorRow := if moveCursor && pen.placed then pen.cursorRow - 1 else pen.cursorRow);
        ScrollDownOneLine(0, screenRows, style);
      } else {
        next := pen.(row := pen.row + 1, col := 0);
      }
    }

    method WriteNewLines(pen: Pen, n: nat, style: Style, ghost o: Output) returns (next: Pen)
      requires Valid() && Ready(o) && o.ring == ring && pen == PenOf(o)
      modifies Repr
      ensures Valid() && fresh(Repr - old(Repr))
      ensures ring == NewLines(o, n, style).ring && next == PenOf(NewLines(o, n, style))
    {
      hide NewLine, Ready, Sized;
      next := pen;
      var i := 0;
      while i < n
        invariant 0 <= i <= n
        invariant Valid() && fresh(Repr - old(Repr))
        invariant ring == NewLines(o, i, style).ring && next == PenOf(NewLines(o, i, style))
      {
        next := WriteNewLine(next, style, false, NewLines(o, i, style));
        i := i + 1;
      }
    }

    method WriteItem(pen: Pen, item: Item, here: bool, style: Style, ghost o: Output) returns (next: Pen)
      requires Valid() && Ready(o) && o.ring == ring && pen == PenOf(o)
      requires ValidGlyph(item.glyph) && (item.glyph.width == 0 ==> 0 < pen.col)
      modifies Repr
      ensures Valid() && fresh(Repr - old(Repr))
      ensures ring == Feed(o, item, here, style).ring && next == PenOf(Feed(o, item, here, style))
    {
      hide NewLine, Separate, Rotate, TerminalRing.SetChar, BlankFrom, LineOk;
      var width := item.glyph.width;
      next := pen;
      ghost var o1 := o;
      if pen.col + width > columns {
        SetLineWrap(pen.row, true);
        o1 := o.(ring := ring);
        next := WriteNewLine(pen, style, true, o1);
        o1 := NewLine(o1, style, true);
      }
      var column := if width == 0 && next.col > 0 then next.col - 1 else next.col;
      SetChar(column, next.row, item.glyph, item.style);
      if width > 0 && here {
        next := next.(cursorRow := next.row, cursorCol := next.col, placed := true);
      }
      next := next.(col := next.col + width);
    }

    method WriteItems(pen: Pen, items: seq<Item>, cursorCol: Option<int>, style: Style, ghost o: Output)
      returns (next: Pen)
      requires Valid() && Feedable(o, items) && o.ring == ring && pen == PenOf(o)
      modifies Repr
      ensures Valid() && fresh(Repr - old(Repr))
      ensures ring == FeedAll(o, items, 0, cursorCol, style).ring
              && next == PenOf(FeedAll(o, items, 0, cursorCol, style))
    {
      hide Feed, Ready, Sized;
      next := pen;
      ghost var now := o;
      var i, oldCol := 0, 0;
      while i < |items|
        invariant 0 <= i <= |items| && 0 <= oldCol && Feedable(now, items[i..])
        invariant Valid() && fresh(Repr - old(Repr)) && now.ring == ring && next == PenOf(now)
        invariant FeedAll(now, items[i..], oldCol, cursorCol, style) == FeedAll(o, items, 0, cursorCol, style)
      {
        var here := cursorCol == Some(oldCol) && items[i].glyph.width > 0;
        next := WriteItem(next, items[i], here, style, now);
        now := Feed(now, items[i], here, style);
        if here { return; }
        oldCol := oldCol + items[i].glyph.width;
        i := i + 1;
      }
    }

    /** Replaces the rows by new blank ones. */
    method Renew(newCols: nat, newRows: nat, newTotal: nat, style: Style)
      requires this in Repr && 1 <= newCols && 1 <= newRows <= newTotal
      modifies this
      ensures Valid() && fresh(Repr - {this})
      ensures ring == Ring(FreshRows(newCols, newTotal, newTotal, style), 0, 0, newRows, newCols)
    {
      var newLines := new TerminalRow?[newTotal](_ => null);
      ghost var repr: set<object> := {this, newLines};
      var i := 0;
      while i < newTotal
        invariant 0 <= i <= newTotal && fresh(newLines) && {this, newLines} <= repr && fresh(repr - {this})
        invariant forall k :: 0 <= k < i ==>
                    NewRow(newLines[k], newCols, style) && newLines[k] in repr && fresh(newLines[k])
        invariant forall k, l :: 0 <= k < l < i ==> newLines[k] != newLines[l]
      {
        var row := new TerminalRow(newCols, style);
        newLines[i] := row;
        repr := repr + {row};
        i := i + 1;
      }
      lines := newLines;
      Repr := repr;
      totalRows, screenRows, columns, activeTranscriptRows, screenFirstRow := newTotal, newRows, newCols, 0, 0;
      ring := Ring(FreshRows(newCols, newTotal, newTotal, style), 0, 0, newRows, newCols);
      RotateNothing(lines[..totalRows]);
    }

    /** Copies one row of the old ring, which is not part of this buffer any more. */
    method WriteOldLine(pen: Pen, skipped: nat, line: TerminalRow, cursorCol: Option<int>, last: bool, style: Style,
                        ghost p: Progress)
      returns (next: Pen, skip: nat)
      requires Valid() && Ready(p.out) && p.out.ring == ring && pen == PenOf(p.out) && skipped == p.skipped
      requires line !in Repr && WellFormed(line.cells)
      modifies Repr
      ensures Valid() && fresh(Repr - old(Repr))
      ensures var q := CopyLine(p, Line(line.cells, line.wrap), cursorCol, last, style);
              ring == q.out.ring && next == PenOf(q.out) && skip == q.skipped
    {
      hide Ready, Sized, IsBlank, RowItems, FeedAll, NewLines, NewLine, WellFormed;
      if !(!pen.placed && cursorCol.Some?) && line.IsBlankRow() {
        next, skip := pen, skipped + 1;
      } else {
        ghost var o1 := NewLines(p.out, skipped, style);
        next := WriteNewLines(pen, skipped, style, p.out);
        var items := RowItems(Line(line.cells, line.wrap), cursorCol.Some?);
        next := WriteItems(next, items, cursorCol, style, o1);
        if !last && !line.wrap {
          next := WriteNewLine(next, style, true, FeedAll(o1, items, 0, cursorCol, style));
        }
        skip := 0;
      }
    }

    /** Copies all rows of the old ring, which is stored in an array that is not part of this buffer any more. */
    method WriteOldLines(oldLines: array<TerminalRow?>, oldTotal: nat, oldActive: nat, oldFirst: nat, oldRows: nat,
                         cursorCol: int, cursorRow: int, style: Style, ghost r: Ring, ghost refs: seq<TerminalRow?>,
                         ghost start: Output)
      returns (pen: Pen)
      requires Valid() && Ready(start) && start.ring == ring && PenOf(start) == Pen(0, 0, -1, -1, false)
      requires TerminalRing.Valid(r) && r.active == oldActive && r.rows == oldRows
               && |r.view| == oldTotal <= oldLines.Length
      requires refs == Rotate(oldLines[..oldTotal], oldFirst) && HoldsAll(refs, r.view) && WellFormedLines(AllLines(r))
      requires oldLines !in Repr && forall i :: 0 <= i < |refs| && refs[i] != null ==> refs[i] !in Repr
      modifies Repr
      ensures Valid() && fresh(Repr - old(Repr))
      ensures var o := CopyLines(Progress(start, 0), AllLines(r), |AllLines(r)|, r.active + cursorRow, cursorCol,
                                 style).out;
              ring == o.ring && pen == PenOf(o)
    {
      hide Ready, Sized, CopyLine, Index, Rotate, WellFormed, Wrapped, AllLines;
      ghost var all, p := AllLines(r), Progress(start, 0);
      pen := Pen(0, 0, -1, -1, false);
      var skipped, n := 0, 0;
      while n < oldActive + oldRows
        invariant 0 <= n <= oldActive + oldRows && Valid() && fresh(Repr - old(Repr))
        invariant Ready(p.out) && p == CopyLines(Progress(start, 0), all, n, r.active + cursorRow, cursorCol, style)
        invariant ring == p.out.ring && pen == PenOf(p.out) && skipped == p.skipped
        invariant oldLines[..oldTotal] == old(oldLines[..oldTotal]) && HoldsAll(refs, r.view)
      {
        var externalOldRow := n - oldActive;
        OldRow(oldLines[..oldTotal], r, oldFirst, refs, n);
        var oldLine := oldLines[Wrapped(oldFirst + externalOldRow, oldTotal)];
        ghost var k := Position(n, r.active, |r.view|);
        assert oldLine == refs[k] && Holds(refs[k], r.view[k]);
        ghost var q := p;
        pen, skipped := WriteOldLine(pen, skipped, oldLine,
                                     if externalOldRow == cursorRow then Some(cursorCol) else None,
                                     externalOldRow == oldRows - 1, style, p);
        p := CopyLine(q, all[n], if n == r.active + cursorRow then Some(cursorCol) else None, n + 1 == |all|, style);
        n := n + 1;
      }
    }

    method ResizeSlow(newCols: nat, newRows: nat, newTotal: nat, cursorCol: int, cursorRow: int, style: Style)
      returns (col: int, row: int)
      requires Valid() && TerminalRing.Valid(ring) && 2 <= newCols && 1 <= newRows <= newTotal
      modifies Repr
      ensures Valid() && fresh(Repr - old(Repr))
      ensures Resizing(ring, col, row)
              == SlowResizing(old(ring), newCols, newRows, newTotal, cursorCol, cursorRow, style)
    {
      hide Ready, Separate, CopyLines, Start, Rotate, WellFormed, BlankFrom, AllLines;
      ghost var r, refs := ring, Refs();
      var oldLines, oldActive, oldFirst, oldRows, oldTotal :=
        lines, activeTranscriptRows, screenFirstRow, screenRows, totalRows;
      assert HoldsAll(refs, r.view);
      LinesWellFormed(r);
      StartPen(newCols, newRows, newTotal, style);
      Renew(newCols, newRows, newTotal, style);
      var pen := WriteOldLines(oldLines, oldTotal, oldActive, oldFirst, oldRows, cursorCol, cursorRow, style, r, refs,
                               Start(newCols, newRows, newTotal, style));
      col, row := pen.cursorCol, pen.cursorRow;
    }

    method Resize(newCols: nat, newRows: nat, newTotal: nat, cursorCol: int, cursorRow: int, style: Style, alt: bool)
      returns (col: int, row: int)
      requires Valid() && CanResize(ring, newCols, newRows, newTotal, alt)
      modifies Repr
      ensures Valid() && fresh(Repr - old(Repr))
      ensures Resizing(ring, col, row)
              == TerminalResize.Resize(old(ring), newCols, newRows, newTotal, cursorCol, cursorRow, style, alt)
    {
      hide Resized, ShiftOfTop, SlowResizing, Rotate, Separate;
      if newCols == columns && newRows <= totalRows {
        col := cursorCol;
        row := ResizeFast(newRows, newTotal, cursorRow, style, alt);
      } else {
        col, row := ResizeSlow(newCols, newRows, newTotal, cursorCol, cursorRow, style);
      }
      if col < 0 || row < 0 {
        col, row := 0, 0;
      }
    }

    // ----- Reading the text -----

    method GetTranscriptText() returns (text: seq<int>)
      requires Valid() && TerminalRing.Valid(ring)
      ensures text == TranscriptText(ring)
    {
      hide Index, Rotate, Separate, LineOk, FullText, TrimRight, AllLines, Trim;
      var builder: seq<int> := [];
      var row := -(activeTranscriptRows as int);
      while row < screenRows
        invariant -(activeTranscriptRows as int) <= row <= screenRows
        invariant builder == Joined(AllLines(ring), row + activeTranscriptRows)
      {
        ghost var n := row + activeTranscriptRows;
        OldRow(lines[..totalRows], ring, screenFirstRow, Refs(), n);
        TurnIndex(screenFirstRow, row, totalRows);
        var line := lines[ExternalToInternalRow(row)];
        assert Holds(Refs()[Position(n, ring.active, |ring.view|)], ring.view[Position(n, ring.active, |ring.view|)]);
        var chars := FullText(line.cells);
        var used := |chars|;
        if !line.wrap {
          used := PrintingLength(chars);
        }
        builder := builder + chars[..used];
        if !line.wrap && row < screenRows - 1 {
          builder := builder + [NEWLINE];
        }
        row := row + 1;
      }
      text := Trim(builder);
    }
  }

  /** The length of the text up to its last character that is not a space. */
  method PrintingLength(chars: seq<int>) returns (n: nat)
    ensures n <= |chars| && chars[..n] == TrimRight(chars)
  {
    n := 0;
    var i := 0;
    while i < |chars|
      invariant 0 <= n <= i <= |chars|
      invariant chars[..n] == TrimRight(chars[..i])
    {
      assert chars[..i + 1][..i] == chars[..i];
      if chars[i] != SPACE {
        n := i + 1;
      }
      i := i + 1;
    }
    assert chars[..i] == chars;
  }

  /** The stored row that holds line n of the history and the screen. */
  lemma OldRow(physical: seq<TerminalRow?>, r: Ring, first: nat, refs: seq<TerminalRow?>, n: nat)
    requires TerminalRing.Valid(r) && |physical| == |r.view| && refs == Rotate(physical, first) && n < r.active + r.rows
    ensures Wrapped(first + (n - r.active), |physical|) < |physical|
    ensures physical[Wrapped(first + (n - r.active), |physical|)] == refs[Position(n, r.active, |r.view|)]
    ensures Some(AllLines(r)[n]) == r.view[Position(n, r.active, |r.view|)]
  {
    hide Index, Rotate, Wrapped;
    TurnIndex(first, n - r.active, |physical|);
    RotateAt(physical, first, Turn(n - r.active, |physical|));
    LineAt(r, n);
  }

  lemma StartPen(newCols: nat, newRows: nat, newTotal: nat, style: Style)
    requires 2 <= newCols && 1 <= newRows <= newTotal
    ensures var o := Start(newCols, newRows, newTotal, style);
            && Ready(o) && PenOf(o) == Pen(0, 0, -1, -1, false)
            && o.ring == Ring(FreshRows(newCols, newTotal, newTotal, style), 0, 0, newRows, newCols)
  {
  }

  /** Where the next character goes and where the cursor has been placed. */
  datatype Pen = Pen(row: nat, col: nat, cursorRow: int, cursorCol: int, placed: bool)

  function PenOf(o: Output): Pen {
    Pen(o.row, o.col, o.cursorRow, o.cursorCol, o.placed)
  }

  ghost predicate NewRow(row: TerminalRow?, columns: nat, style: Style)
    reads row
  {
    row != null && row.cells == BlankCells(columns, style) && !row.wrap
  }

  lemma RotateNothing<T>(s: seq<T>)
    requires 0 < |s|
    ensures Rotate(s, 0) == s
  {
    DivModUnique(0, 0, 0, |s|);
  }

  ghost function Nulls(n: nat): (s: seq<TerminalRow?>)
    ensures |s| == n && forall i :: 0 <= i < n ==> s[i] == null
  {
    seq(n, _ => null)
  }

  /** The n entries that end just before index first, around the end of the array if need be, become null. */
  ghost predicate HistoryNulled(p: seq<TerminalRow?>, q: seq<TerminalRow?>, first: nat, n: nat)
    requires first < |p| && n <= |p|
  {
    && |q| == |p|
    && forall i :: 0 <= i < |p| ==> q[i] == if first - n <= i < first || |p| + first - n <= i then null else p[i]
  }

  lemma DiscardedRows(p: seq<TerminalRow?>, q: seq<TerminalRow?>, first: nat, n: nat)
    requires first < |p| && n <= |p| && HistoryNulled(p, q, first, n)
    ensures |q| == |p| && Rotate(q, first) == Rotate(p, first)[..|p| - n] + Nulls(n)
  {
    hide Rotate, Index;
    forall i | 0 <= i < |p| ensures Rotate(q, first)[i] == (Rotate(p, first)[..|p| - n] + Nulls(n))[i] {
      RotateAt(q, first, i);
      RotateAt(p, first, i);
      IndexFrom(first, i, |p|);
    }
  }

  lemma IndexFrom(first: nat, i: nat, n: nat)
    requires first < n && i < n
    ensures Index(first, i, n) == if first + i < n then first + i else first + i - n
  {
    if first + i < n {
      DivModUnique(first + i, 0, first + i, n);
    } else {
      DivModUnique(first + i, 1, first + i - n, n);
    }
  }

  lemma ShiftSeparate(refs: seq<TerminalRow?>, repr: set<object>, rows: nat, top: nat, bottom: nat)
    requires top < bottom <= rows <= |refs| && Separate(refs, repr)
    ensures Separate(Shift(refs, rows, top, bottom), repr)
  {
    var shifted := Shift(refs, rows, top, bottom);
    forall i, j | 0 <= i < j < |refs|
      ensures shifted[i] != null ==> shifted[i] != shifted[j]
    {
      ShiftAt(refs, rows, top, bottom, i);
      ShiftAt(refs, rows, top, bottom, j);
    }
    forall i | 0 <= i < |refs|
      ensures shifted[i] != null ==> shifted[i] in repr
    {
      ShiftAt(refs, rows, top, bottom, i);
    }
  }

  lemma ShiftHolds(refs: seq<TerminalRow?>, view: seq<Option<Line>>, rows: nat, top: nat, bottom: nat)
    requires top < bottom <= rows <= |refs| == |view|
    requires forall i :: 0 <= i < |refs| ==> Holds(refs[i], view[i])
    ensures forall i :: 0 <= i < |refs| ==> Holds(Shift(refs, rows, top, bottom)[i], Shift(view, rows, top, bottom)[i])
  {
    forall i | 0 <= i < |refs|
      ensures Holds(Shift(refs, rows, top, bottom)[i], Shift(view, rows, top, bottom)[i])
    {
      ShiftAt(refs, rows, top, bottom, i);
      ShiftAt(view, rows, top, bottom, i);
    }
  }

  /** An index that is less than one turn too low, or any number of turns too high. */
  function Wrapped(i: int, total: nat): (k: nat)
    requires 0 < total && -(total as int) <= i
    ensures k < total || i < 0
  {
    if i < 0 then i + total else i % total
  }

  lemma TurnIndex(first: nat, shift: int, total: nat)
    requires 0 < total && -(total as int) <= shift <= total
    ensures Index(first, Turn(shift, total), total) == Wrapped(first + shift, total)
  {
    if shift < 0 {
      if 0 <= first + shift {
        ModPlusOne(first + shift, total);
      } else {
        DivModUnique(first + shift + total, 0, first + shift + total, total);
      }
      assert first + (shift + total) == first + shift + total;
    }
  }

  ghost predicate HoldsAll(refs: seq<TerminalRow?>, view: seq<Option<Line>>)
    reads refs
  {
    |refs| == |view| && forall i :: 0 <= i < |refs| ==> Holds(refs[i], view[i])
  }

  lemma HoldsRotate(refs: seq<TerminalRow?>, view: seq<Option<Line>>, from: nat)
    requires 0 < |refs| && HoldsAll(refs, view)
    ensures HoldsAll(Rotate(refs, from), Rotate(view, from))
  {
  }

  lemma SeparateRotate(refs: seq<TerminalRow?>, repr: set<object>, from: nat)
    requires 0 < |refs| && Separate(refs, repr)
    ensures Separate(Rotate(refs, from), repr)
  {
  }

  lemma TurnedRefs(p: seq<TerminalRow?>, first: nat, k: nat, newTotal: nat, refs: seq<TerminalRow?>,
                   view: seq<Option<Line>>, repr: set<object>)
    requires 1 <= newTotal <= |p| == |view| && k <= |p|
    requires refs == Rotate(p, first) && HoldsAll(refs, view) && Separate(refs, repr)
    ensures var first' := Index(first, k, |p|);
            var refs' := Rotate(p[..newTotal], first');
            Separate(refs', repr) && HoldsAll(refs', Reindexed(view[k..] + view[..k], first', newTotal))
  {
    hide Index, Rotate;
    var n := |p|;
    var first' := Index(first, k, n);
    RotateMore(p, first, k);
    RotateIndex(p, first, k);
    var turned, turnedView := refs[k..] + refs[..k], view[k..] + view[..k];
    assert turned == Rotate(p, first');
    assert HoldsAll(turned, turnedView);
    var back := n - Index(first', 0, n);
    RotateBack(p, first');
    HoldsRotate(turned, turnedView, back);
    assert HoldsAll(p, Rotate(turnedView, back));
    HoldsRotate(p[..newTotal], Rotate(turnedView, back)[..newTotal], first');
    SeparateRotate(refs, repr, n - Index(first, 0, n));
    RotateBack(p, first);
    assert Separate(p[..newTotal], repr);
    SeparateRotate(p[..newTotal], repr, first');
  }
}

