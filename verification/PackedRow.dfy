/**
  A terminal row as it is stored: Java characters in an array that grows, and one
  style per column (TerminalRow.java).
 */
module PackedRows {
  import opened Basics
  import opened TerminalRows
  import opened PackedText
  import opened PackedCells
  import opened PackedCopies
  import opened RowCopies

  /** System.arraycopy, also within one array. */
  method ArrayCopy(src: array<int>, from: nat, dst: array<int>, to: nat, n: nat)
    requires from + n <= src.Length && to + n <= dst.Length
    modifies dst
    ensures forall i :: to <= i < to + n ==> dst[i] == old(src[i - to + from])
    ensures forall i :: 0 <= i < dst.Length && !(to <= i < to + n) ==> dst[i] == old(dst[i])
  {
    if from < to {
      var k := n;
      while k > 0
        invariant 0 <= k <= n
        invariant forall i :: to + k <= i < to + n ==> dst[i] == old(src[i - to + from])
        invariant forall i :: 0 <= i < dst.Length && !(to + k <= i < to + n) ==> dst[i] == old(dst[i])
        invariant src != dst ==> forall i :: 0 <= i < src.Length ==> src[i] == old(src[i])
      {
        k := k - 1;
        dst[to + k] := src[from + k];
      }
    } else {
      var k := 0;
      while k < n
        invariant k <= n
        invariant forall i :: to <= i < to + k ==> dst[i] == old(src[i - to + from])
        invariant forall i :: 0 <= i < dst.Length && !(to <= i < to + k) ==> dst[i] == old(dst[i])
        invariant src != dst ==> forall i :: 0 <= i < src.Length ==> src[i] == old(src[i])
      {
        dst[to + k] := src[from + k];
        k := k + 1;
      }
    }
  }

  /** A larger array with space for size characters in the place of those removed. */
  method Grown(text: array<int>, at: nat, removed: nat, size: nat, after: nat, columns: nat)
    returns (newText: array<int>)
    requires at + removed + after <= text.Length && at + size + after <= text.Length + columns && removed <= size
    ensures fresh(newText) && newText.Length == text.Length + columns
    ensures forall i :: 0 <= i < at ==> newText[i] == text[i]
    ensures forall i :: at + size <= i < at + size + after ==> newText[i] == text[i - size + removed]
  {
    newText := new int[text.Length + columns];
    ArrayCopy(text, 0, newText, 0, at + removed);
    ArrayCopy(text, at + removed, newText, at + size, after);
  }

  class PackedRow {
    const columns: nat
    const width: int -> int
    var text: array<int>
    var spaceUsed: nat
    var style: seq<Style>
    /** Whether there may be characters of a width other than 1 or surrogates. */
    var special: bool
    /** The cells that are stored. */
    ghost var cells: seq<Cell>

    ghost predicate Valid()
      reads this, text
    {
      && 2 <= columns == |cells| == |style| && RowOk(cells, width) && width(SPACE) == 1
      && columns <= text.Length && spaceUsed <= text.Length && text[..spaceUsed] == Flat(cells)
      && (forall i :: 0 <= i < columns ==> style[i] == cells[i].style)
      && (!special ==> Plain(cells))
    }

    /** The code point at an index of the array. */
    function CodePoint(index: nat): int
      requires index < text.Length && (IsHigh(text[index]) ==> index + 1 < text.Length)
      reads this, text
    {
      if IsHigh(text[index]) then 0x10000 + (text[index] - 0xD800) * 0x400 + (text[index + 1] - 0xDC00) else text[index]
    }

    /** Code point o of column i stands at its position, and its width tells whether it is the base. */
    lemma CodePointHere(i: nat, o: nat)
      requires Valid() && i < columns && o < |cells[i].text|
      ensures var p, c := Position(cells, i, o), cells[i].text[o];
              && p < p + |Units(c)| <= spaceUsed && (IsHigh(text[p]) ==> p + 1 < text.Length) && CodePoint(p) == c
              && (if IsHigh(text[p]) then 2 else 1) == |Units(c)|
              && Position(cells, i, o + 1) == p + |Units(c)|
              && (if o == 0 then width(c) == WidthAt(cells, i) else width(c) <= 0)
    {
      hide Flat, Position, Units;
      assert TextOk(cells[i].text, WidthAt(cells, i), width);
      ReadAt(cells, i, o);
      var s, p := text[..spaceUsed], Position(cells, i, o);
      assert s[p] == text[p];
      assert IsHigh(s[p]) ==> s[p + 1] == text[p + 1];
    }

    /** The column behind a character, and where it begins. */
    lemma NextColumn(i: nat)
      requires Valid() && i < columns && cells[i].text != []
      ensures var j := i + WidthAt(cells, i);
              && j <= columns && Position(cells, i, |cells[i].text|) == StartOf(cells, j)
              && (j < columns ==> cells[j].text != [] && Position(cells, j, 0) == StartOf(cells, j))
              && !IsTail(cells, j)
    {
      hide Flat, Position, StartOf;
      PositionEnd(cells, i);
      if IsTail(cells, i + 1) {
        PositionEnd(cells, i + 1);
      }
      var j := i + WidthAt(cells, i);
      if j < columns {
        PositionEnd(cells, j);
      }
    }

    lemma Sizes()
      requires Valid()
      ensures 2 <= columns == |cells| && spaceUsed <= text.Length && |Flat(cells)| == spaceUsed
      ensures cells[0].text != []
    {
    }

    /** The index behind the combining code points that follow the base of a column. */
    method SkipCombining(start: nat, ghost i: nat) returns (index: nat)
      requires Valid() && i < columns && cells[i].text != [] && start == Position(cells, i, 1)
      ensures index == StartOf(cells, i + WidthAt(cells, i)) && index <= spaceUsed
    {
      hide Valid, Flat, Position, StartOf, Units, CodePoint;
      Sizes();
      index := start;
      ghost var o := 1;
      ghost var j := i + WidthAt(cells, i);
      NextColumn(i);
      StartAtEnd(cells);
      CodePointHere(i, 0);
      while index < spaceUsed
        invariant 1 <= o <= |cells[i].text| && index == Position(cells, i, o) && index <= spaceUsed
        decreases |cells[i].text| - o
      {
        if o < |cells[i].text| {
          CodePointHere(i, o);
        } else if j < columns {
          CodePointHere(j, 0);
        } else {
          assert false;
        }
        if width(CodePoint(index)) > 0 { return; }
        index := index + if IsHigh(text[index]) then 2 else 1;
        o := o + 1;
      }
      if o < |cells[i].text| {
        CodePointHere(i, o);
      }
    }
  
    /** The index of the character that covers a column. */
    method FindStartOfColumn(column: nat) returns (index: nat)
      requires Valid() && column <= columns
      ensures 0 <= BaseOf(cells, column) && index == StartOf(cells, BaseOf(cells, column)) && index <= spaceUsed
    {
      hide Flat, StartOf, Position, Units, Valid, CodePoint;
      Sizes();
      StartAtEnd(cells);
      if column == columns { return spaceUsed; }
      var currentColumn, currentCharIndex := 0, 0;
      ghost var i, o := 0, 0;
      PositionEnd(cells, 0);
      while true
        invariant i <= column && cells[i].text != [] && o < |cells[i].text| && currentCharIndex == Position(cells, i, o)
        invariant currentColumn == if o == 0 then i else i + WidthAt(cells, i)
        invariant o > 0 ==> i + WidthAt(cells, i) < column
        decreases columns - i, |cells[i].text| - o
      {
        CodePointHere(i, o);
        NextColumn(i);
        var newCharIndex := currentCharIndex + if IsHigh(text[currentCharIndex]) then 2 else 1;
        var wcwidth := width(CodePoint(currentCharIndex));
        if wcwidth > 0 {
          currentColumn := currentColumn + wcwidth;
          if currentColumn == column {
            index := SkipCombining(newCharIndex, i);
            return;
          } else if currentColumn > column {
            PositionEnd(cells, i);
            return currentCharIndex;
          }
        }
        currentCharIndex := newCharIndex;
        if o + 1 < |cells[i].text| {
          o := o + 1;
        } else {
          i, o := i + WidthAt(cells, i), 0;
        }
      }
      assert false;
    }

    /** Whether a character of width 2 begins in a column. */
    method WideDisplayCharacterStartingAt(column: int) returns (b: bool)
      requires Valid()
      ensures b <==> 0 <= column < columns && cells[column].text != [] && IsTail(cells, column + 1)
    {
      hide Flat, StartOf, Position, Units, Valid, CodePoint;
      Sizes();
      StartAtEnd(cells);
      var currentCharIndex, currentColumn := 0, 0;
      ghost var i, o := 0, 0;
      PositionEnd(cells, 0);
      while currentCharIndex < spaceUsed
        invariant i <= columns && currentCharIndex <= spaceUsed
        invariant i < columns ==>
                    cells[i].text != [] && o < |cells[i].text| && currentCharIndex == Position(cells, i, o)
        invariant i == columns ==> o == 0 && currentCharIndex == spaceUsed
        invariant currentColumn == if o == 0 then i else i + WidthAt(cells, i)
        invariant 0 <= column ==> currentColumn <= column
        decreases columns - i, if i < columns then |cells[i].text| - o else 0
      {
        CodePointHere(i, o);
        NextColumn(i);
        var wcwidth := width(CodePoint(currentCharIndex));
        currentCharIndex := currentCharIndex + if IsHigh(text[currentCharIndex]) then 2 else 1;
        if wcwidth > 0 {
          if currentColumn == column && wcwidth == 2 { return true; }
          currentColumn := currentColumn + wcwidth;
          if currentColumn > column { return false; }
        }
        if o + 1 < |cells[i].text| {
          o := o + 1;
        } else {
          i, o := i + WidthAt(cells, i), 0;
        }
      }
      if i < columns {
        CodePointHere(i, o);
      }
      b := false;
    }

    /** The old and the new text around a column. */
    lemma Around(col: nat)
      requires Valid() && col < columns && !IsTail(cells, col)
      ensures var start, end := StartOf(cells, col), StartOf(cells, col + WidthAt(cells, col));
              && start <= end <= spaceUsed && col + WidthAt(cells, col) <= columns
              && text[..spaceUsed][..start] == Flat(cells[..col])
              && text[..spaceUsed][..end] == Flat(cells[..col]) + AllUnits(cells[col].text)
              && text[..spaceUsed][end..] == Flat(cells[col + 1..])
    {
      hide Flat, AllUnits, Position;
      FlatAround(cells, col);
      NextColumn(col);
      PositionEnd(cells, col);
      if IsTail(cells, col + 1) {
        PositionEnd(cells, col + 1);
      }
      assert StartOf(cells, col + WidthAt(cells, col)) == StartOf(cells, col + 1);
    }

    /** Moves what is behind a column, so that the column has another size. */
    method MoveRest(at: nat, removed: nat, size: nat, after: nat)
      requires at + removed + after <= text.Length && at + size + after <= text.Length
      modifies text
      ensures forall i :: 0 <= i < at ==> text[i] == old(text[i])
      ensures forall i :: at + size <= i < at + size + after ==> text[i] == old(text[i - size + removed])
    {
      ArrayCopy(text, at + removed, text, at + size, after);
    }

    /** Makes the space for a column larger or smaller, growing the array if need be. */
    method MakeSpace(at: nat, removed: nat, size: nat)
      requires at + removed <= spaceUsed <= text.Length && size <= removed + columns
      modifies this`text, this`spaceUsed, text
      ensures spaceUsed == old(spaceUsed) - removed + size <= text.Length && old(text.Length) <= text.Length
      ensures text == old(text) || fresh(text)
      ensures forall i :: 0 <= i < at ==> text[i] == old(text[i])
      ensures forall i :: at + size <= i < spaceUsed ==> text[i] == old(text[i - size + removed])
    {
      var difference := size - removed;
      var after := spaceUsed - (at + removed);
      if difference > 0 && spaceUsed + difference > text.Length {
        text := Grown(text, at, removed, size, after, columns);
      } else if difference != 0 {
        MoveRest(at, removed, size, after);
      }
      spaceUsed := spaceUsed + difference;
    }

    /** Replaces characters by others. */
    method Splice(at: nat, removed: nat, inserted: seq<int>)
      requires at + removed <= spaceUsed <= text.Length && |inserted| <= removed + columns
      modifies this`text, this`spaceUsed, text
      ensures spaceUsed == old(spaceUsed) - removed + |inserted| && old(text.Length) <= text.Length
      ensures spaceUsed <= text.Length && (text == old(text) || fresh(text))
      ensures text[..spaceUsed] == old(text[..spaceUsed])[..at] + inserted + old(text[..spaceUsed])[at + removed..]
    {
      ghost var before := text[..spaceUsed];
      MakeSpace(at, removed, |inserted|);
      ghost var moved := text[..spaceUsed];
      MovedIs(before, moved, at, removed, |inserted|);
      StoreAt(at, inserted);
      StoredIs(moved, text[..spaceUsed], at, inserted);
    }

    /** Stores the code point behind or in the place of the old text of its column. */
    method ReplaceText(start: nat, end: nat, c: int, w: int)
      requires start <= end <= spaceUsed <= text.Length && 2 <= columns
      modifies this`text, this`spaceUsed, text
      ensures spaceUsed <= text.Length && old(text.Length) <= text.Length && (text == old(text) || fresh(text))
      ensures var s := old(text[..spaceUsed]);
              text[..spaceUsed] == s[..if w <= 0 then end else start] + Units(c) + s[end..]
    {
      hide Units;
      ShortUnits(c);
      if w <= 0 {
        Splice(end, 0, Units(c));
      } else {
        Splice(start, end - start, Units(c));
      }
    }

    /** Removes the base of the column at an index. */
    method RemoveBase(next: nat, ghost base: int, ghost rest: seq<int>)
      requires next <= spaceUsed <= text.Length && text[..spaceUsed][next..] == Units(base) + rest && IsCodePoint(base)
      modifies this`text, this`spaceUsed, text
      ensures spaceUsed <= text.Length && old(text.Length) <= text.Length && (text == old(text) || fresh(text))
      ensures text[..spaceUsed] == old(text[..spaceUsed])[..next] + rest
    {
      hide Units;
      ShortUnits(base);
      ghost var s := text[..spaceUsed];
      assert s[next..next + |Units(base)|] == Units(base) by {
        assert s[next..][..|Units(base)|] == Units(base);
      }
      ReadUnits(base, s, next);
      assert s[next] == text[next];
      var nextLength := if IsHigh(text[next]) then 2 else 1;
      assert nextLength == |Units(base)|;
      assert s[next + nextLength..] == rest by {
        assert s[next..][nextLength..] == rest;
      }
      Splice(next, nextLength, []);
      assert s[..next] + [] == s[..next];
    }

    /** A character that became narrower leaves a space, and one that became wider takes the place of the next base. */
    method AdjustNext(col: nat, next: nat, oldWidth: int, w: int, ghost head: seq<int>)
      requires 2 <= columns == |cells| && RowOk(cells, width) && Storable(cells, col, w)
               && oldWidth == WidthAt(cells, col)
      requires spaceUsed <= text.Length && text[..spaceUsed] == head + Flat(cells[col + 1..]) && |head| == next
      modifies this`text, this`spaceUsed, text
      ensures spaceUsed <= text.Length && old(text.Length) <= text.Length && (text == old(text) || fresh(text))
      ensures text[..spaceUsed] == head + Behind(cells, col, w)
    {
      hide Flat, AllUnits, Kept, Units, TextOk;
      if oldWidth == 2 && w == 1 {
        FlatFrom(cells, col + 1);
        NoUnits();
        assert text[..spaceUsed][..next] == head && text[..spaceUsed][next..] == Flat(cells[col + 2..]);
        Splice(next, 0, [SPACE]);
        Assoc(head, [SPACE], Flat(cells[col + 2..]));
      } else if oldWidth == 1 && w == 2 {
        if col == columns - 2 {
          EndUnits(cells, col);
          assert text[..spaceUsed][..next] == head;
          assert text[..next] == head;
          spaceUsed := next;
        } else {
          NextColumnUnits(cells, col);
          BaseIsCodePoint(cells, col + 1, width);
          assert text[..spaceUsed][..next] == head && text[..spaceUsed][next..] == Flat(cells[col + 1..]);
          RemoveBase(next, cells[col + 1].text[0], AllUnits(Kept(cells, col)) + Flat(cells[col + 2..]));
        }
      }
    }

    /** Where the characters of a column are, and its width. */
    method Extent(col: nat) returns (start: nat, end: nat, oldWidth: int)
      requires Valid() && col < columns && !IsTail(cells, col)
      ensures start <= end <= spaceUsed <= text.Length && oldWidth == WidthAt(cells, col)
      ensures text[..spaceUsed][..start] == Flat(cells[..col])
      ensures text[..spaceUsed][..end] == Flat(cells[..col]) + AllUnits(cells[col].text)
      ensures text[..spaceUsed][end..] == Flat(cells[col + 1..])
    {
      hide Valid, Flat, AllUnits, Units, CodePoint, StartOf, Position;
      Sizes();
      PositionEnd(cells, col);
      CodePointHere(col, 0);
      NextColumn(col);
      StartAtEnd(cells);
      Around(col);
      start := FindStartOfColumn(col);
      oldWidth := width(CodePoint(start));
      end := spaceUsed;
      if col + oldWidth < columns {
        end := FindStartOfColumn(col + oldWidth);
      }
    }

    /** Stores a code point in the text of the row. */
    method StoreText(col: nat, c: int)
      requires Valid() && IsCodePoint(c) && Storable(cells, col, width(c)) && col < columns
      modifies this`text, this`spaceUsed, text
      ensures spaceUsed <= text.Length && old(text.Length) <= text.Length && (text == old(text) || fresh(text))
      ensures text[..spaceUsed] == Flat(Stored(cells, col, c, width(c)))
    {
      hide Valid, Flat, AllUnits, Units, Behind, RowOk, CodePoint, StartOf, Position, Stored;
      Sizes();
      RowIsOk();
      var w := width(c);
      var start, end, oldWidth := Extent(col);
      ghost var head := UpTo(cells, col, c, w);
      assert text[..spaceUsed][..if w <= 0 then end else start] + Units(c) == head;
      ReplaceText(start, end, c, w);
      ShortUnits(c);
      var next := (if w <= 0 then end else start) + if c < 0x10000 then 1 else 2;
      AdjustNext(col, next, oldWidth, w, head);
      FlatStored(cells, col, c, w);
    }

    lemma RowIsOk()
      requires Valid()
      ensures RowOk(cells, width) && WellFormed(cells) && width(SPACE) == 1
    {
    }

    /** Stores a code point in a column in which a character begins and where no other character is cut. */
    method SetText(col: nat, c: int)
      requires Valid() && special && IsCodePoint(c) && Storable(cells, col, width(c)) && col < columns
      modifies this`text, this`spaceUsed, this`cells, text
      ensures Valid() && (text == old(text) || fresh(text))
      ensures cells == Stored(old(cells), col, c, width(c))
    {
      hide Flat, TextOk, Stored, WidthAt;
      StoreText(col, c);
      StoredOk(cells, col, c, width);
      StoredLength(cells, col, c, width(c));
      cells := Stored(cells, col, c, width(c));
    }

    /** A blank row. */
    constructor (columns: nat, style: Style, width: int -> int)
      requires 2 <= columns && width(SPACE) == 1
      ensures Valid() && fresh(text) && this.columns == columns && this.width == width
      ensures cells == BlankCells(columns, style)
    {
      this.columns, this.width := columns, width;
      text := new int[columns + columns / 2](_ => SPACE);
      this.style := seq(columns, _ => style);
      spaceUsed, special := columns, false;
      cells := BlankCells(columns, style);
      new;
      BlankIsOk(columns, style, width);
      assert text[..spaceUsed] == Flat(cells);
    }

    method FillSpaces()
      modifies text
      ensures forall i :: 0 <= i < text.Length ==> text[i] == SPACE
    {
      var k := 0;
      while k < text.Length
        invariant k <= text.Length && forall i :: 0 <= i < k ==> text[i] == SPACE
      {
        text[k] := SPACE;
        k := k + 1;
      }
    }

    /** Blanks the row. */
    method Clear(style: Style)
      requires Valid()
      modifies this`style, this`spaceUsed, this`special, this`cells, text
      ensures Valid() && cells == BlankCells(columns, style)
    {
      FillSpaces();
      this.style := seq(columns, _ => style);
      spaceUsed, special := columns, false;
      cells := BlankCells(columns, style);
      BlankIsOk(columns, style, width);
      assert text[..spaceUsed] == Flat(cells);
    }

    /** TerminalRow.isBlank. */
    method IsBlank() returns (b: bool)
      requires Valid()
      ensures b <==> forall i :: 0 <= i < columns ==> cells[i].text == [SPACE]
    {
      hide Flat, TextOk;
      var k := 0;
      while k < spaceUsed
        invariant k <= spaceUsed && forall j :: 0 <= j < k ==> text[j] == SPACE
      {
        if text[k] != SPACE {
          BlankText(cells);
          assert text[..spaceUsed][k] == text[k];
          return false;
        }
        k := k + 1;
      }
      forall i | 0 <= i < columns
        ensures cells[i].text == [SPACE]
      {
        assert forall j :: 0 <= j < spaceUsed ==> text[..spaceUsed][j] == text[j];
        SpaceHere(cells, i, width);
      }
      b := true;
    }

    method SetStyle(col: nat, style: Style)
      requires Valid() && col < columns
      modifies this`style, this`cells
      ensures Valid() && cells == old(cells)[col := old(cells[col]).(style := style)]
    {
      hide Flat, TextOk;
      this.style := this.style[col := style];
      RestyledOk(cells, col, style, width);
      cells := cells[col := cells[col].(style := style)];
    }

    /** A row of characters of width 1 that are no surrogates has one array element per column. */
    method SetPlain(col: nat, c: int)
      requires Valid() && !special && col < columns && IsCodePoint(c) && c < 0x10000 && width(c) == 1
      modifies text, this`cells
      ensures Valid() && cells == Stored(old(cells), col, c, 1)
    {
      hide Flat, TextOk, WidthAt, Stored;
      PlainFlat(cells);
      StoredOk(cells, col, c, width);
      PlainStored(cells, col, c);
      text[col] := c;
      cells := Stored(cells, col, c, 1);
      PlainFlat(cells);
    }

    lemma PlainRoom(col: nat, style: Style)
      requires Valid() && !special && col < columns
      ensures Room(cells, col, 1, style) == cells
    {
    }

    /** Characters of width 2 of which one half is written over become two spaces. */
    method MakeRoom(col: nat, w: int, style: Style)
      requires Valid() && special && col < columns && 1 <= w <= 2 && (w == 2 ==> col + 1 < columns)
      modifies this, text
      ensures Valid() && special && (text == old(text) || fresh(text))
      ensures cells == Room(old(cells), col, w, style)
      decreases if IsTail(cells, col) || w == 2 then 1 else 0, 0
    {
      hide Flat, TextOk, Valid, Put;
      Sizes();
      RowIsOk();
      var wasExtraColForWideChar := false;
      if col > 0 {
        wasExtraColForWideChar := WideDisplayCharacterStartingAt(col - 1);
      }
      if wasExtraColForWideChar {
        BreakLeftIsPut(cells, col, style);
        SetChar(col - 1, SPACE, style);
      }
      Sizes();
      if w == 2 {
        var overwritingWideCharInNextColumn := WideDisplayCharacterStartingAt(col + 1);
        if overwritingWideCharInNextColumn {
          BreakRightIsPut(cells, col + 1, style);
          SetChar(col + 1, SPACE, style);
        }
      }
    }

    /** TerminalRow.setChar: the characters of the array are those of the updated cells. */
    method SetChar(col: nat, c: int, style: Style)
      requires Valid() && col < columns && IsCodePoint(c) && width(c) <= 2 && (width(c) == 2 ==> col + 1 < columns)
      modifies this, text
      ensures Valid() && (old(special) ==> special) && (text == old(text) || fresh(text))
      ensures cells == Put(old(cells), col, GlyphOf(c, width), style)
      decreases if IsTail(cells, col) || width(c) == 2 then 1 else 0, 1
    {
      hide Flat, TextOk, RowOk, Valid, Put, Stored, BreakLeft, BreakRight;
      var w := width(c);
      Sizes();
      RowIsOk();
      SetStyle(col, style);
      PutIsStored(old(cells), col, c, w, style);
      Sizes();
      if !special {
        if 0x10000 <= c || w != 1 {
          BecomeSpecial();
        } else {
          PlainRoom(col, style);
          SetPlain(col, c);
          return;
        }
      }
      var column := col;
      if w <= 0 {
        if col > 0 {
          var wasExtraColForWideChar := WideDisplayCharacterStartingAt(col - 1);
          if wasExtraColForWideChar { column := col - 1; }
        }
      } else {
        MakeRoom(col, w, style);
      }
      SetText(column, c);
    }

    /** The characters that copying reads: a row that is copied to itself is read from a copy. */
    method SourceChars(line: PackedRow) returns (chars: array<int>)
      requires line.Valid() && Valid() && (line != this ==> line.text != text)
      ensures chars != text && |Flat(line.cells)| <= chars.Length && chars[..|Flat(line.cells)|] == Flat(line.cells)
    {
      hide Flat, TextOk;
      if this != line { return line.text; }
      chars := new int[text.Length];
      ArrayCopy(text, 0, chars, 0, text.Length);
      assert chars[..spaceUsed] == text[..spaceUsed];
    }

    /** Puts a code point with the style that a column of the source has at this moment. */
    method CopyCodePoint(line: PackedRow, col: nat, c: int, x: nat)
      requires Valid() && line.Valid() && columns == line.columns && x < columns
      requires col < columns && IsCodePoint(c) && width(c) <= 2 && (width(c) == 2 ==> col + 1 < columns)
      modifies this, text
      ensures Valid() && (text == old(text) || fresh(text))
      ensures cells == Put(old(cells), col, GlyphOf(c, width), old(line.cells[x].style))
    {
      hide Flat, TextOk, Put;
      SetChar(col, c, line.style[x]);
    }

    /** The loop of copyInterval over the characters from index x1 to x2. */
    method CopyChars(line: PackedRow, chars: array<int>, x1: nat, x2: nat, secondHalf: bool, sourceX1: nat,
                     destinationX: nat, ghost end: nat)
      requires Valid() && line.Valid() && (line != this ==> line.text != text) && chars != text
      requires columns == line.columns && width == line.width
      requires CanGo(cells, line.cells, sourceX1, end, destinationX) && sourceX1 <= columns
               && BaseOf(line.cells, sourceX1) >= 0
      requires |Flat(line.cells)| <= chars.Length && chars[..|Flat(line.cells)|] == Flat(line.cells)
      requires x1 == StartOf(line.cells, BaseOf(line.cells, sourceX1)) && x2 == StartOf(line.cells, end)
      requires (sourceX1 >= end ==> x1 == x2) && (secondHalf <==> IsTail(line.cells, sourceX1))
      modifies this, text
      ensures Valid() && (text == old(text) || fresh(text))
      ensures cells == CopyCells(old(cells), old(line.cells), sourceX1, end, destinationX, this == line)
    {
      hide Flat, TextOk, Valid, Put, CopyCells, StartOf, Position, Units, SourceText, Rest, RowOk, PutCombiningAll;
      hide Following, CodePointOf, GlyphOf, At;
      Sizes();
      RowIsOk();
      line.Sizes();
      line.RowIsOk();
      ghost var src, live := line.cells, this == line;
      ghost var p := Place(sourceX1, 0, destinationX);
      ghost var target := Remaining(cells, src, p, end, live);
      RestEnds(cells, src, sourceX1, end, destinationX, live);
      AtStart(src, sourceX1, destinationX, end, x1, x2);
      var i, cursor := x1, Cursor(secondHalf, 0, sourceX1, destinationX);
      while i < x2
        invariant Valid() && line.Valid() && (line != this ==> line.text != text && line.cells == src) && chars != text
        invariant text == old(text) || fresh(text)
        invariant chars[..|Flat(src)|] == Flat(src)
        invariant CanGo(cells, src, p.x, end, p.d) && At(src, p, end, i, x2)
        invariant Follows(cursor, src, p)
        invariant p.o > 0 ==> p.x < end && p.o <= |SourceText(src, p.x)|
        invariant Remaining(cells, src, p, end, live) == target
        decreases x2 - i
      {
        Sizes();
        Advance(cells, src, p, end, i, x2, live, width);
        i, cursor := CopyOne(line, chars, i, cursor, p, src);
        p := Following(src, p);
      }
      AtEnd(cells, src, p, end, i, x2, live, width);
    }

    /** The body of the loop: one code point is read and put. */
    method CopyOne(line: PackedRow, chars: array<int>, i: nat, cursor: Cursor, ghost p: Place, ghost src: seq<Cell>)
      returns (next: nat, moved: Cursor)
      requires Valid() && line.Valid() && (line != this ==> line.text != text) && chars != text
      requires columns == line.columns && width == line.width && src == (if this == line then src else line.cells)
      requires |src| == columns && WellFormed(src) && Follows(cursor, src, p) && p.x < columns && p.d < columns
      requires p.o < |src[BaseOf(src, p.x)].text| == |SourceText(src, p.x)| && IsCodePoint(CodePointOf(src, p))
      requires var s, c := Flat(src), CodePointOf(src, p);
               && |s| <= chars.Length && chars[..|s|] == s && i < |s| && (IsHigh(s[i]) ==> i + 1 < |s|)
               && CodePointAt(s, i) == c && (IsHigh(s[i]) <==> 0x10000 <= c)
      requires var c, w := Substitute(src, p), WidthAt(src, p.x);
               && (if p.o == 0 then width(c) == w else width(c) <= 0) && (w == 2 ==> p.d + 1 < columns)
      modifies this, text
      ensures Valid() && (text == old(text) || fresh(text))
      ensures next == i + |Units(CodePointOf(src, p))| && Follows(moved, src, Following(src, p))
      ensures cells == Put(old(cells), p.d, GlyphOf(Substitute(src, p), width),
                           old(StyleFor(cells, src, p.x, this == line)))
    {
      hide Flat, TextOk, Valid, Put, Units, RowOk, SourceText, GlyphOf;
      Sizes();
      line.Sizes();
      RowIsOk();
      var c;
      moved := cursor;
      c, next := ReadChar(chars, i, Flat(src), CodePointOf(src, p));
      if moved.startingFromSecondHalf {
        c, moved := SPACE, moved.(startingFromSecondHalf := false);
      }
      var w := width(c);
      if w > 0 {
        moved := Cursor(false, w, moved.sx + moved.latestWidth, moved.dx + moved.latestWidth);
      }
      CopyCodePoint(line, moved.dx, c, moved.sx);
    }

    /** TerminalRow.copyInterval: the characters of the array become those of the cells after the copy. */
    method CopyInterval(line: PackedRow, sourceX1: nat, sourceX2: nat, destinationX: nat)
      requires Valid() && line.Valid() && (line != this ==> line.text != text)
      requires columns == line.columns && width == line.width
      requires sourceX1 <= sourceX2 <= columns && destinationX + (sourceX2 - sourceX1) <= columns
      modifies this, text
      ensures Valid() && (text == old(text) || fresh(text))
      ensures cells == TerminalRows.CopyInterval(
                         old(cells), old(line.cells), sourceX1, sourceX2, destinationX, this == line)
    {
      hide Flat, TextOk, Valid, Put, CopyCells, StartOf, Position, Units, SourceText, Rest, RowOk, PutCombiningAll;
      Sizes();
      line.Sizes();
      RowIsOk();
      line.RowIsOk();
      var x1 := line.FindStartOfColumn(sourceX1);
      var x2 := line.FindStartOfColumn(sourceX2);
      var startingFromSecondHalf := false;
      if sourceX1 > 0 {
        startingFromSecondHalf := line.WideDisplayCharacterStartingAt(sourceX1 - 1);
      }
      if line.special {
        BecomeSpecial();
      }
      var chars := SourceChars(line);
      CopyChars(line, chars, x1, x2, startingFromSecondHalf, sourceX1, destinationX, CopyEnd(line.cells, sourceX2));
    }

    method BecomeSpecial()
      requires Valid()
      modifies this`special
      ensures Valid() && special
    {
      special := true;
    }

    method StoreAt(at: nat, inserted: seq<int>)
      requires at + |inserted| <= text.Length
      modifies text
      ensures forall i :: 0 <= i < text.Length ==>
                text[i] == if at <= i < at + |inserted| then inserted[i - at] else old(text[i])
    {
      var k := 0;
      while k < |inserted|
        invariant k <= |inserted|
        invariant forall i :: 0 <= i < text.Length ==>
                    text[i] == if at <= i < at + k then inserted[i - at] else old(text[i])
      {
        text[at + k] := inserted[k];
        k := k + 1;
      }
    }
  }
}
