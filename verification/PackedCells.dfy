/**
  What storing a code point makes of the cells of a row and of their text.
 */
module PackedCells {
  import opened Basics
  import opened TerminalRows
  import opened PackedText
  import opened RowCopies

  /** A column's text: a base of the right width, followed by code points of width 0. */
  predicate TextOk(text: seq<int>, w: int, width: int -> int) {
    && text != [] && (forall k :: 0 <= k < |text| ==> IsCodePoint(text[k]))
    && width(text[0]) == w && (forall k :: 1 <= k < |text| ==> width(text[k]) <= 0)
  }

  /** Every column is empty (a right half) or holds such a text. */
  predicate RowOk(cells: seq<Cell>, width: int -> int) {
    && WellFormed(cells)
    && forall i :: 0 <= i < |cells| && cells[i].text != [] ==> TextOk(cells[i].text, WidthAt(cells, i), width)
  }

  function WidthAt(cells: seq<Cell>, i: int): int {
    if IsTail(cells, i + 1) then 2 else 1
  }

  /** The column in which the character that covers a column begins. */
  function BaseOf(cells: seq<Cell>, col: int): int {
    if IsTail(cells, col) then col - 1 else col
  }

  lemma ShortUnits(c: int)
    ensures |Units(c)| == if c < 0x10000 then 1 else 2
  {
  }

  /** What follows the base of the next column. */
  lemma NextColumnUnits(cells: seq<Cell>, col: nat)
    requires col + 2 < |cells| && cells[col + 1].text != [] && !IsTail(cells, col + 2)
    ensures Flat(cells[col + 1..])
            == Units(cells[col + 1].text[0]) + (AllUnits(Kept(cells, col)) + Flat(cells[col + 2..]))
  {
    hide Flat, AllUnits, Units;
    var text := cells[col + 1].text;
    FlatFrom(cells, col + 1);
    UnitsAround(text, 0);
    NoUnits();
    assert text[..0] == [] && Kept(cells, col) == text[1..];
    assert [] + Units(text[0]) == Units(text[0]);
    Assoc(Units(text[0]), AllUnits(text[1..]), Flat(cells[col + 2..]));
  }

  lemma EndUnits(cells: seq<Cell>, col: nat)
    requires col + 2 == |cells|
    ensures AllUnits(Kept(cells, col)) + Flat(cells[col + 2..]) == []
  {
    assert cells[col + 2..] == [];
  }

  lemma BaseIsCodePoint(cells: seq<Cell>, i: nat, width: int -> int)
    requires RowOk(cells, width) && i < |cells| && cells[i].text != []
    ensures IsCodePoint(cells[i].text[0])
  {
    assert TextOk(cells[i].text, WidthAt(cells, i), width);
  }

  lemma StoredLength(cells: seq<Cell>, col: nat, c: int, w: int)
    requires Storable(cells, col, w)
    ensures |Stored(cells, col, c, w)| == |cells|
  {
  }

  /** A code point with its width; those of negative width count as combining. */
  function GlyphOf(c: int, width: int -> int): (g: Glyph)
    requires width(c) <= 2
    ensures ValidGlyph(g)
  {
    Glyph(c, if width(c) < 0 then 0 else width(c))
  }

  lemma BlankIsOk(columns: nat, style: Style, width: int -> int)
    requires width(SPACE) == 1
    ensures var cells := BlankCells(columns, style);
            && RowOk(cells, width) && Plain(cells) && |Flat(cells)| == columns
            && forall i :: 0 <= i < columns ==> Flat(cells)[i] == SPACE
  {
    hide Flat;
    PlainFlat(BlankCells(columns, style));
  }

  /** The text of a plain row has one element per column. */
  lemma {:induction false} PlainFlat(cells: seq<Cell>)
    requires Plain(cells)
    ensures |Flat(cells)| == |cells| && forall i :: 0 <= i < |cells| ==> Flat(cells)[i] == cells[i].text[0]
  {
    hide AllUnits;
    if cells != [] {
      var n := |cells| - 1;
      PlainFlat(cells[..n]);
      PlainUnits(cells[n].text);
    }
  }

  lemma PlainUnits(text: seq<int>)
    requires |text| == 1 && text[0] < 0x10000
    ensures AllUnits(text) == [text[0]]
  {
    assert text == [text[0]];
    UnitsOfOne(text[0]);
  }

  lemma BlankText(cells: seq<Cell>)
    ensures (forall i :: 0 <= i < |cells| ==> cells[i].text == [SPACE]) ==>
              |Flat(cells)| == |cells| && forall j :: 0 <= j < |cells| ==> Flat(cells)[j] == SPACE
  {
    hide Flat;
    if forall i :: 0 <= i < |cells| ==> cells[i].text == [SPACE] {
      PlainFlat(cells);
    }
  }

  /** A text of spaces only has one space in every column. */
  lemma SpaceHere(cells: seq<Cell>, i: nat, width: int -> int)
    requires RowOk(cells, width) && width(SPACE) == 1 && i < |cells|
    requires forall j :: 0 <= j < |Flat(cells)| ==> Flat(cells)[j] == SPACE
    ensures cells[i].text == [SPACE]
  {
    hide Flat, Position;
    var b := BaseOf(cells, i);
    var text := cells[b].text;
    assert TextOk(text, WidthAt(cells, b), width);
    ReadAt(cells, b, 0);
    if |text| > 1 {
      ReadAt(cells, b, 1);
    }
  }

  lemma PlainStored(cells: seq<Cell>, col: nat, c: int)
    requires Plain(cells) && col < |cells| && c < 0x10000
    ensures Storable(cells, col, 1) && Stored(cells, col, c, 1) == cells[col := cells[col].(text := [c])]
    ensures Plain(Stored(cells, col, c, 1))
  {
  }

  lemma RestyledOk(cells: seq<Cell>, col: nat, style: Style, width: int -> int)
    requires RowOk(cells, width) && col < |cells|
    ensures var r := cells[col := cells[col].(style := style)]; RowOk(r, width) && Flat(r) == Flat(cells)
  {
    hide Flat, TextOk;
    FlatAround(cells, col);
    FlatUpdate(cells, col, cells[col].(style := style));
    var r := cells[col := cells[col].(style := style)];
    assert forall i :: 0 <= i < |r| ==> r[i].text == cells[i].text;
    assert forall i :: 0 <= i < |r| ==> WidthAt(r, i) == WidthAt(cells, i);
  }

  lemma MovedIs(before: seq<int>, moved: seq<int>, at: nat, removed: nat, size: nat)
    requires at + removed <= |before| && |moved| == |before| - removed + size
    requires forall i :: 0 <= i < at ==> moved[i] == before[i]
    requires forall i :: at + size <= i < |moved| ==> moved[i] == before[i - size + removed]
    ensures moved[..at] == before[..at] && moved[at + size..] == before[at + removed..]
  {
  }

  lemma StoredIs(moved: seq<int>, after: seq<int>, at: nat, inserted: seq<int>)
    requires at + |inserted| <= |moved| == |after|
    requires forall i :: 0 <= i < |after| ==>
               after[i] == if at <= i < at + |inserted| then inserted[i - at] else moved[i]
    ensures after == moved[..at] + inserted + moved[at + |inserted|..]
  {
  }

  /** Every column holds one character of width 1 that is stored as one Java character. */
  predicate Plain(cells: seq<Cell>) {
    forall i :: 0 <= i < |cells| ==> |cells[i].text| == 1 && cells[i].text[0] < 0x10000
  }

  // ----- The text of updated cells -----

  lemma FlatUpdate(cells: seq<Cell>, i: nat, cell: Cell)
    requires i < |cells|
    ensures Flat(cells[i := cell]) == Flat(cells[..i]) + AllUnits(cell.text) + Flat(cells[i + 1..])
  {
    hide Flat, AllUnits;
    var after := cells[i := cell];
    FlatAround(after, i);
    assert after[..i] == cells[..i] && after[i + 1..] == cells[i + 1..];
  }

  lemma FlatUpdate2(cells: seq<Cell>, i: nat, a: Cell, b: Cell)
    requires i + 1 < |cells|
    ensures Flat(cells[i := a][i + 1 := b])
            == Flat(cells[..i]) + AllUnits(a.text) + (AllUnits(b.text) + Flat(cells[i + 2..]))
  {
    hide Flat, AllUnits;
    var after := cells[i := a][i + 1 := b];
    FlatAround(after, i);
    assert after[..i] == cells[..i] && after[i + 1..] == [b] + cells[i + 2..];
    FlatConcat([b], cells[i + 2..]);
    FlatOfOne(b);
  }

  lemma FlatFrom(cells: seq<Cell>, i: nat)
    requires i < |cells|
    ensures Flat(cells[i..]) == AllUnits(cells[i].text) + Flat(cells[i + 1..])
  {
    hide Flat, AllUnits;
    assert cells[i..] == [cells[i]] + cells[i + 1..];
    FlatConcat([cells[i]], cells[i + 1..]);
    FlatOfOne(cells[i]);
  }

  lemma NoUnits()
    ensures AllUnits([]) == []
  {
  }

  /** What storing a base code point in a column that begins a character makes of the cells, without its style. */
  function Stored(cells: seq<Cell>, col: nat, c: int, w: int): (r: seq<Cell>)
    requires Storable(cells, col, w)
    ensures |r| == |cells|
  {
    var cell := cells[col];
    if w <= 0 then cells[col := cell.(text := cell.text + [c])]
    else if w == 1 then
      if IsTail(cells, col + 1) then cells[col := cell.(text := [c])][col + 1 := cells[col + 1].(text := [SPACE])]
      else cells[col := cell.(text := [c])]
    else if IsTail(cells, col + 1) then cells[col := cell.(text := [c])]
    else cells[col := cell.(text := [c] + Kept(cells, col))][col + 1 := cells[col + 1].(text := [])]
  }

  /** The text of the row up to a code point that is stored. */
  function UpTo(cells: seq<Cell>, col: nat, c: int, w: int): seq<int>
    requires col < |cells|
  {
    Flat(cells[..col]) + (if w <= 0 then AllUnits(cells[col].text) else []) + Units(c)
  }

  /** The text behind it. */
  function Behind(cells: seq<Cell>, col: nat, w: int): seq<int>
    requires Storable(cells, col, w)
  {
    if w == 1 && IsTail(cells, col + 1) then [SPACE] + Flat(cells[col + 2..])
    else if w == 2 && !IsTail(cells, col + 1) then AllUnits(Kept(cells, col)) + Flat(cells[col + 2..])
    else Flat(cells[col + 1..])
  }

  /** The text of the row afterwards is the text before with one column replaced. */
  lemma FlatStored(cells: seq<Cell>, col: nat, c: int, w: int)
    requires Storable(cells, col, w)
    ensures Flat(Stored(cells, col, c, w)) == UpTo(cells, col, c, w) + Behind(cells, col, w)
  {
    hide Flat, AllUnits, Units, Kept;
    var cell, before := cells[col], Flat(cells[..col]);
    UnitsOfOne(c);
    assert before + [] == before;
    if w <= 0 {
      FlatUpdate(cells, col, cell.(text := cell.text + [c]));
      AllUnitsConcat(cell.text, [c]);
      Assoc(before, AllUnits(cell.text), Units(c));
    } else if w == 1 && IsTail(cells, col + 1) {
      FlatUpdate2(cells, col, cell.(text := [c]), cells[col + 1].(text := [SPACE]));
      UnitsOfOne(SPACE);
      UnitsOfSpace();
    } else if w == 2 && !IsTail(cells, col + 1) {
      FlatUpdate2(cells, col, cell.(text := [c] + Kept(cells, col)), cells[col + 1].(text := []));
      NoUnits();
      AllUnitsConcat([c], Kept(cells, col));
      assert [] + Flat(cells[col + 2..]) == Flat(cells[col + 2..]);
      Assoc(before, Units(c), AllUnits(Kept(cells, col)));
      Assoc(before + Units(c), AllUnits(Kept(cells, col)), Flat(cells[col + 2..]));
    } else {
      FlatUpdate(cells, col, cell.(text := [c]));
    }
  }

  lemma UnitsOfSpace()
    ensures Units(SPACE) == [SPACE]
  {
  }

  predicate Storable(cells: seq<Cell>, col: int, w: int) {
    && WellFormed(cells) && 0 <= col < |cells| && !IsTail(cells, col) && w <= 2
    && (w == 2 ==> col + 1 < |cells| && !IsTail(cells, col + 2))
  }

  lemma OneOk(c: int, width: int -> int)
    requires IsCodePoint(c)
    ensures TextOk([c], width(c), width)
  {
  }

  lemma AppendedOk(text: seq<int>, w: int, c: int, width: int -> int)
    requires TextOk(text, w, width) && IsCodePoint(c) && width(c) <= 0
    ensures TextOk(text + [c], w, width)
  {
  }

  lemma KeptOk(cells: seq<Cell>, col: nat, c: int, width: int -> int)
    requires RowOk(cells, width) && col + 1 < |cells| && cells[col + 1].text != [] && IsCodePoint(c)
    ensures TextOk([c] + Kept(cells, col), width(c), width)
  {
    var next := cells[col + 1].text;
    assert TextOk(next, WidthAt(cells, col + 1), width);
    assert Kept(cells, col) != [] ==> forall k :: 1 <= k < |next| ==> ([c] + Kept(cells, col))[k] == next[k];
  }

  lemma StoredColumnOk(cells: seq<Cell>, col: nat, c: int, width: int -> int, i: nat)
    requires RowOk(cells, width) && Storable(cells, col, width(c)) && IsCodePoint(c) && i < |cells| && width(SPACE) == 1
    ensures var r := Stored(cells, col, c, width(c));
            && r[i].style == cells[i].style
            && (r[i].text == [] ==> 0 < i && r[i - 1].text != [])
            && (r[i].text != [] ==> TextOk(r[i].text, WidthAt(r, i), width))
  {
    hide TextOk, Kept;
    var text, w := cells[col].text, width(c);
    OneOk(c, width);
    OneOk(SPACE, width);
    if w <= 0 {
      AppendedOk(text, WidthAt(cells, col), c, width);
    } else if w == 2 && !IsTail(cells, col + 1) {
      KeptOk(cells, col, c, width);
    }
  }

  /** Storing a code point keeps a proper row. */
  lemma StoredOk(cells: seq<Cell>, col: nat, c: int, width: int -> int)
    requires RowOk(cells, width) && Storable(cells, col, width(c)) && IsCodePoint(c) && width(SPACE) == 1
    ensures RowOk(Stored(cells, col, c, width(c)), width)
    ensures forall i :: 0 <= i < |cells| ==> Stored(cells, col, c, width(c))[i].style == cells[i].style
  {
    var r := Stored(cells, col, c, width(c));
    assert |r| == |cells|;
    hide Stored, TextOk, WidthAt;
    forall i | 0 <= i < |cells|
      ensures r[i].style == cells[i].style
      ensures r[i].text == [] ==> 0 < i && r[i - 1].text != []
      ensures r[i].text != [] ==> TextOk(r[i].text, WidthAt(r, i), width)
    {
      StoredColumnOk(cells, col, c, width, i);
    }
  }

  // ----- The stored cells are those of Put -----

  lemma CombiningStored(row: seq<Cell>, col: nat, c: int, w: int, style: Style)
    requires col < |row| && WellFormed(row) && w <= 0
    ensures var r := row[col := row[col].(style := style)];
            && WellFormed(r) && BaseOf(r, col) >= 0 && !IsTail(r, BaseOf(r, col))
            && Put(row, col, Glyph(c, 0), style) == Stored(r, BaseOf(r, col), c, w)
  {
  }

  /** A right half is written over by writing a space to the left of it. */
  lemma BreakLeftIsPut(row: seq<Cell>, col: nat, style: Style)
    requires col < |row| && WellFormed(row) && IsTail(row, col)
    ensures Put(row, col - 1, Glyph(SPACE, 1), style) == BreakLeft(row, col, style)
  {
  }

  lemma BreakRightIsPut(row: seq<Cell>, col: nat, style: Style)
    requires col + 1 < |row| && WellFormed(row) && !IsTail(row, col) && IsTail(row, col + 1)
    ensures Put(row, col, Glyph(SPACE, 1), style) == BreakRight(row, col, style)
  {
  }

  lemma NarrowStored(row: seq<Cell>, col: nat, c: int, style: Style)
    requires col < |row| && WellFormed(row)
    ensures var r := BreakLeft(row[col := row[col].(style := style)], col, style);
            !IsTail(r, col) && r[col].style == style && Put(row, col, Glyph(c, 1), style) == Stored(r, col, c, 1)
  {
  }

  lemma WideStored(row: seq<Cell>, col: nat, c: int, style: Style)
    requires col + 1 < |row| && WellFormed(row)
    ensures var r1 := BreakLeft(row[col := row[col].(style := style)], col, style);
            var r := if IsTail(r1, col + 1) then r1 else BreakRight(r1, col + 1, style);
            Storable(r, col, 2) && Put(row, col, Glyph(c, 2), style) == Stored(r, col, c, 2)
  {
    var r1 := BreakLeft(row[col := row[col].(style := style)], col, style);
    if !IsTail(r1, col + 1) {
      var r := BreakRight(r1, col + 1, style);
      assert r[col].style == style;
      assert Kept(r, col) == if col + 2 == |row| then [] else r[col + 1].text[1..];
    }
  }

  /** What is stored where, by the width of the code point. */
  function Room(row: seq<Cell>, col: nat, w: int, style: Style): (r: seq<Cell>)
    requires col < |row| && WellFormed(row) && (w == 2 ==> col + 1 < |row|)
    ensures |r| == |row| && WellFormed(r)
  {
    if w <= 0 then row
    else
      var r := BreakLeft(row, col, style);
      if w == 2 && !IsTail(r, col + 1) then BreakRight(r, col + 1, style) else r
  }

  lemma PutIsStored(row: seq<Cell>, col: nat, c: int, w: int, style: Style)
    requires col < |row| && WellFormed(row) && w <= 2 && (w == 2 ==> col + 1 < |row|)
    ensures var styled := row[col := row[col].(style := style)];
            var column := if w <= 0 then BaseOf(styled, col) else col;
            && WellFormed(styled) && 0 <= column && Storable(Room(styled, col, w, style), column, w)
            && Put(row, col, Glyph(c, if w < 0 then 0 else w), style)
               == Stored(Room(styled, col, w, style), column, c, w)
  {
    hide Put, Stored, BreakLeft, BreakRight;
    if w <= 0 {
      CombiningStored(row, col, c, w, style);
    } else if w == 1 {
      NarrowStored(row, col, c, style);
    } else {
      WideStored(row, col, c, style);
    }
  }
}
