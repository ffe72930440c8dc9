/** The text of a row as a sequence of Java characters: code points in order, supplementary ones as surrogate pairs. */
module PackedText {
  import opened Basics
  import opened TerminalRows

  /** A code point that is not half of a surrogate pair. */
  predicate IsCodePoint(c: int) {
    0 <= c < 0x110000 && !(0xD800 <= c < 0xE000)
  }

  predicate IsHigh(u: int) {
    0xD800 <= u < 0xDC00
  }

  function Units(c: int): (s: seq<int>)
    ensures |s| == if c < 0x10000 then 1 else 2
  {
    if c < 0x10000 then [c] else [0xD800 + (c - 0x10000) / 0x400, 0xDC00 + (c - 0x10000) % 0x400]
  }

  /** The code point at an index. */
  function CodePointAt(s: seq<int>, i: nat): int
    requires i < |s| && (IsHigh(s[i]) ==> i + 1 < |s|)
  {
    if IsHigh(s[i]) then 0x10000 + (s[i] - 0xD800) * 0x400 + (s[i + 1] - 0xDC00) else s[i]
  }

  lemma ReadUnits(c: int, s: seq<int>, i: nat)
    requires IsCodePoint(c) && i + |Units(c)| <= |s| && s[i..i + |Units(c)|] == Units(c)
    ensures (IsHigh(s[i]) ==> i + 1 < |s|) && CodePointAt(s, i) == c && (IsHigh(s[i]) <==> 0x10000 <= c)
  {
    assert s[i] == Units(c)[0];
    if 0x10000 <= c {
      assert s[i + 1] == Units(c)[1];
    }
  }

  function AllUnits(cs: seq<int>): seq<int> {
    if cs == [] then [] else AllUnits(cs[..|cs| - 1]) + Units(cs[|cs| - 1])
  }

  function Flat(cells: seq<Cell>): seq<int> {
    if cells == [] then [] else Flat(cells[..|cells| - 1]) + AllUnits(cells[|cells| - 1].text)
  }

  lemma {:induction false} AllUnitsConcat(a: seq<int>, b: seq<int>)
    ensures AllUnits(a + b) == AllUnits(a) + AllUnits(b)
    decreases |b|
  {
    if b == [] {
      assert a + b == a;
    } else {
      AllUnitsConcat(a, b[..|b| - 1]);
      assert (a + b)[..|a + b| - 1] == a + b[..|b| - 1];
    }
  }

  lemma {:induction false} FlatConcat(a: seq<Cell>, b: seq<Cell>)
    ensures Flat(a + b) == Flat(a) + Flat(b)
    decreases |b|
  {
    hide AllUnits;
    if b == [] {
      assert a + b == a;
    } else {
      var n := |b| - 1;
      FlatConcat(a, b[..n]);
      assert (a + b)[..|a| + n] == a + b[..n];
      Assoc(Flat(a), Flat(b[..n]), AllUnits(b[n].text));
    }
  }

  lemma UnitsOfOne(c: int)
    ensures AllUnits([c]) == Units(c)
  {
    assert [c][..0] == [];
  }

  lemma FlatOfOne(cell: Cell)
    ensures Flat([cell]) == AllUnits(cell.text)
  {
    hide AllUnits;
    assert [cell][..0] == [];
  }

  /** Where column i begins. */
  function StartOf(cells: seq<Cell>, i: nat): nat
    requires i <= |cells|
  {
    |Flat(cells[..i])|
  }

  /** Where code point o of column i begins. */
  function Position(cells: seq<Cell>, i: nat, o: nat): nat
    requires i < |cells| && o <= |cells[i].text|
  {
    StartOf(cells, i) + |AllUnits(cells[i].text[..o])|
  }

  /** The text of a row is what is before a column, the column, and what is behind it. */
  lemma FlatAround(cells: seq<Cell>, i: nat)
    requires i < |cells|
    ensures Flat(cells) == Flat(cells[..i]) + AllUnits(cells[i].text) + Flat(cells[i + 1..])
    ensures StartOf(cells, i + 1) == StartOf(cells, i) + |AllUnits(cells[i].text)|
  {
    hide AllUnits, Flat;
    assert cells == cells[..i] + [cells[i]] + cells[i + 1..];
    FlatConcat(cells[..i] + [cells[i]], cells[i + 1..]);
    FlatConcat(cells[..i], [cells[i]]);
    FlatOfOne(cells[i]);
    assert cells[..i + 1] == cells[..i] + [cells[i]];
  }

  lemma UnitsAround(cs: seq<int>, o: nat)
    requires o < |cs|
    ensures AllUnits(cs) == AllUnits(cs[..o]) + Units(cs[o]) + AllUnits(cs[o + 1..])
    ensures |AllUnits(cs[..o + 1])| == |AllUnits(cs[..o])| + |Units(cs[o])|
  {
    hide AllUnits, Units;
    assert cs == cs[..o] + [cs[o]] + cs[o + 1..];
    AllUnitsConcat(cs[..o] + [cs[o]], cs[o + 1..]);
    AllUnitsConcat(cs[..o], [cs[o]]);
    UnitsOfOne(cs[o]);
    assert cs[..o + 1] == cs[..o] + [cs[o]];
  }

  /** Code point o of column i stands at its position. */
  lemma ReadAt(cells: seq<Cell>, i: nat, o: nat)
    requires i < |cells| && o < |cells[i].text| && IsCodePoint(cells[i].text[o])
    ensures var s, p, c := Flat(cells), Position(cells, i, o), cells[i].text[o];
            && p + |Units(c)| <= |s| && s[p..p + |Units(c)|] == Units(c)
            && (IsHigh(s[p]) ==> p + 1 < |s|) && CodePointAt(s, p) == c && (IsHigh(s[p]) <==> 0x10000 <= c)
            && Position(cells, i, o + 1) == p + |Units(c)|
  {
    hide AllUnits, Flat, Units;
    var text := cells[i].text;
    FlatAround(cells, i);
    UnitsAround(text, o);
    var s, p, c := Flat(cells), Position(cells, i, o), text[o];
    SliceOf(Flat(cells[..i]), AllUnits(text[..o]), Units(c), AllUnits(text[o + 1..]), Flat(cells[i + 1..]));
    ReadUnits(c, s, p);
  }

  lemma SliceOf(a: seq<int>, b: seq<int>, c: seq<int>, d: seq<int>, e: seq<int>)
    ensures var s, p := a + (b + c + d) + e, |a| + |b|; p + |c| <= |s| && s[p..p + |c|] == c
  {
  }

  /** Past the last code point of a column the next one begins. */
  lemma PositionEnd(cells: seq<Cell>, i: nat)
    requires i < |cells|
    ensures Position(cells, i, 0) == StartOf(cells, i)
    ensures Position(cells, i, |cells[i].text|) == StartOf(cells, i + 1)
    ensures cells[i].text == [] ==> StartOf(cells, i + 1) == StartOf(cells, i)
  {
    FlatAround(cells, i);
    assert cells[i].text[..0] == [] && cells[i].text[..|cells[i].text|] == cells[i].text;
  }

  lemma StartAtEnd(cells: seq<Cell>)
    ensures StartOf(cells, |cells|) == |Flat(cells)| && StartOf(cells, 0) == 0
  {
    assert cells[..|cells|] == cells && cells[..0] == [];
  }
}
