/**
  Copying columns to another row code point by code point.
 */
module PackedCopies {
  import opened TerminalRows
  import opened PackedText
  import opened PackedCells
  import opened RowCopies

  // ----- TerminalRow.copyInterval, code point by code point -----

  predicate CanGo(d: seq<Cell>, src: seq<Cell>, x: nat, end: nat, dx: nat) {
    && WellFormed(d) && WellFormed(src) && |d| == |src| && end <= |src| && !IsTail(src, end)
    && (x <= end ==> dx + (end - x) <= |d|)
  }

  function StyleFor(d: seq<Cell>, src: seq<Cell>, x: nat, live: bool): Style
    requires |d| == |src| && x < |src|
  {
    if live then d[x].style else src[x].style
  }

  /** What remains to be copied when o code points of column x are done. */
  function Rest(d: seq<Cell>, src: seq<Cell>, x: nat, o: nat, end: nat, dx: nat, live: bool): (r: seq<Cell>)
    requires CanGo(d, src, x, end, dx) && (o > 0 ==> x < end && o <= |SourceText(src, x)|)
  {
    if o == 0 then CopyCells(d, src, x, end, dx, live)
    else
      var w := WidthAt(src, x);
      CopyCells(PutCombiningAll(d, dx, SourceText(src, x)[o..], StyleFor(d, src, x, live)), src, x + w, end, dx + w,
                live)
  }

  lemma RestEnds(d: seq<Cell>, src: seq<Cell>, x: nat, end: nat, dx: nat, live: bool)
    requires CanGo(d, src, x, end, dx)
    ensures Rest(d, src, x, 0, end, dx, live) == if x < end then CopyCells(d, src, x, end, dx, live) else d
    ensures x >= end ==> CopyCells(d, src, x, end, dx, live) == d
    ensures x < |src| ==> SourceText(src, x) != []
  {
  }

  lemma RestBase(d: seq<Cell>, src: seq<Cell>, x: nat, end: nat, dx: nat, live: bool)
    requires CanGo(d, src, x, end, dx) && x < end
    ensures var w := WidthAt(src, x);
            && x + w <= end && (w == 2 ==> dx + 1 < |d|)
            && var d1 := Put(d, dx, Glyph(SourceText(src, x)[0], w), StyleFor(d, src, x, live));
            && Rest(d, src, x, 0, end, dx, live) == Rest(d1, src, x, 1, end, dx, live)
  {
    hide Put, PutCombiningAll;
  }

  lemma RestCombining(d: seq<Cell>, src: seq<Cell>, x: nat, o: nat, end: nat, dx: nat, live: bool)
    requires CanGo(d, src, x, end, dx) && x < end && 0 < o < |SourceText(src, x)|
    ensures var d1 := PutCombining(d, dx, SourceText(src, x)[o], StyleFor(d, src, x, live));
            Rest(d, src, x, o, end, dx, live) == Rest(d1, src, x, o + 1, end, dx, live)
  {
    hide CopyCells, SourceText;
    var text, style := SourceText(src, x), StyleFor(d, src, x, live);
    assert text[o..][1..] == text[o + 1..] && text[o..][0] == text[o];
    var d1 := PutCombining(d, dx, text[o], style);
    assert PutCombiningAll(d, dx, text[o..], style) == PutCombiningAll(d1, dx, text[o + 1..], style);
    assert StyleFor(d1, src, x, live) == style;
  }

  lemma RestStep(d: seq<Cell>, src: seq<Cell>, x: nat, o: nat, end: nat, dx: nat, live: bool)
    requires CanGo(d, src, x, end, dx) && x < end && o < |SourceText(src, x)|
    ensures var w := WidthAt(src, x);
            var g := Glyph(SourceText(src, x)[o], if o == 0 then w else 0);
            && x + w <= end && (w == 2 ==> dx + 1 < |d|)
            && Rest(d, src, x, o, end, dx, live)
               == Rest(Put(d, dx, g, StyleFor(d, src, x, live)), src, x, o + 1, end, dx, live)
  {
    hide Rest, PutNarrow, PutWide, PutCombining, SourceText, StyleFor;
    if o == 0 {
      RestBase(d, src, x, end, dx, live);
    } else {
      RestCombining(d, src, x, o, end, dx, live);
    }
  }

  lemma RestNext(d: seq<Cell>, src: seq<Cell>, x: nat, end: nat, dx: nat, live: bool)
    requires CanGo(d, src, x, end, dx) && x < end
    ensures var w := WidthAt(src, x);
            && CanGo(d, src, x + w, end, dx + w) && x + w <= end
            && Rest(d, src, x, |SourceText(src, x)|, end, dx, live) == Rest(d, src, x + w, 0, end, dx + w, live)
  {
    var text := SourceText(src, x);
    assert text[|text|..] == [];
  }

  lemma StartMonotonic(cells: seq<Cell>, i: nat, j: nat)
    requires i <= j <= |cells|
    ensures StartOf(cells, i) <= StartOf(cells, j)
  {
    assert cells[..j] == cells[..i] + cells[i..j];
    FlatConcat(cells[..i], cells[i..j]);
  }

  /** The code point that is read when o code points of column x are done. */
  lemma SourceHere(src: seq<Cell>, x: nat, o: nat, end: nat, width: int -> int)
    requires RowOk(src, width) && x < end <= |src| && !IsTail(src, end) && o < |SourceText(src, x)|
    ensures var b := BaseOf(src, x);
            && 0 <= b && o < |src[b].text| && IsCodePoint(src[b].text[o])
            && var p, c, s := Position(src, b, o), src[b].text[o], Flat(src);
            && p < p + |Units(c)| <= StartOf(src, end) <= |s| && (IsHigh(s[p]) ==> p + 1 < |s|)
            && CodePointAt(s, p) == c && (IsHigh(s[p]) <==> 0x10000 <= c)
            && Position(src, b, o + 1) == p + |Units(c)|
            && (if o == 0 then width(c) == WidthAt(src, b) else width(c) <= 0)
            && SourceText(src, x)[o] == (if o == 0 && IsTail(src, x) then SPACE else c)
            && |SourceText(src, x)| == |src[b].text|
  {
    hide Flat, StartOf, Position, Units, AllUnits;
    var b := BaseOf(src, x);
    assert TextOk(src[b].text, WidthAt(src, b), width);
    ReadAt(src, b, o);
    PositionMonotonic(src, b, o + 1);
    PositionEnd(src, b);
    StartMonotonic(src, b + 1, end);
    StartMonotonic(src, end, |src|);
    StartAtEnd(src);
    UnitsNotEmpty(src[b].text[o]);
  }

  /** The column that is read, the number of its code points that are done, and the column that is written. */
  datatype Place = Place(x: nat, o: nat, d: nat)

  ghost predicate At(src: seq<Cell>, p: Place, end: nat, i: nat, x2: nat)
    requires WellFormed(src) && end <= |src|
  {
    if p.x < end then
      var b := BaseOf(src, p.x);
      p.o < |SourceText(src, p.x)| && p.o < |src[b].text| && i == Position(src, b, p.o)
    else p.o == 0 && i == x2
  }

  function Remaining(d: seq<Cell>, src: seq<Cell>, p: Place, end: nat, live: bool): (r: seq<Cell>)
    requires CanGo(d, src, p.x, end, p.d) && (p.o > 0 ==> p.x < end && p.o <= |SourceText(src, p.x)|)
  {
    Rest(d, src, p.x, p.o, end, p.d, live)
  }

  function Following(src: seq<Cell>, p: Place): Place
    requires WellFormed(src) && p.x < |src|
  {
    var w := WidthAt(src, p.x);
    if p.o + 1 < |SourceText(src, p.x)| then Place(p.x, p.o + 1, p.d) else Place(p.x + w, 0, p.d + w)
  }

  function CodePointOf(src: seq<Cell>, p: Place): int
    requires WellFormed(src) && p.x < |src| && p.o < |src[BaseOf(src, p.x)].text|
  {
    src[BaseOf(src, p.x)].text[p.o]
  }

  /** The code point that is put: a cut character counts as a space. */
  function Substitute(src: seq<Cell>, p: Place): int
    requires WellFormed(src) && p.x < |src| && p.o < |src[BaseOf(src, p.x)].text|
  {
    if p.o == 0 && IsTail(src, p.x) then SPACE else CodePointOf(src, p)
  }

  /** The variables of copyInterval: a base moves the columns on by the width of the base before it. */
  datatype Cursor = Cursor(startingFromSecondHalf: bool, latestWidth: nat, sx: nat, dx: nat)

  predicate Follows(c: Cursor, src: seq<Cell>, p: Place) {
    && (c.startingFromSecondHalf <==> p.o == 0 && IsTail(src, p.x))
    && if p.o == 0 then c.dx + c.latestWidth == p.d && c.sx + c.latestWidth == p.x
       else c.dx == p.d && c.sx == p.x && c.latestWidth == WidthAt(src, p.x)
  }

  method ReadChar(chars: array<int>, i: nat, ghost s: seq<int>, ghost expected: int) returns (c: int, next: nat)
    requires |s| <= chars.Length && chars[..|s|] == s && i < |s| && (IsHigh(s[i]) ==> i + 1 < |s|)
    requires CodePointAt(s, i) == expected && (IsHigh(s[i]) <==> 0x10000 <= expected)
    ensures c == expected && next == i + |Units(expected)|
  {
    assert chars[i] == s[i];
    if IsHigh(chars[i]) {
      assert chars[i + 1] == s[i + 1];
      return 0x10000 + (chars[i] - 0xD800) * 0x400 + (chars[i + 1] - 0xDC00), i + 2;
    }
    return chars[i], i + 1;
  }

  lemma AtStart(src: seq<Cell>, x: nat, d: nat, end: nat, x1: nat, x2: nat)
    requires WellFormed(src) && end <= |src| && x <= |src|
    requires x1 == StartOf(src, BaseOf(src, x)) && (x >= end ==> x1 == x2)
    ensures At(src, Place(x, 0, d), end, x1, x2)
  {
    hide StartOf, Position;
    if x < end {
      PositionEnd(src, BaseOf(src, x));
    }
  }

  lemma AtEnd(d: seq<Cell>, src: seq<Cell>, p: Place, end: nat, i: nat, x2: nat, live: bool, width: int -> int)
    requires RowOk(src, width) && CanGo(d, src, p.x, end, p.d) && At(src, p, end, i, x2) && x2 == StartOf(src, end) <= i
    ensures Remaining(d, src, p, end, live) == d
  {
    hide RowOk, StartOf, Position, SourceText, Rest, CopyCells;
    if p.x < end {
      SourceHere(src, p.x, p.o, end, width);
    } else {
      RestEnds(d, src, p.x, end, p.d, live);
    }
  }

  /** One code point is read, its glyph is put, and the place moves on. */
  lemma Advance(d: seq<Cell>, src: seq<Cell>, p: Place, end: nat, i: nat, x2: nat, live: bool, width: int -> int)
    requires RowOk(src, width) && width(SPACE) == 1 && CanGo(d, src, p.x, end, p.d) && At(src, p, end, i, x2) && i < x2
    requires x2 == StartOf(src, end)
    ensures p.x < end && p.o < |src[BaseOf(src, p.x)].text| == |SourceText(src, p.x)|
    ensures var c, s, q := CodePointOf(src, p), Flat(src), Following(src, p);
            && IsCodePoint(c) && i < i + |Units(c)| <= x2 <= |s| && (IsHigh(s[i]) ==> i + 1 < |s|)
            && CodePointAt(s, i) == c && (IsHigh(s[i]) <==> 0x10000 <= c)
            && At(src, q, end, i + |Units(c)|, x2) && (q.o > 0 ==> q.x < end && q.o <= |SourceText(src, q.x)|)
    ensures var w, q := WidthAt(src, p.x), Following(src, p);
            var c := Substitute(src, p);
            && (if p.o == 0 then width(c) == w else width(c) <= 0) && (w == 2 ==> p.d + 1 < |d|) && p.d < |d|
            && var after := Put(d, p.d, GlyphOf(c, width), StyleFor(d, src, p.x, live));
            && CanGo(after, src, q.x, end, q.d)
            && Remaining(after, src, q, end, live) == Remaining(d, src, p, end, live)
  {
    hide Flat, StartOf, Position, SourceText, Rest, CopyCells, Put, Units, RowOk;
    SourceHere(src, p.x, p.o, end, width);
    SourceNext(src, p.x, end, width);
    RestStep(d, src, p.x, p.o, end, p.d, live);
    var w, q := WidthAt(src, p.x), Following(src, p);
    var c := SourceText(src, p.x)[p.o];
    var after := Put(d, p.d, GlyphOf(c, width), StyleFor(d, src, p.x, live));
    RestNext(after, src, p.x, end, p.d, live);
    RestEnds(after, src, q.x, end, q.d, live);
  }

  lemma UnitsNotEmpty(c: int)
    ensures |Units(c)| > 0
  {
  }

  lemma PositionMonotonic(cells: seq<Cell>, i: nat, o: nat)
    requires i < |cells| && o <= |cells[i].text|
    ensures Position(cells, i, o) <= Position(cells, i, |cells[i].text|)
  {
    hide AllUnits;
    var text := cells[i].text;
    assert text[..|text|] == text[..o] + text[o..];
    AllUnitsConcat(text[..o], text[o..]);
  }

  /** Behind the last code point of column x the next column is read. */
  lemma SourceNext(src: seq<Cell>, x: nat, end: nat, width: int -> int)
    requires RowOk(src, width) && x < end <= |src| && !IsTail(src, end)
    ensures var b, j := BaseOf(src, x), x + WidthAt(src, x);
            && 0 <= b && j <= end && !IsTail(src, j)
            && Position(src, b, |src[b].text|) == StartOf(src, j)
            && (j < end ==> BaseOf(src, j) == j && Position(src, j, 0) == StartOf(src, j))
  {
    hide Flat, StartOf, Position, Units, AllUnits, TextOk;
    var b, j := BaseOf(src, x), x + WidthAt(src, x);
    PositionEnd(src, b);
    if IsTail(src, x) {
      assert b == x - 1 && j == x + 1 && !IsTail(src, j);
      PositionEnd(src, x);
    } else if IsTail(src, x + 1) {
      assert b == x && j == x + 2 && !IsTail(src, j);
      PositionEnd(src, x + 1);
    }
    if j < |src| {
      PositionEnd(src, j);
    }
  }
}
