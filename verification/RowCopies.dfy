/**
  What storing, filling and copying do to the cells of any well-formed row, also where a double-width character is
  cut in half (TerminalRow.java).
 */
module RowCopies {
  import opened TerminalRows

  // ----- One character -----

  /** The combining code points of the next column, which a double-width character takes over when it is stored. */
  function Kept(row: seq<Cell>, col: nat): seq<int> {
    if col + 2 < |row| && 1 < |row[col + 1].text| && !IsTail(row, col + 2) then row[col + 1].text[1..] else []
  }

  /** A character of width 1, cell by cell. */
  lemma PutNarrowAt(row: seq<Cell>, col: nat, codePoint: int, style: Style, i: nat)
    requires col < |row| && WellFormed(row) && i < |row|
    ensures PutNarrow(row, col, codePoint, style)[i]
            == if i == col then Cell([codePoint], style)
               else if i == col - 1 && IsTail(row, col) then BlankCell(style)
               else if i == col + 1 && IsTail(row, col + 1) then Cell([SPACE], row[i].style)
               else row[i]
  {
  }

  /** A character of width 2, cell by cell. */
  lemma PutWideAt(row: seq<Cell>, col: nat, codePoint: int, style: Style, i: nat)
    requires col + 1 < |row| && WellFormed(row) && i < |row|
    ensures PutWide(row, col, codePoint, style)[i]
            == if i == col then Cell([codePoint] + Kept(row, col), style)
               else if i == col + 1 then Cell([], if IsTail(row, col + 2) then style else row[i].style)
               else if i == col - 1 && IsTail(row, col) then BlankCell(style)
               else if i == col + 2 && IsTail(row, col + 2) then Cell([SPACE], row[i].style)
               else row[i]
  {
  }

  /** Combining code points are appended to a base character. */
  lemma {:induction false} PutCombiningAllAt(row: seq<Cell>, col: nat, codePoints: seq<int>, i: nat)
    requires col < |row| && WellFormed(row) && i < |row| && !IsTail(row, col)
    ensures PutCombiningAll(row, col, codePoints, row[col].style)[i]
            == if i == col then Cell(row[col].text + codePoints, row[col].style) else row[i]
    decreases |codePoints|
  {
    if codePoints == [] {
      assert row[col].text + [] == row[col].text;
    } else {
      var next := PutCombining(row, col, codePoints[0], row[col].style);
      PutCombiningAllAt(next, col, codePoints[1..], i);
      assert row[col].text + [codePoints[0]] + codePoints[1..] == row[col].text + codePoints;
    }
  }

  // ----- Copying -----

  /** A character followed by what it takes over and by its own combining code points. */
  function WithKept(text: seq<int>, kept: seq<int>): seq<int>
    requires text != []
  {
    [text[0]] + kept + text[1..]
  }

  /** The text that arrives in column i from column x. */
  function LandedText(dst: seq<Cell>, src: seq<Cell>, x: nat, i: nat, first: bool): seq<int>
    requires x < |src| && i < |dst| && WellFormed(src)
  {
    if IsTail(src, x) then if first then [SPACE] + src[x - 1].text[1..] else []
    else if IsTail(src, x + 1) then WithKept(src[x].text, Kept(dst, i))
    else src[x].text
  }

  /** The text of column i after k columns have been copied from column sx on to column dx on. */
  function CopiedText(dst: seq<Cell>, src: seq<Cell>, sx: nat, dx: nat, k: nat, i: nat): seq<int>
    requires WellFormed(src) && sx + k <= |src| && dx + k <= |dst| && i < |dst|
  {
    if dx <= i < dx + k then LandedText(dst, src, i - dx + sx, i, i == dx)
    else if 0 < k && ((i == dx - 1 && IsTail(dst, dx)) || (i == dx + k && IsTail(dst, dx + k))) then [SPACE]
    else dst[i].text
  }

  /** The style of that column, where styles are those with which the characters have been stored. */
  function CopiedStyle(dst: seq<Cell>, src: seq<Cell>, styles: seq<Style>, sx: nat, dx: nat, k: nat, i: nat): Style
    requires sx + k <= |src| && dx + k <= |dst| && i < |dst| && k <= |styles|
  {
    if dx <= i < dx + k then
      if i == dx || !IsTail(src, i - dx + sx) then styles[i - dx]
      else if IsTail(dst, i + 1) then styles[i - dx - 1]
      else dst[i].style
    else if 0 < k && i == dx - 1 && IsTail(dst, dx) then styles[0]
    else dst[i].style
  }

  function CopiedRow(dst: seq<Cell>, src: seq<Cell>, styles: seq<Style>, sx: nat, dx: nat, k: nat): (r: seq<Cell>)
    requires WellFormed(src) && sx + k <= |src| && dx + k <= |dst| && k <= |styles|
    ensures |r| == |dst|
    ensures forall i :: 0 <= i < |dst| ==>
              r[i] == Cell(CopiedText(dst, src, sx, dx, k, i), CopiedStyle(dst, src, styles, sx, dx, k, i))
  {
    seq(|dst|, i requires 0 <= i < |dst| =>
          Cell(CopiedText(dst, src, sx, dx, k, i), CopiedStyle(dst, src, styles, sx, dx, k, i)))
  }

  /** The character that starts at source column x, or the right half of one as a space. */
  function SourceText(src: seq<Cell>, x: nat): (text: seq<int>)
    requires x < |src| && WellFormed(src)
    ensures text != []
  {
    if IsTail(src, x) then [SPACE] + src[x - 1].text[1..] else src[x].text
  }

  function SourceWidth(src: seq<Cell>, x: nat): (w: nat)
    ensures w == 1 || w == 2
  {
    if IsTail(src, x + 1) then 2 else 1
  }

  /** One character of a copy. */
  function CopyOne(row: seq<Cell>, src: seq<Cell>, x: nat, col: nat, style: Style): (r: seq<Cell>)
    requires WellFormed(row) && WellFormed(src) && x < |src| && col + SourceWidth(src, x) <= |row|
    ensures |r| == |row| && WellFormed(r)
  {
    var text := SourceText(src, x);
    PutCombiningAll(Put(row, col, Glyph(text[0], SourceWidth(src, x)), style), col, text[1..], style)
  }

  lemma CopyOneAt(row: seq<Cell>, src: seq<Cell>, x: nat, col: nat, style: Style, i: nat)
    requires WellFormed(row) && WellFormed(src) && x < |src| && col + SourceWidth(src, x) <= |row| && i < |row|
    ensures var text, w := SourceText(src, x), SourceWidth(src, x);
            CopyOne(row, src, x, col, style)[i]
            == if i == col then Cell(if w == 2 then WithKept(text, Kept(row, col)) else text, style)
               else if w == 2 && i == col + 1 then Cell([], if IsTail(row, col + 2) then style else row[i].style)
               else if i == col - 1 && IsTail(row, col) then BlankCell(style)
               else if i == col + w && IsTail(row, col + w) then Cell([SPACE], row[i].style)
               else row[i]
  {
    hide PutNarrow, PutWide, PutCombiningAll;
    var text, w := SourceText(src, x), SourceWidth(src, x);
    var put := Put(row, col, Glyph(text[0], w), style);
    if w == 1 {
      PutNarrowAt(row, col, text[0], style, i);
      PutNarrowAt(row, col, text[0], style, col);
      assert [text[0]] + text[1..] == text;
    } else {
      PutWideAt(row, col, text[0], style, i);
      PutWideAt(row, col, text[0], style, col);
    }
    PutCombiningAllAt(put, col, text[1..], i);
  }

  /** CopyCells copies one character and goes on behind it. */
  lemma CopyCellsStep(row: seq<Cell>, src: seq<Cell>, x: nat, end: nat, col: nat, live: bool)
    requires WellFormed(row) && WellFormed(src) && |row| == |src|
    requires x < end <= |src| && !IsTail(src, end) && col + (end - x) <= |row|
    ensures var w, style := SourceWidth(src, x), if live then row[x].style else src[x].style;
            && x + w <= end
            && CopyCells(row, src, x, end, col, live)
               == CopyCells(CopyOne(row, src, x, col, style), src, x + w, end, col + w, live)
  {
    hide PutNarrow, PutWide, PutCombiningAll;
    var text, w := SourceText(src, x), SourceWidth(src, x);
    var style := if live then row[x].style else src[x].style;
    var d1 := Put(row, col, Glyph(text[0], w), style);
    if w == 1 {
      PutNarrowAt(row, col, text[0], style, x);
    } else {
      PutWideAt(row, col, text[0], style, x);
    }
    assert (if live then d1[x].style else style) == style;
  }

  lemma NextRowAt(dst: seq<Cell>, src: seq<Cell>, styles: seq<Style>, sx: nat, dx: nat, k: nat, i: nat)
    requires WellFormed(dst) && WellFormed(src) && sx + k < |src|
    requires var w := SourceWidth(src, sx + k); sx + k + w <= |src| && dx + k + w <= |dst| && k + w <= |styles|
    requires WellFormed(CopiedRow(dst, src, styles, sx, dx, k)) && (k == 0 || !IsTail(src, sx + k)) && i < |dst|
    ensures CopyOne(CopiedRow(dst, src, styles, sx, dx, k), src, sx + k, dx + k, styles[k])[i]
            == CopiedRow(dst, src, styles, sx, dx, k + SourceWidth(src, sx + k))[i]
  {
    hide CopyOne, Kept, CopiedText, CopiedStyle;
    NextTextAt(dst, src, styles, sx, dx, k, i);
    NextStyleAt(dst, src, styles, sx, dx, k, i);
  }

  lemma NextTextAt(dst: seq<Cell>, src: seq<Cell>, styles: seq<Style>, sx: nat, dx: nat, k: nat, i: nat)
    requires WellFormed(dst) && WellFormed(src) && sx + k < |src|
    requires var w := SourceWidth(src, sx + k); sx + k + w <= |src| && dx + k + w <= |dst| && k + w <= |styles|
    requires WellFormed(CopiedRow(dst, src, styles, sx, dx, k)) && (k == 0 || !IsTail(src, sx + k)) && i < |dst|
    ensures CopyOne(CopiedRow(dst, src, styles, sx, dx, k), src, sx + k, dx + k, styles[k])[i].text
            == CopiedText(dst, src, sx, dx, k + SourceWidth(src, sx + k), i)
  {
    hide CopyOne, Kept, SourceText, CopiedStyle, LandedText, WellFormed, WithKept;
    var row := CopiedRow(dst, src, styles, sx, dx, k);
    CopyOneAt(row, src, sx + k, dx + k, styles[k], i);
    Frontier(dst, src, styles, sx, dx, k);
    SourceLands(dst, src, sx + k, dx + k, k == 0);
    if SourceWidth(src, sx + k) == 2 {
      TailLands(dst, src, sx + k + 1, dx + k + 1);
    }
  }

  lemma NextStyleAt(dst: seq<Cell>, src: seq<Cell>, styles: seq<Style>, sx: nat, dx: nat, k: nat, i: nat)
    requires WellFormed(dst) && WellFormed(src) && sx + k < |src|
    requires var w := SourceWidth(src, sx + k); sx + k + w <= |src| && dx + k + w <= |dst| && k + w <= |styles|
    requires WellFormed(CopiedRow(dst, src, styles, sx, dx, k)) && (k == 0 || !IsTail(src, sx + k)) && i < |dst|
    ensures CopyOne(CopiedRow(dst, src, styles, sx, dx, k), src, sx + k, dx + k, styles[k])[i].style
            == CopiedStyle(dst, src, styles, sx, dx, k + SourceWidth(src, sx + k), i)
  {
    hide CopyOne, Kept, SourceText, CopiedText;
    CopyOneAt(CopiedRow(dst, src, styles, sx, dx, k), src, sx + k, dx + k, styles[k], i);
    Frontier(dst, src, styles, sx, dx, k);
  }

  lemma TailLands(dst: seq<Cell>, src: seq<Cell>, x: nat, i: nat)
    requires WellFormed(src) && IsTail(src, x) && i < |dst|
    ensures LandedText(dst, src, x, i, false) == []
  {
  }

  /** Behind the columns that have been copied the row is as it was, except for a right half without its character. */
  lemma Frontier(dst: seq<Cell>, src: seq<Cell>, styles: seq<Style>, sx: nat, dx: nat, k: nat)
    requires WellFormed(dst) && WellFormed(src) && sx + k < |src| && dx + k < |dst| && k <= |styles|
    ensures var row, col := CopiedRow(dst, src, styles, sx, dx, k), dx + k;
            && Kept(row, col) == Kept(dst, col) && IsTail(row, col) == (k == 0 && IsTail(dst, dx))
            && IsTail(row, col + 1) == IsTail(dst, col + 1) && IsTail(row, col + 2) == IsTail(dst, col + 2)
  {
  }

  lemma SourceLands(dst: seq<Cell>, src: seq<Cell>, x: nat, i: nat, first: bool)
    requires WellFormed(src) && x < |src| && i < |dst| && (first || !IsTail(src, x))
    ensures var text := SourceText(src, x);
            LandedText(dst, src, x, i, first)
            == if SourceWidth(src, x) == 2 then WithKept(text, Kept(dst, i)) else text
  {
  }

  lemma NextRow(dst: seq<Cell>, src: seq<Cell>, styles: seq<Style>, sx: nat, dx: nat, k: nat)
    requires WellFormed(dst) && WellFormed(src) && sx + k < |src|
    requires var w := SourceWidth(src, sx + k); sx + k + w <= |src| && dx + k + w <= |dst| && k + w <= |styles|
    requires WellFormed(CopiedRow(dst, src, styles, sx, dx, k)) && (k == 0 || !IsTail(src, sx + k))
    ensures CopyOne(CopiedRow(dst, src, styles, sx, dx, k), src, sx + k, dx + k, styles[k])
            == CopiedRow(dst, src, styles, sx, dx, k + SourceWidth(src, sx + k))
  {
    hide CopyOne, CopiedRow;
    var next := CopyOne(CopiedRow(dst, src, styles, sx, dx, k), src, sx + k, dx + k, styles[k]);
    var copied := CopiedRow(dst, src, styles, sx, dx, k + SourceWidth(src, sx + k));
    forall i | 0 <= i < |dst| ensures next[i] == copied[i] {
      NextRowAt(dst, src, styles, sx, dx, k, i);
    }
  }

  /** The styles of the first k columns, read from the source or from the row as it was when they were copied. */
  predicate StylesRead(dst: seq<Cell>, src: seq<Cell>, styles: seq<Style>, sx: nat, dx: nat, live: bool, k: nat)
    requires WellFormed(src) && |dst| == |src| && sx + k <= |src| && dx + k <= |dst| && k <= |styles|
  {
    forall j :: 0 <= j < k ==> StyleRead(dst, src, styles, sx, dx, live, j)
  }

  predicate StyleRead(dst: seq<Cell>, src: seq<Cell>, styles: seq<Style>, sx: nat, dx: nat, live: bool, j: nat)
    requires |dst| == |src| && sx + j < |src| && dx + j < |dst| && j < |styles|
  {
    j == 0 || !IsTail(src, sx + j) ==>
      styles[j] == if live then CopiedStyle(dst, src, styles, sx, dx, j, sx + j) else src[sx + j].style
  }

  lemma CopiedRowMoreStyles(dst: seq<Cell>, src: seq<Cell>, styles: seq<Style>, more: seq<Style>, sx: nat, dx: nat,
                            k: nat)
    requires WellFormed(src) && sx + k <= |src| && dx + k <= |dst| && k <= |styles|
    ensures CopiedRow(dst, src, styles + more, sx, dx, k) == CopiedRow(dst, src, styles, sx, dx, k)
  {
  }

  lemma StylesReadMore(dst: seq<Cell>, src: seq<Cell>, styles: seq<Style>, more: seq<Style>, sx: nat, dx: nat,
                       live: bool, k: nat)
    requires WellFormed(src) && |dst| == |src| && sx + k <= |src| && dx + k <= |dst| && k <= |styles|
    requires StylesRead(dst, src, styles, sx, dx, live, k)
    ensures StylesRead(dst, src, styles + more, sx, dx, live, k)
  {
    forall j | 0 <= j < k ensures StyleRead(dst, src, styles + more, sx, dx, live, j) {
      assert StyleRead(dst, src, styles, sx, dx, live, j);
      assert CopiedStyle(dst, src, styles + more, sx, dx, j, sx + j)
             == CopiedStyle(dst, src, styles, sx, dx, j, sx + j);
    }
  }

  lemma CopyCellsDone(row: seq<Cell>, src: seq<Cell>, x: nat, col: nat, live: bool)
    requires WellFormed(row) && WellFormed(src) && |row| == |src| && x <= |src| && !IsTail(src, x) && col <= |row|
    ensures CopyCells(row, src, x, x, col, live) == row
  {
  }

  /** One more character has been copied. */
  lemma StylesReadNext(dst: seq<Cell>, src: seq<Cell>, styles: seq<Style>, more: seq<Style>, sx: nat, dx: nat,
                       live: bool, k: nat)
    requires WellFormed(src) && |dst| == |src| && |styles| == k && sx + k < |src|
    requires |more| == SourceWidth(src, sx + k) && sx + k + |more| <= |src| && dx + k + |more| <= |dst|
    requires StylesRead(dst, src, styles, sx, dx, live, k)
    requires more[0] == if live then CopiedStyle(dst, src, styles, sx, dx, k, sx + k) else src[sx + k].style
    ensures StylesRead(dst, src, styles + more, sx, dx, live, k + |more|)
  {
    StylesReadMore(dst, src, styles, more, sx, dx, live, k);
    assert CopiedStyle(dst, src, styles + more, sx, dx, k, sx + k) == CopiedStyle(dst, src, styles, sx, dx, k, sx + k);
    assert |more| == 2 ==> IsTail(src, sx + k + 1);
  }

  lemma CopyStep(dst: seq<Cell>, src: seq<Cell>, styles: seq<Style>, more: seq<Style>, sx: nat, dx: nat, live: bool,
                 k: nat, n: nat)
    requires WellFormed(dst) && WellFormed(src) && |dst| == |src|
    requires k < n && sx + n <= |src| && dx + n <= |dst| && !IsTail(src, sx + n) && |styles| == k
    requires (k == 0 || !IsTail(src, sx + k)) && WellFormed(CopiedRow(dst, src, styles, sx, dx, k))
    requires |more| == SourceWidth(src, sx + k)
    requires more[0] == if live then CopiedRow(dst, src, styles, sx, dx, k)[sx + k].style else src[sx + k].style
    ensures var w := |more|;
            && k + w <= n && !IsTail(src, sx + k + w) && WellFormed(CopiedRow(dst, src, styles + more, sx, dx, k + w))
            && CopyCells(CopiedRow(dst, src, styles, sx, dx, k), src, sx + k, sx + n, dx + k, live)
               == CopyCells(CopiedRow(dst, src, styles + more, sx, dx, k + w), src, sx + k + w, sx + n, dx + k + w,
                            live)
  {
    hide CopiedText, CopiedStyle, CopyCells, CopyOne;
    CopyCellsStep(CopiedRow(dst, src, styles, sx, dx, k), src, sx + k, sx + n, dx + k, live);
    CopiedRowMoreStyles(dst, src, styles, more, sx, dx, k);
    NextRow(dst, src, styles + more, sx, dx, k);
  }

  /** A copy that has got as far as column k goes on to column n, where no character is cut. */
  lemma {:induction false} CopyGoesOn(dst: seq<Cell>, src: seq<Cell>, styles: seq<Style>, sx: nat, dx: nat, live: bool,
                                      k: nat, n: nat)
    returns (all: seq<Style>)
    requires WellFormed(dst) && WellFormed(src) && |dst| == |src| && (live ==> dst == src)
    requires k <= n && sx + n <= |src| && dx + n <= |dst| && !IsTail(src, sx + n) && |styles| == k
    requires (k == 0 || !IsTail(src, sx + k)) && StylesRead(dst, src, styles, sx, dx, live, k)
    requires WellFormed(CopiedRow(dst, src, styles, sx, dx, k))
    ensures |all| == n && StylesRead(dst, src, all, sx, dx, live, n)
    ensures CopyCells(CopiedRow(dst, src, styles, sx, dx, k), src, sx + k, sx + n, dx + k, live)
            == CopiedRow(dst, src, all, sx, dx, n)
    decreases n - k
  {
    hide CopiedRow, CopyCells, CopyOne, StylesRead;
    if k == n {
      all := styles;
      CopyCellsDone(CopiedRow(dst, src, styles, sx, dx, k), src, sx + k, dx + k, live);
    } else {
      var row := CopiedRow(dst, src, styles, sx, dx, k);
      var w, style := SourceWidth(src, sx + k), if live then row[sx + k].style else src[sx + k].style;
      var more := seq(w, _ => style);
      CopyStep(dst, src, styles, more, sx, dx, live, k, n);
      StylesReadNext(dst, src, styles, more, sx, dx, live, k);
      all := CopyGoesOn(dst, src, styles + more, sx, dx, live, k + w, n);
    }
  }

  /** The columns that are copied: not the left half of a character whose right half is outside. */
  function Columns(src: seq<Cell>, sx: nat, w: nat): (k: nat)
    requires sx + w <= |src|
    ensures k <= w
  {
    if 0 < w && IsTail(src, sx + w) then w - 1 else w
  }

  /** copyInterval on any well-formed rows: the text and style of every cell. */
  lemma CopyIntervalCells(dst: seq<Cell>, src: seq<Cell>, sx: nat, w: nat, dx: nat, live: bool)
    returns (styles: seq<Style>)
    requires WellFormed(dst) && WellFormed(src) && |dst| == |src| && (live ==> dst == src)
    requires sx + w <= |src| && dx + w <= |dst|
    ensures var k := Columns(src, sx, w); |styles| == k && StylesRead(dst, src, styles, sx, dx, live, k)
    ensures CopyInterval(dst, src, sx, sx + w, dx, live) == CopiedRow(dst, src, styles, sx, dx, Columns(src, sx, w))
  {
    hide CopyCells, CopiedText, CopiedStyle;
    NothingCopied(dst, src, sx, dx);
    if w == 0 {
      styles := [];
      NothingToCopy(dst, src, sx, dx, live);
    } else {
      styles := CopyGoesOn(dst, src, [], sx, dx, live, 0, Columns(src, sx, w));
    }
  }

  lemma NothingCopied(dst: seq<Cell>, src: seq<Cell>, sx: nat, dx: nat)
    requires WellFormed(src) && sx <= |src| && dx <= |dst|
    ensures CopiedRow(dst, src, [], sx, dx, 0) == dst
  {
  }

  lemma NothingToCopy(dst: seq<Cell>, src: seq<Cell>, sx: nat, dx: nat, live: bool)
    requires WellFormed(dst) && WellFormed(src) && |dst| == |src| && sx <= |src| && dx <= |dst|
    ensures CopyInterval(dst, src, sx, sx, dx, live) == dst
  {
  }

  /** The text of every cell. */
  lemma CopyIntervalText(dst: seq<Cell>, src: seq<Cell>, sx: nat, w: nat, dx: nat, live: bool, i: nat)
    requires WellFormed(dst) && WellFormed(src) && |dst| == |src| && (live ==> dst == src)
    requires sx + w <= |src| && dx + w <= |dst| && i < |dst|
    ensures CopyInterval(dst, src, sx, sx + w, dx, live)[i].text == CopiedText(dst, src, sx, dx, Columns(src, sx, w), i)
  {
    hide CopyInterval, CopiedText, CopiedStyle;
    var styles := CopyIntervalCells(dst, src, sx, w, dx, live);
  }

  // ----- When a copy is a plain copy -----

  /** Columns sx on of src have been copied to columns dx on, and nothing else has changed. */
  predicate IsPlainCopy(dst: seq<Cell>, src: seq<Cell>, after: seq<Cell>, sx: nat, w: nat, dx: nat)
    requires |after| == |dst| && sx + w <= |src| && dx + w <= |dst|
  {
    forall i :: 0 <= i < |dst| ==> after[i].text == if dx <= i < dx + w then src[i - dx + sx].text else dst[i].text
  }

  /** A double-width character comes to stand over a column with combining code points, which it takes over. */
  predicate Lands(dst: seq<Cell>, src: seq<Cell>, sx: nat, w: nat, dx: nat)
    requires sx + w <= |src| && dx + w <= |dst|
  {
    exists i :: dx <= i < dx + w && IsTail(src, i - dx + sx + 1) && Kept(dst, i) != []
  }

  /** At the right edge: the character that is not copied because it is cut stands there anyway, or none is cut. */
  predicate RightEdgeOk(dst: seq<Cell>, src: seq<Cell>, sx: nat, w: nat, dx: nat)
    requires 0 < w && sx + w <= |src| && dx + w <= |dst|
  {
    if IsTail(src, sx + w) then
      src[sx + w - 1].text == if 1 < w && IsTail(dst, dx + w - 1) then [SPACE] else dst[dx + w - 1].text
    else !IsTail(dst, dx + w)
  }

  /** At the left edge: no character is cut, unless what it leaves behind looks the same. */
  predicate LeftEdgeOk(dst: seq<Cell>, src: seq<Cell>, sx: nat, w: nat, dx: nat)
    requires 0 < w && sx + w <= |src| && dx + w <= |dst| && WellFormed(dst)
  {
    !IsTail(src, sx) && (IsTail(dst, dx) && 0 < Columns(src, sx, w) ==> dst[dx - 1].text == [SPACE])
  }

  /** What a caller can test before a copy. */
  predicate CanCopy(dst: seq<Cell>, src: seq<Cell>, sx: nat, w: nat, dx: nat)
    requires sx + w <= |src| && dx + w <= |dst| && WellFormed(dst)
  {
    w == 0 || (LeftEdgeOk(dst, src, sx, w, dx) && RightEdgeOk(dst, src, sx, w, dx)
               && !Lands(dst, src, sx, Columns(src, sx, w), dx))
  }

  lemma LandedIsSource(dst: seq<Cell>, src: seq<Cell>, x: nat, i: nat, first: bool)
    requires x < |src| && i < |dst| && WellFormed(src)
    ensures LandedText(dst, src, x, i, first) == src[x].text
            <==> !(first && IsTail(src, x)) && !(IsTail(src, x + 1) && Kept(dst, i) != [])
  {
    if !IsTail(src, x) && IsTail(src, x + 1) {
      var text := src[x].text;
      assert text == [text[0]] + text[1..];
      if Kept(dst, i) == [] {
        assert [text[0]] + [] + text[1..] == text;
      }
    }
  }

  /** The texts of a plain copy. */
  predicate PlainTexts(dst: seq<Cell>, src: seq<Cell>, sx: nat, w: nat, dx: nat)
    requires WellFormed(src) && sx + w <= |src| && dx + w <= |dst|
  {
    forall i :: 0 <= i < |dst| ==>
      CopiedText(dst, src, sx, dx, Columns(src, sx, w), i)
      == if dx <= i < dx + w then src[i - dx + sx].text else dst[i].text
  }

  lemma PlainIfCanCopy(dst: seq<Cell>, src: seq<Cell>, sx: nat, w: nat, dx: nat, i: nat)
    requires WellFormed(dst) && WellFormed(src) && sx + w <= |src| && dx + w <= |dst| && i < |dst|
    requires CanCopy(dst, src, sx, w, dx)
    ensures CopiedText(dst, src, sx, dx, Columns(src, sx, w), i)
            == if dx <= i < dx + w then src[i - dx + sx].text else dst[i].text
  {
    hide Kept, LandedText;
    var k := Columns(src, sx, w);
    if dx <= i < dx + k {
      LandedIsSource(dst, src, i - dx + sx, i, i == dx);
    }
  }

  lemma CanCopyIfPlain(dst: seq<Cell>, src: seq<Cell>, sx: nat, w: nat, dx: nat)
    requires WellFormed(dst) && WellFormed(src) && sx + w <= |src| && dx + w <= |dst|
    requires PlainTexts(dst, src, sx, w, dx)
    ensures CanCopy(dst, src, sx, w, dx)
  {
    hide Kept, LandedText;
    var k := Columns(src, sx, w);
    if w > 0 {
      forall i | dx <= i < dx + k
        ensures !(i == dx && IsTail(src, sx)) && !(IsTail(src, i - dx + sx + 1) && Kept(dst, i) != [])
      {
        assert CopiedText(dst, src, sx, dx, k, i) == src[i - dx + sx].text;
        LandedIsSource(dst, src, i - dx + sx, i, i == dx);
      }
      assert !IsTail(src, sx) by {
        if 0 < k {
          LandedIsSource(dst, src, sx, dx, true);
          assert CopiedText(dst, src, sx, dx, k, dx) == src[sx].text;
        }
      }
      assert !Lands(dst, src, sx, k, dx);
      assert LeftEdgeOk(dst, src, sx, w, dx) by {
        if 0 < k && IsTail(dst, dx) {
          assert CopiedText(dst, src, sx, dx, k, dx - 1) == dst[dx - 1].text;
        }
      }
      assert RightEdgeOk(dst, src, sx, w, dx) by {
        if k < w {
          assert CopiedText(dst, src, sx, dx, k, dx + k) == src[sx + k].text;
        } else if dx + w < |dst| {
          assert CopiedText(dst, src, sx, dx, k, dx + w) == dst[dx + w].text;
        }
      }
    }
  }

  /** A copy is a plain copy of the text exactly if that test succeeds. */
  lemma PlainCopyIff(dst: seq<Cell>, src: seq<Cell>, sx: nat, w: nat, dx: nat, live: bool)
    requires WellFormed(dst) && WellFormed(src) && |dst| == |src| && (live ==> dst == src)
    requires sx + w <= |src| && dx + w <= |dst|
    ensures IsPlainCopy(dst, src, CopyInterval(dst, src, sx, sx + w, dx, live), sx, w, dx) <==>
              CanCopy(dst, src, sx, w, dx)
  {
    hide CopyInterval, CanCopy, CopiedText;
    hide IsPlainCopy, PlainTexts;
    var after := CopyInterval(dst, src, sx, sx + w, dx, live);
    forall i | 0 <= i < |dst| ensures after[i].text == CopiedText(dst, src, sx, dx, Columns(src, sx, w), i) {
      CopyIntervalText(dst, src, sx, w, dx, live, i);
    }
    SameTexts(dst, src, after, sx, w, dx);
    PlainTextsIff(dst, src, sx, w, dx);
  }

  lemma SameTexts(dst: seq<Cell>, src: seq<Cell>, after: seq<Cell>, sx: nat, w: nat, dx: nat)
    requires WellFormed(src) && |after| == |dst| && sx + w <= |src| && dx + w <= |dst|
    requires forall i :: 0 <= i < |dst| ==> after[i].text == CopiedText(dst, src, sx, dx, Columns(src, sx, w), i)
    ensures IsPlainCopy(dst, src, after, sx, w, dx) <==> PlainTexts(dst, src, sx, w, dx)
  {
    hide CopiedText;
    if PlainTexts(dst, src, sx, w, dx) {
      forall i | 0 <= i < |dst|
        ensures after[i].text == if dx <= i < dx + w then src[i - dx + sx].text else dst[i].text
      {
        assert after[i].text == CopiedText(dst, src, sx, dx, Columns(src, sx, w), i);
      }
    } else {
      var i :| 0 <= i < |dst| && CopiedText(dst, src, sx, dx, Columns(src, sx, w), i)
                                 != if dx <= i < dx + w then src[i - dx + sx].text else dst[i].text;
      assert after[i].text == CopiedText(dst, src, sx, dx, Columns(src, sx, w), i);
    }
  }

  lemma PlainTextsIff(dst: seq<Cell>, src: seq<Cell>, sx: nat, w: nat, dx: nat)
    requires WellFormed(dst) && WellFormed(src) && sx + w <= |src| && dx + w <= |dst|
    ensures PlainTexts(dst, src, sx, w, dx) <==> CanCopy(dst, src, sx, w, dx)
  {
    hide CanCopy, CopiedText;
    if CanCopy(dst, src, sx, w, dx) {
      forall i | 0 <= i < |dst|
        ensures CopiedText(dst, src, sx, dx, Columns(src, sx, w), i)
                == if dx <= i < dx + w then src[i - dx + sx].text else dst[i].text
      {
        PlainIfCanCopy(dst, src, sx, w, dx, i);
      }
    } else if PlainTexts(dst, src, sx, w, dx) {
      CanCopyIfPlain(dst, src, sx, w, dx);
    }
  }

  /** Whole rows: no character is cut, so only the landings matter. */
  lemma WholeRowCopyIff(dst: seq<Cell>, src: seq<Cell>, live: bool)
    requires WellFormed(dst) && WellFormed(src) && |dst| == |src| && (live ==> dst == src)
    ensures IsPlainCopy(dst, src, CopyInterval(dst, src, 0, |src|, 0, live), 0, |src|, 0)
            <==> !Lands(dst, src, 0, |src|, 0)
  {
    hide CopyInterval, Lands, IsPlainCopy;
    PlainCopyIff(dst, src, 0, |src|, 0, live);
    assert Columns(src, 0, |src|) == |src|;
    if |src| == 0 {
      NothingLands(dst, src);
    }
  }

  lemma NothingLands(dst: seq<Cell>, src: seq<Cell>)
    ensures !Lands(dst, src, 0, 0, 0)
  {
  }

  // ----- Styles -----

  /** No right half of a double-width character in these columns. */
  predicate NoHalves(row: seq<Cell>, from: nat, to: nat) {
    forall i :: from <= i < to && i < |row| ==> row[i].text != []
  }

  /** A column from which a copy takes a character: the first one, or any that is no right half. */
  predicate Begins(row: seq<Cell>, sx: nat, x: nat) {
    x == sx || !IsTail(row, x)
  }

  /**
    A row is copied onto itself from column sx to column dx on, to the right.  The style of column x is read when the
    columns before it have been copied.  It is then the style with which the character of this column was stored, or
    column x still has its own.
   */
  function ReadFrom(row: seq<Cell>, sx: nat, dx: nat, x: nat): (from: nat)
    requires WellFormed(row) && sx < dx && sx <= x < |row|
    ensures sx <= from <= x && (from < x ==> Begins(row, sx, from))
  {
    if x < dx then if x == dx - 1 && IsTail(row, dx) then sx else x
    else if Begins(row, sx, x - dx + sx) then x - dx + sx
    else if IsTail(row, x + 1) then x - dx + sx - 1
    else x
  }

  /** The style with which the character of column x is stored by such a copy. */
  function SmearedStyle(row: seq<Cell>, sx: nat, dx: nat, x: nat): Style
    requires WellFormed(row) && sx < dx && sx <= x < |row|
    decreases x
  {
    var from := ReadFrom(row, sx, dx, x);
    if from < x then SmearedStyle(row, sx, dx, from) else row[x].style
  }

  lemma {:induction false} StylesAreSmeared(row: seq<Cell>, styles: seq<Style>, sx: nat, dx: nat, k: nat, j: nat)
    requires WellFormed(row) && sx < dx && dx + k <= |row| && k <= |styles| && j < k && Begins(row, sx, sx + j)
    requires StylesRead(row, row, styles, sx, dx, true, k)
    ensures styles[j] == SmearedStyle(row, sx, dx, sx + j)
    decreases j
  {
    assert StyleRead(row, row, styles, sx, dx, true, j);
    var from := ReadFrom(row, sx, dx, sx + j);
    if from < sx + j {
      StylesAreSmeared(row, styles, sx, dx, k, from - sx);
    }
  }

  /** The style with which the character of column x is stored. */
  function StoredStyle(src: seq<Cell>, sx: nat, dx: nat, live: bool, x: nat): Style
    requires WellFormed(src) && sx <= x < |src|
  {
    if live && sx < dx then SmearedStyle(src, sx, dx, x) else src[x].style
  }

  lemma StylesAreStored(dst: seq<Cell>, src: seq<Cell>, styles: seq<Style>, sx: nat, dx: nat, live: bool,
                        k: nat, j: nat)
    requires WellFormed(dst) && WellFormed(src) && |dst| == |src| && (live ==> dst == src)
    requires sx + k <= |src| && dx + k <= |dst| && k <= |styles| && j < k && Begins(src, sx, sx + j)
    requires StylesRead(dst, src, styles, sx, dx, live, k)
    ensures styles[j] == StoredStyle(src, sx, dx, live, sx + j)
  {
    if live && sx < dx {
      StylesAreSmeared(src, styles, sx, dx, k, j);
    } else {
      assert StyleRead(dst, src, styles, sx, dx, live, j);
    }
  }

  /** The style of column i after k columns have been copied. */
  function ArrivedStyle(dst: seq<Cell>, src: seq<Cell>, sx: nat, dx: nat, live: bool, k: nat, i: nat): Style
    requires WellFormed(src) && sx + k <= |src| && dx + k <= |dst| && i < |dst|
  {
    if dx <= i < dx + k && Begins(src, sx, i - dx + sx) then StoredStyle(src, sx, dx, live, i - dx + sx)
    else if dx <= i < dx + k && IsTail(dst, i + 1) then StoredStyle(src, sx, dx, live, i - dx + sx - 1)
    else if 0 < k && i == dx - 1 && IsTail(dst, dx) then StoredStyle(src, sx, dx, live, sx)
    else dst[i].style
  }

  /** The style of every cell after a copy, between any rows and in either direction within a row. */
  lemma CopyIntervalStyle(dst: seq<Cell>, src: seq<Cell>, sx: nat, w: nat, dx: nat, live: bool, i: nat)
    requires WellFormed(dst) && WellFormed(src) && |dst| == |src| && (live ==> dst == src)
    requires sx + w <= |src| && dx + w <= |dst| && i < |dst|
    ensures CopyInterval(dst, src, sx, sx + w, dx, live)[i].style
            == ArrivedStyle(dst, src, sx, dx, live, Columns(src, sx, w), i)
  {
    hide CopyInterval, CopiedText, StylesRead, StoredStyle;
    var styles := CopyIntervalCells(dst, src, sx, w, dx, live);
    var k := Columns(src, sx, w);
    if dx <= i < dx + k {
      if Begins(src, sx, i - dx + sx) {
        StylesAreStored(dst, src, styles, sx, dx, live, k, i - dx);
      } else {
        StylesAreStored(dst, src, styles, sx, dx, live, k, i - dx - 1);
      }
    }
    if 0 < k {
      StylesAreStored(dst, src, styles, sx, dx, live, k, 0);
    }
  }

  /** All characters that are copied arrive with the style they had. */
  predicate StylesKept(dst: seq<Cell>, src: seq<Cell>, after: seq<Cell>, sx: nat, w: nat, dx: nat)
    requires |after| == |dst| && sx + w <= |src| && dx + w <= |dst|
  {
    forall i :: sx <= i < sx + Columns(src, sx, w) && Begins(src, sx, i) ==> after[i - sx + dx].style == src[i].style
  }

  /** Every character that is copied has the style of the column from which its style is read. */
  predicate StylesRepeat(row: seq<Cell>, sx: nat, w: nat, dx: nat)
    requires WellFormed(row) && sx < dx && sx + w <= |row|
  {
    forall i :: sx <= i < sx + Columns(row, sx, w) && Begins(row, sx, i) ==>
      row[i].style == row[ReadFrom(row, sx, dx, i)].style
  }

  lemma {:induction false} SmearedWhenRepeating(row: seq<Cell>, sx: nat, w: nat, dx: nat, i: nat)
    requires WellFormed(row) && sx < dx && sx + w <= |row| && StylesRepeat(row, sx, w, dx)
    requires sx <= i < sx + Columns(row, sx, w) && Begins(row, sx, i)
    ensures SmearedStyle(row, sx, dx, i) == row[i].style
    decreases i
  {
    hide ReadFrom;
    var from := ReadFrom(row, sx, dx, i);
    if from < i {
      SmearedWhenRepeating(row, sx, w, dx, from);
    }
  }

  lemma RepeatingWhenSmeared(row: seq<Cell>, sx: nat, w: nat, dx: nat)
    requires WellFormed(row) && sx < dx && sx + w <= |row|
    requires forall i :: sx <= i < sx + Columns(row, sx, w) && Begins(row, sx, i) ==>
               SmearedStyle(row, sx, dx, i) == row[i].style
    ensures StylesRepeat(row, sx, w, dx)
  {
    forall i | sx <= i < sx + Columns(row, sx, w) && Begins(row, sx, i)
      ensures row[i].style == row[ReadFrom(row, sx, dx, i)].style
    {
      var from := ReadFrom(row, sx, dx, i);
      if from < i {
        assert SmearedStyle(row, sx, dx, from) == row[from].style;
      }
    }
  }

  /** Between different rows and to the left within a row, characters always keep their styles. */
  lemma StylesKeptElsewhere(dst: seq<Cell>, src: seq<Cell>, sx: nat, w: nat, dx: nat, live: bool)
    requires WellFormed(dst) && WellFormed(src) && |dst| == |src| && (live ==> dst == src && dx <= sx)
    requires sx + w <= |src| && dx + w <= |dst|
    ensures StylesKept(dst, src, CopyInterval(dst, src, sx, sx + w, dx, live), sx, w, dx)
  {
    hide CopyInterval;
    forall i | sx <= i < sx + Columns(src, sx, w) && Begins(src, sx, i)
      ensures CopyInterval(dst, src, sx, sx + w, dx, live)[i - sx + dx].style == src[i].style
    {
      CopyIntervalStyle(dst, src, sx, w, dx, live, i - sx + dx);
    }
  }

  /**
    Copying within a row to the right (ICH and insert mode) keeps the styles exactly when they repeat, because the
    styles are read from the row while it is overwritten.
   */
  lemma StylesKeptWithinRow(row: seq<Cell>, sx: nat, w: nat, dx: nat)
    requires WellFormed(row) && sx < dx && dx + w <= |row|
    ensures StylesKept(row, row, CopyInterval(row, row, sx, sx + w, dx, true), sx, w, dx) <==>
              StylesRepeat(row, sx, w, dx)
  {
    hide CopyInterval, SmearedStyle, ReadFrom;
    var after, k := CopyInterval(row, row, sx, sx + w, dx, true), Columns(row, sx, w);
    forall i | sx <= i < sx + k && Begins(row, sx, i)
      ensures after[i - sx + dx].style == SmearedStyle(row, sx, dx, i)
    {
      CopyIntervalStyle(row, row, sx, w, dx, true, i - sx + dx);
    }
    if StylesRepeat(row, sx, w, dx) {
      forall i | sx <= i < sx + k && Begins(row, sx, i)
        ensures after[i - sx + dx].style == row[i].style
      {
        SmearedWhenRepeating(row, sx, w, dx, i);
      }
    } else if StylesKept(row, row, after, sx, w, dx) {
      RepeatingWhenSmeared(row, sx, w, dx);
    }
  }

  /** Without right halves each column reads its style from the column at the distance of the copy. */
  lemma RepeatsWithoutHalves(row: seq<Cell>, sx: nat, w: nat, dx: nat)
    requires WellFormed(row) && sx < dx && dx + w <= |row| && NoHalves(row, sx, dx + w)
    ensures StylesRepeat(row, sx, w, dx) <==>
              forall i :: dx <= i < sx + Columns(row, sx, w) ==> row[i].style == row[i - dx + sx].style
  {
    var k := Columns(row, sx, w);
    forall i | sx <= i < sx + k
      ensures Begins(row, sx, i) && ReadFrom(row, sx, dx, i) == if i < dx then i else i - dx + sx
    {
      assert row[dx].text != [];
    }
    if StylesRepeat(row, sx, w, dx) {
      forall i | dx <= i < sx + k ensures row[i].style == row[i - dx + sx].style {
        assert row[i].style == row[ReadFrom(row, sx, dx, i)].style;
      }
    }
  }

  /** A row in which the copy changes a style. */
  lemma StylesSmearExample()
    ensures var red, blue := Style(1, 257, 0), Style(4, 257, 0);
            var row := [Cell([65], red), Cell([66], blue), Cell([67], blue)];
            CopyInterval(row, row, 0, 2, 1, true)[2].style == red
  {
    hide CopyInterval;
    var red, blue := Style(1, 257, 0), Style(4, 257, 0);
    var row := [Cell([65], red), Cell([66], blue), Cell([67], blue)];
    CopyIntervalStyle(row, row, 0, 2, 1, true, 2);
    assert SmearedStyle(row, 0, 1, 1) == SmearedStyle(row, 0, 1, 0);
  }

  // ----- Two copies that are not plain -----

  /** A double-width character, a letter, and a letter with an accent between two letters. */
  const WIDE: seq<Cell> := [Cell([0x4E2D], NORMAL), Cell([], NORMAL), Cell([99], NORMAL)]
  const ACCENTED: seq<Cell> := [Cell([97], NORMAL), Cell([101, 0x301], NORMAL), Cell([98], NORMAL)]

  /** The right half of a double-width character arrives as a space, and its left half does not arrive. */
  lemma CutCharacter()
    ensures CopyInterval(ACCENTED, WIDE, 1, 2, 0, false)[0].text == [SPACE]
    ensures CopyInterval(ACCENTED, WIDE, 0, 1, 0, false)[0].text == [97]
    ensures CopyInterval(WIDE, ACCENTED, 0, 1, 0, false)[1].text == [SPACE]
  {
    hide CopyInterval;
    CopyIntervalText(ACCENTED, WIDE, 1, 1, 0, false, 0);
    CopyIntervalText(ACCENTED, WIDE, 0, 1, 0, false, 0);
    CopyIntervalText(WIDE, ACCENTED, 0, 1, 0, false, 1);
  }

  /** Over a letter with an accent, a double-width character takes the accent over. */
  lemma AccentTakenOver()
    ensures CopyInterval(ACCENTED, WIDE, 0, 3, 0, false)[0].text == [0x4E2D, 0x301]
  {
    hide CopyInterval;
    CopyIntervalText(ACCENTED, WIDE, 0, 3, 0, false, 0);
  }
}
