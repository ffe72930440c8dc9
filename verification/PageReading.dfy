/** Reading the transcript of rows that have been typed. */
module PageReading {
  import opened Basics
  import opened TerminalRows
  import opened TerminalRing
  import opened FastResize
  import opened Reflow
  import opened ReflowText
  import opened Transcript
  import opened Typing
  import opened Pages
  import opened Retyping
  import opened ReflowLines

  // ----- The text of rows -----

  /** The text of rows after which more rows follow. */
  function Content(full: seq<Line>): seq<int> {
    if full == [] then []
    else Content(full[..|full| - 1]) + LineContent(full[|full| - 1]) + if full[|full| - 1].wrap then [] else [NEWLINE]
  }

  lemma {:induction false} JoinedContent(lines: seq<Line>, n: nat)
    requires n < |lines|
    ensures Joined(lines, n) == Content(lines[..n])
    decreases n
  {
    hide LineContent;
    if n > 0 {
      JoinedContent(lines, n - 1);
      assert lines[..n][..n - 1] == lines[..n - 1];
    }
  }

  lemma JoinedOf(full: seq<Line>, line: Line)
    ensures Joined(full + [line], |full| + 1) == Content(full) + LineContent(line)
  {
    hide LineContent;
    JoinedContent(full + [line], |full|);
    assert (full + [line])[..|full|] == full;
    assert Content(full) + LineContent(line) + [] == Content(full) + LineContent(line);
  }

  lemma ContentAppend(full: seq<Line>, line: Line)
    ensures Content(full + [line]) == Content(full) + LineContent(line) + if line.wrap then [] else [NEWLINE]
  {
    hide LineContent;
    assert (full + [line])[..|full|] == full;
  }

  // ----- White space at the ends -----

  predicate White(s: seq<int>) {
    forall i :: 0 <= i < |s| ==> s[i] <= SPACE
  }

  lemma {:induction false} TrimStartWhite(s: seq<int>)
    requires White(s)
    ensures TrimStart(s) == []
  {
    if s != [] {
      TrimStartWhite(s[1..]);
    }
  }

  lemma {:induction false} TrimStartAppend(text: seq<int>, white: seq<int>)
    requires White(white)
    ensures TrimStart(text + white) == if TrimStart(text) == [] then [] else TrimStart(text) + white
    decreases |text|
  {
    if text == [] {
      TrimStartWhite(white);
      assert text + white == white;
    } else if text[0] <= SPACE {
      TrimStartAppend(text[1..], white);
      assert (text + white)[1..] == text[1..] + white;
    }
  }

  lemma {:induction false} TrimEndAppend(text: seq<int>, white: seq<int>)
    requires White(white)
    ensures TrimEnd(text + white) == TrimEnd(text)
    decreases |white|
  {
    if white == [] {
      assert text + white == text;
    } else {
      var s, n := text + white, |white| - 1;
      TrimEndAppend(text, white[..n]);
      assert s[..|s| - 1] == text + white[..n] && s[|s| - 1] == white[n];
    }
  }

  /** White space at the end does not matter. */
  lemma TrimAppend(text: seq<int>, white: seq<int>)
    requires White(white)
    ensures Trim(text + white) == Trim(text)
  {
    hide TrimStart, TrimEnd;
    TrimStartAppend(text, white);
    TrimEndAppend(TrimStart(text), white);
  }

  lemma {:induction false} TrimNothing(text: seq<int>)
    requires text == [] || (text[0] > SPACE && text[|text| - 1] > SPACE)
    ensures Trim(text) == text
  {
  }

  lemma {:induction false} TrimRightSplit(s: seq<int>)
    ensures TrimRight(s) <= s && AllSpaces(s[|TrimRight(s)|..])
  {
    if s != [] && s[|s| - 1] == SPACE {
      var n := |s| - 1;
      TrimRightSplit(s[..n]);
      var k := |TrimRight(s)|;
      assert s[k..] == s[..n][k..] + [SPACE];
    }
  }

  lemma TrimmedTail(x: seq<int>, y: seq<int>)
    ensures Trim(x + TrimRight(y)) == Trim(x + y)
  {
    hide Trim, TrimRight;
    TrimRightSplit(y);
    var rest := y[|TrimRight(y)|..];
    assert y == TrimRight(y) + rest;
    Assoc(x, TrimRight(y), rest);
    TrimAppend(x + TrimRight(y), rest);
  }

  // ----- The transcript of a page -----

  lemma {:induction false} JoinedSame(a: seq<Line>, b: seq<Line>, n: nat)
    requires n < |a|
    ensures Joined(a + b, n) == Joined(a, n)
    decreases n
  {
    hide LineContent;
    if n > 0 {
      JoinedSame(a, b, n - 1);
    }
  }

  function Newlines(n: nat): (s: seq<int>)
    ensures |s| == n && forall i :: 0 <= i < n ==> s[i] == NEWLINE
  {
    seq(n, _ => NEWLINE)
  }

  lemma BlankContent(cols: nat, style: Style)
    ensures LineContent(BlankLine(cols, style, false)) == []
  {
    BlankRow(cols, style, false);
    RowFullText([], cols, style);
    assert CodePoints([]) == [];
    assert [] + Spaces(cols) == Spaces(cols);
    TrimMore([], Spaces(cols));
    assert [] + Spaces(cols) == Spaces(cols);
  }

  lemma {:induction false} BlanksJoined(a: seq<Line>, cols: nat, k: nat, n: nat, style: Style)
    requires n <= k && a != [] && !a[|a| - 1].wrap
    ensures Joined(a + Blanks(cols, k, style), |a| + n) == Joined(a, |a|) + Newlines(if n < k then n + 1 else k)
    decreases n
  {
    hide LineContent, BlankLine;
    var lines := a + Blanks(cols, k, style);
    if n == 0 {
      JoinedSame(a, Blanks(cols, k, style), |a| - 1);
    } else {
      BlanksJoined(a, cols, k, n - 1, style);
      BlankContent(cols, style);
      BlankUnwrapped(cols, style);
      assert Newlines(n) + [NEWLINE] == Newlines(n + 1);
    }
  }

  lemma BlankUnwrapped(cols: nat, style: Style)
    ensures !BlankLine(cols, style, false).wrap
  {
  }

  /** Blank rows below do not show in the transcript. */
  lemma ReadRows(r: Ring, row: nat, full: seq<Line>, line: Line, style: Style)
    requires LinesOn(r, row, full, line, style) && (row < r.rows - 1 ==> !line.wrap)
    ensures var w := Window(full, line, |r.view|); TranscriptText(r) == Trim(Joined(w, |w|))
  {
    hide AllLines, Joined, Window, Trim, Spare;
    var k := r.rows - 1 - row;
    var w := Window(full, line, |r.view|);
    LastOfWindow(full, line, |r.view|);
    if k == 0 {
      assert w + Blanks(r.cols, 0, style) == w;
    } else {
      BlanksJoined(w, r.cols, k, k, style);
      TrimAppend(Joined(w, |w|), Newlines(k));
    }
  }

  /** The text of a page. */
  function PageText(p: Page): seq<int> {
    Content(p.full) + CodePoints(p.tail)
  }

  /** The transcript of a ring that holds a page whose rows all fit. */
  lemma ReadPage(r: Ring, row: nat, p: Page, style: Style)
    requires Valid(r) && PageOk(p, r.cols) && 0 < |r.view| && |p.full| < |r.view|
    requires LinesOn(r, row, p.full, CurrentLine(p, r.cols, |r.view|, style), style)
    ensures TranscriptText(r) == Trim(PageText(p))
  {
    hide AllLines, Joined, Trim, RowCells, LineContent, Stale, Content, Valid, LinesOn, TranscriptText, Window;
    var total := |r.view|;
    var line := CurrentLine(p, r.cols, total, style);
    NotStale(p.full, total);
    OnRow(r, row, p.full, line, style);
    ReadRows(r, row, p.full, line, style);
    FitsWindow(p.full, line, total);
    JoinedOf(p.full, line);
    CurrentContent(p, r.cols, style);
  }

  lemma OnRow(r: Ring, row: nat, full: seq<Line>, line: Line, style: Style)
    requires LinesOn(r, row, full, line, style)
    ensures row < r.rows
  {
  }

  lemma FitsWindow(full: seq<Line>, line: Line, total: nat)
    requires |full| < total
    ensures Window(full, line, total) == full + [line]
  {
  }

  lemma CurrentContent(p: Page, cols: nat, style: Style)
    requires PageOk(p, cols)
    ensures Trim(Content(p.full) + LineContent(Line(RowCells(p.tail, cols, style), false))) == Trim(PageText(p))
  {
    hide Trim, RowCells, TrimRight, FullText, Content, Width;
    RowFullText(p.tail, cols, style);
    var spaces := Spaces(cols - Width(p.tail));
    TrimmedTail(Content(p.full), CodePoints(p.tail) + spaces);
    Assoc(Content(p.full), CodePoints(p.tail), spaces);
    TrimAppend(PageText(p), spaces);
  }

  // ----- The text of typed lines -----

  lemma TypeContent(p: Page, item: Item, cols: nat, style: Style)
    requires PageOk(p, cols) && MayFollow(p, item) && 2 <= cols
    ensures 0 <= Width(p.tail) <= cols
    ensures PageText(Type(p, item, cols, style))
            == PageText(p) + (Spaces(GapBefore(Width(p.tail), item.glyph.width, cols)) + [item.glyph.codePoint])
  {
    hide Content, FullText, RowCells, TrimRight, CodePoints, Spaces, Width;
    PageWidth(p, cols);
    CodesOf(p.tail, item);
    TailWidth(p.tail, item);
    RowFullText(p.tail, cols, style);
    var w, c := Width(p.tail), item.glyph.codePoint;
    if w + item.glyph.width <= cols {
      NoSpaces([c]);
      Assoc(Content(p.full), CodePoints(p.tail), [c]);
    } else {
      var line := Line(RowCells(p.tail, cols, style), true);
      ContentAppend(p.full, line);
      GapBetween(Content(p.full), CodePoints(p.tail), Spaces(cols - w), [c]);
    }
  }

  lemma CodesOf(tail: seq<Item>, item: Item)
    ensures CodePoints(tail + [item]) == CodePoints(tail) + [item.glyph.codePoint]
    ensures CodePoints([item]) == [item.glyph.codePoint]
  {
  }

  lemma NoSpaces(s: seq<int>)
    ensures Spaces(0) + s == s
  {
  }

  lemma GapBetween(x: seq<int>, y: seq<int>, z: seq<int>, w: seq<int>)
    ensures x + (y + z) + [] + w == x + y + (z + w)
  {
    Assoc(x, y, z);
    Assoc(x + y, z, w);
    assert x + (y + z) + [] == x + (y + z);
  }

  lemma {:induction false} TypeAllContent(p: Page, items: seq<Item>, cols: nat, style: Style)
    requires PageOk(p, cols) && AllMayFollow(p, items) && 2 <= cols
    ensures 0 <= Width(p.tail) <= cols && AllValid(items)
    ensures PageText(TypeAll(p, items, cols, style)) == PageText(p) + Spread(Width(p.tail), items, cols)
    decreases |items|
  {
    hide PageText, Type, RowCells, Width, GapBefore, NextColumn;
    PageWidth(p, cols);
    if items == [] {
      assert PageText(p) + [] == PageText(p);
    } else {
      TypeStep(p, items, cols, style);
      TypeLinesOf(p, items[0], cols, style);
      TypeContent(p, items[0], cols, style);
      var p1, w, g := Type(p, items[0], cols, style), Width(p.tail), items[0].glyph;
      TypeAllContent(p1, items[1..], cols, style);
      Assoc(PageText(p), Spaces(GapBefore(w, g.width, cols)) + [g.codePoint],
            Spread(NextColumn(w, g.width, cols), items[1..], cols));
    }
  }

  /** The last code point is no space. */
  predicate EndsInText(items: seq<Item>) {
    items == [] || items[|items| - 1].glyph.codePoint != SPACE
  }

  lemma {:induction false} TailOfTyped(p: Page, items: seq<Item>, cols: nat, style: Style)
    requires PageOk(p, cols) && AllMayFollow(p, items) && 2 <= cols
    ensures var tail := TypeAll(p, items, cols, style).tail;
            if items == [] then tail == p.tail else tail != [] && tail[|tail| - 1] == items[|items| - 1]
    decreases |items|
  {
    hide RowCells, Width;
    if items != [] {
      TypeStep(p, items, cols, style);
      TailOfTyped(Type(p, items[0], cols, style), items[1..], cols, style);
    }
  }

  /** Ending a line that does not end in spaces. */
  lemma EndRowContent(p: Page, cols: nat, total: nat, style: Style)
    requires PageOk(p, cols) && 0 < total && |p.full| < total && EndsInText(p.tail)
    ensures PageText(EndRow(p, cols, total, style)) == PageText(p) + [NEWLINE]
  {
    hide Content, RowCells, TrimRight, FullText, Width;
    NotStale(p.full, total);
    RowFullText(p.tail, cols, style);
    var line := CurrentLine(p, cols, total, style);
    ContentAppend(p.full, line);
    TrimMore(CodePoints(p.tail), Spaces(cols - Width(p.tail)));
    NotTrimmedText(CodePoints(p.tail));
    assert CodePoints([]) == [];
    assert Content(p.full + [line]) + [] == Content(p.full + [line]);
  }

  lemma NotTrimmedText(s: seq<int>)
    requires s == [] || s[|s| - 1] != SPACE
    ensures TrimRight(s) == s
  {
  }

  /** Texts with line breaks between them. */
  function JoinLines(s: seq<seq<int>>): seq<int> {
    if s == [] then []
    else if |s| == 1 then s[0]
    else JoinLines(s[..|s| - 1]) + [NEWLINE] + s[|s| - 1]
  }

  /** All lines but the last end in text. */
  predicate EndInText(s: seq<seq<Item>>) {
    forall i :: 0 <= i < |s| - 1 ==> EndsInText(s[i])
  }

  lemma EmptyPageText()
    ensures PageText(Page([], [])) == [] && Width([]) == 0
  {
    assert CodePoints([]) == [];
  }

  /** The text of typed lines: what each line spreads to, joined by line breaks. */
  lemma {:induction false} TypeLinesContent(s: seq<seq<Item>>, cols: nat, total: nat, style: Style)
    requires LinesOfItems(s) && s != [] && 2 <= cols && 0 < total && |TypeLines(s, cols, total, style).full| < total
    requires EndInText(s)
    ensures PageText(TypeLines(s, cols, total, style)) == JoinLines(SpreadEach(s, cols))
    decreases |s|
  {
    hide PageText, LineOfItems, TypeLines, PageOk, EndsInText, Spread, JoinLines;
    var n := |s| - 1;
    if n == 0 {
      assert s == [s[0]];
      OneTypedText(s[0], cols, total, style);
    } else {
      assert s == s[..n] + [s[n]];
      MoreTypedGrows(s[..n], s[n], cols, total, style);
      TypeLinesContent(s[..n], cols, total, style);
      MoreTypedText(s[..n], s[n], cols, total, style);
    }
  }

  lemma OneTypedText(line: seq<Item>, cols: nat, total: nat, style: Style)
    requires LineOfItems(line) && 2 <= cols && 0 < total
    ensures PageText(TypeLines([line], cols, total, style)) == JoinLines(SpreadEach([line], cols))
  {
    hide PageText, Spread, TypeAll, TypeLines, Width;
    EmptyPageText();
    TypeOneLine(line, cols, total, style);
    TypeAllContent(Page([], []), line, cols, style);
    var t := Spread(0, line, cols);
    assert [] + t == t;
    assert SpreadEach([line], cols) == [t];
  }

  lemma MoreTypedText(s: seq<seq<Item>>, line: seq<Item>, cols: nat, total: nat, style: Style)
    requires LinesOfItems(s) && LineOfItems(line) && s != [] && 2 <= cols && 0 < total
    requires |TypeLines(s, cols, total, style).full| < total && EndsInText(s[|s| - 1])
    requires PageText(TypeLines(s, cols, total, style)) == JoinLines(SpreadEach(s, cols))
    ensures LinesOfItems(s + [line])
    ensures PageText(TypeLines(s + [line], cols, total, style)) == JoinLines(SpreadEach(s + [line], cols))
  {
    hide PageText, Spread, TypeAll, EndRow, TypeLines, Width, PageOk;
    TypeMoreLines(s, line, cols, total, style);
    var p, t := TypeLines(s, cols, total, style), Spread(0, line, cols);
    LastTail(s, cols, total, style);
    EndRowContent(p, cols, total, style);
    EndRowGrows(p, cols, total, style);
    WidthOfNothing();
    TypeAllContent(EndRow(p, cols, total, style), line, cols, style);
    assert SpreadEach(s + [line], cols) == SpreadEach(s, cols) + [t];
    assert (SpreadEach(s, cols) + [t])[..|s|] == SpreadEach(s, cols);
  }

  lemma LastTail(s: seq<seq<Item>>, cols: nat, total: nat, style: Style)
    requires LinesOfItems(s) && s != [] && 2 <= cols && 0 < total && EndsInText(s[|s| - 1])
    ensures EndsInText(TypeLines(s, cols, total, style).tail)
  {
    hide TypeAll;
    var n := |s| - 1;
    if n == 0 {
      TailOfTyped(Page([], []), s[0], cols, style);
    } else {
      TailOfTyped(EndRow(TypeLines(s[..n], cols, total, style), cols, total, style), s[n], cols, style);
    }
  }

  /** Rows ended at the end of a page are white space. */
  lemma {:induction false} EndedText(p: Page, n: nat, cols: nat, total: nat, style: Style)
    requires PageOk(p, cols) && 0 < total && |EndRows(p, n, cols, total, style).full| < total
    ensures |p.full| <= |EndRows(p, n, cols, total, style).full|
    ensures Trim(PageText(EndRows(p, n, cols, total, style))) == Trim(PageText(p))
    decreases n
  {
    hide PageText, PageOk, EndRow, Trim;
    if n > 0 {
      var p1 := EndRows(p, n - 1, cols, total, style);
      EndRowGrows(p1, cols, total, style);
      EndedText(p, n - 1, cols, total, style);
      EndedOnce(p1, cols, total, style);
    }
  }

  lemma EndedOnce(p: Page, cols: nat, total: nat, style: Style)
    requires PageOk(p, cols) && 0 < total && |p.full| < total
    ensures Trim(PageText(EndRow(p, cols, total, style))) == Trim(PageText(p))
  {
    hide Trim, Content, RowCells, LineContent;
    NotStale(p.full, total);
    var line := CurrentLine(p, cols, total, style);
    ContentAppend(p.full, line);
    CurrentContent(p, cols, style);
    TrimAppend(Content(p.full) + LineContent(line), [NEWLINE]);
    assert CodePoints([]) == [];
    assert Content(p.full + [line]) + [] == Content(p.full + [line]);
  }
}
