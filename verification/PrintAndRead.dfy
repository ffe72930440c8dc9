/** Text that is printed can be read back, however it has wrapped and scrolled. */
module PrintAndRead {
  import opened Wrappers
  import opened Basics
  import opened TerminalRows
  import opened TerminalRing
  import opened FastResize
  import opened Reflow
  import opened ReflowText
  import opened TerminalState
  import opened Transcript
  import opened Typing
  import opened Pages
  import opened Retyping
  import opened ReflowLines
  import opened PageReading
  import opened LineBreaks

  // ----- A terminal that is being printed on -----

  predicate Plain(t: Term) {
    && Inv(t) && !t.onAlt && t.autowrap && !t.insert && !t.g0 && t.useG0
    && t.top == 0 && t.bottom == t.rows && t.Pen() == NORMAL
  }

  /** The main screen shows a page, and the cursor is at its end. */
  predicate Printing(t: Term, p: Page) {
    && Plain(t) && PageOk(p, t.cols) && 0 < |t.main.view| && 0 <= t.row
    && LinesOn(t.main, t.row, p.full, CurrentLine(p, t.cols, |t.main.view|, NORMAL), NORMAL)
    && t.aboutToWrap == (Width(p.tail) == t.cols)
    && t.col == (if Width(p.tail) == t.cols then t.cols - 1 else Width(p.tail))
  }

  function Typed1(g: Glyph): Item {
    Item(g, NORMAL)
  }

  lemma InvParts(t: Term)
    requires Inv(t)
    ensures Valid(t.main) && Valid(t.Cur()) && 2 <= t.cols && 2 <= t.rows && 0 <= t.row < t.rows == t.Cur().rows
    ensures 0 <= t.col < t.cols == t.Cur().cols
  {
  }

  // ----- Steps -----

  /** The column in which the next code point is stored. */
  function StoreAt(t: Term, w: int): int {
    if w == 0 && t.col > 0 && !t.aboutToWrap then t.col - 1 else t.col
  }

  lemma WriteEffect(t: Term, g: Glyph)
    requires Plain(t) && ValidGlyph(g) && (g.width == 2 ==> t.col + 1 < t.cols)
    ensures 0 <= StoreAt(t, g.width) < t.cols && Valid(t.main) && 0 <= t.row < t.main.rows && t.main.cols == t.cols
    ensures var t' := WriteGlyph(t, g);
            && t' == t.(main := SetChar(t.main, StoreAt(t, g.width), t.row, g, NORMAL),
                        aboutToWrap := if g.width > 0 then t.col == t.cols - g.width else t.aboutToWrap,
                        col := Min(t.col + g.width, t.cols - 1))
            && Plain(t')
  {
    hide SetChar, Valid;
  }

  lemma SetOnLine(r: Ring, col: nat, row: nat, g: Glyph, line: Line)
    requires Valid(r) && row < r.rows && col < r.cols && ValidGlyph(g) && (g.width == 2 ==> col + 1 < r.cols)
    requires r.view[row] == Some(line)
    ensures WellFormed(line.cells) && |line.cells| == r.cols
    ensures SetChar(r, col, row, g, NORMAL) == WithRow(r, row, line.(cells := Put(line.cells, col, g, NORMAL)))
  {
    hide Put;
  }

  /** A code point for which there is room. */
  lemma PrintOnRow(t: Term, p: Page, g: Glyph)
    requires Printing(t, p) && MayFollow(p, Typed1(g)) && Width(p.tail) + g.width <= t.cols
    ensures g.width == 2 ==> t.col + 1 < t.cols
    ensures Printing(WriteGlyph(t, g), Page(p.full, p.tail + [Typed1(g)]))
  {
    hide Put, Inv, RowCells, Stale, LinesOn, WriteGlyph, SetChar;
    InvParts(t);
    PageWidth(p, t.cols);
    var total, col := |t.main.view|, StoreAt(t, g.width);
    TailFits(p, Typed1(g), t.cols, NORMAL);
    WriteEffect(t, g);
    var line := CurrentLine(p, t.cols, total, NORMAL);
    var p' := Page(p.full, p.tail + [Typed1(g)]);
    var line' := CurrentLine(p', t.cols, total, NORMAL);
    LineHere(t.main, t.row, p.full, line, NORMAL);
    SetOnLine(t.main, col, t.row, g, line);
    LineWritten(t.main, t.row, p.full, line, line', NORMAL);
    assert line' == line.(cells := Put(line.cells, col, g, NORMAL));
  }

  lemma WrapEffect(t: Term)
    requires Plain(t)
    ensures var t' := WrapLine(t);
            && Valid(t.main) && 0 <= t.row < t.main.rows
            && var r1 := SetLineWrap(t.main, t.row, true);
            && t'.main == (if t.row + 1 < t.rows then r1 else Scroll(r1, 0, t.rows, NORMAL))
            && t'.row == (if t.row + 1 < t.rows then t.row + 1 else t.row)
            && t' == t.(main := t'.main, row := t'.row, col := 0) && Plain(t')
  {
    hide SetLineWrap, Scroll, Valid;
  }

  /** Going to the next row; wrap is the flag of the row that is left. */
  lemma NextRow(t: Term, p: Page, wrap: bool)
    requires Printing(t, p)
    ensures Valid(t.main) && t.main.rows == t.rows && t.main.cols == t.cols
    ensures var line, total := Line(RowCells(p.tail, t.cols, NORMAL), wrap), |t.main.view|;
            var r1 := SetLineWrap(t.main, t.row, wrap);
            var r2 := if t.row + 1 < t.rows then r1 else Scroll(r1, 0, t.rows, NORMAL);
            var row := if t.row + 1 < t.rows then t.row + 1 else t.row;
            var p' := Page(p.full + [line], []);
            && PageOk(p', t.cols) && |r2.view| == total
            && LinesOn(r2, row, p'.full, CurrentLine(p', t.cols, total, NORMAL), NORMAL)
  {
    hide Inv, RowCells, Scroll, Stale, LinesOn, LineOk;
    InvParts(t);
    var total, old' := |t.main.view|, CurrentLine(p, t.cols, |t.main.view|, NORMAL);
    var line := Line(RowCells(p.tail, t.cols, NORMAL), wrap);
    LineHere(t.main, t.row, p.full, old', NORMAL);
    FlagOk(p, t.cols, wrap);
    LineWritten(t.main, t.row, p.full, old', line, NORMAL);
    var r1 := SetLineWrap(t.main, t.row, wrap);
    LineEnded(r1, t.row, p.full, line, NORMAL);
    BlankRow(t.cols, NORMAL, Stale(p.full + [line], total));
  }

  lemma FlagOk(p: Page, cols: nat, wrap: bool)
    requires PageOk(p, cols)
    ensures LineOk(Some(Line(RowCells(p.tail, cols, NORMAL), wrap)), cols)
  {
  }

  lemma ForgetWrap(t: Term)
    requires Plain(t)
    ensures Plain(t.(aboutToWrap := false))
  {
    hide Valid;
  }

  /** A code point that begins the next row. */
  lemma PrintOnNextRow(t: Term, p: Page, g: Glyph)
    requires Printing(t, p) && MayFollow(p, Typed1(g)) && t.cols < Width(p.tail) + g.width
    ensures Inv(WrapLine(t)) && WrapLine(t).col == 0 && WrapLine(t).cols == t.cols
    ensures Printing(WriteGlyph(WrapLine(t), g), Type(p, Typed1(g), t.cols, NORMAL))
  {
    hide Inv, Scroll, SetLineWrap, WrapLine, WriteGlyph, RowCells, LinesOn, Stale;
    InvParts(t);
    NextRow(t, p, true);
    WrapEffect(t);
    var t1 := WrapLine(t);
    var t2, p2 := t1.(aboutToWrap := false), Page(p.full + [Line(RowCells(p.tail, t.cols, NORMAL), true)], []);
    ForgetWrap(t1);
    WidthOfNothing();
    assert Printing(t2, p2);
    PrintOnRow(t2, p2, g);
    WriteEffect(t1, g);
    WriteEffect(t2, g);
    assert [] + [Typed1(g)] == [Typed1(g)];
  }

  lemma EmitEffect(t: Term, g: Glyph)
    requires Plain(t) && ValidGlyph(g)
    ensures var t0 := t.(last := Some(g));
            && Plain(t0)
            && (MustWrap(t, g) ==> Plain(WrapLine(t0)) && WrapLine(t0).col == 0 && WrapLine(t0).cols == t.cols)
            && (g.width == 2 && !MustWrap(t, g) ==> t.col + 1 < t.cols)
            && EmitCodePoint(t, g) == WriteGlyph(if MustWrap(t, g) then WrapLine(t0) else t0, g)
  {
    hide Valid, WrapLine, WriteGlyph;
    WrapEffect(t.(last := Some(g)));
  }

  /** Printing one code point types it. */
  lemma PrintStep(t: Term, p: Page, g: Glyph)
    requires Printing(t, p) && MayFollow(p, Typed1(g))
    ensures 2 <= t.cols
    ensures var t' := EmitCodePoint(t, g);
            Printing(t', Type(p, Typed1(g), t.cols, NORMAL)) && t'.cols == t.cols && |t'.main.view| == |t.main.view|
  {
    hide Inv, WrapLine, WriteGlyph, EmitCodePoint, RowCells, LinesOn, Stale, SetChar;
    InvParts(t);
    PageWidth(p, t.cols);
    EmitEffect(t, g);
    var t0 := t.(last := Some(g));
    assert Printing(t0, p);
    if Width(p.tail) + g.width <= t.cols {
      PrintOnRow(t0, p, g);
      WriteEffect(t0, g);
    } else {
      PrintOnNextRow(t0, p, g);
      WrapEffect(t0);
      WriteEffect(WrapLine(t0), g);
    }
  }

  lemma LinefeedEffect(t: Term)
    requires Plain(t)
    ensures var t' := DoLinefeed(t);
            && t'.main == (if t.row + 1 < t.rows then t.main else Scroll(t.main, 0, t.rows, NORMAL))
            && t'.row == (if t.row + 1 < t.rows then t.row + 1 else t.row)
            && t' == t.(main := t'.main, row := t'.row, aboutToWrap := false) && Plain(t')
  {
    hide Scroll, Valid;
  }

  lemma ReturnEffect(t: Term)
    requires Plain(t)
    ensures Plain(SetCursorCol(t, 0))
  {
    hide Valid;
  }

  /** CR LF ends the row, which keeps the flag it has. */
  lemma LineEndStep(t: Term, p: Page)
    requires Printing(t, p)
    ensures Plain(SetCursorCol(t, 0))
    ensures var t' := DoLinefeed(SetCursorCol(t, 0));
            && Printing(t', EndRow(p, t.cols, |t.main.view|, NORMAL))
            && t'.cols == t.cols && |t'.main.view| == |t.main.view|
  {
    hide Inv, Scroll, DoLinefeed, LinesOn, RowCells, Stale;
    InvParts(t);
    ReturnEffect(t);
    LinefeedEffect(SetCursorCol(t, 0));
    var flag, line := Stale(p.full, |t.main.view|), CurrentLine(p, t.cols, |t.main.view|, NORMAL);
    NextRow(t, p, flag);
    LineHere(t.main, t.row, p.full, line, NORMAL);
    assert SetLineWrap(t.main, t.row, flag) == t.main;
    WidthOfNothing();
  }

  // ----- Whole runs -----

  lemma {:induction false} RunConcat(t: Term, a: seq<Op>, b: seq<Op>)
    requires Inv(t) && LegalRun(t, a) && LegalRun(Run(t, a), b)
    ensures LegalRun(t, a + b) && Run(t, a + b) == Run(Run(t, a), b)
    decreases |a|
  {
    hide Inv, Step, Legal;
    if a == [] {
      assert a + b == b;
    } else {
      assert (a + b)[1..] == a[1..] + b;
      RunConcat(Step(t, a[0]), a[1..], b);
    }
  }

  function PrintOps(line: seq<Glyph>): (ops: seq<Op>)
    ensures |ops| == |line| && forall i :: 0 <= i < |line| ==> ops[i] == Print(line[i])
  {
    seq(|line|, i requires 0 <= i < |line| => Print(line[i]))
  }

  function ItemsOfLine(line: seq<Glyph>): (s: seq<Item>)
    ensures |s| == |line| && forall i :: 0 <= i < |line| ==> s[i] == Typed1(line[i])
  {
    seq(|line|, i requires 0 <= i < |line| => Typed1(line[i]))
  }

  lemma PrintIsStep(t: Term, g: Glyph)
    requires Inv(t) && ValidGlyph(g)
    ensures Legal(t, Print(g)) && Step(t, Print(g)) == EmitCodePoint(t, g)
  {
    hide Inv, EmitCodePoint;
  }

  /** Printing on a terminal of the given width whose ring has the given size. */
  predicate PrintingOn(t: Term, cols: nat, total: nat, p: Page)
    ensures PrintingOn(t, cols, total, p) ==> Inv(t) && 2 <= cols && 0 < total && PageOk(p, cols)
  {
    hide ScreensOk;
    Printing(t, p) && t.cols == cols && |t.main.view| == total
  }

  lemma PrintOne(t: Term, cols: nat, total: nat, p: Page, g: Glyph)
    requires PrintingOn(t, cols, total, p) && MayFollow(p, Typed1(g))
    ensures Legal(t, Print(g)) && PrintingOn(Step(t, Print(g)), cols, total, Type(p, Typed1(g), cols, NORMAL))
  {
    hide Inv, EmitCodePoint, LinesOn, RowCells, Type;
    PrintIsStep(t, g);
    PrintStep(t, p, g);
  }

  lemma RunFirst(t: Term, op: Op, rest: seq<Op>)
    requires Inv(t) && Legal(t, op) && LegalRun(Step(t, op), rest)
    ensures LegalRun(t, [op] + rest) && Run(t, [op] + rest) == Run(Step(t, op), rest)
  {
    hide Inv, Legal, Step;
    assert ([op] + rest)[1..] == rest;
  }

  lemma PrintOpsFirst(line: seq<Glyph>)
    requires line != []
    ensures PrintOps(line) == [Print(line[0])] + PrintOps(line[1..])
    ensures ItemsOfLine(line)[0] == Typed1(line[0]) && ItemsOfLine(line)[1..] == ItemsOfLine(line[1..])
  {
  }

  /** Printing code points types them. */
  lemma {:induction false} PrintText(t: Term, cols: nat, total: nat, p: Page, line: seq<Glyph>)
    requires PrintingOn(t, cols, total, p) && AllMayFollow(p, ItemsOfLine(line))
    ensures LegalRun(t, PrintOps(line))
    ensures PrintingOn(Run(t, PrintOps(line)), cols, total, TypeAll(p, ItemsOfLine(line), cols, NORMAL))
    decreases |line|
  {
    hide Inv, PrintingOn, Step, Legal, PrintOps, Type, PageOk;
    if line == [] {
      assert PrintOps(line) == [];
    } else {
      hide LegalRun, Run;
      var g, items := line[0], ItemsOfLine(line);
      PrintOpsFirst(line);
      TypeStep(p, items, cols, NORMAL);
      PrintOne(t, cols, total, p, g);
      PrintText(Step(t, Print(g)), cols, total, Type(p, items[0], cols, NORMAL), line[1..]);
      RunFirst(t, Print(g), PrintOps(line[1..]));
    }
  }

  const LINE_END: seq<Op> := [CR, LF]

  lemma LineEndIsRun(t: Term)
    requires Inv(t)
    ensures Inv(SetCursorCol(t, 0))
    ensures LegalRun(t, LINE_END) && Run(t, LINE_END) == DoLinefeed(SetCursorCol(t, 0))
  {
    hide Valid, DoLinefeed;
    var t1 := SetCursorCol(t, 0);
    assert Step(t, CR) == t1;
    assert Step(t1, LF) == DoLinefeed(t1);
    assert LINE_END[1..] == [LF] && [LF][1..] == [];
    assert LegalRun(Step(t1, LF), []);
    assert LegalRun(t1, [LF]);
    assert Run(t1, [LF]) == DoLinefeed(t1);
  }

  /** CR LF begins a new row. */
  lemma EndLine(t: Term, cols: nat, total: nat, p: Page)
    requires PrintingOn(t, cols, total, p)
    ensures LegalRun(t, LINE_END) && PrintingOn(Run(t, LINE_END), cols, total, EndRow(p, cols, total, NORMAL))
  {
    hide Inv, DoLinefeed, Run, Stale, LinesOn, RowCells;
    LineEndIsRun(t);
    LineEndStep(t, p);
  }

  /** Lines separated by CR LF. */
  function LinesOps(lines: seq<seq<Glyph>>): seq<Op> {
    if lines == [] then []
    else if |lines| == 1 then PrintOps(lines[0])
    else LinesOps(lines[..|lines| - 1]) + (LINE_END + PrintOps(lines[|lines| - 1]))
  }

  function ItemLines(lines: seq<seq<Glyph>>): (s: seq<seq<Item>>)
    ensures |s| == |lines| && forall i :: 0 <= i < |lines| ==> s[i] == ItemsOfLine(lines[i])
  {
    seq(|lines|, i requires 0 <= i < |lines| => ItemsOfLine(lines[i]))
  }

  /** Characters of any width with their combining code points; no line begins with a combining one. */
  predicate IsLine(line: seq<Glyph>) {
    (forall i :: 0 <= i < |line| ==> ValidGlyph(line[i])) && (line != [] ==> line[0].width > 0)
  }

  predicate AreLines(lines: seq<seq<Glyph>>) {
    forall i :: 0 <= i < |lines| ==> IsLine(lines[i])
  }

  lemma ItemLinesOk(lines: seq<seq<Glyph>>)
    requires AreLines(lines)
    ensures LinesOfItems(ItemLines(lines))
  {
    forall i | 0 <= i < |lines| ensures LineOfItems(ItemLines(lines)[i]) {
      assert IsLine(lines[i]);
    }
  }

  /** The page that lines leave. */
  function PrintedPage(lines: seq<seq<Glyph>>, cols: nat, total: nat): (p: Page)
    requires AreLines(lines) && 2 <= cols && 0 < total
    ensures PageOk(p, cols)
  {
    ItemLinesOk(lines);
    TypeLines(ItemLines(lines), cols, total, NORMAL)
  }

  lemma PageOfOne(line: seq<Glyph>, cols: nat, total: nat)
    requires IsLine(line) && 2 <= cols && 0 < total
    ensures LinesOps([line]) == PrintOps(line) && AllMayFollow(Page([], []), ItemsOfLine(line))
    ensures PrintedPage([line], cols, total) == TypeAll(Page([], []), ItemsOfLine(line), cols, NORMAL)
  {
    assert ItemLines([line]) == [ItemsOfLine(line)];
    TypeOneLine(ItemsOfLine(line), cols, total, NORMAL);
  }

  lemma PageOfMore(lines: seq<seq<Glyph>>, line: seq<Glyph>, cols: nat, total: nat)
    requires AreLines(lines) && IsLine(line) && lines != [] && 2 <= cols && 0 < total
    ensures AreLines(lines + [line]) && LinesOps(lines + [line]) == LinesOps(lines) + (LINE_END + PrintOps(line))
    ensures var p := EndRow(PrintedPage(lines, cols, total), cols, total, NORMAL);
            && AllMayFollow(p, ItemsOfLine(line))
            && PrintedPage(lines + [line], cols, total) == TypeAll(p, ItemsOfLine(line), cols, NORMAL)
  {
    hide TypeLines, TypeAll, EndRow;
    assert (lines + [line])[..|lines|] == lines;
    assert ItemLines(lines + [line]) == ItemLines(lines) + [ItemsOfLine(line)];
    ItemLinesOk(lines);
    TypeMoreLines(ItemLines(lines), ItemsOfLine(line), cols, total, NORMAL);
  }

  /** Printing any lines whatsoever. */
  lemma {:induction false} PrintLines(t: Term, cols: nat, total: nat, lines: seq<seq<Glyph>>)
    requires PrintingOn(t, cols, total, Page([], [])) && AreLines(lines)
    ensures LegalRun(t, LinesOps(lines))
    ensures PrintingOn(Run(t, LinesOps(lines)), cols, total, PrintedPage(lines, cols, total))
    decreases |lines|
  {
    hide Inv, PrintingOn, PrintOps, Run, LegalRun, LinesOps, PrintedPage, EndRow, TypeAll, IsLine, PageOk, LINE_END;
    if lines == [] {
      NoLines(t, cols, total);
    } else {
      var n := |lines| - 1;
      var init, last := lines[..n], lines[n];
      if n == 0 {
        assert lines == [last];
        PageOfOne(last, cols, total);
        PrintText(t, cols, total, Page([], []), last);
      } else {
        assert lines == init + [last];
        PageOfMore(init, last, cols, total);
        PrintLines(t, cols, total, init);
        var p, t1 := PrintedPage(init, cols, total), Run(t, LinesOps(init));
        EndLine(t1, cols, total, p);
        PrintText(Run(t1, LINE_END), cols, total, EndRow(p, cols, total, NORMAL), last);
        RunConcat(t1, LINE_END, PrintOps(last));
        RunConcat(t, LinesOps(init), LINE_END + PrintOps(last));
      }
    }
  }

  lemma NoLines(t: Term, cols: nat, total: nat)
    requires Inv(t) && 2 <= cols && 0 < total
    ensures LinesOps([]) == [] && LegalRun(t, LinesOps([])) && Run(t, LinesOps([])) == t
    ensures PrintedPage([], cols, total) == Page([], [])
  {
    hide Inv;
  }

  lemma InitialPrinting(cols: nat, rows: nat, total: nat)
    requires 2 <= cols && 2 <= rows <= total
    ensures PrintingOn(Initial(cols, rows, total), cols, total, Page([], []))
  {
    var t := Initial(cols, rows, total);
    BlankRow(cols, NORMAL, false);
    assert AllLines(t.main) == [BlankLine(cols, NORMAL, false)] + Blanks(cols, rows - 1, NORMAL);
    assert Window([], BlankLine(cols, NORMAL, false), total) == [BlankLine(cols, NORMAL, false)];
    assert !Stale([], total);
  }

  // ----- Reading the text back -----

  lemma PrintedRows(t: Term, cols: nat, total: nat, p: Page)
    requires PrintingOn(t, cols, total, p)
    ensures Valid(t.main) && t.main.cols == cols && |t.main.view| == total && 0 <= t.row < t.main.rows
    ensures LinesOn(t.main, t.row, p.full, CurrentLine(p, cols, total, NORMAL), NORMAL)
    ensures t.row < t.main.rows - 1 ==> |p.full| < total
  {
    hide Inv, AllLines, RowCells, Stale, Window;
    InvParts(t);
  }

  /**
    From a fresh emulator, printing any lines separated by CR LF: the transcript consists of the last rows, as many as
    the ring holds, where a row that is used again counts as wrapped if the row before it did.
   */
  lemma PrintAnything(lines: seq<seq<Glyph>>, cols: nat, rows: nat, total: nat)
    requires 2 <= cols && 2 <= rows <= total && AreLines(lines)
    ensures var t, p := Initial(cols, rows, total), PrintedPage(lines, cols, total);
            var w := Window(p.full, CurrentLine(p, cols, total, NORMAL), total);
            LegalRun(t, LinesOps(lines)) && TranscriptText(Run(t, LinesOps(lines)).main) == Trim(Joined(w, |w|))
  {
    hide Inv, Initial, Run, TranscriptText, LinesOps, PrintedPage, Window, CurrentLine, Joined, Trim, PrintingOn,
         LinesOn,
         PageOk, Stale;
    InitialPrinting(cols, rows, total);
    var t, p := Initial(cols, rows, total), PrintedPage(lines, cols, total);
    PrintLines(t, cols, total, lines);
    var t' := Run(t, LinesOps(lines));
    PrintedRows(t', cols, total, p);
    if t'.row < t'.main.rows - 1 {
      FlagOfCurrent(p, cols, total);
    }
    ReadRows(t'.main, t'.row, p.full, CurrentLine(p, cols, total, NORMAL), NORMAL);
  }

  lemma FlagOfCurrent(p: Page, cols: nat, total: nat)
    requires PageOk(p, cols) && |p.full| < total
    ensures !CurrentLine(p, cols, total, NORMAL).wrap
  {
  }

  /** The rows that a line begins after the first one, if it starts in the given column. */
  function Breaks(col: nat, line: seq<Glyph>, cols: nat): nat
    requires forall i :: 0 <= i < |line| ==> ValidGlyph(line[i])
    decreases |line|
  {
    if line == [] then 0
    else
      assert ValidGlyph(line[0]);
      var w := line[0].width;
      (if col + w <= cols then 0 else 1) + Breaks(NextColumn(col, w, cols), line[1..], cols)
  }

  /** The rows that the lines take on a screen of the given width. */
  function RowsNeeded(lines: seq<seq<Glyph>>, cols: nat): nat
    requires AreLines(lines)
  {
    if lines == [] then 0
    else
      assert IsLine(lines[|lines| - 1]);
      RowsNeeded(lines[..|lines| - 1], cols) + 1 + Breaks(0, lines[|lines| - 1], cols)
  }

  lemma {:induction false} TypedSize(p: Page, line: seq<Glyph>, cols: nat)
    requires PageOk(p, cols) && AllMayFollow(p, ItemsOfLine(line)) && 2 <= cols
    requires forall i :: 0 <= i < |line| ==> ValidGlyph(line[i])
    ensures 0 <= Width(p.tail)
    ensures |TypeAll(p, ItemsOfLine(line), cols, NORMAL).full| == |p.full| + Breaks(Width(p.tail), line, cols)
    decreases |line|
  {
    hide RowCells, Width, ItemsOfLine;
    PageWidth(p, cols);
    var items := ItemsOfLine(line);
    if line != [] {
      PrintOpsFirst(line);
      TypeStep(p, items, cols, NORMAL);
      TypeLinesOf(p, items[0], cols, NORMAL);
      TypedSize(Type(p, items[0], cols, NORMAL), line[1..], cols);
    }
  }

  /** The size of the printed page. */
  lemma {:induction false} PrintedSize(lines: seq<seq<Glyph>>, cols: nat, total: nat)
    requires AreLines(lines) && lines != [] && 2 <= cols && 0 < total
    ensures |PrintedPage(lines, cols, total).full| + 1 == RowsNeeded(lines, cols)
    decreases |lines|
  {
    hide Breaks, PrintedPage, TypeAll, IsLine, Width;
    var n := |lines| - 1;
    var init, last := lines[..n], lines[n];
    LineValid(last);
    WidthOfNothing();
    if n == 0 {
      assert lines == [last];
      PageOfOne(last, cols, total);
      TypedSize(Page([], []), last, cols);
      assert RowsNeeded(init, cols) == 0;
    } else {
      assert lines == init + [last];
      PageOfMore(init, last, cols, total);
      PrintedSize(init, cols, total);
      var p := PrintedPage(init, cols, total);
      EndRowGrows(p, cols, total, NORMAL);
      TypedSize(EndRow(p, cols, total, NORMAL), last, cols);
    }
  }

  lemma LineValid(line: seq<Glyph>)
    requires IsLine(line)
    ensures forall i :: 0 <= i < |line| ==> ValidGlyph(line[i])
  {
  }

  /**
    The text of a line on the screen: a double-width character leaves the last
    column blank if it does not fit there.
   */
  function ScreenText(line: seq<Glyph>, cols: nat): seq<int>
    requires IsLine(line) && 2 <= cols
  {
    Spread(0, ItemsOfLine(line), cols)
  }

  function ScreenTexts(lines: seq<seq<Glyph>>, cols: nat): (s: seq<seq<int>>)
    requires AreLines(lines) && 2 <= cols
    ensures |s| == |lines| && forall i :: 0 <= i < |s| ==> s[i] == ScreenText(lines[i], cols)
  {
    seq(|lines|, i requires 0 <= i < |lines| => ScreenText(lines[i], cols))
  }

  lemma ScreenTextsSpread(lines: seq<seq<Glyph>>, cols: nat)
    requires AreLines(lines) && 2 <= cols
    ensures LinesOfItems(ItemLines(lines)) && ScreenTexts(lines, cols) == SpreadEach(ItemLines(lines), cols)
  {
    hide Spread;
    ItemLinesOk(lines);
  }

  predicate NoTrailingSpace(lines: seq<seq<Glyph>>) {
    forall i :: 0 <= i < |lines| ==> (lines[i] == [] || lines[i][|lines[i]| - 1].codePoint != SPACE)
  }

  /** There is no white space at either end. */
  predicate Trimmed(s: seq<int>) {
    s == [] || (s[0] > SPACE && s[|s| - 1] > SPACE)
  }

  /**
    From a fresh emulator, printing lines of characters of any width, with combining ones, separated by CR LF makes
    getTranscriptText return the text of those lines joined by newlines, as long as no line ends in a space, the text
    neither begins nor ends with white space, and the lines fit into the ring.
   */
  lemma PrintThenRead(lines: seq<seq<Glyph>>, cols: nat, rows: nat, total: nat)
    requires 2 <= cols && 2 <= rows <= total && lines != [] && AreLines(lines) && NoTrailingSpace(lines)
    requires Trimmed(JoinLines(ScreenTexts(lines, cols))) && RowsNeeded(lines, cols) <= total
    ensures var t := Initial(cols, rows, total);
            && LegalRun(t, LinesOps(lines))
            && TranscriptText(Run(t, LinesOps(lines)).main) == JoinLines(ScreenTexts(lines, cols))
  {
    hide Inv, Initial, Run, TranscriptText, LinesOps, PrintedPage, CurrentLine, JoinLines, RowsNeeded, PrintingOn,
         LinesOn,
         PageOk, PageText, AreLines, Trim;
    InitialPrinting(cols, rows, total);
    var t, p := Initial(cols, rows, total), PrintedPage(lines, cols, total);
    PrintLines(t, cols, total, lines);
    var t' := Run(t, LinesOps(lines));
    PrintedRows(t', cols, total, p);
    PrintedSize(lines, cols, total);
    ReadPage(t'.main, t'.row, p, NORMAL);
    PrintedText(lines, cols, total);
    TrimNothing(PageText(p));
  }

  lemma PrintedText(lines: seq<seq<Glyph>>, cols: nat, total: nat)
    requires AreLines(lines) && lines != [] && NoTrailingSpace(lines) && 2 <= cols
    requires 0 < total && |PrintedPage(lines, cols, total).full| < total
    ensures PageText(PrintedPage(lines, cols, total)) == JoinLines(ScreenTexts(lines, cols))
  {
    hide TypeLines, JoinLines, PageText, SpreadEach, ScreenTexts;
    ScreenTextsSpread(lines, cols);
    var s := ItemLines(lines);
    forall i | 0 <= i < |s| ensures EndsInText(s[i]) {
      assert s[i] == ItemsOfLine(lines[i]);
    }
    TypeLinesContent(s, cols, total, NORMAL);
  }

  function Codes(line: seq<Glyph>): (s: seq<int>)
    ensures |s| == |line| && forall i :: 0 <= i < |s| ==> s[i] == line[i].codePoint
  {
    seq(|line|, i requires 0 <= i < |line| => line[i].codePoint)
  }

  /** The text on the screen is the line itself exactly if no double-width character comes where one column is left. */
  lemma ScreenTextIsLineIff(line: seq<Glyph>, cols: nat)
    requires IsLine(line) && 2 <= cols
    ensures ScreenText(line, cols) == Codes(line) <==> Gaps(0, ItemsOfLine(line), cols) == 0
  {
    hide Spread, Gaps;
    var items := ItemsOfLine(line);
    SpreadLength(0, items, cols);
    assert CodePoints(items) == Codes(line);
  }

  // ----- Stale wrap flags -----

  function Letter(c: int): Glyph {
    Glyph(c, 1)
  }

  const ABC: seq<Glyph> := [Letter(97), Letter(98), Letter(99)]
  const AB_ROW: seq<Item> := [Typed1(Letter(97)), Typed1(Letter(98))]
  const C_ROW: seq<Item> := [Typed1(Letter(99))]

  /** A row of a terminal with two columns. */
  function RowOfTwo(items: seq<Item>, wrap: bool): Line
    requires FitsRow(items, 2)
  {
    Line(RowCells(items, 2, NORMAL), wrap)
  }

  lemma SmallWidths(c: int)
    ensures Width(AB_ROW) == 2 && Width([Typed1(Letter(c))]) == 1 && FitsRow(AB_ROW, 2)
            && FitsRow([Typed1(Letter(c))], 2)
  {
    TailWidth([], Typed1(Letter(c)));
    TailWidth([], Typed1(Letter(97)));
    TailWidth([Typed1(Letter(97))], Typed1(Letter(98)));
    assert [Typed1(Letter(97))] + [Typed1(Letter(98))] == AB_ROW;
  }

  lemma OneTyped1(full: seq<Line>, c: int)
    ensures TypeAll(Page(full, []), ItemsOfLine([Letter(c)]), 2, NORMAL) == Page(full, [Typed1(Letter(c))])
    ensures IsLine([Letter(c)])
  {
    hide RowCells, Width;
    var items := ItemsOfLine([Letter(c)]);
    assert items == [Typed1(Letter(c))] && items[1..] == [];
    WidthOfNothing();
    SmallWidths(c);
    assert [] + [items[0]] == items;
    assert TypeAll(Page(full, items), [], 2, NORMAL) == Page(full, items);
  }

  /** Three letters on a terminal of two columns: the first row wraps. */
  lemma PrintedAbc()
    ensures IsLine(ABC) && AllMayFollow(Page([], []), ItemsOfLine(ABC)) && FitsRow(AB_ROW, 2) && FitsRow(C_ROW, 2)
    ensures TypeAll(Page([], []), ItemsOfLine(ABC), 2, NORMAL) == Page([RowOfTwo(AB_ROW, true)], C_ROW)
  {
    hide RowCells, Width;
    var a, b, c := Typed1(Letter(97)), Typed1(Letter(98)), Typed1(Letter(99));
    SmallWidths(97);
    SmallWidths(99);
    WidthOfNothing();
    var items := ItemsOfLine(ABC);
    assert items[1..] == [b, c] && [b, c][1..] == [c] && [c][1..] == [];
    var p1, p2, p3 := Page([], [a]), Page([], AB_ROW), Page([RowOfTwo(AB_ROW, true)], C_ROW);
    TailWidth([a], b);
    assert [] + [a] == [a] && [a] + [b] == AB_ROW && [] + [RowOfTwo(AB_ROW, true)] == [RowOfTwo(AB_ROW, true)];
    assert TypeAll(p3, [], 2, NORMAL) == p3;
    assert TypeAll(p2, [c], 2, NORMAL) == p3;
    assert TypeAll(p1, [b, c], 2, NORMAL) == p3;
  }

  lemma PrintedAbcAndMore(line: seq<Glyph>)
    requires IsLine(line)
    ensures AreLines([ABC, line]) && FitsRow(AB_ROW, 2) && FitsRow(C_ROW, 2)
    ensures AllMayFollow(Page([RowOfTwo(AB_ROW, true), RowOfTwo(C_ROW, false)], []), ItemsOfLine(line))
    ensures PrintedPage([ABC, line], 2, 2)
            == TypeAll(Page([RowOfTwo(AB_ROW, true), RowOfTwo(C_ROW, false)], []), ItemsOfLine(line), 2, NORMAL)
  {
    hide TypeAll, RowCells, ItemsOfLine, PrintedPage;
    PrintedAbc();
    PageOfOne(ABC, 2, 2);
    assert AreLines([ABC]);
    PageOfMore([ABC], line, 2, 2);
    assert [ABC] + [line] == [ABC, line];
    NotStale([RowOfTwo(AB_ROW, true)], 2);
    assert [RowOfTwo(AB_ROW, true)] + [RowOfTwo(C_ROW, false)] == [RowOfTwo(AB_ROW, true), RowOfTwo(C_ROW, false)];
  }

  /** On two rows without history, the row revealed by the next line feed is blank but counts as wrapped. */
  lemma StaleFlag()
    ensures var t, ops := Initial(2, 2, 2), LinesOps([ABC, []]);
            && LegalRun(t, ops) && Valid(Run(t, ops).main)
            && Run(t, ops).main.rows == 2 && Run(t, ops).main.view[1] == Some(BlankLine(2, NORMAL, true))
  {
    hide Inv, Initial, Run, LinesOps, RowCells, ItemsOfLine, PrintedPage, LinesOn, PrintingOn;
    InitialPrinting(2, 2, 2);
    var t := Initial(2, 2, 2);
    PrintedAbcAndMore([]);
    PrintLines(t, 2, 2, [ABC, []]);
    var p := Page([RowOfTwo(AB_ROW, true), RowOfTwo(C_ROW, false)], []);
    assert ItemsOfLine([]) == [];
    assert PrintedPage([ABC, []], 2, 2) == p;
    var t' := Run(t, LinesOps([ABC, []]));
    PrintedRows(t', 2, 2, p);
    LineHere(t'.main, t'.row, p.full, CurrentLine(p, 2, 2, NORMAL), NORMAL);
    BlankRow(2, NORMAL, true);
    SizeOf(t', p);
  }

  lemma SizeOf(t: Term, p: Page)
    requires PrintingOn(t, 2, 2, p) && 2 <= |p.full|
    ensures t.main.rows == 2 && t.row == 1
  {
    hide AllLines, Stale, RowCells;
  }

  /** Printing abc, d and e there: d and e are on separate lines, but the transcript joins them. */
  lemma StaleFlagJoinsLines()
    ensures var t, ops := Initial(2, 2, 2), LinesOps([ABC, [Letter(100)], [Letter(101)]]);
            LegalRun(t, ops) && TranscriptText(Run(t, ops).main) == [100, SPACE, 101]
  {
    hide Inv, Initial, Run, LinesOps, TranscriptText, Joined, Trim, RowCells, TypeAll, ItemsOfLine, PrintedPage;
    var d, e := [Letter(100)], [Letter(101)];
    var ds, es := [Typed1(Letter(100))], [Typed1(Letter(101))];
    SmallWidths(100);
    SmallWidths(101);
    var abc := [RowOfTwo(AB_ROW, true), RowOfTwo(C_ROW, false)];
    OneTyped1(abc, 100);
    PrintedAbcAndMore(d);
    var abcd := [abc[0], abc[1], RowOfTwo(ds, true)];
    assert abc + [RowOfTwo(ds, true)] == abcd;
    OneTyped1(abcd, 101);
    PageOfMore([ABC, d], e, 2, 2);
    assert [ABC, d] + [e] == [ABC, d, e];
    PrintAnything([ABC, d, e], 2, 2, 2);
    assert Window(abcd, RowOfTwo(es, false), 2) == [RowOfTwo(ds, true), RowOfTwo(es, false)];
    JoinedDe();
  }

  lemma JoinedDe()
    ensures FitsRow([Typed1(Letter(100))], 2) && FitsRow([Typed1(Letter(101))], 2)
    ensures var w := [RowOfTwo([Typed1(Letter(100))], true), RowOfTwo([Typed1(Letter(101))], false)];
            Trim(Joined(w, 2)) == [100, SPACE, 101]
  {
    hide RowCells, FullText, Width;
    SmallWidths(100);
    SmallWidths(101);
    var ds, es := [Typed1(Letter(100))], [Typed1(Letter(101))];
    var d, e := RowOfTwo(ds, true), RowOfTwo(es, false);
    RowFullText(ds, 2, NORMAL);
    RowFullText(es, 2, NORMAL);
    assert CodePoints(ds) + Spaces(1) == [100, SPACE];
    assert CodePoints(es) == [101];
    TrimMore([101], Spaces(1));
    NotTrimmedText([101]);
    assert Joined([d, e], 0) == [];
    assert Joined([d, e], 1) == [100, SPACE];
    assert Joined([d, e], 2) == [100, SPACE, 101];
    TrimNothing([100, SPACE, 101]);
  }
}
