/** Exactly when a change of columns keeps the lines of the old rows. */
module LineBreaks {
  import opened Wrappers
  import opened Basics
  import opened TerminalRows
  import opened TerminalRing
  import opened FastResize
  import opened Reflow
  import opened ReflowText
  import opened Transcript
  import opened Typing
  import opened Retyping
  import opened ReflowLines

  // ----- The old rows -----

  /** A row up to its character in column c; its combining code points go with the rest of the row. */
  function CutCells(cells: seq<Cell>, c: int): seq<int> {
    if 0 <= c < |cells| && cells[c].text != [] then FullText(cells[..c]) + [cells[c].text[0]] else FullText(cells)
  }

  function OldRow(line: Line, cursorCol: Option<int>): TextRow {
    match cursorCol
    case None => RowOf(line)
    case Some(c) => TextRow(CutCells(line.cells, c), line.wrap)
  }

  function CursorOn(n: nat, cursorLine: int, cursorCol: int): Option<int> {
    if n == cursorLine then Some(cursorCol) else None
  }

  /** The first n rows, with that of the cursor cut. */
  function OldRows(lines: seq<Line>, n: nat, cursorLine: int, cursorCol: int): (s: seq<TextRow>)
    requires n <= |lines|
    ensures |s| == n && forall i :: 0 <= i < n ==> s[i] == OldRow(lines[i], CursorOn(i, cursorLine, cursorCol))
  {
    seq(n, i requires 0 <= i < n => OldRow(lines[i], CursorOn(i, cursorLine, cursorCol)))
  }

  // ----- What a row contributes -----

  lemma {:induction false} ItemsCodes(cells: seq<Cell>, n: nat)
    requires n <= |cells|
    ensures CodePoints(Items(cells, n)) == FullText(cells[..n])
    decreases n
  {
    hide FullText, CodePoints, CellItems;
    if n == 0 {
      NoText(cells);
      NoCodes();
    } else {
      ItemsCodes(cells, n - 1);
      TextStep(cells, n - 1);
      CellItemsCodes(cells, n - 1);
      CodesConcat(Items(cells, n - 1), CellItems(cells, n - 1));
    }
  }

  lemma CodesConcat(a: seq<Item>, b: seq<Item>)
    ensures CodePoints(a + b) == CodePoints(a) + CodePoints(b)
  {
  }

  lemma CellItemsCodes(cells: seq<Cell>, i: nat)
    requires i < |cells|
    ensures CodePoints(CellItems(cells, i)) == cells[i].text
  {
  }

  lemma AllItemsCodes(cells: seq<Cell>)
    ensures CodePoints(Items(cells, |cells|)) == FullText(cells)
  {
    ItemsCodes(cells, |cells|);
    assert cells[..|cells|] == cells;
  }

  lemma CutCodes(line: Line, c: int)
    requires WellFormed(line.cells)
    ensures CodePoints(Cut(RowItems(line, true), 0, Some(c))) == CutCells(line.cells, c)
  {
    hide FullText, Items, Cut, Width;
    var cells := line.cells;
    if 0 <= c < |cells| && cells[c].text != [] {
      var rest := ItemsSplit(cells, c);
      var before := Items(cells, c);
      ItemsWidth(cells, c);
      CutBefore(before, rest, 0, c);
      CutHere(rest, c);
      ItemsCodes(cells, c);
      assert CodePoints(before + [rest[0]]) == CodePoints(before) + [rest[0].glyph.codePoint];
    } else {
      CutMissesRow(cells, c);
      AllItemsCodes(cells);
    }
  }

  lemma {:induction false} BlankCodes(cells: seq<Cell>, n: nat, wrap: bool)
    requires IsBlank(Line(cells, wrap)) && n <= |cells|
    ensures AllSpaces(FullText(cells[..n]))
    decreases n
  {
    hide FullText;
    if n == 0 {
      NoText(cells);
    } else {
      BlankCodes(cells, n - 1, wrap);
      TextStep(cells, n - 1);
    }
  }

  lemma BlankRowCodes(line: Line)
    requires IsBlank(line)
    ensures AllSpaces(FullText(line.cells))
  {
    BlankCodes(line.cells, |line.cells|, line.wrap);
    assert line.cells[..|line.cells|] == line.cells;
  }

  lemma TrimmedCodes(x: seq<int>, items: seq<Item>)
    ensures TrimRight(x + CodePoints(TrimSpaces(items))) == TrimRight(x + CodePoints(items))
  {
    hide TrimRight;
    var s := TrimSpaces(items);
    var rest := CodePoints(items)[|s|..];
    assert CodePoints(items) == CodePoints(s) + rest;
    Assoc(x, CodePoints(s), rest);
    TrimMore(x + CodePoints(s), rest);
  }

  /** A row that goes on contributes its text; one that ends a line contributes it up to spaces at the end. */
  lemma PartCodes(line: Line, cursorCol: Option<int>, x: seq<int>)
    requires WellFormed(line.cells)
    ensures var t, text := CodePoints(RowPart(line, cursorCol)), OldRow(line, cursorCol).text;
            TrimRight(x + t) == TrimRight(x + text) && (!EndsLine(line, cursorCol) ==> t == text)
  {
    hide TrimRight, FullText, Items, Cut, TrimSpaces, IsBlank;
    var cells := line.cells;
    match cursorCol {
      case Some(c) => CutCodes(line, c);
      case None =>
        AllItemsCodes(cells);
        if IsBlank(line) {
          BlankRowCodes(line);
          TrimMore(x, FullText(cells));
          assert CodePoints([]) == [] && x + [] == x;
        } else {
          CutNowhere(RowItems(line, false), 0);
          TrimmedCodes(x, Items(cells, |cells|));
        }
    }
  }

  lemma NoCodes()
    ensures CodePoints([]) == []
  {
  }

  // ----- Lines of old rows and logical lines -----

  function CodesEach(s: seq<seq<Item>>): (t: seq<seq<int>>)
    ensures |t| == |s| && forall i :: 0 <= i < |s| ==> t[i] == CodePoints(s[i])
  {
    seq(|s|, i requires 0 <= i < |s| => CodePoints(s[i]))
  }

  /** A blank row, other than the one with the cursor, that counts as wrapped. */
  predicate BrokenAt(lines: seq<Line>, i: nat, cursorLine: int)
    requires i < |lines|
  {
    i != cursorLine && IsBlank(lines[i]) && lines[i].wrap
  }

  function BrokenRows(lines: seq<Line>, n: nat, cursorLine: int): nat
    requires n <= |lines|
  {
    if n == 0 then 0 else BrokenRows(lines, n - 1, cursorLine) + if BrokenAt(lines, n - 1, cursorLine) then 1 else 0
  }

  lemma OldRowsStep(lines: seq<Line>, n: nat, cursorLine: int, cursorCol: int)
    requires n < |lines|
    ensures OldRows(lines, n + 1, cursorLine, cursorCol)
            == OldRows(lines, n, cursorLine, cursorCol) + [OldRow(lines[n], CursorOn(n, cursorLine, cursorCol))]
  {
  }

  /** One more row. */
  lemma LogicalStep(lines: seq<Line>, n: nat, cursorLine: int, cursorCol: int)
    requires n < |lines| && WellFormedLines(lines)
    ensures var s, c := LogicalLines(lines, n, cursorLine, cursorCol), CursorOn(n, cursorLine, cursorCol);
            var s' := s[|s| - 1 := s[|s| - 1] + RowPart(lines[n], c)];
            LogicalLines(lines, n + 1, cursorLine, cursorCol) == if EndsLine(lines[n], c) then s' + [[]] else s'
  {
    hide RowPart, EndsLine;
  }

  /** Every wrapped blank row before it makes one more line. */
  lemma {:induction false} CountLines(lines: seq<Line>, n: nat, cursorLine: int, cursorCol: int)
    requires n <= |lines| && WellFormedLines(lines)
    ensures |LogicalLines(lines, n, cursorLine, cursorCol)|
            == |TextLines(OldRows(lines, n, cursorLine, cursorCol))| + BrokenRows(lines, n, cursorLine)
    decreases n
  {
    hide RowPart, TextLines, LogicalLines, Extended, OldRow, IsBlank;
    if n == 0 {
      NoRowsYet(lines, cursorLine, cursorCol);
    } else {
      CountLines(lines, n - 1, cursorLine, cursorCol);
      LogicalStep(lines, n - 1, cursorLine, cursorCol);
      OldRowsStep(lines, n - 1, cursorLine, cursorCol);
      var row := OldRow(lines[n - 1], CursorOn(n - 1, cursorLine, cursorCol));
      TextLinesAppend(OldRows(lines, n - 1, cursorLine, cursorCol), row);
      OldRowWraps(lines[n - 1], CursorOn(n - 1, cursorLine, cursorCol));
    }
  }

  lemma OldRowWraps(line: Line, cursorCol: Option<int>)
    ensures OldRow(line, cursorCol).wrap == line.wrap
  {
  }

  lemma NoRowsYet(lines: seq<Line>, cursorLine: int, cursorCol: int)
    requires WellFormedLines(lines)
    ensures OldRows(lines, 0, cursorLine, cursorCol) == [] && TextLines([]) == [[]]
    ensures LogicalLines(lines, 0, cursorLine, cursorCol) == [[]] && CodesEach([[]]) == [[]]
  {
    NoCodes();
  }

  /** The same lines up to spaces at their ends, and the last one goes on equally. */
  predicate Agree(a: seq<seq<int>>, b: seq<seq<int>>) {
    a != [] && |a| == |b| && TrimEach(a) == TrimEach(b) && a[|a| - 1] == b[|b| - 1]
  }

  lemma AgreeOn(a: seq<seq<int>>, b: seq<seq<int>>, text: seq<int>)
    requires Agree(a, b)
    ensures Agree(Extended(a, text), Extended(b, text))
  {
    hide TrimRight;
    var n := |a| - 1;
    forall i | 0 <= i < |a| ensures TrimEach(Extended(a, text))[i] == TrimEach(Extended(b, text))[i] {
      assert TrimEach(a)[i] == TrimEach(b)[i];
    }
  }

  lemma AgreeEnds(a: seq<seq<int>>, b: seq<seq<int>>, s: seq<int>, t: seq<int>)
    requires Agree(a, b) && TrimRight(a[|a| - 1] + s) == TrimRight(a[|a| - 1] + t)
    ensures Agree(Extended(a, s) + [[]], Extended(b, t) + [[]])
  {
    hide TrimRight;
    var a', b' := Extended(a, s) + [[]], Extended(b, t) + [[]];
    forall i | 0 <= i < |a'| ensures TrimEach(a')[i] == TrimEach(b')[i] {
      if i < |a| - 1 {
        assert TrimEach(a)[i] == TrimEach(b)[i];
      }
    }
  }

  lemma CodesExtended(s: seq<seq<Item>>, items: seq<Item>)
    requires s != []
    ensures CodesEach(s[|s| - 1 := s[|s| - 1] + items]) == Extended(CodesEach(s), CodePoints(items))
    ensures CodesEach(s + [[]]) == CodesEach(s) + [[]]
  {
    CodesConcat(s[|s| - 1], items);
    NoCodes();
  }

  lemma {:induction false} LinesAgree(lines: seq<Line>, n: nat, cursorLine: int, cursorCol: int)
    requires n <= |lines| && WellFormedLines(lines) && BrokenRows(lines, n, cursorLine) == 0
    ensures Agree(TextLines(OldRows(lines, n, cursorLine, cursorCol)),
                  CodesEach(LogicalLines(lines, n, cursorLine, cursorCol)))
    decreases n
  {
    hide RowPart, TextLines, LogicalLines, Extended, OldRow, Agree, CodesEach, IsBlank, EndsLine;
    if n == 0 {
      NoRowsYet(lines, cursorLine, cursorCol);
      AgreeAtStart();
    } else {
      LinesAgree(lines, n - 1, cursorLine, cursorCol);
      LogicalStep(lines, n - 1, cursorLine, cursorCol);
      OldRowsStep(lines, n - 1, cursorLine, cursorCol);
      AgreeStep(OldRows(lines, n - 1, cursorLine, cursorCol), LogicalLines(lines, n - 1, cursorLine, cursorCol),
                lines[n - 1], CursorOn(n - 1, cursorLine, cursorCol));
    }
  }

  lemma AgreeAtStart()
    ensures Agree([[]], [[]])
  {
  }

  lemma AgreeStep(rows: seq<TextRow>, s: seq<seq<Item>>, line: Line, cursorCol: Option<int>)
    requires WellFormed(line.cells) && s != [] && Agree(TextLines(rows), CodesEach(s))
    requires cursorCol.None? ==> !(IsBlank(line) && line.wrap)
    ensures var s' := s[|s| - 1 := s[|s| - 1] + RowPart(line, cursorCol)];
            Agree(TextLines(rows + [OldRow(line, cursorCol)]),
                  CodesEach(if EndsLine(line, cursorCol) then s' + [[]] else s'))
  {
    hide RowPart, TextLines, Extended, OldRow, TrimRight, IsBlank, TrimEach;
    var a, b, row, part := TextLines(rows), CodesEach(s), OldRow(line, cursorCol), RowPart(line, cursorCol);
    OldRowWraps(line, cursorCol);
    TextLinesAppend(rows, row);
    CodesExtended(s, part);
    var s' := s[|s| - 1 := s[|s| - 1] + part];
    CodesExtended(s', []);
    PartCodes(line, cursorCol, a[|a| - 1]);
    if EndsLine(line, cursorCol) {
      AgreeEnds(a, b, row.text, CodePoints(part));
    } else {
      AgreeOn(a, b, row.text);
    }
  }

  // ----- Gaps -----

  /** The column after typing. */
  function EndColumn(col: nat, items: seq<Item>, cols: nat): (c: nat)
    requires col <= cols && 2 <= cols && AllValid(items)
    ensures c <= cols
    decreases |items|
  {
    if items == [] then col
    else
      assert ValidGlyph(items[0].glyph);
      EndColumn(NextColumn(col, items[0].glyph.width, cols), items[1..], cols)
  }

  /** The columns left blank because the next character does not fit into them. */
  function Gaps(col: nat, items: seq<Item>, cols: nat): nat
    requires col <= cols && 2 <= cols && AllValid(items)
    decreases |items|
  {
    if items == [] then 0
    else
      var w := items[0].glyph.width;
      assert ValidGlyph(items[0].glyph);
      GapBefore(col, w, cols) + Gaps(NextColumn(col, w, cols), items[1..], cols)
  }

  lemma {:induction false} SpreadConcat(col: nat, a: seq<Item>, b: seq<Item>, cols: nat)
    requires col <= cols && 2 <= cols && AllValid(a) && AllValid(b)
    ensures AllValid(a + b)
    ensures Spread(col, a + b, cols) == Spread(col, a, cols) + Spread(EndColumn(col, a, cols), b, cols)
    ensures Gaps(col, a + b, cols) == Gaps(col, a, cols) + Gaps(EndColumn(col, a, cols), b, cols)
    decreases |a|
  {
    hide GapBefore;
    if a == [] {
      assert a + b == b;
    } else {
      var g := a[0].glyph;
      assert ValidGlyph(g);
      assert (a + b)[1..] == a[1..] + b && (a + b)[0] == a[0];
      var col' := NextColumn(col, g.width, cols);
      SpreadConcat(col', a[1..], b, cols);
      Assoc(Spaces(GapBefore(col, g.width, cols)) + [g.codePoint], Spread(col', a[1..], cols),
            Spread(EndColumn(col, a, cols), b, cols));
    }
  }

  lemma {:induction false} SpreadLength(col: nat, items: seq<Item>, cols: nat)
    requires col <= cols && 2 <= cols && AllValid(items)
    ensures |Spread(col, items, cols)| == |items| + Gaps(col, items, cols)
    ensures Gaps(col, items, cols) == 0 ==> Spread(col, items, cols) == CodePoints(items)
    decreases |items|
  {
    hide GapBefore, NextColumn;
    if items == [] {
      NoCodes();
    } else {
      var g := items[0].glyph;
      assert ValidGlyph(g);
      NextInRow(col, g.width, cols);
      SpreadLength(NextColumn(col, g.width, cols), items[1..], cols);
      FirstCode(items);
      if GapBefore(col, g.width, cols) == 0 {
        assert Spaces(0) + [g.codePoint] == [g.codePoint];
      }
    }
  }

  lemma NextInRow(col: nat, width: nat, cols: nat)
    requires col <= cols && width <= 2 <= cols
    ensures NextColumn(col, width, cols) <= cols
  {
  }

  lemma FirstCode(items: seq<Item>)
    requires items != []
    ensures CodePoints(items) == [items[0].glyph.codePoint] + CodePoints(items[1..])
  {
  }

  lemma {:induction false} SpreadSpaces(col: nat, items: seq<Item>, cols: nat)
    requires col <= cols && 2 <= cols && AllValid(items)
    ensures AllSpaces(Spread(col, items, cols)) <==> AllSpaces(CodePoints(items))
    decreases |items|
  {
    hide GapBefore, NextColumn, AllSpaces;
    if items == [] {
      NoCodes();
    } else {
      var g := items[0].glyph;
      assert ValidGlyph(g);
      NextInRow(col, g.width, cols);
      var col', gap := NextColumn(col, g.width, cols), Spaces(GapBefore(col, g.width, cols));
      SpreadSpaces(col', items[1..], cols);
      FirstCode(items);
      AreSpaces(GapBefore(col, g.width, cols));
      SpacesConcat(gap, [g.codePoint]);
      SpacesConcat(gap + [g.codePoint], Spread(col', items[1..], cols));
      SpacesConcat([g.codePoint], CodePoints(items[1..]));
    }
  }

  lemma AreSpaces(n: nat)
    ensures AllSpaces(Spaces(n))
  {
  }

  lemma SpacesConcat(a: seq<int>, b: seq<int>)
    ensures AllSpaces(a + b) <==> AllSpaces(a) && AllSpaces(b)
  {
    if AllSpaces(a + b) {
      assert forall i :: 0 <= i < |a| ==> a[i] == (a + b)[i];
      assert forall i :: 0 <= i < |b| ==> b[i] == (a + b)[|a| + i];
    }
  }

  /** A space is never of width 2. */
  predicate NarrowSpaces(items: seq<Item>) {
    forall i :: 0 <= i < |items| ==> items[i].glyph.codePoint == SPACE ==> items[i].glyph.width <= 1
  }

  lemma NoGapAtSpace(col: nat, item: Item, cols: nat)
    requires col <= cols && 2 <= cols && ValidGlyph(item.glyph) && item.glyph.codePoint == SPACE
             && item.glyph.width <= 1
    ensures Gaps(col, [item], cols) == 0 && Spread(col, [item], cols) == [SPACE]
  {
    assert [item][1..] == [];
    assert Spaces(0) == [];
  }

  /** Every gap shows in the text without the spaces at its end. */
  lemma {:induction false} TrimmedLength(items: seq<Item>, cols: nat)
    requires 2 <= cols && AllValid(items) && NarrowSpaces(items)
    ensures |TrimRight(Spread(0, items, cols))| == |TrimRight(CodePoints(items))| + Gaps(0, items, cols)
    decreases |items|
  {
    hide Spread, Gaps, EndColumn;
    SpreadLength(0, items, cols);
    if items == [] {
      SpreadNothing(0, cols);
      NoCodes();
    } else {
      var n := |items| - 1;
      var init, last := items[..n], items[n];
      assert items == init + [last];
      SpreadConcat(0, init, [last], cols);
      CodesConcat(init, [last]);
      assert CodePoints([last]) == [last.glyph.codePoint];
      if last.glyph.codePoint == SPACE {
        TrimmedLength(init, cols);
        NoGapAtSpace(EndColumn(0, init, cols), last, cols);
        TrimMore(Spread(0, init, cols), [SPACE]);
        TrimMore(CodePoints(init), [SPACE]);
      } else {
        EndsInLast(EndColumn(0, init, cols), last, cols);
        NotTrimmed(Spread(0, init, cols), Spread(EndColumn(0, init, cols), [last], cols));
        NotTrimmed(CodePoints(init), [last.glyph.codePoint]);
      }
    }
  }

  lemma EndsInLast(col: nat, item: Item, cols: nat)
    requires col <= cols && 2 <= cols && ValidGlyph(item.glyph)
    ensures var s := Spread(col, [item], cols); s != [] && s[|s| - 1] == item.glyph.codePoint
  {
    assert [item][1..] == [];
  }

  lemma NotTrimmed(a: seq<int>, b: seq<int>)
    requires b != [] && b[|b| - 1] != SPACE
    ensures TrimRight(a + b) == a + b
  {
  }

  lemma SpreadNothing(col: nat, cols: nat)
    requires col <= cols && 2 <= cols
    ensures Spread(col, [], cols) == [] && Gaps(col, [], cols) == 0
  {
  }

  // ----- Rows without text -----

  /** The lines that typing gives, without spaces at their ends and blank lines at the end. */
  function TypedLines(s: seq<seq<Item>>, cols: nat): seq<seq<int>>
    requires LinesOfItems(s) && 2 <= cols
  {
    DropEmpty(TrimEach(SpreadEach(s, cols)))
  }

  lemma SpreadExtended(s: seq<seq<Item>>, items: seq<Item>, cols: nat)
    requires LinesOfItems(s) && s != [] && LineOfItems(items) && 2 <= cols
    ensures var s' := s[|s| - 1 := s[|s| - 1] + items];
            && LinesOfItems(s')
            && SpreadEach(s', cols)
               == Extended(SpreadEach(s, cols), Spread(EndColumn(0, s[|s| - 1], cols), items, cols))
  {
    hide Spread, EndColumn;
    SpreadConcat(0, s[|s| - 1], items, cols);
  }

  lemma SpreadEmptyLine(s: seq<seq<Item>>, cols: nat)
    requires LinesOfItems(s) && 2 <= cols
    ensures LinesOfItems(s + [[]]) && SpreadEach(s + [[]], cols) == SpreadEach(s, cols) + [[]]
  {
    SpreadNothing(0, cols);
  }

  /** Items without text at the end of the last line, and an empty line after it, add no line. */
  lemma BlankItemsAdd(s: seq<seq<Item>>, items: seq<Item>, cols: nat)
    requires LinesOfItems(s) && s != [] && LineOfItems(items) && 2 <= cols && AllSpaces(CodePoints(items))
    ensures var s' := s[|s| - 1 := s[|s| - 1] + items];
            && LinesOfItems(s') && LinesOfItems(s' + [[]])
            && TypedLines(s', cols) == TypedLines(s, cols) && TypedLines(s' + [[]], cols) == TypedLines(s, cols)
  {
    hide Spread, EndColumn, TrimRight, DropEmpty, SpreadEach, Extended, AllSpaces;
    SpreadExtended(s, items, cols);
    var s' := s[|s| - 1 := s[|s| - 1] + items];
    SpreadEmptyLine(s', cols);
    SpreadSpaces(EndColumn(0, s[|s| - 1], cols), items, cols);
    TrimExtended(SpreadEach(s, cols), Spread(EndColumn(0, s[|s| - 1], cols), items, cols));
    TrimEachAppend(SpreadEach(s', cols), []);
    NothingTrimmed();
    DropOne(TrimEach(SpreadEach(s', cols)));
  }

  lemma {:induction false} TrimIsSpaces(s: seq<int>)
    ensures TrimRight(s) == [] <==> AllSpaces(s)
  {
    if s != [] {
      TrimIsSpaces(s[..|s| - 1]);
    }
  }

  /** Whether a row has text is seen in what it contributes. */
  lemma PartHasText(line: Line, cursorCol: Option<int>)
    requires WellFormed(line.cells)
    ensures AllSpaces(CodePoints(RowPart(line, cursorCol))) <==> AllSpaces(OldRow(line, cursorCol).text)
  {
    hide RowPart, OldRow, TrimRight;
    PartCodes(line, cursorCol, []);
    var t, text := CodePoints(RowPart(line, cursorCol)), OldRow(line, cursorCol).text;
    assert [] + t == t && [] + text == text;
    TrimIsSpaces(t);
    TrimIsSpaces(text);
  }

  lemma BlankRowTyped(lines: seq<Line>, n: nat, cursorLine: int, cursorCol: int, cols: nat)
    requires n < |lines| && WellFormedLines(lines) && 2 <= cols
    requires AllSpaces(OldRow(lines[n], CursorOn(n, cursorLine, cursorCol)).text)
    ensures LinesOfItems(LogicalLines(lines, n, cursorLine, cursorCol))
    ensures LinesOfItems(LogicalLines(lines, n + 1, cursorLine, cursorCol))
    ensures TypedLines(LogicalLines(lines, n + 1, cursorLine, cursorCol), cols)
            == TypedLines(LogicalLines(lines, n, cursorLine, cursorCol), cols)
  {
    hide LogicalLines, RowPart, EndsLine, OldRow, TypedLines, AllSpaces;
    LogicalAreLines(lines, n, cursorLine, cursorCol);
    LogicalStep(lines, n, cursorLine, cursorCol);
    var c := CursorOn(n, cursorLine, cursorCol);
    PartIsLine(lines[n], c);
    PartHasText(lines[n], c);
    BlankItemsAdd(LogicalLines(lines, n, cursorLine, cursorCol), RowPart(lines[n], c), cols);
  }

  lemma {:induction false} BlankRowsTyped(lines: seq<Line>, m: nat, n: nat, cursorLine: int, cursorCol: int, cols: nat)
    requires m <= n <= |lines| && WellFormedLines(lines) && 2 <= cols
    requires forall i :: m <= i < n ==> AllSpaces(OldRow(lines[i], CursorOn(i, cursorLine, cursorCol)).text)
    ensures LinesOfItems(LogicalLines(lines, m, cursorLine, cursorCol))
    ensures LinesOfItems(LogicalLines(lines, n, cursorLine, cursorCol))
    ensures TypedLines(LogicalLines(lines, n, cursorLine, cursorCol), cols)
            == TypedLines(LogicalLines(lines, m, cursorLine, cursorCol), cols)
    decreases n
  {
    hide LogicalLines, OldRow, TypedLines, AllSpaces;
    LogicalAreLines(lines, m, cursorLine, cursorCol);
    if m < n {
      BlankRowsTyped(lines, m, n - 1, cursorLine, cursorCol, cols);
      BlankRowTyped(lines, n - 1, cursorLine, cursorCol, cols);
    }
  }
}
