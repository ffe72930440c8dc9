/** Bytes from the pseudo-teletype all the way to the screen: decoding, parsing and stepping (append). */
module EmulatorBytes {
  import opened Wrappers
  import opened TerminalRows
  import opened TerminalRing
  import opened TerminalState
  import opened EscapeParser
  import opened IntSteps
  import opened PrintAndRead
  import opened PageReading
  import opened Transcript
  import U = Utf8Stream
  import Utf8

  /**
    The screen: a terminal, or none once the cursor has left it or a sequence has been completed that is not modelled
    (LeftOut in EscapeParser).
   */
  datatype Screen = On(term: Term) | OffScreen | Unmodelled

  /** What is behind the decoder. */
  datatype Back = Back(parser: Parser, screen: Screen)

  datatype Machine = Machine(decoder: U.Decoder, back: Back)

  predicate BackOk(b: Back) {
    ParserOk(b.parser) && (b.screen.On? ==> Inv(b.screen.term))
  }

  /** What the parser has produced, and a list of operations for the terminal. */
  function ApplyParsed(t: Term, parsed: (Parser, seq<Op>)): (b': Back)
    requires Inv(t) && ParserOk(parsed.0) && AllSimple(parsed.1)
    ensures BackOk(b')
  {
    hide Inv, IntRun;
    match IntRun(t, parsed.1)
    case Some(t') => Back(parsed.0, On(t'))
    case None => Back(parsed.0, OffScreen)
  }

  lemma SizeOk(t: Term)
    requires Inv(t)
    ensures 0 <= t.rows
  {
  }

  function ApplyCodePoint(b: Back, c: int, tables: Tables): (b': Back)
    requires BackOk(b) && TablesOk(tables)
    ensures BackOk(b')
  {
    hide Inv;
    if !b.screen.On? then b
    else if LeftOut(b.parser, c) then Back(NextParser(b.parser, c), Unmodelled)
    else
      SizeOk(b.screen.term);
      ApplyParsed(b.screen.term, Process(b.parser, c, b.screen.term.rows, b.screen.term.Pen(), tables))
  }

  /** What the decoder delivers goes to processCodePoint or straight to emitCodePoint. */
  function ApplyEvent(b: Back, e: U.Event, tables: Tables): (b': Back)
    requires BackOk(b) && TablesOk(tables)
    ensures BackOk(b')
  {
    hide Inv, EmitCodePoint;
    match e
    case Process(c) => ApplyCodePoint(b, c as int, tables)
    case Emit(c) =>
      if !b.screen.On? then b
      else Back(b.parser, On(EmitCodePoint(b.screen.term, Glyph(c as int, tables.width(c as int)))))
  }

  function ApplyEvents(b: Back, events: seq<U.Event>, tables: Tables): (b': Back)
    requires BackOk(b) && TablesOk(tables)
    ensures BackOk(b')
    decreases |events|
  {
    if events == [] then b else ApplyEvents(ApplyEvent(b, events[0], tables), events[1..], tables)
  }

  predicate MachineOk(m: Machine) {
    U.Ok(m.decoder) && BackOk(m.back)
  }

  function ApplyFed(b: Back, fed: (U.Decoder, seq<U.Event>), tables: Tables): (m': Machine)
    requires BackOk(b) && TablesOk(tables) && U.Ok(fed.0)
    ensures MachineOk(m')
  {
    Machine(fed.0, ApplyEvents(b, fed.1, tables))
  }

  /** One byte. */
  function FeedByte(m: Machine, b: Utf8.byte, tables: Tables, replaced: bv32 -> bool): (m': Machine)
    requires MachineOk(m) && TablesOk(tables)
    ensures MachineOk(m')
  {
    ApplyFed(m.back, U.Feed(m.decoder, b, replaced), tables)
  }

  /** Any bytes: the decoder and the arguments stay within their bounds, and so does a screen that is on. */
  function FeedBytes(m: Machine, bytes: seq<Utf8.byte>, tables: Tables, replaced: bv32 -> bool): (m': Machine)
    requires MachineOk(m) && TablesOk(tables)
    ensures MachineOk(m')
    decreases |bytes|
  {
    if bytes == [] then m else FeedBytes(FeedByte(m, bytes[0], tables, replaced), bytes[1..], tables, replaced)
  }

  function Start(cols: nat, rows: nat, total: nat): (m: Machine)
    requires 2 <= cols && 2 <= rows <= total
    ensures MachineOk(m)
  {
    hide Inv, Initial;
    Machine(U.START, Back(Idle(), On(Initial(cols, rows, total))))
  }

  /**
    After every sequence of bytes the cursor is on the screen, the margins are in order, both buffers are valid and
    the active one has the size of the window, unless the cursor has left the screen or a left-out sequence has been
    completed; ScreenExits says when that is.
   */
  lemma EveryByteSequence(cols: nat, rows: nat, total: nat, bytes: seq<Utf8.byte>, tables: Tables,
                          replaced: bv32 -> bool)
    requires 2 <= cols && 2 <= rows <= total && TablesOk(tables)
    ensures var screen := FeedBytes(Start(cols, rows, total), bytes, tables, replaced).back.screen;
            screen.On? ==>
              var t := screen.term;
              && 0 <= t.row < t.rows && 0 <= t.col < t.cols
              && 0 <= t.top <= t.rows - 2 && t.top + 2 <= t.bottom <= t.rows
              && Valid(t.main) && Valid(t.alt) && t.Cur().rows == t.rows && t.Cur().cols == t.cols
  {
    hide FeedBytes, Valid, Start;
  }

  // ----- Decoding first -----

  lemma {:induction false} ApplyConcat(b: Back, e1: seq<U.Event>, e2: seq<U.Event>, tables: Tables)
    requires BackOk(b) && TablesOk(tables)
    ensures ApplyEvents(b, e1 + e2, tables) == ApplyEvents(ApplyEvents(b, e1, tables), e2, tables)
    decreases |e1|
  {
    hide BackOk, ApplyEvent;
    if e1 == [] {
      assert e1 + e2 == e2;
    } else {
      assert (e1 + e2)[1..] == e1[1..] + e2;
      ApplyConcat(ApplyEvent(b, e1[0], tables), e1[1..], e2, tables);
    }
  }

  /** Byte by byte is the same as decoding everything and then applying all that was delivered. */
  lemma {:induction false} DecodeFirst(m: Machine, bytes: seq<Utf8.byte>, tables: Tables, replaced: bv32 -> bool)
    requires MachineOk(m) && TablesOk(tables)
    ensures FeedBytes(m, bytes, tables, replaced) == ApplyFed(m.back, U.FeedAll(m.decoder, bytes, replaced), tables)
    decreases |bytes|
  {
    hide BackOk, U.Ok, U.Feed, ApplyEvent;
    if bytes != [] {
      var r := U.Feed(m.decoder, bytes[0], replaced);
      DecodeFirst(FeedByte(m, bytes[0], tables, replaced), bytes[1..], tables, replaced);
      ApplyConcat(m.back, r.1, U.FeedAll(r.0, bytes[1..], replaced).1, tables);
    }
  }

  // ----- Plain text -----

  /** A character of any width that is delivered and printed as it is. */
  predicate Printable(v: bv32, replaced: bv32 -> bool) {
    Utf8.Scalar(v) && !U.IsC1(v) && !(0x80 <= v && replaced(v)) && 32 <= v as int
  }

  predicate IsText(vs: seq<bv32>, replaced: bv32 -> bool) {
    forall i :: 0 <= i < |vs| ==> Printable(vs[i], replaced) || vs[i] == 13 || vs[i] == 10
  }

  function OpOf(v: bv32, tables: Tables): Op {
    if v == 13 then CR else if v == 10 then LF else Print(GlyphOf(v, tables))
  }

  function OpsOf(vs: seq<bv32>, tables: Tables): seq<Op> {
    if vs == [] then [] else [OpOf(vs[0], tables)] + OpsOf(vs[1..], tables)
  }

  lemma {:induction false} OpsOfConcat(a: seq<bv32>, b: seq<bv32>, tables: Tables)
    ensures OpsOf(a + b, tables) == OpsOf(a, tables) + OpsOf(b, tables)
    decreases |a|
  {
    hide OpOf;
    if a == [] {
      assert a + b == b;
    } else {
      OpsOfConcat(a[1..], b, tables);
      assert (a + b)[1..] == a[1..] + b;
    }
  }

  lemma ControlCodes()
    ensures (13 as bv32) as int == 13 && (10 as bv32) as int == 10
    ensures Utf8.Scalar(13) && Utf8.Scalar(10) && !U.IsC1(13) && !U.IsC1(10)
  {
  }

  /** One such character or line end, delivered to a parser that is in no sequence. */
  lemma ApplyOne(b: Back, v: bv32, tables: Tables, replaced: bv32 -> bool)
    requires BackOk(b) && TablesOk(tables) && b.parser.state == Ground && b.screen.On?
    requires Printable(v, replaced) || v == 13 || v == 10
    ensures AllSimple([OpOf(v, tables)]) && LegalRun(b.screen.term, [OpOf(v, tables)])
    ensures ApplyEvent(b, U.Process(v), tables) == Back(b.parser, On(Run(b.screen.term, [OpOf(v, tables)])))
  {
    hide Inv, Run, LegalRun, Process, Printable, OpOf, IntRun, IntStep, Step;
    var t := b.screen.term;
    SimpleOp(v, tables);
    SimpleIsLegal(t, [OpOf(v, tables)]);
    SizeOk(t);
    ParsesAs(b.parser, v, t.rows, t.Pen(), tables, replaced);
    RunOne(t, OpOf(v, tables));
    SingleStep(t, v, tables);
  }

  lemma SimpleOp(v: bv32, tables: Tables)
    requires TablesOk(tables)
    ensures AllSimple([OpOf(v, tables)]) && Simple(OpOf(v, tables))
  {
  }

  /** No sum can wrap around here. */
  lemma SingleStep(t: Term, v: bv32, tables: Tables)
    requires Inv(t) && TablesOk(tables)
    ensures LegalRun(t, [OpOf(v, tables)]) && IntStep(t, OpOf(v, tables)) == Some(Run(t, [OpOf(v, tables)]))
  {
    hide Inv, Step;
    assert [OpOf(v, tables)][1..] == [];
    assert Run(Step(t, OpOf(v, tables)), []) == Step(t, OpOf(v, tables));
  }

  lemma ParsesAs(p: Parser, v: bv32, rows: nat, pen: Style, tables: Tables, replaced: bv32 -> bool)
    requires ParserOk(p) && TablesOk(tables) && p.state == Ground
    requires Printable(v, replaced) || v == 13 || v == 10
    ensures Process(p, v as int, rows, pen, tables) == (p, [OpOf(v, tables)])
  {
    hide Process, Utf8.Scalar, U.IsC1;
    ControlCodes();
    ProcessInGround(p, v as int, rows, pen, tables);
  }

  lemma OneDelivered(v: bv32, rest: seq<bv32>, replaced: bv32 -> bool)
    requires Printable(v, replaced) || v == 13 || v == 10
    ensures U.Delivered([v] + rest, replaced) == [U.Process(v)] + U.Delivered(rest, replaced)
  {
    ControlCodes();
    assert ([v] + rest)[1..] == rest;
  }

  lemma {:induction false} ApplyText(b: Back, vs: seq<bv32>, tables: Tables, replaced: bv32 -> bool)
    requires BackOk(b) && TablesOk(tables) && b.parser.state == Ground && IsText(vs, replaced) && b.screen.On?
    ensures LegalRun(b.screen.term, OpsOf(vs, tables))
    ensures ApplyEvents(b, U.Delivered(vs, replaced), tables)
            == Back(b.parser, On(Run(b.screen.term, OpsOf(vs, tables))))
    decreases |vs|
  {
    hide Inv, ApplyEvent, OpOf, Printable, Run, LegalRun, U.Delivered;
    if vs == [] {
      EmptyRun(b.screen.term);
      NothingDelivered(replaced);
    } else {
      ApplyOne(b, vs[0], tables, replaced);
      var b1 := ApplyEvent(b, U.Process(vs[0]), tables);
      ApplyText(b1, vs[1..], tables, replaced);
      RunConcat(b.screen.term, [OpOf(vs[0], tables)], OpsOf(vs[1..], tables));
      assert vs == [vs[0]] + vs[1..];
      OneDelivered(vs[0], vs[1..], replaced);
      var more := U.Delivered(vs[1..], replaced);
      assert ([U.Process(vs[0])] + more)[1..] == more;
    }
  }

  lemma EmptyRun(t: Term)
    requires Inv(t)
    ensures LegalRun(t, []) && Run(t, []) == t
  {
    hide Inv;
  }

  lemma NothingDelivered(replaced: bv32 -> bool)
    ensures U.Delivered([], replaced) == []
  {
  }

  // ----- Lines -----

  /** Lines separated by CR LF. */
  function TextOf(lines: seq<seq<bv32>>): seq<bv32> {
    if lines == [] then []
    else if |lines| == 1 then lines[0]
    else TextOf(lines[..|lines| - 1]) + ([13, 10] + lines[|lines| - 1])
  }

  function GlyphOf(v: bv32, tables: Tables): Glyph {
    Glyph(v as int, tables.width(v as int))
  }

  function Glyphs(vs: seq<bv32>, tables: Tables): (s: seq<Glyph>)
    ensures |s| == |vs| && forall i :: 0 <= i < |vs| ==> s[i] == GlyphOf(vs[i], tables)
  {
    seq(|vs|, i requires 0 <= i < |vs| => GlyphOf(vs[i], tables))
  }

  function GlyphLines(lines: seq<seq<bv32>>, tables: Tables): (s: seq<seq<Glyph>>)
    ensures |s| == |lines| && forall i :: 0 <= i < |lines| ==> s[i] == Glyphs(lines[i], tables)
  {
    seq(|lines|, i requires 0 <= i < |lines| => Glyphs(lines[i], tables))
  }

  predicate AllPrintable(lines: seq<seq<bv32>>, replaced: bv32 -> bool) {
    forall i :: 0 <= i < |lines| ==> PrintableLine(lines[i], replaced)
  }

  predicate PrintableLine(line: seq<bv32>, replaced: bv32 -> bool) {
    forall i :: 0 <= i < |line| ==> Printable(line[i], replaced)
  }

  lemma {:induction false} OpsOfLine(line: seq<bv32>, tables: Tables, replaced: bv32 -> bool)
    requires PrintableLine(line, replaced)
    ensures IsText(line, replaced) && OpsOf(line, tables) == PrintOps(Glyphs(line, tables))
    decreases |line|
  {
    ControlCodes();
    if line == [] {
      assert PrintOps(Glyphs(line, tables)) == [];
    } else {
      OpsOfLine(line[1..], tables, replaced);
      PrintOpsFirst(Glyphs(line, tables));
      assert Glyphs(line, tables)[1..] == Glyphs(line[1..], tables);
      assert Printable(line[0], replaced);
    }
  }

  lemma TextConcat(a: seq<bv32>, b: seq<bv32>, replaced: bv32 -> bool)
    requires IsText(a, replaced) && IsText(b, replaced)
    ensures IsText(a + b, replaced)
  {
    hide Printable;
  }

  lemma LineEndOps(tables: Tables, replaced: bv32 -> bool)
    ensures IsText([13, 10], replaced) && OpsOf([13, 10], tables) == LINE_END
  {
    hide Printable;
    var both: seq<bv32> := [13, 10];
    var last: seq<bv32> := [10];
    assert both[1..] == last && last[1..] == [];
    assert OpsOf(last, tables) == [LF] + OpsOf([], tables);
  }

  lemma {:induction false} OpsOfText(lines: seq<seq<bv32>>, tables: Tables, replaced: bv32 -> bool)
    requires AllPrintable(lines, replaced)
    ensures IsText(TextOf(lines), replaced) && OpsOf(TextOf(lines), tables) == LinesOps(GlyphLines(lines, tables))
    decreases |lines|
  {
    hide PrintableLine, IsText, OpsOf, PrintOps;
    if lines == [] {
      NoOps(tables, replaced);
    } else {
      var n := |lines| - 1;
      OpsOfLine(lines[n], tables, replaced);
      if n > 0 {
        OpsOfText(lines[..n], tables, replaced);
        LineEndOps(tables, replaced);
        TextConcat([13, 10], lines[n], replaced);
        TextConcat(TextOf(lines[..n]), [13, 10] + lines[n], replaced);
        OpsOfConcat([13, 10], lines[n], tables);
        OpsOfConcat(TextOf(lines[..n]), [13, 10] + lines[n], tables);
        assert GlyphLines(lines, tables)[..n] == GlyphLines(lines[..n], tables);
      }
    }
  }

  lemma NoOps(tables: Tables, replaced: bv32 -> bool)
    ensures IsText([], replaced) && OpsOf([], tables) == []
  {
  }

  lemma TextIsScalar(vs: seq<bv32>, replaced: bv32 -> bool)
    requires IsText(vs, replaced)
    ensures U.Scalars(vs) && Utf8.AllEncodable(vs)
  {
    ControlCodes();
    forall i | 0 <= i < |vs| ensures Utf8.Scalar(vs[i]) {
      assert Printable(vs[i], replaced) || vs[i] == 13 || vs[i] == 10;
    }
  }

  /** The bytes of lines of printable characters take a new terminal through the run that prints these lines. */
  lemma TextRuns(cols: nat, rows: nat, total: nat, lines: seq<seq<bv32>>, tables: Tables, replaced: bv32 -> bool)
    requires 2 <= cols && 2 <= rows <= total && TablesOk(tables) && AllPrintable(lines, replaced)
    ensures Utf8.AllEncodable(TextOf(lines))
            && LegalRun(Initial(cols, rows, total), LinesOps(GlyphLines(lines, tables)))
    ensures FeedBytes(Start(cols, rows, total), Utf8.EncodeAll(TextOf(lines)), tables, replaced)
            == Machine(U.START, Back(Idle(), On(Run(Initial(cols, rows, total), LinesOps(GlyphLines(lines, tables))))))
  {
    hide Inv, Initial, Run, LegalRun, IsText, TextOf, LinesOps, FeedBytes, ApplyEvents, U.FeedAll, U.Delivered,
         Utf8.EncodeAll;
    var vs := TextOf(lines);
    OpsOfText(lines, tables, replaced);
    TextIsScalar(vs, replaced);
    U.RoundTrip(vs, replaced);
    DecodeFirst(Start(cols, rows, total), Utf8.EncodeAll(vs), tables, replaced);
    ApplyText(Back(Idle(), On(Initial(cols, rows, total))), vs, tables, replaced);
  }

  /**
    From bytes to text: the UTF-8 encoding of lines of printable characters of any width separated by CR LF, sent to a
    new terminal whose ring they fit, is read back by getTranscriptText as the text of these lines joined by newlines.
   */
  lemma BytesThenRead(cols: nat, rows: nat, total: nat, lines: seq<seq<bv32>>, tables: Tables, replaced: bv32 -> bool)
    requires 2 <= cols && 2 <= rows <= total && TablesOk(tables) && AllPrintable(lines, replaced)
    requires lines != [] && AreLines(GlyphLines(lines, tables)) && NoTrailingSpace(GlyphLines(lines, tables))
    requires RowsNeeded(GlyphLines(lines, tables), cols) <= total
    requires Trimmed(JoinLines(ScreenTexts(GlyphLines(lines, tables), cols)))
    ensures Utf8.AllEncodable(TextOf(lines))
    ensures var t := FeedBytes(Start(cols, rows, total), Utf8.EncodeAll(TextOf(lines)), tables, replaced).back.screen;
            && t.On? && Valid(t.term.main)
            && TranscriptText(t.term.main) == JoinLines(ScreenTexts(GlyphLines(lines, tables), cols))
  {
    hide Inv, Initial, Run, LegalRun, TextOf, LinesOps, FeedBytes, TranscriptText, JoinLines, RowsNeeded,
         Utf8.EncodeAll, AreLines, NoTrailingSpace, ScreenTexts;
    TextRuns(cols, rows, total, lines, tables, replaced);
    MainValid(Run(Initial(cols, rows, total), LinesOps(GlyphLines(lines, tables))));
    PrintThenRead(GlyphLines(lines, tables), cols, rows, total);
  }

  lemma MainValid(t: Term)
    requires Inv(t)
    ensures Valid(t.main)
  {
  }
}
