/** The bytes of escape and control sequences, and what they leave of the terminal. */
module EscapeSequences {
  import opened Wrappers
  import opened Basics
  import opened TerminalRows
  import opened TerminalRing
  import opened BlockCopies
  import opened TerminalState
  import opened EscapeParser
  import opened IntSteps
  import opened EmulatorBytes
  import opened ScreenExits
  import P = PrintAndRead
  import opened Editing
  import opened CursorEffects
  import opened ScreenEffects
  import U = Utf8Stream
  import Utf8

  // ----- Arguments as bytes -----

  /** Up to sixteen ints in decimal notation, separated by semicolons. */
  predicate Encodes(args: seq<Utf8.byte>, ns: seq<nat>) {
    |ns| <= MAX_ARGS && Codes(args) == Numbers(ns) && forall i :: 0 <= i < |ns| ==> ns[i] <= MAX_INT
  }

  /** A missing argument and zero stand for the default. */
  function Argument(ns: seq<nat>, i: nat, default: nat): nat {
    if i < |ns| && 0 < ns[i] then ns[i] else default
  }

  /** The parser has read the arguments. */
  predicate ArgsRead(p: Parser, ns: seq<nat>) {
    && ParserOk(p) && |ns| <= MAX_ARGS && p.argIndex == Max(0, |ns| - 1)
    && forall i :: 0 <= i < MAX_ARGS ==> p.args[i] == if i < |ns| then ns[i] else -1
  }

  lemma ArgIs(p: Parser, ns: seq<nat>, i: nat, default: nat)
    requires ArgsRead(p, ns) && i < MAX_ARGS
    ensures Arg(p, i, default) == Argument(ns, i, default)
  {
  }

  lemma OneArgument(p: Parser, ns: seq<nat>)
    requires ArgsRead(p, ns)
    ensures |ns| <= 1 ==> p.argIndex == 0
  {
  }

  predicate IsArgChar(c: int) {
    '0' as int <= c <= '9' as int || Is(c, ';')
  }

  predicate AreArgChars(s: seq<int>) {
    forall i :: 0 <= i < |s| ==> IsArgChar(s[i])
  }

  lemma {:induction false} NumberChars(ns: seq<nat>)
    ensures AreArgChars(Numbers(ns))
    decreases |ns|
  {
    hide Decimal;
    if ns != [] {
      var n := |ns| - 1;
      DecimalDigits(ns[n]);
      NumberChars(ns[..n]);
    }
  }

  lemma ArgLeadsOn(p: Parser, c: int, rows: nat, pen: Style, tables: Tables)
    requires ParserOk(p) && TablesOk(tables) && (p.state == Csi || p.state == Question) && IsArgChar(c)
    ensures Process(p, c, rows, pen, tables) == (ParseArg(p, c), []) && ParseArg(p, c).state == p.state
    ensures !LeftOut(p, c)
  {
  }

  lemma ApplyArg(b: Back, byte: Utf8.byte, tables: Tables)
    requires BackOk(b) && TablesOk(tables) && b.screen.On? && (b.parser.state == Csi || b.parser.state == Question)
    requires IsArgChar(CodeOf(byte))
    ensures ApplyEvent(b, EventOf(byte), tables) == Back(ParseArg(b.parser, CodeOf(byte)), b.screen)
    ensures ParseArg(b.parser, CodeOf(byte)).state == b.parser.state
  {
    hide Inv, ParserOk, Process, ParseArg, CodeOf, EventOf, LeftOut;
    SizeOk(b.screen.term);
    ArgLeadsOn(b.parser, CodeOf(byte), b.screen.term.rows, b.screen.term.Pen(), tables);
    ApplySilent(b, byte, ParseArg(b.parser, CodeOf(byte)), tables);
  }

  lemma ParseFirst(p: Parser, c: int, s: seq<int>)
    requires ParserOk(p)
    ensures ParseArgs(p, [c] + s) == ParseArgs(ParseArg(p, c), s)
  {
    hide ParseArg, ParserOk;
    ParseArgsConcat(p, [c], s);
    assert [c][..0] == [];
    assert ParseArgs(p, []) == p;
  }

  lemma FirstByte(bytes: seq<Utf8.byte>)
    requires bytes != []
    ensures Codes(bytes) == [CodeOf(bytes[0])] + Codes(bytes[1..])
    ensures Events(bytes) == [EventOf(bytes[0])] + Events(bytes[1..])
  {
    hide CodeOf, EventOf;
  }

  lemma FirstApplied(b: Back, e: U.Event, events: seq<U.Event>, tables: Tables)
    requires BackOk(b) && TablesOk(tables)
    ensures ApplyEvents(b, [e] + events, tables) == ApplyEvents(ApplyEvent(b, e, tables), events, tables)
  {
    hide BackOk, ApplyEvent;
    assert ([e] + events)[1..] == events;
  }

  lemma ArgCharsRest(c: int, s: seq<int>)
    requires AreArgChars([c] + s)
    ensures IsArgChar(c) && AreArgChars(s)
  {
    hide IsArgChar;
    assert ([c] + s)[0] == c;
    forall i | 0 <= i < |s| ensures IsArgChar(s[i]) {
      assert ([c] + s)[i + 1] == s[i];
    }
  }

  lemma {:induction false} ApplyArgs(b: Back, bytes: seq<Utf8.byte>, tables: Tables)
    requires BackOk(b) && TablesOk(tables) && b.screen.On? && (b.parser.state == Csi || b.parser.state == Question)
    requires AreArgChars(Codes(bytes))
    ensures ApplyEvents(b, Events(bytes), tables) == Back(ParseArgs(b.parser, Codes(bytes)), b.screen)
    ensures ParseArgs(b.parser, Codes(bytes)).state == b.parser.state
    decreases |bytes|
  {
    hide Inv, ApplyEvent, ApplyEvents, ParseArg, ParserOk, CodeOf, EventOf, AreArgChars;
    if bytes == [] {
      NoEvents(b, tables);
      assert Events(bytes) == [] && Codes(bytes) == [];
    } else {
      hide Codes, Events, ParseArgs;
      var first, rest := bytes[0], bytes[1..];
      FirstByte(bytes);
      ArgCharsRest(CodeOf(first), Codes(rest));
      ApplyArg(b, first, tables);
      FirstApplied(b, EventOf(first), Events(rest), tables);
      ApplyArgs(ApplyEvent(b, EventOf(first), tables), rest, tables);
      ParseFirst(b.parser, CodeOf(first), Codes(rest));
    }
  }

  lemma ReadsArgs(p: Parser, args: seq<Utf8.byte>, ns: seq<nat>)
    requires ParserOk(p) && p.args == NO_ARGS && p.argIndex == 0 && Encodes(args, ns)
    ensures ArgsRead(ParseArgs(p, Codes(args)), ns)
  {
    hide ParseArgs;
    NoArgs();
    if ns == [] {
      NothingParsed(p);
    } else {
      ParseNumbers(p, ns);
    }
  }

  lemma NothingParsed(p: Parser)
    requires ParserOk(p)
    ensures Numbers([]) == [] && ParseArgs(p, []) == p
  {
  }

  // ----- Sequences as bytes -----

  /** The terminal is on and in no sequence. */
  ghost predicate Awaits(b: Back, tables: Tables) {
    BackOk(b) && TablesOk(tables) && b.screen.On? && b.parser.state == Ground
  }

  /** The state after some bytes. */
  ghost function Sent(b: Back, bytes: seq<Utf8.byte>, tables: Tables): (b': Back)
    requires BackOk(b) && TablesOk(tables)
    ensures BackOk(b')
  {
    ApplyEvents(b, Events(bytes), tables)
  }

  /** ASCII bytes that reach the decoder between characters. */
  lemma SentIsFed(m: Machine, bytes: seq<Utf8.byte>, tables: Tables, replaced: bv32 -> bool)
    requires MachineOk(m) && TablesOk(tables) && m.decoder == U.START
    requires forall i :: 0 <= i < |bytes| ==> bytes[i] < 0x80
    ensures FeedBytes(m, bytes, tables, replaced) == Machine(U.START, Sent(m.back, bytes, tables))
  {
    hide FeedBytes, BackOk, ApplyEvents, U.FeedAll, U.Ok, Events;
    DecodeFirst(m, bytes, tables, replaced);
    AsciiDecodes(bytes, replaced);
  }

  const CSI: seq<Utf8.byte> := [27, 91]
  const PRIVATE: seq<Utf8.byte> := [27, 91, 63]

  lemma SentConcat(b: Back, x: seq<Utf8.byte>, y: seq<Utf8.byte>, tables: Tables)
    requires BackOk(b) && TablesOk(tables)
    ensures Sent(b, x + y, tables) == Sent(Sent(b, x, tables), y, tables)
  {
    hide BackOk, ApplyEvents;
    EventsConcat(x, y);
    ApplyConcat(b, Events(x), Events(y), tables);
  }

  lemma SentJust(b: Back, byte: Utf8.byte, tables: Tables)
    requires BackOk(b) && TablesOk(tables)
    ensures Sent(b, [byte], tables) == ApplyEvent(b, EventOf(byte), tables)
  {
    hide BackOk, ApplyEvent, ApplyEvents, EventOf, Events;
    ApplyJust(b, byte, tables);
  }

  /** A control sequence up to its final character. */
  lemma CsiRead(b: Back, args: seq<Utf8.byte>, ns: seq<nat>, final: Utf8.byte, tables: Tables) returns (p: Parser)
    requires Awaits(b, tables) && Encodes(args, ns)
    ensures p.state == Csi && ArgsRead(p, ns) && BackOk(Back(p, b.screen))
    ensures Sent(b, CSI + args + [final], tables) == ApplyEvent(Back(p, b.screen), EventOf(final), tables)
  {
    hide Inv, ParserOk, ApplyEvent, ApplyEvents, EventOf, ParseArgs, Codes, Numbers, Sent;
    ApplyIntroducer(b, tables);
    IsSent(b, CSI, tables);
    var b1 := Sent(b, CSI, tables);
    NumberChars(ns);
    ApplyArgs(b1, args, tables);
    IsSent(b1, args, tables);
    ReadsArgs(b1.parser, args, ns);
    SentConcat(b, CSI + args, [final], tables);
    SentConcat(b, CSI, args, tables);
    p := ParseArgs(b1.parser, Codes(args));
    SentJust(Back(p, b.screen), final, tables);
  }

  lemma IsSent(b: Back, bytes: seq<Utf8.byte>, tables: Tables)
    requires BackOk(b) && TablesOk(tables)
    ensures Sent(b, bytes, tables) == ApplyEvents(b, Events(bytes), tables)
  {
  }

  /** The last character of a sequence that stands for one operation. */
  lemma LastSent(b: Back, final: Utf8.byte, op: Op, tables: Tables)
    requires BackOk(b) && TablesOk(tables) && b.screen.On? && !LeftOut(b.parser, CodeOf(final)) && Simple(op)
    requires 0 <= b.screen.term.rows
    requires Process(b.parser, CodeOf(final), b.screen.term.rows, b.screen.term.Pen(), tables)
             == (b.parser.(state := Ground), [op])
    ensures ApplyEvent(b, EventOf(final), tables)
            == match IntStep(b.screen.term, op)
               case Some(t) => Back(b.parser.(state := Ground), On(t))
               case None => Back(b.parser.(state := Ground), OffScreen)
  {
    hide Inv, ParserOk, Process, IntStep, LeftOut, IntRun;
    RunOne(b.screen.term, op);
  }

  /** Operations in which no sum can exceed the range. */
  predicate NoSum(op: Op) {
    !op.CUD? && !op.CUF? && !op.CNL? && !op.VPR? && !op.CUP?
  }

  lemma PlainStepped(t: Term, op: Op)
    requires Inv(t) && Simple(op) && NoSum(op)
    ensures Legal(t, op) && IntStep(t, op) == Some(Step(t, op))
  {
    hide Inv, Step;
  }

  /** What a sequence leaves: the parser is in no sequence, and the terminal is t. */
  ghost predicate Leaves(b: Back, bytes: seq<Utf8.byte>, tables: Tables, t: Term)
    requires BackOk(b) && TablesOk(tables)
  {
    Sent(b, bytes, tables).parser.state == Ground && Sent(b, bytes, tables).screen == On(t)
  }

  lemma CsiLeaves(b: Back, args: seq<Utf8.byte>, final: Utf8.byte, p: Parser, op: Op, tables: Tables)
    requires Awaits(b, tables) && BackOk(Back(p, b.screen)) && p.state == Csi && Simple(op) && NoSum(op)
    requires 0 <= b.screen.term.rows
    requires Process(p, CodeOf(final), b.screen.term.rows, b.screen.term.Pen(), tables) == (p.(state := Ground), [op])
    requires Sent(b, CSI + args + [final], tables) == ApplyEvent(Back(p, b.screen), EventOf(final), tables)
    ensures Legal(b.screen.term, op) && Leaves(b, CSI + args + [final], tables, Step(b.screen.term, op))
  {
    hide Inv, ParserOk, ApplyEvent, EventOf, Process, Step, Sent, CodeOf, IntStep;
    LastSent(Back(p, b.screen), final, op, tables);
    PlainStepped(b.screen.term, op);
  }

  // ----- Editing -----

  lemma ErasingFinals(p: Parser, rows: nat, pen: Style, tables: Tables)
    requires ParserOk(p) && TablesOk(tables) && p.state == Csi
    ensures CodeOf(75) == 75 && Process(p, 75, rows, pen, tables) == (p.(state := Ground), [EL(Arg(p, 0, 0))])
    ensures CodeOf(74) == 74 && Process(p, 74, rows, pen, tables) == (p.(state := Ground), [ED(Arg(p, 0, 0))])
    ensures CodeOf(88) == 88 && Process(p, 88, rows, pen, tables) == (p.(state := Ground), [ECH(Arg(p, 0, 1))])
  {
    hide Arg, ParserOk;
  }

  lemma CharacterFinals(p: Parser, rows: nat, pen: Style, tables: Tables)
    requires ParserOk(p) && TablesOk(tables) && p.state == Csi
    ensures CodeOf(64) == 64 && Process(p, 64, rows, pen, tables) == (p.(state := Ground), [ICH(Arg(p, 0, 1))])
    ensures CodeOf(80) == 80 && Process(p, 80, rows, pen, tables) == (p.(state := Ground), [DCH(Arg(p, 0, 1))])
  {
    hide Arg, ParserOk;
  }

  lemma LineFinals(p: Parser, rows: nat, pen: Style, tables: Tables)
    requires ParserOk(p) && TablesOk(tables) && p.state == Csi
    ensures CodeOf(76) == 76 && Process(p, 76, rows, pen, tables) == (p.(state := Ground), [IL(Arg(p, 0, 1))])
    ensures CodeOf(77) == 77 && Process(p, 77, rows, pen, tables) == (p.(state := Ground), [DL(Arg(p, 0, 1))])
    ensures CodeOf(83) == 83 && Process(p, 83, rows, pen, tables) == (p.(state := Ground), [SU(Arg(p, 0, 1))])
    ensures CodeOf(84) == 84
    ensures p.argIndex == 0 ==> Process(p, 84, rows, pen, tables) == (p.(state := Ground), [SD(Arg(p, 0, 1))])
  {
    hide Arg, ParserOk;
  }

  /** ESC [ n K erases in the line of the cursor. */
  lemma EraseInLineSequence(b: Back, args: seq<Utf8.byte>, ns: seq<nat>, tables: Tables)
    requires Awaits(b, tables) && Encodes(args, ns)
    ensures var t, b' := b.screen.term, Sent(b, CSI + args + [75], tables);
            && b'.parser.state == Ground && b'.screen.On?
            && LineErased(t, b'.screen.term, Argument(ns, 0, 0))
            && SameButRows(if Argument(ns, 0, 0) <= 2 then NoWrap(t) else t, b'.screen.term)
  {
    hide Inv, Process, Sent, Step, ArgsRead, ApplyEvent, EventOf, Argument, SameButRows, LineErased;
    var t := b.screen.term;
    var p := CsiRead(b, args, ns, 75, tables);
    SizeOk(t);
    ArgIs(p, ns, 0, 0);
    ErasingFinals(p, t.rows, t.Pen(), tables);
    CsiLeaves(b, args, 75, p, EL(Argument(ns, 0, 0)), tables);
    LineErasedBy(t, Argument(ns, 0, 0));
  }

  /** ESC [ n J erases on the screen. */
  lemma EraseInDisplaySequence(b: Back, args: seq<Utf8.byte>, ns: seq<nat>, tables: Tables)
    requires Awaits(b, tables) && Encodes(args, ns) && Argument(ns, 0, 0) != 3
    ensures var t, b' := b.screen.term, Sent(b, CSI + args + [74], tables);
            && b'.parser.state == Ground && b'.screen.On?
            && DisplayErased(t, b'.screen.term, Argument(ns, 0, 0))
            && SameButRows(if Argument(ns, 0, 0) <= 2 then NoWrap(t) else t, b'.screen.term)
  {
    hide Inv, Process, Sent, Step, ArgsRead, ApplyEvent, EventOf, Argument, SameButRows, DisplayErased;
    var t := b.screen.term;
    var p := CsiRead(b, args, ns, 74, tables);
    SizeOk(t);
    ArgIs(p, ns, 0, 0);
    ErasingFinals(p, t.rows, t.Pen(), tables);
    CsiLeaves(b, args, 74, p, ED(Argument(ns, 0, 0)), tables);
    DisplayErasedBy(t, Argument(ns, 0, 0));
  }

  /** ESC [ 3 J empties the history. */
  lemma EraseHistorySequence(b: Back, args: seq<Utf8.byte>, ns: seq<nat>, tables: Tables)
    requires Awaits(b, tables) && Encodes(args, ns) && Argument(ns, 0, 0) == 3
    ensures var t, b' := b.screen.term, Sent(b, CSI + args + [74], tables);
            && b'.parser.state == Ground && b'.screen.On?
            && b'.screen.term == NoWrap(t).(main := b'.screen.term.main)
            && b'.screen.term.main.active == 0 && Valid(t.main) && Valid(b'.screen.term.main)
            && TerminalRing.Screen(b'.screen.term.main) == TerminalRing.Screen(t.main)
  {
    hide Inv, Process, Sent, Step, ArgsRead, ApplyEvent, EventOf, Argument, SameButRows, Valid;
    var t := b.screen.term;
    var p := CsiRead(b, args, ns, 74, tables);
    SizeOk(t);
    ArgIs(p, ns, 0, 0);
    ErasingFinals(p, t.rows, t.Pen(), tables);
    CsiLeaves(b, args, 74, p, ED(Argument(ns, 0, 0)), tables);
    HistoryErasedBy(t);
  }

  /** ESC [ n X erases n characters. */
  lemma EraseCharactersSequence(b: Back, args: seq<Utf8.byte>, ns: seq<nat>, tables: Tables)
    requires Awaits(b, tables) && Encodes(args, ns)
    ensures var t, b' := b.screen.term, Sent(b, CSI + args + [88], tables);
            && b'.parser.state == Ground && b'.screen.On?
            && CharactersErased(t, b'.screen.term, Argument(ns, 0, 1))
            && SameButRows(NoWrap(t), b'.screen.term)
  {
    hide Inv, Process, Sent, Step, ArgsRead, ApplyEvent, EventOf, Argument, SameButRows, CharactersErased;
    var t := b.screen.term;
    var p := CsiRead(b, args, ns, 88, tables);
    SizeOk(t);
    ArgIs(p, ns, 0, 1);
    ErasingFinals(p, t.rows, t.Pen(), tables);
    CsiLeaves(b, args, 88, p, ECH(Argument(ns, 0, 1)), tables);
    CharactersErasedBy(t, Argument(ns, 0, 1));
  }

  /** ESC [ n @ inserts n blanks. */
  lemma InsertCharactersSequence(b: Back, args: seq<Utf8.byte>, ns: seq<nat>, tables: Tables)
    requires Awaits(b, tables) && Encodes(args, ns)
    ensures var t, b' := b.screen.term, Sent(b, CSI + args + [64], tables);
            && b'.parser.state == Ground && b'.screen.On?
            && CursorOk(t)
            && CharactersInserted(t, b'.screen.term, Argument(ns, 0, 1))
            && SameButRows(NoWrap(t), b'.screen.term)
  {
    hide Inv, Process, Sent, Step, ArgsRead, ApplyEvent, EventOf, Argument, SameButRows, CharactersInserted;
    var t := b.screen.term;
    var p := CsiRead(b, args, ns, 64, tables);
    SizeOk(t);
    ArgIs(p, ns, 0, 1);
    CharacterFinals(p, t.rows, t.Pen(), tables);
    CsiLeaves(b, args, 64, p, ICH(Argument(ns, 0, 1)), tables);
    CharactersInsertedBy(t, Argument(ns, 0, 1));
  }

  /** ESC [ n P deletes n characters. */
  lemma DeleteCharactersSequence(b: Back, args: seq<Utf8.byte>, ns: seq<nat>, tables: Tables)
    requires Awaits(b, tables) && Encodes(args, ns)
    ensures var t, b' := b.screen.term, Sent(b, CSI + args + [80], tables);
            && b'.parser.state == Ground && b'.screen.On?
            && CursorOk(t)
            && CharactersDeleted(t, b'.screen.term, Argument(ns, 0, 1))
            && SameButRows(NoWrap(t), b'.screen.term)
  {
    hide Inv, Process, Sent, Step, ArgsRead, ApplyEvent, EventOf, Argument, SameButRows, CharactersDeleted;
    var t := b.screen.term;
    var p := CsiRead(b, args, ns, 80, tables);
    SizeOk(t);
    ArgIs(p, ns, 0, 1);
    CharacterFinals(p, t.rows, t.Pen(), tables);
    CsiLeaves(b, args, 80, p, DCH(Argument(ns, 0, 1)), tables);
    CharactersDeletedBy(t, Argument(ns, 0, 1));
  }

  /** ESC [ n L inserts n lines. */
  lemma InsertLinesSequence(b: Back, args: seq<Utf8.byte>, ns: seq<nat>, tables: Tables)
    requires Awaits(b, tables) && Encodes(args, ns)
    ensures var t, b' := b.screen.term, Sent(b, CSI + args + [76], tables);
            && b'.parser.state == Ground && b'.screen.On?
            && MovedDown(t, b'.screen.term, t.row, Argument(ns, 0, 1))
            && SameButRows(t, b'.screen.term)
  {
    hide Inv, Process, Sent, Step, ArgsRead, ApplyEvent, EventOf, Argument, SameButRows, MovedDown;
    var t := b.screen.term;
    var p := CsiRead(b, args, ns, 76, tables);
    SizeOk(t);
    ArgIs(p, ns, 0, 1);
    LineFinals(p, t.rows, t.Pen(), tables);
    CsiLeaves(b, args, 76, p, IL(Argument(ns, 0, 1)), tables);
    LinesInsertedBy(t, Argument(ns, 0, 1));
  }

  /** ESC [ n M deletes n lines. */
  lemma DeleteLinesSequence(b: Back, args: seq<Utf8.byte>, ns: seq<nat>, tables: Tables)
    requires Awaits(b, tables) && Encodes(args, ns)
    ensures var t, b' := b.screen.term, Sent(b, CSI + args + [77], tables);
            && b'.parser.state == Ground && b'.screen.On?
            && LinesDeleted(t, b'.screen.term, Argument(ns, 0, 1))
            && SameButRows(NoWrap(t), b'.screen.term)
  {
    hide Inv, Process, Sent, Step, ArgsRead, ApplyEvent, EventOf, Argument, SameButRows, LinesDeleted;
    var t := b.screen.term;
    var p := CsiRead(b, args, ns, 77, tables);
    SizeOk(t);
    ArgIs(p, ns, 0, 1);
    LineFinals(p, t.rows, t.Pen(), tables);
    CsiLeaves(b, args, 77, p, DL(Argument(ns, 0, 1)), tables);
    LinesDeletedBy(t, Argument(ns, 0, 1));
  }

  /** ESC [ n S scrolls up. */
  lemma ScrollUpSequence(b: Back, args: seq<Utf8.byte>, ns: seq<nat>, tables: Tables)
    requires Awaits(b, tables) && Encodes(args, ns)
    ensures var t, b' := b.screen.term, Sent(b, CSI + args + [83], tables);
            && b'.parser.state == Ground && b'.screen.On?
            && ScrolledUp(t, b'.screen.term, Argument(ns, 0, 1))
            && SameButRows(t, b'.screen.term)
  {
    hide Inv, Process, Sent, Step, ArgsRead, ApplyEvent, EventOf, Argument, SameButRows, ScrolledUp;
    var t := b.screen.term;
    var p := CsiRead(b, args, ns, 83, tables);
    SizeOk(t);
    ArgIs(p, ns, 0, 1);
    LineFinals(p, t.rows, t.Pen(), tables);
    CsiLeaves(b, args, 83, p, SU(Argument(ns, 0, 1)), tables);
    ScrolledUpBy(t, Argument(ns, 0, 1));
  }

  /** ESC [ n T, with at most one argument, scrolls down. */
  lemma ScrollDownSequence(b: Back, args: seq<Utf8.byte>, ns: seq<nat>, tables: Tables)
    requires Awaits(b, tables) && Encodes(args, ns) && |ns| <= 1
    ensures var t, b' := b.screen.term, Sent(b, CSI + args + [84], tables);
            && b'.parser.state == Ground && b'.screen.On?
            && MovedDown(t, b'.screen.term, t.top, Argument(ns, 0, 1))
            && SameButRows(t, b'.screen.term)
  {
    hide Inv, Process, Sent, Step, ArgsRead, ApplyEvent, EventOf, Argument, SameButRows, MovedDown;
    var t := b.screen.term;
    var p := CsiRead(b, args, ns, 84, tables);
    SizeOk(t);
    ArgIs(p, ns, 0, 1);
    LineFinals(p, t.rows, t.Pen(), tables);
    OneArgument(p, ns);
    CsiLeaves(b, args, 84, p, SD(Argument(ns, 0, 1)), tables);
    ScrolledDownBy(t, Argument(ns, 0, 1));
  }

  // ----- The cursor -----

  /** The same for operations in 32-bit arithmetic. */
  lemma CsiLeavesInt(b: Back, args: seq<Utf8.byte>, final: Utf8.byte, p: Parser, op: Op, tables: Tables)
    requires Awaits(b, tables) && BackOk(Back(p, b.screen)) && p.state == Csi && Simple(op)
    requires 0 <= b.screen.term.rows && Legal(b.screen.term, op) && IntStep(b.screen.term, op).Some?
    requires Process(p, CodeOf(final), b.screen.term.rows, b.screen.term.Pen(), tables) == (p.(state := Ground), [op])
    requires Sent(b, CSI + args + [final], tables) == ApplyEvent(Back(p, b.screen), EventOf(final), tables)
    ensures Leaves(b, CSI + args + [final], tables, IntStep(b.screen.term, op).value)
  {
    hide Inv, ParserOk, ApplyEvent, EventOf, Process, Step, Sent, CodeOf, IntStep;
    LastSent(Back(p, b.screen), final, op, tables);
  }

  lemma IntStepIs(t: Term, op: Op)
    requires Inv(t) && IntSized(t) && IntArgument(op) && (op.CUD? || op.CUF?) && !Derails(t, op)
    ensures Legal(t, op) && IntStep(t, op) == Some(Step(t, op))
  {
    hide Inv, Step, IntStep;
    IntStepIsStep(t, op);
  }

  /** Positions in the region, in 32-bit arithmetic. */
  lemma IntRegionMoves(t: Term, op: Op)
    requires Inv(t) && IntSized(t) && IntArgument(op) && (op.CUP? || op.CNL? || op.VPR?)
    ensures Legal(t, op) && IntStep(t, op).Some?
    ensures var t' := IntStep(t, op).value;
            Moved(t, t') && IsIntLine(t, WantedLine(t, op), t'.row) && IsColumn(t, WantedColumn(t, op), t'.col)
  {
    hide Inv, Step, IntPosition, ToInt, Moved, IsIntLine, IsColumn;
    Bounds(t);
    IntIs(WantedLine(t, op));
    IntPositionReached(t, WantedColumn(t, op), WantedLine(t, op));
  }

  lemma IntIs(n: int)
    ensures -1 <= n <= MAX_INT ==> ToInt(n) == n
  {
  }

  lemma ArgumentIsInt(args: seq<Utf8.byte>, ns: seq<nat>, i: nat)
    requires Encodes(args, ns)
    ensures 1 <= Argument(ns, i, 1) <= MAX_INT
  {
  }

  lemma UpFinals(p: Parser, rows: nat, pen: Style, tables: Tables)
    requires ParserOk(p) && TablesOk(tables) && p.state == Csi
    ensures CodeOf(65) == 65 && Process(p, 65, rows, pen, tables) == (p.(state := Ground), [CUU(Arg(p, 0, 1))])
    ensures CodeOf(68) == 68 && Process(p, 68, rows, pen, tables) == (p.(state := Ground), [CUB(Arg(p, 0, 1))])
    ensures CodeOf(71) == 71 && Process(p, 71, rows, pen, tables) == (p.(state := Ground), [CHA(Arg(p, 0, 1))])
    ensures CodeOf(100) == 100 && Process(p, 100, rows, pen, tables) == (p.(state := Ground), [VPA(Arg(p, 0, 1))])
  {
    hide Arg, ParserOk;
  }

  lemma DownFinals(p: Parser, rows: nat, pen: Style, tables: Tables)
    requires ParserOk(p) && TablesOk(tables) && p.state == Csi
    ensures CodeOf(66) == 66 && Process(p, 66, rows, pen, tables) == (p.(state := Ground), [CUD(Arg(p, 0, 1))])
    ensures CodeOf(67) == 67 && Process(p, 67, rows, pen, tables) == (p.(state := Ground), [CUF(Arg(p, 0, 1))])
    ensures CodeOf(97) == 97 && Process(p, 97, rows, pen, tables) == (p.(state := Ground), [CUF(Arg(p, 0, 1))])
  {
    hide Arg, ParserOk;
  }

  lemma RegionFinals(p: Parser, rows: nat, pen: Style, tables: Tables)
    requires ParserOk(p) && TablesOk(tables) && p.state == Csi
    ensures CodeOf(70) == 70 && Process(p, 70, rows, pen, tables) == (p.(state := Ground), [CPL(Arg(p, 0, 1))])
    ensures CodeOf(96) == 96 && Process(p, 96, rows, pen, tables) == (p.(state := Ground), [HPA(Arg(p, 0, 1))])
    ensures CodeOf(69) == 69 && Process(p, 69, rows, pen, tables) == (p.(state := Ground), [CNL(Arg(p, 0, 1))])
    ensures CodeOf(101) == 101 && Process(p, 101, rows, pen, tables) == (p.(state := Ground), [VPR(Arg(p, 0, 1))])
  {
    hide Arg, ParserOk;
  }

  lemma PositionFinals(p: Parser, rows: nat, pen: Style, tables: Tables)
    requires ParserOk(p) && TablesOk(tables) && p.state == Csi
    ensures CodeOf(72) == 72
    ensures Process(p, 72, rows, pen, tables) == (p.(state := Ground), [CUP(Arg(p, 0, 1), Arg(p, 1, 1))])
    ensures CodeOf(102) == 102
    ensures Process(p, 102, rows, pen, tables) == (p.(state := Ground), [CUP(Arg(p, 0, 1), Arg(p, 1, 1))])
    ensures CodeOf(114) == 114
    ensures Process(p, 114, rows, pen, tables) == (p.(state := Ground), [DECSTBM(Arg(p, 0, 1), Arg(p, 1, rows))])
  {
    hide Arg, ParserOk;
  }

  /** ESC [ n A: n lines up. */
  lemma UpSequence(b: Back, args: seq<Utf8.byte>, ns: seq<nat>, tables: Tables)
    requires Awaits(b, tables) && Encodes(args, ns)
    ensures var t, b' := b.screen.term, Sent(b, CSI + args + [65], tables);
            && b'.parser.state == Ground && b'.screen.On?
            && Moved(t, b'.screen.term)
            && GoesPlainly(t, CUU(Argument(ns, 0, 1)), b'.screen.term.row, b'.screen.term.col)
  {
    hide Inv, Process, Sent, Step, ArgsRead, ApplyEvent, EventOf, Argument, Moved, GoesPlainly;
    var t := b.screen.term;
    var p := CsiRead(b, args, ns, 65, tables);
    SizeOk(t);
    ArgIs(p, ns, 0, 1);
    UpFinals(p, t.rows, t.Pen(), tables);
    CsiLeaves(b, args, 65, p, CUU(Argument(ns, 0, 1)), tables);
    PlainMoves(t, CUU(Argument(ns, 0, 1)));
  }

  /** ESC [ n D: n columns to the left. */
  lemma LeftSequence(b: Back, args: seq<Utf8.byte>, ns: seq<nat>, tables: Tables)
    requires Awaits(b, tables) && Encodes(args, ns)
    ensures var t, b' := b.screen.term, Sent(b, CSI + args + [68], tables);
            && b'.parser.state == Ground && b'.screen.On?
            && Moved(t, b'.screen.term)
            && GoesPlainly(t, CUB(Argument(ns, 0, 1)), b'.screen.term.row, b'.screen.term.col)
  {
    hide Inv, Process, Sent, Step, ArgsRead, ApplyEvent, EventOf, Argument, Moved, GoesPlainly;
    var t := b.screen.term;
    var p := CsiRead(b, args, ns, 68, tables);
    SizeOk(t);
    ArgIs(p, ns, 0, 1);
    UpFinals(p, t.rows, t.Pen(), tables);
    CsiLeaves(b, args, 68, p, CUB(Argument(ns, 0, 1)), tables);
    PlainMoves(t, CUB(Argument(ns, 0, 1)));
  }

  /** ESC [ n G: to column n. */
  lemma ToColumnSequence(b: Back, args: seq<Utf8.byte>, ns: seq<nat>, tables: Tables)
    requires Awaits(b, tables) && Encodes(args, ns)
    ensures var t, b' := b.screen.term, Sent(b, CSI + args + [71], tables);
            && b'.parser.state == Ground && b'.screen.On?
            && Moved(t, b'.screen.term)
            && GoesPlainly(t, CHA(Argument(ns, 0, 1)), b'.screen.term.row, b'.screen.term.col)
  {
    hide Inv, Process, Sent, Step, ArgsRead, ApplyEvent, EventOf, Argument, Moved, GoesPlainly;
    var t := b.screen.term;
    var p := CsiRead(b, args, ns, 71, tables);
    SizeOk(t);
    ArgIs(p, ns, 0, 1);
    UpFinals(p, t.rows, t.Pen(), tables);
    CsiLeaves(b, args, 71, p, CHA(Argument(ns, 0, 1)), tables);
    PlainMoves(t, CHA(Argument(ns, 0, 1)));
  }

  /** ESC [ n d: to line n of the screen. */
  lemma ToLineSequence(b: Back, args: seq<Utf8.byte>, ns: seq<nat>, tables: Tables)
    requires Awaits(b, tables) && Encodes(args, ns)
    ensures var t, b' := b.screen.term, Sent(b, CSI + args + [100], tables);
            && b'.parser.state == Ground && b'.screen.On?
            && Moved(t, b'.screen.term)
            && GoesPlainly(t, VPA(Argument(ns, 0, 1)), b'.screen.term.row, b'.screen.term.col)
  {
    hide Inv, Process, Sent, Step, ArgsRead, ApplyEvent, EventOf, Argument, Moved, GoesPlainly;
    var t := b.screen.term;
    var p := CsiRead(b, args, ns, 100, tables);
    SizeOk(t);
    ArgIs(p, ns, 0, 1);
    UpFinals(p, t.rows, t.Pen(), tables);
    CsiLeaves(b, args, 100, p, VPA(Argument(ns, 0, 1)), tables);
    PlainMoves(t, VPA(Argument(ns, 0, 1)));
  }

  /** ESC [ n B: n lines down, if the sum is an int. */
  lemma LinesDownSequence(b: Back, args: seq<Utf8.byte>, ns: seq<nat>, tables: Tables)
    requires Awaits(b, tables) && Encodes(args, ns) && IntSized(b.screen.term)
    requires !Derails(b.screen.term, CUD(Argument(ns, 0, 1)))
    ensures var t, b' := b.screen.term, Sent(b, CSI + args + [66], tables);
            && b'.parser.state == Ground && b'.screen.On?
            && Moved(t, b'.screen.term)
            && GoesPlainly(t, CUD(Argument(ns, 0, 1)), b'.screen.term.row, b'.screen.term.col)
  {
    hide Inv, Process, Sent, Step, ArgsRead, ApplyEvent, EventOf, Argument, Moved, GoesPlainly, Derails, IntStep;
    var t := b.screen.term;
    var p := CsiRead(b, args, ns, 66, tables);
    SizeOk(t);
    ArgIs(p, ns, 0, 1);
    DownFinals(p, t.rows, t.Pen(), tables);
    ArgumentIsInt(args, ns, 0);
    IntStepIs(t, CUD(Argument(ns, 0, 1)));
    CsiLeavesInt(b, args, 66, p, CUD(Argument(ns, 0, 1)), tables);
    PlainMoves(t, CUD(Argument(ns, 0, 1)));
  }

  /** ESC [ n C: n columns to the right, if the sum is an int. */
  lemma RightSequence(b: Back, args: seq<Utf8.byte>, ns: seq<nat>, tables: Tables)
    requires Awaits(b, tables) && Encodes(args, ns) && IntSized(b.screen.term)
    requires !Derails(b.screen.term, CUF(Argument(ns, 0, 1)))
    ensures var t, b' := b.screen.term, Sent(b, CSI + args + [67], tables);
            && b'.parser.state == Ground && b'.screen.On?
            && Moved(t, b'.screen.term)
            && GoesPlainly(t, CUF(Argument(ns, 0, 1)), b'.screen.term.row, b'.screen.term.col)
  {
    hide Inv, Process, Sent, Step, ArgsRead, ApplyEvent, EventOf, Argument, Moved, GoesPlainly, Derails, IntStep;
    var t := b.screen.term;
    var p := CsiRead(b, args, ns, 67, tables);
    SizeOk(t);
    ArgIs(p, ns, 0, 1);
    DownFinals(p, t.rows, t.Pen(), tables);
    ArgumentIsInt(args, ns, 0);
    IntStepIs(t, CUF(Argument(ns, 0, 1)));
    CsiLeavesInt(b, args, 67, p, CUF(Argument(ns, 0, 1)), tables);
    PlainMoves(t, CUF(Argument(ns, 0, 1)));
  }

  /** ESC [ n a does the same. */
  lemma RelativeRightSequence(b: Back, args: seq<Utf8.byte>, ns: seq<nat>, tables: Tables)
    requires Awaits(b, tables) && Encodes(args, ns) && IntSized(b.screen.term)
    requires !Derails(b.screen.term, CUF(Argument(ns, 0, 1)))
    ensures var t, b' := b.screen.term, Sent(b, CSI + args + [97], tables);
            && b'.parser.state == Ground && b'.screen.On?
            && Moved(t, b'.screen.term)
            && GoesPlainly(t, CUF(Argument(ns, 0, 1)), b'.screen.term.row, b'.screen.term.col)
  {
    hide Inv, Process, Sent, Step, ArgsRead, ApplyEvent, EventOf, Argument, Moved, GoesPlainly, Derails, IntStep;
    var t := b.screen.term;
    var p := CsiRead(b, args, ns, 97, tables);
    SizeOk(t);
    ArgIs(p, ns, 0, 1);
    DownFinals(p, t.rows, t.Pen(), tables);
    ArgumentIsInt(args, ns, 0);
    IntStepIs(t, CUF(Argument(ns, 0, 1)));
    CsiLeavesInt(b, args, 97, p, CUF(Argument(ns, 0, 1)), tables);
    PlainMoves(t, CUF(Argument(ns, 0, 1)));
  }

  /** ESC [ n F: to the beginning of the n-th line before, counted in the region. */
  lemma PreviousLineSequence(b: Back, args: seq<Utf8.byte>, ns: seq<nat>, tables: Tables)
    requires Awaits(b, tables) && Encodes(args, ns)
    ensures var t, b' := b.screen.term, Sent(b, CSI + args + [70], tables);
            && b'.parser.state == Ground && b'.screen.On?
            && Moved(t, b'.screen.term)
            && IsLine(t, WantedLine(t, CPL(Argument(ns, 0, 1))), b'.screen.term.row)
            && IsColumn(t, WantedColumn(t, CPL(Argument(ns, 0, 1))), b'.screen.term.col)
  {
    hide Inv, Process, Sent, Step, ArgsRead, ApplyEvent, EventOf, Argument, Moved, IsLine, IsColumn;
    var t := b.screen.term;
    var p := CsiRead(b, args, ns, 70, tables);
    SizeOk(t);
    ArgIs(p, ns, 0, 1);
    RegionFinals(p, t.rows, t.Pen(), tables);
    CsiLeaves(b, args, 70, p, CPL(Argument(ns, 0, 1)), tables);
    RegionMoves(t, CPL(Argument(ns, 0, 1)));
  }

  /** ESC [ n `: to column n, which in origin mode also changes the line. */
  lemma ToColumnInRegionSequence(b: Back, args: seq<Utf8.byte>, ns: seq<nat>, tables: Tables)
    requires Awaits(b, tables) && Encodes(args, ns)
    ensures var t, b' := b.screen.term, Sent(b, CSI + args + [96], tables);
            && b'.parser.state == Ground && b'.screen.On?
            && Moved(t, b'.screen.term)
            && IsLine(t, WantedLine(t, HPA(Argument(ns, 0, 1))), b'.screen.term.row)
            && IsColumn(t, WantedColumn(t, HPA(Argument(ns, 0, 1))), b'.screen.term.col)
  {
    hide Inv, Process, Sent, Step, ArgsRead, ApplyEvent, EventOf, Argument, Moved, IsLine, IsColumn;
    var t := b.screen.term;
    var p := CsiRead(b, args, ns, 96, tables);
    SizeOk(t);
    ArgIs(p, ns, 0, 1);
    RegionFinals(p, t.rows, t.Pen(), tables);
    CsiLeaves(b, args, 96, p, HPA(Argument(ns, 0, 1)), tables);
    RegionMoves(t, HPA(Argument(ns, 0, 1)));
  }

  /** ESC [ n E: to the beginning of the n-th line after, counted in the region. */
  lemma NextLineSequence(b: Back, args: seq<Utf8.byte>, ns: seq<nat>, tables: Tables)
    requires Awaits(b, tables) && Encodes(args, ns) && IntSized(b.screen.term)
    ensures var t, b' := b.screen.term, Sent(b, CSI + args + [69], tables);
            && b'.parser.state == Ground && b'.screen.On?
            && Moved(t, b'.screen.term)
            && IsIntLine(t, WantedLine(t, CNL(Argument(ns, 0, 1))), b'.screen.term.row)
            && IsColumn(t, WantedColumn(t, CNL(Argument(ns, 0, 1))), b'.screen.term.col)
  {
    hide Inv, Process, Sent, Step, ArgsRead, ApplyEvent, EventOf, Argument, Moved, IsIntLine, IsColumn, IntStep;
    var t := b.screen.term;
    var p := CsiRead(b, args, ns, 69, tables);
    SizeOk(t);
    ArgIs(p, ns, 0, 1);
    RegionFinals(p, t.rows, t.Pen(), tables);
    ArgumentIsInt(args, ns, 0);
    ArgumentIsInt(args, ns, 1);
    IntRegionMoves(t, CNL(Argument(ns, 0, 1)));
    CsiLeavesInt(b, args, 69, p, CNL(Argument(ns, 0, 1)), tables);
  }

  /** ESC [ n e: n lines down, counted in the region. */
  lemma RelativeLineSequence(b: Back, args: seq<Utf8.byte>, ns: seq<nat>, tables: Tables)
    requires Awaits(b, tables) && Encodes(args, ns) && IntSized(b.screen.term)
    ensures var t, b' := b.screen.term, Sent(b, CSI + args + [101], tables);
            && b'.parser.state == Ground && b'.screen.On?
            && Moved(t, b'.screen.term)
            && IsIntLine(t, WantedLine(t, VPR(Argument(ns, 0, 1))), b'.screen.term.row)
            && IsColumn(t, WantedColumn(t, VPR(Argument(ns, 0, 1))), b'.screen.term.col)
  {
    hide Inv, Process, Sent, Step, ArgsRead, ApplyEvent, EventOf, Argument, Moved, IsIntLine, IsColumn, IntStep;
    var t := b.screen.term;
    var p := CsiRead(b, args, ns, 101, tables);
    SizeOk(t);
    ArgIs(p, ns, 0, 1);
    RegionFinals(p, t.rows, t.Pen(), tables);
    ArgumentIsInt(args, ns, 0);
    ArgumentIsInt(args, ns, 1);
    IntRegionMoves(t, VPR(Argument(ns, 0, 1)));
    CsiLeavesInt(b, args, 101, p, VPR(Argument(ns, 0, 1)), tables);
  }

  /** ESC [ y ; x H: to line y of the region and column x. */
  lemma PositionSequence(b: Back, args: seq<Utf8.byte>, ns: seq<nat>, tables: Tables)
    requires Awaits(b, tables) && Encodes(args, ns) && IntSized(b.screen.term)
    ensures var t, b' := b.screen.term, Sent(b, CSI + args + [72], tables);
            && b'.parser.state == Ground && b'.screen.On?
            && Moved(t, b'.screen.term)
            && IsIntLine(t, WantedLine(t, CUP(Argument(ns, 0, 1), Argument(ns, 1, 1))), b'.screen.term.row)
            && IsColumn(t, WantedColumn(t, CUP(Argument(ns, 0, 1), Argument(ns, 1, 1))), b'.screen.term.col)
  {
    hide Inv, Process, Sent, Step, ArgsRead, ApplyEvent, EventOf, Argument, Moved, IsIntLine, IsColumn, IntStep;
    var t := b.screen.term;
    var p := CsiRead(b, args, ns, 72, tables);
    SizeOk(t);
    ArgIs(p, ns, 0, 1);
    ArgIs(p, ns, 1, 1);
    PositionFinals(p, t.rows, t.Pen(), tables);
    ArgumentIsInt(args, ns, 0);
    ArgumentIsInt(args, ns, 1);
    IntRegionMoves(t, CUP(Argument(ns, 0, 1), Argument(ns, 1, 1)));
    CsiLeavesInt(b, args, 72, p, CUP(Argument(ns, 0, 1), Argument(ns, 1, 1)), tables);
  }

  /** ESC [ y ; x f does the same. */
  lemma OtherPositionSequence(b: Back, args: seq<Utf8.byte>, ns: seq<nat>, tables: Tables)
    requires Awaits(b, tables) && Encodes(args, ns) && IntSized(b.screen.term)
    ensures var t, b' := b.screen.term, Sent(b, CSI + args + [102], tables);
            && b'.parser.state == Ground && b'.screen.On?
            && Moved(t, b'.screen.term)
            && IsIntLine(t, WantedLine(t, CUP(Argument(ns, 0, 1), Argument(ns, 1, 1))), b'.screen.term.row)
            && IsColumn(t, WantedColumn(t, CUP(Argument(ns, 0, 1), Argument(ns, 1, 1))), b'.screen.term.col)
  {
    hide Inv, Process, Sent, Step, ArgsRead, ApplyEvent, EventOf, Argument, Moved, IsIntLine, IsColumn, IntStep;
    var t := b.screen.term;
    var p := CsiRead(b, args, ns, 102, tables);
    SizeOk(t);
    ArgIs(p, ns, 0, 1);
    ArgIs(p, ns, 1, 1);
    PositionFinals(p, t.rows, t.Pen(), tables);
    ArgumentIsInt(args, ns, 0);
    ArgumentIsInt(args, ns, 1);
    IntRegionMoves(t, CUP(Argument(ns, 0, 1), Argument(ns, 1, 1)));
    CsiLeavesInt(b, args, 102, p, CUP(Argument(ns, 0, 1), Argument(ns, 1, 1)), tables);
  }

  /** ESC [ y1 ; y2 r: the region from line y1 to line y2, and the cursor to its beginning or that of the screen. */
  lemma MarginsSequence(b: Back, args: seq<Utf8.byte>, ns: seq<nat>, tables: Tables)
    requires Awaits(b, tables) && Encodes(args, ns)
    ensures var t, b' := b.screen.term, Sent(b, CSI + args + [114], tables);
            && b'.parser.state == Ground && b'.screen.On?
            && AreMargins(t, Argument(ns, 0, 1), Argument(ns, 1, t.rows), b'.screen.term.top, b'.screen.term.bottom)
            && b'.screen.term == t.(top := b'.screen.term.top, bottom := b'.screen.term.bottom,
                                    row := b'.screen.term.row,
                                    col := 0, aboutToWrap := false)
            && b'.screen.term.row == if t.origin then b'.screen.term.top else 0
  {
    hide Inv, Process, Sent, Step, ArgsRead, ApplyEvent, EventOf, Argument, AreMargins;
    var t := b.screen.term;
    var p := CsiRead(b, args, ns, 114, tables);
    SizeOk(t);
    ArgIs(p, ns, 0, 1);
    ArgIs(p, ns, 1, t.rows);
    PositionFinals(p, t.rows, t.Pen(), tables);
    CsiLeaves(b, args, 114, p, DECSTBM(Argument(ns, 0, 1), Argument(ns, 1, t.rows)), tables);
    MarginsSet(t, Argument(ns, 0, 1), Argument(ns, 1, t.rows));
  }

  // ----- Tab stops and modes -----

  lemma TabFinals(p: Parser, rows: nat, pen: Style, tables: Tables)
    requires ParserOk(p) && TablesOk(tables) && p.state == Csi
    ensures CodeOf(73) == 73 && Process(p, 73, rows, pen, tables) == (p.(state := Ground), [CHT(Arg(p, 0, 1))])
    ensures CodeOf(90) == 90 && Process(p, 90, rows, pen, tables) == (p.(state := Ground), [CBT(Arg(p, 0, 1))])
    ensures CodeOf(103) == 103 && Process(p, 103, rows, pen, tables) == (p.(state := Ground), [TBC(Arg(p, 0, 0))])
  {
    hide Arg, ParserOk;
  }

  /** ESC [ n I: to the n-th tab stop to the right. */
  lemma ForwardTabsSequence(b: Back, args: seq<Utf8.byte>, ns: seq<nat>, tables: Tables)
    requires Awaits(b, tables) && Encodes(args, ns)
    ensures var t, b' := b.screen.term, Sent(b, CSI + args + [73], tables);
            && b'.parser.state == Ground && b'.screen.On?
            && b'.screen.term == t.(col := b'.screen.term.col, aboutToWrap := false)
            && |t.tabs| == t.cols && 0 <= t.col && IsNextStop(t, Argument(ns, 0, 1), b'.screen.term.col)
  {
    hide Inv, Process, Sent, Step, ArgsRead, ApplyEvent, EventOf, Argument, IsNextStop;
    var t := b.screen.term;
    var p := CsiRead(b, args, ns, 73, tables);
    SizeOk(t);
    ArgIs(p, ns, 0, 1);
    TabFinals(p, t.rows, t.Pen(), tables);
    CsiLeaves(b, args, 73, p, CHT(Argument(ns, 0, 1)), tables);
    ArgumentIsInt(args, ns, 0);
    TabbedBy(t, Argument(ns, 0, 1));
  }

  /** ESC [ n Z: to the n-th tab stop to the left. */
  lemma BackTabsSequence(b: Back, args: seq<Utf8.byte>, ns: seq<nat>, tables: Tables)
    requires Awaits(b, tables) && Encodes(args, ns)
    ensures var t, b' := b.screen.term, Sent(b, CSI + args + [90], tables);
            && b'.parser.state == Ground && b'.screen.On?
            && b'.screen.term == t.(col := b'.screen.term.col)
            && |t.tabs| == t.cols && 0 <= t.col <= t.cols && IsPreviousStop(t, Argument(ns, 0, 1), b'.screen.term.col)
  {
    hide Inv, Process, Sent, Step, ArgsRead, ApplyEvent, EventOf, Argument, IsPreviousStop;
    var t := b.screen.term;
    var p := CsiRead(b, args, ns, 90, tables);
    SizeOk(t);
    ArgIs(p, ns, 0, 1);
    TabFinals(p, t.rows, t.Pen(), tables);
    CsiLeaves(b, args, 90, p, CBT(Argument(ns, 0, 1)), tables);
    ArgumentIsInt(args, ns, 0);
    TabbedBy(t, Argument(ns, 0, 1));
  }

  /** ESC [ n g: clears the tab stop of the cursor column, or all of them. */
  lemma ClearTabsSequence(b: Back, args: seq<Utf8.byte>, ns: seq<nat>, tables: Tables)
    requires Awaits(b, tables) && Encodes(args, ns)
    ensures var t, b' := b.screen.term, Sent(b, CSI + args + [103], tables);
            && b'.parser.state == Ground && b'.screen.On?
            && 0 <= t.col < |t.tabs|
              && ModeChanged(t, TBC(Argument(ns, 0, 0)), b'.screen.term)
  {
    hide Inv, Process, Sent, Step, ArgsRead, ApplyEvent, EventOf, Argument, ModeChanged;
    var t := b.screen.term;
    var p := CsiRead(b, args, ns, 103, tables);
    SizeOk(t);
    ArgIs(p, ns, 0, 0);
    TabFinals(p, t.rows, t.Pen(), tables);
    CsiLeaves(b, args, 103, p, TBC(Argument(ns, 0, 0)), tables);
    ModeChangedBy(t, TBC(Argument(ns, 0, 0)));
  }

  lemma InsertFinals(p: Parser, rows: nat, pen: Style, tables: Tables)
    requires ParserOk(p) && TablesOk(tables) && p.state == Csi && Arg(p, 0, 0) == 4
    ensures CodeOf(104) == 104 && Process(p, 104, rows, pen, tables) == (p.(state := Ground), [IRM(true)])
    ensures CodeOf(108) == 108 && Process(p, 108, rows, pen, tables) == (p.(state := Ground), [IRM(false)])
  {
    hide Arg, ParserOk;
  }

  /** ESC [ 4 h and ESC [ 4 l: insert mode on and off. */
  lemma InsertModeSequence(b: Back, args: seq<Utf8.byte>, ns: seq<nat>, set': bool, tables: Tables)
    requires Awaits(b, tables) && Encodes(args, ns) && Argument(ns, 0, 0) == 4
    ensures var t, b' := b.screen.term, Sent(b, CSI + args + [if set' then 104 else 108], tables);
            && b'.parser.state == Ground && b'.screen.On?
            && b'.screen.term == t.(insert := set')
  {
    hide Inv, Process, Sent, Step, ArgsRead, ApplyEvent, EventOf, Argument;
    var t, final: Utf8.byte := b.screen.term, if set' then 104 else 108;
    var p := CsiRead(b, args, ns, final, tables);
    SizeOk(t);
    ArgIs(p, ns, 0, 0);
    InsertFinals(p, t.rows, t.Pen(), tables);
    CsiLeaves(b, args, final, p, IRM(set'), tables);
    ModeChangedBy(t, IRM(set'));
  }

  lemma GivenIs(p: Parser, ns: seq<nat>)
    requires ArgsRead(p, ns) && ns != []
    ensures Given(p) == ns
  {
  }

  lemma StyleFinal(p: Parser, rows: nat, pen: Style, tables: Tables)
    requires ParserOk(p) && TablesOk(tables) && p.state == Csi
    ensures var style := tables.sgr(Given(p), pen);
            && CodeOf(109) == 109
            && Process(p, 109, rows, pen, tables) == (p.(state := Ground), [SGR(style.fore, style.back, style.effect)])
  {
    hide Arg, ParserOk, Given;
  }

  /** ESC [ ns m: the style becomes what the table of attributes makes of it. */
  lemma StyleSequence(b: Back, args: seq<Utf8.byte>, ns: seq<nat>, tables: Tables)
    requires Awaits(b, tables) && Encodes(args, ns) && ns != []
    ensures var t, b' := b.screen.term, Sent(b, CSI + args + [109], tables);
            && b'.parser.state == Ground && b'.screen.On? && b'.screen.term.Pen() == tables.sgr(ns, t.Pen())
            && b'.screen.term == t.(fore := b'.screen.term.fore, back := b'.screen.term.back,
                                    effect := b'.screen.term.effect)
  {
    hide Inv, Process, Sent, Step, ArgsRead, ApplyEvent, EventOf, Given;
    var t := b.screen.term;
    var p := CsiRead(b, args, ns, 109, tables);
    SizeOk(t);
    GivenIs(p, ns);
    StyleFinal(p, t.rows, t.Pen(), tables);
    var style := tables.sgr(Given(p), t.Pen());
    CsiLeaves(b, args, 109, p, SGR(style.fore, style.back, style.effect), tables);
    ModeChangedBy(t, SGR(style.fore, style.back, style.effect));
  }

  // ----- Private modes -----

  lemma QuestionMark(p: Parser, rows: nat, pen: Style, tables: Tables)
    requires ParserOk(p) && TablesOk(tables) && p.state == Csi
    ensures CodeOf(63) == 63 && Process(p, 63, rows, pen, tables) == (p.(state := Question), [])
  {
  }

  /** A private sequence up to its final character. */
  lemma PrivateRead(b: Back, args: seq<Utf8.byte>, ns: seq<nat>, final: Utf8.byte, tables: Tables) returns (p: Parser)
    requires Awaits(b, tables) && Encodes(args, ns)
    ensures p.state == Question && ArgsRead(p, ns) && BackOk(Back(p, b.screen))
    ensures Sent(b, PRIVATE + args + [final], tables) == ApplyEvent(Back(p, b.screen), EventOf(final), tables)
  {
    hide Inv, ParserOk, ApplyEvent, ApplyEvents, EventOf, ParseArgs, Codes, Numbers, Sent, Process;
    SizeOk(b.screen.term);
    ApplyIntroducer(b, tables);
    IsSent(b, CSI, tables);
    var b1 := Sent(b, CSI, tables);
    QuestionMark(b1.parser, b.screen.term.rows, b.screen.term.Pen(), tables);
    ApplySilent(b1, 63, b1.parser.(state := Question), tables);
    SentJust(b1, 63, tables);
    SentConcat(b, CSI, [63], tables);
    assert CSI + [63] == PRIVATE;
    var b2 := Sent(b, PRIVATE, tables);
    NumberChars(ns);
    ApplyArgs(b2, args, tables);
    IsSent(b2, args, tables);
    ReadsArgs(b2.parser, args, ns);
    SentConcat(b, PRIVATE + args, [final], tables);
    SentConcat(b, PRIVATE, args, tables);
    p := ParseArgs(b2.parser, Codes(args));
    SentJust(Back(p, b.screen), final, tables);
  }

  /** One private mode. */
  lemma ModeFinals(p: Parser, n: nat, op: Op, set': bool, rows: nat, pen: Style, tables: Tables)
    requires ParserOk(p) && TablesOk(tables) && p.state == Question && Given(p) == [n] && n != 69
    requires ModeOps(set', n) == [op]
    ensures CodeOf(104) == 104 && CodeOf(108) == 108 && !LeftOut(p, if set' then 104 else 108)
    ensures Process(p, if set' then 104 else 108, rows, pen, tables) == (p.(state := Ground), [op])
  {
    hide Given, ModeOps;
    assert [n][..0] == [];
    assert ModesOps(set', []) == [];
    assert [] + [op] == [op];
  }

  lemma PrivateLeaves(b: Back, args: seq<Utf8.byte>, n: nat, set': bool, op: Op, tables: Tables)
    requires Awaits(b, tables) && Encodes(args, [n]) && n != 69 && ModeOps(set', n) == [op] && NoSum(op)
    ensures Legal(b.screen.term, op)
    ensures Leaves(b, PRIVATE + args + [if set' then 104 else 108], tables, Step(b.screen.term, op))
  {
    hide Inv, Process, Sent, Step, ArgsRead, ApplyEvent, EventOf, Given, LeftOut, CodeOf, IntStep, ParserOk, ModeOps;
    var t, final: Utf8.byte := b.screen.term, if set' then 104 else 108;
    SimpleMode(set', n, op);
    var p := PrivateRead(b, args, [n], final, tables);
    SizeOk(t);
    GivenIs(p, [n]);
    ModeFinals(p, n, op, set', t.rows, t.Pen(), tables);
    LastSent(Back(p, b.screen), final, op, tables);
    PlainStepped(t, op);
  }

  lemma SimpleMode(set': bool, n: nat, op: Op)
    requires ModeOps(set', n) == [op]
    ensures Simple(op)
  {
    assert AllSimple([op]);
    assert [op][0] == op;
  }

  lemma ModesFinals(p: Parser, ns: seq<nat>, set': bool, rows: nat, pen: Style, tables: Tables)
    requires ParserOk(p) && TablesOk(tables) && p.state == Question && Given(p) == ns && 69 !in ns
    ensures CodeOf(104) == 104 && CodeOf(108) == 108 && !LeftOut(p, if set' then 104 else 108)
    ensures Process(p, if set' then 104 else 108, rows, pen, tables) == (p.(state := Ground), ModesOps(set', ns))
  {
    hide Given, ModesOps;
  }

  /** Any number of private modes. */
  lemma PrivateRuns(b: Back, args: seq<Utf8.byte>, ns: seq<nat>, set': bool, tables: Tables)
    requires Awaits(b, tables) && Encodes(args, ns) && ns != [] && 69 !in ns
    ensures IntRun(b.screen.term, ModesOps(set', ns)).Some?
    ensures Leaves(b, PRIVATE + args + [if set' then 104 else 108], tables,
                   IntRun(b.screen.term, ModesOps(set', ns)).value)
  {
    hide Inv, Process, Sent, ArgsRead, ApplyEvent, EventOf, Given, LeftOut, CodeOf, IntRun, ParserOk, ModesOps;
    var t, final: Utf8.byte := b.screen.term, if set' then 104 else 108;
    var p := PrivateRead(b, args, ns, final, tables);
    SizeOk(t);
    GivenIs(p, ns);
    ModesFinals(p, ns, set', t.rows, t.Pen(), tables);
    SteadyModes(set', ns);
    SteadyRuns(t, ModesOps(set', ns));
    RunSent(Back(p, b.screen), final, ModesOps(set', ns), tables);
  }

  lemma SteadyModes(set': bool, ns: seq<nat>)
    ensures AllSimple(ModesOps(set', ns)) && AllSteady(ModesOps(set', ns))
  {
  }

  lemma RunSent(b: Back, final: Utf8.byte, ops: seq<Op>, tables: Tables)
    requires BackOk(b) && TablesOk(tables) && b.screen.On? && !LeftOut(b.parser, CodeOf(final)) && AllSimple(ops)
    requires 0 <= b.screen.term.rows && IntRun(b.screen.term, ops).Some?
    requires Process(b.parser, CodeOf(final), b.screen.term.rows, b.screen.term.Pen(), tables)
             == (b.parser.(state := Ground), ops)
    ensures ApplyEvent(b, EventOf(final), tables)
            == Back(b.parser.(state := Ground), On(IntRun(b.screen.term, ops).value))
  {
    hide Inv, ParserOk, Process, LeftOut, IntRun;
  }

  lemma {:induction false} IntRunConcat(t: Term, a: seq<Op>, b: seq<Op>)
    requires Inv(t) && AllSimple(a) && AllSimple(b) && IntRun(t, a).Some?
    ensures AllSimple(a + b) && IntRun(t, a + b) == IntRun(IntRun(t, a).value, b)
    decreases |a|
  {
    hide Inv, IntStep;
    if a == [] {
      assert a + b == b;
    } else {
      assert (a + b)[1..] == a[1..] + b && (a + b)[0] == a[0];
      IntRunConcat(IntStep(t, a[0]).value, a[1..], b);
    }
  }

  lemma LastMode(set': bool, ns: seq<nat>, n: nat)
    ensures ModesOps(set', ns + [n]) == ModesOps(set', ns) + ModesOps(set', [n])
  {
    hide ModeOps;
    assert (ns + [n])[..|ns|] == ns && [n][..0] == [];
    assert ModesOps(set', []) == [];
    assert [] + ModeOps(set', n) == ModeOps(set', n);
  }

  /** Several modes in one sequence are set one after the other. */
  lemma ModesInTurn(b: Back, args: seq<Utf8.byte>, init: seq<Utf8.byte>, last: seq<Utf8.byte>, ns: seq<nat>, n: nat,
                    set': bool, tables: Tables)
    requires Awaits(b, tables) && ns != [] && 69 !in ns && n != 69
    requires Encodes(args, ns + [n]) && Encodes(init, ns) && Encodes(last, [n])
    ensures var final: seq<Utf8.byte> := [if set' then 104 else 108];
            Sent(b, PRIVATE + args + final, tables).screen
            == Sent(Sent(b, PRIVATE + init + final, tables), PRIVATE + last + final, tables).screen
  {
    hide Inv, Sent, IntRun, ModesOps, Codes, Numbers, ParserOk;
    var final: seq<Utf8.byte> := [if set' then 104 else 108];
    var t, b1 := b.screen.term, Sent(b, PRIVATE + init + final, tables);
    PrivateRuns(b, args, ns + [n], set', tables);
    PrivateRuns(b, init, ns, set', tables);
    PrivateRuns(b1, last, [n], set', tables);
    LastMode(set', ns, n);
    SteadyModes(set', ns);
    SteadyModes(set', [n]);
    IntRunConcat(t, ModesOps(set', ns), ModesOps(set', [n]));
  }

  /** ESC [ ? 6 h and l: origin mode; when it is switched on, the cursor goes to the beginning of the region. */
  lemma OriginModeSequence(b: Back, args: seq<Utf8.byte>, set': bool, tables: Tables)
    requires Awaits(b, tables) && Encodes(args, [6])
    ensures var t, b' := b.screen.term, Sent(b, PRIVATE + args + [if set' then 104 else 108], tables);
            && b'.parser.state == Ground
            && b'.screen == On(if set' then t.(origin := true, row := t.top, col := 0, aboutToWrap := false)
                               else t.(origin := false))
  {
    hide Inv, Sent, Step;
    PrivateLeaves(b, args, 6, set', DECOM(set'), tables);
    OriginSet(b.screen.term, set');
  }

  /** ESC [ ? 7 h and l: autowrap. */
  lemma AutowrapSequence(b: Back, args: seq<Utf8.byte>, set': bool, tables: Tables)
    requires Awaits(b, tables) && Encodes(args, [7])
    ensures var t, b' := b.screen.term, Sent(b, PRIVATE + args + [if set' then 104 else 108], tables);
            b'.parser.state == Ground && b'.screen == On(t.(autowrap := set'))
  {
    hide Inv, Sent, Step;
    PrivateLeaves(b, args, 7, set', DECAWM(set'), tables);
    ModeChangedBy(b.screen.term, DECAWM(set'));
  }

  /** ESC [ ? 3 h and l: an empty screen without margins. */
  lemma ColumnModeSequence(b: Back, args: seq<Utf8.byte>, set': bool, tables: Tables)
    requires Awaits(b, tables) && Encodes(args, [3])
    ensures var t, b' := b.screen.term, Sent(b, PRIVATE + args + [if set' then 104 else 108], tables);
            && b'.parser.state == Ground && b'.screen.On? && AllBlank(b'.screen.term) && b'.screen.term.top == 0
            && b'.screen.term.bottom == t.rows && b'.screen.term.row == 0 && b'.screen.term.col == 0
  {
    hide Inv, Sent, Step, AllBlank;
    PrivateLeaves(b, args, 3, set', DECCOLM, tables);
    ColumnModeBy(b.screen.term);
  }

  /** ESC [ ? 1049 h, and 1047 and 47: to an empty alternate screen. */
  lemma EnterAlternateSequence(b: Back, args: seq<Utf8.byte>, n: nat, tables: Tables)
    requires Awaits(b, tables) && Encodes(args, [n]) && (n == 47 || n == 1047 || n == 1049)
    ensures var t, b' := b.screen.term, Sent(b, PRIVATE + args + [104], tables);
            && b'.parser.state == Ground && b'.screen.On? && b'.screen.term.onAlt && b'.screen.term.main == t.main
            && if t.onAlt then b'.screen.term == t
               else
                 && AllBlank(b'.screen.term) && b'.screen.term.savedMain == Save(t)
                 && (t.alt.cols == t.cols && t.alt.rows == t.rows ==>
                       b'.screen.term == t.(onAlt := true, savedMain := Save(t), alt := b'.screen.term.alt))
  {
    hide Inv, Sent, Step, AllBlank, Save;
    PrivateLeaves(b, args, n, true, AltScreen(true), tables);
    AlternateEntered(b.screen.term);
  }

  /** ESC [ ? 1049 l, and 1047 and 47: back to the main screen. */
  lemma LeaveAlternateSequence(b: Back, args: seq<Utf8.byte>, n: nat, tables: Tables)
    requires Awaits(b, tables) && Encodes(args, [n]) && (n == 47 || n == 1047 || n == 1049)
    ensures var t, b' := b.screen.term, Sent(b, PRIVATE + args + [108], tables);
            && b'.parser.state == Ground && b'.screen.On? && !b'.screen.term.onAlt && (!t.onAlt ==> b'.screen.term == t)
            && (t.onAlt && t.main.cols == t.cols && t.main.rows == t.rows ==>
                  b'.screen.term.main == t.main && Save(b'.screen.term) == t.savedMain && !b'.screen.term.aboutToWrap)
  {
    hide Inv, Sent, Step, Save;
    PrivateLeaves(b, args, n, false, AltScreen(false), tables);
    AlternateLeft(b.screen.term);
  }

  // ----- Two characters -----

  /** ESC and a character that stands for an operation. */
  lemma EscLeaves(b: Back, final: Utf8.byte, op: Op, tables: Tables)
    requires Awaits(b, tables) && Simple(op) && NoSum(op)
    requires DoEsc(Started(b.parser), CodeOf(final)) == (Started(b.parser).(state := Ground), [op])
    requires 28 <= CodeOf(final)
    ensures Legal(b.screen.term, op) && Leaves(b, [27, final], tables, Step(b.screen.term, op))
  {
    hide Inv, ParserOk, ApplyEvent, EventOf, Process, Step, Sent, CodeOf, IntStep, DoEsc;
    EscRead(b, final, tables);
    var t, p := b.screen.term, Started(b.parser);
    SizeOk(t);
    EscProcess(p, CodeOf(final), t.rows, t.Pen(), tables);
    LastSent(Back(p, b.screen), final, op, tables);
    PlainStepped(t, op);
  }

  /** The parser after ESC. */
  function Started(p: Parser): Parser
    requires ParserOk(p)
    ensures ParserOk(Started(p))
  {
    p.(state := Esc, args := NO_ARGS, argIndex := 0)
  }

  lemma EscProcess(p: Parser, c: int, rows: nat, pen: Style, tables: Tables)
    requires ParserOk(p) && TablesOk(tables) && p.state == Esc && 28 <= c
    ensures Process(p, c, rows, pen, tables) == DoEsc(p, c) && !LeftOut(p, c)
  {
    hide DoEsc;
  }

  lemma EscRead(b: Back, final: Utf8.byte, tables: Tables)
    requires Awaits(b, tables)
    ensures BackOk(Back(Started(b.parser), b.screen))
    ensures Sent(b, [27, final], tables) == ApplyEvent(Back(Started(b.parser), b.screen), EventOf(final), tables)
  {
    hide Inv, ParserOk, ApplyEvent, ApplyEvents, EventOf, Process, Sent;
    var t := b.screen.term;
    SizeOk(t);
    IntroducerCodes();
    LeadsOn(b.parser, 27, t.rows, t.Pen(), tables);
    ApplySilent(b, 27, Started(b.parser), tables);
    SentJust(b, 27, tables);
    SentConcat(b, [27], [final], tables);
    assert [27] + [final] == [27, final];
    SentJust(Back(Started(b.parser), b.screen), final, tables);
  }

  lemma EscFinals(p: Parser)
    requires ParserOk(p) && p.state == Esc
    ensures CodeOf(55) == 55 && DoEsc(p, 55) == (p.(state := Ground), [DECSC])
    ensures CodeOf(56) == 56 && DoEsc(p, 56) == (p.(state := Ground), [DECRC])
    ensures CodeOf(68) == 68 && DoEsc(p, 68) == (p.(state := Ground), [LF])
    ensures CodeOf(69) == 69 && DoEsc(p, 69) == (p.(state := Ground), [NEL])
    ensures CodeOf(77) == 77 && DoEsc(p, 77) == (p.(state := Ground), [RI])
    ensures CodeOf(99) == 99 && DoEsc(p, 99) == (p.(state := Ground), [RIS])
    ensures CodeOf(72) == 72 && DoEsc(p, 72) == (p.(state := Ground), [HTS])
    ensures CodeOf(70) == 70 && DoEsc(p, 70) == (p.(state := Ground), [LowerLeft])
  {
    hide ParserOk;
  }

  /** ESC 7 saves the cursor and what goes with it. */
  lemma SaveSequence(b: Back, tables: Tables)
    requires Awaits(b, tables)
    ensures var t, b' := b.screen.term, Sent(b, [27, 55], tables);
            && b'.parser.state == Ground && b'.screen.On?
            && SavedHere(b'.screen.term) == Save(t)
            && b'.screen.term == t.(savedMain := b'.screen.term.savedMain, savedAlt := b'.screen.term.savedAlt)
            && (if t.onAlt then b'.screen.term.savedMain == t.savedMain else b'.screen.term.savedAlt == t.savedAlt)
  {
    hide Inv, Sent, Step, DoEsc, ParserOk, CodeOf, Save;
    EscFinals(Started(b.parser));
    EscLeaves(b, 55, DECSC, tables);
    SavedBy(b.screen.term);
  }

  /** ESC 8 restores them. */
  lemma RestoreSequence(b: Back, tables: Tables)
    requires Awaits(b, tables)
    ensures var t, b' := b.screen.term, Sent(b, [27, 56], tables);
            && b'.parser.state == Ground && b'.screen.On?
            && SavedHere(b'.screen.term) == SavedHere(t)
            && Save(b'.screen.term) == SavedHere(t).(row := b'.screen.term.row, col := b'.screen.term.col)
            && !b'.screen.term.aboutToWrap
            && (0 <= SavedHere(t).row < t.rows ==> b'.screen.term.row == SavedHere(t).row)
            && (0 <= SavedHere(t).col < t.cols ==> b'.screen.term.col == SavedHere(t).col)
            && b'.screen.term.main == t.main && b'.screen.term.alt == t.alt && b'.screen.term.onAlt == t.onAlt
  {
    hide Inv, Sent, Step, DoEsc, ParserOk, CodeOf, Save, SavedHere;
    EscFinals(Started(b.parser));
    EscLeaves(b, 56, DECRC, tables);
    RestoredBy(b.screen.term);
  }

  /** ESC D goes to the next line. */
  lemma IndexSequence(b: Back, tables: Tables)
    requires Awaits(b, tables)
    ensures var t, b' := b.screen.term, Sent(b, [27, 68], tables);
            && b'.parser.state == Ground && b'.screen.On?
            && LineFed(t, b'.screen.term)
  {
    hide Inv, Sent, Step, DoEsc, ParserOk, CodeOf, LineFed;
    EscFinals(Started(b.parser));
    EscLeaves(b, 68, LF, tables);
    LineFedBy(b.screen.term);
  }

  /** ESC E goes to the beginning of the next line. */
  lemma NextLineStartSequence(b: Back, tables: Tables)
    requires Awaits(b, tables)
    ensures var t, b' := b.screen.term, Sent(b, [27, 69], tables);
            && b'.parser.state == Ground && b'.screen.On?
            && LineFed(t.(col := 0, aboutToWrap := false), b'.screen.term)
  {
    hide Inv, Sent, Step, DoEsc, ParserOk, CodeOf, LineFed;
    EscFinals(Started(b.parser));
    EscLeaves(b, 69, NEL, tables);
    LineFedBy(b.screen.term);
  }

  /** ESC M goes to the line before, and scrolls down at the first line of the region and above. */
  lemma ReverseIndexSequence(b: Back, tables: Tables)
    requires Awaits(b, tables)
    ensures var t, b' := b.screen.term, Sent(b, [27, 77], tables);
            && b'.parser.state == Ground && b'.screen.On?
            && (if t.row > t.top then b'.screen.term == t.(row := t.row - 1)
                else MovedDown(t, b'.screen.term, t.top, 1) && SameButRows(t, b'.screen.term))
  {
    hide Inv, Sent, Step, DoEsc, ParserOk, CodeOf, MovedDown, SameButRows;
    EscFinals(Started(b.parser));
    EscLeaves(b, 77, RI, tables);
    ReverseIndexedBy(b.screen.term);
  }

  /** ESC c empties the screen and the history and resets the modes. */
  lemma FullResetSequence(b: Back, tables: Tables)
    requires Awaits(b, tables)
    ensures var t, b' := b.screen.term, Sent(b, [27, 99], tables);
            && b'.parser.state == Ground && b'.screen.On?
            && AllBlank(b'.screen.term) && ModesReset(b'.screen.term)
            && b'.screen.term.onAlt == t.onAlt && b'.screen.term.main.active == 0 && b'.screen.term.col == 0
            && b'.screen.term.row == if t.origin then t.top else 0
  {
    hide Inv, Sent, Step, DoEsc, ParserOk, CodeOf, AllBlank, ModesReset;
    EscFinals(Started(b.parser));
    EscLeaves(b, 99, RIS, tables);
    FullResetBy(b.screen.term);
  }

  /** ESC H sets a tab stop in the column of the cursor. */
  lemma SetTabSequence(b: Back, tables: Tables)
    requires Awaits(b, tables)
    ensures var t, b' := b.screen.term, Sent(b, [27, 72], tables);
            && b'.parser.state == Ground && b'.screen.On?
            && 0 <= t.col < |t.tabs|
              && b'.screen.term == t.(tabs := t.tabs[t.col := true])
  {
    hide Inv, Sent, Step, DoEsc, ParserOk, CodeOf;
    EscFinals(Started(b.parser));
    EscLeaves(b, 72, HTS, tables);
    ModeChangedBy(b.screen.term, HTS);
  }

  /** ESC F goes to the first line. */
  lemma LowerLeftSequence(b: Back, tables: Tables)
    requires Awaits(b, tables)
    ensures var t, b' := b.screen.term, Sent(b, [27, 70], tables);
            && b'.parser.state == Ground && b'.screen.On?
            && Moved(t, b'.screen.term) && b'.screen.term.row == 0
              && IsColumn(t, t.bottom - 1, b'.screen.term.col)
  {
    hide Inv, Sent, Step, DoEsc, ParserOk, CodeOf, Moved, IsColumn;
    EscFinals(Started(b.parser));
    EscLeaves(b, 70, LowerLeft, tables);
    LowerLeftIs(b.screen.term);
  }

  lemma IndexFinals(p: Parser)
    requires ParserOk(p) && p.state == Esc
    ensures CodeOf(54) == 54 && DoEsc(p, 54) == (p.(state := Ground), [DECBI])
    ensures CodeOf(57) == 57 && DoEsc(p, 57) == (p.(state := Ground), [DECFI])
  {
    hide ParserOk;
  }

  /** ESC 6 goes to the left, and moves the region to the right in the first column. */
  lemma BackIndexSequence(b: Back, tables: Tables)
    requires Awaits(b, tables)
    ensures var t, b' := b.screen.term, Sent(b, [27, 54], tables);
            && b'.parser.state == Ground && b'.screen.On?
            && MarginsOk(t) && 1 <= t.cols
            && (if t.col > 0 then b'.screen.term == t.(col := t.col - 1)
                else
                  && SameButRows(t, b'.screen.term)
                  && forall x: nat, y: nat :: x < t.cols && y < t.rows ==> BackIndexedAt(t, b'.screen.term, x, y))
  {
    hide Inv, Sent, Step, DoEsc, ParserOk, CodeOf, BackIndexedAt, SameButRows;
    IndexFinals(Started(b.parser));
    EscLeaves(b, 54, DECBI, tables);
    BackIndexedBy(b.screen.term);
  }

  /** ESC 9 goes to the right, and moves the region to the left in the last column. */
  lemma ForwardIndexSequence(b: Back, tables: Tables)
    requires Awaits(b, tables)
    ensures var t, b' := b.screen.term, Sent(b, [27, 57], tables);
            && b'.parser.state == Ground && b'.screen.On?
            && MarginsOk(t) && 1 <= t.cols
            && (if t.col < t.cols - 1 then b'.screen.term == t.(col := t.col + 1)
                else
                  && SameButRows(t, b'.screen.term)
                  && forall x: nat, y: nat :: x < t.cols && y < t.rows ==> ForwardIndexedAt(t, b'.screen.term, x, y))
  {
    hide Inv, Sent, Step, DoEsc, ParserOk, CodeOf, ForwardIndexedAt, SameButRows;
    IndexFinals(Started(b.parser));
    EscLeaves(b, 57, DECFI, tables);
    ForwardIndexedBy(b.screen.term);
  }

  // ----- Three characters -----

  /** ESC, a character that leads on, and one that ends the sequence. */
  lemma ThreeLeave(b: Back, middle: Utf8.byte, p: Parser, final: Utf8.byte, op: Op, tables: Tables)
    requires Awaits(b, tables) && Simple(op) && NoSum(op) && 28 <= CodeOf(middle) && 28 <= CodeOf(final)
    requires DoEsc(Started(b.parser), CodeOf(middle)) == (p, []) && !LeftOut(p, CodeOf(final))
    requires 0 <= b.screen.term.rows && ParserOk(p)
    requires Process(p, CodeOf(final), b.screen.term.rows, b.screen.term.Pen(), tables) == (p.(state := Ground), [op])
    ensures Legal(b.screen.term, op) && Leaves(b, [27, middle, final], tables, Step(b.screen.term, op))
  {
    hide Inv, ParserOk, ApplyEvent, EventOf, Process, Step, Sent, CodeOf, IntStep, DoEsc, LeftOut;
    EscRead(b, middle, tables);
    var t, b1 := b.screen.term, Back(Started(b.parser), b.screen);
    EscProcess(b1.parser, CodeOf(middle), t.rows, t.Pen(), tables);
    ApplySilent(b1, middle, p, tables);
    SentConcat(b, [27, middle], [final], tables);
    assert [27, middle] + [final] == [27, middle, final];
    SentJust(Back(p, b.screen), final, tables);
    LastSent(Back(p, b.screen), final, op, tables);
    PlainStepped(t, op);
  }

  lemma PoundCodes(p: Parser, rows: nat, pen: Style, tables: Tables)
    requires ParserOk(p) && TablesOk(tables)
    ensures CodeOf(35) == 35 && CodeOf(56) == 56 && DoEsc(p, 35) == (p.(state := Pound), [])
    ensures !LeftOut(p.(state := Pound), 56)
    ensures Process(p.(state := Pound), 56, rows, pen, tables) == (p.(state := Ground), [DECALN])
  {
    hide ParserOk;
  }

  /** ESC # 8 fills the screen with the letter E. */
  lemma AlignSequence(b: Back, tables: Tables)
    requires Awaits(b, tables)
    ensures var t, b' := b.screen.term, Sent(b, [27, 35, 56], tables);
            && b'.parser.state == Ground && b'.screen.On? && SameButRows(t, b'.screen.term)
            && forall x: nat, y: nat :: x < t.cols && y < t.rows ==> TextAt(b'.screen.term.Cur(), x, y) == ['E' as int]
  {
    hide Inv, Sent, Step, DoEsc, ParserOk, CodeOf, Process, LeftOut, SameButRows, TextAt;
    var t, p := b.screen.term, Started(b.parser);
    SizeOk(t);
    PoundCodes(p, t.rows, t.Pen(), tables);
    StateOk(p, Pound);
    ThreeLeave(b, 35, p.(state := Pound), 56, DECALN, tables);
    AlignedBy(t);
  }

  lemma StateOk(p: Parser, state: Escape)
    requires ParserOk(p)
    ensures ParserOk(p.(state := state))
  {
  }

  lemma ParenCodes(p: Parser, c: int, rows: nat, pen: Style, tables: Tables)
    requires ParserOk(p) && TablesOk(tables) && 28 <= c
    ensures CodeOf(40) == 40 && CodeOf(41) == 41 && CodeOf(48) == 48
    ensures DoEsc(p, 40) == (p.(state := LeftParen), []) && DoEsc(p, 41) == (p.(state := RightParen), [])
    ensures !LeftOut(p.(state := LeftParen), c) && !LeftOut(p.(state := RightParen), c)
    ensures Process(p.(state := LeftParen), c, rows, pen, tables) == (p.(state := Ground), [DesignateG0(c == 48)])
    ensures Process(p.(state := RightParen), c, rows, pen, tables) == (p.(state := Ground), [DesignateG1(c == 48)])
  {
    hide ParserOk;
  }

  /** ESC ( and ESC ): the line-drawing characters if a 0 follows, and plain ones with any other character. */
  lemma CharacterSetSequence(b: Back, second: bool, c: Utf8.byte, tables: Tables)
    requires Awaits(b, tables) && 28 <= CodeOf(c)
    ensures var t, b' := b.screen.term, Sent(b, [27, if second then 41 else 40, c], tables);
            && b'.parser.state == Ground
            && b'.screen == On(if second then t.(g1 := CodeOf(c) == 48) else t.(g0 := CodeOf(c) == 48))
  {
    hide Inv, Sent, Step, DoEsc, ParserOk, CodeOf, Process, LeftOut;
    var t, p := b.screen.term, Started(b.parser);
    SizeOk(t);
    ParenCodes(p, CodeOf(c), t.rows, t.Pen(), tables);
    if second {
      StateOk(p, RightParen);
      ThreeLeave(b, 41, p.(state := RightParen), c, DesignateG1(CodeOf(c) == 48), tables);
      ModeChangedBy(t, DesignateG1(CodeOf(c) == 48));
    } else {
      StateOk(p, LeftParen);
      ThreeLeave(b, 40, p.(state := LeftParen), c, DesignateG0(CodeOf(c) == 48), tables);
      ModeChangedBy(t, DesignateG0(CodeOf(c) == 48));
    }
  }

  // ----- Control sequences with an intermediate character -----

  lemma IntermediateLeaves(b: Back, args: seq<Utf8.byte>, ns: seq<nat>, middle: Utf8.byte, state: Escape,
                           final: Utf8.byte, p: Parser, op: Op, tables: Tables)
    requires Awaits(b, tables) && Simple(op) && NoSum(op) && p.state == Csi && BackOk(Back(p, b.screen))
    requires Sent(b, CSI + args + [middle], tables) == ApplyEvent(Back(p, b.screen), EventOf(middle), tables)
    requires 0 <= b.screen.term.rows && ParserOk(p.(state := state)) && !LeftOut(p.(state := state), CodeOf(final))
    requires var rows, pen := b.screen.term.rows, b.screen.term.Pen();
             && Process(p, CodeOf(middle), rows, pen, tables) == (p.(state := state), [])
             && Process(p.(state := state), CodeOf(final), rows, pen, tables) == (p.(state := Ground), [op])
    ensures Legal(b.screen.term, op) && Leaves(b, CSI + args + [middle] + [final], tables, Step(b.screen.term, op))
  {
    hide Inv, ParserOk, ApplyEvent, EventOf, Process, Step, Sent, CodeOf, IntStep, LeftOut;
    NotLeftOut(p, CodeOf(middle));
    ApplySilent(Back(p, b.screen), middle, p.(state := state), tables);
    SentConcat(b, CSI + args + [middle], [final], tables);
    SentJust(Back(p.(state := state), b.screen), final, tables);
    LastSent(Back(p.(state := state), b.screen), final, op, tables);
    PlainStepped(b.screen.term, op);
  }

  lemma NotLeftOut(p: Parser, c: int)
    requires ParserOk(p) && p.state == Csi
    ensures !LeftOut(p, c)
  {
  }

  lemma ExclamationCodes(p: Parser, rows: nat, pen: Style, tables: Tables)
    requires ParserOk(p) && TablesOk(tables) && p.state == Csi
    ensures CodeOf(33) == 33 && CodeOf(112) == 112 && !LeftOut(p.(state := Exclamation), 112)
    ensures Process(p, 33, rows, pen, tables) == (p.(state := Exclamation), [])
    ensures Process(p.(state := Exclamation), 112, rows, pen, tables) == (p.(state := Ground), [DECSTR])
  {
    hide ParserOk, Arg, ParseArg;
  }

  lemma QuoteCodes(p: Parser, rows: nat, pen: Style, tables: Tables)
    requires ParserOk(p) && TablesOk(tables) && p.state == Csi
    ensures CodeOf(39) == 39 && CodeOf(125) == 125 && !LeftOut(p.(state := SingleQuote), 125)
    ensures Process(p, 39, rows, pen, tables) == (p.(state := SingleQuote), [])
    ensures Process(p.(state := SingleQuote), 125, rows, pen, tables) == (p.(state := Ground), [DECIC(Arg(p, 0, 1))])
  {
    hide ParserOk, ParseArg;
  }

  /** ESC [ ! p resets the modes. */
  lemma SoftResetSequence(b: Back, args: seq<Utf8.byte>, ns: seq<nat>, tables: Tables)
    requires Awaits(b, tables) && Encodes(args, ns)
    ensures var t, b' := b.screen.term, Sent(b, CSI + args + [33] + [112], tables);
            && b'.parser.state == Ground && b'.screen.On? && ModesReset(b'.screen.term)
            && b'.screen.term.main == t.main && b'.screen.term.alt == t.alt && b'.screen.term.onAlt == t.onAlt
            && b'.screen.term.row == t.row && b'.screen.term.col == t.col
  {
    hide Inv, Process, Sent, Step, ArgsRead, ApplyEvent, EventOf, ModesReset, LeftOut, ParserOk;
    var t := b.screen.term;
    var p := CsiRead(b, args, ns, 33, tables);
    SizeOk(t);
    StateOk(p, Exclamation);
    ExclamationCodes(p, t.rows, t.Pen(), tables);
    IntermediateLeaves(b, args, ns, 33, Exclamation, 112, p, DECSTR, tables);
    SoftResetBy(t);
  }

  /** ESC [ n ' } inserts n columns. */
  lemma InsertColumnsSequence(b: Back, args: seq<Utf8.byte>, ns: seq<nat>, tables: Tables)
    requires Awaits(b, tables) && Encodes(args, ns)
    ensures var t, b' := b.screen.term, Sent(b, CSI + args + [39] + [125], tables);
            && b'.parser.state == Ground && b'.screen.On? && CursorOk(t)
            && ColumnsInserted(t, b'.screen.term, Argument(ns, 0, 1)) && SameButRows(t, b'.screen.term)
  {
    hide Inv, Process, Sent, Step, ArgsRead, ApplyEvent, EventOf, LeftOut, ParserOk, ColumnsInserted, SameButRows,
         Argument;
    var t := b.screen.term;
    var p := CsiRead(b, args, ns, 39, tables);
    SizeOk(t);
    StateOk(p, SingleQuote);
    QuoteCodes(p, t.rows, t.Pen(), tables);
    ArgIs(p, ns, 0, 1);
    IntermediateLeaves(b, args, ns, 39, SingleQuote, 125, p, DECIC(Argument(ns, 0, 1)), tables);
    ColumnsInsertedBy(t, Argument(ns, 0, 1));
  }

  // ----- Control characters -----

  /** A control character acts at once, and the parser stays where it is. */
  lemma ControlLeaves(b: Back, c: Utf8.byte, op: Op, tables: Tables)
    requires BackOk(b) && TablesOk(tables) && b.screen.On? && Simple(op) && NoSum(op) && 0 <= b.screen.term.rows
    requires !LeftOut(b.parser, CodeOf(c))
    requires Process(b.parser, CodeOf(c), b.screen.term.rows, b.screen.term.Pen(), tables) == (b.parser, [op])
    ensures Legal(b.screen.term, op) && Sent(b, [c], tables) == Back(b.parser, On(Step(b.screen.term, op)))
  {
    hide Inv, ParserOk, EventOf, Process, Step, CodeOf, IntStep, LeftOut, Sent, IntRun;
    SentJust(b, c, tables);
    RunOne(b.screen.term, op);
    PlainStepped(b.screen.term, op);
    Delivered(b, c, op, tables);
  }

  lemma Delivered(b: Back, c: Utf8.byte, op: Op, tables: Tables)
    requires BackOk(b) && TablesOk(tables) && b.screen.On? && Simple(op) && 0 <= b.screen.term.rows
    requires !LeftOut(b.parser, CodeOf(c)) && Legal(b.screen.term, op)
             && IntRun(b.screen.term, [op]) == Some(Step(b.screen.term, op))
    requires Process(b.parser, CodeOf(c), b.screen.term.rows, b.screen.term.Pen(), tables) == (b.parser, [op])
    ensures ApplyEvent(b, EventOf(c), tables) == Back(b.parser, On(Step(b.screen.term, op)))
  {
    hide Inv, ParserOk, Process, Step, IntRun, LeftOut;
  }

  lemma ControlFinals(p: Parser, rows: nat, pen: Style, tables: Tables)
    requires ParserOk(p) && TablesOk(tables)
    ensures CodeOf(8) == 8 && Process(p, 8, rows, pen, tables) == (p, [BS]) && !LeftOut(p, 8)
    ensures CodeOf(9) == 9 && Process(p, 9, rows, pen, tables) == (p, [HT]) && !LeftOut(p, 9)
    ensures CodeOf(10) == 10 && Process(p, 10, rows, pen, tables) == (p, [LF]) && !LeftOut(p, 10)
    ensures CodeOf(13) == 13 && Process(p, 13, rows, pen, tables) == (p, [CR]) && !LeftOut(p, 13)
    ensures CodeOf(14) == 14 && Process(p, 14, rows, pen, tables) == (p, [ShiftOut]) && !LeftOut(p, 14)
    ensures CodeOf(15) == 15 && Process(p, 15, rows, pen, tables) == (p, [ShiftIn]) && !LeftOut(p, 15)
  {
    hide ParserOk, Given;
  }

  /** CR, LF and the two shifts, also in the middle of a sequence. */
  lemma ControlCharacters(b: Back, tables: Tables)
    requires BackOk(b) && TablesOk(tables) && b.screen.On?
    ensures var t, b' := b.screen.term, Sent(b, [13], tables);
            b'.parser == b.parser && b'.screen == On(t.(col := 0, aboutToWrap := false))
    ensures var t, b' := b.screen.term, Sent(b, [10], tables);
            b'.parser == b.parser && b'.screen.On? && LineFed(t, b'.screen.term)
    ensures Sent(b, [14], tables) == Back(b.parser, On(b.screen.term.(useG0 := false)))
    ensures Sent(b, [15], tables) == Back(b.parser, On(b.screen.term.(useG0 := true)))
  {
    hide Inv, ParserOk, Process, Step, CodeOf, LeftOut, Sent, LineFed;
    var t := b.screen.term;
    SizeOk(t);
    ControlFinals(b.parser, t.rows, t.Pen(), tables);
    ControlLeaves(b, 13, CR, tables);
    ReturnIs(t);
    ControlLeaves(b, 10, LF, tables);
    LineFedBy(t);
    ControlLeaves(b, 14, ShiftOut, tables);
    ModeChangedBy(t, ShiftOut);
    ControlLeaves(b, 15, ShiftIn, tables);
    ModeChangedBy(t, ShiftIn);
  }

  lemma ReturnIs(t: Term)
    requires Inv(t)
    ensures Step(t, CR) == t.(col := 0, aboutToWrap := false)
  {
    hide Inv, Step;
    PlainMoves(t, CR);
  }

  /** HT goes to the next tab stop. */
  lemma TabCharacter(b: Back, tables: Tables)
    requires BackOk(b) && TablesOk(tables) && b.screen.On?
    ensures var t, b' := b.screen.term, Sent(b, [9], tables);
            && b'.parser == b.parser && b'.screen.On? && b'.screen.term == t.(col := b'.screen.term.col)
            && |t.tabs| == t.cols && 0 <= t.col && IsNextStop(t, 1, b'.screen.term.col)
  {
    hide Inv, ParserOk, Process, Step, CodeOf, LeftOut, Sent, IsNextStop;
    var t := b.screen.term;
    SizeOk(t);
    ControlFinals(b.parser, t.rows, t.Pen(), tables);
    ControlLeaves(b, 9, HT, tables);
    TabbedBy(t, 1);
  }

  /** BS goes to the left, or back to the end of a wrapped line. */
  lemma BackspaceCharacter(b: Back, tables: Tables)
    requires BackOk(b) && TablesOk(tables) && b.screen.On?
    ensures var t := b.screen.term; Valid(t.Cur()) && 0 <= t.row < t.Cur().rows
    ensures var t, b' := b.screen.term, Sent(b, [8], tables);
            && b'.parser == b.parser && b'.screen.On?
            && if 0 < t.col then b'.screen.term == t.(col := t.col - 1, aboutToWrap := false)
               else if t.row == 0 || !t.Cur().view[t.row - 1].value.wrap then b'.screen.term == t
               else b'.screen.term.row == t.row - 1 && b'.screen.term.col == t.cols - 1 && !b'.screen.term.aboutToWrap
  {
    hide Inv, ParserOk, Process, Step, CodeOf, LeftOut, Sent, Valid;
    var t := b.screen.term;
    SizeOk(t);
    ControlFinals(b.parser, t.rows, t.Pen(), tables);
    ControlLeaves(b, 8, BS, tables);
    BackspacedBy(t);
  }

  // ----- Saving and restoring by other sequences, repeating -----

  lemma SaveFinals(p: Parser, rows: nat, pen: Style, tables: Tables)
    requires ParserOk(p) && TablesOk(tables) && p.state == Csi
    ensures CodeOf(115) == 115 && Process(p, 115, rows, pen, tables) == (p.(state := Ground), [DECSC])
    ensures CodeOf(117) == 117 && Process(p, 117, rows, pen, tables) == (p.(state := Ground), [DECRC])
    ensures CodeOf(98) == 98 && Process(p, 98, rows, pen, tables) == (p.(state := Ground), [REP(Arg(p, 0, 1))])
  {
    hide Arg, ParserOk;
  }

  /** ESC [ s and ESC [ u do the same as ESC 7 and ESC 8, and so do ESC [ ? 1048 h and l. */
  lemma OtherSaveSequences(b: Back, args: seq<Utf8.byte>, ns: seq<nat>, tables: Tables)
    requires Awaits(b, tables) && Encodes(args, ns)
    ensures Sent(b, CSI + args + [115], tables).screen == Sent(b, [27, 55], tables).screen
    ensures Sent(b, CSI + args + [117], tables).screen == Sent(b, [27, 56], tables).screen
    ensures ns == [1048] ==> Sent(b, PRIVATE + args + [104], tables).screen == Sent(b, [27, 55], tables).screen
    ensures ns == [1048] ==> Sent(b, PRIVATE + args + [108], tables).screen == Sent(b, [27, 56], tables).screen
  {
    hide Inv, Process, Sent, Step, ArgsRead, ApplyEvent, EventOf, ParserOk, CodeOf, DoEsc;
    var t := b.screen.term;
    SizeOk(t);
    EscFinals(Started(b.parser));
    EscLeaves(b, 55, DECSC, tables);
    EscLeaves(b, 56, DECRC, tables);
    var p := CsiRead(b, args, ns, 115, tables);
    SaveFinals(p, t.rows, t.Pen(), tables);
    CsiLeaves(b, args, 115, p, DECSC, tables);
    var p' := CsiRead(b, args, ns, 117, tables);
    SaveFinals(p', t.rows, t.Pen(), tables);
    CsiLeaves(b, args, 117, p', DECRC, tables);
    if ns == [1048] {
      PrivateLeaves(b, args, 1048, true, DECSC, tables);
      PrivateLeaves(b, args, 1048, false, DECRC, tables);
    }
  }

  function Repeated(n: nat, g: Glyph): (ops: seq<Op>)
    ensures |ops| == n && forall i :: 0 <= i < n ==> ops[i] == Print(g)
  {
    seq(n, _ => Print(g))
  }

  lemma StepRepeats(t: Term, n: nat)
    requires Inv(t)
    ensures Step(t, REP(n)) == Repeat(t, n)
  {
    hide Inv, Repeat, EmitCodePoint, StepCursor, StepModes, StepIndex, StepLine, StepLines, StepScreen;
  }

  lemma RepeatsNothing(t: Term, n: nat)
    requires Inv(t) && t.last.None?
    ensures Repeat(t, n) == t
  {
    hide Inv, EmitCodePoint;
  }

  lemma PrintedLast(t: Term, g: Glyph)
    requires Inv(t) && ValidGlyph(g)
    ensures EmitCodePoint(t, g).last == Some(g)
  {
    hide Valid, Show, Translated;
    TranslatedValid(t, g);
    ShowKeepsLast(t.(last := Some(g)), Translated(t, g));
  }

  lemma TranslatedValid(t: Term, g: Glyph)
    requires ValidGlyph(g)
    ensures ValidGlyph(Translated(t, g))
  {
  }

  lemma RowsKeepLast(t: Term, t': Term)
    requires SameButRows(t, t')
    ensures t'.last == t.last && t'.row == t.row && t'.col == t.col && t'.cols == t.cols
  {
    if t.onAlt {
      assert t' == t.(alt := t'.alt);
    } else {
      assert t' == t.(main := t'.main);
    }
  }

  lemma WrapKeepsLast(t: Term)
    requires Inv(t)
    ensures WrapLine(t).last == t.last
  {
    hide ScreensOk, TerminalState.ScrollDownOneLine, MarkWrap, SameButRows, Local;
    RowsKeepLast(t, MarkWrap(t, t.row, true));
    var t1 := TabTo(MarkWrap(t, t.row, true), 0);
    if t.row + 1 >= t.bottom {
      RowsKeepLast(t1, TerminalState.ScrollDownOneLine(t1));
    }
  }

  lemma WriteKeepsLast(t: Term, g: Glyph)
    requires Inv(t) && ValidGlyph(g) && (g.width == 2 ==> t.col + 1 < t.cols)
    ensures WriteGlyph(t, g).last == t.last
  {
    hide ScreensOk, PutGlyph;
  }

  lemma ShowKeepsLast(t: Term, g: Glyph)
    requires Inv(t) && ValidGlyph(g)
    ensures Show(t, g).last == t.last
  {
    hide ScreensOk, WriteGlyph, MakeRoom, WrapLine, Local, SameButRows;
    if !(!t.autowrap && t.col == t.cols - 1 && g.width == 2) {
      WrapKeepsLast(t);
      var t0 := if MustWrap(t, g) then WrapLine(t) else t;
      var t1 := MakeRoom(t0, g);
      RowsKeepLast(t0, t1);
      WriteKeepsLast(t1, g);
    }
  }

  /** Repeating is printing the last character again. */
  lemma {:induction false} RepeatPrints(t: Term, n: nat)
    requires Inv(t) && t.last.Some? && ValidGlyph(t.last.value)
    ensures var g := t.last.value;
            && LegalRun(t, Repeated(n, g)) && Repeat(t, n) == Run(t, Repeated(n, g)) && Repeat(t, n).last == Some(g)
    decreases n
  {
    hide Inv, Step, EmitCodePoint, Legal, Run, LegalRun;
    var g := t.last.value;
    if n == 0 {
      EmptyRun(t);
      assert Repeated(0, g) == [];
    } else {
      RepeatPrints(t, n - 1);
      var t1 := Repeat(t, n - 1);
      PrintedLast(t1, g);
      P.PrintIsStep(t1, g);
      EmptyRun(Step(t1, Print(g)));
      P.RunFirst(t1, Print(g), []);
      assert [Print(g)] + [] == [Print(g)];
      P.RunConcat(t, Repeated(n - 1, g), [Print(g)]);
      assert Repeated(n, g) == Repeated(n - 1, g) + [Print(g)];
    }
  }

  /** ESC [ n b prints the last printed character n times more; before the first one it does nothing. */
  lemma RepeatSequence(b: Back, args: seq<Utf8.byte>, ns: seq<nat>, tables: Tables)
    requires Awaits(b, tables) && Encodes(args, ns)
    ensures var t, b' := b.screen.term, Sent(b, CSI + args + [98], tables);
            && b'.parser.state == Ground && b'.screen.On?
            && if t.last.None? then b'.screen.term == t
               else
                 var ops := Repeated(Argument(ns, 0, 1), t.last.value);
                 LegalRun(t, ops) && b'.screen.term == Run(t, ops)
  {
    hide Inv, Process, Sent, Step, ArgsRead, ApplyEvent, EventOf, Argument, Repeat, Run, LegalRun;
    var t := b.screen.term;
    var p := CsiRead(b, args, ns, 98, tables);
    SizeOk(t);
    ArgIs(p, ns, 0, 1);
    SaveFinals(p, t.rows, t.Pen(), tables);
    CsiLeaves(b, args, 98, p, REP(Argument(ns, 0, 1)), tables);
    StepRepeats(t, Argument(ns, 0, 1));
    if t.last.None? {
      RepeatsNothing(t, Argument(ns, 0, 1));
    } else {
      LastIsValid(t);
      RepeatPrints(t, Argument(ns, 0, 1));
    }
  }

  lemma LastIsValid(t: Term)
    requires Inv(t) && t.last.Some?
    ensures ValidGlyph(t.last.value)
  {
  }
}
