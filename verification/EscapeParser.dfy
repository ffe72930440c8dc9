/** The escape states of the emulator: from code points to operations (processCodePoint in TerminalEmulator.java). */
module EscapeParser {
  import opened Wrappers
  import opened Basics
  import opened TerminalRows
  import opened TerminalState

  datatype Escape =
    | Ground | Esc | Pound | LeftParen | RightParen | Csi | Question | Dollar | Osc | OscEsc | Bigger | Dcs
    | QuestionDollar | Space | Asterisk | DoubleQuote | SingleQuote | Exclamation

  const MAX_ARGS := 16
  const MAX_TEXT := 8192
  /** The effect bit of characters that DECSED and DECSEL do not erase. */
  const PROTECTED := 128

  /** The state, the arguments (-1 where none was given), the current argument, and the length of an OSC or DCS text. */
  datatype Parser = Parser(state: Escape, args: seq<int>, argIndex: nat, textLength: nat)

  const NO_ARGS: seq<int> := [-1, -1, -1, -1, -1, -1, -1, -1, -1, -1, -1, -1, -1, -1, -1, -1]

  /** There is always room where an argument is stored or read. */
  predicate ParserOk(p: Parser) {
    && |p.args| == MAX_ARGS && p.argIndex <= MAX_ARGS && p.textLength <= MAX_TEXT + 2
    && forall i :: 0 <= i < MAX_ARGS ==> -MAX_INT - 1 <= p.args[i] <= MAX_INT
  }

  /** Where a new emulator begins. */
  function Idle(): (p: Parser)
    ensures ParserOk(p)
  {
    Parser(Ground, NO_ARGS, 0, 0)
  }

  /** The display width of code points, and what the attributes of SGR do to the current style. */
  datatype Tables = Tables(width: int -> int, sgr: (seq<int>, Style) -> Style)

  ghost predicate TablesOk(tables: Tables) {
    forall c :: 0 <= tables.width(c) <= 2
  }

  /** Operations that are legal in every state. */
  predicate Simple(op: Op) {
    !op.WindowSize? && (op.Print? ==> ValidGlyph(op.glyph))
  }

  predicate AllSimple(ops: seq<Op>) {
    forall i :: 0 <= i < |ops| ==> Simple(ops[i])
  }

  /** All operations but CUD and CUF. */
  predicate Steady(op: Op) {
    !op.CUD? && !op.CUF?
  }

  predicate AllSteady(ops: seq<Op>) {
    forall i :: 0 <= i < |ops| ==> Steady(ops[i])
  }

  // ----- Arguments -----

  /** A missing argument and zero stand for the default. */
  function Arg(p: Parser, i: nat, default: nat): (n: nat)
    requires ParserOk(p) && i < MAX_ARGS
  {
    if p.args[i] <= 0 then default else p.args[i]
  }

  predicate Is(c: int, ch: char) {
    c == ch as int
  }

  function ParseArg(p: Parser, c: int): (p': Parser)
    requires ParserOk(p)
    ensures ParserOk(p')
  {
    if '0' as int <= c <= '9' as int then
      if p.argIndex < MAX_ARGS then
        var value, digit := p.args[p.argIndex], c - '0' as int;
        p.(args := p.args[p.argIndex := if value >= 0 then ToInt(value * 10 + digit) else digit])
      else p
    else if Is(c, ';') then p.(argIndex := Min(p.argIndex + 1, MAX_ARGS))
    else p.(state := Ground)
  }

  /** The arguments that have been given, at most all of them. */
  function Given(p: Parser): (s: seq<int>)
    requires ParserOk(p)
    ensures 1 <= |s| <= MAX_ARGS
  {
    p.args[..Min(p.argIndex, MAX_ARGS - 1) + 1]
  }

  // ----- Control sequences -----

  /** Cursor movements. */
  function MoveOps(p: Parser, c: int, rows: nat): (ops: seq<Op>)
    requires ParserOk(p)
    ensures AllSimple(ops)
  {
    var n := Arg(p, 0, 1);
    if Is(c, 'A') then [CUU(n)]
    else if Is(c, 'B') then [CUD(n)]
    else if Is(c, 'C') || Is(c, 'a') then [CUF(n)]
    else if Is(c, 'D') then [CUB(n)]
    else if Is(c, 'E') then [CNL(n)]
    else if Is(c, 'F') then [CPL(n)]
    else if Is(c, 'G') then [CHA(n)]
    else if Is(c, 'H') || Is(c, 'f') then [CUP(n, Arg(p, 1, 1))]
    else if Is(c, 'I') then [CHT(n)]
    else if Is(c, 'Z') then [CBT(n)]
    else if Is(c, '`') then [HPA(n)]
    else if Is(c, 'd') then [VPA(n)]
    else if Is(c, 'e') then [VPR(n)]
    else if Is(c, 'r') then [DECSTBM(n, Arg(p, 1, rows))]
    else if Is(c, 's') then [DECSC]
    else if Is(c, 'u') then [DECRC]
    else []
  }

  /** Editing, tab stops and modes. */
  function EditOps(p: Parser, c: int, pen: Style, tables: Tables): (ops: seq<Op>)
    requires ParserOk(p)
    ensures AllSimple(ops)
  {
    var n := Arg(p, 0, 1);
    if Is(c, '@') then [ICH(n)]
    else if Is(c, 'J') then [ED(Arg(p, 0, 0))]
    else if Is(c, 'K') then [EL(Arg(p, 0, 0))]
    else if Is(c, 'L') then [IL(n)]
    else if Is(c, 'M') then [DL(n)]
    else if Is(c, 'P') then [DCH(n)]
    else if Is(c, 'S') then [SU(n)]
    else if Is(c, 'T') then (if p.argIndex == 0 then [SD(n)] else [])
    else if Is(c, 'X') then [ECH(n)]
    else if Is(c, 'b') then [REP(n)]
    else if Is(c, 'g') then [TBC(Arg(p, 0, 0))]
    else if Is(c, 'h') || Is(c, 'l') then (if Arg(p, 0, 0) == 4 then [IRM(Is(c, 'h'))] else [])
    else if Is(c, 'm') then var style := tables.sgr(Given(p), pen); [SGR(style.fore, style.back, style.effect)]
    else []
  }

  /** Characters that end a control sequence without an effect on the screen: they ask for a report. */
  predicate AsksForReport(c: int) {
    Is(c, 'c') || Is(c, 'n') || Is(c, 't')
  }

  predicate MovesOrSaves(c: int) {
    || Is(c, 'A') || Is(c, 'B') || Is(c, 'C') || Is(c, 'a') || Is(c, 'D') || Is(c, 'E') || Is(c, 'F') || Is(c, 'G')
    || Is(c, 'H') || Is(c, 'f') || Is(c, 'I') || Is(c, 'Z') || Is(c, '`') || Is(c, 'd') || Is(c, 'e') || Is(c, 'r')
    || Is(c, 's') || Is(c, 'u')
  }

  predicate Edits(c: int) {
    || Is(c, '@') || Is(c, 'J') || Is(c, 'K') || Is(c, 'L') || Is(c, 'M') || Is(c, 'P') || Is(c, 'S') || Is(c, 'T')
    || Is(c, 'X') || Is(c, 'b') || Is(c, 'g') || Is(c, 'h') || Is(c, 'l') || Is(c, 'm')
  }

  /** The state that a character selects within a control sequence. */
  function CsiPrefix(c: int): Option<Escape> {
    if Is(c, '!') then Some(Exclamation)
    else if Is(c, '"') then Some(DoubleQuote)
    else if Is(c, '\'') then Some(SingleQuote)
    else if Is(c, '$') then Some(Dollar)
    else if Is(c, '*') then Some(Asterisk)
    else if Is(c, '?') then Some(Question)
    else if Is(c, '>') then Some(Bigger)
    else if Is(c, ' ') then Some(Space)
    else None
  }

  function DoCsi(p: Parser, c: int, rows: nat, pen: Style, tables: Tables): (r: (Parser, seq<Op>))
    requires ParserOk(p)
    ensures ParserOk(r.0) && AllSimple(r.1)
  {
    if MovesOrSaves(c) then (p.(state := Ground), MoveOps(p, c, rows))
    else if Edits(c) then (p.(state := Ground), EditOps(p, c, pen, tables))
    else if AsksForReport(c) then (p.(state := Ground), [])
    else
      match CsiPrefix(c)
      case Some(state) => (p.(state := state), [])
      case None => (ParseArg(p, c), [])
  }

  /** One private mode. */
  function ModeOps(set': bool, mode: int): (ops: seq<Op>)
    ensures AllSimple(ops) && AllSteady(ops)
  {
    if mode == 3 then [DECCOLM]
    else if mode == 6 then [DECOM(set')]
    else if mode == 7 then [DECAWM(set')]
    else if mode == 47 || mode == 1047 || mode == 1049 then [AltScreen(set')]
    else if mode == 1048 then [if set' then DECSC else DECRC]
    else []
  }

  function ModesOps(set': bool, modes: seq<int>): (ops: seq<Op>)
    ensures AllSimple(ops) && AllSteady(ops)
  {
    if modes == [] then [] else ModesOps(set', modes[..|modes| - 1]) + ModeOps(set', modes[|modes| - 1])
  }

  function DoQuestion(p: Parser, c: int): (r: (Parser, seq<Op>))
    requires ParserOk(p)
    ensures ParserOk(r.0) && AllSimple(r.1)
  {
    if Is(c, 'h') || Is(c, 'l') then (p.(state := Ground), ModesOps(Is(c, 'h'), Given(p)))
    else if Is(c, 'J') || Is(c, 'K') || Is(c, 'n') || Is(c, 'r') || Is(c, 's') then (p.(state := Ground), [])
    else if Is(c, '$') then (p.(state := QuestionDollar), [])
    else (ParseArg(p, c), [])
  }

  // ----- Other sequences -----

  function DoEsc(p: Parser, c: int): (r: (Parser, seq<Op>))
    requires ParserOk(p)
    ensures ParserOk(r.0) && AllSimple(r.1)
  {
    var done := p.(state := Ground);
    if Is(c, '#') then (p.(state := Pound), [])
    else if Is(c, '(') then (p.(state := LeftParen), [])
    else if Is(c, ')') then (p.(state := RightParen), [])
    else if Is(c, '[') then (p.(state := Csi), [])
    else if Is(c, 'P') then (p.(state := Dcs, textLength := 0), [])
    else if Is(c, ']') then (p.(state := Osc, textLength := 0), [])
    else if Is(c, '6') then (done, [DECBI])
    else if Is(c, '7') then (done, [DECSC])
    else if Is(c, '8') then (done, [DECRC])
    else if Is(c, '9') then (done, [DECFI])
    else if Is(c, 'c') then (done, [RIS])
    else if Is(c, 'D') then (done, [LF])
    else if Is(c, 'E') then (done, [NEL])
    else if Is(c, 'F') then (done, [LowerLeft])
    else if Is(c, 'H') then (done, [HTS])
    else if Is(c, 'M') then (done, [RI])
    else (done, [])
  }

  /** One more code point, of one or two Java characters, of an OSC or DCS text, which must not get too long. */
  function Collect(p: Parser, c: int, state: Escape, limit: nat): (p': Parser)
    requires ParserOk(p) && limit <= MAX_TEXT + 1
    ensures ParserOk(p')
  {
    if p.textLength < limit then p.(state := state, textLength := p.textLength + if c < 0x10000 then 1 else 2)
    else p.(state := Ground)
  }

  /** DECSCA sets or clears the bit of protected characters. */
  function ProtectOps(p: Parser, c: int, pen: Style): (ops: seq<Op>)
    requires ParserOk(p)
    ensures AllSimple(ops) && AllSteady(ops)
  {
    var n, set' := Arg(p, 0, 0), pen.effect / PROTECTED % 2 == 1;
    if !Is(c, 'q') || n > 2 then []
    else if n == 1 then [SGR(pen.fore, pen.back, if set' then pen.effect else pen.effect + PROTECTED)]
    else [SGR(pen.fore, pen.back, if set' then pen.effect - PROTECTED else pen.effect)]
  }

  /** A character other than a control character, by state. */
  function DoState(p: Parser, c: int, rows: nat, pen: Style, tables: Tables): (r: (Parser, seq<Op>))
    requires ParserOk(p) && 0 <= tables.width(c) <= 2
    ensures ParserOk(r.0) && AllSimple(r.1)
  {
    var done := p.(state := Ground);
    match p.state
    case Ground => (p, if c >= 32 then [Print(Glyph(c, tables.width(c)))] else [])
    case Esc => DoEsc(p, c)
    case Pound => (done, if Is(c, '8') then [DECALN] else [])
    case LeftParen => (done, [DesignateG0(Is(c, '0'))])
    case RightParen => (done, [DesignateG1(Is(c, '0'))])
    case Csi => DoCsi(p, c, rows, pen, tables)
    case Exclamation => (done, if Is(c, 'p') then [DECSTR] else [])
    case Question => DoQuestion(p, c)
    case Bigger => (if Is(c, 'c') || Is(c, 'm') then done else ParseArg(p, c), [])
    case SingleQuote => (done, if Is(c, '}') then [DECIC(Arg(p, 0, 1))] else [])
    case Osc => (Collect(p, c, Osc, MAX_TEXT), [])
    case OscEsc =>
      if Is(c, '\\') then (done, [])
      else (Collect(Collect(p, 27, Osc, MAX_TEXT), c, Osc, MAX_TEXT).(state := Osc), [])
    case Dcs => (if Is(c, '\\') then done else Collect(p, c, Dcs, MAX_TEXT + 1), [])
    case Dollar => (done, [])
    case QuestionDollar => (done, [])
    case Space => (done, [])
    case Asterisk => (done, [])
    case DoubleQuote => (done, ProtectOps(p, c, pen))
  }

  /** processCodePoint: control characters act in every state, and most of them do not end a sequence. */
  function Process(p: Parser, c: int, rows: nat, pen: Style, tables: Tables): (r: (Parser, seq<Op>))
    requires ParserOk(p) && TablesOk(tables)
    ensures ParserOk(r.0) && AllSimple(r.1)
  {
    if c == 0 then (p, [])
    else if c == 7 then (if p.state == Osc then p.(state := Ground) else p, [])
    else if c == 8 then (p, [BS])
    else if c == 9 then (p, [HT])
    else if 10 <= c <= 12 then (p, [LF])
    else if c == 13 then (p, [CR])
    else if c == 14 then (p, [ShiftOut])
    else if c == 15 then (p, [ShiftIn])
    else if c == 24 || c == 26 then
      if p.state == Ground then (p, []) else (p.(state := Ground), [Print(Glyph(127, tables.width(127)))])
    else if c == 27 then
      if p.state == Dcs then (p, [])
      else if p.state == Osc then (p.(state := OscEsc), [])
      else (p.(state := Esc, args := NO_ARGS, argIndex := 0), [])
    else DoState(p, c, rows, pen, tables)
  }

  // ----- What is left out -----

  /**
    Whether a character completes a sequence that is not modelled: DECLRMM switched on (without it no left or right
    margin can be set, and switching it off does nothing), a saved origin, autowrap or margin mode recalled, DECSED,
    DECSEL, the operations on rectangles, or DECDC.
   */
  predicate LeftOut(p: Parser, c: int)
    requires ParserOk(p)
  {
    match p.state
    case Question =>
      || (Is(c, 'h') && 69 in Given(p)) || Is(c, 'J') || Is(c, 'K')
      || (Is(c, 'r') && (6 in Given(p) || 7 in Given(p) || 69 in Given(p)))
    case Dollar => Is(c, 'v') || Is(c, '{') || Is(c, 'x') || Is(c, 'z') || Is(c, 'r') || Is(c, 't')
    case SingleQuote => Is(c, '~')
    case _ => false
  }

  /** The state of the parser after a code point, which depends on nothing else. */
  function NextParser(p: Parser, c: int): (p': Parser)
    requires ParserOk(p)
    ensures ParserOk(p')
  {
    Process(p, c, 0, ZERO_STYLE, NARROW).0
  }

  const NARROW := Tables(_ => 1, (_, style) => style)

  lemma ParserAlone(p: Parser, c: int, rows: nat, pen: Style, tables: Tables)
    requires ParserOk(p) && TablesOk(tables)
    ensures Process(p, c, rows, pen, tables).0 == NextParser(p, c)
  {
    hide Given, ParseArg, Arg, Collect;
  }

  // ----- Properties -----

  /** A list of operations that are legal in every state is a legal run. */
  lemma {:induction false} SimpleIsLegal(t: Term, ops: seq<Op>)
    requires Inv(t) && AllSimple(ops)
    ensures LegalRun(t, ops)
    decreases |ops|
  {
    hide Inv, Step;
    if ops != [] {
      SimpleIsLegal(Step(t, ops[0]), ops[1..]);
    }
  }

  /** Outside of sequences, characters are printed and line ends are line ends. */
  lemma ProcessInGround(p: Parser, c: int, rows: nat, pen: Style, tables: Tables)
    requires ParserOk(p) && TablesOk(tables) && p.state == Ground && (c == 13 || c == 10 || 32 <= c)
    ensures Process(p, c, rows, pen, tables)
            == (p, [if c == 13 then CR else if c == 10 then LF else Print(Glyph(c, tables.width(c)))])
  {
  }

  /** CUD and CUF come from control sequences with the final characters B, C and a only. */
  lemma OnlyTheseMove(p: Parser, c: int, rows: nat, pen: Style, tables: Tables)
    requires ParserOk(p) && TablesOk(tables)
    ensures var ops := Process(p, c, rows, pen, tables).1;
            if p.state == Csi && Is(c, 'B') then ops == [CUD(Arg(p, 0, 1))]
            else if p.state == Csi && (Is(c, 'C') || Is(c, 'a')) then ops == [CUF(Arg(p, 0, 1))]
            else AllSteady(ops)
  {
    hide Given, ParseArg, Arg, Collect;
  }

  /** ESC, the bracket and digits only lead the parser on. */
  lemma LeadsOn(p: Parser, c: int, rows: nat, pen: Style, tables: Tables)
    requires ParserOk(p) && TablesOk(tables)
    ensures c == 27 && p.state == Ground ==>
              Process(p, c, rows, pen, tables) == (p.(state := Esc, args := NO_ARGS, argIndex := 0), [])
    ensures Is(c, '[') && p.state == Esc ==> Process(p, c, rows, pen, tables) == (p.(state := Csi), [])
    ensures '0' as int <= c <= '9' as int && p.state == Csi ==>
              Process(p, c, rows, pen, tables) == (ParseArg(p, c), []) && ParseArg(p, c).state == Csi
  {
  }

  /** CAN and SUB end every sequence. */
  lemma CancelEndsAll(p: Parser, c: int, rows: nat, pen: Style, tables: Tables)
    requires ParserOk(p) && TablesOk(tables) && (c == 24 || c == 26)
    ensures Process(p, c, rows, pen, tables).0.state == Ground
  {
  }

  // ----- Arguments are read back -----

  /** A number in decimal notation. */
  function Decimal(n: nat): (s: seq<int>)
    ensures s != []
  {
    if n < 10 then [n + '0' as int] else Decimal(n / 10) + [n % 10 + '0' as int]
  }

  /** Numbers separated by semicolons. */
  function Numbers(ns: seq<nat>): seq<int> {
    if ns == [] then []
    else if |ns| == 1 then Decimal(ns[0])
    else Numbers(ns[..|ns| - 1]) + [';' as int] + Decimal(ns[|ns| - 1])
  }

  function ParseArgs(p: Parser, s: seq<int>): (p': Parser)
    requires ParserOk(p)
    ensures ParserOk(p')
  {
    if s == [] then p else ParseArg(ParseArgs(p, s[..|s| - 1]), s[|s| - 1])
  }

  lemma {:induction false} ParseArgsConcat(p: Parser, a: seq<int>, b: seq<int>)
    requires ParserOk(p)
    ensures ParseArgs(p, a + b) == ParseArgs(ParseArgs(p, a), b)
    decreases |b|
  {
    if b == [] {
      assert a + b == a;
    } else {
      ParseArgsConcat(p, a, b[..|b| - 1]);
      assert (a + b)[..|a + b| - 1] == a + b[..|b| - 1];
    }
  }

  lemma {:induction false} ParseDecimal(p: Parser, n: nat)
    requires ParserOk(p) && p.argIndex < MAX_ARGS && p.args[p.argIndex] == -1 && n <= MAX_INT
    ensures ParseArgs(p, Decimal(n)) == p.(args := p.args[p.argIndex := n])
  {
    if n < 10 {
      assert Decimal(n)[..0] == [];
      assert ParseArgs(p, []) == p;
    } else {
      ParseDecimal(p, n / 10);
      assert Decimal(n)[..|Decimal(n)| - 1] == Decimal(n / 10);
      assert n / 10 * 10 + n % 10 == n;
    }
  }

  /** The parser after the numbers: they are the first arguments. */
  predicate HasRead(p: Parser, p': Parser, ns: seq<nat>)
    requires ParserOk(p) && ParserOk(p') && 1 <= |ns| <= MAX_ARGS
  {
    && p' == p.(args := p'.args, argIndex := |ns| - 1)
    && forall i :: 0 <= i < MAX_ARGS ==> p'.args[i] == if i < |ns| then ns[i] else -1
  }

  /** Up to sixteen arguments in decimal notation are read as these numbers exactly if all of them are ints. */
  lemma ParseNumbers(p: Parser, ns: seq<nat>)
    requires ParserOk(p) && p.args == NO_ARGS && p.argIndex == 0 && 1 <= |ns| <= MAX_ARGS
    ensures HasRead(p, ParseArgs(p, Numbers(ns)), ns) <==> forall i :: 0 <= i < |ns| ==> ns[i] <= MAX_INT
  {
    hide ParseArgs, Numbers;
    if forall i :: 0 <= i < |ns| ==> ns[i] <= MAX_INT {
      ParseInts(p, ns);
    } else {
      var i :| 0 <= i < |ns| && ns[i] > MAX_INT;
      assert ParseArgs(p, Numbers(ns)).args[i] <= MAX_INT;
    }
  }

  lemma {:induction false} ParseInts(p: Parser, ns: seq<nat>)
    requires ParserOk(p) && p.args == NO_ARGS && p.argIndex == 0 && 1 <= |ns| <= MAX_ARGS
    requires forall i :: 0 <= i < |ns| ==> ns[i] <= MAX_INT
    ensures HasRead(p, ParseArgs(p, Numbers(ns)), ns)
    decreases |ns|
  {
    hide ParserOk, ParseArgs, Decimal;
    NoArgs();
    var k := |ns| - 1;
    if k == 0 {
      StillOk(p);
      ParseDecimal(p, ns[0]);
    } else {
      ParseInts(p, ns[..k]);
      var before := Numbers(ns[..k]);
      var p1 := ParseArgs(p, before);
      StillOk(p);
      StillOk(p1);
      ParseArgsConcat(p, before, [';' as int]);
      ParseSemicolon(p1);
      ParseArgsConcat(p, before + [';' as int], Decimal(ns[k]));
      var p2 := p1.(argIndex := k);
      ParseDecimal(p2, ns[k]);
      assert Numbers(ns) == before + [';' as int] + Decimal(ns[k]);
      OneMoreArg(p, p1, ns, p2.(args := p2.args[k := ns[k]]));
    }
  }

  lemma OneMoreArg(p: Parser, p1: Parser, ns: seq<nat>, p2: Parser)
    requires ParserOk(p) && ParserOk(p1) && ParserOk(p2) && 2 <= |ns| <= MAX_ARGS && HasRead(p, p1, ns[..|ns| - 1])
    requires p2 == p1.(argIndex := |ns| - 1, args := p1.args[|ns| - 1 := ns[|ns| - 1]])
    ensures HasRead(p, p2, ns)
  {
  }

  lemma NoArgs()
    ensures |NO_ARGS| == MAX_ARGS && forall i :: 0 <= i < MAX_ARGS ==> NO_ARGS[i] == -1
  {
  }

  lemma StillOk(p: Parser)
    requires ParserOk(p)
    ensures |p.args| == MAX_ARGS
  {
  }

  lemma ParseSemicolon(p: Parser)
    requires ParserOk(p) && p.argIndex < MAX_ARGS
    ensures ParserOk(p.(argIndex := p.argIndex + 1)) && ParseArgs(p, [';' as int]) == p.(argIndex := p.argIndex + 1)
  {
    assert [';' as int][..0] == [];
    assert ParseArgs(p, []) == p;
  }
}
