/** Exactly when bytes take the cursor off the screen or complete a sequence that is not modelled. */
module ScreenExits {
  import opened Wrappers
  import opened Basics
  import opened TerminalState
  import opened EscapeParser
  import opened IntSteps
  import opened EmulatorBytes
  import U = Utf8Stream
  import Utf8

  // ----- Where the screen is left -----

  /** The final character of a CUD or CUF whose argument plus the cursor is no int. */
  predicate Derailing(b: Back, c: int)
    requires ParserOk(b.parser)
  {
    && b.screen.On? && b.parser.state == Csi
    && var n := Arg(b.parser, 0, 1);
    || (Is(c, 'B') && b.screen.term.row + n > MAX_INT)
    || ((Is(c, 'C') || Is(c, 'a')) && b.screen.term.col + n > MAX_INT)
  }

  /** What one step makes of a screen that is on. */
  predicate Exits(b: Back, b': Back, derailing: bool, leftOut: bool) {
    && (b'.screen.OffScreen? <==> derailing) && (b'.screen.Unmodelled? <==> leftOut)
    && (b'.screen.On? ==> IntSized(b'.screen.term))
  }

  lemma CodePointExits(b: Back, c: int, tables: Tables)
    requires BackOk(b) && TablesOk(tables) && b.screen.On? && IntSized(b.screen.term)
    ensures var b' := ApplyCodePoint(b, c, tables);
            Exits(b, b', Derailing(b, c), LeftOut(b.parser, c)) && b'.parser == NextParser(b.parser, c)
  {
    hide Inv, Process, IntRun, IntStep, IntSized, Arg, Given, NextParser;
    var p, t := b.parser, b.screen.term;
    SizeOk(t);
    ArgIsInt(p);
    OnlyTheseMove(p, c, t.rows, t.Pen(), tables);
    ParserAlone(p, c, t.rows, t.Pen(), tables);
    var ops := Process(p, c, t.rows, t.Pen(), tables).1;
    RunKeepsSize(t, ops);
    if p.state == Csi && (Is(c, 'B') || Is(c, 'C') || Is(c, 'a')) {
      RunOne(t, ops[0]);
      CursorLeavesScreen(t, ops[0]);
    } else {
      SteadyRuns(t, ops);
    }
  }

  lemma ArgIsInt(p: Parser)
    requires ParserOk(p)
    ensures Arg(p, 0, 1) <= MAX_INT
  {
  }

  /** The parser after what has been delivered; what is emitted at once does not pass through it. */
  function ParserAfter(p: Parser, events: seq<U.Event>): (p': Parser)
    requires ParserOk(p)
    ensures ParserOk(p')
    decreases |events|
  {
    if events == [] then p
    else
      var p1, e := ParserAfter(p, events[..|events| - 1]), events[|events| - 1];
      if e.Process? then NextParser(p1, e.codePoint as int) else p1
  }

  /** The k-th code point completes a sequence that is left out, which the code points alone decide. */
  predicate LeftOutAt(p: Parser, events: seq<U.Event>, k: nat)
    requires ParserOk(p) && k < |events|
  {
    events[k].Process? && LeftOut(ParserAfter(p, events[..k]), events[k].codePoint as int)
  }

  /** The k-th code point completes a CUD or CUF that takes the cursor off the screen. */
  ghost predicate DerailsAt(b: Back, events: seq<U.Event>, tables: Tables, k: nat)
    requires BackOk(b) && TablesOk(tables) && k < |events|
  {
    events[k].Process? && Derailing(ApplyEvents(b, events[..k], tables), events[k].codePoint as int)
  }

  lemma EventExits(b: Back, e: U.Event, tables: Tables)
    requires BackOk(b) && TablesOk(tables) && b.screen.On? && IntSized(b.screen.term)
    ensures var b' := ApplyEvent(b, e, tables);
            && Exits(b, b', e.Process? && Derailing(b, e.codePoint as int),
                     e.Process? && LeftOut(b.parser, e.codePoint as int))
            && b'.parser == if e.Process? then NextParser(b.parser, e.codePoint as int) else b.parser
  {
    hide Inv, ApplyCodePoint, EmitCodePoint, Derailing, LeftOut, NextParser;
    if e.Process? {
      CodePointExits(b, e.codePoint as int, tables);
    }
  }

  /** What the last code point does. */
  lemma LastExits(b: Back, events: seq<U.Event>, tables: Tables)
    requires BackOk(b) && TablesOk(tables) && events != []
    requires var b1 := ApplyEvents(b, events[..|events| - 1], tables);
             b1.screen.On? ==> IntSized(b1.screen.term) && b1.parser == ParserAfter(b.parser, events[..|events| - 1])
    ensures var n := |events| - 1;
            var before, after := ApplyEvents(b, events[..n], tables).screen, ApplyEvents(b, events, tables);
            if before.On? then
              && (after.screen.OffScreen? <==> DerailsAt(b, events, tables, n))
              && (after.screen.Unmodelled? <==> LeftOutAt(b.parser, events, n))
              && (after.screen.On? ==> IntSized(after.screen.term) && after.parser == ParserAfter(b.parser, events))
            else after.screen == before && !DerailsAt(b, events, tables, n)
  {
    hide Inv, ApplyEvent, ApplyEvents, LeftOut, IntSized, ParserOk, Arg, NextParser;
    var n := |events| - 1;
    var b1 := ApplyEvents(b, events[..n], tables);
    ApplyLast(b, events, tables);
    if b1.screen.On? {
      EventExits(b1, events[n], tables);
    } else {
      StaysOff(b1, events[n], tables);
    }
  }

  /** As long as neither has come the screen is on and the parser is where the code points lead it. */
  lemma {:induction false} StaysOn(b: Back, events: seq<U.Event>, tables: Tables)
    requires BackOk(b) && TablesOk(tables) && b.screen.On? && IntSized(b.screen.term)
    ensures var b' := ApplyEvents(b, events, tables);
            && (b'.screen.On? <==>
                  forall k :: 0 <= k < |events| ==> !DerailsAt(b, events, tables, k) && !LeftOutAt(b.parser, events, k))
            && (b'.screen.On? ==> IntSized(b'.screen.term) && b'.parser == ParserAfter(b.parser, events))
    decreases |events|
  {
    hide Inv, ApplyEvent, ApplyEvents, DerailsAt, LeftOutAt, IntSized, NextParser, ParserOk;
    if events == [] {
      NoEvents(b, tables);
    } else {
      var n := |events| - 1;
      var init := events[..n];
      StaysOn(b, init, tables);
      PrefixesAgree(b, events, tables);
      LastExits(b, events, tables);
    }
  }

  lemma PrefixesAgree(b: Back, events: seq<U.Event>, tables: Tables)
    requires BackOk(b) && TablesOk(tables) && events != []
    ensures var init := events[..|events| - 1];
            forall k :: 0 <= k < |init| ==>
              && (DerailsAt(b, events, tables, k) <==> DerailsAt(b, init, tables, k))
              && (LeftOutAt(b.parser, events, k) <==> LeftOutAt(b.parser, init, k))
  {
    hide Inv, ApplyEvents, Derailing, LeftOut, ParserAfter, ParserOk;
    var init := events[..|events| - 1];
    forall k | 0 <= k < |init|
      ensures DerailsAt(b, events, tables, k) <==> DerailsAt(b, init, tables, k)
      ensures LeftOutAt(b.parser, events, k) <==> LeftOutAt(b.parser, init, k)
    {
      assert events[..k] == init[..k];
    }
  }

  /** A code point completes such a CUD or CUF, and none before it has completed a left-out sequence. */
  ghost predicate FirstDerails(b: Back, events: seq<U.Event>, tables: Tables, k: nat)
    requires BackOk(b) && TablesOk(tables) && k < |events|
  {
    DerailsAt(b, events, tables, k) && forall j :: 0 <= j < k ==> !LeftOutAt(b.parser, events, j)
  }

  /** A code point completes a left-out sequence, and none before it has completed such a CUD or CUF. */
  ghost predicate FirstLeftOut(b: Back, events: seq<U.Event>, tables: Tables, k: nat)
    requires BackOk(b) && TablesOk(tables) && k < |events|
  {
    LeftOutAt(b.parser, events, k) && forall j :: 0 <= j < k ==> !DerailsAt(b, events, tables, j)
  }

  /** Exactly then the cursor leaves the screen, and exactly then the model says no more. */
  lemma {:induction false} LeavesScreenIff(b: Back, events: seq<U.Event>, tables: Tables)
    requires BackOk(b) && TablesOk(tables) && b.screen.On? && IntSized(b.screen.term)
    ensures var screen := ApplyEvents(b, events, tables).screen;
            && (screen.OffScreen? <==> exists k :: 0 <= k < |events| && FirstDerails(b, events, tables, k))
            && (screen.Unmodelled? <==> exists k :: 0 <= k < |events| && FirstLeftOut(b, events, tables, k))
    decreases |events|
  {
    hide Inv, ApplyEvent, ApplyEvents, DerailsAt, LeftOutAt, IntSized, ParserOk;
    if events == [] {
      NoEvents(b, tables);
    } else {
      var n := |events| - 1;
      var init := events[..n];
      LeavesScreenIff(b, init, tables);
      StaysOn(b, init, tables);
      PrefixesAgree(b, events, tables);
      LastExits(b, events, tables);
      assert forall k :: 0 <= k < n ==> FirstDerails(b, events, tables, k) == FirstDerails(b, init, tables, k);
      assert forall k :: 0 <= k < n ==> FirstLeftOut(b, events, tables, k) == FirstLeftOut(b, init, tables, k);
      var before := ApplyEvents(b, init, tables).screen;
      if before.OffScreen? {
        var k :| 0 <= k < |init| && FirstDerails(b, init, tables, k);
        assert FirstDerails(b, events, tables, k);
      } else if before.Unmodelled? {
        var k :| 0 <= k < |init| && FirstLeftOut(b, init, tables, k);
        assert FirstLeftOut(b, events, tables, k);
      } else {
        assert FirstDerails(b, events, tables, n) == DerailsAt(b, events, tables, n);
        assert FirstLeftOut(b, events, tables, n) == LeftOutAt(b.parser, events, n);
      }
    }
  }

  lemma NoEvents(b: Back, tables: Tables)
    requires BackOk(b) && TablesOk(tables)
    ensures ApplyEvents(b, [], tables) == b
  {
  }

  /** In terms of bytes: all that is decoded is searched for such code points. */
  lemma BytesLeaveScreenIff(cols: nat, rows: nat, total: nat, bytes: seq<Utf8.byte>, tables: Tables,
                            replaced: bv32 -> bool)
    requires 2 <= cols <= 0x4000_0000 && 2 <= rows <= total && rows <= 0x4000_0000 && TablesOk(tables)
    ensures var m, events := Start(cols, rows, total), U.FeedAll(U.START, bytes, replaced).1;
            var screen := FeedBytes(m, bytes, tables, replaced).back.screen;
            && (screen.OffScreen? <==> exists k :: 0 <= k < |events| && FirstDerails(m.back, events, tables, k))
            && (screen.Unmodelled? <==> exists k :: 0 <= k < |events| && FirstLeftOut(m.back, events, tables, k))
  {
    hide Inv, FeedBytes, ApplyEvents, U.FeedAll, FirstDerails, FirstLeftOut;
    var m := Start(cols, rows, total);
    DecodeFirst(m, bytes, tables, replaced);
    LeavesScreenIff(m.back, U.FeedAll(U.START, bytes, replaced).1, tables);
  }

  lemma ApplyLast(b: Back, events: seq<U.Event>, tables: Tables)
    requires BackOk(b) && TablesOk(tables) && events != []
    ensures var n := |events| - 1;
            ApplyEvents(b, events, tables) == ApplyEvent(ApplyEvents(b, events[..n], tables), events[n], tables)
  {
    hide BackOk, ApplyEvent;
    var n := |events| - 1;
    ApplyConcat(b, events[..n], [events[n]], tables);
    assert events == events[..n] + [events[n]] && [events[n]][1..] == [];
    var b1 := ApplyEvents(b, events[..n], tables);
    assert ApplyEvents(ApplyEvent(b1, events[n], tables), [], tables) == ApplyEvent(b1, events[n], tables);
  }

  lemma StaysOff(b: Back, e: U.Event, tables: Tables)
    requires BackOk(b) && TablesOk(tables) && !b.screen.On?
    ensures ApplyEvent(b, e, tables) == b
  {
  }

  // ----- A control sequence, byte by byte -----

  function CodeOf(b: Utf8.byte): int {
    b as bv32 as int
  }

  function EventOf(b: Utf8.byte): U.Event {
    U.Process(b as bv32)
  }

  function Events(bytes: seq<Utf8.byte>): (events: seq<U.Event>)
    ensures |events| == |bytes| && forall i :: 0 <= i < |bytes| ==> events[i] == EventOf(bytes[i])
  {
    if bytes == [] then [] else [EventOf(bytes[0])] + Events(bytes[1..])
  }

  /** ASCII is decoded byte by byte. */
  lemma {:induction false} AsciiDecodes(bytes: seq<Utf8.byte>, replaced: bv32 -> bool)
    requires forall i :: 0 <= i < |bytes| ==> bytes[i] < 0x80
    ensures U.FeedAll(U.START, bytes, replaced) == (U.START, Events(bytes))
    decreases |bytes|
  {
    if bytes == [] {
      assert Events(bytes) == [];
    } else {
      AsciiDecodes(bytes[1..], replaced);
      assert U.Feed(U.START, bytes[0], replaced) == (U.START, [EventOf(bytes[0])]);
    }
  }

  function Codes(bytes: seq<Utf8.byte>): (s: seq<int>)
    ensures |s| == |bytes| && forall i :: 0 <= i < |bytes| ==> s[i] == CodeOf(bytes[i])
  {
    if bytes == [] then [] else [CodeOf(bytes[0])] + Codes(bytes[1..])
  }

  predicate AreDigits(s: seq<int>) {
    forall i :: 0 <= i < |s| ==> '0' as int <= s[i] <= '9' as int
  }

  lemma ApplyDigit(b: Back, digit: Utf8.byte, tables: Tables)
    requires BackOk(b) && TablesOk(tables) && b.screen.On? && b.parser.state == Csi
    requires '0' as int <= CodeOf(digit) <= '9' as int
    ensures ApplyEvent(b, EventOf(digit), tables) == Back(ParseArg(b.parser, CodeOf(digit)), b.screen)
    ensures ParseArg(b.parser, CodeOf(digit)).state == Csi
  {
    hide Inv, ParserOk, Process, ParseArg, CodeOf, EventOf;
    SizeOk(b.screen.term);
    LeadsOn(b.parser, CodeOf(digit), b.screen.term.rows, b.screen.term.Pen(), tables);
    ApplySilent(b, digit, ParseArg(b.parser, CodeOf(digit)), tables);
  }

  /** A byte that only leads the parser on. */
  lemma ApplySilent(b: Back, byte: Utf8.byte, p: Parser, tables: Tables)
    requires BackOk(b) && TablesOk(tables) && b.screen.On? && 0 <= b.screen.term.rows
    requires !LeftOut(b.parser, CodeOf(byte))
    requires Process(b.parser, CodeOf(byte), b.screen.term.rows, b.screen.term.Pen(), tables) == (p, [])
    ensures ApplyEvent(b, EventOf(byte), tables) == Back(p, b.screen)
  {
    hide Inv, ParserOk, Process, LeftOut;
    assert IntRun(b.screen.term, []) == Some(b.screen.term);
  }

  /** Digits go to the argument and leave the screen alone. */
  lemma {:induction false} ApplyDigits(b: Back, digits: seq<Utf8.byte>, tables: Tables)
    requires BackOk(b) && TablesOk(tables) && b.screen.On? && b.parser.state == Csi && AreDigits(Codes(digits))
    ensures ApplyEvents(b, Events(digits), tables) == Back(ParseArgs(b.parser, Codes(digits)), b.screen)
    ensures ParseArgs(b.parser, Codes(digits)).state == Csi
    decreases |digits|
  {
    hide Inv, ApplyEvent, ApplyEvents, ParseArg, ParserOk;
    if digits == [] {
      NoEvents(b, tables);
      assert Events(digits) == [] && Codes(digits) == [];
    } else {
      var n := |digits| - 1;
      var init := digits[..n];
      ApplyDigits(b, init, tables);
      assert Events(digits)[..n] == Events(init) && Codes(digits)[..n] == Codes(init);
      ApplyLast(b, Events(digits), tables);
      ApplyDigit(ApplyEvents(b, Events(init), tables), digits[n], tables);
    }
  }

  /** ESC and a bracket begin a control sequence. */
  lemma ApplyIntroducer(b: Back, tables: Tables)
    requires BackOk(b) && TablesOk(tables) && b.screen.On? && b.parser.state == Ground
    ensures ApplyEvents(b, Events([27, 91]), tables)
            == Back(b.parser.(state := Csi, args := NO_ARGS, argIndex := 0), b.screen)
  {
    hide Inv, ParserOk, Process, ApplyEvent, ApplyEvents, EventOf;
    var t := b.screen.term;
    SizeOk(t);
    IntroducerCodes();
    LeadsOn(b.parser, 27, t.rows, t.Pen(), tables);
    ApplySilent(b, 27, b.parser.(state := Esc, args := NO_ARGS, argIndex := 0), tables);
    var b1 := ApplyEvent(b, EventOf(27), tables);
    LeadsOn(b1.parser, 91, t.rows, t.Pen(), tables);
    ApplySilent(b1, 91, b1.parser.(state := Csi), tables);
    ApplyTwo(b, EventOf(27), EventOf(91), tables);
    assert Events([27, 91]) == [EventOf(27), EventOf(91)];
  }

  lemma IntroducerCodes()
    ensures CodeOf(27) == 27 && CodeOf(91) == 91 && Is(91, '[') && CodeOf(66) == 66 && Is(66, 'B')
  {
  }

  lemma ApplyTwo(b: Back, e1: U.Event, e2: U.Event, tables: Tables)
    requires BackOk(b) && TablesOk(tables)
    ensures ApplyEvents(b, [e1, e2], tables) == ApplyEvent(ApplyEvent(b, e1, tables), e2, tables)
  {
    hide BackOk, ApplyEvent;
    assert [e1, e2][1..] == [e2] && [e2][1..] == [];
    var b1 := ApplyEvent(b, e1, tables);
    assert ApplyEvents(ApplyEvent(b1, e2, tables), [], tables) == ApplyEvent(b1, e2, tables);
  }

  /** The final character of CUD. */
  lemma ApplyDown(b: Back, tables: Tables)
    requires BackOk(b) && TablesOk(tables) && b.screen.On? && b.parser.state == Csi
    ensures ApplyEvent(b, EventOf(66), tables).screen
            == match IntStep(b.screen.term, CUD(Arg(b.parser, 0, 1))) case Some(t) => On(t) case None => OffScreen
  {
    hide Inv, ParserOk, Process, IntRun, IntStep;
    var t := b.screen.term;
    SizeOk(t);
    IntroducerCodes();
    OnlyTheseMove(b.parser, 66, t.rows, t.Pen(), tables);
    RunOne(t, CUD(Arg(b.parser, 0, 1)));
  }

  /** ESC [ n B, as bytes, is CUD n in 32-bit arithmetic, for every int. */
  lemma DownSequence(b: Back, digits: seq<Utf8.byte>, n: nat, tables: Tables)
    requires BackOk(b) && TablesOk(tables) && b.screen.On? && b.parser.state == Ground
    requires 1 <= n <= MAX_INT && Codes(digits) == Decimal(n)
    ensures ApplyEvents(b, Events([27, 91] + digits + [66]), tables).screen
            == match IntStep(b.screen.term, CUD(n)) case Some(t) => On(t) case None => OffScreen
  {
    hide Inv, ParserOk, ApplyEvent, ApplyEvents, IntStep, ParseArgs, Decimal, EventOf, Arg;
    var intro := Events([27, 91]);
    ApplyIntroducer(b, tables);
    var b1 := ApplyEvents(b, intro, tables);
    DecimalDigits(n);
    ApplyDigits(b1, digits, tables);
    ParsedArg(b1.parser, n);
    var b2 := ApplyEvents(b1, Events(digits), tables);
    ApplyDown(b2, tables);
    EventsConcat([27, 91], digits + [66]);
    EventsConcat(digits, [66]);
    assert [27, 91] + digits + [66] == [27, 91] + (digits + [66]);
    ApplyConcat(b, intro, Events(digits + [66]), tables);
    ApplyConcat(b1, Events(digits), Events([66]), tables);
    ApplyJust(b2, 66, tables);
  }

  lemma ApplyJust(b: Back, byte: Utf8.byte, tables: Tables)
    requires BackOk(b) && TablesOk(tables)
    ensures ApplyEvents(b, Events([byte]), tables) == ApplyEvent(b, EventOf(byte), tables)
  {
    hide BackOk, ApplyEvent, EventOf;
    assert Events([byte]) == [EventOf(byte)] && [EventOf(byte)][1..] == [];
    var b1 := ApplyEvent(b, EventOf(byte), tables);
    assert ApplyEvents(b1, [], tables) == b1;
  }

  lemma EventsConcat(a: seq<Utf8.byte>, b: seq<Utf8.byte>)
    ensures Events(a + b) == Events(a) + Events(b)
  {
    hide EventOf;
  }

  lemma {:induction false} DecimalDigits(n: nat)
    ensures AreDigits(Decimal(n))
  {
    if n >= 10 {
      DecimalDigits(n / 10);
    }
  }

  lemma ParsedArg(p: Parser, n: nat)
    requires ParserOk(p) && p.args == NO_ARGS && p.argIndex == 0 && 1 <= n <= MAX_INT
    ensures Arg(ParseArgs(p, Decimal(n)), 0, 1) == n
  {
    hide ParseArgs, Decimal;
    NoArgs();
    ParseDecimal(p, n);
  }

  /** LF and CUD with the largest int. */
  const FAR_DOWN: seq<Utf8.byte> := [10, 27, 91] + MAX_DIGITS + [66]
  const MAX_DIGITS: seq<Utf8.byte> := [50, 49, 52, 55, 52, 56, 51, 54, 52, 55]

  lemma NextDigit(n: nat, d: nat)
    requires 1 <= n && d < 10
    ensures Decimal(10 * n + d) == Decimal(n) + [d + 48]
  {
    var m := 10 * n + d;
    assert m / 10 == n && m % 10 == d;
    assert Decimal(m) == Decimal(m / 10) + [m % 10 + '0' as int];
  }

  lemma MaxDecimal()
    ensures Decimal(MAX_INT) == [50, 49, 52, 55, 52, 56, 51, 54, 52, 55]
  {
    assert Decimal(2) == [50];
    hide Decimal;
    NextDigit(2, 1);
    NextDigit(21, 4);
    NextDigit(214, 7);
    NextDigit(2147, 4);
    NextDigit(21474, 8);
    NextDigit(214748, 3);
    NextDigit(2147483, 6);
    NextDigit(21474836, 4);
    NextDigit(214748364, 7);
  }

  lemma DigitCodes()
    ensures CodeOf(49) == 49 && CodeOf(50) == 50 && CodeOf(51) == 51 && CodeOf(52) == 52
    ensures CodeOf(54) == 54 && CodeOf(55) == 55 && CodeOf(56) == 56
  {
  }

  lemma MaxDigits()
    ensures Codes(MAX_DIGITS) == Decimal(MAX_INT)
  {
    hide CodeOf, Codes, Decimal;
    DigitCodes();
    MaxDecimal();
  }

  lemma LineFeedFromTop()
    ensures LegalRun(Initial(2, 2, 2), [LF])
    ensures var t := Run(Initial(2, 2, 2), [LF]); t.row == 1 && t.rows == 2 && t.cols == 2
  {
    hide ScreensOk, TerminalState.ScrollDownOneLine, Step;
    var t := Initial(2, 2, 2);
    assert [LF][1..] == [];
    LineFeedStep(t);
    assert Run(Step(t, LF), []) == Step(t, LF);
  }

  lemma LineFeedStep(t: Term)
    requires Inv(t)
    ensures Step(t, LF) == DoLinefeed(t)
  {
    hide Inv, DoLinefeed;
  }

  /** LF: the cursor goes to the second row. */
  lemma SecondRow(tables: Tables, replaced: bv32 -> bool)
    requires TablesOk(tables)
    ensures var b := Start(2, 2, 2).back;
            var b' := ApplyEvent(b, EventOf(10), tables);
            b'.parser.state == Ground && b'.screen.On? && b'.screen.term.row == 1 && IntSized(b'.screen.term)
  {
    hide Inv, ParserOk, ApplyEvent, Run, LegalRun, Initial;
    LineFeedFromTop();
    ApplyOne(Start(2, 2, 2).back, 10, tables, replaced);
    assert EventOf(10) == U.Process(10) && OpOf(10, tables) == LF;
  }

  lemma FarDownAscii()
    ensures FAR_DOWN == [10] + ([27, 91] + MAX_DIGITS + [66])
    ensures forall i :: 0 <= i < |FAR_DOWN| ==> FAR_DOWN[i] < 0x80
  {
  }

  /** Bytes that take the cursor of a terminal with two rows off the screen. */
  lemma FarDownBytes(tables: Tables, replaced: bv32 -> bool)
    requires TablesOk(tables)
    ensures FeedBytes(Start(2, 2, 2), FAR_DOWN, tables, replaced).back.screen == OffScreen
  {
    hide FAR_DOWN, MAX_DIGITS, FeedBytes, ApplyEvents, ApplyEvent, EventOf, U.FeedAll, Inv, ParserOk, Start;
    var m, rest := Start(2, 2, 2), [27, 91] + MAX_DIGITS + [66];
    DecodeFirst(m, FAR_DOWN, tables, replaced);
    FarDownAscii();
    AsciiDecodes(FAR_DOWN, replaced);
    StartsInGround(2, 2, 2);
    EventsConcat([10], rest);
    ApplyConcat(m.back, Events([10]), Events(rest), tables);
    ApplyJust(m.back, 10, tables);
    DownFromSecondRow(tables, replaced);
  }

  lemma StartsInGround(cols: nat, rows: nat, total: nat)
    requires 2 <= cols && 2 <= rows <= total
    ensures Start(cols, rows, total).decoder == U.START
  {
  }

  lemma DownFromSecondRow(tables: Tables, replaced: bv32 -> bool)
    requires TablesOk(tables)
    ensures var b := ApplyEvent(Start(2, 2, 2).back, EventOf(10), tables);
            ApplyEvents(b, Events([27, 91] + MAX_DIGITS + [66]), tables).screen == OffScreen
  {
    hide ApplyEvents, ApplyEvent, EventOf, Inv, ParserOk, Start, IntStep, Decimal, Codes, MAX_DIGITS;
    SecondRow(tables, replaced);
    MaxDigits();
    var b := ApplyEvent(Start(2, 2, 2).back, EventOf(10), tables);
    DownSequence(b, MAX_DIGITS, MAX_INT, tables);
    CursorLeavesScreen(b.screen.term, CUD(MAX_INT));
  }

  /** ESC [ ? 6 9 h, which makes left and right margins available. */
  const MARGIN_MODE: seq<Utf8.byte> := [27, 91, 63, 54, 57, 104]

  lemma MarginModeCodes()
    ensures CodeOf(27) == 27 && CodeOf(91) == 91 && CodeOf(63) == 63 && CodeOf(54) == 54 && CodeOf(57) == 57
    ensures CodeOf(104) == 104
  {
  }

  lemma ParserAfterByte(p: Parser, bytes: seq<Utf8.byte>, k: nat)
    requires ParserOk(p) && k < |bytes|
    ensures ParserAfter(p, Events(bytes)[..k + 1])
            == NextParser(ParserAfter(p, Events(bytes)[..k]), CodeOf(bytes[k]))
  {
    hide NextParser, ParserOk;
    assert Events(bytes)[..k + 1][..k] == Events(bytes)[..k];
  }

  /** The parser in a private sequence whose argument is n so far. */
  function Private(n: int): Parser {
    Parser(Question, NO_ARGS[0 := n], 0, 0)
  }

  lemma PrivateBegins()
    ensures NextParser(Idle(), 27) == Parser(Esc, NO_ARGS, 0, 0)
    ensures NextParser(Parser(Esc, NO_ARGS, 0, 0), 91) == Parser(Csi, NO_ARGS, 0, 0)
  {
  }

  lemma PrivateMark()
    ensures ParserOk(Parser(Csi, NO_ARGS, 0, 0)) && NextParser(Parser(Csi, NO_ARGS, 0, 0), 63) == Private(-1)
  {
    assert NO_ARGS[0 := -1] == NO_ARGS;
  }

  lemma PrivateDigits()
    ensures ParserOk(Private(-1)) && NextParser(Private(-1), 54) == Private(6)
    ensures ParserOk(Private(6)) && NextParser(Private(6), 57) == Private(69)
    ensures ParserOk(Private(69)) && LeftOut(Private(69), 104)
  {
    assert Given(Private(69))[0] == 69;
  }

  /** The first sequence of the margins is left out: from then on the model says nothing. */
  lemma MarginModeLeftOut()
    ensures LeftOutAt(Idle(), Events(MARGIN_MODE), 5)
  {
    hide CodeOf, Events, ParserAfter, NextParser, LeftOut, Private;
    MarginModeCodes();
    PrivateBegins();
    PrivateMark();
    PrivateDigits();
    var p := Idle();
    NoParsing(p, Events(MARGIN_MODE)[..0]);
    ParserAfterByte(p, MARGIN_MODE, 0);
    ParserAfterByte(p, MARGIN_MODE, 1);
    ParserAfterByte(p, MARGIN_MODE, 2);
    ParserAfterByte(p, MARGIN_MODE, 3);
    ParserAfterByte(p, MARGIN_MODE, 4);
    LastIsProcess(MARGIN_MODE, 5);
  }

  lemma LastIsProcess(bytes: seq<Utf8.byte>, k: nat)
    requires k < |bytes|
    ensures Events(bytes)[k].Process? && Events(bytes)[k].codePoint as int == CodeOf(bytes[k])
  {
  }

  lemma NoParsing(p: Parser, events: seq<U.Event>)
    requires ParserOk(p) && events == []
    ensures ParserAfter(p, events) == p
  {
  }
}
