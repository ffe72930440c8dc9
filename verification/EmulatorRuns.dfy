/** Whole runs of the emulator object. */
module EmulatorRuns {
  import opened TerminalRows
  import opened TerminalRing
  import opened TerminalState
  import opened TerminalBuffers
  import opened TerminalEmulators
  import opened AlternateScreen
  import opened Transcript
  import opened Pages
  import opened Retyping
  import opened PageReading
  import opened PrintAndRead

  /** Executing a list of operations takes the object through the run of the state machine. */
  method ExecuteAll(e: TerminalEmulator, ops: seq<Op>)
    requires e.Valid() && LegalRun(e.State(), ops)
    modifies e, e.mainBuffer.Repr, e.altBuffer.Repr
    ensures e.Valid() && fresh(e.mainBuffer.Repr - old(e.mainBuffer.Repr))
            && fresh(e.altBuffer.Repr - old(e.altBuffer.Repr))
    ensures e.State() == Run(old(e.State()), ops)
  {
    hide TerminalEmulator.State, TerminalEmulator.Owns, Step, Legal, Inv;
    ghost var t0 := e.State();
    var i := 0;
    assert ops[0..] == ops;
    while i < |ops|
      invariant i <= |ops| && e.Valid()
      invariant fresh(e.mainBuffer.Repr - old(e.mainBuffer.Repr)) && fresh(e.altBuffer.Repr - old(e.altBuffer.Repr))
      invariant Inv(e.State()) && LegalRun(e.State(), ops[i..]) && Run(e.State(), ops[i..]) == Run(t0, ops)
    {
      assert ops[i..][0] == ops[i] && ops[i..][1..] == ops[i + 1..];
      e.Execute(ops[i]);
      i := i + 1;
    }
  }

  lemma MainFits(e: TerminalEmulator)
    requires e.Valid()
    ensures e.mainBuffer.Valid() && TerminalRing.Valid(e.mainBuffer.ring) && e.State().main == e.mainBuffer.ring
  {
    hide TerminalBuffer.Valid, TerminalRing.Valid;
  }

  /** What the transcript of a new terminal is after printing lines separated by CR LF. */
  ghost function Expected(cols: nat, total: nat, lines: seq<seq<Glyph>>): seq<int>
    requires 2 <= cols && 0 < total && AreLines(lines)
  {
    var p := PrintedPage(lines, cols, total);
    var w := Window(p.full, CurrentLine(p, cols, total, NORMAL), total);
    Trim(Joined(w, |w|))
  }

  /** Lines that fit and that reading does not trim. */
  predicate ReadsBack(cols: nat, total: nat, lines: seq<seq<Glyph>>)
    requires 2 <= cols && AreLines(lines)
  {
    && lines != [] && NoTrailingSpace(lines) && RowsNeeded(lines, cols) <= total
    && Trimmed(JoinLines(ScreenTexts(lines, cols)))
  }

  /**
    Prints lines on a new terminal and reads the transcript.  Lines that fit come back as they were, however they
    wrapped and scrolled; for lines that do not fit, the last rows come back.
   */
  method PrintLinesAndRead(cols: nat, rows: nat, total: nat, lines: seq<seq<Glyph>>) returns (text: seq<int>)
    requires 2 <= cols && 2 <= rows <= total && AreLines(lines)
    ensures text == Expected(cols, total, lines)
    ensures ReadsBack(cols, total, lines) ==> text == JoinLines(ScreenTexts(lines, cols))
  {
    hide TerminalEmulator.State, TerminalEmulator.Owns, Inv, Run, LegalRun, LinesOps, JoinLines, TranscriptText,
         PrintedPage, RowsNeeded, Window, CurrentLine, Joined, Trim, Initial, AreLines, PageOk;
    var e := new TerminalEmulator(cols, rows, total);
    PrintAnything(lines, cols, rows, total);
    if ReadsBack(cols, total, lines) {
      PrintThenRead(lines, cols, rows, total);
    }
    ExecuteAll(e, LinesOps(lines));
    MainFits(e);
    text := e.mainBuffer.GetTranscriptText();
  }

  /** Goes to the alternate screen, does anything there but resize, ED 3, RIS, DECSTR and leave, and comes back. */
  method VisitAlternateScreen(e: TerminalEmulator, ops: seq<Op>)
    requires e.Valid() && !e.State().onAlt && LegalRun(EnterAlt(e.State()), ops)
    requires forall i :: 0 <= i < |ops| ==> StaysOnAlt(ops[i])
    modifies e, e.mainBuffer.Repr, e.altBuffer.Repr
    ensures e.Valid() && !e.State().onAlt && e.mainBuffer.ring == old(e.mainBuffer.ring)
    ensures Save(e.State()) == Save(old(e.State()))
  {
    hide TerminalEmulator.State, TerminalEmulator.Owns, Inv, Run, LegalRun, EnterAlt, LeaveAlt, Save, StaysOnAlt;
    ghost var t := e.State();
    SwitchIsStep(t);
    AlternateScreenIsIsolated(t, ops);
    MainFits(e);
    e.Execute(AltScreen(true));
    ExecuteAll(e, ops);
    SwitchIsStep(e.State());
    e.Execute(AltScreen(false));
    MainFits(e);
  }

  lemma SwitchIsStep(t: Term)
    requires Inv(t)
    ensures Legal(t, AltScreen(true)) && Step(t, AltScreen(true)) == EnterAlt(t)
    ensures Legal(t, AltScreen(false)) && Step(t, AltScreen(false)) == LeaveAlt(t)
  {
    hide Inv, EnterAlt, LeaveAlt, StepScreen, StepWrite, StepIndex, StepLine, StepLines, StepCursor, StepModes;
    SwitchesScreen(t, true);
    SwitchesScreen(t, false);
  }

  lemma SwitchesScreen(t: Term, alternate: bool)
    requires Inv(t)
    ensures StepScreen(t, AltScreen(alternate)) == if alternate then EnterAlt(t) else LeaveAlt(t)
  {
    hide Inv, EnterAlt, LeaveAlt, FullReset, ResizeTerminal, ColumnMode;
  }
}
