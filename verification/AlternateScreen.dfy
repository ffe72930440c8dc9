/** What happens on the alternate screen does not reach the main screen. */
module AlternateScreen {
  import opened TerminalRing
  import opened TerminalState

  /** Any operation but a change of the window size, ED 3, RIS, DECSTR and the switch back. */
  predicate StaysOnAlt(op: Op) {
    Confined(op) || op == AltScreen(true)
  }

  lemma StepKeepsMain(t: Term, op: Op)
    requires Inv(t) && t.onAlt && Legal(t, op) && StaysOnAlt(op)
    ensures Local(t, Step(t, op))
  {
    hide Inv;
  }

  lemma {:induction false} RunKeepsMain(t: Term, ops: seq<Op>)
    requires Inv(t) && t.onAlt && LegalRun(t, ops)
    requires forall i :: 0 <= i < |ops| ==> StaysOnAlt(ops[i])
    ensures Local(t, Run(t, ops))
    decreases |ops|
  {
    hide Inv, Step, Legal, StaysOnAlt;
    if ops != [] {
      StepKeepsMain(t, ops[0]);
      RunKeepsMain(Step(t, ops[0]), ops[1..]);
    }
  }

  lemma LeaveRestores(t: Term)
    requires Inv(t) && t.onAlt && t.main.cols == t.cols && t.main.rows == t.rows
    ensures var t' := LeaveAlt(t);
            !t'.onAlt && t'.main == t.main && t'.rows == t.rows && t'.cols == t.cols && Save(t') == t.savedMain
  {
    hide Valid;
  }

  /**
    Entering the alternate screen, any run there and leaving it again: the main screen with its history is as it
    was, and so are the cursor, the colours and effects, autowrap, origin mode and the character sets.
   */
  lemma AlternateScreenIsIsolated(t: Term, ops: seq<Op>)
    requires Inv(t) && !t.onAlt && LegalRun(EnterAlt(t), ops)
    requires forall i :: 0 <= i < |ops| ==> StaysOnAlt(ops[i])
    ensures var t' := LeaveAlt(Run(EnterAlt(t), ops));
            !t'.onAlt && t'.main == t.main && t'.rows == t.rows && t'.cols == t.cols && Save(t') == Save(t)
  {
    hide Valid, EnterAlt, LeaveAlt, Run;
    RunKeepsMain(EnterAlt(t), ops);
    LeaveRestores(Run(EnterAlt(t), ops));
  }
}
