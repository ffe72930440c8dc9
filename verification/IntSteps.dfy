/** Cursor movements in Java's arithmetic, in which the sum of the cursor and an argument may wrap around. */
module IntSteps {
  import opened Wrappers
  import opened Basics
  import opened TerminalState
  import opened EscapeParser
  import TerminalResize

  /** setCursorPosition. */
  function IntPosition(t: Term, x: int, y: int): (t': Term)
    ensures Inv(t) ==> Inv(t')
    ensures t'.rows == t.rows && t'.cols == t.cols
  {
    var effectiveTop := if t.origin then t.top else 0;
    var effectiveBottom := if t.origin then t.bottom else t.rows;
    var newRow := Max(effectiveTop, Min(ToInt(effectiveTop + y), effectiveBottom - 1));
    SetCursorRowCol(t, newRow, Max(0, Min(x, t.cols - 1)))
  }

  /** One operation; there is no state when the cursor has left the screen. */
  function IntStep(t: Term, op: Op): (r: Option<Term>)
    requires Inv(t) && Legal(t, op)
    ensures r.Some? ==> Inv(r.value)
  {
    hide Inv, SetCursorRow, SetCursorCol, IntPosition, Step;
    match op
    case CUD(n) =>
      var row := Min(t.rows - 1, ToInt(t.row + n));
      if 0 <= row then OnScreen(t, row, 0); Some(SetCursorRow(t, row)) else None
    case CUF(n) =>
      var col := Min(t.cols - 1, ToInt(t.col + n));
      if 0 <= col then OnScreen(t, 0, col); Some(SetCursorCol(t, col)) else None
    case CNL(n) => Some(IntPosition(t, 0, ToInt(t.row + n)))
    case VPR(n) => Some(IntPosition(t, t.col, ToInt(t.row + n)))
    case CUP(y, x) => Some(IntPosition(t, x - 1, y - 1))
    case _ => Some(Step(t, op))
  }

  lemma OnScreen(t: Term, row: int, col: int)
    requires Inv(t) && 0 <= row <= t.rows - 1 && 0 <= col <= t.cols - 1
    ensures Inv(SetCursorRow(t, row)) && Inv(SetCursorCol(t, col))
  {
  }

  /** The size of the screen and the argument are ints, with room for the sum of two screen positions. */
  predicate IntSized(t: Term) {
    t.rows <= 0x4000_0000 && t.cols <= 0x4000_0000
  }

  predicate IntArgument(op: Op) {
    && (op.CUD? || op.CUF? || op.CNL? || op.VPR? ==> op.n <= MAX_INT)
    && (op.CUP? ==> op.y <= MAX_INT && op.x <= MAX_INT)
  }

  /** The cursor plus the argument is no int. */
  predicate Derails(t: Term, op: Op) {
    (op.CUD? && t.row + op.n > MAX_INT) || (op.CUF? && t.col + op.n > MAX_INT)
  }

  /** The same, or the position in the region is no int. */
  predicate Exceeds(t: Term, op: Op) {
    var top := if t.origin then t.top else 0;
    || Derails(t, op)
    || ((op.CNL? || op.VPR?) && top + t.row + op.n > MAX_INT)
    || (op.CUP? && top + op.y - 1 > MAX_INT)
  }

  lemma Bounds(t: Term)
    requires Inv(t)
    ensures 0 <= t.row < t.rows && 0 <= t.col < t.cols && 2 <= t.rows && 2 <= t.cols
    ensures 0 <= t.top <= t.rows - 2 && t.top + 2 <= t.bottom <= t.rows
  {
  }

  /** The cursor leaves the screen exactly for CUD and CUF with such an argument. */
  lemma CursorLeavesScreen(t: Term, op: Op)
    requires Inv(t) && Legal(t, op) && IntSized(t) && IntArgument(op)
    ensures IntStep(t, op).None? <==> Derails(t, op)
  {
    hide Inv, Step, SetCursorRow, SetCursorCol, IntPosition, ToInt;
    Bounds(t);
    if op.CUD? {
      ToIntOf(t.row + op.n);
    } else if op.CUF? {
      ToIntOf(t.col + op.n);
    }
  }

  /** CUD with the largest int, on the second row. */
  lemma FarDown()
    ensures var t := SetCursorRow(Initial(2, 2, 2), 1); Inv(t) && IntStep(t, CUD(MAX_INT)).None?
  {
    hide IntStep, ScreensOk;
    var t := SetCursorRow(Initial(2, 2, 2), 1);
    CursorLeavesScreen(t, CUD(MAX_INT));
  }

  /** The movements in question, as the state machine does them. */
  lemma Moves(t: Term, op: Op)
    requires Inv(t) && Legal(t, op) && (op.CUD? || op.CUF? || op.CNL? || op.VPR? || op.CUP?)
    ensures Step(t, op)
            == match op
               case CUD(n) => SetCursorRow(t, Min(t.rows - 1, t.row + n))
               case CUF(n) => SetCursorCol(t, Min(t.cols - 1, t.col + n))
               case CNL(n) => SetCursorPosition(t, 0, t.row + n)
               case VPR(n) => SetCursorPosition(t, t.col, t.row + n)
               case CUP(y, x) => SetCursorPosition(t, x - 1, y - 1)
               case _ => t
  {
    hide Inv, SetCursorRow, SetCursorCol, SetCursorPosition, SetCursorRowCol, StepModes, StepRows, SetMargins, TabTo,
         NextTabStop, PreviousTabStop;
  }

  lemma DownIsStep(t: Term, n: nat)
    requires Inv(t) && IntSized(t) && n <= MAX_INT
    ensures IntStep(t, CUD(n)) == Some(Step(t, CUD(n))) <==> t.row + n <= MAX_INT
  {
    hide Inv, Step, ToInt, SetCursorRow;
    Bounds(t);
    Moves(t, CUD(n));
    ToIntOf(t.row + n);
  }

  lemma ForwardIsStep(t: Term, n: nat)
    requires Inv(t) && IntSized(t) && n <= MAX_INT
    ensures IntStep(t, CUF(n)) == Some(Step(t, CUF(n))) <==> t.col + n <= MAX_INT
  {
    hide Inv, Step, ToInt, SetCursorCol;
    Bounds(t);
    Moves(t, CUF(n));
    ToIntOf(t.col + n);
  }

  /** An operation does what the state machine says exactly if no sum exceeds the range. */
  lemma IntStepIsStep(t: Term, op: Op)
    requires Inv(t) && Legal(t, op) && IntSized(t) && IntArgument(op)
    ensures IntStep(t, op) == Some(Step(t, op)) <==> !Exceeds(t, op)
  {
    hide Inv, Step, SetCursorRow, SetCursorCol, SetCursorPosition, IntPosition, ToInt;
    Bounds(t);
    if op.CUD? {
      DownIsStep(t, op.n);
    } else if op.CUF? {
      ForwardIsStep(t, op.n);
    } else if op.CNL? || op.VPR? {
      DownLinesIsStep(t, op);
    } else if op.CUP? {
      PositionIsStep(t, op);
    }
  }

  lemma DownLinesIsStep(t: Term, op: Op)
    requires Inv(t) && Legal(t, op) && IntSized(t) && IntArgument(op) && (op.CNL? || op.VPR?)
    ensures IntStep(t, op) == Some(Step(t, op)) <==> !Exceeds(t, op)
  {
    hide Inv, Step, SetCursorPosition, IntPosition, ToInt;
    Bounds(t);
    Moves(t, op);
    PositionExceeds(t, if op.CNL? then 0 else t.col, t.row + op.n);
  }

  lemma PositionIsStep(t: Term, op: Op)
    requires Inv(t) && Legal(t, op) && IntSized(t) && IntArgument(op) && op.CUP?
    ensures IntStep(t, op) == Some(Step(t, op)) <==> !Exceeds(t, op)
  {
    hide Inv, Step, SetCursorPosition, IntPosition, ToInt;
    Bounds(t);
    Moves(t, op);
    ToIntOf(op.y - 1);
    PositionExceeds(t, op.x - 1, op.y - 1);
  }

  /** A sum that wraps around counts as above the region, and so the cursor goes to its top instead of its bottom. */
  lemma WrappedRow(top: int, bottom: int, y: int)
    requires 0 <= top && top + 2 <= bottom <= 0x4000_0000 && -1 <= y <= 0x4000_0000 + MAX_INT
    ensures Max(top, Min(ToInt(top + ToInt(y)), bottom - 1))
            == if top + y <= MAX_INT then Max(top, Min(top + y, bottom - 1)) else top
    ensures top + y > MAX_INT ==> Max(top, Min(top + y, bottom - 1)) == bottom - 1
  {
    hide ToInt;
    ToIntOf(y);
    ToIntOf(top + ToInt(y));
  }

  lemma RowSet(t: Term, row: int, col: int)
    requires 0 <= row < t.rows
    ensures SetCursorRowCol(t, row, col).row == row
  {
  }

  lemma PositionExceeds(t: Term, x: int, y: int)
    requires Inv(t) && IntSized(t) && -1 <= y <= t.rows + MAX_INT
    ensures var top := if t.origin then t.top else 0;
            IntPosition(t, x, ToInt(y)) == SetCursorPosition(t, x, y) <==> top + y <= MAX_INT
  {
    hide Inv, ToInt, SetCursorRowCol, Max, Min;
    Bounds(t);
    var top, bottom := if t.origin then t.top else 0, if t.origin then t.bottom else t.rows;
    WrappedRow(top, bottom, y);
    var col := Max(0, Min(x, t.cols - 1));
    RowSet(t, top, col);
    RowSet(t, bottom - 1, col);
  }

  lemma ToIntOf(n: int)
    requires -0x8000_0000 <= n <= MAX_INT + 0x8000_0000
    ensures ToInt(n) == if n <= MAX_INT then n else n - 0x1_0000_0000
  {
  }

  // ----- Runs -----

  function IntRun(t: Term, ops: seq<Op>): (r: Option<Term>)
    requires Inv(t) && AllSimple(ops)
    ensures r.Some? ==> Inv(r.value)
    decreases |ops|
  {
    hide Inv, IntStep;
    if ops == [] then Some(t)
    else
      match IntStep(t, ops[0])
      case Some(t1) => IntRun(t1, ops[1..])
      case None => None
  }

  lemma {:induction false} SteadyRuns(t: Term, ops: seq<Op>)
    requires Inv(t) && AllSimple(ops) && AllSteady(ops)
    ensures IntRun(t, ops).Some?
    decreases |ops|
  {
    hide Inv, Step, IntPosition;
    if ops != [] {
      SteadyRuns(IntStep(t, ops[0]).value, ops[1..]);
    }
  }

  /** A single operation. */
  lemma RunOne(t: Term, op: Op)
    requires Inv(t) && Simple(op)
    ensures IntRun(t, [op]) == IntStep(t, op)
  {
    hide Inv, IntStep;
    assert [op][1..] == [];
    if IntStep(t, op).Some? {
      assert IntRun(IntStep(t, op).value, []) == Some(IntStep(t, op).value);
    }
  }

  lemma StepKeepsSize(t: Term, op: Op)
    requires Inv(t) && Legal(t, op) && !op.WindowSize?
    ensures Step(t, op).rows == t.rows && Step(t, op).cols == t.cols
  {
    hide Inv, Step, FullReset, SoftReset, LeaveAlt, EnterAlt, EraseInDisplay;
    if !Confined(op) {
      OtherSteps(t, op);
      ResetKeepsSize(t);
      LeaveKeepsSize(t);
      EraseKeepsSize(t);
    }
  }

  lemma OtherSteps(t: Term, op: Op)
    requires Inv(t) && Legal(t, op) && !Confined(op) && !op.WindowSize?
    ensures Step(t, op)
            == match op
               case RIS => FullReset(t)
               case DECSTR => SoftReset(t)
               case AltScreen(b) => if b then EnterAlt(t) else LeaveAlt(t)
               case _ => EraseInDisplay(t, 3)
  {
    hide Inv, FullReset, SoftReset, LeaveAlt, EnterAlt, EraseInDisplay, StepWrite, StepIndex, StepLine, StepCursor;
    hide InsertLines, DeleteLines, InsertColumns, ScrollLines, ScrollRegionDown, ColumnMode, ResizeTerminal, Save,
         SaveCursor, RestoreCursor, Local;
  }

  lemma ResetKeepsSize(t: Term)
    requires Inv(t)
    ensures SoftReset(t).rows == t.rows && SoftReset(t).cols == t.cols
    ensures FullReset(t).rows == t.rows && FullReset(t).cols == t.cols
  {
    hide Inv, ClearBlock, SetCursorPosition;
  }

  lemma LeaveKeepsSize(t: Term)
    requires Inv(t)
    ensures LeaveAlt(t).rows == t.rows && LeaveAlt(t).cols == t.cols
  {
    hide ScreensOk, TerminalResize.Resize;
  }

  lemma EraseKeepsSize(t: Term)
    requires Inv(t)
    ensures EraseInDisplay(t, 3).rows == t.rows && EraseInDisplay(t, 3).cols == t.cols
  {
    hide ClearBlock;
  }

  lemma {:induction false} RunKeepsSize(t: Term, ops: seq<Op>)
    requires Inv(t) && AllSimple(ops) && IntSized(t)
    ensures IntRun(t, ops).Some? ==> IntSized(IntRun(t, ops).value)
    decreases |ops|
  {
    hide Inv, Step, IntPosition;
    if ops != [] {
      StepKeepsSize(t, ops[0]);
      if IntStep(t, ops[0]).Some? {
        RunKeepsSize(IntStep(t, ops[0]).value, ops[1..]);
      }
    }
  }
}
