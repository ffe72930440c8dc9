/** Where the cursor movements and the margins put the cursor, in and outside of origin mode. */
module CursorEffects {
  import opened Basics
  import opened TerminalState
  import opened IntSteps

  // ----- Positions -----

  /** The first line of the region in which positions count. */
  function First(t: Term): int {
    if t.origin then t.top else 0
  }

  /** The line after the last one. */
  function Beyond(t: Term): int {
    if t.origin then t.bottom else t.rows
  }

  /** Line y of the region, counted from 0, or the nearest one of its lines. */
  predicate IsLine(t: Term, y: int, row: int) {
    if y < 0 then row == First(t) else if First(t) + y < Beyond(t) then row == First(t) + y else row == Beyond(t) - 1
  }

  /** The same in 32-bit arithmetic, where a line too far down wraps around and counts as above the region. */
  predicate IsIntLine(t: Term, y: int, row: int) {
    if First(t) + y <= MAX_INT then IsLine(t, y, row) else row == First(t)
  }

  /** Column x, or the nearest one. */
  predicate IsColumn(t: Term, x: int, col: int) {
    if x < 0 then col == 0 else if x < t.cols then col == x else col == t.cols - 1
  }

  /** Only the cursor has moved. */
  predicate Moved(t: Term, t': Term) {
    t' == t.(row := t'.row, col := t'.col, aboutToWrap := false)
  }

  lemma PositionReached(t: Term, x: int, y: int)
    requires Inv(t)
    ensures var t' := SetCursorPosition(t, x, y); Moved(t, t') && IsLine(t, y, t'.row) && IsColumn(t, x, t'.col)
  {
    hide ScreensOk;
  }

  lemma IntPositionReached(t: Term, x: int, y: int)
    requires Inv(t) && IntSized(t) && -1 <= y <= t.rows + MAX_INT
    ensures var t' := IntPosition(t, x, ToInt(y)); Moved(t, t') && IsIntLine(t, y, t'.row) && IsColumn(t, x, t'.col)
  {
    hide ScreensOk, ToInt;
    WrappedRow(First(t), Beyond(t), y);
  }

  predicate IsPlainMove(op: Op) {
    op.CUU? || op.CUD? || op.CUF? || op.CUB? || op.CHA? || op.VPA? || op.CR?
  }

  /** Relative to the cursor, or to a given column or line of the screen: these do not depend on origin mode. */
  predicate GoesPlainly(t: Term, op: Op, row: int, col: int) {
    match op
    case CUU(n) => col == t.col && row == if n <= t.row then t.row - n else 0
    case CUD(n) => col == t.col && row == if t.row + n < t.rows then t.row + n else t.rows - 1
    case CUF(n) => row == t.row && col == if t.col + n < t.cols then t.col + n else t.cols - 1
    case CUB(n) => row == t.row && col == if n <= t.col then t.col - n else 0
    case CHA(n) => row == t.row && IsColumn(t, n - 1, col)
    case VPA(n) => col == t.col && row == if n == 0 then 0 else if n <= t.rows then n - 1 else t.rows - 1
    case CR => row == t.row && col == 0
    case _ => true
  }

  lemma StepMoves(t: Term, op: Op)
    requires Inv(t) && MovesCursor(op)
    ensures Step(t, op) == StepCursor(t, op)
  {
    hide Inv, StepCursor, StepRows, StepModes;
  }

  lemma VerticalStep(t: Term, op: Op)
    requires Inv(t) && (op.CUU? || op.CUD? || op.VPA?)
    ensures Moved(t, StepCursor(t, op)) && GoesPlainly(t, op, StepCursor(t, op).row, StepCursor(t, op).col)
  {
    hide ScreensOk, SetCursorCol, SetMargins, SetCursorPosition, SetCursorRowCol, TabTo, NextTabStop, PreviousTabStop,
         IsColumn;
  }

  lemma HorizontalStep(t: Term, op: Op)
    requires Inv(t) && (op.CUF? || op.CUB? || op.CHA? || op.CR?)
    ensures Moved(t, StepCursor(t, op)) && GoesPlainly(t, op, StepCursor(t, op).row, StepCursor(t, op).col)
  {
    hide ScreensOk, SetCursorRow, SetMargins, SetCursorPosition, SetCursorRowCol, TabTo, NextTabStop, PreviousTabStop;
  }

  lemma PlainMoves(t: Term, op: Op)
    requires Inv(t) && IsPlainMove(op)
    ensures Moved(t, Step(t, op)) && GoesPlainly(t, op, Step(t, op).row, Step(t, op).col)
  {
    hide Inv, Step, StepCursor, Moved, GoesPlainly;
    StepMoves(t, op);
    if op.CUU? || op.CUD? || op.VPA? {
      VerticalStep(t, op);
    } else {
      HorizontalStep(t, op);
    }
  }

  predicate IsRegionMove(op: Op) {
    op.CUP? || op.CNL? || op.CPL? || op.HPA? || op.VPR?
  }

  /** The column and the line of the region that are asked for. */
  function WantedColumn(t: Term, op: Op): int {
    match op
    case CUP(_, x) => x - 1
    case HPA(n) => n - 1
    case VPR(_) => t.col
    case _ => 0
  }

  function WantedLine(t: Term, op: Op): int {
    match op
    case CUP(y, _) => y - 1
    case CNL(n) => t.row + n
    case CPL(n) => t.row - n
    case VPR(n) => t.row + n
    case _ => t.row
  }

  /** Positions in the region. */
  lemma RegionMoves(t: Term, op: Op)
    requires Inv(t) && IsRegionMove(op)
    ensures var t' := Step(t, op);
            Moved(t, t') && IsLine(t, WantedLine(t, op), t'.row) && IsColumn(t, WantedColumn(t, op), t'.col)
  {
    hide Inv, SetCursorPosition, Moved, IsLine, IsColumn, Step;
    RegionStep(t, op);
    PositionReached(t, WantedColumn(t, op), WantedLine(t, op));
  }

  lemma RegionStep(t: Term, op: Op)
    requires Inv(t) && IsRegionMove(op)
    ensures Step(t, op) == SetCursorPosition(t, WantedColumn(t, op), WantedLine(t, op))
  {
    hide Inv, SetCursorPosition, SetCursorRow, SetCursorCol, SetCursorRowCol, TabTo, SetMargins, StepRows, StepModes,
         NextTabStop, PreviousTabStop;
  }

  /**
    HPA, which is to change the column alone, keeps the line exactly if positions count from the first line of the
    screen and the cursor is not below the region, or the cursor is on the last line of the region.
   */
  lemma ColumnKeepsLineIff(t: Term, n: nat)
    requires Inv(t)
    ensures Step(t, HPA(n)).row == t.row <==> !t.origin || (t.top == 0 && t.row < t.bottom) || t.row == t.bottom - 1
  {
    hide ScreensOk, Step;
    RegionMoves(t, HPA(n));
  }

  /** CNL and VPR go n lines down exactly if the same holds; else they count from the top margin again. */
  lemma LinesDownIff(t: Term, n: nat)
    requires Inv(t) && t.row + n < Beyond(t)
    ensures Step(t, CNL(n)).row == t.row + n <==> !t.origin || t.top == 0 || t.row + n == t.bottom - 1
    ensures Step(t, VPR(n)).row == t.row + n <==> !t.origin || t.top == 0 || t.row + n == t.bottom - 1
  {
    hide ScreensOk, Step;
    RegionMoves(t, CNL(n));
    RegionMoves(t, VPR(n));
  }

  // ----- Margins -----

  /** The line in which a region may begin, and the line after its end. */
  predicate AreMargins(t: Term, y1: nat, y2: nat, top: int, bottom: int) {
    && top == (if y1 == 0 then 0 else if y1 < t.rows then y1 - 1 else t.rows - 2)
    && bottom == (if y2 < top + 2 then top + 2 else if y2 <= t.rows then y2 else t.rows)
  }

  /** DECSTBM: the region goes from line y1 to line y2, and the cursor to its beginning or that of the screen. */
  lemma MarginsSet(t: Term, y1: nat, y2: nat)
    requires Inv(t)
    ensures var t' := Step(t, DECSTBM(y1, y2));
            && AreMargins(t, y1, y2, t'.top, t'.bottom)
            && t' == t.(top := t'.top, bottom := t'.bottom, row := t'.row, col := 0, aboutToWrap := false)
            && t'.row == if t.origin then t'.top else 0
  {
    hide ScreensOk, StepRows, StepModes;
  }

  /** DECOM: the cursor goes to the beginning of the region, and stays where it is when the mode is left. */
  lemma OriginSet(t: Term, b: bool)
    requires Inv(t)
    ensures var t' := Step(t, DECOM(b));
            t' == if b then t.(origin := true, row := t.top, col := 0, aboutToWrap := false) else t.(origin := false)
  {
    hide ScreensOk, StepRows, StepModes;
  }

  /** ESC F goes to the first line; the column is that of the last line of the region. */
  lemma LowerLeftIs(t: Term)
    requires Inv(t)
    ensures var t' := Step(t, LowerLeft); Moved(t, t') && t'.row == 0 && IsColumn(t, t.bottom - 1, t'.col)
  {
    hide ScreensOk, StepRows, StepModes;
  }

  /** So it reaches the lower left corner of the region never. */
  lemma LowerLeftMissed(t: Term)
    requires Inv(t)
    ensures var t' := Step(t, LowerLeft); !(t'.row == t.bottom - 1 && t'.col == 0)
  {
    hide ScreensOk, Step;
    LowerLeftIs(t);
  }
}
