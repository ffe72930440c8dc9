/** What each editing, scrolling, mode and reset operation leaves of the terminal. */
module ScreenEffects {
  import opened Basics
  import opened TerminalRows
  import opened TerminalRing
  import opened BlockCopies
  import opened LineEditing
  import opened TerminalState
  import opened Editing
  import opened CursorMoves
  import opened CursorEffects
  import IntSteps

  // ----- Effects -----

  /** All rows blank. */
  ghost predicate AllBlank(t: Term) {
    forall x: nat, y: nat :: x < t.cols && y < t.rows ==> TextAt(t.Cur(), x, y) == BLANK
  }

  ghost predicate SameText(t: Term, t': Term) {
    forall x: nat, y: nat :: x < t.cols && y < t.rows ==> TextAt(t'.Cur(), x, y) == TextAt(t.Cur(), x, y)
  }

  /** EL. */
  ghost predicate LineErasedAt(t: Term, t': Term, mode: nat, x: nat, y: nat) {
    TextAt(t'.Cur(), x, y)
    == if y == t.row && ErasedInRow(mode, t.col, x, TextAt(t.Cur(), t.col, y), TextAt(t.Cur(), x, y)) then BLANK
       else TextAt(t.Cur(), x, y)
  }

  ghost predicate LineErased(t: Term, t': Term, mode: nat) {
    forall x: nat, y: nat :: x < t.cols && y < t.rows ==> LineErasedAt(t, t', mode, x, y)
  }

  /** ED 0, 1 and 2, and what is no mode. */
  ghost predicate DisplayErasedAt(t: Term, t': Term, mode: nat, x: nat, y: nat) {
    TextAt(t'.Cur(), x, y)
    == if mode == 2 || (mode == 0 && y > t.row) || (mode == 1 && y < t.row)
          || (y == t.row && ErasedInRow(mode, t.col, x, TextAt(t.Cur(), t.col, y), TextAt(t.Cur(), x, y)))
       then BLANK else TextAt(t.Cur(), x, y)
  }

  ghost predicate DisplayErased(t: Term, t': Term, mode: nat) {
    forall x: nat, y: nat :: x < t.cols && y < t.rows ==> DisplayErasedAt(t, t', mode, x, y)
  }

  /** ECH. */
  ghost predicate CharactersErasedAt(t: Term, t': Term, n: nat, x: nat, y: nat) {
    TextAt(t'.Cur(), x, y)
    == if y == t.row && 0 < n && (t.col <= x < t.col + n || (x == t.col - 1 && TextAt(t.Cur(), t.col, y) == [])
                                  || (x == t.col + n && TextAt(t.Cur(), x, y) == []))
       then BLANK else TextAt(t.Cur(), x, y)
  }

  ghost predicate CharactersErased(t: Term, t': Term, n: nat) {
    forall x: nat, y: nat :: x < t.cols && y < t.rows ==> CharactersErasedAt(t, t', n, x, y)
  }

  /** ICH: the rest of the line to the right, where no character is cut in half. */
  ghost predicate CharactersInsertedAt(t: Term, t': Term, n: nat, x: nat, y: nat)
    requires CursorOk(t)
  {
    && MovesAs(t.Cur(), t'.Cur(), IchCopy(t, n), IchArea(t, n), x, y)
    && (y != t.row ==> TextAt(t'.Cur(), x, y) == TextAt(t.Cur(), x, y))
    && (CleanAt(t.Cur(), IchCopy(t, n), IchArea(t, n), y) ==>
          TextAt(t'.Cur(), x, y) == if x < t.col then TextAt(t.Cur(), x, y)
                                    else if x < t.col + n then BLANK
                                    else TextAt(t.Cur(), x - n, y))
  }

  ghost predicate CharactersInserted(t: Term, t': Term, n: nat)
    requires CursorOk(t)
  {
    forall x: nat, y: nat :: x < t.cols && y < t.rows ==> CharactersInsertedAt(t, t', n, x, y)
  }

  /** DCH: the rest of the line to the left. */
  ghost predicate CharactersDeletedAt(t: Term, t': Term, n: nat, x: nat, y: nat)
    requires CursorOk(t)
  {
    && MovesAs(t.Cur(), t'.Cur(), DchCopy(t, n), DchArea(t, n), x, y)
    && (y != t.row ==> TextAt(t'.Cur(), x, y) == TextAt(t.Cur(), x, y))
    && (CleanAt(t.Cur(), DchCopy(t, n), DchArea(t, n), y) ==>
          TextAt(t'.Cur(), x, y) == if x < t.col then TextAt(t.Cur(), x, y)
                                    else if x + n < t.cols then TextAt(t.Cur(), x + n, y)
                                    else BLANK)
  }

  ghost predicate CharactersDeleted(t: Term, t': Term, n: nat)
    requires CursorOk(t)
  {
    forall x: nat, y: nat :: x < t.cols && y < t.rows ==> CharactersDeletedAt(t, t', n, x, y)
  }

  /** IL, and SD with the region from the top margin on: lines from row on move down. */
  ghost predicate MovedDownAt(t: Term, t': Term, row: int, n: nat, x: nat, y: nat) {
    TextAt(t'.Cur(), x, y)
    == if !(row <= y < t.bottom) then TextAt(t.Cur(), x, y)
       else if y < row + n then BLANK
       else Arriving(t.Cur(), x, y - n, y)
  }

  ghost predicate MovedDown(t: Term, t': Term, row: int, n: nat) {
    forall x: nat, y: nat :: x < t.cols && y < t.rows ==> MovedDownAt(t, t', row, n, x, y)
  }

  /** DL: lines below move up to the row of the cursor. */
  ghost predicate LinesDeletedAt(t: Term, t': Term, n: nat, x: nat, y: nat) {
    TextAt(t'.Cur(), x, y)
    == if !(t.row <= y < t.bottom) then TextAt(t.Cur(), x, y)
       else if t.bottom <= y + n then BLANK
       else Arriving(t.Cur(), x, y + n, y)
  }

  ghost predicate LinesDeleted(t: Term, t': Term, n: nat) {
    forall x: nat, y: nat :: x < t.cols && y < t.rows ==> LinesDeletedAt(t, t', n, x, y)
  }

  /** SU: the region moves up. */
  ghost predicate ScrolledUpAt(t: Term, t': Term, n: nat, x: nat, y: nat) {
    TextAt(t'.Cur(), x, y)
    == if !(t.top <= y < t.bottom) then TextAt(t.Cur(), x, y)
       else if y + n < t.bottom then TextAt(t.Cur(), x, y + n) else BLANK
  }

  ghost predicate ScrolledUp(t: Term, t': Term, n: nat) {
    forall x: nat, y: nat :: x < t.cols && y < t.rows ==> ScrolledUpAt(t, t', n, x, y)
  }

  // ----- Which operation does what -----

  lemma StepsOfLine(t: Term, op: Op)
    requires Inv(t) && (op.ICH? || op.DCH? || op.ECH? || op.EL?)
    ensures Step(t, op)
            == match op
               case ICH(n) => InsertChars(t, n)
               case DCH(n) => DeleteChars(t, n)
               case ECH(n) => EraseChars(t, n)
               case EL(mode) => EraseInLine(t, mode)
               case _ => t
  {
    hide Inv, InsertChars, DeleteChars, EraseChars, EraseInLine, StepCursor, StepModes, StepWrite, StepIndex, StepLines,
         StepScreen;
  }

  lemma StepMovesLines(t: Term, op: Op)
    requires Inv(t) && (op.IL? || op.DL? || op.DECIC? || op.SU? || op.SD? || op.ED?)
    ensures Step(t, op) == StepLines(t, op)
  {
    hide Inv, StepCursor, StepModes, StepWrite, StepIndex, StepLine, StepLines, StepScreen, Local, Confined;
  }

  lemma StepsOfLines(t: Term, op: Op)
    requires Inv(t) && (op.IL? || op.DL? || op.DECIC? || op.SU? || op.SD? || op.ED?)
    ensures Step(t, op)
            == if op.IL? then InsertLines(t, op.n)
               else if op.DL? then DeleteLines(t, op.n)
               else if op.DECIC? then InsertColumns(t, op.n)
               else if op.SU? then ScrollLines(t, op.n)
               else if op.SD? then ScrollRegionDown(t, op.n)
               else EraseInDisplay(t, op.mode)
  {
    hide Inv, InsertLines, DeleteLines, InsertColumns, ScrollLines, ScrollRegionDown, EraseInDisplay, Step, Local,
         Confined;
    StepMovesLines(t, op);
  }

  lemma StepIndexes(t: Term, op: Op)
    requires Inv(t) && (op.LF? || op.NEL? || op.RI? || op.DECBI? || op.DECFI?)
    ensures Step(t, op) == StepIndex(t, op)
  {
    hide Inv, StepCursor, StepModes, StepWrite, StepIndex, StepLine, StepLines, StepScreen, Local, Confined;
  }

  lemma StepsOfIndex(t: Term, op: Op)
    requires Inv(t) && (op.LF? || op.NEL? || op.RI? || op.DECBI? || op.DECFI?)
    ensures Inv(SetCursorCol(t, 0))
    ensures Step(t, op)
            == match op
               case LF => DoLinefeed(t)
               case NEL => DoLinefeed(SetCursorCol(t, 0))
               case RI => ReverseIndex(t)
               case DECBI => BackIndex(t)
               case _ => ForwardIndex(t)
  {
    hide Inv, DoLinefeed, ReverseIndex, BackIndex, ForwardIndex, Step, SetCursorCol, Local, Confined;
    ColumnZero(t);
    StepIndexes(t, op);
  }

  lemma ColumnZero(t: Term)
    requires Inv(t)
    ensures Inv(SetCursorCol(t, 0))
  {
    hide ScreensOk;
  }

  lemma StepsOfScreen(t: Term, op: Op)
    requires Inv(t) && (op.DECCOLM? || op.AltScreen? || op.RIS?)
    ensures Step(t, op)
            == match op
               case DECCOLM => ColumnMode(t)
               case AltScreen(b) => if b then EnterAlt(t) else LeaveAlt(t)
               case _ => FullReset(t)
  {
    hide Inv, ColumnMode, EnterAlt, LeaveAlt, FullReset, ResizeTerminal, StepCursor, StepModes, StepWrite, StepIndex,
         StepLine,
         StepLines;
  }

  // ----- Editing: the text, and that all else stays -----

  lemma TwoEdits(t: Term, t1: Term, t2: Term)
    requires SameButRows(t, t1) && SameButRows(t1, t2)
    ensures SameButRows(t, t2)
  {
  }

  lemma WrapForgotten(t: Term, t1: Term)
    requires SameButRows(t, t1)
    ensures SameButRows(NoWrap(t), NoWrap(t1))
  {
  }

  lemma LineErasedBy(t: Term, mode: nat)
    requires Inv(t)
    ensures var t' := Step(t, EL(mode));
            LineErased(t, t', mode) && SameButRows(if mode <= 2 then NoWrap(t) else t, t')
  {
    hide Inv, Step, EraseInLine, ErasedInRow, TextAt, SameButRows;
    StepsOfLine(t, EL(mode));
    EraseLineKeeps(t, mode);
    forall x: nat, y: nat | x < t.cols && y < t.rows ensures LineErasedAt(t, Step(t, EL(mode)), mode, x, y) {
      EraseInLineText(t, mode, x, y);
    }
  }

  lemma EraseLineKeeps(t: Term, mode: nat)
    requires Inv(t)
    ensures SameButRows(if mode <= 2 then NoWrap(t) else t, EraseInLine(t, mode))
  {
    hide ScreensOk, ClearBlock, SameButRows, NoWrap, Local;
    if mode == 0 {
      WrapForgotten(t, ClearBlock(t, t.col, t.row, t.cols - t.col, 1));
    } else if mode == 1 {
      WrapForgotten(t, ClearBlock(t, 0, t.row, t.col + 1, 1));
    } else if mode == 2 {
      WrapForgotten(t, ClearBlock(t, 0, t.row, t.cols, 1));
    } else {
      NothingEdited(t);
    }
  }

  lemma NothingEdited(t: Term)
    ensures SameButRows(t, t)
  {
  }

  lemma DisplayErasedBy(t: Term, mode: nat)
    requires Inv(t) && mode != 3
    ensures var t' := Step(t, ED(mode));
            DisplayErased(t, t', mode) && SameButRows(if mode <= 2 then NoWrap(t) else t, t')
  {
    hide Inv, Step, EraseInDisplay, ErasedInRow, TextAt, SameButRows;
    StepsOfLines(t, ED(mode));
    EraseDisplayKeeps(t, mode);
    forall x: nat, y: nat | x < t.cols && y < t.rows ensures DisplayErasedAt(t, Step(t, ED(mode)), mode, x, y) {
      EraseInDisplayText(t, mode, x, y);
    }
  }

  lemma EraseDisplayKeeps(t: Term, mode: nat)
    requires Inv(t) && mode != 3
    ensures SameButRows(if mode <= 2 then NoWrap(t) else t, EraseInDisplay(t, mode))
  {
    hide ScreensOk, ClearBlock, SameButRows, NoWrap, WithoutHistory;
    if mode == 0 {
      var t1 := ClearBlock(t, t.col, t.row, t.cols - t.col, 1);
      var t2 := ClearBlock(t1, 0, t.row + 1, t.cols, t.rows - (t.row + 1));
      TwoEdits(t, t1, t2);
      WrapForgotten(t, t2);
    } else if mode == 1 {
      var t1 := ClearBlock(t, 0, 0, t.cols, t.row);
      var t2 := ClearBlock(t1, 0, t.row, t.col + 1, 1);
      TwoEdits(t, t1, t2);
      WrapForgotten(t, t2);
    } else if mode == 2 {
      WrapForgotten(t, ClearBlock(t, 0, 0, t.cols, t.rows));
    } else {
      NothingEdited(t);
    }
  }

  /** ED 3 empties the history and leaves the screen alone. */
  lemma HistoryErasedBy(t: Term)
    requires Inv(t)
    ensures var t' := Step(t, ED(3));
            && t' == NoWrap(t).(main := t'.main) && t'.main.active == 0 && Valid(t.main) && Valid(t'.main)
            && Screen(t'.main) == Screen(t.main)
  {
    hide Inv, Step, EraseInDisplay;
    StepsOfLines(t, ED(3));
    MainIsValid(t);
    HistoryErased(t);
    TranscriptCleared(t.main);
  }

  lemma MainIsValid(t: Term)
    requires Inv(t)
    ensures Valid(t.main) && Valid(t.Cur())
  {
  }

  lemma HistoryErased(t: Term)
    requires Inv(t)
    ensures EraseInDisplay(t, 3) == NoWrap(t).(main := ClearTranscript(t.main))
  {
    hide ScreensOk, ClearBlock, ClearTranscript;
  }

  lemma TranscriptCleared(r: Ring)
    requires Valid(r)
    ensures Valid(ClearTranscript(r)) && ClearTranscript(r).active == 0 && Screen(ClearTranscript(r)) == Screen(r)
  {
  }

  lemma CharactersErasedBy(t: Term, n: nat)
    requires Inv(t)
    ensures var t' := Step(t, ECH(n)); CharactersErased(t, t', n) && SameButRows(NoWrap(t), t')
  {
    hide Inv, Step, EraseChars, TextAt, SameButRows;
    StepsOfLine(t, ECH(n));
    EraseCharsKeeps(t, n);
    forall x: nat, y: nat | x < t.cols && y < t.rows ensures CharactersErasedAt(t, Step(t, ECH(n)), n, x, y) {
      EraseCharsText(t, n, x, y);
    }
  }

  lemma EraseCharsKeeps(t: Term, n: nat)
    requires Inv(t)
    ensures SameButRows(NoWrap(t), EraseChars(t, n))
  {
    hide ScreensOk, ClearBlock;
  }

  lemma CursorFits(t: Term)
    requires Inv(t)
    ensures CursorOk(t)
  {
  }

  lemma CharactersInsertedBy(t: Term, n: nat)
    requires Inv(t)
    ensures CursorOk(t)
    ensures var t' := Step(t, ICH(n)); CharactersInserted(t, t', n) && SameButRows(NoWrap(t), t')
  {
    hide Inv, Step, InsertChars, TextAt, SameButRows, MovesAs, CleanAt, IchCopy, IchArea;
    CursorFits(t);
    StepsOfLine(t, ICH(n));
    InsertCharsKeeps(t, n);
    forall x: nat, y: nat | x < t.cols && y < t.rows ensures CharactersInsertedAt(t, Step(t, ICH(n)), n, x, y) {
      InsertCharsText(t, n, x, y);
    }
  }

  lemma InsertCharsKeeps(t: Term, n: nat)
    requires Inv(t)
    ensures SameButRows(NoWrap(t), InsertChars(t, n))
  {
    hide ScreensOk, ClearBlock, CopyBlock;
  }

  lemma CharactersDeletedBy(t: Term, n: nat)
    requires Inv(t)
    ensures CursorOk(t)
    ensures var t' := Step(t, DCH(n)); CharactersDeleted(t, t', n) && SameButRows(NoWrap(t), t')
  {
    hide Inv, Step, DeleteChars, TextAt, SameButRows, MovesAs, CleanAt, DchCopy, DchArea;
    CursorFits(t);
    StepsOfLine(t, DCH(n));
    DeleteCharsKeeps(t, n);
    forall x: nat, y: nat | x < t.cols && y < t.rows ensures CharactersDeletedAt(t, Step(t, DCH(n)), n, x, y) {
      DeleteCharsText(t, n, x, y);
    }
  }

  lemma DeleteCharsKeeps(t: Term, n: nat)
    requires Inv(t)
    ensures SameButRows(NoWrap(t), DeleteChars(t, n))
  {
    hide ScreensOk, ClearBlock, CopyBlock;
  }

  lemma LinesInsertedBy(t: Term, n: nat)
    requires Inv(t)
    ensures var t' := Step(t, IL(n)); MovedDown(t, t', t.row, n) && SameButRows(t, t')
  {
    hide Inv, Step, InsertLines, TextAt, SameButRows, Arriving;
    StepsOfLines(t, IL(n));
    InsertLinesKeeps(t, n);
    forall x: nat, y: nat | x < t.cols && y < t.rows ensures MovedDownAt(t, Step(t, IL(n)), t.row, n, x, y) {
      InsertLinesText(t, n, x, y);
    }
  }

  lemma InsertLinesKeeps(t: Term, n: nat)
    requires Inv(t)
    ensures SameButRows(t, InsertLines(t, n))
  {
    hide ScreensOk, ClearBlock, CopyBlock, SameButRows;
    var k := Min(n, t.bottom - t.row);
    var t1 := CopyBlock(t, 0, t.row, t.cols, t.bottom - t.row - k, 0, t.row + k);
    TwoEdits(t, t1, ClearBlock(t1, 0, t.row, t.cols, k));
  }

  lemma LinesDeletedBy(t: Term, n: nat)
    requires Inv(t)
    ensures var t' := Step(t, DL(n)); LinesDeleted(t, t', n) && SameButRows(NoWrap(t), t')
  {
    hide Inv, Step, DeleteLines, TextAt, SameButRows, Arriving;
    StepsOfLines(t, DL(n));
    DeleteLinesKeeps(t, n);
    forall x: nat, y: nat | x < t.cols && y < t.rows ensures LinesDeletedAt(t, Step(t, DL(n)), n, x, y) {
      DeleteLinesText(t, n, x, y);
    }
  }

  lemma DeleteLinesKeeps(t: Term, n: nat)
    requires Inv(t)
    ensures SameButRows(NoWrap(t), DeleteLines(t, n))
  {
    hide ScreensOk, ClearBlock, CopyBlock;
  }

  lemma ScrolledDownBy(t: Term, n: nat)
    requires Inv(t)
    ensures var t' := Step(t, SD(n)); MovedDown(t, t', t.top, n) && SameButRows(t, t')
  {
    hide Inv, Step, ScrollRegionDown, TextAt, SameButRows, Arriving;
    StepsOfLines(t, SD(n));
    ScrollDownKeeps(t, n);
    forall x: nat, y: nat | x < t.cols && y < t.rows ensures MovedDownAt(t, Step(t, SD(n)), t.top, n, x, y) {
      ScrollRegionDownText(t, n, x, y);
    }
  }

  lemma ScrollDownKeeps(t: Term, n: nat)
    requires Inv(t)
    ensures SameButRows(t, ScrollRegionDown(t, n))
  {
    hide ScreensOk, ClearBlock, CopyBlock, SameButRows;
    var region := t.bottom - t.top;
    var k := Min(region, n);
    var t1 := CopyBlock(t, 0, t.top, t.cols, region - k, 0, t.top + k);
    TwoEdits(t, t1, ClearBlock(t1, 0, t.top, t.cols, k));
  }

  lemma ScrolledUpBy(t: Term, n: nat)
    requires Inv(t)
    ensures var t' := Step(t, SU(n)); ScrolledUp(t, t', n) && SameButRows(t, t')
  {
    hide Inv, Step, TextAt, SameButRows, TerminalState.ScrollDownOneLine, Local, Scroll;
    StepsOfLines(t, SU(n));
    ScrollUpKeeps(t, n);
    forall x: nat, y: nat | x < t.cols && y < t.rows ensures ScrolledUpAt(t, Step(t, SU(n)), n, x, y) {
      ScrollLinesText(t, n, x, y);
    }
  }

  lemma {:induction false} ScrollUpKeeps(t: Term, n: nat)
    requires Inv(t)
    ensures SameButRows(t, ScrollLines(t, n))
    decreases n
  {
    hide Inv, TerminalState.ScrollDownOneLine, SameButRows, Local, ScrollLines, Scroll;
    ScrollsMore(t, n);
    if n > 0 {
      ScrollUpKeeps(t, n - 1);
      var t1 := ScrollLines(t, n - 1);
      ScrollsOnce(t1);
      TwoEdits(t, t1, TerminalState.ScrollDownOneLine(t1));
    } else {
      NothingEdited(t);
    }
  }

  lemma ScrollsMore(t: Term, n: nat)
    requires Inv(t)
    ensures ScrollLines(t, n) == if n == 0 then t else TerminalState.ScrollDownOneLine(ScrollLines(t, n - 1))
  {
    hide Inv, TerminalState.ScrollDownOneLine, Local;
  }

  lemma ScrollsOnce(t: Term)
    requires Inv(t)
    ensures SameButRows(t, TerminalState.ScrollDownOneLine(t))
  {
    hide Inv, SameButRows, Scroll;
  }

  // ----- To the next and the previous line -----

  /** LF and IND: at the last line of the region it scrolls, at the last line of the screen nothing happens. */
  ghost predicate LineFed(t: Term, t': Term) {
    if t.row == t.bottom - 1 then ScrolledUp(t, t', 1) && SameButRows(NoWrap(t), t')
    else if t.row < t.rows - 1 then t' == t.(row := t.row + 1, aboutToWrap := false)
    else t' == t
  }

  lemma LinefeedDoes(t: Term)
    requires Inv(t)
    ensures LineFed(t, DoLinefeed(t))
  {
    hide Inv, TextAt, SameButRows, DoLinefeed;
    if t.row == t.bottom - 1 {
      LinefeedScrolls(t);
      OneScroll(t);
      forall x: nat, y: nat | x < t.cols && y < t.rows ensures ScrolledUpAt(t, DoLinefeed(t), 1, x, y) {
        ScrollLinesText(t, 1, x, y);
      }
    } else {
      LinefeedMoves(t);
    }
  }

  lemma OneScroll(t: Term)
    requires Inv(t)
    ensures ScrollLines(t, 1) == TerminalState.ScrollDownOneLine(t)
  {
    hide Inv, TerminalState.ScrollDownOneLine, ScrollLines, Local;
    ScrollsMore(t, 1);
    ScrollsMore(t, 0);
  }

  lemma LinefeedScrolls(t: Term)
    requires Inv(t) && t.row == t.bottom - 1
    ensures DoLinefeed(t).Cur() == TerminalState.ScrollDownOneLine(t).Cur() && SameButRows(NoWrap(t), DoLinefeed(t))
  {
    hide ScreensOk, Scroll;
  }

  lemma LinefeedMoves(t: Term)
    requires Inv(t) && t.row != t.bottom - 1
    ensures DoLinefeed(t) == if t.row < t.rows - 1 then SetCursorRow(t, t.row + 1) else t
  {
    hide ScreensOk, TerminalState.ScrollDownOneLine, SetCursorRow, Local;
    IntSteps.Bounds(t);
  }

  /** LF, and NEL, which goes to the first column before. */
  lemma LineFedBy(t: Term)
    requires Inv(t)
    ensures LineFed(t, Step(t, LF)) && LineFed(t.(col := 0, aboutToWrap := false), Step(t, NEL))
  {
    hide Inv, Step, LineFed, DoLinefeed;
    StepsOfIndex(t, LF);
    StepsOfIndex(t, NEL);
    LinefeedDoes(t);
    LinefeedDoes(SetCursorCol(t, 0));
  }

  /** RI: at the first line of the region and above it scrolls down. */
  lemma ReverseIndexedBy(t: Term)
    requires Inv(t)
    ensures var t' := Step(t, RI);
            if t.row > t.top then t' == t.(row := t.row - 1) else MovedDown(t, t', t.top, 1) && SameButRows(t, t')
  {
    hide Inv, Step, ReverseIndex, TextAt, SameButRows, MovedDown;
    StepsOfIndex(t, RI);
    if t.row > t.top {
      ReverseMoves(t);
    } else {
      StepsOfLines(t, SD(1));
      ReverseIndexRows(t);
      ScrolledDownBy(t, 1);
    }
  }

  lemma ReverseMoves(t: Term)
    requires Inv(t) && t.row > t.top
    ensures ReverseIndex(t) == t.(row := t.row - 1)
  {
    hide Inv;
  }

  // ----- The whole screen -----

  lemma AreaSet(t: Term, c: int, style: Style)
    requires Inv(t)
    ensures var t' := SetBlock(t, 0, 0, t.cols, t.rows, c, style);
            && SameButRows(t, t')
            && forall x: nat, y: nat :: x < t.cols && y < t.rows ==> TextAt(t'.Cur(), x, y) == [c]
  {
    hide ScreensOk, TextAt, SetBlock, SameButRows;
    var t' := SetBlock(t, 0, 0, t.cols, t.rows, c, style);
    forall x: nat, y: nat | x < t.cols && y < t.rows ensures TextAt(t'.Cur(), x, y) == [c] {
      OnScreen(t, x, y);
      SetText(t, c, style, x, y);
    }
  }

  lemma SetText(t: Term, c: int, style: Style, x: nat, y: nat)
    requires Inv(t) && x < t.cols && y < t.rows
    ensures TextAt(SetBlock(t, 0, 0, t.cols, t.rows, c, style).Cur(), x, y) == [c]
  {
    hide Inv, TextAt, SetBlock, On, Valid, BlockSet;
    OnScreen(t, x, y);
    SetIs(t, c, style);
    RingText(t.Cur(), c, style, x, y);
  }

  lemma SetIs(t: Term, c: int, style: Style)
    requires Inv(t)
    ensures var r := t.Cur();
            && Valid(r) && r.rows == t.rows && r.cols == t.cols
            && SetBlock(t, 0, 0, t.cols, t.rows, c, style).Cur() == BlockSet(r, 0, 0, r.cols, r.rows, c, style)
  {
    hide Valid, BlockSet;
  }

  lemma RingText(r: Ring, c: int, style: Style, x: nat, y: nat)
    requires Valid(r) && x < r.cols && y < r.rows
    ensures TextAt(BlockSet(r, 0, 0, r.cols, r.rows, c, style), x, y) == [c]
  {
    hide BlockSet, TextAt, CellsAt, FillCells;
    RowFilled(r, 0, 0, r.cols, r.rows, c, style, y);
    TextOfCell(BlockSet(r, 0, 0, r.cols, r.rows, c, style), x, y);
    FillCellsAt(CellsAt(r, y), 0, r.cols, c, style, x);
  }

  /** DECALN: the letter E everywhere. */
  lemma AlignedBy(t: Term)
    requires Inv(t)
    ensures var t' := Step(t, DECALN);
            && SameButRows(t, t')
            && forall x: nat, y: nat :: x < t.cols && y < t.rows ==> TextAt(t'.Cur(), x, y) == ['E' as int]
  {
    hide Inv, Step, SetBlock, TextAt, SameButRows;
    StepAligns(t);
    AreaSet(t, 69, t.Pen());
  }

  lemma StepAligns(t: Term)
    requires Inv(t)
    ensures Step(t, DECALN) == SetBlock(t, 0, 0, t.cols, t.rows, 69, t.Pen())
  {
    hide ScreensOk, SetBlock, StepCursor, StepModes, StepIndex, StepLine, StepLines, StepScreen;
  }

  /** DECCOLM: an empty screen without margins, and the cursor at its beginning. */
  lemma ColumnModeBy(t: Term)
    requires Inv(t)
    ensures var t' := Step(t, DECCOLM);
            AllBlank(t') && t'.top == 0 && t'.bottom == t.rows && t'.row == 0 && t'.col == 0 && !t'.aboutToWrap
  {
    hide Inv, Step, TextAt, ColumnMode;
    StepsOfScreen(t, DECCOLM);
    ColumnModeIs(t);
    AreaSet(WithMargins(t, 0, t.rows), SPACE, t.Pen());
  }

  lemma ColumnModeIs(t: Term)
    requires Inv(t)
    ensures Inv(WithMargins(t, 0, t.rows))
    ensures var t', t1 := ColumnMode(t), SetBlock(WithMargins(t, 0, t.rows), 0, 0, t.cols, t.rows, SPACE, t.Pen());
            && t'.Cur() == t1.Cur() && t'.cols == t.cols && t'.rows == t.rows
            && t'.top == 0 && t'.bottom == t.rows && t'.row == 0 && t'.col == 0 && !t'.aboutToWrap
  {
    hide ScreensOk, BlockSet;
  }

  // ----- The alternate screen -----

  /**
    Entering the alternate screen: it is empty, the cursor and the modes have been saved, and with the size it had
    before nothing else changes.
   */
  lemma AlternateEntered(t: Term)
    requires Inv(t)
    ensures var t' := Step(t, AltScreen(true));
            && t'.onAlt && t'.main == t.main
            && if t.onAlt then t' == t
               else
                 && AllBlank(t') && t'.savedMain == Save(t)
                 && (t.alt.cols == t.cols && t.alt.rows == t.rows ==>
                       t' == t.(onAlt := true, savedMain := Save(t), alt := t'.alt))
  {
    hide Inv, Step, TextAt, EnterAlt, Save, AllBlank;
    StepsOfScreen(t, AltScreen(true));
    if !t.onAlt {
      EntersBlank(t);
    } else {
      EntersTwice(t);
    }
  }

  lemma EntersTwice(t: Term)
    requires Inv(t) && t.onAlt
    ensures EnterAlt(t) == t
  {
    hide Inv, FitAlt, SetBlock, Save;
  }

  lemma Entered(t: Term)
    requires Inv(t) && !t.onAlt
    ensures var t1 := t.(savedMain := Save(t), onAlt := true);
            && AltUnfitted(t1) && Inv(FitAlt(t1)) && FitAlt(t1).cols == t.cols && FitAlt(t1).rows == t.rows
            && EnterAlt(t) == SetBlock(FitAlt(t1), 0, 0, t.cols, t.rows, SPACE, t.Pen())
            && (t.alt.cols == t.cols && t.alt.rows == t.rows ==> FitAlt(t1) == t1)
  {
    hide Valid, SetBlock, ResizeScreen;
  }

  lemma EntersBlank(t: Term)
    requires Inv(t) && !t.onAlt
    ensures var t' := EnterAlt(t);
            && AllBlank(t')
            && (t.alt.cols == t.cols && t.alt.rows == t.rows ==>
                  t' == t.(onAlt := true, savedMain := Save(t), alt := t'.alt))
  {
    hide Inv, TextAt, EnterAlt, FitAlt, SetBlock, AltUnfitted, Save;
    Entered(t);
    AreaSet(FitAlt(t.(savedMain := Save(t), onAlt := true)), SPACE, t.Pen());
  }

  /** Leaving it: the main screen as it was, with the cursor and the modes that were saved. */
  lemma AlternateLeft(t: Term)
    requires Inv(t)
    ensures var t' := Step(t, AltScreen(false));
            && !t'.onAlt
            && (!t.onAlt ==> t' == t)
            && (t.onAlt && t.main.cols == t.cols && t.main.rows == t.rows ==>
                  t'.main == t.main && Save(t') == t.savedMain && !t'.aboutToWrap)
  {
    hide Inv, Step, LeaveAlt, Save;
    StepsOfScreen(t, AltScreen(false));
    Leaves(t);
  }

  lemma Leaves(t: Term)
    requires Inv(t)
    ensures var t' := LeaveAlt(t);
            && !t'.onAlt
            && (!t.onAlt ==> t' == t)
            && (t.onAlt && t.main.cols == t.cols && t.main.rows == t.rows ==>
                  t'.main == t.main && Save(t') == t.savedMain && !t'.aboutToWrap)
  {
    hide Valid, FitMain;
    if t.onAlt && !(t.main.cols == t.cols && t.main.rows == t.rows) {
      FitsMain(BackToMain(t));
    }
  }

  lemma FitsMain(t: Term)
    requires MainUnfitted(t)
    ensures !FitMain(t).onAlt
  {
    hide ScreensOk, Valid;
  }

  // ----- Resets -----

  /** The state of the modes after DECSTR and RIS. */
  predicate ModesReset(t: Term) {
    && !t.insert && t.autowrap && !t.origin && !t.g0 && !t.g1 && t.useG0 && !t.aboutToWrap
    && t.top == 0 && t.bottom == t.rows && t.fore == 256 && t.back == 257 && |t.tabs| == t.cols
    && forall i :: 0 <= i < t.cols ==> t.tabs[i] == (0 < i && i % 8 == 0)
  }

  /** DECSTR resets the modes, the margins, the tab stops and the colours; screens and cursor stay. */
  lemma SoftResetBy(t: Term)
    requires Inv(t)
    ensures var t' := Step(t, DECSTR);
            && ModesReset(t') && t'.main == t.main && t'.alt == t.alt && t'.onAlt == t.onAlt
            && t'.row == t.row && t'.col == t.col && t'.effect == t.effect
  {
    hide ScreensOk, Step, StepModes;
    StepResets(t);
  }

  lemma StepResets(t: Term)
    requires Inv(t)
    ensures Step(t, DECSTR) == SoftReset(t)
  {
    hide Inv, SoftReset, StepCursor, StepRows, SaveCursor, RestoreCursor;
  }

  /**
    RIS: an empty screen, no history, and all modes as after DECSTR.  The cursor goes to the first column and to the
    first line of the screen, or in origin mode of the region.
   */
  lemma FullResetBy(t: Term)
    requires Inv(t)
    ensures var t' := Step(t, RIS);
            && AllBlank(t') && ModesReset(t') && t'.onAlt == t.onAlt && t'.main.active == 0
            && t'.col == 0 && t'.row == if t.origin then t.top else 0
  {
    hide Inv, Step, TextAt, FullReset, ModesReset, SetBlock;
    StepsOfScreen(t, RIS);
    FullResetIs(t);
    var t1 := SetCursorPosition(WithoutHistory(t), 0, 0);
    AreaSet(t1, SPACE, t1.Pen());
  }

  lemma FullResetIs(t: Term)
    requires Inv(t)
    ensures Inv(WithoutHistory(t))
    ensures var t', t1 := FullReset(t), SetCursorPosition(WithoutHistory(t), 0, 0);
            var t2 := SetBlock(t1, 0, 0, t.cols, t.rows, SPACE, t1.Pen());
            && t1.cols == t.cols && t1.rows == t.rows && t'.cols == t.cols && t'.rows == t.rows
            && t'.Cur() == t2.Cur() && ModesReset(t') && t'.onAlt == t.onAlt && t'.main.active == 0
            && t'.col == 0 && t'.row == if t.origin then t.top else 0
  {
    hide Valid, BlockSet;
    HomeAfterClear(t);
    var t1 := SetCursorPosition(WithoutHistory(t), 0, 0);
    ResetKeeps(ClearBlock(t1, 0, 0, t.cols, t.rows));
    ClearKeepsHistory(t1);
  }

  lemma HomeAfterClear(t: Term)
    requires Inv(t)
    ensures var t1 := SetCursorPosition(WithoutHistory(t), 0, 0);
            && t1.main.active == 0 && t1.onAlt == t.onAlt && t1.col == 0 && t1.row == if t.origin then t.top else 0
  {
    hide Valid;
  }

  lemma ResetKeeps(t: Term)
    requires Inv(t)
    ensures var t' := SoftReset(t);
            && ModesReset(t') && t'.main == t.main && t'.alt == t.alt && t'.onAlt == t.onAlt
            && t'.row == t.row && t'.col == t.col && t'.rows == t.rows && t'.cols == t.cols
  {
    hide ScreensOk;
  }

  lemma ClearKeepsHistory(t: Term)
    requires Inv(t)
    ensures ClearBlock(t, 0, 0, t.cols, t.rows).main.active == t.main.active
  {
    hide Valid;
  }

  /** So the cursor is on the first line after RIS exactly if it was not in origin mode with a top margin. */
  lemma FullResetHomeIff(t: Term)
    requires Inv(t)
    ensures Step(t, RIS).row == 0 <==> !t.origin || t.top == 0
  {
    hide ScreensOk, Step, AllBlank, ModesReset;
    FullResetBy(t);
  }

  // ----- Save and restore -----

  /** What DECSC has saved for the active screen. */
  function SavedHere(t: Term): Saved {
    if t.onAlt then t.savedAlt else t.savedMain
  }

  /** DECSC saves the cursor, the style, origin mode, autowrap and the character sets of the active screen. */
  lemma SavedBy(t: Term)
    requires Inv(t)
    ensures var t' := Step(t, DECSC);
            SavedHere(t') == Save(t) && t' == t.(savedMain := t'.savedMain, savedAlt := t'.savedAlt)
            && (if t.onAlt then t'.savedMain == t.savedMain else t'.savedAlt == t.savedAlt)
  {
    hide Inv, Step, Save, SaveCursor;
    StepSaves(t);
    Saves(t);
  }

  lemma StepSaves(t: Term)
    requires Inv(t)
    ensures Step(t, DECSC) == SaveCursor(t)
  {
    hide Inv, SaveCursor, StepCursor, StepRows, SoftReset, RestoreCursor, Save;
  }

  lemma Saves(t: Term)
    requires Inv(t)
    ensures SaveCursor(t) == if t.onAlt then t.(savedAlt := Save(t)) else t.(savedMain := Save(t))
  {
    hide Inv, Save;
  }

  /** DECRC brings back what was saved; a position that is off the screen by now goes to its edge. */
  lemma RestoredBy(t: Term)
    requires Inv(t)
    ensures var t', s := Step(t, DECRC), SavedHere(t);
            && Save(t') == s.(row := t'.row, col := t'.col) && !t'.aboutToWrap
            && (0 <= s.row < t.rows ==> t'.row == s.row) && (0 <= s.col < t.cols ==> t'.col == s.col)
            && t'.main == t.main && t'.alt == t.alt && t'.onAlt == t.onAlt && t'.top == t.top && t'.bottom == t.bottom
            && SavedHere(t') == s
  {
    hide ScreensOk, StepCursor, StepRows, SoftReset, SaveCursor;
  }

  /** What was saved on this screen comes back after anything that leaves the saved state alone. */
  lemma SaveThenRestore(t: Term, t1: Term)
    requires Inv(t) && Inv(t1) && SavedHere(t1) == Save(t) && t1.rows == t.rows && t1.cols == t.cols
    ensures Save(Step(t1, DECRC)) == Save(t)
  {
    hide ScreensOk, Step;
    RestoredBy(t1);
  }

  // ----- Tab stops -----

  /** The n-th tab stop to the right of the cursor, or the last column. */
  predicate IsNextStop(t: Term, n: nat, col: int)
    requires |t.tabs| == t.cols && 0 <= t.col
  {
    if n <= Stops(t.tabs, t.col + 1, t.cols) then
      t.col < col < t.cols && t.tabs[col] && Stops(t.tabs, t.col + 1, col) == n - 1
    else col == t.cols - 1
  }

  /** The n-th tab stop to the left of the cursor, or the first column. */
  predicate IsPreviousStop(t: Term, n: nat, col: int)
    requires |t.tabs| == t.cols && 0 <= t.col <= t.cols
  {
    if n <= Stops(t.tabs, 0, t.col) then 0 <= col < t.col && t.tabs[col] && Stops(t.tabs, col + 1, t.col) == n - 1
    else col == 0
  }

  lemma TabParts(t: Term)
    requires Inv(t)
    ensures |t.tabs| == t.cols && 0 <= t.col < t.cols
  {
    hide ScreensOk;
  }

  /** HT, CHT and CBT. */
  lemma TabbedBy(t: Term, n: nat)
    requires Inv(t) && 1 <= n
    ensures |t.tabs| == t.cols && 0 <= t.col < t.cols
    ensures var t' := Step(t, HT); t' == t.(col := t'.col) && IsNextStop(t, 1, t'.col)
    ensures var t' := Step(t, CHT(n)); t' == t.(col := t'.col, aboutToWrap := false) && IsNextStop(t, n, t'.col)
    ensures var t' := Step(t, CBT(n)); t' == t.(col := t'.col) && IsPreviousStop(t, n, t'.col)
  {
    hide Inv, Step, Stops, NextTabStop, PreviousTabStop;
    TabParts(t);
    TabSteps(t, n);
    NextStop(t, t.col + 1, 1);
    NextStop(t, t.col + 1, n);
    PreviousStop(t, t.col - 1, n);
  }

  lemma TabSteps(t: Term, n: nat)
    requires Inv(t)
    ensures 0 <= t.col < t.cols
    ensures Step(t, HT) == TabTo(t, NextTabStop(t, t.col + 1, 1))
    ensures Step(t, CHT(n)) == SetCursorCol(t, NextTabStop(t, t.col + 1, n))
    ensures Step(t, CBT(n)) == TabTo(t, PreviousTabStop(t, t.col - 1, n))
  {
    hide Inv, Step, TabTo, SetCursorCol, NextTabStop, PreviousTabStop, SetMargins, SetCursorPosition, SetCursorRow,
         SetCursorRowCol;
    TabParts(t);
    StepMoves(t, HT);
    StepMoves(t, CHT(n));
    StepMoves(t, CBT(n));
  }

  // ----- Modes -----

  predicate IsModeOp(op: Op) {
    || op.ShiftOut? || op.ShiftIn? || op.DesignateG0? || op.DesignateG1? || op.HTS? || op.TBC? || op.IRM? || op.SGR?
    || op.DECAWM?
  }

  /** Mode 0 clears the tab stop of a column, mode 3 all of them. */
  predicate StopsCleared(tabs: seq<bool>, col: int, mode: nat, tabs': seq<bool>) {
    && |tabs'| == |tabs|
    && forall i :: 0 <= i < |tabs| ==> tabs'[i] == (tabs[i] && !(mode == 0 && i == col) && mode != 3)
  }

  /** What changes of the state; nothing else does. */
  predicate ModeChanged(t: Term, op: Op, t': Term)
    requires 0 <= t.col < |t.tabs|
  {
    match op
    case ShiftOut => t' == t.(useG0 := false)
    case ShiftIn => t' == t.(useG0 := true)
    case DesignateG0(b) => t' == t.(g0 := b)
    case DesignateG1(b) => t' == t.(g1 := b)
    case HTS => t' == t.(tabs := t.tabs[t.col := true])
    case TBC(mode) =>
      t' == t.(tabs := t'.tabs) && StopsCleared(t.tabs, t.col, mode, t'.tabs)
    case IRM(b) => t' == t.(insert := b)
    case SGR(fore, back, effect) => t'.Pen() == Style(fore, back, effect)
      && t' == t.(fore := fore, back := back, effect := effect)
    case DECAWM(b) => t' == t.(autowrap := b)
    case _ => true
  }

  lemma ModeChangedBy(t: Term, op: Op)
    requires Inv(t) && IsModeOp(op)
    ensures 0 <= t.col < |t.tabs| && ModeChanged(t, op, Step(t, op))
  {
    hide Inv, Step, ModeChanged;
    TabParts(t);
    StepChangesMode(t, op);
    ModeStep(t, op);
  }

  lemma StepChangesMode(t: Term, op: Op)
    requires Inv(t) && IsModeOp(op)
    ensures Step(t, op) == StepModes(t, op)
  {
    hide Inv, StepModes, StepCursor, StepRows;
  }

  lemma CharacterSetStep(t: Term, op: Op)
    requires Inv(t) && (op.ShiftOut? || op.ShiftIn? || op.DesignateG0? || op.DesignateG1?) && 0 <= t.col < |t.tabs|
    ensures ModeChanged(t, op, StepModes(t, op))
  {
    hide ScreensOk, SaveCursor, RestoreCursor, SoftReset, Local;
  }

  lemma TabSetStep(t: Term)
    requires Inv(t) && 0 <= t.col < |t.tabs|
    ensures ModeChanged(t, HTS, StepModes(t, HTS))
  {
    hide ScreensOk, SaveCursor, RestoreCursor, SoftReset, Local;
  }

  lemma ClearsOne(t: Term)
    requires Inv(t) && 0 <= t.col < |t.tabs|
    ensures StepModes(t, TBC(0)) == t.(tabs := t.tabs[t.col := false])
  {
    hide Inv, SaveCursor, RestoreCursor, SoftReset, Local;
  }

  lemma ClearsAll(t: Term)
    requires Inv(t)
    ensures StepModes(t, TBC(3)) == t.(tabs := seq(t.cols, _ => false))
  {
    hide Inv, SaveCursor, RestoreCursor, SoftReset, Local;
  }

  lemma ClearsNone(t: Term, mode: nat)
    requires Inv(t) && mode != 0 && mode != 3
    ensures StepModes(t, TBC(mode)) == t
  {
    hide Inv, SaveCursor, RestoreCursor, SoftReset, Local;
  }

  lemma ClearedIs(t: Term, mode: nat, tabs: seq<bool>)
    requires 0 <= t.col < |t.tabs| && StopsCleared(t.tabs, t.col, mode, tabs)
    ensures ModeChanged(t, TBC(mode), t.(tabs := tabs))
  {
    hide StopsCleared;
  }

  lemma SameTabs(t: Term)
    ensures t.(tabs := t.tabs) == t
  {
  }

  lemma TabClearStep(t: Term, mode: nat)
    requires Inv(t) && 0 <= t.col < |t.tabs|
    ensures ModeChanged(t, TBC(mode), StepModes(t, TBC(mode)))
  {
    hide Inv, StepModes, ModeChanged;
    TabParts(t);
    if mode == 0 {
      ClearsOne(t);
      ClearedIs(t, mode, t.tabs[t.col := false]);
    } else if mode == 3 {
      ClearsAll(t);
      ClearedIs(t, mode, seq(t.cols, _ => false));
    } else {
      ClearsNone(t, mode);
      SameTabs(t);
      ClearedIs(t, mode, t.tabs);
    }
  }

  lemma OtherModeStep(t: Term, op: Op)
    requires Inv(t) && (op.IRM? || op.SGR? || op.DECAWM?) && 0 <= t.col < |t.tabs|
    ensures ModeChanged(t, op, StepModes(t, op))
  {
    hide ScreensOk, SaveCursor, RestoreCursor, SoftReset, Local;
  }

  lemma ModeStep(t: Term, op: Op)
    requires Inv(t) && IsModeOp(op) && 0 <= t.col < |t.tabs|
    ensures ModeChanged(t, op, StepModes(t, op))
  {
    hide Inv, StepModes, ModeChanged;
    if op.HTS? {
      TabSetStep(t);
    } else if op.TBC? {
      TabClearStep(t, op.mode);
    } else if op.IRM? || op.SGR? || op.DECAWM? {
      OtherModeStep(t, op);
    } else {
      CharacterSetStep(t, op);
    }
  }

  // ----- Moving columns -----

  /** DECIC: the columns from the cursor on to the right, in all rows. */
  ghost predicate ColumnsInsertedAt(t: Term, t': Term, n: nat, x: nat, y: nat)
    requires CursorOk(t)
  {
    && MovesAs(t.Cur(), t'.Cur(), DecicCopy(t, n), DecicArea(t, n), x, y)
    && (CleanAt(t.Cur(), DecicCopy(t, n), DecicArea(t, n), y) ==>
          TextAt(t'.Cur(), x, y) == if x < t.col then TextAt(t.Cur(), x, y)
                                    else if x < t.col + n then BLANK
                                    else TextAt(t.Cur(), x - n, y))
  }

  ghost predicate ColumnsInserted(t: Term, t': Term, n: nat)
    requires CursorOk(t)
  {
    forall x: nat, y: nat :: x < t.cols && y < t.rows ==> ColumnsInsertedAt(t, t', n, x, y)
  }

  lemma ColumnsInsertedBy(t: Term, n: nat)
    requires Inv(t)
    ensures CursorOk(t)
    ensures var t' := Step(t, DECIC(n)); ColumnsInserted(t, t', n) && SameButRows(t, t')
  {
    hide Inv, Step, InsertColumns, TextAt, SameButRows, MovesAs, CleanAt, DecicCopy, DecicArea;
    CursorFits(t);
    StepsOfLines(t, DECIC(n));
    InsertColumnsKeeps(t, n);
    forall x: nat, y: nat | x < t.cols && y < t.rows ensures ColumnsInsertedAt(t, Step(t, DECIC(n)), n, x, y) {
      InsertColumnsText(t, n, x, y);
    }
  }

  lemma InsertColumnsKeeps(t: Term, n: nat)
    requires Inv(t)
    ensures SameButRows(t, InsertColumns(t, n))
  {
    hide ScreensOk, ClearBlock, CopyBlock, SameButRows;
    var k := Min(n, t.cols - t.col);
    var t1 := CopyBlock(t, t.col, 0, t.cols - t.col - k, t.rows, t.col + k, 0);
    TwoEdits(t, t1, ClearBlock(t1, t.col, 0, k, t.rows));
  }

  /** DECBI: to the left, and in the first column the region moves to the right. */
  ghost predicate BackIndexedAt(t: Term, t': Term, x: nat, y: nat)
    requires MarginsOk(t) && 1 <= t.cols
  {
    && (!(t.top <= y < t.bottom) ==> TextAt(t'.Cur(), x, y) == TextAt(t.Cur(), x, y))
    && MovesAs(t.Cur(), t'.Cur(), BackCopy(t), BackArea(t), x, y)
    && (CleanAt(t.Cur(), BackCopy(t), BackArea(t), y) ==>
          TextAt(t'.Cur(), x, y) == if x == 0 then BLANK else TextAt(t.Cur(), x - 1, y))
  }

  lemma BackIndexedBy(t: Term)
    requires Inv(t)
    ensures MarginsOk(t) && 1 <= t.cols
    ensures var t' := Step(t, DECBI);
            if t.col > 0 then t' == t.(col := t.col - 1)
            else SameButRows(t, t') && forall x: nat, y: nat :: x < t.cols && y < t.rows ==> BackIndexedAt(t, t', x, y)
  {
    hide Inv, Step, BackIndex, TextAt, SameButRows, MovesAs, CleanAt, BackCopy, BackArea;
    RegionFits(t);
    StepsOfIndex(t, DECBI);
    BackIndexKeeps(t);
    if t.col == 0 {
      forall x: nat, y: nat | x < t.cols && y < t.rows ensures BackIndexedAt(t, Step(t, DECBI), x, y) {
        BackIndexText(t, x, y);
      }
    }
  }

  lemma RegionFits(t: Term)
    requires Inv(t)
    ensures MarginsOk(t) && 1 <= t.cols && 0 <= t.col < t.cols
  {
    hide ScreensOk;
  }

  lemma BackIndexKeeps(t: Term)
    requires Inv(t)
    ensures if t.col > 0 then BackIndex(t) == t.(col := t.col - 1) else SameButRows(t, BackIndex(t))
  {
    hide ScreensOk, SetBlock, CopyBlock, SameButRows;
    if t.col == 0 {
      var t1 := CopyBlock(t, 0, t.top, t.cols - 1, t.bottom - t.top, 1, t.top);
      TwoEdits(t, t1, SetBlock(t1, 0, t.top, 1, t.bottom - t.top, SPACE, Style(t.fore, t.back, 0)));
    }
  }

  /** DECFI: to the right, and in the last column the region moves to the left. */
  ghost predicate ForwardIndexedAt(t: Term, t': Term, x: nat, y: nat)
    requires MarginsOk(t) && 1 <= t.cols
  {
    && (!(t.top <= y < t.bottom) ==> TextAt(t'.Cur(), x, y) == TextAt(t.Cur(), x, y))
    && MovesAs(t.Cur(), t'.Cur(), ForwardCopy(t), ForwardArea(t), x, y)
    && (CleanAt(t.Cur(), ForwardCopy(t), ForwardArea(t), y) ==>
          TextAt(t'.Cur(), x, y) == if x == t.cols - 1 then BLANK else TextAt(t.Cur(), x + 1, y))
  }

  lemma ForwardIndexedBy(t: Term)
    requires Inv(t)
    ensures MarginsOk(t) && 1 <= t.cols
    ensures var t' := Step(t, DECFI);
            if t.col < t.cols - 1 then t' == t.(col := t.col + 1)
            else SameButRows(t, t') && forall x: nat, y: nat :: x < t.cols && y < t.rows ==>
                ForwardIndexedAt(t, t', x, y)
  {
    hide Inv, Step, ForwardIndex, TextAt, SameButRows, MovesAs, CleanAt, ForwardCopy, ForwardArea;
    RegionFits(t);
    StepsOfIndex(t, DECFI);
    ForwardIndexKeeps(t);
    if t.col == t.cols - 1 {
      forall x: nat, y: nat | x < t.cols && y < t.rows ensures ForwardIndexedAt(t, Step(t, DECFI), x, y) {
        ForwardIndexText(t, x, y);
      }
    }
  }

  lemma ForwardIndexKeeps(t: Term)
    requires Inv(t)
    ensures if t.col < t.cols - 1 then ForwardIndex(t) == t.(col := t.col + 1) else SameButRows(t, ForwardIndex(t))
  {
    hide ScreensOk, SetBlock, CopyBlock, SameButRows;
    if t.col == t.cols - 1 {
      var t1 := CopyBlock(t, 1, t.top, t.cols - 1, t.bottom - t.top, 0, t.top);
      TwoEdits(t, t1, SetBlock(t1, t.cols - 1, t.top, 1, t.bottom - t.top, SPACE, Style(t.fore, t.back, 0)));
    }
  }

  // ----- Backspace -----

  /** BS: to the left; from the first column back to the end of a wrapped line, which then no longer wraps. */
  lemma BackspacedBy(t: Term)
    requires Inv(t)
    ensures Valid(t.Cur()) && 0 <= t.row < t.Cur().rows
    ensures var t' := Step(t, BS);
            if 0 < t.col then t' == t.(col := t.col - 1, aboutToWrap := false)
            else if t.row == 0 || !t.Cur().view[t.row - 1].value.wrap then t' == t
            else
              && t'.row == t.row - 1 && t'.col == t.cols - 1 && !t'.aboutToWrap
              && t'.Cur() == SetLineWrap(t.Cur(), t.row - 1, false)
  {
    hide Inv, Step, Valid, Backspace, SetLineWrap;
    StepsBack(t);
    BackspaceIs(t);
  }

  lemma StepsBack(t: Term)
    requires Inv(t)
    ensures Step(t, BS) == Backspace(t)
  {
    hide Inv, Backspace, StepCursor, StepModes, StepIndex, StepLine, StepLines, StepScreen;
  }

  lemma BackspaceIs(t: Term)
    requires Inv(t)
    ensures Valid(t.Cur()) && 0 <= t.row < t.Cur().rows
    ensures var t' := Backspace(t);
            if 0 < t.col then t' == t.(col := t.col - 1, aboutToWrap := false)
            else if t.row == 0 || !t.Cur().view[t.row - 1].value.wrap then t' == t
            else
              && t'.row == t.row - 1 && t'.col == t.cols - 1 && !t'.aboutToWrap
              && t'.Cur() == SetLineWrap(t.Cur(), t.row - 1, false)
  {
    hide SetLineWrap, LineOk;
  }
}
