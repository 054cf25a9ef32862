/** Whole runs of grid operations: what holds after any sequence of them. */
module GridRuns {
  import opened Cells
  import opened RowLaws
  import opened Grid
  import opened Reflow
  import opened ReflowLaws
  import opened GridLaws

  datatype Op =
    | DoPlace(ch: char, width: nat, style: Style)
    | DoJoin(mark: char, before: nat, after: nat)
    | DoCluster(text: string, width: nat, style: Style)
    | DoRun(text: string, style: Style)
    | DoUnderline(color: Color, width: nat)
    | DoLink(link: Option<nat>, width: nat)
    | DoImageRow(place: Placement, pen: Style)
    | DoMark(row: nat, col: nat, id: nat)
    | DoLinefeed(pen: Style)
    | DoReverseIndex(pen: Style)
    | DoScrollUp(n: nat, pen: Style)
    | DoScrollDown(n: nat, pen: Style)
    | DoRemoveRows(first: nat, n: nat)
    | DoInsertLines(n: nat, pen: Style)
    | DoDeleteLines(n: nat, pen: Style)
    | DoEraseLine(how: Erase, pen: Style)
    | DoEraseDisplay(how: Erase, pen: Style)
    | DoEraseChars(n: nat, pen: Style)
    | DoInsertChars(n: nat, pen: Style)
    | DoDeleteChars(n: nat, pen: Style)
    | DoCarriageReturn
    | DoBackspace
    | DoGoto(row: nat, col: nat)
    | DoMoveBy(down: int, right: int)
    | DoTab(n: nat)
    | DoBackTab(n: nat)
    | DoSetTab
    | DoClearTabs(all: bool)
    | DoAutowrap(on: bool)
    | DoInsertMode(on: bool)
    | DoSetRegion(top: nat, bottom: nat)
    | DoResetRegion
    | DoForgetCarry
    | DoTouchAll
    | DoResize(rows: nat, cols: nat, mode: Mode)

  /** Callers place characters of at least one column. */
  predicate Legal(op: Op) {
    op.DoPlace? ==> op.width >= 1
  }

  function Apply(g: Grid, op: Op): (r: (Grid, Evicted))
    requires Shape(g) && Legal(op)
    ensures Shape(r.0)
  {
    match op
    case DoPlace(ch, width, style) => Place(g, ch, width, style)
    case DoJoin(mark, before, after) => (Join(g, mark, before, after).0, [])
    case DoCluster(text, width, style) => WriteCluster(g, text, width, style)
    case DoRun(text, style) => (WriteRun(g, text, style).0, [])
    case DoUnderline(color, width) => (UnderlineCell(g, color, width), [])
    case DoLink(link, width) => (LinkCell(g, link, width), [])
    case DoImageRow(place, pen) => (PlaceImageRow(g, place, pen), [])
    case DoMark(row, col, id) => (MarkCell(g, row, col, id), [])
    case DoLinefeed(pen) => Linefeed(g, pen)
    case DoReverseIndex(pen) => (ReverseIndex(g, pen), [])
    case DoScrollUp(n, pen) => ScrollUp(g, n, pen)
    case DoScrollDown(n, pen) => (ScrollDown(g, n, pen), [])
    case DoRemoveRows(first, n) => (RemoveRows(g, first, n), [])
    case DoInsertLines(n, pen) => (InsertLines(g, n, pen), [])
    case DoDeleteLines(n, pen) => (DeleteLines(g, n, pen), [])
    case DoEraseLine(how, pen) => (EraseLine(g, how, pen), [])
    case DoEraseDisplay(how, pen) => EraseDisplay(g, how, pen)
    case DoEraseChars(n, pen) => (EraseChars(g, n, pen), [])
    case DoInsertChars(n, pen) => (InsertChars(g, n, pen), [])
    case DoDeleteChars(n, pen) => (DeleteChars(g, n, pen), [])
    case DoCarriageReturn => (CarriageReturn(g), [])
    case DoBackspace => (Backspace(g), [])
    case DoGoto(row, col) => (Goto(g, row, col), [])
    case DoMoveBy(down, right) => (MoveBy(g, down, right), [])
    case DoTab(n) => (Tab(g, n), [])
    case DoBackTab(n) => (BackTab(g, n), [])
    case DoSetTab => (SetTab(g), [])
    case DoClearTabs(all) => (ClearTabs(g, all), [])
    case DoAutowrap(on) => (SetAutowrap(g, on), [])
    case DoInsertMode(on) => (SetInsertMode(g, on), [])
    case DoSetRegion(top, bottom) => (SetRegion(g, top, bottom), [])
    case DoResetRegion => (ResetRegion(g), [])
    case DoForgetCarry => (ForgetCarry(g), [])
    case DoTouchAll => (TouchAll(g), [])
    case DoResize(rows, cols, mode) => Resize(g, rows, cols, mode)
  }

  // ----- one step -----

  /** The one operation that can put attachments out of column order, when it does. */
  ghost predicate Disorders(g: Grid, op: Op)
    requires Shape(g)
  {
    op.DoDeleteChars? && Overtaken(g.rows[g.cursor.row].extras, g.cursor.col, op.n)
  }

  lemma TouchAllSound(g: Grid)
    requires Wf(g)
    ensures Sound(g, TouchAll(g)) && Ordered(g, TouchAll(g))
  {
  }

  /** Writes, scrolls, erasures and resizes: whatever may change a row. */
  predicate ChangesRows(op: Op) {
    Writes(op) || Scrolls(op) || Erases(op) || op.DoTouchAll? || op.DoResize?
  }

  predicate Writes(op: Op) {
    || op.DoPlace? || op.DoJoin? || op.DoCluster? || op.DoRun? || op.DoUnderline? || op.DoLink?
    || op.DoImageRow? || op.DoMark?
  }

  predicate Scrolls(op: Op) {
    || op.DoLinefeed? || op.DoReverseIndex? || op.DoScrollUp? || op.DoScrollDown? || op.DoRemoveRows?
    || op.DoInsertLines? || op.DoDeleteLines?
  }

  predicate Erases(op: Op) {
    || op.DoEraseLine? || op.DoEraseDisplay? || op.DoEraseChars? || op.DoInsertChars? || op.DoDeleteChars?
  }

  lemma WriteSound(g: Grid, op: Op)
    requires Wf(g) && Legal(op) && Writes(op)
    ensures Sound(g, Apply(g, op).0) && Ordered(g, Apply(g, op).0)
  {
    hide Sound, Ordered, Place, Join, WriteCluster, WriteRun, UnderlineCell, LinkCell, PlaceImageRow, MarkCell;
    match op
    case DoPlace(ch, width, style) => PlaceSound(g, ch, width, style);
    case DoJoin(mark, before, after) => JoinSound(g, mark, before, after);
    case DoCluster(text, width, style) => WriteClusterSound(g, text, width, style);
    case DoRun(text, style) => WriteRunSound(g, text, style);
    case DoUnderline(color, width) => AttachmentsSound(g, color, None, width, Placement(0, 0, 0, 0, 0), PLAIN);
    case DoLink(link, width) => AttachmentsSound(g, DefaultColor, link, width, Placement(0, 0, 0, 0, 0), PLAIN);
    case DoImageRow(place, pen) => AttachmentsSound(g, DefaultColor, None, 0, place, pen);
    case DoMark(row, col, id) => MarkCellSound(g, row, col, id);
  }

  lemma ScrollSound(g: Grid, op: Op)
    requires Wf(g) && Scrolls(op)
    ensures Sound(g, Apply(g, op).0) && Ordered(g, Apply(g, op).0)
  {
    hide Sound, Ordered, Linefeed, ReverseIndex, ScrollUp, ScrollDown, RemoveRows, InsertLines, DeleteLines;
    match op
    case DoLinefeed(pen) => LinefeedSound(g, pen);
    case DoReverseIndex(pen) => ReverseIndexSound(g, pen);
    case DoScrollUp(n, pen) => ScrollUpSound(g, n, pen);
    case DoScrollDown(n, pen) => ScrollDownSound(g, n, pen);
    case DoRemoveRows(first, n) => RemoveRowsSound(g, first, n);
    case DoInsertLines(n, pen) => InsertLinesSound(g, n, pen);
    case DoDeleteLines(n, pen) => DeleteLinesSound(g, n, pen);
  }

  lemma EraseSound(g: Grid, op: Op)
    requires Wf(g) && Erases(op)
    ensures Sound(g, Apply(g, op).0)
    ensures !Disorders(g, op) ==> Ordered(g, Apply(g, op).0)
    ensures Disorders(g, op) && RowsSorted(g.rows) ==> !RowsSorted(Apply(g, op).0.rows)
  {
    hide Sound, RowsSorted, Overtaken, EraseLine, EraseDisplay, EraseChars, InsertChars, DeleteChars;
    match op
    case DoEraseLine(how, pen) => EraseLineSound(g, how, pen);
    case DoEraseDisplay(how, pen) => EraseDisplaySound(g, how, pen);
    case DoEraseChars(n, pen) => EraseCharsSound(g, n, pen);
    case DoInsertChars(n, pen) => InsertCharsSound(g, n, pen);
    case DoDeleteChars(n, pen) => DeleteCharsSound(g, n, pen);
  }

  lemma CursorStepSound(g: Grid, op: Op)
    requires Wf(g) && Legal(op) && !ChangesRows(op)
    ensures Sound(g, Apply(g, op).0) && Ordered(g, Apply(g, op).0)
  {
    hide Sound, Ordered, DefaultTabs, TabForward, TabBack;
    SameRowsSound(g, Apply(g, op).0);
  }

  /** One operation keeps the grid well-formed and its damage flags honest; and keeps attachments in
      column order unless it is the deletion that moves one left past a mark. */
  lemma StepSound(g: Grid, op: Op)
    requires Wf(g) && Legal(op)
    ensures Sound(g, Apply(g, op).0)
    ensures !Disorders(g, op) ==> Ordered(g, Apply(g, op).0)
    ensures Disorders(g, op) && RowsSorted(g.rows) ==> !RowsSorted(Apply(g, op).0.rows)
  {
    hide Sound, Ordered, RowsSorted, Overtaken, Apply, TouchAll, Resize;
    if Writes(op) {
      WriteSound(g, op);
    } else if Scrolls(op) {
      ScrollSound(g, op);
    } else if Erases(op) {
      EraseSound(g, op);
    } else if op.DoTouchAll? || op.DoResize? {
      WholeSound(g, op);
    } else {
      CursorStepSound(g, op);
    }
  }

  lemma WholeSound(g: Grid, op: Op)
    requires Wf(g) && (op.DoTouchAll? || op.DoResize?)
    ensures Sound(g, Apply(g, op).0) && Ordered(g, Apply(g, op).0)
  {
    hide Sound, Ordered, Resize, TouchAll;
    match op
    case DoTouchAll => TouchAllSound(g);
    case DoResize(rows, cols, mode) => ResizeSound(g, rows, cols, mode);
  }

  // ----- runs -----

  ghost predicate AllLegal(ops: seq<Op>) {
    forall i :: 0 <= i < |ops| ==> Legal(ops[i])
  }

  function Run(g: Grid, ops: seq<Op>): (r: Grid)
    requires Shape(g) && AllLegal(ops)
    ensures Shape(r)
    decreases |ops|
  {
    if ops == [] then g else Run(Apply(g, ops[0]).0, ops[1..])
  }

  /** No step of the run is a character deletion that moves an attachment past a mark. */
  ghost predicate NeverDisorders(g: Grid, ops: seq<Op>)
    requires Shape(g) && AllLegal(ops)
    decreases |ops|
  {
    ops == [] || (!Disorders(g, ops[0]) && NeverDisorders(Apply(g, ops[0]).0, ops[1..]))
  }

  /** Every run keeps the grid well-formed, so no operation indexes out of range, and keeps
      every row's attachments in column order as long as no deletion disorders them. */
  lemma {:induction false} RunWellFormed(g: Grid, ops: seq<Op>)
    requires Wf(g) && AllLegal(ops)
    ensures Wf(Run(g, ops)) && Undamaged(g, Run(g, ops))
    ensures NeverDisorders(g, ops) && RowsSorted(g.rows) ==> RowsSorted(Run(g, ops).rows)
    decreases |ops|
  {
    if ops != [] {
      StepSound(g, ops[0]);
      RunWellFormed(Apply(g, ops[0]).0, ops[1..]);
      SoundThen(g, Apply(g, ops[0]).0, Run(g, ops));
    }
  }

  lemma NewGridWf(rows: nat, cols: nat)
    ensures Wf(NewGrid(rows, cols)) && Wf(Scratch(rows, cols))
    ensures RowsSorted(NewGrid(rows, cols).rows) && RowsSorted(Scratch(rows, cols).rows)
  {
  }

  /** So from the start of either screen, on. */
  lemma RunFromStart(rows: nat, cols: nat, ops: seq<Op>)
    requires AllLegal(ops)
    ensures Wf(Run(NewGrid(rows, cols), ops)) && Wf(Run(Scratch(rows, cols), ops))
    ensures NeverDisorders(NewGrid(rows, cols), ops) ==> RowsSorted(Run(NewGrid(rows, cols), ops).rows)
    ensures NeverDisorders(Scratch(rows, cols), ops) ==> RowsSorted(Run(Scratch(rows, cols), ops).rows)
  {
    hide Run, NewGrid, Scratch, NeverDisorders;
    NewGridWf(rows, cols);
    RunWellFormed(NewGrid(rows, cols), ops);
    RunWellFormed(Scratch(rows, cols), ops);
  }

  // ----- damage over a run -----

  function Shown(rows: seq<Row>): (r: seq<Visible>)
    ensures |r| == |rows|
  {
    seq(|rows|, i requires 0 <= i < |rows| => Seen(rows[i]))
  }

  lemma {:induction false} DirtyFromIs(dirty: seq<bool>, from: nat, i: nat)
    requires from <= |dirty|
    ensures i in DirtyFrom(dirty, from) <==> from <= i < |dirty| && dirty[i]
    decreases |dirty| - from
  {
    if from < |dirty| {
      DirtyFromIs(dirty, from + 1, i);
    }
  }

  /** A mirror of the grid redrawn from the reported rows alone, resized to the grid's height. */
  function Redrawn(mirror: seq<Visible>, rows: seq<Row>, changed: seq<nat>): (r: seq<Visible>)
    ensures |r| == |rows|
  {
    seq(|rows|, i requires 0 <= i < |rows| =>
          if i in changed || i >= |mirror| then Seen(rows[i]) else mirror[i])
  }

  /** Between two drains, whatever ran, a mirror that redraws only what the second drain reports
      equals the grid, and the drain leaves nothing flagged. */
  lemma DrainReportsEverything(g: Grid, ops: seq<Op>)
    requires Wf(g) && AllLegal(ops)
    ensures var drained := DrainDamage(g).0;
            var (after, changed) := DrainDamage(Run(drained, ops));
            && Redrawn(Shown(drained.rows), after.rows, changed) == Shown(after.rows)
            && (forall i :: |drained.rows| <= i < |after.rows| ==> i in changed)
            && DrainDamage(after).1 == []
  {
    var drained := DrainDamage(g).0;
    RunWellFormed(drained, ops);
    var h := Run(drained, ops);
    var after, changed := DrainDamage(h).0, DrainDamage(h).1;
    forall i | 0 <= i < |after.rows|
      ensures Redrawn(Shown(drained.rows), after.rows, changed)[i] == Seen(after.rows[i])
      ensures i >= |drained.rows| ==> i in changed
    {
      DirtyFromIs(h.dirty, 0, i);
    }
    NothingDirty(after.dirty, 0);
  }

  lemma NothingDirty(dirty: seq<bool>, from: nat)
    requires from <= |dirty| && forall i :: 0 <= i < |dirty| ==> !dirty[i]
    ensures DirtyFrom(dirty, from) == []
    decreases |dirty| - from
  {
  }
}
