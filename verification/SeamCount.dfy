/** The seam with the text already in Emacs: `carried` counts exactly the rows of the top
    line that have been handed over, over every run since the count was last reset. */
module SeamCount {
  import opened Cells
  import opened RowLaws
  import opened Grid
  import opened Reflow
  import opened ReflowLaws
  import opened GridLaws
  import opened GridRuns
  import opened CursorTrack

  /** Cells of the last line of the log when that line is still running on, else 0. */
  function OpenWidth(log: Evicted): nat {
    if log == [] || !log[|log| - 1].wrapped then 0
    else OpenWidth(log[..|log| - 1]) + |log[|log| - 1].cells|
  }

  /** The head of the top line, as the grid counts it, is what Emacs really holds of it. */
  predicate SeamExact(g: Grid, log: Evicted) {
    g.carried * g.cols == OpenWidth(log)
  }

  /** Rows that leave while their line runs on are full rows. */
  ghost predicate FullWhenOpen(ev: Evicted, cols: nat) {
    forall i :: 0 <= i < |ev| && ev[i].wrapped ==> |ev[i].cells| == cols
  }

  lemma DepartFull(rows: seq<Row>, cols: nat)
    requires RowsOk(rows, cols)
    ensures FullWhenOpen(DepartAll(rows), cols)
  {
  }

  lemma CarrySnoc(carried: nat, ev: Evicted)
    requires ev != []
    ensures CarryOf(carried, ev)
            == if ev[|ev| - 1].wrapped then CarryOf(carried, ev[..|ev| - 1]) + 1 else 0
  {
    var above := ev[..|ev| - 1];
    if ev[|ev| - 1].wrapped {
      assert TrailingWrapped(ev) == 1 + TrailingWrapped(above);
      assert above != [] && !above[|above| - 1].wrapped ==> TrailingWrapped(above) == 0;
    }
  }

  /** Handing rows over advances the count by exactly the rows its line gained. */
  lemma {:induction false} CarryCounts(carried: nat, log: Evicted, ev: Evicted, cols: nat)
    requires carried * cols == OpenWidth(log) && FullWhenOpen(ev, cols)
    ensures CarryOf(carried, ev) * cols == OpenWidth(log + ev)
    decreases |ev|
  {
    if ev == [] {
      assert log + ev == log;
    } else {
      var n := |ev| - 1;
      CarryCounts(carried, log, ev[..n], cols);
      CarrySnoc(carried, ev);
      assert (log + ev)[..|log + ev| - 1] == log + ev[..n];
      MulStep(CarryOf(carried, ev[..n]), cols);
    }
  }

  // ----- operations that do not resize -----

  /** Whether the operation drops the count: nothing of the top line is in Emacs any more. */
  predicate Resets(g: Grid, op: Op)
    requires Shape(g)
  {
    match op
    case DoForgetCarry => true
    case DoRemoveRows(first, n) => first == 0 && n > 0
    case DoEraseDisplay(how, pen) => how == Everything
    case _ => false
  }

  /** The rows handed over since the last reset, once `op` has run. */
  function LogAfter(g: Grid, op: Op, log: Evicted): Evicted
    requires Shape(g) && Legal(op)
  {
    if Resets(g, op) then [] else log + Apply(g, op).1
  }

  lemma ScrollUpSeam(g: Grid, log: Evicted, n: nat, pen: Style)
    requires Wf(g) && SeamExact(g, log)
    ensures var (h, ev) := ScrollUp(g, n, pen); SeamExact(h, log + ev)
  {
    var top := g.region.top;
    var m: nat := Min(n, g.region.bottom + 1 - top);
    if m == 0 {
      assert log + [] == log;
    } else {
      DepartFull(g.rows[top..top + m], g.cols);
      CarryCounts(g.carried, log, ScrollUp(g, n, pen).1, g.cols);
    }
  }

  lemma LinefeedSeam(g: Grid, log: Evicted, pen: Style)
    requires Wf(g) && SeamExact(g, log)
    ensures var (h, ev) := Linefeed(g, pen); SeamExact(h, log + ev)
  {
    var h := g.(cursor := g.cursor.(wrapPending := false));
    ScrollUpSeam(h, log, 1, pen);
    assert log + [] == log;
  }

  lemma PlaceSeam(g: Grid, log: Evicted, ch: char, width: nat, style: Style)
    requires Wf(g) && SeamExact(g, log) && width >= 1
    ensures var (h, ev) := Place(g, ch, width, style); SeamExact(h, log + ev)
  {
    assert log + [] == log;
    if (g.cursor.wrapPending || g.cursor.col + width > g.cols) && g.autowrap {
      var row := g.rows[g.cursor.row];
      var wrapped := EditRow(g, g.cursor.row, (row.(wrapped := true), !row.wrapped));
      LinefeedSeam(wrapped.(cursor := wrapped.cursor.(col := 0)), log, style);
    }
  }

  lemma JoinAllSeam(g: Grid, marks: string, width: nat)
    requires Shape(g)
    ensures JoinAll(g, marks, width).carried == g.carried && JoinAll(g, marks, width).cols == g.cols
    decreases |marks|
  {
    if marks != [] {
      JoinAllSeam(Join(g, marks[0], width, width).0, marks[1..], width);
    }
  }

  lemma ClusterSeam(g: Grid, log: Evicted, text: string, width: nat, style: Style)
    requires Wf(g) && SeamExact(g, log)
    ensures var (h, ev) := WriteCluster(g, text, width, style); SeamExact(h, log + ev)
  {
    assert log + [] == log;
    if text != [] {
      var h := if width == 0 then Join(g, text[0], 0, 0).0 else Place(g, text[0], width, style).0;
      if width > 0 {
        PlaceSeam(g, log, text[0], width, style);
      }
      JoinAllSeam(h, text[1..], width);
    }
  }

  // ----- rewrapping -----

  lemma DivModUnique(x: nat, q: nat, r: nat, c: nat)
    requires r < c && x == q * c + r
    ensures x / c == q && x % c == r
  {
    var p, m := x / c, x % c;
    assert x == p * c + m;
    if q < p {
      MulMono(q + 1, p, c);
      MulStep(q, c);
    } else if p < q {
      MulMono(p + 1, q, c);
      MulStep(p, c);
    }
  }

  lemma RoundsUp(head: nat, cols: nat)
    requires cols >= 1
    ensures (head + (cols - head % cols)) % cols == 0
  {
    assert head == head / cols * cols + head % cols;
    MulStep(head / cols, cols);
    DivModUnique(head + (cols - head % cols), head / cols + 1, 0, cols);
  }

  lemma OpenSnoc(log: Evicted, d: Departed)
    ensures OpenWidth(log + [d]) == if d.wrapped then OpenWidth(log) + |d.cells| else 0
  {
    assert (log + [d])[..|log|] == log;
  }

  lemma HandedWidth(line: Logical, split: nat, wrapped: bool)
    requires split <= |line.cells|
    ensures var d := Depart(RowOf(line, 0, split, split, wrapped));
            d.wrapped == wrapped && (wrapped ==> |d.cells| == split)
  {
  }

  /** Re-aligning leaves a whole number of rows at the new width handed over, or a finished
      line: the head it reports is what the log then holds open. */
  lemma RealignSeam(lines: seq<Logical>, head: nat, cols: nat, line: nat, offset: nat, log: Evicted)
    requires cols >= 1 && lines != [] && head == OpenWidth(log)
    ensures var s := Realign(lines, head, cols, line, offset);
            s.head % cols == 0 && s.head == OpenWidth(log + s.handed)
  {
    hide RowOf, Depart, AfterFront;
    if head % cols == 0 {
      assert log + [] == log;
    } else {
      var split: nat := Min(cols - head % cols, |lines[0].cells|);
      var endsHere := split == |lines[0].cells|;
      HandedWidth(lines[0], split, !endsHere);
      OpenSnoc(log, Depart(RowOf(lines[0], 0, split, split, !endsHere)));
      RoundsUp(head, cols);
    }
  }

  lemma RefillSeam(g: Grid, flow: seq<Row>, head: nat, placed: Cursor, rows: nat, cols: nat, log: Evicted)
    requires rows >= 1 && cols >= 1 && placed.col < cols && RowsOk(flow, cols)
    requires head % cols == 0 && head == OpenWidth(log)
    ensures var (h, ev) := Refill(g, flow, head, placed, rows, cols); SeamExact(h, log + ev)
  {
    var overflow := Saturate(|flow| - rows);
    assert head / cols * cols == head;
    DepartFull(flow[..overflow], cols);
    CarryCounts(head / cols, log, DepartAll(flow[..overflow]), cols);
  }

  lemma ReseamSeam(g: Grid, cols: nat, log: Evicted)
    requires Wf(g) && cols >= 1 && SeamExact(g, log)
    ensures var s := Reseam(g, cols);
            && s.head % cols == 0 && s.head == OpenWidth(log + s.handed)
            && RowsOk(Flow(s.lines, cols), cols)
  {
    RealignSeam(GridLines(g), g.carried * g.cols, cols, CursorPos(g).0, CursorPos(g).1, log);
    FlowOk(Reseam(g, cols).lines, cols);
  }

  lemma RefillAfterHanded(g: Grid, flow: seq<Row>, head: nat, placed: Cursor, rows: nat, cols: nat,
                          log: Evicted, handed: Evicted)
    requires rows >= 1 && cols >= 1 && placed.col < cols && RowsOk(flow, cols)
    requires head % cols == 0 && head == OpenWidth(log + handed)
    ensures var (h, ev) := Refill(g, flow, head, placed, rows, cols); SeamExact(h, log + (handed + ev))
  {
    hide Refill, OpenWidth;
    RefillSeam(g, flow, head, placed, rows, cols, log + handed);
    var ev := Refill(g, flow, head, placed, rows, cols).1;
    assert (log + handed) + ev == log + (handed + ev);
  }

  /** A rewrap keeps the count exact at the new width. */
  lemma RewrapSeam(g: Grid, rows: nat, cols: nat, log: Evicted)
    requires Wf(g) && rows >= 1 && cols >= 1 && SeamExact(g, log)
    ensures var (h, ev) := Rewrap(g, rows, cols); SeamExact(h, log + ev)
  {
    ReseamSeam(g, cols, log);
    var s := Reseam(g, cols);
    RefillAfterHanded(g, Flow(s.lines, cols), s.head, PlacedCursor(s, cols), rows, cols, log, s.handed);
  }

  // ----- resizing without a rewrap -----

  /** Some row the resize sheds ends its line, so the count starts over from it. */
  predicate LineEnds(ev: Evicted) {
    exists i :: 0 <= i < |ev| && !ev[i].wrapped
  }

  lemma CarryAfterEnd(carried: nat, ev: Evicted, log: Evicted, cols: nat)
    requires LineEnds(ev) && FullWhenOpen(ev, cols)
    ensures CarryOf(carried, ev) * cols == OpenWidth(log + ev)
    decreases |ev|
  {
    var n := |ev| - 1;
    CarrySnoc(carried, ev);
    assert (log + ev)[..|log + ev| - 1] == log + ev[..n];
    if ev[n].wrapped {
      var i :| 0 <= i < |ev| && !ev[i].wrapped;
      assert ev[..n][i] == ev[i];
      CarryAfterEnd(carried, ev[..n], log, cols);
      MulStep(CarryOf(carried, ev[..n]), cols);
    }
  }

  lemma CarryAllOpen(carried: nat, ev: Evicted, log: Evicted, cols: nat)
    requires !LineEnds(ev) && FullWhenOpen(ev, cols)
    ensures CarryOf(carried, ev) == carried + |ev|
    ensures OpenWidth(log + ev) == OpenWidth(log) + |ev| * cols
    decreases |ev|
  {
    if ev == [] {
      assert log + ev == log;
    } else {
      var n := |ev| - 1;
      assert forall i :: 0 <= i < n ==> ev[..n][i] == ev[i];
      assert ev[n].wrapped;
      CarrySnoc(carried, ev);
      CarryAllOpen(carried, ev[..n], log, cols);
      assert (log + ev)[..|log + ev| - 1] == log + ev[..n];
      MulStep(n, cols);
    }
  }

  lemma MulCancels(a: nat, b: nat, c: nat)
    ensures a * c == a * b <==> a == 0 || b == c
  {
    if a > 0 && b < c {
      MulMono(b + 1, c, a);
    } else if a > 0 && c < b {
      MulMono(c + 1, b, a);
    }
  }

  lemma MulAdd(a: nat, b: nat, c: nat)
    ensures (a + b) * c == a * c + b * c
  {
  }

  /** What a row still holds as text once it is cut to `cols`. */
  predicate TextWithin(row: Row, cols: nat) {
    || (exists i :: 0 <= i < |row.extras| && IsContent(row.extras[i].extra) && row.extras[i].at < cols)
    || (exists i :: 0 <= i < |row.cells| && i < cols && row.cells[i].ch != BLANK)
  }

  function LastTextWithin(rows: seq<Row>, cols: nat): nat {
    if |rows| <= 1 || TextWithin(rows[|rows| - 1], cols) then Saturate(|rows| - 1)
    else LastTextWithin(rows[..|rows| - 1], cols)
  }

  /** The rows a resize sheds off the top: what the height falls short by, less the rows below both the
      cursor and the last text. */
  function ShedBy(g: Grid, rows: nat, cols: nat): nat
    requires Shape(g)
  {
    Saturate(|g.rows| - rows - (|g.rows| - 1 - Max(LastTextWithin(g.rows, cols), g.cursor.row)))
  }

  /** Some row the resize is going to shed ends its line, so that the count will start over from it. */
  predicate ShedEndsLine(g: Grid, rows: nat, cols: nat)
    requires Shape(g)
  {
    exists i :: 0 <= i < ShedBy(g, rows, cols) && i < |g.rows| && !g.rows[i].wrapped
  }

  lemma {:induction false} CutOffIs(es: seq<Entry>, cols: nat)
    ensures forall e :: e in CutOff(es, cols) <==> e in es && e.at < cols
    decreases |es|
  {
    if es != [] {
      assert es == [es[0]] + es[1..];
      CutOffIs(es[1..], cols);
    }
  }

  lemma CutTextIsWithin(row: Row, cols: nat)
    ensures HasText(ResizeRow(row, cols, PLAIN)) <==> TextWithin(row, cols)
  {
    var cut := ResizeRow(row, cols, PLAIN);
    CutOffIs(row.extras, cols);
    if i :| 0 <= i < |row.extras| && IsContent(row.extras[i].extra) && row.extras[i].at < cols {
      assert row.extras[i] in cut.extras;
    }
    if i :| 0 <= i < |cut.extras| && IsContent(cut.extras[i].extra) {
      assert cut.extras[i] in row.extras;
    }
    if i :| 0 <= i < |row.cells| && i < cols && row.cells[i].ch != BLANK {
      assert cut.cells[i] == row.cells[i];
    }
  }

  lemma WholeTextIsWithin(row: Row, cols: nat)
    requires RowOk(row, cols)
    ensures HasText(row) <==> TextWithin(row, cols)
  {
    if i :| 0 <= i < |row.extras| && IsContent(row.extras[i].extra) {
      assert row.extras[i].at < cols;
    }
  }

  lemma {:induction false} LastTextOfCut(before: seq<Row>, after: seq<Row>, cols: nat)
    requires |before| == |after|
    requires forall i :: 0 <= i < |before| ==> (HasText(after[i]) <==> TextWithin(before[i], cols))
    ensures LastText(after) == LastTextWithin(before, cols)
    decreases |before|
  {
    hide HasText, TextWithin;
    if |before| > 1 {
      LastTextOfCut(before[..|before| - 1], after[..|after| - 1], cols);
    }
  }

  /** The rows the resize hands over are those foreseen, line ends and all. */
  lemma ShedIsForeseen(g: Grid, rows: nat, cols: nat)
    requires Wf(g) && rows >= 1 && cols >= 1
    ensures |ClampResize(g, rows, cols).1| == ShedBy(g, rows, cols) <= |g.rows|
    ensures LineEnds(ClampResize(g, rows, cols).1) <==> ShedEndsLine(g, rows, cols)
  {
    hide HasText, TextWithin, LastText, LastTextWithin, CarryOf;
    var w := ChangeWidth(g, cols);
    forall i | 0 <= i < |g.rows|
      ensures (HasText(w.rows[i]) <==> TextWithin(g.rows[i], cols)) && w.rows[i].wrapped == g.rows[i].wrapped
    {
      CutTextIsWithin(g.rows[i], cols);
      if cols == g.cols {
        WholeTextIsWithin(g.rows[i], cols);
      }
    }
    LastTextOfCut(g.rows, w.rows, cols);
    var ev := ClampResize(g, rows, cols).1;
    assert ev == DepartAll(w.rows[..ShedBy(g, rows, cols)]);
    forall i | 0 <= i < |ev| ensures ev[i].wrapped == g.rows[i].wrapped {
      assert ev[i] == Depart(w.rows[i]);
    }
  }

  /** A resize that cuts or pads rows instead of rewrapping does not rescale the count, so it
      stays exact only if there is nothing to rescale: the width is the same, nothing of the
      top line had been handed over, or the rows it sheds end that line. */
  lemma ClampSeamIff(g: Grid, rows: nat, cols: nat, log: Evicted)
    requires Wf(g) && rows >= 1 && cols >= 1 && SeamExact(g, log)
    ensures var (h, ev) := ClampResize(g, rows, cols);
            SeamExact(h, log + ev) <==> cols == g.cols || g.carried == 0 || ShedEndsLine(g, rows, cols)
  {
    hide ShedEndsLine, OpenWidth, CarryOf, FullWhenOpen, LineEnds;
    ShedIsForeseen(g, rows, cols);
    var (h, ev) := ClampResize(g, rows, cols);
    ChangeWidthOk(g, cols);
    DepartFull(ChangeWidth(g, cols).rows[..|ev|], cols);
    assert FullWhenOpen(ev, cols);
    if LineEnds(ev) {
      CarryAfterEnd(g.carried, ev, log, cols);
    } else {
      CarryAllOpen(g.carried, ev, log, cols);
      MulAdd(g.carried, |ev|, cols);
      MulCancels(g.carried, g.cols, cols);
    }
  }

  /** Two rows of a line already running on in Emacs, halved in width and cut to one row. */
  const CARRIED: Grid :=
    Grid([Row([Cell('a', PLAIN), Cell('b', PLAIN)], [], true), Row([Cell('c', PLAIN), Cell('d', PLAIN)], [], false)], 2,
         Cursor(1, 0, false), Region(0, 1), [false, false], [false, false], 1, true, false, true)

  /** One row of two cells was handed over and counted once; a row of one cell follows it, and twice one
      is not three. */
  lemma CutLosesCount()
    ensures
      var log := [Depart(Row([Cell('x', PLAIN), Cell('y', PLAIN)], [], true))];
      var (h, ev) := ClampResize(CARRIED, 1, 1);
      Wf(CARRIED) && SeamExact(CARRIED, log) && |ev| == 1 && ev[0].wrapped && !SeamExact(h, log + ev)
  {
    var log := [Depart(Row([Cell('x', PLAIN), Cell('y', PLAIN)], [], true))];
    assert log[..0] == [] && |log[0].cells| == 2 && log[0].wrapped;
    assert OpenWidth(log) == OpenWidth(log[..0]) + 2;
    assert CARRIED.rows[1].cells[0].ch != BLANK;
    assert LastTextWithin(CARRIED.rows, 1) == 1;
    assert ShedBy(CARRIED, 1, 1) == 1 && !ShedEndsLine(CARRIED, 1, 1);
    ShedIsForeseen(CARRIED, 1, 1);
    ClampSeamIff(CARRIED, 1, 1, log);
  }

  // ----- runs -----

  /** The step is not a width change that cuts rows while part of the top line is handed over. */
  predicate KeepsSeam(g: Grid, op: Op)
    requires Shape(g)
  {
    match op
    case DoResize(rows, cols, mode) =>
      || (mode == ToRewrap && Archives(g))
      || AtLeastOne(cols) == g.cols || g.carried == 0
      || ShedEndsLine(g, AtLeastOne(rows), AtLeastOne(cols))
    case _ => true
  }

  lemma ResizeSeam(g: Grid, rows: nat, cols: nat, mode: Mode, log: Evicted)
    requires Wf(g) && SeamExact(g, log) && KeepsSeam(g, DoResize(rows, cols, mode))
    ensures var (h, ev) := Resize(g, rows, cols, mode); SeamExact(h, log + ev)
  {
    var (h, w) := (AtLeastOne(rows), AtLeastOne(cols));
    if mode == ToRewrap && w != g.cols && Archives(g) {
      RewrapSeam(g, h, w, log);
    } else {
      ClampSeamIff(g, h, w, log);
    }
  }

  /** The operations that can hand rows over and keep counting. */
  predicate HandsOver(op: Op) {
    op.DoPlace? || op.DoCluster? || op.DoLinefeed? || op.DoScrollUp? || op.DoResize?
  }

  /** The operations that change a row in place. */
  predicate WritesRow(op: Op) {
    || op.DoJoin? || op.DoRun? || op.DoUnderline? || op.DoLink? || op.DoImageRow? || op.DoMark?
    || op.DoEraseLine? || op.DoEraseChars? || op.DoInsertChars? || op.DoDeleteChars?
  }

  ghost predicate KeepsCount(g: Grid, op: Op)
    requires Shape(g) && Legal(op)
  {
    var (h, ev) := Apply(g, op);
    && h.cols == g.cols && h.carried == (if Resets(g, op) then 0 else g.carried)
    && (Resets(g, op) || ev == [])
  }

  lemma WritersKeepCount(g: Grid, op: Op)
    requires Shape(g) && Legal(op) && WritesRow(op)
    ensures KeepsCount(g, op)
  {
  }

  lemma MoversKeepCount(g: Grid, op: Op)
    requires Shape(g) && Legal(op)
    requires op.DoReverseIndex? || op.DoScrollDown? || op.DoRemoveRows? || op.DoInsertLines?
          || op.DoDeleteLines? || op.DoEraseDisplay?
    ensures KeepsCount(g, op)
  {
  }

  lemma OthersKeepCount(g: Grid, op: Op)
    requires Shape(g) && Legal(op) && !HandsOver(op)
    ensures KeepsCount(g, op)
  {
    if WritesRow(op) {
      WritersKeepCount(g, op);
    } else if op.DoReverseIndex? || op.DoScrollDown? || op.DoRemoveRows? || op.DoInsertLines?
      || op.DoDeleteLines? || op.DoEraseDisplay? {
      MoversKeepCount(g, op);
    } else {
      CursorOpsKeepCount(g, op);
    }
  }

  predicate SetsTabs(op: Op) {
    op.DoTab? || op.DoBackTab? || op.DoSetTab? || op.DoClearTabs?
  }

  predicate SetsMode(op: Op) {
    || op.DoAutowrap? || op.DoInsertMode? || op.DoSetRegion? || op.DoResetRegion? || op.DoForgetCarry?
    || op.DoTouchAll?
  }

  lemma TabsKeepCount(g: Grid, op: Op)
    requires Shape(g) && Legal(op) && SetsTabs(op)
    ensures KeepsCount(g, op)
  {
  }

  lemma ModesKeepCount(g: Grid, op: Op)
    requires Shape(g) && Legal(op) && SetsMode(op)
    ensures KeepsCount(g, op)
  {
  }

  lemma CursorOpsKeepCount(g: Grid, op: Op)
    requires Shape(g) && Legal(op)
    requires op.DoCarriageReturn? || op.DoBackspace? || op.DoGoto? || op.DoMoveBy? || SetsTabs(op) || SetsMode(op)
    ensures KeepsCount(g, op)
  {
    if SetsTabs(op) {
      TabsKeepCount(g, op);
    } else if SetsMode(op) {
      ModesKeepCount(g, op);
    }
  }

  lemma StepSeam(g: Grid, op: Op, log: Evicted)
    requires Wf(g) && Legal(op) && SeamExact(g, log) && KeepsSeam(g, op)
    ensures SeamExact(Apply(g, op).0, LogAfter(g, op, log))
  {
    if HandsOver(op) {
      HandOverSeam(g, op, log);
    } else {
      OthersKeepCount(g, op);
      assert log + [] == log;
    }
  }

  lemma HandOverSeam(g: Grid, op: Op, log: Evicted)
    requires Wf(g) && Legal(op) && SeamExact(g, log) && KeepsSeam(g, op) && HandsOver(op)
    ensures SeamExact(Apply(g, op).0, log + Apply(g, op).1)
  {
    match op
    case DoPlace(ch, width, style) => PlaceSeam(g, log, ch, width, style);
    case DoCluster(text, width, style) => ClusterSeam(g, log, text, width, style);
    case DoLinefeed(pen) => LinefeedSeam(g, log, pen);
    case DoScrollUp(n, pen) => ScrollUpSeam(g, log, n, pen);
    case DoResize(rows, cols, mode) => ResizeSeam(g, rows, cols, mode, log);
  }

  function RunLog(g: Grid, ops: seq<Op>, log: Evicted): Evicted
    requires Shape(g) && AllLegal(ops)
    decreases |ops|
  {
    if ops == [] then log
    else RunLog(Apply(g, ops[0]).0, ops[1..], LogAfter(g, ops[0], log))
  }

  ghost predicate RunKeepsSeam(g: Grid, ops: seq<Op>)
    requires Shape(g) && AllLegal(ops)
    decreases |ops|
  {
    ops == [] || (KeepsSeam(g, ops[0]) && RunKeepsSeam(Apply(g, ops[0]).0, ops[1..]))
  }

  /** Over every run since the count was last reset, `carried * cols` is the total width of the
      wrapped rows the departed text ends in. */
  lemma {:induction false} SeamIsExact(g: Grid, ops: seq<Op>, log: Evicted)
    requires Wf(g) && AllLegal(ops) && SeamExact(g, log) && RunKeepsSeam(g, ops)
    ensures SeamExact(Run(g, ops), RunLog(g, ops, log))
    decreases |ops|
  {
    if ops != [] {
      StepSound(g, ops[0]);
      StepSeam(g, ops[0], log);
      SeamIsExact(Apply(g, ops[0]).0, ops[1..], LogAfter(g, ops[0], log));
    }
  }

  /** In particular from a new screen, with nothing handed over yet. */
  lemma SeamFromStart(rows: nat, cols: nat, ops: seq<Op>)
    requires AllLegal(ops) && RunKeepsSeam(NewGrid(rows, cols), ops)
    ensures SeamExact(Run(NewGrid(rows, cols), ops), RunLog(NewGrid(rows, cols), ops, []))
  {
    hide Run, RunLog, RunKeepsSeam;
    NewGridWf(rows, cols);
    SeamIsExact(NewGrid(rows, cols), ops, []);
  }
}
