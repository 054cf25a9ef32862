/** Where a rewrap leaves the cursor: at the same offset of the same logical line, exactly when
    that cell is still on the grid. */
module CursorTrack {
  import opened Cells
  import opened RowLaws
  import opened Grid
  import opened Reading
  import opened Reflow
  import opened ReflowLaws
  import opened Recut
  import opened Transcript
  import opened WideChunk
  import opened InkLaws
  import opened ReachLaws

  /** The logical line row `n` belongs to or starts, and the glyphs of it above that row. */
  function Where(ls: seq<Line>, n: nat): (nat, nat)
    requires n <= |ls|
  {
    if n == 0 then (0, 0)
    else
      var (line, before) := Where(ls, n - 1);
      if ls[n - 1].wrapped then (line, before + |ls[n - 1].glyphs|) else (line + 1, 0)
  }

  /** A position `at` columns into row `n`, as a logical line and an offset into it. */
  function Position(ls: seq<Line>, n: nat, at: nat): (nat, nat)
    requires n <= |ls|
  {
    (Where(ls, n).0, Where(ls, n).1 + at)
  }

  function Standing(c: Cursor): nat {
    c.col + if c.wrapPending then 1 else 0
  }

  lemma WherePrefix(a: seq<Line>, b: seq<Line>, n: nat)
    requires n <= |a|
    ensures Where(a + b, n) == Where(a, n)
  {
  }

  lemma {:induction false} WhereAfter(a: seq<Line>, b: seq<Line>, n: nat)
    requires n <= |b|
    ensures var (la, oa) := Where(a, |a|);
            var (lb, ob) := Where(b, n);
            Where(a + b, |a| + n) == if lb == 0 then (la, oa + ob) else (la + lb, ob)
  {
    if n == 0 {
      WherePrefix(a, b, |a|);
    } else {
      WhereAfter(a, b, n - 1);
      assert (a + b)[|a| + n - 1] == b[n - 1];
    }
  }

  /** Further down is later: in a later line, or further along the same one. */
  lemma WhereGrows(ls: seq<Line>, m: nat, n: nat)
    requires m < n <= |ls|
    requires forall i :: m <= i < n && ls[i].wrapped ==> ls[i].glyphs != []
    ensures var (lm, om) := Where(ls, m);
            var (ln, on) := Where(ls, n);
            lm < ln || (lm == ln && om < on)
  {
    if m < n - 1 {
      WhereGrows(ls, m, n - 1);
    }
  }

  // ----- the cursor before -----

  /** Where reassembly stands after the rows so far: in a line still running on, or between two. */
  ghost predicate StandsAt(where: (nat, nat), lines: seq<Logical>, continuing: bool) {
    if continuing then lines != [] && where == (|lines| - 1, |lines[|lines| - 1].cells|)
    else where == (|lines|, 0)
  }

  lemma AssembleWhereStep(where: (nat, nat), lines: seq<Logical>, continuing: bool, row: Row, cols: nat)
    requires StandsAt(where, lines, continuing) && RowOk(row, cols)
    ensures var started := if continuing then lines else lines + [EMPTY_LINE];
            var after := started[|started| - 1 := PushRow(started[|started| - 1], row)];
            StandsAt(if row.wrapped then (where.0, where.1 + |LineOf(row).glyphs|) else (where.0 + 1, 0),
                     after, row.wrapped)
  {
  }

  lemma StandsFirst()
    ensures StandsAt((0, 0), [], false)
  {
  }

  lemma LineKeepsWrap(row: Row)
    ensures LineOf(row).wrapped == row.wrapped
  {
  }

  lemma {:induction false} AssembleWhere(rows: seq<Row>, n: nat, cols: nat)
    requires n <= |rows| && RowsOk(rows, cols)
    ensures StandsAt(Where(LinesOf(rows), n), AssembleTo(rows, n).0, AssembleTo(rows, n).1)
  {
    hide PushRow, LineOf, StandsAt;
    if n == 0 {
      StandsFirst();
    } else {
      AssembleWhere(rows, n - 1, cols);
      var (lines, continuing) := AssembleTo(rows, n - 1);
      AssembleWhereStep(Where(LinesOf(rows), n - 1), lines, continuing, rows[n - 1], cols);
      assert LinesOf(rows)[n - 1] == LineOf(rows[n - 1]);
      LineKeepsWrap(rows[n - 1]);
    }
  }

  lemma LinePosIsPosition(rows: seq<Row>, c: Cursor, cols: nat)
    requires c.row <= |rows| && RowsOk(rows, cols)
    ensures LinePos(rows, c.row, c.col, c.wrapPending) == Position(LinesOf(rows), c.row, Standing(c))
  {
    AssembleWhere(rows, c.row, cols);
  }

  // ----- rows of one line -----

  /** Rows that spell one line: all but the last wrapped and `cols` wide. */
  ghost predicate OneLine(ls: seq<Line>, cols: nat) {
    && ls != [] && !ls[|ls| - 1].wrapped
    && forall i :: 0 <= i < |ls| - 1 ==> ls[i].wrapped && |ls[i].glyphs| == cols
  }

  lemma {:induction false} OneLineWhere(ls: seq<Line>, cols: nat, r: nat)
    requires OneLine(ls, cols) && r < |ls|
    ensures Where(ls, r) == (0, r * cols)
  {
    if r > 0 {
      OneLineWhere(ls, cols, r - 1);
      assert r * cols == (r - 1) * cols + cols;
    }
  }

  lemma LastRowEnds(line: Logical, cols: nat, start: nat)
    requires start <= |line.cells|
    ensures !LineOf(RowOf(line, start, |line.cells|, cols, false)).wrapped
  {
  }

  lemma {:induction false} PlainRowsOneLine(line: Logical, cols: nat, start: nat)
    requires cols >= 1 && start <= |line.cells|
    ensures OneLine(LinesOf(PlainRows(line, cols, start)), cols)
    ensures var m := |PlainRows(line, cols, start)|;
            (m - 1) * cols <= |line.cells| - start <= m * cols
            && (m > 1 ==> (m - 1) * cols < |line.cells| - start)
    decreases |line.cells| - start
  {
    hide RowOf, LineGlyphs, LineOf;
    if start + cols < |line.cells| {
      PlainRowsOneLine(line, cols, start + cols);
      FullRowReads(line, cols, start);
      var below := PlainRows(line, cols, start + cols);
      var m := |below|;
      assert LinesOf(PlainRows(line, cols, start)) == [LineOf(RowOf(line, start, start + cols, cols, true))] + LinesOf(below);
      assert (m + 1) * cols == m * cols + cols && m * cols == (m - 1) * cols + cols;
    } else {
      LastRowEnds(line, cols, start);
      assert LinesOf(PlainRows(line, cols, start)) == [LineOf(RowOf(line, start, |line.cells|, cols, false))];
      assert 1 * cols == cols && 0 * cols == 0;
    }
  }

  lemma ChunkOneLine(line: Logical, cols: nat)
    requires cols >= 1 && Even(line.cells, cols)
    ensures OneLine(LinesOf(Chunk(line, cols)), cols)
    ensures var m := |Chunk(line, cols)|;
            (m - 1) * cols <= |line.cells| <= m * cols && (m > 1 ==> (m - 1) * cols < |line.cells|)
  {
    ChunkIsPlain(line, cols);
    ChunkLines(line, cols);
    PlainRowsOneLine(line, cols, 0);
    assert |LinesOf(Chunk(line, cols))| == |LinesOf(BareChunk(line, cols))|;
  }

  lemma {:induction false} LaidCovers(cells: seq<Cell>, cols: nat, start: nat, at: nat)
    requires start <= at <= |cells| && at - start <= cols && CharsFit(cells, at, cols)
    ensures |Laid(cells, cols, start, at)| >= |cells| - start
    decreases |cells| - at
  {
    if at < |cells| {
      var next := CharEnd(cells, at + 1);
      LaidCovers(cells, cols, if next - start > cols then at else start, next);
    }
  }

  lemma {:induction false} FlatLength(rows: seq<Row>, cols: nat)
    requires RowsOk(rows, cols)
    ensures |Flat(rows)| == |rows| * cols
  {
    if rows != [] {
      FlatLength(rows[..|rows| - 1], cols);
      MulStep(|rows| - 1, cols);
    }
  }

  /** A line whose characters all fit is cut into full rows, one line still, with room for all of it. */
  lemma FittingOneLine(line: Logical, cols: nat)
    requires cols >= 1 && CharsFit(line.cells, 0, cols)
    ensures OneLine(LinesOf(Chunk(line, cols)), cols)
    ensures |line.cells| <= |Chunk(line, cols)| * cols
  {
    hide Chunk, Laid, CharsFit, Read;
    var rows := Chunk(line, cols);
    ChunkOk(line, cols);
    ChunkStarts(line, cols);
    FitsCloses(line, cols);
    forall i | 0 <= i < |rows| - 1 ensures LinesOf(rows)[i].wrapped && |LinesOf(rows)[i].glyphs| == cols {
      assert RowOk(rows[i], cols);
    }
    ChunkLaid(line, cols);
    FlatLength(rows, cols);
    if line.cells != [] {
      LaidCovers(line.cells, cols, 0, 0);
    }
  }

  lemma MulMono(a: nat, b: nat, c: nat)
    requires a <= b
    ensures a * c <= b * c
  {
  }

  lemma QuotientAtMost(row: nat, cols: nat, chunks: nat)
    requires cols >= 1 && row * cols <= chunks * cols
    ensures row <= chunks
  {
    if row > chunks {
      MulMono(chunks + 1, row, cols);
      MulStep(chunks, cols);
    }
  }

  lemma MulStep(a: nat, c: nat)
    ensures (a + 1) * c == a * c + c
  {
  }

  lemma PlaceOffsetLands(offset: nat, cols: nat, chunks: nat)
    requires cols >= 1 && chunks >= 1 && offset <= chunks * cols
    ensures var (row, col, pending) := PlaceOffset(offset, cols, chunks);
            row < chunks && row * cols + col + (if pending then 1 else 0) == offset
  {
    var row, col := offset / cols, offset % cols;
    assert offset == row * cols + col;
    QuotientAtMost(row, cols, chunks);
    if row > 0 {
      MulStep(row - 1, cols);
    }
  }

  // ----- rows of many lines -----

  ghost predicate EachOneLine(parts: seq<seq<Row>>, cols: nat) {
    forall i :: 0 <= i < |parts| ==> OneLine(LinesOf(parts[i]), cols)
  }

  lemma WhereOneMore(above: seq<Line>, n: nat, part: seq<Line>, cols: nat, r: nat)
    requires Where(above, |above|) == (n, 0) && OneLine(part, cols) && r < |part|
    ensures Where(above + part, |above| + r) == (n, r * cols)
    ensures Where(above + part, |above + part|) == (n + 1, 0)
  {
    OneLineWhere(part, cols, r);
    WhereAfter(above, part, r);
    OneLineWhere(part, cols, |part| - 1);
    WhereAfter(above, part, |part|);
  }

  lemma {:induction false} ConcatWhere(parts: seq<seq<Row>>, cols: nat)
    requires EachOneLine(parts, cols)
    ensures Where(LinesOf(Concat(parts)), |Concat(parts)|) == (|parts|, 0)
  {
    if parts != [] {
      var n := |parts| - 1;
      ConcatWhere(parts[..n], cols);
      LinesOfConcat(Concat(parts[..n]), parts[n]);
      WhereOneMore(LinesOf(Concat(parts[..n])), n, LinesOf(parts[n]), cols, 0);
    }
  }

  lemma {:induction false} ConcatSplit(parts: seq<seq<Row>>, k: nat)
    requires k < |parts|
    ensures Concat(parts[..k]) + parts[k] <= Concat(parts)
  {
    var n := |parts| - 1;
    if k < n {
      ConcatSplit(parts[..n], k);
      assert parts[..n][..k] == parts[..k];
    }
  }

  lemma ConcatRowWhere(parts: seq<seq<Row>>, cols: nat, k: nat, r: nat)
    requires EachOneLine(parts, cols) && k < |parts| && r < |parts[k]|
    ensures |Concat(parts[..k])| + r < |Concat(parts)|
    ensures Where(LinesOf(Concat(parts)), |Concat(parts[..k])| + r) == (k, r * cols)
  {
    var above, part, all := Concat(parts[..k]), parts[k], Concat(parts);
    ConcatWhere(parts[..k], cols);
    ConcatSplit(parts, k);
    LinesOfConcat(above, part);
    WhereOneMore(LinesOf(above), k, LinesOf(part), cols, r);
    var rest := all[|above + part|..];
    assert all == (above + part) + rest;
    LinesOfConcat(above + part, rest);
    WherePrefix(LinesOf(above + part), LinesOf(rest), |above| + r);
  }

  lemma ChunksOneLine(lines: seq<Logical>, cols: nat)
    requires cols >= 1 && AllFit(lines, cols)
    ensures EachOneLine(Chunks(lines, cols), cols)
  {
    forall i | 0 <= i < |lines| ensures OneLine(LinesOf(Chunks(lines, cols)[i]), cols) {
      FittingOneLine(lines[i], cols);
    }
  }

  lemma ChunksAt(lines: seq<Logical>, cols: nat, k: nat)
    requires k < |lines|
    ensures Chunks(lines[..k], cols) == Chunks(lines, cols)[..k]
    ensures Chunks(lines, cols)[k] == Chunk(lines[k], cols)
  {
  }

  lemma PlaceInRow(parts: seq<seq<Row>>, cols: nat, k: nat, offset: nat)
    requires cols >= 1 && k < |parts| && parts[k] != [] && offset <= |parts[k]| * cols
    ensures var c := PlaceIn(parts, k, offset, cols);
            var r := PlaceOffset(offset, cols, |parts[k]|).0;
            r < |parts[k]| && c.row == |Concat(parts[..k])| + r && r * cols + Standing(c) == offset
  {
    PlaceOffsetLands(offset, cols, |parts[k]|);
  }

  lemma PositionFrom(ls: seq<Line>, c: Cursor, line: nat, before: nat, offset: nat)
    requires c.row < |ls| && Where(ls, c.row) == (line, before) && before + Standing(c) == offset
    ensures Position(ls, c.row, Standing(c)) == (line, offset)
  {
  }

  lemma PlaceInWhere(parts: seq<seq<Row>>, cols: nat, k: nat, offset: nat)
    requires EachOneLine(parts, cols) && cols >= 1 && k < |parts|
    requires parts[k] != [] && offset <= |parts[k]| * cols
    ensures var c := PlaceIn(parts, k, offset, cols);
            && c.row < |Concat(parts)|
            && Position(LinesOf(Concat(parts)), c.row, Standing(c)) == (k, offset)
  {
    hide PlaceIn, PlaceOffset, Concat, Where, LinesOf, OneLine;
    PlaceInRow(parts, cols, k, offset);
    var r := PlaceOffset(offset, cols, |parts[k]|).0;
    ConcatRowWhere(parts, cols, k, r);
    PositionFrom(LinesOf(Concat(parts)), PlaceIn(parts, k, offset, cols), k, r * cols, offset);
  }

  /** The cursor's cell among the re-cut rows is its line at its offset. */
  lemma PlacedPosition(s: Seam, cols: nat)
    requires cols >= 1 && AllFit(s.lines, cols) && s.cursorLine < |s.lines|
    requires s.cursorOffset <= |s.lines[s.cursorLine].cells|
    ensures var c := PlacedCursor(s, cols);
            && c.row < |Flow(s.lines, cols)|
            && Position(LinesOf(Flow(s.lines, cols)), c.row, Standing(c)) == (s.cursorLine, s.cursorOffset)
  {
    var k := s.cursorLine;
    ChunksOneLine(s.lines, cols);
    FittingOneLine(s.lines[k], cols);
    ChunksAt(s.lines, cols, k);
    PlaceInWhere(Chunks(s.lines, cols), cols, k, s.cursorOffset);
  }

  // ----- the cursor's line before the cut -----

  lemma AssembleGrows(rows: seq<Row>, m: nat, n: nat)
    requires m <= n <= |rows|
    ensures |AssembleTo(rows, m).0| <= |AssembleTo(rows, n).0|
  {
    if m < n {
      AssembleGrows(rows, m, n - 1);
    }
  }

  function CursorPos(g: Grid): (nat, nat)
    requires Shape(g)
  {
    LinePos(g.rows, g.cursor.row, g.cursor.col, g.cursor.wrapPending)
  }

  /** The cursor's line is one of the grid's, and reaches as far as the cursor does. */
  lemma CursorOnLine(g: Grid)
    requires Wf(g)
    ensures var (line, offset) := CursorPos(g);
            line < |GridLines(g)| && offset <= |GridLines(g)[line].cells|
  {
    hide PushRow, LineGlyphs;
    var (line, offset) := CursorPos(g);
    var base := AssembleTo(g.rows, Used(g)).0;
    AssembleGrows(g.rows, g.cursor.row + 1, Used(g));
    AssembleWhere(g.rows, g.cursor.row, g.cols);
    assert line < |AssembleTo(g.rows, g.cursor.row + 1).0|;
    AssembleReads(g.rows, Used(g), g.cols);
    assert LogicalOk(base[line]);
    PadGlyphs(base[line], offset);
  }

  // ----- the seam -----

  /** The cells the seam hands over, if any. */
  function Split(g: Grid, cols: nat): nat
    requires Shape(g) && cols >= 1
  {
    var head := g.carried * g.cols;
    if head % cols == 0 then 0 else Min(cols - head % cols, |GridLines(g)[0].cells|)
  }

  function HandsOverAll(g: Grid, cols: nat): bool
    requires Shape(g) && cols >= 1
  {
    (g.carried * g.cols) % cols != 0 && Split(g, cols) == |GridLines(g)[0].cells|
  }

  /** The cursor stands in the fragment of the first line that the seam hands to Emacs. */
  predicate InHanded(g: Grid, cols: nat)
    requires Shape(g) && cols >= 1
  {
    var (line, offset) := CursorPos(g);
    line == 0 && (HandsOverAll(g, cols) || offset < Split(g, cols))
  }

  /** What the handed-over rows add to a position: part of line 0, or all of it. */
  lemma SeamWhere(g: Grid, cols: nat)
    requires Wf(g) && cols >= 1
    ensures var s := Reseam(g, cols);
            Where(LinesOfDeparted(s.handed), |s.handed|)
            == if HandsOverAll(g, cols) then (1, 0) else (0, Split(g, cols))
  {
    hide GridLines, RowOf, Depart, AfterFront;
    var s := Reseam(g, cols);
    if (g.carried * g.cols) % cols != 0 {
      HandedReads(GridLines(g)[0], Split(g, cols), !HandsOverAll(g, cols));
      assert LinesOfDeparted(s.handed)[0] == LineOfDeparted(s.handed[0]);
      assert Where(LinesOfDeparted(s.handed), 0) == (0, 0);
    }
  }

  lemma SeamCursor(g: Grid, cols: nat)
    requires Wf(g) && cols >= 1
    ensures var s := Reseam(g, cols);
            var (line, offset) := CursorPos(g);
            && (!InHanded(g, cols) ==>
                 && s.cursorLine < |s.lines| && s.cursorOffset <= |s.lines[s.cursorLine].cells|
                 && s.cursorLine == (if HandsOverAll(g, cols) then line - 1 else line)
                 && s.cursorOffset == (if line == 0 then offset - Split(g, cols) else offset))
            && (InHanded(g, cols) ==> s.cursorLine == 0 && s.cursorOffset == 0)
  {
    CursorOnLine(g);
  }

  // ----- the cursor after -----

  /** The transcript as the rewrap leaves it: what departed, then the new grid. */
  function After(g: Grid, rows: nat, cols: nat): seq<Line>
    requires Shape(g) && rows >= 1 && cols >= 1
  {
    var (h, ev) := Rewrap(g, rows, cols);
    LinesOfDeparted(ev) + LinesOf(h.rows)
  }

  /** The row of that transcript the new cursor is on. */
  function AfterRow(g: Grid, rows: nat, cols: nat): nat
    requires Shape(g) && rows >= 1 && cols >= 1
  {
    var (h, ev) := Rewrap(g, rows, cols);
    |ev| + h.cursor.row
  }

  /** No character of the lines a rewrap cuts is wider than the new screen. */
  ghost predicate CharactersFit(g: Grid, cols: nat)
    requires Shape(g) && cols >= 1
  {
    AllFit(Reseam(g, cols).lines, cols)
  }

  function Overflow(g: Grid, rows: nat, cols: nat): nat
    requires Shape(g) && rows >= 1 && cols >= 1
  {
    Saturate(|Flow(Reseam(g, cols).lines, cols)| - rows)
  }

  lemma RefillCursor(g: Grid, flow: seq<Row>, head: nat, placed: Cursor, rows: nat, cols: nat)
    requires rows >= 1 && cols >= 1 && placed.col < cols
    requires placed.row < |flow| || placed.row == 0
    ensures var (h, ev) := Refill(g, flow, head, placed, rows, cols);
            && |ev| + h.cursor.row == Max(placed.row, Saturate(|flow| - rows))
            && Standing(h.cursor) == Standing(placed)
  {
  }

  /** The rows of the transcript after the rewrap, as the pieces the proof works on. */
  ghost predicate LaidOver(after: seq<Line>, handed: seq<Line>, flow: seq<Line>) {
    handed + flow <= after
  }

  lemma AfterLaid(g: Grid, rows: nat, cols: nat)
    requires Wf(g) && rows >= 1 && cols >= 1
    ensures var s := Reseam(g, cols);
            LaidOver(After(g, rows, cols), LinesOfDeparted(s.handed), LinesOf(Flow(s.lines, cols)))
  {
    var s := Reseam(g, cols);
    FlowOk(s.lines, cols);
    RefillLaid(g, s.handed, Flow(s.lines, cols), s.head, PlacedCursor(s, cols), rows, cols);
  }

  lemma RefillLaid(g: Grid, handed: Evicted, flow: seq<Row>, head: nat, placed: Cursor, rows: nat, cols: nat)
    requires rows >= 1 && cols >= 1 && placed.col < cols && RowsOk(flow, cols)
    ensures var (h, ev) := Refill(g, flow, head, placed, rows, cols);
            LaidOver(LinesOfDeparted(handed + ev) + LinesOf(h.rows), LinesOfDeparted(handed), LinesOf(flow))
  {
    RefillReads(g, flow, head, placed, rows, cols);
    var (h, ev) := Refill(g, flow, head, placed, rows, cols);
    assert LinesOfDeparted(handed + ev) == LinesOfDeparted(handed) + LinesOfDeparted(ev);
    LaidFrom(LinesOfDeparted(handed), LinesOfDeparted(ev), LinesOf(h.rows), LinesOf(flow));
  }

  lemma LaidFrom(handed: seq<Line>, ev: seq<Line>, rows: seq<Line>, flow: seq<Line>)
    requires flow <= ev + rows
    ensures LaidOver((handed + ev) + rows, handed, flow)
  {
    assert (handed + ev) + rows == handed + (ev + rows);
    var rest := (ev + rows)[|flow|..];
    assert ev + rows == flow + rest;
    assert (handed + ev) + rows == (handed + flow) + rest;
  }

  lemma LaidWhere(after: seq<Line>, handed: seq<Line>, flow: seq<Line>, n: nat)
    requires LaidOver(after, handed, flow) && n <= |flow|
    ensures var (la, oa) := Where(handed, |handed|);
            var (lb, ob) := Where(flow, n);
            Where(after, |handed| + n) == if lb == 0 then (la, oa + ob) else (la + lb, ob)
  {
    var rest := after[|handed + flow|..];
    assert after == (handed + flow) + rest;
    WhereAfter(handed, flow, n);
    WherePrefix(handed + flow, rest, |handed| + n);
  }

  lemma LaidGrows(after: seq<Line>, handed: seq<Line>, flow: seq<Line>, m: nat, n: nat)
    requires LaidOver(after, handed, flow) && m < n <= |flow|
    requires forall i :: 0 <= i < |flow| && flow[i].wrapped ==> flow[i].glyphs != []
    ensures var (lm, om) := Where(after, |handed| + m);
            var (ln, on) := Where(after, |handed| + n);
            lm < ln || (lm == ln && om < on)
  {
    forall i | |handed| + m <= i < |handed| + n && after[i].wrapped ensures after[i].glyphs != [] {
      assert after[i] == (handed + flow)[i] == flow[i - |handed|];
    }
    WhereGrows(after, |handed| + m, |handed| + n);
  }

  lemma PlacedRow(s: Seam, cols: nat)
    requires cols >= 1 && AllFit(s.lines, cols)
    requires s.cursorLine < |s.lines| ==> s.cursorOffset <= |s.lines[s.cursorLine].cells|
    ensures PlacedCursor(s, cols).row < |Flow(s.lines, cols)| || PlacedCursor(s, cols).row == 0
  {
    if s.cursorLine < |s.lines| {
      PlacedPosition(s, cols);
    }
  }

  /** Everything the final position depends on. */
  datatype Track = Track(
    after: seq<Line>,
    handed: seq<Line>,
    flow: seq<Line>,
    row: nat,
    at: nat,
    line: nat,
    offset: nat,
    ends: bool,
    split: nat,
    overflow: nat)
  {
    ghost predicate InFragment() {
      line == 0 && (ends || offset < split)
    }

    ghost predicate RowsNonempty() {
      forall i :: 0 <= i < |flow| && flow[i].wrapped ==> flow[i].glyphs != []
    }

    ghost predicate Sound() {
      && LaidOver(after, handed, flow)
      && Where(handed, |handed|) == (if ends then (1, 0) else (0, split))
      && (row < |flow| || row == 0) && overflow <= |flow|
    }

    ghost predicate Placed() {
      !InFragment() ==>
        && row < |flow|
        && Position(flow, row, at)
           == (if ends then line - 1 else line, if line == 0 then offset - split else offset)
    }
  }

  lemma KeptPosition(t: Track, before: (nat, nat))
    requires t.Sound() && t.Placed() && !t.InFragment() && before == Where(t.flow, t.row)
    ensures Position(t.after, |t.handed| + t.row, t.at) == (t.line, t.offset)
  {
    assert before.0 == if t.ends then t.line - 1 else t.line;
    assert before.1 + t.at == if t.line == 0 then t.offset - t.split else t.offset;
    LaidWhere(t.after, t.handed, t.flow, t.row);
  }

  lemma KeptIff(t: Track)
    requires t.Sound() && t.Placed() && t.RowsNonempty()
    ensures |t.handed| + Max(t.row, t.overflow) <= |t.after|
    ensures Position(t.after, |t.handed| + Max(t.row, t.overflow), t.at) == (t.line, t.offset)
            <==> !t.InFragment() && t.row >= t.overflow
  {
    LaidWhere(t.after, t.handed, t.flow, Max(t.row, t.overflow));
    if !t.InFragment() {
      KeptPosition(t, Where(t.flow, t.row));
      if t.row < t.overflow {
        LaidGrows(t.after, t.handed, t.flow, t.row, t.overflow);
      }
    }
  }

  function TrackOf(g: Grid, rows: nat, cols: nat, s: Seam): Track
    requires Shape(g) && rows >= 1 && cols >= 1
  {
    var placed := PlacedCursor(s, cols);
    Track(After(g, rows, cols), LinesOfDeparted(s.handed), LinesOf(Flow(s.lines, cols)),
          placed.row, Standing(placed), CursorPos(g).0, CursorPos(g).1,
          HandsOverAll(g, cols), Split(g, cols), Saturate(|Flow(s.lines, cols)| - rows))
  }

  lemma TrackSound(g: Grid, rows: nat, cols: nat)
    requires Wf(g) && rows >= 1 && cols >= 1 && CharactersFit(g, cols)
    ensures TrackOf(g, rows, cols, Reseam(g, cols)).Sound()
  {
    AfterLaid(g, rows, cols);
    SeamWhere(g, cols);
    SeamCursor(g, cols);
    PlacedRow(Reseam(g, cols), cols);
  }

  lemma TrackPlaced(t: Track, s: Seam, cols: nat)
    requires cols >= 1 && AllFit(s.lines, cols)
    requires t.flow == LinesOf(Flow(s.lines, cols))
    requires t.row == PlacedCursor(s, cols).row && t.at == Standing(PlacedCursor(s, cols))
    requires !t.InFragment() ==>
               && s.cursorLine < |s.lines| && s.cursorOffset <= |s.lines[s.cursorLine].cells|
               && s.cursorLine == (if t.ends then t.line - 1 else t.line)
               && s.cursorOffset == (if t.line == 0 then t.offset - t.split else t.offset)
    ensures t.Placed()
  {
    if !t.InFragment() {
      PlacedPosition(s, cols);
    }
  }

  lemma TrackNonempty(g: Grid, rows: nat, cols: nat, s: Seam)
    requires Shape(g) && rows >= 1 && cols >= 1
    ensures TrackOf(g, rows, cols, s).RowsNonempty()
  {
    FlowOk(s.lines, cols);
  }

  lemma TrackRow(g: Grid, rows: nat, cols: nat, s: Seam)
    requires Shape(g) && rows >= 1 && cols >= 1 && s == Reseam(g, cols)
    requires TrackOf(g, rows, cols, s).row < |Flow(s.lines, cols)| || TrackOf(g, rows, cols, s).row == 0
    ensures var t := TrackOf(g, rows, cols, s);
            && AfterRow(g, rows, cols) == |t.handed| + Max(t.row, t.overflow)
            && Standing(Rewrap(g, rows, cols).0.cursor) == t.at
  {
    RefillCursor(g, Flow(s.lines, cols), s.head, PlacedCursor(s, cols), rows, cols);
  }

  /** As long as no character is wider than the screen, a rewrap keeps the cursor at the same offset of the
      same logical line exactly when that cell is still on the grid: neither in the fragment the seam hands
      over nor on a row that overflows the top. */
  lemma RewrapKeepsCursorIff(g: Grid, rows: nat, cols: nat)
    requires Wf(g) && rows >= 1 && cols >= 1 && CharactersFit(g, cols)
    ensures AfterRow(g, rows, cols) <= |After(g, rows, cols)|
    ensures Position(After(g, rows, cols), AfterRow(g, rows, cols), Standing(Rewrap(g, rows, cols).0.cursor))
            == Position(LinesOf(g.rows), g.cursor.row, Standing(g.cursor))
            <==> !InHanded(g, cols) && PlacedCursor(Reseam(g, cols), cols).row >= Overflow(g, rows, cols)
  {
    hide Reseam, Flow, PlaceIn, Chunks, Refill, GridLines, LinePos, AssembleTo, Realign;
    var s := Reseam(g, cols);
    var t := TrackOf(g, rows, cols, s);
    TrackSound(g, rows, cols);
    SeamCursor(g, cols);
    TrackPlaced(t, s, cols);
    TrackNonempty(g, rows, cols, s);
    TrackRow(g, rows, cols, s);
    LinePosIsPosition(g.rows, g.cursor, g.cols);
    KeptIff(t);
  }

  // ----- which cell an offset names once characters have moved -----

  /** Past the character at `offset`, or at the end of the line. */
  function Through(cells: seq<Cell>, offset: nat): (end: nat)
    requires offset <= |cells|
    ensures offset <= end <= |cells|
  {
    CharEnd(cells, Min(offset + 1, |cells|))
  }

  /** The rows a line is cut into show its cell `offset`, or its end, `at` columns into row `row`. */
  ghost predicate HeldAt(cells: seq<Cell>, cols: nat, offset: nat, row: nat, at: nat) {
    var spans := Spans(cells, cols);
    && row < |spans| && spans[row].start + at == offset
    && (offset < spans[row].end || row == |spans| - 1)
  }

  /** A row is full when the next one would begin at the end of a character. */
  lemma FullSpan(cells: seq<Cell>, cut: Cut, cols: nat)
    requires GreedyCut(cells, cut, cols) && cut.start + cols <= |cells| && Starts(cells, cut.start + cols)
    ensures cut.end == cut.start + cols
  {
    if cut.end < cut.start + cols {
      CharEndStops(cells, cut.end + 1, cut.start + cols);
    }
  }

  lemma FrontStarts(cells: seq<Cell>, end: nat, cols: nat, k: nat)
    requires cols >= 1 && end <= |cells| && Even(cells[..end], cols) && 0 < k && k * cols < end
    ensures Starts(cells, k * cols)
  {
    RowStartsCharacter(cells[..end], cols, k);
  }

  /** Rows begin where they would in plain text as far as no boundary has fallen inside a character. */
  lemma {:induction false} StartsInStep(cells: seq<Cell>, cols: nat, offset: nat, i: nat)
    requires cols >= 1 && CharsFit(cells, 0, cols) && offset <= |cells|
    requires Even(cells[..Through(cells, offset)], cols)
    requires i < |Spans(cells, cols)| && i * cols <= offset
    ensures Spans(cells, cols)[i].start == i * cols
  {
    hide Even, CharsFit, Spans;
    var spans := Spans(cells, cols);
    SpansDoCover(cells, cols);
    if i == 0 {
      assert 0 * cols == 0;
    } else {
      assert i * cols == (i - 1) * cols + cols;
      StartsInStep(cells, cols, offset, i - 1);
      if i * cols < Through(cells, offset) {
        FrontStarts(cells, Through(cells, offset), cols, i);
      }
      FullSpan(cells, spans[i - 1], cols);
    }
  }

  /** And only so far: a row that begins in step follows rows that all did. */
  lemma {:induction false} InStepBefore(cells: seq<Cell>, cols: nat, i: nat, k: nat)
    requires cols >= 1 && CharsFit(cells, 0, cols)
    requires k <= i < |Spans(cells, cols)| && Spans(cells, cols)[i].start >= i * cols
    ensures Spans(cells, cols)[k].start >= k * cols
    decreases i
  {
    hide CharsFit, Spans;
    if k < i {
      var spans := Spans(cells, cols);
      SpansDoCover(cells, cols);
      assert spans[i - 1].end == spans[i].start;
      assert i * cols == (i - 1) * cols + cols;
      InStepBefore(cells, cols, i - 1, k);
    }
  }

  lemma {:induction false} NeverAhead(cells: seq<Cell>, cols: nat, i: nat)
    requires CharsFit(cells, 0, cols) && i < |Spans(cells, cols)|
    ensures Spans(cells, cols)[i].start <= i * cols
  {
    hide CharsFit, Spans;
    SpansDoCover(cells, cols);
    if i > 0 {
      NeverAhead(cells, cols, i - 1);
      assert Spans(cells, cols)[i - 1].end == Spans(cells, cols)[i].start;
      assert i * cols == (i - 1) * cols + cols;
    }
  }

  lemma SpanStarts(cells: seq<Cell>, cols: nat, i: nat)
    requires CharsFit(cells, 0, cols) && 0 < i < |Spans(cells, cols)|
    ensures Starts(cells, Spans(cells, cols)[i].start)
  {
    SpansDoCover(cells, cols);
    assert GreedyCut(cells, Spans(cells, cols)[i - 1], cols);
  }

  lemma SameCharEnd(cells: seq<Cell>, a: nat, b: nat)
    requires a <= |cells| && a <= b <= CharEnd(cells, a)
    ensures CharEnd(cells, b) == CharEnd(cells, a)
    decreases b - a
  {
    if a < b {
      SameCharEnd(cells, a + 1, b);
    }
  }

  /** A character that stands across the end of a full row has gone to the next. */
  lemma RowHolds(cells: seq<Cell>, cut: Cut, cols: nat, offset: nat, k: nat)
    requires cols >= 1 && GreedyCut(cells, cut, cols) && cut.start == k * cols <= offset < k * cols + cols
    requires offset <= |cells| && Even(cells[..Through(cells, offset)], cols)
    ensures offset < cut.end
  {
    hide Even;
    if cut.end <= offset {
      var end := CharEnd(cells, cut.end + 1);
      assert (k + 1) * cols == k * cols + cols;
      CharIsWide(cells, cut.end + 1);
      SameCharEnd(cells, cut.end + 1, offset + 1);
      FrontStarts(cells, Through(cells, offset), cols, k + 1);
    }
  }

  lemma HeldIfEven(cells: seq<Cell>, cols: nat, offset: nat, row: nat, at: nat)
    requires cols >= 1 && CharsFit(cells, 0, cols) && offset <= |cells|
    requires row < |Spans(cells, cols)| && row * cols + at == offset
    requires at < cols || row == |Spans(cells, cols)| - 1
    requires Even(cells[..Through(cells, offset)], cols)
    ensures HeldAt(cells, cols, offset, row, at)
  {
    hide Even, CharsFit, Spans;
    StartsInStep(cells, cols, offset, row);
    if row < |Spans(cells, cols)| - 1 {
      SpansDoCover(cells, cols);
      RowHolds(cells, Spans(cells, cols)[row], cols, offset, row);
    }
  }

  lemma ThroughSpan(cells: seq<Cell>, cols: nat, offset: nat, row: nat)
    requires CharsFit(cells, 0, cols) && offset <= |cells| && row < |Spans(cells, cols)|
    requires offset < Spans(cells, cols)[row].end || row == |Spans(cells, cols)| - 1
    ensures Through(cells, offset) <= Spans(cells, cols)[row].start + cols
  {
    hide CharsFit, Spans;
    var spans := Spans(cells, cols);
    SpansDoCover(cells, cols);
    if row < |spans| - 1 {
      assert spans[row].end == spans[row + 1].start;
      SpanStarts(cells, cols, row + 1);
      CharEndStops(cells, offset + 1, spans[row].end);
    }
  }

  lemma EvenIfHeld(cells: seq<Cell>, cols: nat, offset: nat, row: nat, at: nat)
    requires cols >= 1 && CharsFit(cells, 0, cols) && offset <= |cells|
    requires row * cols + at == offset && HeldAt(cells, cols, offset, row, at)
    ensures Even(cells[..Through(cells, offset)], cols)
  {
    hide CharsFit, Spans, Through;
    var front := cells[..Through(cells, offset)];
    ThroughSpan(cells, cols, offset, row);
    NeverAhead(cells, cols, row);
    forall k: nat | 0 < RowStart(k, cols) < |front| ensures !IsContinuation(front[RowStart(k, cols)]) {
      assert RowStart(row + 1, cols) == row * cols + cols;
      if k > row {
        RowStartGrows(row + 1, k, cols);
        assert false;
      }
      InStepBefore(cells, cols, row, k);
      NeverAhead(cells, cols, k);
      assert k > 0 by { assert RowStart(0, cols) == 0; }
      SpanStarts(cells, cols, k);
    }
  }

  /** The row and column an offset is placed at show that cell of the line exactly when no boundary up to the
      end of its character falls inside a character. */
  lemma PlaceHoldsIff(line: Logical, cols: nat, offset: nat)
    requires cols >= 1 && CharsFit(line.cells, 0, cols) && offset <= |line.cells|
    ensures var (row, col, pending) := PlaceOffset(offset, cols, |Chunk(line, cols)|);
            HeldAt(line.cells, cols, offset, row, col + if pending then 1 else 0)
            <==> Even(line.cells[..Through(line.cells, offset)], cols)
  {
    hide CharsFit, Spans, Through, Even, HeldAt, Chunk;
    var cells, m := line.cells, |Chunk(line, cols)|;
    FittingOneLine(line, cols);
    ChunkKeepsCharacters(line, cols);
    PlaceOffsetLands(offset, cols, m);
    var (row, col, pending) := PlaceOffset(offset, cols, m);
    var at := col + if pending then 1 else 0;
    if Even(cells[..Through(cells, offset)], cols) {
      HeldIfEven(cells, cols, offset, row, at);
    } else if HeldAt(cells, cols, offset, row, at) {
      EvenIfHeld(cells, cols, offset, row, at);
    }
  }

  /** So a cursor the rewrap keeps stands on the character it stood on exactly when no boundary of the new
      width, from the start of its line to the end of that character, falls inside one. */
  lemma RewrapHoldsCharacterIff(g: Grid, cols: nat)
    requires Wf(g) && cols >= 1 && CharactersFit(g, cols) && !InHanded(g, cols)
    ensures
      var s := Reseam(g, cols);
      var (k, offset) := (s.cursorLine, s.cursorOffset);
      && k < |s.lines| && offset <= |s.lines[k].cells|
      && var (c, above) := (PlacedCursor(s, cols), |Concat(Chunks(s.lines, cols)[..k])|);
      && c.row >= above
      && (HeldAt(s.lines[k].cells, cols, offset, c.row - above, Standing(c))
          <==> Even(s.lines[k].cells[..Through(s.lines[k].cells, offset)], cols))
  {
    hide Reseam, Even, Through, HeldAt, CharsFit, Chunk, Concat, InHanded;
    var s := Reseam(g, cols);
    SeamCursor(g, cols);
    ChunksAt(s.lines, cols, s.cursorLine);
    PlaceHoldsIff(s.lines[s.cursorLine], cols, s.cursorOffset);
  }
}
