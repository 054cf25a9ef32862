/** When narrowing and widening back gives the original layout: which rows a line is cut into at a width is
    decided by its cells alone, and a rewrap that cuts no character keeps those. */
module RoundTrip {
  import opened Cells
  import opened RowLaws
  import opened Grid
  import opened Reading
  import opened Reflow
  import opened ReflowLaws
  import opened Recut
  import opened Transcript
  import opened CursorTrack
  import opened WideChunk
  import opened InkLaws
  import opened ReachLaws

  /** The rows a line of one-column characters is cut into. */
  function CutLooks(cells: seq<Cell>, cols: nat): (r: seq<Look>)
    requires cols >= 1
    ensures r != []
  {
    if |cells| <= cols then [Look(Pad(cells, cols), false)]
    else [Look(cells[..cols], true)] + CutLooks(cells[cols..], cols)
  }

  /** A whole number of full rows, the line still running on. */
  ghost predicate Whole(cells: seq<Cell>, cols: nat)
    requires cols >= 1
  {
    cells == [] || (|cells| >= cols && Whole(cells[cols..], cols))
  }

  function FullLooks(cells: seq<Cell>, cols: nat): seq<Look>
    requires cols >= 1
  {
    if |cells| < cols then [] else [Look(cells[..cols], true)] + FullLooks(cells[cols..], cols)
  }

  function CutAll(texts: seq<seq<Cell>>, cols: nat): seq<Look>
    requires cols >= 1
  {
    if texts == [] then [] else CutAll(texts[..|texts| - 1], cols) + CutLooks(texts[|texts| - 1], cols)
  }

  // ----- the rows of a line are decided by its cells -----

  lemma {:induction false} PlainRowsLooks(line: Logical, cols: nat, start: nat)
    requires cols >= 1 && start <= |line.cells|
    ensures LooksOf(PlainRows(line, cols, start)) == CutLooks(line.cells[start..], cols)
    decreases |line.cells| - start
  {
    var cells := line.cells[start..];
    if |line.cells| <= start + cols {
      assert line.cells[start..|line.cells|] == cells;
    } else {
      PlainRowsLooks(line, cols, start + cols);
      assert cells[cols..] == line.cells[start + cols..];
      assert Pad(cells[..cols], cols) == cells[..cols] == line.cells[start..start + cols];
      var row := RowOf(line, start, start + cols, cols, true);
      assert LooksOf(PlainRows(line, cols, start))
             == [Look(row.cells, true)] + LooksOf(PlainRows(line, cols, start + cols));
    }
  }

  lemma ChunkLooks(line: Logical, cols: nat)
    requires cols >= 1 && Even(line.cells, cols)
    ensures LooksOf(Chunk(line, cols)) == CutLooks(line.cells, cols)
  {
    ChunkSeen(line, cols);
    ChunkIsPlain(line, cols);
    PlainRowsLooks(line, cols, 0);
    assert line.cells[0..] == line.cells;
    var rows, bare := Chunk(line, cols), BareChunk(line, cols);
    forall i | 0 <= i < |rows| ensures LooksOf(rows)[i] == LooksOf(bare)[i] {
      assert Seen(rows[i]) == Seen(bare[i]);
    }
  }

  lemma LooksOfConcat(a: seq<Row>, b: seq<Row>)
    ensures LooksOf(a + b) == LooksOf(a) + LooksOf(b)
  {
  }

  lemma {:induction false} ConcatLooks(parts: seq<seq<Row>>, texts: seq<seq<Cell>>, cols: nat)
    requires cols >= 1 && |parts| == |texts|
    requires forall i :: 0 <= i < |parts| ==> LooksOf(parts[i]) == CutLooks(texts[i], cols)
    ensures LooksOf(Concat(parts)) == CutAll(texts, cols)
  {
    if parts != [] {
      var n := |parts| - 1;
      ConcatLooks(parts[..n], texts[..n], cols);
      LooksOfConcat(Concat(parts[..n]), parts[n]);
    }
  }

  lemma FlowLooks(lines: seq<Logical>, cols: nat)
    requires cols >= 1 && EvenLines(lines, cols)
    ensures LooksOf(Flow(lines, cols)) == CutAll(CellsOf(lines), cols)
  {
    var parts := Chunks(lines, cols);
    forall i | 0 <= i < |parts| ensures LooksOf(parts[i]) == CutLooks(CellsOf(lines)[i], cols) {
      ChunkLooks(lines[i], cols);
    }
    ConcatLooks(parts, CellsOf(lines), cols);
  }

  // ----- cutting again at the same width -----

  lemma {:induction false} FullSnoc(cells: seq<Cell>, row: seq<Cell>, cols: nat)
    requires cols >= 1 && Whole(cells, cols) && |row| == cols
    ensures Whole(cells + row, cols)
    ensures FullLooks(cells + row, cols) == FullLooks(cells, cols) + [Look(row, true)]
    decreases |cells|
  {
    if cells == [] {
      assert cells + row == row;
      assert row[cols..] == [] && row[..cols] == row;
      assert FullLooks(row[cols..], cols) == [];
    } else {
      FullSnoc(cells[cols..], row, cols);
      assert (cells + row)[cols..] == cells[cols..] + row;
      assert (cells + row)[..cols] == cells[..cols];
    }
  }

  lemma {:induction false} CutAfterFull(cells: seq<Cell>, tail: seq<Cell>, cols: nat)
    requires cols >= 1 && Whole(cells, cols) && |tail| <= cols && (cells == [] || tail != [])
    ensures CutLooks(cells + tail, cols) == FullLooks(cells, cols) + [Look(Pad(tail, cols), false)]
    decreases |cells|
  {
    if cells == [] {
      assert cells + tail == tail;
    } else {
      CutAfterFull(cells[cols..], tail, cols);
      assert (cells + tail)[cols..] == cells[cols..] + tail;
      assert (cells + tail)[..cols] == cells[..cols];
    }
  }

  /** The first `n` rows are in order, and every wrapped chain among them that ends does so in
      a row that has content. */
  ghost predicate Tidy(rows: seq<Row>, n: nat, cols: nat)
    requires n <= |rows|
  {
    forall i :: 0 <= i < n ==>
      && RowOk(rows[i], cols) && Sorted(rows[i].extras)
      && (i > 0 && rows[i - 1].wrapped && !rows[i].wrapped ==> ContentLen(rows[i]) > 0)
  }

  /** The rows so far, as the closed lines' cuts and the open line's full rows. */
  function LooksSoFar(texts: seq<seq<Cell>>, continuing: bool, cols: nat): seq<Look>
    requires cols >= 1 && (continuing ==> texts != [])
  {
    if continuing then CutAll(texts[..|texts| - 1], cols) + FullLooks(texts[|texts| - 1], cols)
    else CutAll(texts, cols)
  }

  lemma LineCells(row: Row, cols: nat)
    requires RowOk(row, cols) && Sorted(row.extras)
    ensures LineLen(row) <= cols
    ensures Pad(row.cells[..LineLen(row)], cols) == row.cells
  {
    ContentTrims(row, cols);
    if !row.wrapped {
      forall k | ContentLen(row) <= k < cols ensures row.cells[k] == DEFAULT_CELL {
        assert BlankGlyph(Glyphs(row.cells, row.extras)[ContentLen(row)..][k - ContentLen(row)]);
      }
    }
  }

  lemma LooksStep(texts: seq<seq<Cell>>, continuing: bool, row: Row, cols: nat)
    requires cols >= 1 && (continuing ==> texts != [] && Whole(texts[|texts| - 1], cols))
    requires RowOk(row, cols) && Sorted(row.extras)
    requires continuing && !row.wrapped ==> ContentLen(row) > 0
    ensures var started := if continuing then texts else texts + [[]];
            var after := started[|started| - 1 := started[|started| - 1] + row.cells[..Min(LineLen(row), |row.cells|)]];
            && (row.wrapped ==> Whole(after[|after| - 1], cols))
            && LooksSoFar(after, row.wrapped, cols)
               == LooksSoFar(texts, continuing, cols) + [Look(row.cells, row.wrapped)]
  {
    var started := if continuing then texts else texts + [[]];
    var n := |started| - 1;
    var open := started[n];
    LineCells(row, cols);
    var tail := row.cells[..LineLen(row)];
    var after := started[n := open + tail];
    assert after[..n] == started[..n];
    if row.wrapped {
      assert tail == row.cells;
      FullSnoc(open, row.cells, cols);
    } else {
      CutAfterFull(open, tail, cols);
    }
    if !continuing {
      assert started[..n] == texts;
      assert FullLooks(open, cols) == [];
    }
  }

  lemma LooksOfSnoc(rows: seq<Row>, n: nat)
    requires 0 < n <= |rows|
    ensures LooksOf(rows[..n]) == LooksOf(rows[..n - 1]) + [Look(rows[n - 1].cells, rows[n - 1].wrapped)]
  {
  }

  /** The state of the reassembly agrees with the rows read so far. */
  ghost predicate CutsBack(rows: seq<Row>, n: nat, texts: seq<seq<Cell>>, continuing: bool, cols: nat)
    requires n <= |rows| && cols >= 1
  {
    && (continuing ==> texts != [] && Whole(texts[|texts| - 1], cols))
    && LooksOf(rows[..n]) == LooksSoFar(texts, continuing, cols)
  }

  lemma CutsBackStep(rows: seq<Row>, n: nat, lines: seq<Logical>, continuing: bool, cols: nat)
    requires 0 < n <= |rows| && cols >= 1 && Tidy(rows, n, cols)
    requires continuing <==> n > 1 && rows[n - 2].wrapped
    requires CutsBack(rows, n - 1, CellsOf(lines), continuing, cols)
    ensures var started := if continuing then lines else lines + [EMPTY_LINE];
            var after := started[|started| - 1 := PushRow(started[|started| - 1], rows[n - 1])];
            CutsBack(rows, n, CellsOf(after), rows[n - 1].wrapped, cols)
  {
    PushCells(lines, continuing, rows[n - 1]);
    LooksStep(CellsOf(lines), continuing, rows[n - 1], cols);
    LooksOfSnoc(rows, n);
  }

  lemma NothingCut(rows: seq<Row>, cols: nat)
    requires cols >= 1
    ensures CutsBack(rows, 0, CellsOf([]), false, cols)
  {
    assert CellsOf([]) == [] && rows[..0] == [];
  }

  lemma TidyBefore(rows: seq<Row>, n: nat, cols: nat)
    requires 0 < n <= |rows| && Tidy(rows, n, cols)
    ensures Tidy(rows, n - 1, cols)
  {
  }

  /** Cutting the reassembled lines at the width they came from gives the rows back. */
  lemma {:induction false} SameCut(rows: seq<Row>, n: nat, cols: nat)
    requires n <= |rows| && cols >= 1 && Tidy(rows, n, cols)
    ensures CutsBack(rows, n, CellsOf(AssembleTo(rows, n).0), AssembleTo(rows, n).1, cols)
  {
    hide CutsBack, Tidy, PushRow, CellsOf;
    if n == 0 {
      NothingCut(rows, cols);
    } else {
      TidyBefore(rows, n, cols);
      SameCut(rows, n - 1, cols);
      CutsBackStep(rows, n, AssembleTo(rows, n - 1).0, AssembleTo(rows, n - 1).1, cols);
    }
  }

  // ----- the cursor's padding adds no row -----

  lemma {:induction false} CutPadded(cells: seq<Cell>, n: nat, cols: nat)
    requires cols >= 1 && n <= |CutLooks(cells, cols)| * cols
    ensures CutLooks(PadOut(cells, n), cols) == CutLooks(cells, cols)
    decreases |cells|
  {
    if |cells| < n {
      if |cells| <= cols {
        assert n <= cols;
        assert Pad(Pad(cells, n), cols) == Pad(cells, cols);
      } else {
        MulStep(|CutLooks(cells[cols..], cols)|, cols);
        CutPadded(cells[cols..], n - cols, cols);
        assert Pad(cells, n)[cols..] == Pad(cells[cols..], n - cols);
        assert Pad(cells, n)[..cols] == cells[..cols];
      }
    }
  }

  lemma {:induction false} CutCovers(above: seq<Cell>, line: seq<Cell>, cols: nat)
    requires cols >= 1 && Whole(above, cols) && above <= line && (above == [] || |above| < |line|)
    ensures |above| + cols <= |CutLooks(line, cols)| * cols
    decreases |above|
  {
    if above == [] {
      MulMono(1, |CutLooks(line, cols)|, cols);
    } else {
      CutCovers(above[cols..], line[cols..], cols);
      MulStep(|CutLooks(line[cols..], cols)|, cols);
    }
  }

  lemma AssembleExtends(rows: seq<Row>, m: nat, n: nat, k: nat)
    requires m <= n <= |rows| && k < |AssembleTo(rows, m).0|
    ensures k < |AssembleTo(rows, n).0|
    ensures AssembleTo(rows, m).0[k].cells <= AssembleTo(rows, n).0[k].cells
  {
    if m < n {
      AssembleExtends(rows, m, n - 1, k);
    }
  }

  lemma CutAllSame(texts: seq<seq<Cell>>, k: nat, text: seq<Cell>, cols: nat)
    requires k < |texts| && cols >= 1 && CutLooks(text, cols) == CutLooks(texts[k], cols)
    ensures CutAll(texts[k := text], cols) == CutAll(texts, cols)
  {
    var n := |texts| - 1;
    if k == n {
      assert texts[k := text][..n] == texts[..n];
    } else {
      CutAllSame(texts[..n], k, text, cols);
      assert texts[k := text][..n] == texts[..n][k := text];
    }
  }

  /** The cells already on the line row `r` continues or begins. */
  function Above(rows: seq<Row>, r: nat): seq<Cell>
    requires r <= |rows|
  {
    var (lines, continuing) := AssembleTo(rows, r);
    if continuing then lines[|lines| - 1].cells else []
  }

  lemma AboveIsWhole(rows: seq<Row>, r: nat, cols: nat)
    requires r <= |rows| && cols >= 1 && Tidy(rows, r, cols)
    ensures Whole(Above(rows, r), cols)
  {
    SameCut(rows, r, cols);
  }

  /** Row `r` adds its cells to that line, and adds some if the line was running on. */
  lemma RowAdds(rows: seq<Row>, r: nat, cols: nat)
    requires r < |rows| && cols >= 1 && Tidy(rows, r + 1, cols)
    ensures
      var (line, _) := LinePos(rows, r, 0, false);
      var above := Above(rows, r);
      && line < |AssembleTo(rows, r + 1).0|
      && above <= AssembleTo(rows, r + 1).0[line].cells
      && (above == [] || |above| < |AssembleTo(rows, r + 1).0[line].cells|)
  {
    hide ContentLen, Drawn, CutOff, MarksOf, Rebase, RebaseMarks;
    LineCells(rows[r], cols);
  }

  /** The cursor is inside the rows its line is cut into at the grid's own width. */
  lemma CursorCovered(rows: seq<Row>, n: nat, c: Cursor, cols: nat)
    requires c.row < n <= |rows| && cols >= 1 && c.col < cols && Tidy(rows, n, cols)
    ensures var (line, offset) := LinePos(rows, c.row, c.col, c.wrapPending);
            && line < |AssembleTo(rows, n).0|
            && offset <= |CutLooks(AssembleTo(rows, n).0[line].cells, cols)| * cols
  {
    hide CutLooks, Whole, AssembleTo, ContentLen;
    var (line, offset) := LinePos(rows, c.row, c.col, c.wrapPending);
    AboveIsWhole(rows, c.row, cols);
    RowAdds(rows, c.row, cols);
    AssembleExtends(rows, c.row + 1, n, line);
    CutCovers(Above(rows, c.row), AssembleTo(rows, n).0[line].cells, cols);
  }

  /** The precondition of a round trip: nothing handed over yet, rows in order, and every
      wrapped chain ending inside the rows in use in an unwrapped row that has content. */
  ghost predicate Restorable(g: Grid) {
    && Wf(g) && g.carried == 0
    && Tidy(g.rows, Used(g), g.cols)
    && !g.rows[Used(g) - 1].wrapped
  }

  /** No boundary at this width falls inside a character of the lines on the grid. */
  ghost predicate Clean(g: Grid, cols: nat)
    requires Shape(g) && cols >= 1
  {
    EvenLines(GridLines(g), cols)
  }

  lemma PlainIsClean(g: Grid, cols: nat)
    requires Wf(g) && PlainRowCells(g.rows) && cols >= 1
    ensures Clean(g, cols)
  {
    hide GridLines;
    GridLinesRead(g);
    PlainLinesAreEven(GridLines(g), cols);
  }

  /** The grid's lines, padded for the cursor, cut at its own width are its rows in use. */
  lemma GridCutsBack(g: Grid)
    requires Restorable(g)
    ensures LooksOf(g.rows[..Used(g)]) == CutAll(CellsOf(GridLines(g)), g.cols)
  {
    var n := Used(g);
    var base := AssembleTo(g.rows, n).0;
    var (line, offset) := LinePos(g.rows, g.cursor.row, g.cursor.col, g.cursor.wrapPending);
    SameCut(g.rows, n, g.cols);
    CursorCovered(g.rows, n, g.cursor, g.cols);
    CutPadded(base[line].cells, offset, g.cols);
    CutAllSame(CellsOf(base), line, PadOut(base[line].cells, offset), g.cols);
    assert CellsOf(GridLines(g)) == CellsOf(base)[line := PadOut(base[line].cells, offset)];
  }

  // ----- what the first rewrap leaves -----

  /** The last re-cut row is one the next resize will count as in use. */
  predicate TailShows(g: Grid, cols: nat)
    requires Shape(g) && cols >= 1
  {
    var flow := Flow(GridLines(g), cols);
    var (line, offset) := CursorPos(g);
    flow != [] && (HasText(flow[|flow| - 1])
                   || PlaceIn(Chunks(GridLines(g), cols), line, offset, cols).row == |flow| - 1)
  }

  lemma NoSeam(g: Grid, cols: nat)
    requires Shape(g) && cols >= 1 && g.carried == 0
    ensures Reseam(g, cols) == Seam(GridLines(g), 0, CursorPos(g).0, CursorPos(g).1, [])
  {
    assert 0 * g.cols == 0;
  }

  /** With nothing carried and room for every row, a rewrap lays the flow out and stops. */
  lemma RewrapFits(g: Grid, rows: nat, cols: nat)
    requires Shape(g) && g.carried == 0 && rows >= 1 && cols >= 1
    requires |Flow(GridLines(g), cols)| <= rows
    ensures var (h, ev) := Rewrap(g, rows, cols);
            var flow := Flow(GridLines(g), cols);
            var placed := PlaceIn(Chunks(GridLines(g), cols), CursorPos(g).0, CursorPos(g).1, cols);
            && ev == [] && h.carried == 0 && h.cols == cols && h.history == g.history
            && h.rows == ResizeRows(flow, rows, cols) && h.region == FullRegion(rows)
            && h.cursor == placed.(row := Min(placed.row, rows - 1))
  {
    NoSeam(g, cols);
    assert 0 / cols == 0;
    var flow := Flow(GridLines(g), cols);
    assert flow[0..] == flow && DepartAll(flow[..0]) == [];
  }

  lemma BlankHasNoText(cols: nat)
    ensures !HasText(NewRow(cols))
  {
  }

  lemma LastTextIn(rows: seq<Row>, m: nat)
    requires 0 < m <= |rows|
    requires forall i :: m <= i < |rows| ==> !HasText(rows[i])
    ensures LastText(rows) < m
    ensures LastText(rows) == m - 1 <==> m == 1 || HasText(rows[m - 1])
    decreases |rows|
  {
    if |rows| > m {
      LastTextIn(rows[..|rows| - 1], m);
    }
  }

  lemma UsedAfter(flow: seq<Row>, rows: nat, cols: nat, h: Grid)
    requires Shape(h) && h.rows == ResizeRows(flow, rows, cols) && 0 < |flow| <= rows
    requires h.cursor.row < |flow|
    ensures Used(h) <= |flow|
    ensures Used(h) == |flow| <==> HasText(flow[|flow| - 1]) || h.cursor.row == |flow| - 1
  {
    BlankHasNoText(cols);
    LastTextIn(h.rows, |flow|);
  }

  // ----- the lines read back -----

  ghost predicate Trimmed(gs: seq<Glyph>) {
    gs != [] ==> !BlankGlyph(gs[|gs| - 1])
  }

  ghost predicate ClosedTrimmed(lines: seq<Logical>, continuing: bool) {
    forall i :: 0 <= i < (if continuing then |lines| - 1 else |lines|) ==> Trimmed(LineGlyphs(lines[i]))
  }

  lemma TrimmedPush(line: Logical, row: Row, cols: nat)
    requires LogicalOk(line) && RowOk(row, cols) && Sorted(row.extras) && !row.wrapped
    requires line.cells == [] || ContentLen(row) > 0
    ensures Trimmed(LineGlyphs(PushRow(line, row)))
  {
    PushGlyphs(line, row, cols);
    ContentTrims(row, cols);
  }

  /** A finished line ends in something that is not a blank. */
  lemma {:induction false} LinesTrimmed(rows: seq<Row>, n: nat, cols: nat)
    requires n <= |rows| && RowsOk(rows, cols) && Tidy(rows, n, cols)
    ensures ClosedTrimmed(AssembleTo(rows, n).0, AssembleTo(rows, n).1)
  {
    hide PushRow, LineGlyphs, LineOf, ContentLen;
    if n > 0 {
      LinesTrimmed(rows, n - 1, cols);
      AssembleReads(rows, n - 1, cols);
      var (lines, continuing) := AssembleTo(rows, n - 1);
      var started := if continuing then lines else lines + [EMPTY_LINE];
      var row := rows[n - 1];
      assert continuing ==> rows[n - 2].wrapped;
      assert LogicalOk(started[|started| - 1]);
      if !row.wrapped {
        TrimmedPush(started[|started| - 1], row, cols);
      }
    }
  }

  /** A trimmed line, padded to `n` for the cursor, comes back as it was. */
  lemma LineRestored(line: Logical, n: nat, read: seq<Glyph>)
    requires LogicalOk(line) && Trimmed(LineGlyphs(line))
    requires TrimsTo(LineGlyphs(PadLine(line, n)), read)
    ensures PadOut(CellsIn(read), n) == PadLine(line, n).cells
  {
    var gs := LineGlyphs(PadLine(line, n));
    forall j | |read| <= j < |gs| ensures BlankGlyph(gs[j]) {
      assert gs[|read|..][j - |read|] == gs[j];
    }
    if |line.cells| >= n {
      assert |read| == |gs|;
      assert CellsIn(read) == line.cells;
    } else {
      var padded := PadOut(CellsIn(read), n);
      assert |gs| == n && |padded| == n;
      forall j | 0 <= j < n ensures padded[j] == gs[j].cell {
        assert j < |read| ==> read[j] == gs[j];
      }
      assert padded == CellsIn(gs) == PadLine(line, n).cells;
    }
  }

  lemma RestoredLines(base: seq<Logical>, line: nat, offset: nat, read: seq<Logical>)
    requires LinesOk(base) && line < |base| && ClosedTrimmed(base, false)
    requires EachTrimsTo(AllGlyphs(base[line := PadLine(base[line], offset)]), AllGlyphs(read))
    ensures |read| == |base|
    ensures CellsOf(read[line := PadLine(read[line], offset)])
            == CellsOf(base[line := PadLine(base[line], offset)])
  {
    var padded := base[line := PadLine(base[line], offset)];
    forall i | 0 <= i < |base|
      ensures CellsOf(read[line := PadLine(read[line], offset)])[i] == CellsOf(padded)[i]
    {
      var n := if i == line then offset else 0;
      assert padded[i] == PadLine(base[i], n);
      assert TrimsTo(AllGlyphs(padded)[i], AllGlyphs(read)[i]);
      assert CellsIn(AllGlyphs(read)[i]) == read[i].cells;
      LineRestored(base[i], n, AllGlyphs(read)[i]);
    }
  }

  /** A grid laid out from a flow, with nothing evicted. */
  ghost predicate LaidOut(h: Grid, flow: seq<Row>, cols: nat) {
    && Wf(h) && h.cols == cols && h.carried == 0
    && 0 < |flow| <= |h.rows| && h.rows[..|flow|] == flow
    && h.cursor.row < |flow|
    && (Used(h) <= |flow|)
    && (Used(h) == |flow| <==> HasText(flow[|flow| - 1]) || h.cursor.row == |flow| - 1)
  }

  lemma LaysOut(flow: seq<Row>, rows: nat, cols: nat, h: Grid)
    requires Shape(h) && h.cols == cols && h.carried == 0
    requires RowsOk(flow, cols) && 0 < |flow| <= rows
    requires h.rows == ResizeRows(flow, rows, cols) && h.cursor.row < |flow|
    ensures LaidOut(h, flow, cols)
  {
    UsedAfter(flow, rows, cols, h);
    forall i | 0 <= i < |h.rows| ensures RowOk(h.rows[i], cols) {
      assert h.rows[i] == if i < |flow| then flow[i] else NewRow(cols);
    }
  }

  lemma GridFlow(g: Grid, cols: nat)
    requires Wf(g) && cols >= 1
    ensures var flow := Flow(GridLines(g), cols);
            RowsOk(flow, cols) && flow != []
  {
    GridLinesRead(g);
    FlowOk(GridLines(g), cols);
    FlowNonempty(GridLines(g), cols);
  }

  lemma GridPlaced(g: Grid, cols: nat)
    requires Wf(g) && cols >= 1 && Clean(g, cols)
    ensures var flow := Flow(GridLines(g), cols);
            var c := PlaceIn(Chunks(GridLines(g), cols), CursorPos(g).0, CursorPos(g).1, cols);
            c.row < |flow| && Position(LinesOf(flow), c.row, Standing(c)) == CursorPos(g)
  {
    EvenLinesFit(GridLines(g), cols);
    CursorOnLine(g);
    PlacedPosition(Seam(GridLines(g), 0, CursorPos(g).0, CursorPos(g).1, []), cols);
  }

  lemma SamePosition(h: Grid, flow: seq<Row>, cols: nat)
    requires LaidOut(h, flow, cols)
    ensures CursorPos(h) == Position(LinesOf(flow), h.cursor.row, Standing(h.cursor))
  {
    LinePosIsPosition(h.rows, h.cursor, cols);
    var rest := h.rows[|flow|..];
    assert h.rows == flow + rest;
    LinesOfConcat(flow, rest);
    WherePrefix(LinesOf(flow), LinesOf(rest), h.cursor.row);
  }

  /** Room for the re-cut lines at this width. */
  predicate Fits(g: Grid, rows: nat, cols: nat)
    requires Shape(g) && cols >= 1
  {
    |Flow(GridLines(g), cols)| <= rows
  }

  /** What a rewrap that evicts nothing leaves: the flow, and the cursor where it stood. */
  lemma FirstGrid(g: Grid, rows: nat, cols: nat)
    requires Wf(g) && g.carried == 0 && rows >= 1 && cols >= 1 && Clean(g, cols)
    requires Fits(g, rows, cols)
    ensures var (h, ev) := Rewrap(g, rows, cols);
            && ev == [] && h.region == FullRegion(rows) && h.history == g.history && |h.rows| == rows
            && LaidOut(h, Flow(GridLines(g), cols), cols)
            && CursorPos(h) == CursorPos(g)
            && (Used(h) == |Flow(GridLines(g), cols)| <==> TailShows(g, cols))
  {
    GridFlow(g, cols);
    GridPlaced(g, cols);
    RewrapFits(g, rows, cols);
    LaysOut(Flow(GridLines(g), cols), rows, cols, Rewrap(g, rows, cols).0);
    SamePosition(Rewrap(g, rows, cols).0, Flow(GridLines(g), cols), cols);
  }

  // ----- there and back -----

  lemma BaseLines(g: Grid)
    requires Restorable(g)
    ensures var base := AssembleTo(g.rows, Used(g)).0;
            var (line, offset) := CursorPos(g);
            && LinesOk(base) && ClosedTrimmed(base, false) && line < |base|
            && GridLines(g) == base[line := PadLine(base[line], offset)]
  {
    AssembleReads(g.rows, Used(g), g.cols);
    LinesTrimmed(g.rows, Used(g), g.cols);
    CursorOnLine(g);
  }

  lemma ReadBack(h: Grid, lines: seq<Logical>, flow: seq<Row>, cols: nat)
    requires cols >= 1 && EvenLines(lines, cols) && flow == Flow(lines, cols)
    requires LaidOut(h, flow, cols)
    ensures EachTrimsTo(AllGlyphs(lines), AllGlyphs(AssembleTo(h.rows, |flow|).0))
  {
    FlowTrims(lines, cols);
    AssembleReads(h.rows, |flow|, cols);
  }

  lemma LinesComeBack(g: Grid, h: Grid, cols: nat)
    requires Restorable(g) && cols >= 1 && Clean(g, cols) && LaidOut(h, Flow(GridLines(g), cols), cols)
    requires CursorPos(h) == CursorPos(g) && Used(h) == |Flow(GridLines(g), cols)|
    ensures CellsOf(GridLines(h)) == CellsOf(GridLines(g))
  {
    var (line, offset) := CursorPos(g);
    var read := AssembleTo(h.rows, Used(h)).0;
    GridLinesRead(g);
    BaseLines(g);
    ReadBack(h, GridLines(g), Flow(GridLines(g), cols), cols);
    RestoredLines(AssembleTo(g.rows, Used(g)).0, line, offset, read);
  }

  /** The rows in use before the resize stand on the grid again, cells and wrapped flags. */
  ghost predicate Restored(g: Grid, h: Grid)
    requires Shape(g)
  {
    Used(g) <= |h.rows| && LooksOf(h.rows[..Used(g)]) == LooksOf(g.rows[..Used(g)])
  }

  lemma SameCellsAreEven(a: seq<Logical>, b: seq<Logical>, cols: nat)
    requires cols >= 1 && EvenLines(a, cols) && CellsOf(a) == CellsOf(b)
    ensures EvenLines(b, cols)
  {
    forall i | 0 <= i < |b| ensures Even(b[i].cells, cols) {
      assert CellsOf(a)[i] == a[i].cells && CellsOf(b)[i] == b[i].cells;
    }
  }

  lemma PrefixIsEven(a: seq<Cell>, b: seq<Cell>, n: nat, cols: nat)
    requires cols >= 1 && a <= b && Even(b, cols)
    ensures Even(PadOut(a, n), cols)
  {
    forall k: nat | 0 < RowStart(k, cols) < |PadOut(a, n)| ensures !IsContinuation(PadOut(a, n)[RowStart(k, cols)]) {
      if RowStart(k, cols) < |a| {
        assert a[RowStart(k, cols)] == b[RowStart(k, cols)];
      }
    }
  }

  /** What stands between the two resizes is as clean at the first width as what was there before them:
      its lines are the same, or the fronts of them. */
  lemma StaysClean(g: Grid, h: Grid, cols: nat)
    requires Restorable(g) && cols >= 1 && Clean(g, cols) && Clean(g, g.cols)
    requires LaidOut(h, Flow(GridLines(g), cols), cols)
    ensures Clean(h, g.cols)
  {
    hide LinePos, AssembleTo, Restorable, Even, Flow, PadOut, LaidOut;
    RestorableIs(g);
    var lines, flow := GridLines(g), Flow(GridLines(g), cols);
    LaidOutIs(h, flow, cols);
    var u := Used(h);
    ReadBack(h, lines, flow, cols);
    var base, all := AssembleTo(h.rows, u).0, AssembleTo(h.rows, |flow|).0;
    forall k, n: nat | 0 <= k < |base| ensures k < |lines| && Even(PadOut(base[k].cells, n), g.cols) {
      AssembleExtends(h.rows, u, |flow|, k);
      FrontOf(AllGlyphs(lines)[k], AllGlyphs(all)[k], lines[k], all[k]);
      FrontsNest(base[k].cells, all[k].cells, lines[k].cells);
      PrefixIsEven(base[k].cells, lines[k].cells, n, g.cols);
    }
    forall i | 0 <= i < |GridLines(h)| ensures Even(GridLines(h)[i].cells, g.cols) {
      GridLineIs(h, i);
    }
  }

  lemma LaidOutIs(h: Grid, flow: seq<Row>, cols: nat)
    requires LaidOut(h, flow, cols)
    ensures Wf(h) && Used(h) <= |flow| <= |h.rows|
  {
  }

  lemma FrontsNest(a: seq<Cell>, b: seq<Cell>, c: seq<Cell>)
    requires a <= b <= c
    ensures a <= c
  {
  }

  lemma FrontOf(text: seq<Glyph>, seen: seq<Glyph>, line: Logical, read: Logical)
    requires text == LineGlyphs(line) && seen == LineGlyphs(read) && TrimsTo(text, seen)
    ensures read.cells <= line.cells
  {
    forall i | 0 <= i < |read.cells| ensures read.cells[i] == line.cells[i] {
      assert LineGlyphs(read)[i] == LineGlyphs(line)[i];
    }
  }

  lemma GridLineIs(h: Grid, i: nat)
    requires Shape(h) && i < |GridLines(h)|
    ensures
      var base := AssembleTo(h.rows, Used(h)).0;
      i < |base| && exists n: nat :: GridLines(h)[i].cells == PadOut(base[i].cells, n)
  {
    hide LinePos, AssembleTo;
    var base := AssembleTo(h.rows, Used(h)).0;
    var (line, offset) := LinePos(h.rows, h.cursor.row, h.cursor.col, h.cursor.wrapPending);
    assert base[i].cells == PadOut(base[i].cells, 0);
    if i == line {
      assert GridLines(h)[i].cells == PadOut(base[i].cells, offset);
    }
  }

  lemma SecondGrid(g: Grid, h: Grid, rows: nat)
    requires Restorable(g) && Clean(g, g.cols) && Wf(h) && h.carried == 0
    requires CellsOf(GridLines(h)) == CellsOf(GridLines(g)) && Used(g) <= rows
    ensures Fits(h, rows, g.cols)
    ensures Restored(g, Rewrap(h, rows, g.cols).0)
  {
    GridCutsBack(g);
    SameCellsAreEven(GridLines(g), GridLines(h), g.cols);
    GridLinesRead(h);
    FlowLooks(GridLines(h), g.cols);
    var flow := Flow(GridLines(h), g.cols);
    assert |flow| == |LooksOf(flow)| == Used(g);
    FirstGrid(h, rows, g.cols);
    assert Rewrap(h, rows, g.cols).0.rows[..Used(g)] == flow;
  }

  // ----- a tail that does not show is lost -----

  lemma LastPlainRow(line: Logical, cols: nat, start: nat) returns (s: nat)
    requires cols >= 1 && start <= |line.cells|
    ensures start <= s <= |line.cells| <= s + cols && (start < |line.cells| ==> s < |line.cells|)
    ensures var rows := PlainRows(line, cols, start);
            rows[|rows| - 1] == RowOf(line, s, |line.cells|, cols, false)
    decreases |line.cells| - start
  {
    if |line.cells| <= start + cols {
      s := start;
    } else {
      s := LastPlainRow(line, cols, start + cols);
    }
  }

  lemma DrawnHasContent(es: seq<Entry>, i: nat)
    requires i < |es| && IsContent(es[i].extra)
    ensures exists j :: 0 <= j < |Drawn(es)| && IsContent(Drawn(es)[j].extra)
  {
    if i > 0 {
      DrawnHasContent(es[1..], i - 1);
      var j :| 0 <= j < |Drawn(es[1..])| && IsContent(Drawn(es[1..])[j].extra);
      var k := if es[0].extra.Mark? then j else j + 1;
      assert Drawn(es)[k] == Drawn(es[1..])[j];
    } else {
      assert Drawn(es)[0] == es[0];
    }
  }

  lemma DrawnContentHas(es: seq<Entry>, j: nat)
    requires j < |Drawn(es)| && IsContent(Drawn(es)[j].extra)
    ensures exists i :: 0 <= i < |es| && IsContent(es[i].extra)
  {
    if es[0].extra.Mark? {
      DrawnContentHas(es[1..], j);
      var i :| 0 <= i < |es[1..]| && IsContent(es[1..][i].extra);
      assert es[i + 1] == es[1..][i];
    } else if j > 0 {
      assert Drawn(es)[j] == Drawn(es[1..])[j - 1];
      DrawnContentHas(es[1..], j - 1);
      var i :| 0 <= i < |es[1..]| && IsContent(es[1..][i].extra);
      assert es[i + 1] == es[1..][i];
    }
  }

  lemma SeenSameText(a: Row, b: Row)
    requires Seen(a) == Seen(b) && HasText(a)
    ensures HasText(b)
  {
    if i :| 0 <= i < |a.extras| && IsContent(a.extras[i].extra) {
      DrawnHasContent(a.extras, i);
      var j :| 0 <= j < |Drawn(b.extras)| && IsContent(Drawn(b.extras)[j].extra);
      DrawnContentHas(b.extras, j);
    }
  }

  lemma TextlessRow(line: Logical, s: nat, cols: nat)
    requires s < |line.cells| <= s + cols && Trimmed(LineGlyphs(line))
    requires !HasText(RowOf(line, s, |line.cells|, cols, false))
    ensures Ink(RowOf(line, s, |line.cells|, cols, false).cells) > 0
  {
    hide SortByColumn, Within, MarksWithin, Ink, ExtrasAt;
    var n := |line.cells|;
    var row := RowOf(line, s, n, cols, false);
    RowOfGlyphs(line, s, n, cols, false);
    var k := n - 1 - s;
    assert Glyphs(row.cells, row.extras)[k] == LineGlyphs(line)[n - 1];
    ExtrasAtContent(row.extras, k);
    InkShows(row.cells, k);
  }

  /** A row whose last glyph of a trimmed line holds no text still holds a cell that shows. */
  lemma TextlessTail(line: Logical, cols: nat)
    requires cols >= 1 && Even(line.cells, cols) && line.cells != [] && Trimmed(LineGlyphs(line))
    requires !HasText(Chunk(line, cols)[|Chunk(line, cols)| - 1])
    ensures Ink(Chunk(line, cols)[|Chunk(line, cols)| - 1].cells) > 0
  {
    hide Chunk, PlainRows, RowOf, HasText, Ink, LineGlyphs, Trimmed;
    ChunkSeen(line, cols);
    ChunkIsPlain(line, cols);
    var s := LastPlainRow(line, cols, 0);
    var row := RowOf(line, s, |line.cells|, cols, false);
    var last := Chunk(line, cols)[|Chunk(line, cols)| - 1];
    assert Seen(last) == Seen(row);
    if HasText(row) {
      SeenSameText(row, last);
    }
    TextlessRow(line, s, cols);
  }

  lemma PlaceAtEnd(offset: nat, cols: nat, m: nat)
    requires cols >= 1 && m >= 1 && (m - 1) * cols <= offset <= m * cols
    requires m > 1 ==> (m - 1) * cols < offset
    ensures PlaceOffset(offset, cols, m).0 == m - 1
  {
    PlaceOffsetLands(offset, cols, m);
    var r := PlaceOffset(offset, cols, m).0;
    if r < m - 1 {
      MulStep(r, cols);
      MulMono(r + 1, m - 1, cols);
    }
  }

  lemma CursorInLastRow(rows: seq<Row>, n: nat, c: Cursor)
    requires 0 < n <= |rows| && c.row == n - 1
    ensures LinePos(rows, c.row, c.col, c.wrapPending).0 == |AssembleTo(rows, n).0| - 1
  {
    hide PushRow;
  }

  lemma TidyRow(rows: seq<Row>, n: nat, i: nat, cols: nat)
    requires i < n <= |rows| && Tidy(rows, n, cols)
    ensures RowOk(rows[i], cols) && Sorted(rows[i].extras)
  {
  }

  lemma LastRowFills(rows: seq<Row>, n: nat, cols: nat)
    requires 0 < n <= |rows| && RowOk(rows[n - 1], cols) && 0 < ContentLen(rows[n - 1]) <= cols
    ensures var lines := AssembleTo(rows, n).0; lines[|lines| - 1].cells != []
  {
    hide ContentLen, Drawn, CutOff, MarksOf;
  }

  /** The last line is the cursor's, or has something in it. */
  lemma LastLineUsed(g: Grid)
    requires Restorable(g)
    ensures var base := AssembleTo(g.rows, Used(g)).0;
            CursorPos(g).0 == |base| - 1 || base[|base| - 1].cells != []
  {
    hide ContentLen, HasText, AssembleTo, LinePos, Tidy;
    var n := Used(g);
    if g.cursor.row == n - 1 {
      CursorInLastRow(g.rows, n, g.cursor);
    } else {
      assert n - 1 == LastText(g.rows) && n - 1 > 0;
      LastTextHas(g.rows);
      TidyRow(g.rows, n, n - 1, g.cols);
      TextHasLength(g.rows[n - 1], g.cols);
      LastRowFills(g.rows, n, g.cols);
    }
  }

  lemma LastTextHas(rows: seq<Row>)
    requires LastText(rows) > 0
    ensures LastText(rows) < |rows| && HasText(rows[LastText(rows)])
  {
  }

  lemma TextHasLength(row: Row, cols: nat)
    requires RowOk(row, cols) && Sorted(row.extras) && HasText(row)
    ensures 0 < ContentLen(row) <= cols
  {
    ContentTrims(row, cols);
    ContentEndIsLast(row.extras);
  }

  lemma LastChunk(parts: seq<seq<Row>>)
    requires parts != [] && parts[|parts| - 1] != []
    ensures var last := parts[|parts| - 1];
            var all := Concat(parts);
            |all| == |Concat(parts[..|parts| - 1])| + |last| && all[|all| - 1] == last[|last| - 1]
  {
  }

  lemma TailHasInk(g: Grid, cols: nat)
    requires Restorable(g) && cols >= 1 && Clean(g, cols) && !TailShows(g, cols)
    ensures var flow := Flow(GridLines(g), cols); flow != [] && Ink(flow[|flow| - 1].cells) > 0
  {
    hide Chunk, AssembleTo, LinePos, Ink, HasText, LineGlyphs, GridLines, Used, Restorable, Concat;
    RestorableIs(g);
    var lines, k := GridLines(g), |GridLines(g)| - 1;
    var base := AssembleTo(g.rows, Used(g)).0;
    var (line, offset) := CursorPos(g);
    BaseLines(g);
    GridLinesRead(g);
    LastLineUsed(g);
    LastChunk(Chunks(lines, cols));
    ChunkOneLine(lines[k], cols);
    if line == k && |base[k].cells| <= offset {
      PadGlyphs(base[k], offset);
      PlaceAtEnd(offset, cols, |Chunk(lines[k], cols)|);
    } else {
      assert lines[k] == base[k];
      TextlessTail(lines[k], cols);
    }
  }

  lemma RestorableIs(g: Grid)
    requires Restorable(g)
    ensures Wf(g)
  {
  }

  /** The grid after resizing to width `cols` and back. */
  function ThereAndBack(g: Grid, rows: nat, cols: nat, back: nat): (Grid, Grid)
    requires Shape(g)
  {
    var h := Resize(g, rows, cols, ToRewrap).0;
    (h, Resize(h, back, g.cols, ToRewrap).0)
  }

  lemma LooksSameInk(a: seq<Row>, b: seq<Row>)
    requires LooksOf(a) == LooksOf(b)
    ensures InkAll(RowCells(a)) == InkAll(RowCells(b))
  {
    forall i | 0 <= i < |a| ensures RowCells(a)[i] == RowCells(b)[i] {
      assert LooksOf(a)[i] == LooksOf(b)[i];
    }
    assert RowCells(a) == RowCells(b);
  }

  // ----- nothing that was cut comes back -----

  lemma ResizedRows(flow: seq<Row>, rows: nat, cols: nat)
    requires |flow| <= rows
    ensures var all := ResizeRows(flow, rows, cols);
            && InkAll(RowCells(all)) == InkAll(RowCells(flow)) && RowsReach(all) == RowsReach(flow)
            && (RowsStart(flow) ==> RowsStart(all)) && (RowsOk(flow, cols) ==> RowsOk(all, cols))
  {
    var all := ResizeRows(flow, rows, cols);
    assert all[..|flow|] == flow;
    BlankRowInk(cols);
    InkBounded(all, flow, rows);
    assert all[..rows] == all;
    InkFront(all, |flow|);
    InklessBelow(all, |flow|);
  }

  /** A rewrap with room never adds to what shows; and if it loses none of it, every line reaches as far as
      it did, or further where a boundary fell inside a character, and begins with a character on every row. */
  lemma OneWay(g: Grid, rows: nat, cols: nat)
    requires Wf(g) && g.carried == 0 && rows >= 1 && cols >= 1 && Fits(g, rows, cols)
    ensures var h := Rewrap(g, rows, cols).0;
            var used := g.rows[..Used(g)];
            && Wf(h) && h.carried == 0 && h.cols == cols
            && InkAll(RowCells(h.rows)) <= InkAll(RowCells(used))
            && (InkAll(RowCells(h.rows)) == InkAll(RowCells(used)) ==>
                  && RowsStart(h.rows) && RowsReach(h.rows) >= RowsReach(used)
                  && (RowsReach(h.rows) == RowsReach(used) ==> Clean(g, cols)))
  {
    hide Flow, GridLines, InkAll, RowsReach, Reach, Used, PlaceIn, CharsFit, LinePos, RowsStart, Even, HasText;
    var lines, flow := GridLines(g), Flow(GridLines(g), cols);
    RewrapFits(g, rows, cols);
    FlowOk(lines, cols);
    ResizedRows(flow, rows, cols);
    InkFlow(lines, cols);
    InkGridLines(g);
    GridReach(g);
    if AllFit(lines, cols) {
      FlowReach(lines, cols);
      FlowStarts(lines, cols);
    }
  }

  lemma LooksStart(a: seq<Row>, b: seq<Row>)
    requires LooksOf(a) == LooksOf(b) && RowsStart(a)
    ensures RowsStart(b)
  {
    assert |a| == |LooksOf(a)| == |b|;
    forall i | 0 <= i < |a| ensures a[i].cells == b[i].cells && a[i].wrapped == b[i].wrapped {
      assert LooksOf(a)[i] == LooksOf(b)[i];
    }
  }

  lemma StartsAreClean(g: Grid)
    requires Wf(g) && RowsStart(g.rows[..Used(g)])
    ensures Clean(g, g.cols)
  {
    hide RowsStart, Even, Used, LinePos, AssembleTo, PadOut;
    var base := AssembleTo(g.rows, Used(g)).0;
    var _ := StartsAssemble(g.rows, Used(g), g.cols);
    forall i | 0 <= i < |GridLines(g)| ensures Even(GridLines(g)[i].cells, g.cols) {
      GridLineIs(g, i);
      var n: nat :| GridLines(g)[i].cells == PadOut(base[i].cells, n);
      PrefixIsEven(base[i].cells, base[i].cells, n, g.cols);
    }
  }

  /** If the layout comes back then no character was cut on the way, and nothing that shows was left behind
      between the two resizes. */
  lemma RestoredOnlyIf(g: Grid, h: Grid, rows: nat, cols: nat, back: nat)
    requires Wf(g) && g.carried == 0 && rows >= 1 && cols >= 1 && back >= 1
    requires Fits(g, rows, cols) && h == Rewrap(g, rows, cols).0 && Fits(h, back, g.cols)
    requires Restored(g, Rewrap(h, back, g.cols).0)
    ensures Clean(g, cols) && Clean(g, g.cols)
    ensures InkAll(RowCells(h.rows[..Used(h)])) == InkAll(RowCells(h.rows))
  {
    hide Rewrap, Fits, Clean, InkAll, RowsReach, RowsStart, Used, LooksOf;
    var after := Rewrap(h, back, g.cols).0.rows;
    var u, n := Used(h), Used(g);
    OneWay(g, rows, cols);
    OneWay(h, back, g.cols);
    InkFront(h.rows, u);
    InkFront(after, n);
    LooksSameInk(after[..n], g.rows[..n]);
    InklessBelow(h.rows, u);
    InklessBelow(after, n);
    SameLooksReach(after[..n], g.rows[..n]);
    StartsFront(after, n);
    LooksStart(after[..n], g.rows[..n]);
    StartsAreClean(g);
  }

  lemma StartsFront(rows: seq<Row>, n: nat)
    requires n <= |rows| && RowsStart(rows)
    ensures RowsStart(rows[..n])
  {
  }

  lemma TailLost(g: Grid, h: Grid, rows: nat, cols: nat, back: nat)
    requires Restorable(g) && rows >= 1 && cols >= 1 && back >= 1 && Clean(g, cols) && !TailShows(g, cols)
    requires Fits(g, rows, cols) && h == Rewrap(g, rows, cols).0 && Fits(h, back, g.cols)
    ensures !Restored(g, Rewrap(h, back, g.cols).0)
  {
    hide Restorable, Rewrap, Flow, GridLines, TailShows, InkAll, Clean, Used, Restored;
    RestorableIs(g);
    RestorableCarries(g);
    FirstGrid(g, rows, cols);
    TailHasInk(g, cols);
    var flow, u := Flow(GridLines(g), cols), Used(h);
    assert h.rows[..u] == flow[..u];
    InkLost(flow, u);
    InkFront(h.rows, |flow|);
    if Restored(g, Rewrap(h, back, g.cols).0) {
      RestoredOnlyIf(g, h, rows, cols, back);
    }
  }

  lemma RestorableCarries(g: Grid)
    requires Restorable(g)
    ensures g.carried == 0
  {
  }

  /** Resizing to another width and back, with room both times, restores the rows in use cell for cell exactly
      when no row boundary falls inside a character at either width and the last re-cut row shows (it holds
      text or the cursor); and the cursor's place in its line always when no boundary does. */
  lemma WidthRoundTripIff(g: Grid, rows: nat, cols: nat, back: nat)
    requires Restorable(g) && Archives(g) && cols != g.cols && cols >= 1 && rows >= 1 && back >= 1
    requires Fits(g, rows, cols) && Fits(ThereAndBack(g, rows, cols, back).0, back, g.cols)
    ensures var (h, after) := ThereAndBack(g, rows, cols, back);
            && (Restored(g, after) <==> Clean(g, cols) && Clean(g, g.cols) && TailShows(g, cols))
            && (Clean(g, cols) && Clean(g, g.cols) ==> CursorPos(after) == CursorPos(g))
  {
    hide Rewrap, Fits, Clean, TailShows, Restorable, Restored, GridLines, CursorPos;
    RestorableIs(g);
    RestorableCarries(g);
    var h := Rewrap(g, rows, cols).0;
    ThereAndBackIs(g, rows, cols, back);
    if Clean(g, cols) && Clean(g, g.cols) {
      CleanRoundTrip(g, h, rows, cols, back);
    } else if Restored(g, Rewrap(h, back, g.cols).0) {
      RestoredOnlyIf(g, h, rows, cols, back);
    }
  }

  lemma ThereAndBackIs(g: Grid, rows: nat, cols: nat, back: nat)
    requires Shape(g) && Archives(g) && cols != g.cols && cols >= 1 && rows >= 1 && back >= 1
    ensures var h := Rewrap(g, rows, cols).0;
            ThereAndBack(g, rows, cols, back) == (h, Rewrap(h, back, g.cols).0)
  {
  }

  lemma CleanRoundTrip(g: Grid, h: Grid, rows: nat, cols: nat, back: nat)
    requires Restorable(g) && rows >= 1 && cols >= 1 && back >= 1 && Clean(g, cols) && Clean(g, g.cols)
    requires Fits(g, rows, cols) && h == Rewrap(g, rows, cols).0 && Fits(h, back, g.cols)
    ensures var after := Rewrap(h, back, g.cols).0;
            (Restored(g, after) <==> TailShows(g, cols)) && CursorPos(after) == CursorPos(g)
  {
    FirstGrid(g, rows, cols);
    StaysClean(g, h, cols);
    FirstGrid(h, back, g.cols);
    if TailShows(g, cols) {
      LinesComeBack(g, h, cols);
      GridCutsBack(g);
      GridLinesRead(h);
      FlowLooks(GridLines(h), g.cols);
      SecondGrid(g, h, back);
    } else {
      TailLost(g, h, rows, cols, back);
    }
  }

  // ----- a tail that is lost -----

  /** A letter and a blank with a coloured background, the cursor on the letter. */
  const TORN_CELLS: seq<Cell> := [Cell('a', PLAIN), BlankCell(Style(DefaultColor, Indexed(1), 0))]

  const TORN: Grid :=
    Grid([Row(TORN_CELLS, [], false)], 2, Cursor(0, 0, false), Region(0, 0), [false], [false, false], 0, true,
         false, true)

  lemma TornLines()
    ensures Used(TORN) == 1 && GridLines(TORN) == [Logical(TORN_CELLS, [], [])] && CursorPos(TORN) == (0, 0)
  {
    hide LineLen, Drawn, CutOff, MarksOf;
    var row := TORN.rows[0];
    TornRow();
    assert AssembleTo(TORN.rows, 0) == ([], false);
    var line := PushRow(EMPTY_LINE, row);
    assert row.cells[..2] == TORN_CELLS;
    assert line == Logical(TORN_CELLS, [], []);
    assert [EMPTY_LINE][0 := line] == [line];
    assert AssembleTo(TORN.rows, 1).0 == [line];
  }

  lemma TornRow()
    ensures
      var row := TORN.rows[0];
      LineLen(row) == 2 && CutOff(Drawn(row.extras), 2) == [] && MarksOf(row.extras) == []
  {
  }

  lemma TornFlow()
    ensures Flow([Logical(TORN_CELLS, [], [])], 1)
         == [Row([TORN_CELLS[0]], [], true), Row([TORN_CELLS[1]], [], false)]
  {
    TornCuts();
    assert Piece(TORN_CELLS, 0, 1, 1) == [TORN_CELLS[0]];
    assert Piece(TORN_CELLS, 1, 2, 1) == [TORN_CELLS[1]];
    TwoRows(Logical(TORN_CELLS, [], []), 1, 1, Row([TORN_CELLS[0]], [], true), Row([TORN_CELLS[1]], [], false));
  }

  /** A bare line cut in two. */
  lemma TwoRows(line: Logical, at: nat, cols: nat, first: Row, second: Row)
    requires line.extras == [] && line.marks == [] && 0 < at < |line.cells|
    requires Cuts(line.cells, cols, 0, 0) == ([Cut(0, at)], at)
    requires first == Row(Piece(line.cells, 0, at, cols), [], true)
    requires second == Row(Piece(line.cells, at, |line.cells|, cols), [], false)
    ensures Chunk(line, cols) == [first, second] && Flow([line], cols) == [first, second]
  {
    hide RowOf, MarkEach;
    BareRowOf(line, 0, at, cols, true);
    BareRowOf(line, at, |line.cells|, cols, false);
    NoAttachments(line);
    var rows := [first, second];
    assert WrappedRows(line, [Cut(0, at)], cols) == [first];
    assert [first] + [second] == rows && rows[1 := second] == rows;
    assert BareChunk(line, cols) == rows;
    FlowOfOne(line, cols);
  }

  lemma BareRowOf(line: Logical, start: nat, end: nat, cols: nat, wrapped: bool)
    requires line.extras == [] && line.marks == [] && start <= end <= |line.cells|
    ensures RowOf(line, start, end, cols, wrapped) == Row(Piece(line.cells, start, end, cols), [], wrapped)
  {
    hide SortByColumn, Within, MarksWithin;
    NoAttachments(line);
    var none: seq<Entry> := [];
    assert none + none == none;
  }

  lemma FlowOfOne(line: Logical, cols: nat)
    ensures Flow([line], cols) == Chunk(line, cols)
  {
    hide Chunk;
    assert Chunks([line], cols) == [Chunk(line, cols)];
    var none: seq<Row> := [];
    assert Concat([]) == none && none + Chunk(line, cols) == Chunk(line, cols);
  }

  lemma TornCuts()
    ensures Cuts(TORN_CELLS, 1, 0, 0) == ([Cut(0, 1)], 1)
  {
    assert CharEnd(TORN_CELLS, 1) == 1 && CharEnd(TORN_CELLS, 2) == 2;
    assert Cuts(TORN_CELLS, 1, 1, 2) == ([], 1);
    assert Cuts(TORN_CELLS, 1, 0, 1) == ([Cut(0, 1)] + [], 1);
    assert Cuts(TORN_CELLS, 1, 0, 0) == Cuts(TORN_CELLS, 1, 0, 1);
    assert [Cut(0, 1)] + [] == [Cut(0, 1)];
  }

  lemma NoAttachments(line: Logical)
    requires line.extras == [] && line.marks == []
    ensures forall lo: nat, hi: nat :: Within(line.extras, lo, hi) == [] && MarksWithin(line.marks, lo, hi) == []
    ensures SortByColumn([]) == []
    ensures forall row, col: nat, from: nat :: MarkEach(row, col, line.marks, from) == row
  {
  }

  const TORN_BACK: seq<Cell> := [Cell('a', PLAIN), DEFAULT_CELL]

  /** Between the two resizes: the letter on one row and the coloured blank on the next. */
  const TORN_NARROW: Grid :=
    Grid([Row([TORN_CELLS[0]], [], true), Row([TORN_CELLS[1]], [], false)], 1, Cursor(0, 0, false), FullRegion(2),
         All(2, true), DefaultTabs(1), 0, true, false, true)

  lemma TornNarrowed()
    ensures Fits(TORN, 2, 1) && Rewrap(TORN, 2, 1).0 == TORN_NARROW
  {
    hide LinePos, Chunks, PlaceIn, Flow, GridLines;
    TornLines();
    TornFlow();
    TornPlaced();
    RewrapFits(TORN, 2, 1);
    assert TORN_NARROW.rows == ResizeRows(TORN_NARROW.rows, 2, 1);
    RewrapRest(TORN, 2, 1);
  }

  lemma TornPlaced()
    ensures PlaceIn(Chunks([Logical(TORN_CELLS, [], [])], 1), 0, 0, 1) == Cursor(0, 0, false)
  {
    hide Chunk;
    var none: seq<seq<Row>> := [];
    assert Chunks([Logical(TORN_CELLS, [], [])], 1)[..0] == none;
  }

  /** What a rewrap sets whatever the text. */
  lemma RewrapRest(g: Grid, rows: nat, cols: nat)
    requires Shape(g) && rows >= 1 && cols >= 1
    ensures
      var h := Rewrap(g, rows, cols).0;
      && h.dirty == All(rows, true) && h.tabs == DefaultTabs(cols)
      && h.autowrap == g.autowrap && h.insertMode == g.insertMode
  {
    hide Reseam, Flow, PlacedCursor;
  }

  lemma TornNarrowLines()
    ensures
      && Shape(TORN_NARROW) && Used(TORN_NARROW) == 1 && CursorPos(TORN_NARROW) == (0, 0)
      && GridLines(TORN_NARROW) == [Logical([TORN_CELLS[0]], [], [])]
  {
    hide LineLen, Drawn, CutOff, MarksOf;
    var row := TORN_NARROW.rows[0];
    TornNarrowRow();
    assert !HasText(TORN_NARROW.rows[1]);
    assert AssembleTo(TORN_NARROW.rows, 0) == ([], false);
    var line := PushRow(EMPTY_LINE, row);
    assert row.cells[..1] == [TORN_CELLS[0]];
    assert line == Logical([TORN_CELLS[0]], [], []);
    assert [EMPTY_LINE][0 := line] == [line];
    assert AssembleTo(TORN_NARROW.rows, 1).0 == [line];
  }

  lemma TornNarrowRow()
    ensures
      var row := TORN_NARROW.rows[0];
      LineLen(row) == 1 && CutOff(Drawn(row.extras), 1) == [] && MarksOf(row.extras) == []
  {
  }

  lemma TornWideFlow()
    ensures Flow([Logical([TORN_CELLS[0]], [], [])], 2) == [Row(TORN_BACK, [], false)]
  {
    hide SortByColumn, Within, MarksWithin, MarkEach;
    var line := Logical([TORN_CELLS[0]], [], []);
    assert CharEnd(line.cells, 1) == 1 && Cuts(line.cells, 2, 0, 1) == ([], 0);
    assert Cuts(line.cells, 2, 0, 0) == ([], 0);
    NoAttachments(line);
    var none: seq<Entry> := [];
    assert none + none == none;
    assert line.cells[0..1] == [TORN_CELLS[0]];
    var back := Row(TORN_BACK, [], false);
    assert RowOf(line, 0, 1, 2, false) == back;
    var rows: seq<Row> := [];
    assert WrappedRows(line, [], 2) == rows && BareChunk(line, 2) == rows + [back] == [back];
    assert [back][0 := back] == [back] && Chunk(line, 2) == [back];
    assert Chunks([line], 2) == [Chunk(line, 2)];
    assert Concat([Chunk(line, 2)]) == Concat([]) + Chunk(line, 2);
  }

  lemma TornWidened()
    ensures Fits(TORN_NARROW, 1, 2) && Rewrap(TORN_NARROW, 1, 2).0.rows == [Row(TORN_BACK, [], false)]
  {
    hide LinePos, Chunks, PlaceIn, Flow, GridLines;
    TornNarrowLines();
    TornWideFlow();
    RewrapFits(TORN_NARROW, 1, 2);
    var back := [Row(TORN_BACK, [], false)];
    assert ResizeRows(back, 1, 2) == back;
  }

  /** So not every grid comes back: this one meets every other condition of the round trip, and there is
      room for it both times, and its coloured blank comes back as a plain one. */
  lemma StyledTailIsLost()
    ensures Restorable(TORN) && Archives(TORN) && Clean(TORN, 1) && Clean(TORN, 2) && !TailShows(TORN, 1)
    ensures
      var (h, after) := ThereAndBack(TORN, 2, 1, 1);
      && Fits(TORN, 2, 1) && Fits(h, 1, 2)
      && after.rows == [Row(TORN_BACK, [], false)] && !Restored(TORN, after)
  {
    hide Flow, Rewrap, GridLines, Reseam, LinePos;
    TornLines();
    TornFlow();
    TornIsRestorable();
    PlainIsClean(TORN, 1);
    PlainIsClean(TORN, 2);
    TornNarrowed();
    TornWidened();
    var (h, after) := ThereAndBack(TORN, 2, 1, 1);
    assert h == TORN_NARROW;
    assert LooksOf(after.rows[..1])[0].cells[1] != LooksOf(TORN.rows[..1])[0].cells[1];
    assert Used(TORN) == 1;
  }

  lemma TornIsRestorable()
    ensures Restorable(TORN) && Archives(TORN) && !TailShows(TORN, 1)
  {
    TornLines();
    TornFlow();
  }
}
