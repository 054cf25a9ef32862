/** What a rewrap does to the cells that show: how many there are, and how far along its line the last of
    them stands. Cutting lines into rows never adds one and never moves one left. */
module InkLaws {
  import opened Cells
  import opened RowLaws
  import opened Grid
  import opened Reading
  import opened Reflow
  import opened ReflowLaws
  import opened Recut
  import opened Transcript
  import opened WideChunk

  /** A row without its attachments. */
  datatype Look = Look(cells: seq<Cell>, wrapped: bool)

  function LooksOf(rows: seq<Row>): (r: seq<Look>)
    ensures |r| == |rows|
  {
    seq(|rows|, i requires 0 <= i < |rows| => Look(rows[i].cells, rows[i].wrapped))
  }

  function Pad(cells: seq<Cell>, n: nat): (r: seq<Cell>)
    ensures |r| == n
  {
    ResizeCells(cells, n, DEFAULT_CELL)
  }

  function PadOut(cells: seq<Cell>, n: nat): seq<Cell> {
    if |cells| < n then Pad(cells, n) else cells
  }

  function CellsOf(lines: seq<Logical>): (r: seq<seq<Cell>>)
    ensures |r| == |lines|
  {
    seq(|lines|, i requires 0 <= i < |lines| => lines[i].cells)
  }

  function CellsIn(gs: seq<Glyph>): (r: seq<Cell>)
    ensures |r| == |gs|
  {
    seq(|gs|, i requires 0 <= i < |gs| => gs[i].cell)
  }

  lemma PushCells(lines: seq<Logical>, continuing: bool, row: Row)
    requires continuing ==> lines != []
    ensures var texts := CellsOf(lines);
            var started := if continuing then texts else texts + [[]];
            var lined := if continuing then lines else lines + [EMPTY_LINE];
            CellsOf(lined[|lined| - 1 := PushRow(lined[|lined| - 1], row)])
            == started[|started| - 1 := started[|started| - 1] + row.cells[..Min(LineLen(row), |row.cells|)]]
  {
  }

  // ----- cells are conserved -----

  /** Cells that are not default-styled blanks. */
  function Ink(cells: seq<Cell>): nat {
    if cells == [] then 0
    else (if cells[|cells| - 1] == DEFAULT_CELL then 0 else 1) + Ink(cells[..|cells| - 1])
  }

  function InkAll(texts: seq<seq<Cell>>): nat {
    if texts == [] then 0 else InkAll(texts[..|texts| - 1]) + Ink(texts[|texts| - 1])
  }

  function RowCells(rows: seq<Row>): (r: seq<seq<Cell>>)
    ensures |r| == |rows|
  {
    seq(|rows|, i requires 0 <= i < |rows| => rows[i].cells)
  }

  lemma {:induction false} InkConcat(a: seq<Cell>, b: seq<Cell>)
    ensures Ink(a + b) == Ink(a) + Ink(b)
  {
    if b == [] {
      assert a + b == a;
    } else {
      InkConcat(a, b[..|b| - 1]);
      assert (a + b)[..|a + b| - 1] == a + b[..|b| - 1];
    }
  }

  lemma InkDefault(cells: seq<Cell>)
    requires forall i :: 0 <= i < |cells| ==> cells[i] == DEFAULT_CELL
    ensures Ink(cells) == 0
  {
  }

  lemma InkPrefix(cells: seq<Cell>, n: nat)
    requires n <= |cells| && forall i :: n <= i < |cells| ==> cells[i] == DEFAULT_CELL
    ensures Ink(cells) == Ink(cells[..n])
  {
    assert cells == cells[..n] + cells[n..];
    InkConcat(cells[..n], cells[n..]);
    InkDefault(cells[n..]);
  }

  lemma InkPad(cells: seq<Cell>, n: nat)
    requires |cells| <= n
    ensures Ink(Pad(cells, n)) == Ink(cells)
  {
    InkPrefix(Pad(cells, n), |cells|);
    assert Pad(cells, n)[..|cells|] == cells;
  }

  lemma {:induction false} InkAllConcat(a: seq<seq<Cell>>, b: seq<seq<Cell>>)
    ensures InkAll(a + b) == InkAll(a) + InkAll(b)
  {
    if b == [] {
      assert a + b == a;
    } else {
      InkAllConcat(a, b[..|b| - 1]);
      assert (a + b)[..|a + b| - 1] == a + b[..|b| - 1];
    }
  }

  lemma {:induction false} InkUpdate(texts: seq<seq<Cell>>, k: nat, text: seq<Cell>)
    requires k < |texts|
    ensures InkAll(texts[k := text]) + Ink(texts[k]) == InkAll(texts) + Ink(text)
    decreases |texts|
  {
    hide Ink;
    var n := |texts| - 1;
    if k == n {
      assert texts[k := text][..n] == texts[..n];
    } else {
      InkUpdate(texts[..n], k, text);
      assert texts[k := text][..n] == texts[..n][k := text];
    }
  }

  lemma InkPush(texts: seq<seq<Cell>>, continuing: bool, row: Row)
    requires continuing ==> texts != []
    ensures var started := if continuing then texts else texts + [[]];
            InkAll(started[|started| - 1 := started[|started| - 1] + row.cells[..Min(LineLen(row), |row.cells|)]])
            == InkAll(texts) + Ink(row.cells)
  {
    var started := if continuing then texts else texts + [[]];
    var n := |started| - 1;
    var tail := row.cells[..Min(LineLen(row), |row.cells|)];
    assert !continuing ==> started[..n] == texts;
    InkUpdate(started, n, started[n] + tail);
    InkConcat(started[n], tail);
    InkPrefix(row.cells, |tail|);
  }

  /** Reassembling rows into lines keeps every cell that shows. */
  lemma {:induction false} InkAssemble(rows: seq<Row>, n: nat)
    requires n <= |rows|
    ensures InkAll(CellsOf(AssembleTo(rows, n).0)) == InkAll(RowCells(rows[..n]))
  {
    hide PushRow, Ink, InkAll, CellsOf, RowCells;
    if n > 0 {
      InkAssemble(rows, n - 1);
      var (lines, continuing) := AssembleTo(rows, n - 1);
      PushCells(lines, continuing, rows[n - 1]);
      InkPush(CellsOf(lines), continuing, rows[n - 1]);
      InkRows(rows, n);
    } else {
      NoInk();
      assert rows[..0] == [];
    }
  }

  lemma InkRows(rows: seq<Row>, n: nat)
    requires 0 < n <= |rows|
    ensures InkAll(RowCells(rows[..n])) == InkAll(RowCells(rows[..n - 1])) + Ink(rows[n - 1].cells)
  {
    hide Ink;
    assert RowCells(rows[..n])[..n - 1] == RowCells(rows[..n - 1]);
  }

  lemma NoInk()
    ensures InkAll(CellsOf([])) == 0 && InkAll(RowCells([])) == 0
  {
  }

  lemma InkGridLines(g: Grid)
    requires Wf(g)
    ensures InkAll(CellsOf(GridLines(g))) == InkAll(RowCells(g.rows[..Used(g)]))
  {
    var base := AssembleTo(g.rows, Used(g)).0;
    var (line, offset) := LinePos(g.rows, g.cursor.row, g.cursor.col, g.cursor.wrapPending);
    InkAssemble(g.rows, Used(g));
    if line < |base| {
      if |base[line].cells| < offset {
        InkPad(base[line].cells, offset);
      }
      InkUpdate(CellsOf(base), line, PadOut(base[line].cells, offset));
      assert CellsOf(GridLines(g)) == CellsOf(base)[line := PadOut(base[line].cells, offset)];
    }
  }

  lemma InkShows(cells: seq<Cell>, k: nat)
    requires k < |cells| && cells[k] != DEFAULT_CELL
    ensures Ink(cells) > 0
  {
    assert cells == cells[..k] + ([cells[k]] + cells[k + 1..]);
    InkConcat(cells[..k], [cells[k]] + cells[k + 1..]);
    InkConcat([cells[k]], cells[k + 1..]);
    assert [cells[k]][..0] == [];
  }

  lemma InkLost(flow: seq<Row>, n: nat)
    requires n < |flow| && Ink(flow[|flow| - 1].cells) > 0
    ensures InkAll(RowCells(flow[..n])) < InkAll(RowCells(flow))
  {
    var m := |flow| - 1;
    assert RowCells(flow)[..m] == RowCells(flow[..m]);
    assert RowCells(flow[..m]) == RowCells(flow[..n]) + RowCells(flow[n..m]);
    InkAllConcat(RowCells(flow[..n]), RowCells(flow[n..m]));
  }

  lemma InkBounded(rows: seq<Row>, flow: seq<Row>, n: nat)
    requires n <= |rows| && |flow| <= |rows| && rows[..|flow|] == flow
    requires forall i :: |flow| <= i < |rows| ==> Ink(rows[i].cells) == 0
    ensures InkAll(RowCells(rows[..n])) <= InkAll(RowCells(flow))
    decreases n
  {
    hide Ink;
    if n < |flow| {
      assert flow == rows[..n] + flow[n..];
      assert RowCells(flow) == RowCells(rows[..n]) + RowCells(flow[n..]);
      InkAllConcat(RowCells(rows[..n]), RowCells(flow[n..]));
    } else if n > |flow| {
      InkBounded(rows, flow, n - 1);
      assert RowCells(rows[..n])[..n - 1] == RowCells(rows[..n - 1]);
    }
  }

  lemma BlankRowInk(cols: nat)
    ensures Ink(NewRow(cols).cells) == 0
  {
    InkDefault(NewRow(cols).cells);
  }

  // ----- the rows of a line, laid end to end -----

  /** The cells of a row that shows `start..end`. */
  function Piece(cells: seq<Cell>, start: nat, end: nat, cols: nat): (r: seq<Cell>)
    requires start <= end <= |cells|
    ensures |r| == cols
  {
    Pad(cells[start..Min(end, start + cols)], cols)
  }

  function Laid(cells: seq<Cell>, cols: nat, start: nat, at: nat): seq<Cell>
    requires start <= at <= |cells|
    decreases |cells| - at
  {
    if at == |cells| then if start < at then Piece(cells, start, at, cols) else []
    else
      var next := CharEnd(cells, at + 1);
      if next - start > cols then
        var (end, resume) := if at == start then (next, next) else (at, at);
        Piece(cells, start, end, cols) + Laid(cells, cols, resume, next)
      else Laid(cells, cols, start, next)
  }

  function Flat(rows: seq<Row>): seq<Cell> {
    if rows == [] then [] else Flat(rows[..|rows| - 1]) + rows[|rows| - 1].cells
  }

  lemma {:induction false} FlatConcat(a: seq<Row>, b: seq<Row>)
    ensures Flat(a + b) == Flat(a) + Flat(b)
  {
    if b == [] {
      assert a + b == a;
    } else {
      var m := |b| - 1;
      FlatConcat(a, b[..m]);
      assert (a + b)[..|a + b| - 1] == a + b[..m];
      assert Flat(a) + (Flat(b[..m]) + b[m].cells) == (Flat(a) + Flat(b[..m])) + b[m].cells;
    }
  }

  lemma {:induction false} FlatSame(a: seq<Row>, b: seq<Row>)
    requires |a| == |b| && forall i :: 0 <= i < |a| ==> a[i].cells == b[i].cells
    ensures Flat(a) == Flat(b)
  {
    if a != [] {
      FlatSame(a[..|a| - 1], b[..|b| - 1]);
    }
  }

  /** The row left open at the end of a line. */
  function OpenRow(line: Logical, open: nat, cols: nat): seq<Row> {
    if open < |line.cells| then [RowOf(line, open, |line.cells|, cols, false)] else []
  }

  lemma RowIsPiece(line: Logical, start: nat, end: nat, cols: nat, wrapped: bool)
    requires start <= end <= |line.cells|
    ensures RowOf(line, start, end, cols, wrapped).cells == Piece(line.cells, start, end, cols)
  {
  }

  lemma FlatOne(row: Row)
    ensures Flat([row]) == row.cells
  {
    assert [row][..0] == [];
    assert [] + row.cells == row.cells;
  }

  /** The rows of a line from a cut on. */
  function CutRows(line: Logical, cuts: seq<Cut>, open: nat, cols: nat): seq<Row>
    requires CutsOk(cuts, |line.cells|)
  {
    WrappedRows(line, cuts, cols) + OpenRow(line, open, cols)
  }

  lemma CutRowsCons(line: Logical, start: nat, end: nat, more: seq<Cut>, open: nat, cols: nat)
    requires start <= end <= |line.cells| && CutsOk(more, |line.cells|)
    ensures CutsOk([Cut(start, end)] + more, |line.cells|)
    ensures Flat(CutRows(line, [Cut(start, end)] + more, open, cols))
            == Piece(line.cells, start, end, cols) + Flat(CutRows(line, more, open, cols))
  {
    hide RowOf, Piece, Flat, OpenRow;
    var row := RowOf(line, start, end, cols, true);
    WrappedRowsCons(line, Cut(start, end), more, cols);
    assert CutRows(line, [Cut(start, end)] + more, open, cols) == [row] + CutRows(line, more, open, cols);
    FlatConcat([row], CutRows(line, more, open, cols));
    FlatOne(row);
    RowIsPiece(line, start, end, cols, true);
  }

  lemma OpenRowLaid(line: Logical, start: nat, cols: nat)
    requires start <= |line.cells|
    ensures CutsOk([], |line.cells|)
    ensures Flat(CutRows(line, [], start, cols)) == Laid(line.cells, cols, start, |line.cells|)
  {
    hide RowOf, Piece;
    assert CutRows(line, [], start, cols) == OpenRow(line, start, cols);
    if start < |line.cells| {
      FlatOne(RowOf(line, start, |line.cells|, cols, false));
      RowIsPiece(line, start, |line.cells|, cols, false);
    }
  }

  lemma {:induction false} CutsLaid(line: Logical, cols: nat, start: nat, at: nat)
    requires start <= at <= |line.cells|
    ensures var (cuts, open) := Cuts(line.cells, cols, start, at);
            Flat(CutRows(line, cuts, open, cols)) == Laid(line.cells, cols, start, at)
    decreases |line.cells| - at
  {
    hide CutRows, Flat, Piece;
    var cells := line.cells;
    if at == |cells| {
      OpenRowLaid(line, start, cols);
    } else {
      var next := CharEnd(cells, at + 1);
      if next - start > cols {
        var (end, resume) := if at == start then (next, next) else (at, at);
        CutsLaid(line, cols, resume, next);
        CutRowsCons(line, start, end, Cuts(cells, cols, resume, next).0, Cuts(cells, cols, resume, next).1, cols);
      } else {
        CutsLaid(line, cols, start, next);
      }
    }
  }

  lemma EmptyLaid(line: Logical, cols: nat)
    requires line.cells == []
    ensures Flat(BareChunk(line, cols)) == Pad([], cols)
  {
    hide RowOf;
    var row := RowOf(line, 0, 0, cols, false);
    var none: seq<Row> := [];
    assert BareChunk(line, cols) == none + [row] == [row];
    FlatOne(row);
    RowIsPiece(line, 0, 0, cols, false);
    assert line.cells[0..0] == [];
  }

  lemma SameCells(a: seq<Row>, b: seq<Row>)
    requires |a| == |b| && forall i :: 0 <= i < |a| ==> Seen(a[i]) == Seen(b[i])
    ensures Flat(a) == Flat(b)
  {
    forall i | 0 <= i < |a| ensures a[i].cells == b[i].cells {
      assert Seen(a[i]) == Seen(b[i]);
    }
    FlatSame(a, b);
  }

  lemma ChunkLaid(line: Logical, cols: nat)
    ensures Flat(Chunk(line, cols)) == if line.cells == [] then Pad([], cols) else Laid(line.cells, cols, 0, 0)
  {
    hide RowOf, Flat, Laid, Chunk, Seen, RowOk, Sorted;
    ChunkSeen(line, cols);
    SameCells(Chunk(line, cols), BareChunk(line, cols));
    if line.cells == [] {
      EmptyLaid(line, cols);
    } else {
      CutsLaid(line, cols, 0, 0);
      CutsStart(line.cells, cols, 0, 0);
      var (cuts, open) := Cuts(line.cells, cols, 0, 0);
      assert BareChunk(line, cols) == CutRows(line, cuts, open, cols);
    }
  }

  // ----- cells that show are kept or lost, never made -----

  /** The row open from `start` to `at` has room for itself, or is one character too wide. */
  ghost predicate OpenOk(cells: seq<Cell>, cols: nat, start: nat, at: nat)
    requires start <= at <= |cells|
  {
    at - start <= cols || forall i :: start < i < at ==> IsContinuation(cells[i])
  }

  lemma CharIsWide(cells: seq<Cell>, from: nat)
    requires from <= |cells|
    ensures forall i :: from <= i < CharEnd(cells, from) ==> IsContinuation(cells[i])
    decreases |cells| - from
  {
  }

  /** A row shows everything it was given, or has lost the end of a character too wide for it. */
  lemma InkPiece(cells: seq<Cell>, start: nat, end: nat, cols: nat)
    requires cols >= 1 && start <= end <= |cells| && OpenOk(cells, cols, start, end)
    ensures Ink(Piece(cells, start, end, cols)) <= Ink(cells[start..end])
    ensures Ink(Piece(cells, start, end, cols)) == Ink(cells[start..end]) <==> end - start <= cols
  {
    var all := cells[start..end];
    if end - start <= cols {
      InkPad(all, cols);
    } else {
      assert Pad(all[..cols], cols) == all[..cols] == cells[start..start + cols];
      assert all == all[..cols] + all[cols..];
      InkConcat(all[..cols], all[cols..]);
      InkShows(all[cols..], 0);
    }
  }

  lemma InkTail(cells: seq<Cell>, start: nat, mid: nat)
    requires start <= mid <= |cells|
    ensures Ink(cells[start..]) == Ink(cells[start..mid]) + Ink(cells[mid..])
  {
    assert cells[start..] == cells[start..mid] + cells[mid..];
    InkConcat(cells[start..mid], cells[mid..]);
  }

  lemma {:induction false} InkLaid(cells: seq<Cell>, cols: nat, start: nat, at: nat)
    requires cols >= 1 && start <= at <= |cells| && OpenOk(cells, cols, start, at)
    ensures Ink(Laid(cells, cols, start, at)) <= Ink(cells[start..])
    ensures Ink(Laid(cells, cols, start, at)) == Ink(cells[start..])
            <==> at - start <= cols && CharsFit(cells, at, cols)
    decreases |cells| - at
  {
    hide Ink, Piece;
    if at == |cells| {
      InkPiece(cells, start, at, cols);
      assert cells[start..at] == cells[start..];
      InkDefault([]);
    } else {
      var next := CharEnd(cells, at + 1);
      CharIsWide(cells, at + 1);
      if next - start > cols {
        var (end, resume) := if at == start then (next, next) else (at, at);
        InkPiece(cells, start, end, cols);
        InkLaid(cells, cols, resume, next);
        InkTail(cells, start, end);
        InkConcat(Piece(cells, start, end, cols), Laid(cells, cols, resume, next));
      } else {
        InkLaid(cells, cols, start, next);
      }
    }
  }

  lemma {:induction false} InkFlat(rows: seq<Row>)
    ensures InkAll(RowCells(rows)) == Ink(Flat(rows))
  {
    if rows != [] {
      var m := |rows| - 1;
      InkFlat(rows[..m]);
      InkConcat(Flat(rows[..m]), rows[m].cells);
      assert RowCells(rows)[..m] == RowCells(rows[..m]);
    }
  }

  lemma InkChunk(line: Logical, cols: nat)
    requires cols >= 1
    ensures InkAll(RowCells(Chunk(line, cols))) <= Ink(line.cells)
    ensures InkAll(RowCells(Chunk(line, cols))) == Ink(line.cells) <==> CharsFit(line.cells, 0, cols)
  {
    InkFlat(Chunk(line, cols));
    ChunkLaid(line, cols);
    if line.cells == [] {
      InkDefault(Pad([], cols));
    } else {
      InkLaid(line.cells, cols, 0, 0);
      assert line.cells[0..] == line.cells;
    }
  }

  /** No character of the lines is wider than the screen. */
  ghost predicate AllFit(lines: seq<Logical>, cols: nat) {
    forall i :: 0 <= i < |lines| ==> CharsFit(lines[i].cells, 0, cols)
  }

  lemma FlowCellsSnoc(lines: seq<Logical>, cols: nat)
    requires lines != []
    ensures var n := |lines| - 1;
            RowCells(Flow(lines, cols)) == RowCells(Flow(lines[..n], cols)) + RowCells(Chunk(lines[n], cols))
            && CellsOf(lines)[..n] == CellsOf(lines[..n])
  {
    hide Chunk;
    var n := |lines| - 1;
    assert Chunks(lines, cols)[..n] == Chunks(lines[..n], cols);
    CellsConcat(Flow(lines[..n], cols), Chunk(lines[n], cols));
    assert Flow(lines, cols) == Flow(lines[..n], cols) + Chunk(lines[n], cols);
  }

  lemma CellsConcat(a: seq<Row>, b: seq<Row>)
    ensures RowCells(a + b) == RowCells(a) + RowCells(b)
  {
  }

  lemma EvenLinesFit(lines: seq<Logical>, cols: nat)
    requires cols >= 1 && EvenLines(lines, cols)
    ensures AllFit(lines, cols)
  {
    forall i | 0 <= i < |lines| ensures CharsFit(lines[i].cells, 0, cols) {
      EvenFits(lines[i].cells, cols, 0, 0);
    }
  }

  /** Cutting lines into rows makes no cell that shows, and loses none exactly when every character fits
      the width. */
  lemma {:induction false} InkFlow(lines: seq<Logical>, cols: nat)
    requires cols >= 1
    ensures InkAll(RowCells(Flow(lines, cols))) <= InkAll(CellsOf(lines))
    ensures InkAll(RowCells(Flow(lines, cols))) == InkAll(CellsOf(lines)) <==> AllFit(lines, cols)
  {
    hide Flow, Chunk, RowCells, Ink, CharsFit;
    if lines != [] {
      var n := |lines| - 1;
      InkFlow(lines[..n], cols);
      InkChunk(lines[n], cols);
      FlowCellsSnoc(lines, cols);
      InkAllConcat(RowCells(Flow(lines[..n], cols)), RowCells(Chunk(lines[n], cols)));
      assert CellsOf(lines)[n] == lines[n].cells;
      AllFitSnoc(lines, cols);
    } else {
      assert RowCells(Flow([], cols)) == [] by { NoFlow(cols); }
    }
  }

  lemma AllFitSnoc(lines: seq<Logical>, cols: nat)
    requires lines != []
    ensures AllFit(lines, cols) <==> AllFit(lines[..|lines| - 1], cols) && CharsFit(lines[|lines| - 1].cells, 0, cols)
  {
    assert lines == lines[..|lines| - 1] + [lines[|lines| - 1]];
  }

  lemma NoFlow(cols: nat)
    ensures RowCells(Flow([], cols)) == []
  {
  }
}
