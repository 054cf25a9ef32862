/** The rewrap (`Screen::reflow` and `Logical` in src/emu/screen.rs): reassemble the lines the
    child printed from their `wrapped` chains, re-align the seam with the text already handed
    to Emacs, cut the lines again at the new width, and evict what no longer fits. */
module Reflow {
  import opened Cells
  import opened Grid

  /** A line before the grid cut it into rows; attachments keyed by offset into `cells`. */
  datatype Logical = Logical(cells: seq<Cell>, extras: seq<Entry>, marks: seq<MarkAt>)

  const EMPTY_LINE: Logical := Logical([], [], [])

  function Rebase(es: seq<Entry>, base: nat): seq<Entry> {
    seq(|es|, i requires 0 <= i < |es| => es[i].(at := es[i].at + base))
  }

  function RebaseMarks(ms: seq<MarkAt>, base: nat): seq<MarkAt> {
    seq(|ms|, i requires 0 <= i < |ms| => MarkAt(ms[i].at + base, ms[i].id))
  }

  function PushRow(line: Logical, row: Row): Logical {
    var base := |line.cells|;
    var len := Min(LineLen(row), |row.cells|);
    Logical(line.cells + row.cells[..len],
            line.extras + Rebase(CutOff(Drawn(row.extras), len), base),
            line.marks + RebaseMarks(MarksOf(row.extras), base))
  }

  /** The lines the first `n` rows spell, and whether the last of them goes on in row `n`. */
  function AssembleTo(rows: seq<Row>, n: nat): (r: (seq<Logical>, bool))
    requires n <= |rows|
    ensures r.1 ==> r.0 != []
    ensures n > 0 ==> r.0 != [] && r.1 == rows[n - 1].wrapped
    ensures |r.0| <= n
  {
    if n == 0 then ([], false)
    else
      var (lines, continuing) := AssembleTo(rows, n - 1);
      var started := if continuing then lines else lines + [EMPTY_LINE];
      (started[|started| - 1 := PushRow(started[|started| - 1], rows[n - 1])], rows[n - 1].wrapped)
  }

  /** Which line position (`row`, `col`) falls in, and how many cells of the line precede it. */
  function LinePos(rows: seq<Row>, row: nat, col: nat, wrapPending: bool): (nat, nat)
    requires row <= |rows|
  {
    var (lines, continuing) := AssembleTo(rows, row);
    var at := col + if wrapPending then 1 else 0;
    if continuing then (|lines| - 1, |lines[|lines| - 1].cells| + at) else (|lines|, at)
  }

  function PadLine(line: Logical, len: nat): Logical {
    if |line.cells| < len then line.(cells := ResizeCells(line.cells, len, DEFAULT_CELL)) else line
  }

  // ----- rows cut from a line -----

  /** The entries on offsets `lo..hi`, as columns from `lo`. */
  function Within(es: seq<Entry>, lo: nat, hi: nat): seq<Entry> {
    if es == [] then []
    else if lo <= es[0].at < hi then [es[0].(at := es[0].at - lo)] + Within(es[1..], lo, hi)
    else Within(es[1..], lo, hi)
  }

  function MarksWithin(ms: seq<MarkAt>, lo: nat, hi: nat): seq<Entry> {
    if ms == [] then []
    else if lo <= ms[0].at < hi then [Entry(ms[0].at - lo, Mark(ms[0].id))] + MarksWithin(ms[1..], lo, hi)
    else MarksWithin(ms[1..], lo, hi)
  }

  function InsertLast(es: seq<Entry>, e: Entry): seq<Entry> {
    if es == [] || es[|es| - 1].at <= e.at then es + [e]
    else InsertLast(es[..|es| - 1], e) + [es[|es| - 1]]
  }

  /** A stable sort by column. */
  function SortByColumn(es: seq<Entry>): seq<Entry> {
    if es == [] then [] else InsertLast(SortByColumn(es[..|es| - 1]), es[|es| - 1])
  }

  /** One row from offsets `start..end`, blank-padded out to `cols`. */
  function RowOf(line: Logical, start: nat, end: nat, cols: nat, wrapped: bool): Row
    requires start <= end <= |line.cells|
  {
    var taken := Min(end, start + cols);
    Row(ResizeCells(line.cells[start..taken], cols, DEFAULT_CELL),
        SortByColumn(Within(line.extras, start, taken) + MarksWithin(line.marks, start, start + cols)),
        wrapped)
  }

  /** One past the continuation cells from `from` on. */
  function CharEnd(cells: seq<Cell>, from: nat): (end: nat)
    requires from <= |cells|
    ensures from <= end <= |cells|
    decreases |cells| - from
  {
    if from < |cells| && IsContinuation(cells[from]) then CharEnd(cells, from + 1) else from
  }

  datatype Cut = Cut(start: nat, end: nat)

  /** The rows `chunk` closes with a wrap when it stands at `at` with a row open at `start`,
      and where the row it leaves open starts. */
  function Cuts(cells: seq<Cell>, cols: nat, start: nat, at: nat): (r: (seq<Cut>, nat))
    requires start <= at <= |cells|
    ensures forall i :: 0 <= i < |r.0| ==> r.0[i].start <= r.0[i].end <= |cells|
    ensures r.1 <= |cells|
    decreases |cells| - at
  {
    if at == |cells| then ([], start)
    else
      var next := CharEnd(cells, at + 1);
      if next - start > cols then
        var (end, resume) := if at == start then (next, next) else (at, at);
        var (more, open) := Cuts(cells, cols, resume, next);
        ([Cut(start, end)] + more, open)
      else Cuts(cells, cols, start, next)
  }

  function MarkEach(row: Row, col: nat, ms: seq<MarkAt>, from: nat): Row
    decreases |ms|
  {
    if ms == [] then row
    else MarkEach(if ms[0].at >= from then MarkRow(row, col, ms[0].id) else row, col, ms[1..], from)
  }

  function WrappedRows(line: Logical, cuts: seq<Cut>, cols: nat): (r: seq<Row>)
    requires forall i :: 0 <= i < |cuts| ==> cuts[i].start <= cuts[i].end <= |line.cells|
    ensures |r| == |cuts|
  {
    seq(|cuts|, i requires 0 <= i < |cuts| => RowOf(line, cuts[i].start, cuts[i].end, cols, true))
  }

  /** The rows of a line before the marks no row covers are hung on the last of them. */
  function BareChunk(line: Logical, cols: nat): (r: seq<Row>)
    ensures r != []
  {
    var (cuts, open) := Cuts(line.cells, cols, 0, 0);
    var rows := WrappedRows(line, cuts, cols);
    if open < |line.cells| || rows == [] then rows + [RowOf(line, open, |line.cells|, cols, false)]
    else rows
  }

  function Chunk(line: Logical, cols: nat): (r: seq<Row>)
    ensures r != []
  {
    var rows := BareChunk(line, cols);
    var last := rows[|rows| - 1];
    rows[|rows| - 1 := MarkEach(last, Saturate(|last.cells| - 1), line.marks,
                                Cuts(line.cells, cols, 0, 0).1 + cols)]
  }

  function Chunks(lines: seq<Logical>, cols: nat): (r: seq<seq<Row>>)
    ensures |r| == |lines|
  {
    seq(|lines|, i requires 0 <= i < |lines| => Chunk(lines[i], cols))
  }

  function Concat(parts: seq<seq<Row>>): seq<Row> {
    if parts == [] then [] else Concat(parts[..|parts| - 1]) + parts[|parts| - 1]
  }

  /** The rows of the lines, one line after another. */
  function Flow(lines: seq<Logical>, cols: nat): seq<Row> {
    Concat(Chunks(lines, cols))
  }

  /** Where an offset into a chunked line lands: row, column, and whether the wrap is pending. */
  function PlaceOffset(offset: nat, cols: nat, chunks: nat): (r: (nat, nat, bool))
    requires cols >= 1
    ensures r.1 < cols
  {
    var (row, col) := (offset / cols, offset % cols);
    if col == 0 && row > 0 && row >= chunks then (row - 1, cols - 1, true)
    else (Min(row, Saturate(chunks - 1)), col, false)
  }

  // ----- the seam -----

  function DropFront(es: seq<Entry>, n: nat): seq<Entry> {
    if es == [] then []
    else if es[0].at >= n then [es[0].(at := es[0].at - n)] + DropFront(es[1..], n)
    else DropFront(es[1..], n)
  }

  function DropMarks(ms: seq<MarkAt>, n: nat): seq<MarkAt> {
    if ms == [] then []
    else if ms[0].at >= n then [MarkAt(ms[0].at - n, ms[0].id)] + DropMarks(ms[1..], n)
    else DropMarks(ms[1..], n)
  }

  /** What is left of a line once its first `n` cells have gone as a row of their own. */
  function AfterFront(line: Logical, n: nat): Logical
    requires n <= |line.cells|
  {
    Logical(line.cells[n..], DropFront(line.extras, n), DropMarks(line.marks, n))
  }

  datatype Seam = Seam(lines: seq<Logical>, head: nat, cursorLine: nat, cursorOffset: nat, handed: Evicted)

  /** Hand over the cells that complete the head's last visual row at the new width. */
  function Realign(lines: seq<Logical>, head: nat, cols: nat, cursorLine: nat, cursorOffset: nat): Seam
    requires cols >= 1
  {
    if head % cols == 0 || lines == [] then Seam(lines, head, cursorLine, cursorOffset, [])
    else
      var split: nat := Min(cols - head % cols, |lines[0].cells|);
      var endsHere := split == |lines[0].cells|;
      var handed := [Depart(RowOf(lines[0], 0, split, split, !endsHere))];
      var offset := if cursorLine == 0 then Saturate(cursorOffset - split) else cursorOffset;
      if endsHere then Seam(lines[1..], 0, Saturate(cursorLine - 1), offset, handed)
      else Seam(lines[0 := AfterFront(lines[0], split)], head + split, cursorLine, offset, handed)
  }

  // ----- the rewrap -----

  /** The lines on the grid, the cursor's padded out to where the cursor stands. */
  function GridLines(g: Grid): (lines: seq<Logical>)
    requires Shape(g)
    ensures lines != []
  {
    var lines := AssembleTo(g.rows, Used(g)).0;
    var (line, offset) := LinePos(g.rows, g.cursor.row, g.cursor.col, g.cursor.wrapPending);
    if line < |lines| then lines[line := PadLine(lines[line], offset)] else lines
  }

  /** Cells of the top line that Emacs has already. */
  function Head(g: Grid): nat {
    g.carried * g.cols
  }

  function Reseam(g: Grid, cols: nat): Seam
    requires Shape(g) && cols >= 1
  {
    var (line, offset) := LinePos(g.rows, g.cursor.row, g.cursor.col, g.cursor.wrapPending);
    Realign(GridLines(g), Head(g), cols, line, offset)
  }

  /** Offset `offset` of line `line`, as a cursor among the re-cut rows of all the lines. */
  function PlaceIn(parts: seq<seq<Row>>, line: nat, offset: nat, cols: nat): (c: Cursor)
    requires cols >= 1
    ensures c.col < cols
  {
    if line >= |parts| then Cursor(0, 0, false)
    else
      var (row, col, pending) := PlaceOffset(offset, cols, |parts[line]|);
      Cursor(|Concat(parts[..line])| + row, col, pending)
  }

  /** The cursor among the re-cut rows, before the ones that do not fit leave the top. */
  function PlacedCursor(s: Seam, cols: nat): (c: Cursor)
    requires cols >= 1
    ensures c.col < cols
  {
    PlaceIn(Chunks(s.lines, cols), s.cursorLine, s.cursorOffset, cols)
  }

  function ResizeRows(rows: seq<Row>, height: nat, cols: nat): (r: seq<Row>)
    ensures |r| == height
  {
    seq(height, i requires 0 <= i < height => if i < |rows| then rows[i] else NewRow(cols))
  }

  /** The grid of the last `rows` of the re-cut rows, the rest evicted off its top. */
  function Refill(g: Grid, flow: seq<Row>, head: nat, placed: Cursor, rows: nat, cols: nat): (r: (Grid, Evicted))
    requires rows >= 1 && cols >= 1 && placed.col < cols
    ensures Shape(r.0)
  {
    var overflow := Saturate(|flow| - rows);
    var ev := DepartAll(flow[..overflow]);
    (Grid(ResizeRows(flow[overflow..], rows, cols), cols,
          placed.(row := Min(Saturate(placed.row - overflow), rows - 1)),
          FullRegion(rows), All(rows, true), DefaultTabs(cols),
          CarryOf(head / cols, ev), g.autowrap, g.insertMode, g.history),
     ev)
  }

  function Rewrap(g: Grid, rows: nat, cols: nat): (r: (Grid, Evicted))
    requires Shape(g) && rows >= 1 && cols >= 1
    ensures Shape(r.0)
  {
    var s := Reseam(g, cols);
    var (h, ev) := Refill(g, Flow(s.lines, cols), s.head, PlacedCursor(s, cols), rows, cols);
    (h, s.handed + ev)
  }

  datatype Mode = ToRewrap | ToClamp

  function Resize(g: Grid, rows: nat, cols: nat, mode: Mode): (r: (Grid, Evicted))
    requires Shape(g)
    ensures Shape(r.0)
  {
    var (h, w) := (AtLeastOne(rows), AtLeastOne(cols));
    if mode == ToRewrap && w != g.cols && Archives(g) then Rewrap(g, h, w)
    else ClampResize(g, h, w)
  }
}
