/** `Screen` (src/emu/screen.rs) as the object it is: fields updated in place, and a method per
    operation. Every method is proved to take the value of the fields to exactly what the
    function of the same name in `Grid` or `Reflow` says, so what is proved about those
    functions, over one step or over whole runs, holds of these methods. */
module ScreenObject {
  import opened Cells
  import opened Grid
  import opened Reflow
  import G = Grid
  import R = Reflow

  // ----- logical lines -----

  lemma WrappedSnoc(line: Logical, done: seq<Cut>, cut: Cut, cols: nat)
    requires forall i :: 0 <= i < |done| ==> done[i].start <= done[i].end <= |line.cells|
    requires cut.start <= cut.end <= |line.cells|
    ensures WrappedRows(line, done + [cut], cols)
         == WrappedRows(line, done, cols) + [RowOf(line, cut.start, cut.end, cols, true)]
  {
  }

  /** The rows that close with a wrap, and where the row left open starts. */
  method CutRows(line: Logical, cols: nat) returns (rows: seq<Row>, start: nat)
    ensures start == Cuts(line.cells, cols, 0, 0).1
    ensures rows == WrappedRows(line, Cuts(line.cells, cols, 0, 0).0, cols)
  {
    rows, start := [], 0;
    var at := 0;
    ghost var done: seq<Cut> := [];
    ghost var all := Cuts(line.cells, cols, 0, 0);
    assert [] + all.0 == all.0;
    while at < |line.cells|
      invariant start <= at <= |line.cells|
      invariant forall i :: 0 <= i < |done| ==> done[i].start <= done[i].end <= |line.cells|
      invariant CutsLeft(line.cells, cols, start, at, done, all)
      invariant rows == WrappedRows(line, done, cols)
    {
      CutsNext(line.cells, cols, start, at, done, all);
      var next := CharacterEnd(line.cells, at + 1);
      if next - start > cols {
        var end, resume := if at == start then next else at, if at == start then next else at;
        WrappedSnoc(line, done, Cut(start, end), cols);
        rows := rows + [RowOf(line, start, end, cols, true)];
        done := done + [Cut(start, end)];
        start := resume;
      }
      at := next;
    }
    assert all.0 == done;
  }

  ghost predicate CutsLeft(cells: seq<Cell>, cols: nat, start: nat, at: nat, done: seq<Cut>, all: (seq<Cut>, nat))
    requires start <= at <= |cells|
  {
    var left := Cuts(cells, cols, start, at);
    all == (done + left.0, left.1)
  }

  lemma CutsNext(cells: seq<Cell>, cols: nat, start: nat, at: nat, done: seq<Cut>, all: (seq<Cut>, nat))
    requires start <= at < |cells| && CutsLeft(cells, cols, start, at, done, all)
    ensures var next := CharEnd(cells, at + 1);
            if next - start > cols then
              var end := if at == start then next else at;
              CutsLeft(cells, cols, end, next, done + [Cut(start, end)], all)
            else CutsLeft(cells, cols, start, next, done, all)
  {
    var next := CharEnd(cells, at + 1);
    if next - start > cols {
      var end := if at == start then next else at;
      var more := Cuts(cells, cols, end, next).0;
      assert done + ([Cut(start, end)] + more) == done + [Cut(start, end)] + more;
    }
  }

  method CharacterEnd(cells: seq<Cell>, from: nat) returns (next: nat)
    requires from <= |cells|
    ensures next == CharEnd(cells, from)
  {
    next := from;
    while next < |cells| && IsContinuation(cells[next])
      invariant from <= next <= |cells|
      invariant CharEnd(cells, from) == CharEnd(cells, next)
    {
      next := next + 1;
    }
  }

  /** Hang the marks no row covers on the last row's last column. */
  method HangMarks(row: Row, marks: seq<MarkAt>, from: nat) returns (last: Row)
    ensures last == MarkEach(row, Saturate(|row.cells| - 1), marks, from)
  {
    last := row;
    var end := Saturate(|row.cells| - 1);
    var i := 0;
    while i < |marks|
      invariant 0 <= i <= |marks|
      invariant MarkEach(last, end, marks[i..], from) == MarkEach(row, end, marks, from)
    {
      if marks[i].at >= from {
        last := MarkRow(last, end, marks[i].id);
      }
      assert marks[i..][1..] == marks[i + 1..];
      i := i + 1;
    }
  }

  /** Cut a line into rows of `cols`, never splitting a character that fits. */
  method ChunkLine(line: Logical, cols: nat) returns (rows: seq<Row>)
    ensures rows == Chunk(line, cols)
  {
    hide RowOf, MarkEach, Cuts;
    var start;
    rows, start := CutRows(line, cols);
    if start < |line.cells| || rows == [] {
      rows := rows + [RowOf(line, start, |line.cells|, cols, false)];
    }
    var last := HangMarks(rows[|rows| - 1], line.marks, start + cols);
    rows := rows[|rows| - 1 := last];
  }

  /** The lines once one more row is read. */
  function Pushed(lines: seq<Logical>, continuing: bool, row: Row): seq<Logical>
    requires continuing ==> lines != []
  {
    var started := if continuing then lines else lines + [EMPTY_LINE];
    started[|started| - 1 := PushRow(started[|started| - 1], row)]
  }

  /** The line the next row goes on, and where its column `at` falls in it. */
  function Standing(lines: seq<Logical>, continuing: bool, at: nat): (nat, nat)
    requires continuing ==> lines != []
  {
    if continuing then (|lines| - 1, |lines[|lines| - 1].cells| + at) else (|lines|, at)
  }

  method OpenAndPush(before: seq<Logical>, continuing: bool, row: Row) returns (lines: seq<Logical>)
    requires continuing ==> before != []
    ensures lines == Pushed(before, continuing, row)
  {
    lines := before;
    if !continuing {
      lines := lines + [EMPTY_LINE];
    }
    lines := lines[|lines| - 1 := PushRow(lines[|lines| - 1], row)];
  }

  lemma AssembleNext(rows: seq<Row>, n: nat, lines: seq<Logical>, continuing: bool)
    requires n < |rows| && (lines, continuing) == AssembleTo(rows, n)
    ensures AssembleTo(rows, n + 1) == (Pushed(lines, continuing, rows[n]), rows[n].wrapped)
  {
  }

  /** The lines of the rows, and the line and offset of position (`row`, `at`) among them. */
  method AssembleLines(rows: seq<Row>, row: nat, col: nat, wrapPending: bool)
    returns (lines: seq<Logical>, line: nat, offset: nat)
    requires row < |rows|
    ensures lines == AssembleTo(rows, |rows|).0
    ensures (line, offset) == LinePos(rows, row, col, wrapPending)
  {
    hide PushRow, LinePos;
    lines := [];
    line, offset := 0, 0;
    var continuing := false;
    ghost var target := LinePos(rows, row, col, wrapPending);
    for index := 0 to |rows|
      invariant (lines, continuing) == AssembleTo(rows, index)
      invariant index > row ==> (line, offset) == target
    {
      if index == row {
        LinePosIs(rows, row, col, wrapPending, lines, continuing);
        var here := Standing(lines, continuing, col + if wrapPending then 1 else 0);
        line, offset := here.0, here.1;
      }
      AssembleNext(rows, index, lines, continuing);
      lines := OpenAndPush(lines, continuing, rows[index]);
      continuing := rows[index].wrapped;
    }
  }

  lemma LinePosIs(rows: seq<Row>, row: nat, col: nat, wrapPending: bool, lines: seq<Logical>, continuing: bool)
    requires row < |rows| && (lines, continuing) == AssembleTo(rows, row)
    ensures LinePos(rows, row, col, wrapPending) == Standing(lines, continuing, col + if wrapPending then 1 else 0)
  {
  }

  lemma LinePosPrefix(rows: seq<Row>, row: nat, col: nat, wrapPending: bool, m: nat)
    requires row < m <= |rows|
    ensures LinePos(rows[..m], row, col, wrapPending) == LinePos(rows, row, col, wrapPending)
  {
    AssemblePrefix(rows, row, m);
  }

  lemma GridLinesIs(g: Grid, lines: seq<Logical>, line: nat, offset: nat)
    requires Shape(g) && lines == AssembleTo(g.rows, G.Used(g)).0
    requires (line, offset) == LinePos(g.rows, g.cursor.row, g.cursor.col, g.cursor.wrapPending)
    ensures GridLines(g) == if line < |lines| then lines[line := PadLine(lines[line], offset)] else lines
  {
  }

  lemma AssemblePrefix(rows: seq<Row>, n: nat, m: nat)
    requires n <= m <= |rows|
    ensures AssembleTo(rows[..m], n) == AssembleTo(rows, n)
  {
    if n > 0 {
      AssemblePrefix(rows, n - 1, m);
    }
  }

  lemma ConcatSnoc(parts: seq<seq<Row>>, i: nat)
    requires i < |parts|
    ensures Concat(parts[..i + 1]) == Concat(parts[..i]) + parts[i]
  {
    assert parts[..i + 1][..i] == parts[..i];
  }

  lemma PlaceAmong(parts: seq<seq<Row>>, line: nat, offset: nat, cols: nat)
    requires line < |parts| && cols >= 1
    ensures var (row, col, pending) := PlaceOffset(offset, cols, |parts[line]|);
            PlaceIn(parts, line, offset, cols) == Cursor(|Concat(parts[..line])| + row, col, pending)
  {
  }

  /** The rows of all the lines, and the cursor among them. */
  method Rechunk(lines: seq<Logical>, cols: nat, cursorLine: nat, cursorOffset: nat)
    returns (rows: seq<Row>, cursor: Cursor)
    requires cols >= 1
    ensures rows == Flow(lines, cols)
    ensures cursor == PlaceIn(Chunks(lines, cols), cursorLine, cursorOffset, cols)
  {
    hide Chunk, PlaceOffset;
    rows := [];
    cursor := Cursor(0, 0, false);
    var index := 0;
    ghost var parts := Chunks(lines, cols);
    while index < |lines|
      invariant 0 <= index <= |lines|
      invariant rows == Concat(parts[..index])
      invariant cursor == if cursorLine < index then PlaceIn(parts, cursorLine, cursorOffset, cols)
                          else Cursor(0, 0, false)
    {
      var chunks := ChunkLine(lines[index], cols);
      assert chunks == parts[index];
      if index == cursorLine {
        PlaceAmong(parts, index, cursorOffset, cols);
        var (row, col, wrapPending) := PlaceOffset(cursorOffset, cols, |chunks|);
        cursor := Cursor(|rows| + row, col, wrapPending);
      }
      ConcatSnoc(parts, index);
      rows := rows + chunks;
      index := index + 1;
    }
    assert parts[..index] == parts;
  }

  /** Hand over the cells completing the head's last visual row at the new width. */
  method RealignSeam(lines: seq<Logical>, head: nat, cols: nat, cursorLine: nat, cursorOffset: nat)
    returns (rest: seq<Logical>, newHead: nat, line: nat, offset: nat, handed: Evicted)
    requires cols >= 1
    ensures Seam(rest, newHead, line, offset, handed) == Realign(lines, head, cols, cursorLine, cursorOffset)
  {
    rest, newHead, line, offset, handed := lines, head, cursorLine, cursorOffset, [];
    if head % cols != 0 && lines != [] {
      var split := Min(cols - head % cols, |lines[0].cells|);
      var endsHere := split == |lines[0].cells|;
      handed := [Depart(RowOf(lines[0], 0, split, split, !endsHere))];
      newHead := head + split;
      if cursorLine == 0 {
        offset := Saturate(cursorOffset - split);
      }
      if endsHere {
        rest := lines[1..];
        line := Saturate(cursorLine - 1);
        newHead := 0;
      } else {
        rest := lines[0 := AfterFront(lines[0], split)];
      }
    }
  }

  // ----- cells of one row -----

  method PutSpan(row: Row, lo: nat, hi: nat, cell: Cell) returns (r: Row, changed: bool)
    ensures (r, changed) == SetSpan(row, lo, hi, cell)
  {
    r, changed := row, false;
    var col := lo;
    ghost var target := SetSpan(row, lo, hi, cell);
    while col < hi
      invariant lo <= col
      invariant target == (SetSpan(r, col, hi, cell).0, changed || SetSpan(r, col, hi, cell).1)
    {
      var next := Set(r, col, cell);
      r, changed := next.0, changed || next.1;
      col := col + 1;
    }
  }

  /** A character and the continuation cells it claims. */
  method PutCells(row: Row, col: nat, ch: char, width: nat, style: Style, insertMode: bool)
    returns (r: Row, changed: bool)
    ensures (r, changed) == PlaceCells(row, col, ch, width, style, insertMode)
  {
    r, changed := row, false;
    if insertMode {
      r, changed := InsertBlank(r, col, width, style), true;
    }
    var led := Set(r, col, Cell(ch, style));
    var more;
    r, more := PutSpan(led.0, col + 1, col + width, Cell(CONTINUATION, style));
    changed := changed || led.1 || more;
  }

  /** The rows a new height keeps, and the ones it sheds off the top. */
  ghost predicate HeightTaken(was: seq<Row>, row: nat, height: nat, cols: nat, rows: seq<Row>, shed: seq<Row>)
    requires row < |was| && height >= 1
  {
    var from := Shed(|was|, Max(LastText(was), row) + 1, height);
    var end := Min(|was|, from + height);
    shed == was[..from] && rows == was[from..end] + BlankRows(height - (end - from), cols)
  }

  lemma CutHeightIs(w: Grid, height: nat, rows: seq<Row>, shed: seq<Row>)
    requires height >= 1 && w.cols >= 1 && |w.tabs| == w.cols && w.cursor.row < |w.rows|
    requires HeightTaken(w.rows, w.cursor.row, height, w.cols, rows, shed)
    ensures CutHeight(w, height) == (Rebased(w.(rows := rows), DepartAll(shed), height), DepartAll(shed))
  {
  }

  // ----- the screen -----

  class Screen {
    var rows: seq<Row>
    var cols: nat
    var cursor: Cursor
    var region: Region
    var dirty: seq<bool>
    var tabs: seq<bool>
    var carried: nat
    var autowrap: bool
    var insertMode: bool
    var history: bool

    ghost function Value(): Grid
      reads this
    {
      Grid(rows, cols, cursor, region, dirty, tabs, carried, autowrap, insertMode, history)
    }

    ghost predicate Valid()
      reads this
    {
      Shape(Value())
    }

    constructor (height: nat, width: nat)
      ensures Valid() && Value() == NewGrid(height, width)
    {
      var h, w := AtLeastOne(height), AtLeastOne(width);
      rows := seq(h, _ => NewRow(w));
      cols := w;
      cursor := Cursor(0, 0, false);
      region := FullRegion(h);
      dirty := All(h, true);
      tabs := DefaultTabs(w);
      carried := 0;
      autowrap, insertMode, history := true, false, true;
    }

    // ----- damage -----

    method Edit(index: nat, row: Row, changed: bool)
      requires Valid() && index < |rows|
      modifies this
      ensures Valid() && Value() == EditRow(old(Value()), index, (row, changed))
    {
      rows := rows[index := row];
      if changed {
        dirty := dirty[index := true];
      }
    }

    method TouchSpan(first: nat, last: nat)
      requires Valid()
      modifies this`dirty
      ensures Valid() && dirty == TouchRange(old(dirty), first, last)
    {
      var end := Min(last + 1, |dirty|);
      var i := first;
      while i < end
        invariant |dirty| == |old(dirty)|
        invariant first <= i && (i <= end || i == first)
        invariant forall j :: 0 <= j < |dirty| ==> dirty[j] == (old(dirty)[j] || first <= j < i)
      {
        dirty := dirty[i := true];
        i := i + 1;
      }
    }

    method DrainDamage() returns (changed: seq<nat>)
      requires Valid()
      modifies this`dirty
      ensures Valid() && (Value(), changed) == G.DrainDamage(old(Value()))
    {
      changed := [];
      var i := |dirty|;
      while i > 0
        invariant 0 <= i <= |dirty|
        invariant changed == DirtyFrom(dirty, i)
      {
        i := i - 1;
        if dirty[i] {
          changed := [i] + changed;
        }
      }
      dirty := All(|dirty|, false);
    }

    // ----- rows leaving the top -----

    method Carry(ev: Evicted)
      modifies this`carried
      ensures carried == CarryOf(old(carried), ev)
    {
      if ev == [] {
        return;
      }
      if !ev[|ev| - 1].wrapped {
        carried := 0;
        return;
      }
      var run := 0;
      assert ev[..|ev|] == ev;
      while run < |ev| && ev[|ev| - 1 - run].wrapped
        invariant 0 <= run <= |ev|
        invariant TrailingWrapped(ev) == run + TrailingWrapped(ev[..|ev| - run])
      {
        assert ev[..|ev| - run][..|ev| - run - 1] == ev[..|ev| - (run + 1)];
        run := run + 1;
      }
      carried := if run == |ev| then carried + run else run;
    }

    method ClearSpan(from: nat, to: nat, style: Style)
      requires to <= |rows|
      modifies this`rows
      ensures |rows| == |old(rows)|
      ensures forall i :: 0 <= i < |rows| ==>
                rows[i] == if from <= i < to then ClearRow(old(rows)[i], style) else old(rows)[i]
    {
      var i := from;
      while i < to
        invariant from <= i && (i <= to || i == from)
        invariant |rows| == |old(rows)|
        invariant forall j :: 0 <= j < |rows| ==>
                    rows[j] == if from <= j < i then ClearRow(old(rows)[j], style) else old(rows)[j]
      {
        rows := rows[i := ClearRow(rows[i], style)];
        i := i + 1;
      }
    }

    /** Rotate the span left by `n` and blank the rows that wrapped around. */
    method RotateUp(top: nat, bottom: nat, n: nat, style: Style)
      requires top <= bottom < |rows| && n <= bottom + 1 - top
      modifies this`rows
      ensures rows == RowsUp(old(rows), top, bottom, n, style)
    {
      rows := rows[..top] + rows[top + n..bottom + 1] + rows[top..top + n] + rows[bottom + 1..];
      ClearSpan(bottom + 1 - n, bottom + 1, style);
    }

    method RotateDown(top: nat, bottom: nat, n: nat, style: Style)
      requires top <= bottom < |rows| && n <= bottom + 1 - top
      modifies this`rows
      ensures rows == RowsDown(old(rows), top, bottom, n, style)
    {
      rows := rows[..top] + rows[bottom + 1 - n..bottom + 1] + rows[top..bottom + 1 - n] + rows[bottom + 1..];
      ClearSpan(top, top + n, style);
    }

    method ScrollUp(n: nat, pen: Style) returns (ev: Evicted)
      requires Valid()
      modifies this`rows, this`dirty, this`carried
      ensures Valid() && (Value(), ev) == G.ScrollUp(old(Value()), n, pen)
    {
      var top, bottom := region.top, region.bottom;
      var m := Min(n, bottom + 1 - top);
      if m == 0 {
        return [];
      }
      ev := Leaving(top, m);
      RotateUp(top, bottom, m, Erased(pen));
      TouchSpan(top, bottom);
      Carry(ev);
    }

    /** What becomes history when `n` rows from `top` leave: nothing, unless the screen archives. */
    method Leaving(top: nat, n: nat) returns (ev: Evicted)
      requires top + n <= |rows|
      ensures ev == if Archives() then DepartAll(rows[top..top + n]) else []
    {
      ev := [];
      if Archives() {
        for i := 0 to n
          invariant ev == DepartAll(rows[top..top + i])
        {
          ev := ev + [Depart(rows[top + i])];
        }
      }
    }

    predicate Archives()
      reads this
    {
      history && region == FullRegion(|rows|)
    }

    method ScrollDown(n: nat, pen: Style)
      requires Valid()
      modifies this`rows, this`dirty
      ensures Valid() && Value() == G.ScrollDown(old(Value()), n, pen)
    {
      var top, bottom := region.top, region.bottom;
      var m := Min(n, bottom + 1 - top);
      if m == 0 {
        return;
      }
      RotateDown(top, bottom, m, Erased(pen));
      TouchSpan(top, bottom);
    }

    method Linefeed(pen: Style) returns (ev: Evicted)
      requires Valid()
      modifies this
      ensures Valid() && (Value(), ev) == G.Linefeed(old(Value()), pen)
    {
      ev := [];
      cursor := cursor.(wrapPending := false);
      if cursor.row == region.bottom {
        ev := ScrollUp(1, pen);
      } else if cursor.row + 1 < |rows| {
        cursor := cursor.(row := cursor.row + 1);
      }
    }

    method ReverseIndex(pen: Style)
      requires Valid()
      modifies this
      ensures Valid() && Value() == G.ReverseIndex(old(Value()), pen)
    {
      cursor := cursor.(wrapPending := false);
      if cursor.row == region.top {
        ScrollDown(1, pen);
      } else if cursor.row != 0 {
        cursor := cursor.(row := cursor.row - 1);
      }
    }

    method InsertLines(n: nat, pen: Style)
      requires Valid()
      modifies this
      ensures Valid() && Value() == G.InsertLines(old(Value()), n, pen)
    {
      if !(region.top <= cursor.row <= region.bottom) {
        return;
      }
      var saved := region;
      region := Region(cursor.row, saved.bottom);
      ScrollDown(n, pen);
      region := saved;
    }

    method DeleteLines(n: nat, pen: Style)
      requires Valid()
      modifies this
      ensures Valid() && Value() == G.DeleteLines(old(Value()), n, pen)
    {
      if !(region.top <= cursor.row <= region.bottom) {
        return;
      }
      var saved, kept := region, carried;
      region := Region(cursor.row, saved.bottom);
      var discarded := ScrollUp(n, pen);
      carried := kept;
      region := saved;
    }

    /** Take out `n` rows, the ones below moving up and blank ones coming in at the bottom. */
    method CloseGap(from: nat, n: nat)
      requires from + n <= |rows|
      modifies this`rows
      ensures rows == old(rows)[..from] + old(rows)[from + n..] + BlankRows(n, cols)
    {
      ghost var closed := rows[..from] + rows[from + n..] + BlankRows(n, cols);
      rows := rows[..from] + rows[from + n..] + BlankRows(n, cols);
      ClearSpan(|rows| - n, |rows|, Erased(PLAIN));
      forall i | 0 <= i < |rows| ensures rows[i] == closed[i] {
        assert i >= |rows| - n ==> closed[i] == NewRow(cols);
      }
    }

    method RemoveRows(first: nat, count: nat)
      requires Valid()
      modifies this`rows, this`carried, this`cursor, this`dirty
      ensures Valid() && Value() == G.RemoveRows(old(Value()), first, count)
    {
      var from := Min(first, |rows|);
      var n := Min(count, |rows| - from);
      if n == 0 {
        return;
      }
      CloseGap(from, n);
      if from == 0 {
        carried := 0;
      }
      cursor := Cursor(if cursor.row >= from + n then cursor.row - n
                       else if cursor.row >= from then from else cursor.row,
                       cursor.col, false);
      TouchSpan(from, |rows| - 1);
    }

    // ----- writing -----

    method Settle(end: nat)
      requires Valid()
      modifies this`cursor
      ensures Valid() && Value() == SettleCursor(old(Value()), end)
    {
      cursor := if end >= cols then Cursor(cursor.row, cols - 1, autowrap)
                else Cursor(cursor.row, end, false);
    }

    /** The margin decision: where the next character goes, and what scrolls to get there. */
    method StepOverMargin(width: nat, style: Style) returns (ev: Evicted)
      requires Valid() && width >= 1
      modifies this
      ensures Valid() && (Value(), ev) == MakeRoom(old(Value()), width, style)
    {
      ev := [];
      if cursor.wrapPending || cursor.col + width > cols {
        if autowrap {
          Edit(cursor.row, rows[cursor.row].(wrapped := true), !rows[cursor.row].wrapped);
          cursor := cursor.(col := 0);
          ev := Linefeed(style);
        } else {
          cursor := cursor.(col := Saturate(cols - width));
        }
      }
    }

    method Place(ch: char, width: nat, style: Style) returns (ev: Evicted)
      requires Valid() && width >= 1
      modifies this
      ensures Valid() && (Value(), ev) == G.Place(old(Value()), ch, width, style)
    {
      ev := StepOverMargin(width, style);
      var row, col := cursor.row, cursor.col;
      var placed, changed := PutCells(rows[row], col, ch, width, style, insertMode);
      Edit(row, placed, changed);
      Settle(col + width);
    }

    method Join(mark: char, before: nat, after: nat) returns (settled: nat)
      requires Valid()
      modifies this
      ensures Valid() && (Value(), settled) == G.Join(old(Value()), mark, before, after)
    {
      var row := cursor.row;
      var lead := Saturate((if cursor.wrapPending then cols else cursor.col) - AtLeastOne(before));
      Edit(row, Combine(rows[row], lead, mark), true);
      if after == before || before == 0 {
        return before;
      }
      if after > before && lead + after > cols {
        return before;
      }
      ResizeAt(lead, before, after);
      settled := after;
    }

    /** Give the cell at `lead` `after` columns where it stood on `before`. */
    method ResizeAt(lead: nat, before: nat, after: nat)
      requires Valid()
      modifies this
      ensures Valid() && Value() == ResizeCell(old(Value()), lead, before, after)
    {
      var row := cursor.row;
      var style := if lead < |rows[row].cells| then rows[row].cells[lead].style else PLAIN;
      var cell := if after > before then Cell(CONTINUATION, style) else BlankCell(style);
      var resized, changed := PutSpan(rows[row], lead + Min(after, before), lead + Max(after, before), cell);
      Edit(row, resized, changed);
      Settle(lead + after);
    }

    method WriteCluster(text: string, width: nat, style: Style) returns (ev: Evicted)
      requires Valid()
      modifies this
      ensures Valid() && (Value(), ev) == G.WriteCluster(old(Value()), text, width, style)
    {
      if text == [] {
        return [];
      }
      if width == 0 {
        var ignored := Join(text[0], 0, 0);
        ev := [];
      } else {
        ev := Place(text[0], width, style);
      }
      ghost var target := JoinAll(Value(), text[1..], width);
      var i := 1;
      while i < |text|
        invariant 1 <= i <= |text|
        invariant Valid() && JoinAll(Value(), text[i..], width) == target
      {
        assert text[i..][1..] == text[i + 1..];
        var ignored := Join(text[i], width, width);
        i := i + 1;
      }
    }

    method WriteRun(text: string, style: Style) returns (placed: nat)
      requires Valid()
      modifies this
      ensures Valid() && (Value(), placed) == G.WriteRun(old(Value()), text, style)
    {
      if insertMode || cursor.wrapPending {
        return 0;
      }
      var row, col := cursor.row, cursor.col;
      var n := Min(|text|, cols - (col + 1));
      if n == 0 {
        return 0;
      }
      var filled := FillRun(rows[row], col, text[..n], style);
      Edit(row, filled.0, filled.1);
      cursor := cursor.(col := col + n);
      placed := n;
    }

    method MarkUnderline(color: Color, width: nat)
      requires Valid()
      modifies this
      ensures Valid() && Value() == UnderlineCell(old(Value()), color, width)
    {
      var col := Saturate((if cursor.wrapPending then cols else cursor.col) - width);
      Edit(cursor.row, SetUnderline(rows[cursor.row], col, color), true);
    }

    method MarkLink(link: Option<nat>, width: nat)
      requires Valid()
      modifies this
      ensures Valid() && Value() == LinkCell(old(Value()), link, width)
    {
      var col := Saturate((if cursor.wrapPending then cols else cursor.col) - width);
      Edit(cursor.row, SetLink(rows[cursor.row], col, link), true);
    }

    method PlaceImageRow(place: Placement, pen: Style) returns (width: nat)
      requires Valid()
      modifies this
      ensures Valid() && Value() == G.PlaceImageRow(old(Value()), place, pen)
      ensures width == Min(place.cols, old(cols - cursor.col))
    {
      var row, start := cursor.row, cursor.col;
      width := Min(place.cols, cols - start);
      var r := rows[row];
      var i := 0;
      while i < width
        invariant 0 <= i <= width
        invariant PlaceSpan(r, start, i, width, place, pen) == PlaceSpan(rows[row], start, 0, width, place, pen)
      {
        r := PlaceImage(r, start + i, place.(cellCol := i), pen);
        i := i + 1;
      }
      Edit(row, r, true);
    }

    // ----- erasing -----

    method EraseLine(how: Erase, pen: Style)
      requires Valid()
      modifies this
      ensures Valid() && Value() == G.EraseLine(old(Value()), how, pen)
    {
      var row, col := cursor.row, cursor.col;
      var style := Erased(pen);
      var erased :=
        match how
        case ToEnd => Fill(rows[row], col, cols, style)
        case ToStart => Fill(rows[row], 0, col + 1, style)
        case Everything => EraseAll(rows[row], style);
      Edit(row, erased.0, erased.1);
    }

    method ClearRows(from: nat, to: nat, pen: Style)
      requires Valid() && to <= |rows|
      modifies this
      ensures Valid() && Value() == G.ClearRows(old(Value()), from, to, pen)
    {
      ClearSpan(from, to, Erased(pen));
      if from < to {
        TouchSpan(from, to - 1);
      }
    }

    method LastUsedRow() returns (i: nat)
      requires rows != []
      ensures i == LastText(rows)
    {
      i := |rows| - 1;
      assert rows[..|rows|] == rows;
      while i > 0 && !HasText(rows[i])
        invariant 0 <= i < |rows|
        invariant LastText(rows) == LastText(rows[..i + 1])
      {
        assert rows[..i + 1][..i] == rows[..i];
        i := i - 1;
      }
    }

    method EraseDisplay(how: Erase, pen: Style) returns (ev: Evicted)
      requires Valid()
      modifies this
      ensures Valid() && (Value(), ev) == G.EraseDisplay(old(Value()), how, pen)
    {
      ev := [];
      match how
      case ToEnd =>
        EraseLine(ToEnd, pen);
        ClearRows(cursor.row + 1, |rows|, pen);
      case ToStart =>
        ClearRows(0, cursor.row, pen);
        EraseLine(ToStart, pen);
      case Everything =>
        ev := EraseScreen(pen);
    }

    /** Erase the whole screen, whose text goes to history rather than being lost. */
    method EraseScreen(pen: Style) returns (ev: Evicted)
      requires Valid()
      modifies this
      ensures Valid() && (Value(), ev) == G.EraseDisplay(old(Value()), Everything, pen)
    {
      ev := [];
      if Archives() && exists i :: 0 <= i < |rows| && HasText(rows[i]) {
        var last := LastUsedRow();
        ev := DepartAll(rows[..last + 1]);
      }
      ClearRows(0, |rows|, pen);
      carried := 0;
    }

    // ----- resizing -----

    method Used() returns (n: nat)
      requires Valid()
      ensures n == G.Used(Value())
    {
      var last := LastUsedRow();
      n := Max(last, cursor.row) + 1;
    }

    method Resize(height: nat, width: nat, mode: Mode) returns (ev: Evicted)
      requires Valid()
      modifies this
      ensures Valid() && (Value(), ev) == R.Resize(old(Value()), height, width, mode)
    {
      var h, w := AtLeastOne(height), AtLeastOne(width);
      if mode == ToRewrap && w != cols && Archives() {
        ev := Rewrap(h, w);
        return;
      }
      ev := Clamp(h, w);
    }

    method ResizeEach(width: nat)
      modifies this`rows
      ensures |rows| == |old(rows)|
      ensures forall j :: 0 <= j < |rows| ==> rows[j] == ResizeRow(old(rows)[j], width, PLAIN)
    {
      var i := 0;
      while i < |rows|
        invariant 0 <= i <= |rows| == |old(rows)|
        invariant forall j :: 0 <= j < |rows| ==>
                    rows[j] == if j < i then ResizeRow(old(rows)[j], width, PLAIN) else old(rows)[j]
      {
        rows := rows[i := ResizeRow(rows[i], width, PLAIN)];
        i := i + 1;
      }
    }

    method ChangeColumns(width: nat)
      requires Valid() && width >= 1
      modifies this`rows, this`cols, this`tabs
      ensures Value() == ChangeWidth(old(Value()), width)
    {
      if width != cols {
        cols, tabs := width, DefaultTabs(width);
        ResizeEach(width);
      }
      assert rows == ChangeWidth(old(Value()), width).rows;
    }

    /** Take the height, blank rows below the content going first and then the top ones. */
    method TakeHeight(height: nat) returns (shed: seq<Row>)
      requires height >= 1 && |rows| > cursor.row
      modifies this`rows
      ensures HeightTaken(old(rows), cursor.row, height, cols, rows, shed)
    {
      if height < |rows| {
        var excess := |rows| - height;
        var last := LastUsedRow();
        var spare := Min(|rows| - (Max(last, cursor.row) + 1), excess);
        shed := rows[..excess - spare];
        rows := rows[..|rows| - spare][excess - spare..];
      } else {
        shed := [];
        rows := rows + BlankRows(height - |rows|, cols);
      }
    }

    /** The bookkeeping after rows left the top for a new height. */
    method Rebase(ev: Evicted, height: nat)
      requires height >= 1 && cols >= 1
      modifies this`carried, this`cursor, this`dirty, this`region
      ensures Value() == Rebased(old(Value()), ev, height)
    {
      Carry(ev);
      cursor := cursor.(row := Min(Saturate(cursor.row - |ev|), height - 1), col := Min(cursor.col, cols - 1));
      dirty := All(height, true);
      region := FullRegion(height);
    }

    method Shorten(height: nat) returns (ev: Evicted)
      requires height >= 1 && cols >= 1 && |tabs| == cols && cursor.row < |rows|
      modifies this`rows, this`carried, this`cursor, this`dirty, this`region
      ensures (Value(), ev) == CutHeight(old(Value()), height)
    {
      var shed := TakeHeight(height);
      CutHeightIs(old(Value()), height, rows, shed);
      ev := DepartAll(shed);
      Rebase(ev, height);
    }

    method Clamp(height: nat, width: nat) returns (ev: Evicted)
      requires Valid() && height >= 1 && width >= 1
      modifies this
      ensures Valid() && (Value(), ev) == ClampResize(old(Value()), height, width)
    {
      ChangeColumns(width);
      ev := Shorten(height);
    }

    /** The lines on the grid, and the line and offset the cursor stands at. */
    method Gather() returns (lines: seq<Logical>, cursorLine: nat, cursorOffset: nat)
      requires Valid()
      ensures lines == GridLines(Value())
      ensures (cursorLine, cursorOffset) == LinePos(rows, cursor.row, cursor.col, cursor.wrapPending)
    {
      var keep := Used();
      lines, cursorLine, cursorOffset :=
        AssembleLines(rows[..keep], cursor.row, cursor.col, cursor.wrapPending);
      AssemblePrefix(rows, keep, keep);
      LinePosPrefix(rows, cursor.row, cursor.col, cursor.wrapPending, keep);
      GridLinesIs(Value(), lines, cursorLine, cursorOffset);
      if cursorLine < |lines| {
        lines := lines[cursorLine := PadLine(lines[cursorLine], cursorOffset)];
      }
    }

    method Rewrap(height: nat, width: nat) returns (ev: Evicted)
      requires Valid() && height >= 1 && width >= 1
      modifies this
      ensures Valid() && (Value(), ev) == R.Rewrap(old(Value()), height, width)
    {
      var lines, cursorLine, cursorOffset := Gather();
      var handed, head;
      lines, head, cursorLine, cursorOffset, handed :=
        RealignSeam(lines, carried * cols, width, cursorLine, cursorOffset);
      var flow, placed := Rechunk(lines, width, cursorLine, cursorOffset);
      ev := Relay(flow, placed, head, height, width);
      ev := handed + ev;
    }

    /** Take the re-cut rows as the grid, the ones that do not fit leaving the top. */
    method Relay(flow: seq<Row>, placed: Cursor, head: nat, height: nat, width: nat) returns (ev: Evicted)
      requires height >= 1 && width >= 1 && placed.col < width
      modifies this
      ensures Valid() && (Value(), ev) == Refill(old(Value()), flow, head, placed, height, width)
    {
      var overflow := Saturate(|flow| - height);
      ev := DepartAll(flow[..overflow]);
      carried := head / width;
      Carry(ev);
      rows := ResizeRows(flow[overflow..], height, width);
      cols := width;
      tabs := DefaultTabs(width);
      cursor := placed.(row := Min(Saturate(placed.row - overflow), height - 1));
      dirty := All(height, true);
      region := FullRegion(height);
    }
  }
}
