/** The addressable grid (src/emu/screen.rs) as a value, and each of its operations as a
    function to the next grid and the rows that departed off its top. `ScreenObject.Screen` holds
    the same operations as methods over fields updated in place.

    Left as counters nobody here reads: `touches` and the saved cursor. */
module Grid {
  import opened Cells

  datatype Cursor = Cursor(row: nat, col: nat, wrapPending: bool)

  datatype Region = Region(top: nat, bottom: nat)

  datatype Grid = Grid(
    rows: seq<Row>,
    cols: nat,
    cursor: Cursor,
    region: Region,
    dirty: seq<bool>,
    tabs: seq<bool>,
    carried: nat,
    autowrap: bool,
    insertMode: bool,
    history: bool)

  datatype MarkAt = MarkAt(at: nat, id: nat)

  /** A row on its way out: the cells and attachments its runs are built from. */
  datatype Departed = Departed(cells: seq<Cell>, extras: seq<Entry>, wrapped: bool, marks: seq<MarkAt>)

  type Evicted = seq<Departed>

  function MarksOf(es: seq<Entry>): seq<MarkAt> {
    if es == [] then []
    else if es[0].extra.Mark? then [MarkAt(es[0].at, es[0].extra.id)] + MarksOf(es[1..])
    else MarksOf(es[1..])
  }

  function Depart(row: Row): Departed {
    var n := Min(LineLen(row), |row.cells|);
    Departed(row.cells[..n], CutOff(Drawn(row.extras), n), row.wrapped, MarksOf(row.extras))
  }

  function DepartAll(rows: seq<Row>): Evicted {
    seq(|rows|, i requires 0 <= i < |rows| => Depart(rows[i]))
  }

  /** The part of well-formedness every index below relies on. */
  predicate Shape(g: Grid) {
    && |g.rows| >= 1 && g.cols >= 1
    && |g.dirty| == |g.rows|
    && |g.tabs| == g.cols
    && g.region.top <= g.region.bottom < |g.rows|
    && g.cursor.row < |g.rows|
    && g.cursor.col < g.cols
  }

  ghost predicate RowsOk(rows: seq<Row>, cols: nat) {
    forall i :: 0 <= i < |rows| ==> RowOk(rows[i], cols)
  }

  ghost predicate Wf(g: Grid) {
    Shape(g) && RowsOk(g.rows, g.cols)
  }

  function FullRegion(rows: nat): Region {
    Region(0, if rows == 0 then 0 else rows - 1)
  }

  function DefaultTabs(cols: nat): (t: seq<bool>)
    ensures |t| == cols
  {
    seq(cols, i => i % 8 == 0 && i != 0)
  }

  function All(n: nat, value: bool): (r: seq<bool>)
    ensures |r| == n
  {
    seq(n, _ => value)
  }

  function AtLeastOne(n: nat): (r: nat)
    ensures r >= 1
  {
    if n == 0 then 1 else n
  }

  function NewGrid(rows: nat, cols: nat): (g: Grid)
    ensures Shape(g)
  {
    var h, w := AtLeastOne(rows), AtLeastOne(cols);
    Grid(seq(h, _ => NewRow(w)), w, Cursor(0, 0, false), FullRegion(h), All(h, true),
         DefaultTabs(w), 0, true, false, true)
  }

  function Scratch(rows: nat, cols: nat): (g: Grid)
    ensures Shape(g)
  {
    NewGrid(rows, cols).(history := false)
  }

  // ----- damage -----

  function EditRow(g: Grid, index: nat, edited: (Row, bool)): (r: Grid)
    requires Shape(g) && index < |g.rows|
    ensures Shape(r)
  {
    g.(rows := g.rows[index := edited.0],
       dirty := if edited.1 then g.dirty[index := true] else g.dirty)
  }

  function TouchRow(g: Grid, index: nat, row: Row): (r: Grid)
    requires Shape(g) && index < |g.rows|
    ensures Shape(r)
  {
    EditRow(g, index, (row, true))
  }

  function TouchRange(dirty: seq<bool>, first: nat, last: nat): (r: seq<bool>)
    ensures |r| == |dirty|
  {
    seq(|dirty|, i requires 0 <= i < |dirty| => dirty[i] || first <= i <= last)
  }

  function TouchAll(g: Grid): (r: Grid)
    requires Shape(g)
    ensures Shape(r)
  {
    g.(dirty := All(|g.rows|, true))
  }

  function DirtyFrom(dirty: seq<bool>, from: nat): seq<nat>
    requires from <= |dirty|
    decreases |dirty| - from
  {
    if from == |dirty| then []
    else (if dirty[from] then [from] else []) + DirtyFrom(dirty, from + 1)
  }

  /** The rows changed since the last drain, and the grid with every flag down. */
  function DrainDamage(g: Grid): (r: (Grid, seq<nat>))
    requires Shape(g)
    ensures Shape(r.0)
  {
    (g.(dirty := All(|g.rows|, false)), DirtyFrom(g.dirty, 0))
  }

  // ----- the cursor and the modes -----

  function SettleCursor(g: Grid, end: nat): (r: Grid)
    requires Shape(g)
    ensures Shape(r)
  {
    if end >= g.cols then
      g.(cursor := Cursor(g.cursor.row, g.cols - 1, g.autowrap))
    else
      g.(cursor := Cursor(g.cursor.row, end, false))
  }

  function CarriageReturn(g: Grid): (r: Grid)
    requires Shape(g)
    ensures Shape(r)
  {
    g.(cursor := Cursor(g.cursor.row, 0, false))
  }

  function Goto(g: Grid, row: nat, col: nat): (r: Grid)
    requires Shape(g)
    ensures Shape(r)
  {
    g.(cursor := Cursor(Min(row, |g.rows| - 1), Min(col, g.cols - 1), false))
  }

  function Clamp(x: int, lo: nat, hi: nat): (r: nat)
    requires lo <= hi
    ensures lo <= r <= hi
  {
    if x < lo then lo else if x > hi then hi else x
  }

  function Saturate(x: int): nat {
    if x < 0 then 0 else x
  }

  function MoveBy(g: Grid, rows: int, cols: int): (r: Grid)
    requires Shape(g)
    ensures Shape(r)
  {
    var row := Saturate(g.cursor.row + rows);
    var col := Saturate(g.cursor.col + cols);
    Goto(g, if g.region.top <= g.cursor.row <= g.region.bottom
            then Clamp(row, g.region.top, g.region.bottom) else row, col)
  }

  function Backspace(g: Grid): (r: Grid)
    requires Shape(g)
    ensures Shape(r)
  {
    g.(cursor := Cursor(g.cursor.row, Saturate(g.cursor.col - 1), false))
  }

  function SetAutowrap(g: Grid, on: bool): (r: Grid)
    requires Shape(g)
    ensures Shape(r)
  {
    g.(autowrap := on,
       cursor := if on then g.cursor else g.cursor.(wrapPending := false))
  }

  function SetInsertMode(g: Grid, on: bool): (r: Grid)
    requires Shape(g)
    ensures Shape(r)
  {
    g.(insertMode := on)
  }

  function SetRegion(g: Grid, top: nat, bottom: nat): (r: Grid)
    requires Shape(g)
    ensures Shape(r)
  {
    var last := Min(bottom, |g.rows| - 1);
    if top < last then Goto(g.(region := Region(top, last)), 0, 0) else g
  }

  function ResetRegion(g: Grid): (r: Grid)
    requires Shape(g)
    ensures Shape(r)
  {
    g.(region := FullRegion(|g.rows|))
  }

  function ForgetCarry(g: Grid): (r: Grid)
    requires Shape(g)
    ensures Shape(r)
  {
    g.(carried := 0)
  }

  // ----- tab stops -----

  function NextStop(tabs: seq<bool>, from: nat): (i: nat)
    requires |tabs| >= 1
    ensures i < |tabs|
    decreases |tabs| - from
  {
    if from >= |tabs| then |tabs| - 1
    else if tabs[from] then from
    else NextStop(tabs, from + 1)
  }

  function PrevStop(tabs: seq<bool>, before: nat): (i: nat)
    requires before <= |tabs|
    ensures i <= before
  {
    if before == 0 then 0
    else if tabs[before - 1] then before - 1
    else PrevStop(tabs, before - 1)
  }

  function TabForward(tabs: seq<bool>, col: nat, count: nat): (i: nat)
    requires col < |tabs|
    ensures i < |tabs|
    decreases count
  {
    if count == 0 then col else TabForward(tabs, NextStop(tabs, col + 1), count - 1)
  }

  function TabBack(tabs: seq<bool>, col: nat, count: nat): (i: nat)
    requires col < |tabs|
    ensures i < |tabs|
    decreases count
  {
    if count == 0 then col else TabBack(tabs, PrevStop(tabs, col), count - 1)
  }

  function Tab(g: Grid, count: nat): (r: Grid)
    requires Shape(g)
    ensures Shape(r)
  {
    g.(cursor := Cursor(g.cursor.row, TabForward(g.tabs, g.cursor.col, Min(count, g.cols)), false))
  }

  function BackTab(g: Grid, count: nat): (r: Grid)
    requires Shape(g)
    ensures Shape(r)
  {
    g.(cursor := Cursor(g.cursor.row, TabBack(g.tabs, g.cursor.col, Min(count, g.cols)), false))
  }

  function SetTab(g: Grid): (r: Grid)
    requires Shape(g)
    ensures Shape(r)
  {
    g.(tabs := g.tabs[g.cursor.col := true])
  }

  function ClearTabs(g: Grid, all: bool): (r: Grid)
    requires Shape(g)
    ensures Shape(r)
  {
    g.(tabs := if all then All(g.cols, false) else g.tabs[g.cursor.col := false])
  }

  // ----- rows leaving the top -----

  /** Rows at the end of `ev` whose line goes on in the next one. */
  function TrailingWrapped(ev: Evicted): (n: nat)
    ensures n <= |ev|
  {
    if ev == [] || !ev[|ev| - 1].wrapped then 0 else 1 + TrailingWrapped(ev[..|ev| - 1])
  }

  function CarryOf(carried: nat, ev: Evicted): nat {
    if ev == [] then carried
    else if !ev[|ev| - 1].wrapped then 0
    else if TrailingWrapped(ev) == |ev| then carried + |ev|
    else TrailingWrapped(ev)
  }

  predicate Archives(g: Grid) {
    g.history && g.region == FullRegion(|g.rows|)
  }

  /** `top..=bottom` rotated left by `n`, the rows that wrapped around blanked. */
  function RowsUp(rows: seq<Row>, top: nat, bottom: nat, n: nat, style: Style): (r: seq<Row>)
    requires top <= bottom < |rows| && n <= bottom + 1 - top
    ensures |r| == |rows|
  {
    seq(|rows|, i requires 0 <= i < |rows| =>
          if i < top || i > bottom then rows[i]
          else if i + n <= bottom then rows[i + n]
          else ClearRow(rows[i + n - (bottom + 1 - top)], style))
  }

  function RowsDown(rows: seq<Row>, top: nat, bottom: nat, n: nat, style: Style): (r: seq<Row>)
    requires top <= bottom < |rows| && n <= bottom + 1 - top
    ensures |r| == |rows|
  {
    seq(|rows|, i requires 0 <= i < |rows| =>
          if i < top || i > bottom then rows[i]
          else if i >= top + n then rows[i - n]
          else ClearRow(rows[i - n + (bottom + 1 - top)], style))
  }

  function ScrollUp(g: Grid, n: nat, pen: Style): (r: (Grid, Evicted))
    requires Shape(g)
    ensures Shape(r.0)
  {
    var Region(top, bottom) := g.region;
    var m: nat := Min(n, bottom + 1 - top);
    if m == 0 then (g, [])
    else
      var ev := if Archives(g) then DepartAll(g.rows[top..top + m]) else [];
      (g.(rows := RowsUp(g.rows, top, bottom, m, Erased(pen)),
          dirty := TouchRange(g.dirty, top, bottom),
          carried := CarryOf(g.carried, ev)),
       ev)
  }

  function ScrollDown(g: Grid, n: nat, pen: Style): (r: Grid)
    requires Shape(g)
    ensures Shape(r)
  {
    var Region(top, bottom) := g.region;
    var m: nat := Min(n, bottom + 1 - top);
    if m == 0 then g
    else
      g.(rows := RowsDown(g.rows, top, bottom, m, Erased(pen)),
         dirty := TouchRange(g.dirty, top, bottom))
  }

  function Linefeed(g: Grid, pen: Style): (r: (Grid, Evicted))
    requires Shape(g)
    ensures Shape(r.0)
  {
    var h := g.(cursor := g.cursor.(wrapPending := false));
    if h.cursor.row == h.region.bottom then ScrollUp(h, 1, pen)
    else if h.cursor.row + 1 < |h.rows| then (h.(cursor := h.cursor.(row := h.cursor.row + 1)), [])
    else (h, [])
  }

  function ReverseIndex(g: Grid, pen: Style): (r: Grid)
    requires Shape(g)
    ensures Shape(r)
  {
    var h := g.(cursor := g.cursor.(wrapPending := false));
    if h.cursor.row == h.region.top then ScrollDown(h, 1, pen)
    else if h.cursor.row == 0 then h
    else h.(cursor := h.cursor.(row := h.cursor.row - 1))
  }

  function InsertLines(g: Grid, n: nat, pen: Style): (r: Grid)
    requires Shape(g)
    ensures Shape(r)
  {
    if !(g.region.top <= g.cursor.row <= g.region.bottom) then g
    else ScrollDown(g.(region := Region(g.cursor.row, g.region.bottom)), n, pen).(region := g.region)
  }

  function DeleteLines(g: Grid, n: nat, pen: Style): (r: Grid)
    requires Shape(g)
    ensures Shape(r)
  {
    if !(g.region.top <= g.cursor.row <= g.region.bottom) then g
    else
      ScrollUp(g.(region := Region(g.cursor.row, g.region.bottom)), n, pen).0
      .(region := g.region, carried := g.carried)
  }

  function BlankRows(n: nat, cols: nat): (r: seq<Row>)
    ensures |r| == n
  {
    seq(n, _ => NewRow(cols))
  }

  function RemoveRows(g: Grid, first: nat, count: nat): (r: Grid)
    requires Shape(g)
    ensures Shape(r)
  {
    var height := |g.rows|;
    var from: nat := Min(first, height);
    var n: nat := Min(count, height - from);
    if n == 0 then g
    else
      var row := g.cursor.row;
      g.(rows := g.rows[..from] + g.rows[from + n..] + BlankRows(n, g.cols),
         carried := if from == 0 then 0 else g.carried,
         cursor := Cursor(if row >= from + n then row - n else if row >= from then from else row,
                          g.cursor.col, false),
         dirty := TouchRange(g.dirty, from, height - 1))
  }

  // ----- writing characters -----

  /** The same cell written on each of the columns `lo..hi`, and whether any write changed. */
  function SetSpan(row: Row, lo: nat, hi: nat, cell: Cell): (Row, bool)
    decreases hi - lo
  {
    if lo >= hi then (row, false)
    else
      var (first, changed) := Set(row, lo, cell);
      var (all, more) := SetSpan(first, lo + 1, hi, cell);
      (all, changed || more)
  }

  function PlaceCells(row: Row, col: nat, ch: char, width: nat, style: Style, insertMode: bool): (Row, bool) {
    var shifted := if insertMode then InsertBlank(row, col, width, style) else row;
    var (led, changed) := Set(shifted, col, Cell(ch, style));
    var (all, more) := SetSpan(led, col + 1, col + width, Cell(CONTINUATION, style));
    (all, insertMode || changed || more)
  }

  /** The margin decision of `place`: where the character goes, and what scrolled to get there. */
  function MakeRoom(g: Grid, width: nat, style: Style): (r: (Grid, Evicted))
    requires Shape(g) && width >= 1
    ensures Shape(r.0)
  {
    if !(g.cursor.wrapPending || g.cursor.col + width > g.cols) then (g, [])
    else if g.autowrap then
      var row := g.rows[g.cursor.row];
      var wrapped := EditRow(g, g.cursor.row, (row.(wrapped := true), !row.wrapped));
      Linefeed(wrapped.(cursor := wrapped.cursor.(col := 0)), style)
    else (g.(cursor := g.cursor.(col := Saturate(g.cols - width))), [])
  }

  /** Every caller hands over at least one column: a zero-width character joins instead. */
  function Place(g: Grid, ch: char, width: nat, style: Style): (r: (Grid, Evicted))
    requires Shape(g) && width >= 1
    ensures Shape(r.0)
  {
    var (h, ev) := MakeRoom(g, width, style);
    var (row, col) := (h.cursor.row, h.cursor.col);
    (SettleCursor(EditRow(h, row, PlaceCells(h.rows[row], col, ch, width, style, h.insertMode)),
                  col + width),
     ev)
  }

  /** The lead column of the cell the cursor last wrote, which stood on `width` columns. */
  function LeadColumn(g: Grid, width: nat): nat {
    Saturate((if g.cursor.wrapPending then g.cols else g.cursor.col) - width)
  }

  /** Give the cell at `lead` on the cursor's row `after` columns where it had `before`. */
  function ResizeCell(g: Grid, lead: nat, before: nat, after: nat): (r: Grid)
    requires Shape(g)
    ensures Shape(r)
  {
    var row := g.rows[g.cursor.row];
    var style := if lead < |row.cells| then row.cells[lead].style else PLAIN;
    var cell := if after > before then Cell(CONTINUATION, style) else BlankCell(style);
    SettleCursor(
      EditRow(g, g.cursor.row, SetSpan(row, lead + Min(after, before), lead + Max(after, before), cell)),
      lead + after)
  }

  function Join(g: Grid, mark: char, before: nat, after: nat): (r: (Grid, nat))
    requires Shape(g)
    ensures Shape(r.0)
  {
    var row := g.cursor.row;
    var lead := LeadColumn(g, AtLeastOne(before));
    var h := TouchRow(g, row, Combine(g.rows[row], lead, mark));
    if after == before || before == 0 then (h, before)
    else if after > before && lead + after > g.cols then (h, before)
    else (ResizeCell(h, lead, before, after), after)
  }

  function JoinAll(g: Grid, marks: string, width: nat): (r: Grid)
    requires Shape(g)
    ensures Shape(r)
    decreases |marks|
  {
    if marks == [] then g else JoinAll(Join(g, marks[0], width, width).0, marks[1..], width)
  }

  function WriteCluster(g: Grid, text: string, width: nat, style: Style): (r: (Grid, Evicted))
    requires Shape(g)
    ensures Shape(r.0)
  {
    if text == [] then (g, [])
    else
      var (h, ev) := if width == 0 then (Join(g, text[0], 0, 0).0, []) else Place(g, text[0], width, style);
      (JoinAll(h, text[1..], width), ev)
  }

  /** A run of one-column characters up to, and never onto, the last column. */
  function WriteRun(g: Grid, text: string, style: Style): (r: (Grid, nat))
    requires Shape(g)
    ensures Shape(r.0)
    ensures r.1 <= |text|
  {
    if g.insertMode || g.cursor.wrapPending then (g, 0)
    else
      var (row, col) := (g.cursor.row, g.cursor.col);
      var n := Min(|text|, g.cols - (col + 1));
      if n == 0 then (g, 0)
      else
        var h := EditRow(g, row, FillRun(g.rows[row], col, text[..n], style));
        (h.(cursor := h.cursor.(col := col + n)), n)
  }

  function UnderlineCell(g: Grid, color: Color, width: nat): (r: Grid)
    requires Shape(g)
    ensures Shape(r)
  {
    TouchRow(g, g.cursor.row, SetUnderline(g.rows[g.cursor.row], LeadColumn(g, width), color))
  }

  function LinkCell(g: Grid, link: Option<nat>, width: nat): (r: Grid)
    requires Shape(g)
    ensures Shape(r)
  {
    TouchRow(g, g.cursor.row, SetLink(g.rows[g.cursor.row], LeadColumn(g, width), link))
  }

  function PlaceSpan(row: Row, start: nat, i: nat, width: nat, place: Placement, style: Style): Row
    decreases width - i
  {
    if i >= width then row
    else PlaceSpan(PlaceImage(row, start + i, place.(cellCol := i), style), start, i + 1, width, place, style)
  }

  function PlaceImageRow(g: Grid, place: Placement, pen: Style): (r: Grid)
    requires Shape(g)
    ensures Shape(r)
  {
    var (row, start) := (g.cursor.row, g.cursor.col);
    TouchRow(g, row, PlaceSpan(g.rows[row], start, 0, Min(place.cols, g.cols - start), place, pen))
  }

  /** Put a semantic mark on a cell. No damage: nothing drawn changes. */
  function MarkCell(g: Grid, row: nat, col: nat, id: nat): (r: Grid)
    requires Shape(g)
    ensures Shape(r)
  {
    if row < |g.rows| then g.(rows := g.rows[row := MarkRow(g.rows[row], col, id)]) else g
  }

  // ----- erasing -----

  datatype Erase = ToEnd | ToStart | Everything

  function EraseLine(g: Grid, how: Erase, pen: Style): (r: Grid)
    requires Shape(g)
    ensures Shape(r)
  {
    var (row, col) := (g.cursor.row, g.cursor.col);
    var style := Erased(pen);
    EditRow(g, row,
      match how
      case ToEnd => Fill(g.rows[row], col, g.cols, style)
      case ToStart => Fill(g.rows[row], 0, col + 1, style)
      case Everything => EraseAll(g.rows[row], style))
  }

  function ClearRows(g: Grid, from: nat, to: nat, pen: Style): (r: Grid)
    requires Shape(g) && to <= |g.rows|
    ensures Shape(r)
  {
    g.(rows := seq(|g.rows|, i requires 0 <= i < |g.rows| =>
                     if from <= i < to then ClearRow(g.rows[i], Erased(pen)) else g.rows[i]),
       dirty := if from < to then TouchRange(g.dirty, from, to - 1) else g.dirty)
  }

  function LastText(rows: seq<Row>): (i: nat)
    ensures rows != [] ==> i < |rows|
  {
    if |rows| <= 1 || HasText(rows[|rows| - 1]) then Saturate(|rows| - 1)
    else LastText(rows[..|rows| - 1])
  }

  predicate AnyText(rows: seq<Row>) {
    exists i :: 0 <= i < |rows| && HasText(rows[i])
  }

  function EraseDisplay(g: Grid, how: Erase, pen: Style): (r: (Grid, Evicted))
    requires Shape(g)
    ensures Shape(r.0)
  {
    match how
    case ToEnd => (ClearRows(EraseLine(g, ToEnd, pen), g.cursor.row + 1, |g.rows|, pen), [])
    case ToStart => (EraseLine(ClearRows(g, 0, g.cursor.row, pen), ToStart, pen), [])
    case Everything =>
      var ev := if Archives(g) && AnyText(g.rows) then DepartAll(g.rows[..LastText(g.rows) + 1]) else [];
      (ClearRows(g, 0, |g.rows|, pen).(carried := 0), ev)
  }

  function EraseChars(g: Grid, n: nat, pen: Style): (r: Grid)
    requires Shape(g)
    ensures Shape(r)
  {
    var (row, col) := (g.cursor.row, g.cursor.col);
    EditRow(g, row, Fill(g.rows[row], col, Min(col + n, g.cols), Erased(pen)))
  }

  function InsertChars(g: Grid, n: nat, pen: Style): (r: Grid)
    requires Shape(g)
    ensures Shape(r)
  {
    var (row, col) := (g.cursor.row, g.cursor.col);
    TouchRow(g, row, InsertBlank(g.rows[row], col, n, Erased(pen)))
  }

  function DeleteChars(g: Grid, n: nat, pen: Style): (r: Grid)
    requires Shape(g)
    ensures Shape(r)
  {
    var (row, col) := (g.cursor.row, g.cursor.col);
    TouchRow(g, row, DeleteCells(g.rows[row], col, n, Erased(pen)))
  }

  // ----- resizing without a rewrap -----

  /** Rows down to the last one holding text, and never fewer than the cursor's own. */
  function Used(g: Grid): (n: nat)
    requires Shape(g)
    ensures 1 <= n <= |g.rows| && n > g.cursor.row
  {
    Max(LastText(g.rows), g.cursor.row) + 1
  }

  function ChangeWidth(g: Grid, cols: nat): (r: Grid)
    requires Shape(g) && cols >= 1
    ensures |r.rows| == |g.rows| && r.cols == cols && |r.tabs| == cols && r.cursor == g.cursor
  {
    if cols == g.cols then g
    else
      g.(cols := cols, tabs := DefaultTabs(cols),
         rows := seq(|g.rows|, i requires 0 <= i < |g.rows| => ResizeRow(g.rows[i], cols, PLAIN)))
  }

  /** How many rows a change to `rows` rows sheds off the top: blank ones below go first. */
  function Shed(height: nat, used: nat, rows: nat): (n: nat)
    requires used <= height
    ensures n <= height && (rows >= 1 && height >= 1 ==> n < height)
  {
    if rows >= height then 0 else height - rows - Min(height - used, height - rows)
  }

  /** The bookkeeping once rows have left the top for a new height. */
  function Rebased(w: Grid, ev: Evicted, height: nat): Grid
    requires height >= 1 && w.cols >= 1
  {
    w.(carried := CarryOf(w.carried, ev),
       cursor := w.cursor.(row := Min(Saturate(w.cursor.row - |ev|), height - 1),
                           col := Min(w.cursor.col, w.cols - 1)),
       dirty := All(height, true), region := FullRegion(height))
  }

  /** Take a height, blank rows below the content going first and then the top ones. */
  function CutHeight(w: Grid, rows: nat): (r: (Grid, Evicted))
    requires rows >= 1 && w.cols >= 1 && |w.tabs| == w.cols && w.cursor.row < |w.rows|
    ensures Shape(r.0)
  {
    var shed := Shed(|w.rows|, Max(LastText(w.rows), w.cursor.row) + 1, rows);
    var end := Min(|w.rows|, shed + rows);
    var ev := DepartAll(w.rows[..shed]);
    (Rebased(w.(rows := w.rows[shed..end] + BlankRows(rows - (end - shed), w.cols)), ev, rows), ev)
  }

  function ClampResize(g: Grid, rows: nat, cols: nat): (r: (Grid, Evicted))
    requires Shape(g) && rows >= 1 && cols >= 1
    ensures Shape(r.0)
  {
    CutHeight(ChangeWidth(g, cols), rows)
  }
}
