/** The value of one terminal row (src/emu/cell.rs): its cells, the table of attachments that
    are too rare to live in a cell, and whether the line continues on the row below.

    Every mutator of the original is a function here, from the old row to the new one and,
    where the original answers it, whether the row changed. `RowBuffer` holds the same
    mutators as loops over fields updated in place, proved against these functions. */
module Cells {

  datatype Option<+T> = None | Some(value: T)

  datatype Color = DefaultColor | Indexed(index: nat) | Rgb(red: nat, green: nat, blue: nat)

  /** `attrs` is the attribute bit set as a number; only the REVERSE bit is ever looked at. */
  datatype Style = Style(fg: Color, bg: Color, attrs: nat)

  const REVERSE: nat := 32
  const PLAIN: Style := Style(DefaultColor, DefaultColor, 0)

  /** The style an erase paints with: the background alone, unless the pen is reversed. */
  function Erased(style: Style): Style {
    if style.attrs / REVERSE % 2 == 1 then Style(style.fg, style.bg, REVERSE)
    else Style(DefaultColor, style.bg, 0)
  }

  datatype Cell = Cell(ch: char, style: Style)

  const CONTINUATION: char := '\0'
  const BLANK: char := ' '
  const DEFAULT_CELL: Cell := Cell(BLANK, PLAIN)

  function BlankCell(style: Style): Cell {
    Cell(BLANK, style)
  }

  predicate IsContinuation(cell: Cell) {
    cell.ch == CONTINUATION
  }

  datatype Placement = Placement(id: nat, cellRow: nat, cellCol: nat, cols: nat, rows: nat)

  datatype Extra =
    | Marks(text: string)
    | Underline(color: Color)
    | Image(place: Placement)
    | Link(link: nat)
    | Mark(id: nat)

  datatype Entry = Entry(at: nat, extra: Extra)

  /** Whether the attachment makes its cell content, as opposed to decorating a blank. */
  predicate IsContent(extra: Extra) {
    extra.Marks? || extra.Image?
  }

  /** No attachments at all is the empty sequence, which the original spells `None`. */
  datatype Row = Row(cells: seq<Cell>, extras: seq<Entry>, wrapped: bool)

  function NewRow(cols: nat): Row {
    Row(seq(cols, _ => DEFAULT_CELL), [], false)
  }

  ghost predicate Sorted(es: seq<Entry>) {
    forall i, j :: 0 <= i < j < |es| ==> es[i].at <= es[j].at
  }

  ghost predicate InRange(es: seq<Entry>, cols: nat) {
    forall e :: e in es ==> e.at < cols
  }

  /** A row of a grid `cols` wide: exactly that many cells, no attachment past them. */
  ghost predicate RowOk(row: Row, cols: nat) {
    && |row.cells| == cols
    && InRange(row.extras, cols)
  }

  // ----- the side table -----

  /** Binary search for the first entry past `col`, as `slice::partition_point`. */
  function PartitionPoint(es: seq<Entry>, col: nat, lo: nat, hi: nat): (at: nat)
    requires lo <= hi <= |es|
    ensures lo <= at <= hi
    decreases hi - lo
  {
    if lo == hi then lo
    else
      var mid := (lo + hi) / 2;
      if es[mid].at <= col then PartitionPoint(es, col, mid + 1, hi)
      else PartitionPoint(es, col, lo, mid)
  }

  function Insert(es: seq<Entry>, col: nat, extra: Extra): seq<Entry> {
    var at := PartitionPoint(es, col, 0, |es|);
    es[..at] + [Entry(col, extra)] + es[at..]
  }

  /** Drop the entries on columns `lo..hi`, sparing semantic marks when `keepMarks`. */
  function Prune(es: seq<Entry>, lo: nat, hi: nat, keepMarks: bool): seq<Entry> {
    if es == [] then []
    else
      var rest := Prune(es[1..], lo, hi, keepMarks);
      if lo <= es[0].at < hi && !(keepMarks && es[0].extra.Mark?) then rest else [es[0]] + rest
  }

  /** What a writer retires on one column. */
  function Retire(es: seq<Entry>, col: nat): seq<Entry> {
    Prune(es, col, col + 1, true)
  }

  /** Drop every entry at or past `cols`, semantic marks included. */
  function CutOff(es: seq<Entry>, cols: nat): seq<Entry> {
    if es == [] then []
    else
      var rest := CutOff(es[1..], cols);
      if es[0].at >= cols then rest else [es[0]] + rest
  }

  datatype Kind = KindUnderline | KindLink

  predicate OfKind(extra: Extra, kind: Kind) {
    match kind
    case KindUnderline => extra.Underline?
    case KindLink => extra.Link?
  }

  function PruneKind(es: seq<Entry>, col: nat, kind: Kind): seq<Entry> {
    if es == [] then []
    else
      var rest := PruneKind(es[1..], col, kind);
      if es[0].at == col && OfKind(es[0].extra, kind) then rest else [es[0]] + rest
  }

  /** Move every entry at or past `from` by `move` columns, dropping what leaves the row. */
  function Shift(es: seq<Entry>, from: nat, move: int, cols: nat): seq<Entry> {
    if es == [] then []
    else
      var rest := Shift(es[1..], from, move, cols);
      if es[0].at < from then [es[0]] + rest
      else if 0 <= es[0].at + move < cols then [es[0].(at := es[0].at + move)] + rest
      else rest
  }

  // ----- the row's writers -----

  function Attach(row: Row, col: nat, extra: Extra): Row {
    row.(extras := Insert(row.extras, col, extra))
  }

  function Set(row: Row, col: nat, cell: Cell): (Row, bool) {
    if col >= |row.cells| then (row, false)
    else
      var changed := row.extras != [] || row.cells[col] != cell;
      (row.(cells := row.cells[col := cell], extras := Retire(row.extras, col)), changed)
  }

  /** How many characters of a run starting at `col` the row has room for. */
  function RunRoom(row: Row, col: nat, text: string): (n: nat)
    ensures n <= |text|
    ensures col <= |row.cells| ==> col + n <= |row.cells|
  {
    if col >= |row.cells| then 0
    else if |text| <= |row.cells| - col then |text| else |row.cells| - col
  }

  predicate RunDiffers(row: Row, col: nat, text: string, style: Style) {
    exists i :: 0 <= i < RunRoom(row, col, text) && row.cells[col + i] != Cell(text[i], style)
  }

  function FillRun(row: Row, col: nat, text: string, style: Style): (Row, bool) {
    if col > |row.cells| then (row, false)
    else if row.extras == [] && !RunDiffers(row, col, text, style) then (row, false)
    else
      var n := RunRoom(row, col, text);
      (Row(seq(|row.cells|, i requires 0 <= i < |row.cells| =>
                 if col <= i < col + n then Cell(text[i - col], style) else row.cells[i]),
           Prune(row.extras, col, col + n, true),
           row.wrapped),
       true)
  }

  function CellsFilled(cells: seq<Cell>, lo: nat, hi: nat, cell: Cell): (r: seq<Cell>)
    ensures |r| == |cells|
    ensures forall i :: 0 <= i < |r| ==> r[i] == if lo <= i < hi then cell else cells[i]
  {
    seq(|cells|, i requires 0 <= i < |cells| => if lo <= i < hi then cell else cells[i])
  }

  function Min(a: int, b: int): int {
    if a <= b then a else b
  }

  function Max(a: int, b: int): int {
    if a <= b then b else a
  }

  /** Blank the columns `lo..hi` that the row has. */
  function Fill(row: Row, lo: nat, hi: nat, style: Style): (Row, bool) {
    var end := Min(hi, |row.cells|);
    if lo >= end then (row, false)
    else
      var changed := row.extras != []
        || exists i :: lo <= i < end && row.cells[i] != BlankCell(style);
      (Row(CellsFilled(row.cells, lo, end, BlankCell(style)),
           Prune(row.extras, lo, end, true),
           row.wrapped),
       changed)
  }

  function ClearRow(row: Row, style: Style): Row {
    Row(seq(|row.cells|, _ => BlankCell(style)), [], false)
  }

  function EraseAll(row: Row, style: Style): (Row, bool) {
    var changed := row.extras != [] || row.wrapped
      || exists i :: 0 <= i < |row.cells| && row.cells[i] != BlankCell(style);
    (Row(seq(|row.cells|, _ => BlankCell(style)),
         Prune(row.extras, 0, |row.cells|, true),
         false),
     changed)
  }

  function ResizeCells(cells: seq<Cell>, cols: nat, cell: Cell): (r: seq<Cell>)
    ensures |r| == cols
  {
    seq(cols, i requires 0 <= i < cols => if i < |cells| then cells[i] else cell)
  }

  function ResizeRow(row: Row, cols: nat, style: Style): Row {
    row.(cells := ResizeCells(row.cells, cols, BlankCell(style)), extras := CutOff(row.extras, cols))
  }

  function InsertBlank(row: Row, col: nat, count: nat, style: Style): Row {
    var cols := |row.cells|;
    if col >= cols then row
    else
      var n: nat := Min(count, cols - col);
      Row(seq(cols, i requires 0 <= i < cols =>
                if i < col then row.cells[i]
                else if i < col + n then BlankCell(style)
                else row.cells[i - n]),
          Shift(row.extras, col, n, cols),
          row.wrapped)
  }

  function DeleteCells(row: Row, col: nat, count: nat, style: Style): Row {
    var cols := |row.cells|;
    if col >= cols then row
    else
      var gone := Min(col + count, cols) - col;
      Row(seq(cols, i requires 0 <= i < cols =>
                if i < col then row.cells[i]
                else if i + gone < cols then row.cells[i + gone]
                else BlankCell(style)),
          Shift(Prune(row.extras, col, col + gone, true), col + gone, -gone, cols),
          row.wrapped)
  }

  function SetUnderline(row: Row, col: nat, color: Color): Row {
    var pruned := row.(extras := PruneKind(row.extras, col, KindUnderline));
    if color != DefaultColor && col < |row.cells| then Attach(pruned, col, Underline(color)) else pruned
  }

  function SetLink(row: Row, col: nat, link: Option<nat>): Row {
    var pruned := row.(extras := PruneKind(row.extras, col, KindLink));
    if link.Some? && col < |row.cells| then Attach(pruned, col, Link(link.value)) else pruned
  }

  function PlaceImage(row: Row, col: nat, place: Placement, style: Style): Row {
    if col >= |row.cells| then row
    else Attach(Set(row, col, BlankCell(style)).0, col, Image(place))
  }

  /** First entry of combining characters on `col`, or the length of the table. */
  function FindMarks(es: seq<Entry>, col: nat): (i: nat)
    ensures i <= |es|
    ensures i < |es| ==> es[i].at == col && es[i].extra.Marks?
  {
    if es == [] || (es[0].at == col && es[0].extra.Marks?) then 0
    else 1 + FindMarks(es[1..], col)
  }

  function Combine(row: Row, col: nat, mark: char): Row {
    var i := FindMarks(row.extras, col);
    if i < |row.extras| then
      row.(extras := row.extras[i := Entry(col, Marks(row.extras[i].extra.text + [mark]))])
    else Attach(row, col, Marks([mark]))
  }

  const MARKS_PER_ROW: nat := 8

  function MarkCount(es: seq<Entry>): nat {
    if es == [] then 0 else (if es[0].extra.Mark? then 1 else 0) + MarkCount(es[1..])
  }

  /** Position of the mark with the smallest id, the first of them if several share it. */
  function OldestMark(es: seq<Entry>): (i: nat)
    requires MarkCount(es) > 0
    ensures i < |es| && es[i].extra.Mark?
  {
    if MarkCount(es[1..]) == 0 then 0
    else
      var j := OldestMark(es[1..]);
      if es[0].extra.Mark? && es[0].extra.id <= es[1..][j].extra.id then 0 else j + 1
  }

  /** Attach a semantic mark; past the cap the oldest mark makes room, in place if it can. */
  function MarkRow(row: Row, col: nat, id: nat): Row {
    if col >= |row.cells| then row
    else if |row.extras| >= MARKS_PER_ROW && MarkCount(row.extras) >= MARKS_PER_ROW then
      var i := OldestMark(row.extras);
      if row.extras[i].at == col then
        row.(extras := row.extras[i := Entry(col, Mark(id))])
      else
        Attach(row.(extras := row.extras[..i] + row.extras[i + 1..]), col, Mark(id))
    else Attach(row, col, Mark(id))
  }

  // ----- measures -----

  /** One past the last cell that is not a default-styled blank. */
  function CellsLen(cells: seq<Cell>): (n: nat)
    ensures n <= |cells|
    ensures n > 0 ==> cells[n - 1] != DEFAULT_CELL
    ensures forall i :: n <= i < |cells| ==> cells[i] == DEFAULT_CELL
  {
    if cells == [] then 0
    else if cells[|cells| - 1] != DEFAULT_CELL then |cells|
    else CellsLen(cells[..|cells| - 1])
  }

  /** One past the column of the last content entry in table order, or 0. */
  function ContentEnd(es: seq<Entry>): nat {
    if es == [] then 0
    else if IsContent(es[|es| - 1].extra) then es[|es| - 1].at + 1
    else ContentEnd(es[..|es| - 1])
  }

  function ContentLen(row: Row): nat {
    Max(CellsLen(row.cells), ContentEnd(row.extras))
  }

  /** The columns a row contributes to its logical line: all of them when it continues. */
  function LineLen(row: Row): nat {
    if row.wrapped then |row.cells| else ContentLen(row)
  }

  predicate HasText(row: Row) {
    || (exists i :: 0 <= i < |row.extras| && IsContent(row.extras[i].extra))
    || (exists i :: 0 <= i < |row.cells| && row.cells[i].ch != BLANK)
  }

  // ----- what the renderer sees -----

  /** The table without its semantic marks, which are never drawn. */
  function Drawn(es: seq<Entry>): seq<Entry> {
    if es == [] then []
    else if es[0].extra.Mark? then Drawn(es[1..])
    else [es[0]] + Drawn(es[1..])
  }

  datatype Visible = Visible(cells: seq<Cell>, extras: seq<Entry>, wrapped: bool)

  function Seen(row: Row): Visible {
    Visible(row.cells, Drawn(row.extras), row.wrapped)
  }
}
