/** Printing (src/emu/term/perform.rs, src/emu/text.rs): one character through the segmenter and
    the margin, and the batched path for runs of printable ASCII, which must not be told apart
    from it.

    Width and boundary tables are left open: `Tables` holds any functions at all. */
module Print {
  import opened Cells
  import opened RowLaws
  import opened Grid
  import opened GridLaws

  datatype Tables = Tables(
    charCells: char -> nat,
    clusterCells: string -> nat,
    boundary: (string, nat) -> bool,
    decGraphic: char -> char)

  /** The code points on the cell under the cursor, and how wide that cell is on the grid. */
  datatype Segmenter = Segmenter(cluster: string, cells: nat, declared: bool)

  datatype Step = NewCell(width: nat) | JoinCell(before: nat, after: nat)

  const MAX_CLUSTER: nat := 512

  predicate Printable(c: char) {
    0x20 <= c as int < 0x7F
  }

  function Utf8Len(c: char): nat {
    if c as int < 0x80 then 1 else if c as int < 0x800 then 2 else if c as int < 0x10000 then 3 else 4
  }

  function ByteLen(s: string): nat {
    if s == [] then 0 else Utf8Len(s[0]) + ByteLen(s[1..])
  }

  /** The next code point: it opens a cell, or joins the one before. A cell is never empty. */
  function Push(t: Tables, seg: Segmenter, c: char): (r: (Segmenter, Step))
    ensures r.1.NewCell? ==> r.1.width >= 1
  {
    if Printable(c) then (Segmenter([c], 1, false), NewCell(1))
    else if seg.cluster == [] || ByteLen(seg.cluster) >= MAX_CLUSTER then
      var cells := t.charCells(c);
      (Segmenter([c], cells, false), if cells == 0 then JoinCell(0, 0) else NewCell(cells))
    else
      var cluster := seg.cluster + [c];
      var isBoundary := t.boundary(cluster, ByteLen(seg.cluster));
      var cells := t.charCells(c);
      if isBoundary && cells > 0 then (Segmenter([c], cells, false), NewCell(cells))
      else
        var after := if isBoundary || seg.declared then seg.cells else t.clusterCells(cluster);
        (Segmenter(cluster, after, seg.declared), JoinCell(seg.cells, after))
  }

  /** The state `print` reads and writes. */
  datatype Term = Term(
    grid: Grid,
    seg: Segmenter,
    lastPrint: Option<char>,
    archived: Evicted,
    pen: Style,
    underline: Color,
    link: Option<nat>,
    decGraphics: bool,
    onAlt: bool)

  ghost predicate TermWf(s: Term) {
    Wf(s.grid)
  }

  function Archive(s: Term, ev: Evicted): Evicted {
    if s.onAlt then s.archived else s.archived + ev
  }

  /** The attachments the pen leaves on a cell just written, if it carries any. */
  function Decorate(s: Term, g: Grid, width: nat): (r: Grid)
    requires Shape(g)
    ensures Shape(r)
  {
    var lined := if s.underline != DefaultColor then UnderlineCell(g, s.underline, width) else g;
    if s.link.Some? then LinkCell(lined, s.link, width) else lined
  }

  function PrintChar(t: Tables, s: Term, raw: char): (r: Term)
    requires Shape(s.grid)
    ensures Shape(r.grid)
  {
    var c := if s.decGraphics then t.decGraphic(raw) else raw;
    var (seg, step) := Push(t, s.seg, c);
    match step
    case NewCell(width) =>
      var (g, ev) := Place(s.grid, c, width, s.pen);
      s.(seg := seg, grid := Decorate(s, g, width), archived := Archive(s, ev), lastPrint := Some(c))
    case JoinCell(before, after) =>
      var (g, settled) := Join(s.grid, c, before, after);
      s.(seg := seg.(cells := settled), grid := g)
  }

  /** The text printed one character at a time. */
  function PrintEach(t: Tables, s: Term, text: string): (r: Term)
    requires Shape(s.grid)
    ensures Shape(r.grid)
    decreases |text|
  {
    if text == [] then s else PrintEach(t, PrintChar(t, s, text[0]), text[1..])
  }

  function PlainLen(text: string): (n: nat)
    ensures n <= |text|
    ensures forall i :: 0 <= i < n ==> Printable(text[i])
  {
    if text == [] || !Printable(text[0]) then 0 else 1 + PlainLen(text[1..])
  }

  /** Nothing the pen does to each cell disqualifies a run. */
  predicate Batched(s: Term) {
    !s.decGraphics && s.underline == DefaultColor && s.link.None?
  }

  /** The state after a run of printable ASCII went to the grid in one piece. */
  function AfterRun(s: Term, g: Grid, last: char): Term {
    s.(grid := g, lastPrint := Some(last), seg := Segmenter([last], 1, false))
  }

  // ----- a run is its characters -----

  lemma PruneSplit(es: seq<Entry>, lo: nat, mid: nat, hi: nat, keepMarks: bool)
    requires lo <= mid <= hi
    ensures Prune(Prune(es, lo, mid, keepMarks), mid, hi, keepMarks) == Prune(es, lo, hi, keepMarks)
  {
  }

  lemma EditTwice(g: Grid, row: nat, a: (Row, bool), b: (Row, bool))
    requires Shape(g) && row < |g.rows|
    ensures EditRow(EditRow(g, row, a), row, b) == EditRow(g, row, (b.0, a.1 || b.1))
  {
  }

  /** Filling a run is setting its first column and filling the rest. */
  lemma FillRunStep(row: Row, col: nat, text: string, style: Style)
    requires text != [] && col + |text| <= |row.cells|
    ensures var (first, changed) := Set(row, col, Cell(text[0], style));
            var (rest, more) := FillRun(first, col + 1, text[1..], style);
            FillRun(row, col, text, style) == (rest, changed || more)
  {
    var (first, changed) := Set(row, col, Cell(text[0], style));
    var (rest, more) := FillRun(first, col + 1, text[1..], style);
    var whole := FillRun(row, col, text, style);
    var n := |text|;
    assert RunRoom(row, col, text) == n && RunRoom(first, col + 1, text[1..]) == n - 1;
    PruneSplit(row.extras, col, col + 1, col + n, true);
    if row.extras == [] {
      FillRunPlain(row, col, text, style);
    } else {
      FilledCells(row, first, col, text, style);
      assert whole == (rest, true);
    }
  }

  lemma FilledCells(row: Row, first: Row, col: nat, text: string, style: Style)
    requires text != [] && col + |text| <= |row.cells| && row.extras != []
    requires first == Set(row, col, Cell(text[0], style)).0
    ensures FillRun(first, col + 1, text[1..], style).0 == FillRun(row, col, text, style).0
    ensures Set(row, col, Cell(text[0], style)).1 && FillRun(row, col, text, style).1
  {
    var rest := FillRun(first, col + 1, text[1..], style);
    var whole := FillRun(row, col, text, style);
    PruneSplit(row.extras, col, col + 1, col + |text|, true);
    if !rest.1 {
      assert first.extras == [];
      assert Prune([], col + 1, col + |text|, true) == [];
      forall i | 0 <= i < |text[1..]| ensures first.cells[col + 1 + i] == Cell(text[1..][i], style) {
        assert i < RunRoom(first, col + 1, text[1..]);
      }
    }
    forall i | 0 <= i < |row.cells| ensures rest.0.cells[i] == whole.0.cells[i] {
      if col + 1 <= i < col + |text| {
        assert first.cells[i] == row.cells[i];
        assert text[1..][i - col - 1] == text[i - col];
      }
    }
  }

  lemma FillRunPlain(row: Row, col: nat, text: string, style: Style)
    requires text != [] && col + |text| <= |row.cells| && row.extras == []
    ensures var (first, changed) := Set(row, col, Cell(text[0], style));
            var (rest, more) := FillRun(first, col + 1, text[1..], style);
            FillRun(row, col, text, style) == (rest, changed || more)
  {
    var (first, changed) := Set(row, col, Cell(text[0], style));
    var (rest, more) := FillRun(first, col + 1, text[1..], style);
    var whole := FillRun(row, col, text, style);
    var n := |text|;
    forall i | 1 <= i < n
      ensures first.cells[col + i] == row.cells[col + i] && text[1..][i - 1] == text[i]
    {}
    if RunDiffers(row, col, text, style) {
      var i :| 0 <= i < n && row.cells[col + i] != Cell(text[i], style);
      if i > 0 {
        assert first.cells[col + 1 + (i - 1)] != Cell(text[1..][i - 1], style);
      }
      assert changed || more;
    }
    if more {
      var i :| 0 <= i < n - 1 && first.cells[col + 1 + i] != Cell(text[1..][i], style);
      assert row.cells[col + (i + 1)] != Cell(text[i + 1], style);
    }
    if changed {
      assert row.cells[col + 0] != Cell(text[0], style);
    }
    assert whole.1 == (changed || more);
    forall i | 0 <= i < |row.cells| ensures rest.cells[i] == whole.0.cells[i] {
      if !more && col + 1 <= i < col + n {
        assert first.cells[col + 1 + (i - col - 1)] == Cell(text[1..][i - col - 1], style);
        assert rest.cells[i] == Cell(text[i - col], style);
      }
      if !whole.1 && col <= i < col + n {
        assert row.cells[col + (i - col)] == Cell(text[i - col], style);
      }
    }
    assert rest.cells == whole.0.cells;
    assert rest == whole.0;
  }

  lemma FillRunOne(row: Row, col: nat, ch: char, style: Style)
    requires col < |row.cells|
    ensures FillRun(row, col, [ch], style) == Set(row, col, Cell(ch, style))
  {
    var whole := FillRun(row, col, [ch], style);
    var one := Set(row, col, Cell(ch, style));
    assert RunRoom(row, col, [ch]) == 1;
    if row.cells[col] != Cell(ch, style) {
      assert row.cells[col + 0] != Cell([ch][0], style);
    } else {
      assert row.cells[col := Cell(ch, style)] == row.cells;
    }
    assert whole.0.cells == one.0.cells;
    assert whole == one;
  }

  /** Room for `n` more one-column characters with nothing at the margin to decide. */
  ghost predicate Roomy(g: Grid, n: nat) {
    && Shape(g)
    && !g.insertMode && !g.cursor.wrapPending
    && g.cursor.col + n < g.cols
    && |g.rows[g.cursor.row].cells| == g.cols
  }

  /** A run laid down in one piece from the cursor. */
  function RunOnGrid(g: Grid, text: string, style: Style): (r: Grid)
    requires Shape(g) && g.cursor.col + |text| < g.cols
    ensures Shape(r)
  {
    var (row, col) := (g.cursor.row, g.cursor.col);
    EditRow(g, row, FillRun(g.rows[row], col, text, style)).(cursor := g.cursor.(col := col + |text|))
  }

  lemma PlaceOne(g: Grid, ch: char, style: Style)
    requires Roomy(g, 1)
    ensures Place(g, ch, 1, style) == (RunOnGrid(g, [ch], style), [])
  {
    FillRunOne(g.rows[g.cursor.row], g.cursor.col, ch, style);
  }

  lemma RunOnGridStep(g: Grid, text: string, style: Style)
    requires Roomy(g, |text|) && |text| >= 2
    ensures Roomy(RunOnGrid(g, [text[0]], style), |text| - 1)
    ensures RunOnGrid(RunOnGrid(g, [text[0]], style), text[1..], style) == RunOnGrid(g, text, style)
  {
    var (row, col) := (g.cursor.row, g.cursor.col);
    FillRunOne(g.rows[row], col, text[0], style);
    FillRunStep(g.rows[row], col, text, style);
    var first := Set(g.rows[row], col, Cell(text[0], style));
    EditTwice(g, row, first, FillRun(first.0, col + 1, text[1..], style));
  }

  ghost predicate AllPrintable(text: string) {
    forall i :: 0 <= i < |text| ==> Printable(text[i])
  }

  lemma PrintPlainChar(t: Tables, s: Term, ch: char)
    requires Roomy(s.grid, 1) && Batched(s) && Printable(ch)
    ensures PrintChar(t, s, ch) == AfterRun(s, RunOnGrid(s.grid, [ch], s.pen), ch)
  {
    PlaceOne(s.grid, ch, s.pen);
    assert s.archived + [] == s.archived;
  }

  /** A run laid down in one piece is the run printed character by character. */
  lemma {:induction false} RunIsEach(t: Tables, s: Term, text: string)
    requires text != [] && AllPrintable(text)
    requires Roomy(s.grid, |text|) && Batched(s)
    ensures PrintEach(t, s, text) == AfterRun(s, RunOnGrid(s.grid, text, s.pen), text[|text| - 1])
    decreases |text|
  {
    PrintPlainChar(t, s, text[0]);
    var next := PrintChar(t, s, text[0]);
    if |text| == 1 {
      assert text == [text[0]];
      assert PrintEach(t, next, text[1..]) == next;
    } else {
      RunOnGridStep(s.grid, text, s.pen);
      RunIsEach(t, next, text[1..]);
    }
  }

  lemma {:induction false} PrintEachConcat(t: Tables, s: Term, a: string, b: string)
    requires Shape(s.grid)
    ensures PrintEach(t, s, a + b) == PrintEach(t, PrintEach(t, s, a), b)
    decreases |a|
  {
    if a == [] {
      assert a + b == b;
    } else {
      assert (a + b)[1..] == a[1..] + b;
      PrintEachConcat(t, PrintChar(t, s, a[0]), a[1..], b);
    }
  }

  lemma WriteRunLands(g: Grid, text: string, style: Style)
    requires Shape(g) && |g.rows[g.cursor.row].cells| == g.cols
    ensures var (h, placed) := WriteRun(g, text, style);
            placed > 0 ==> Roomy(g, placed) && h == RunOnGrid(g, text[..placed], style)
  {
  }

  lemma {:induction false} LandedRunIsEach(t: Tables, s: Term, rest: string, placed: nat)
    requires 0 < placed <= |rest| && AllPrintable(rest[..placed])
    requires Roomy(s.grid, placed) && Batched(s)
    ensures PrintEach(t, s, rest)
         == PrintEach(t, AfterRun(s, RunOnGrid(s.grid, rest[..placed], s.pen), rest[placed - 1]), rest[placed..])
  {
    assert rest == rest[..placed] + rest[placed..];
    PrintEachConcat(t, s, rest[..placed], rest[placed..]);
    RunIsEach(t, s, rest[..placed]);
  }

  /** One turn of the batched loop: whatever `WriteRun` placed counts as printed. */
  lemma {:induction false} RunTurn(t: Tables, s: Term, rest: string, plain: nat)
    requires Shape(s.grid) && |s.grid.rows[s.grid.cursor.row].cells| == s.grid.cols
    requires Batched(s) && plain <= |rest| && AllPrintable(rest[..plain])
    ensures var (g, placed) := WriteRun(s.grid, rest[..plain], s.pen);
            placed > 0 ==>
              PrintEach(t, s, rest) == PrintEach(t, AfterRun(s, g, rest[placed - 1]), rest[placed..])
  {
    WriteRunLands(s.grid, rest[..plain], s.pen);
    var placed := WriteRun(s.grid, rest[..plain], s.pen).1;
    if placed > 0 {
      assert rest[..plain][..placed] == rest[..placed];
      LandedRunIsEach(t, s, rest, placed);
    }
  }
}
