/** What reassembling and cutting keep, on the way to the rewrap theorems in `Transcript`. */
module ReflowLaws {
  import opened Cells
  import opened RowLaws
  import opened Grid
  import opened Reading
  import opened Reflow

  /** A reassembled line: every attachment sits on one of its cells. */
  ghost predicate LogicalOk(line: Logical) {
    InRange(line.extras, |line.cells|)
  }

  function LineGlyphs(line: Logical): (gs: seq<Glyph>)
    ensures |gs| == |line.cells|
  {
    Glyphs(line.cells, line.extras)
  }

  ghost predicate RowsSorted(rows: seq<Row>) {
    forall i :: 0 <= i < |rows| ==> Sorted(rows[i].extras)
  }

  // ----- reassembling -----

  lemma RebaseAt(es: seq<Entry>, base: nat, k: nat)
    ensures ExtrasAt(Rebase(es, base), base + k) == ExtrasAt(es, k)
  {
    if es != [] {
      RebaseAt(es[1..], base, k);
      assert Rebase(es, base)[1..] == Rebase(es[1..], base);
    }
  }

  lemma GlyphsConcat(a: seq<Cell>, ea: seq<Entry>, b: seq<Cell>, eb: seq<Entry>)
    requires InRange(ea, |a|)
    ensures Glyphs(a + b, ea + Rebase(eb, |a|)) == Glyphs(a, ea) + Glyphs(b, eb)
  {
    var base := |a|;
    forall k: nat | k < base + |b|
      ensures ExtrasAt(ea + Rebase(eb, base), k)
              == if k < base then ExtrasAt(ea, k) else ExtrasAt(eb, k - base)
    {
      ExtrasAtConcat(ea, Rebase(eb, base), k);
      if k < base {
        ExtrasAtOutside(Rebase(eb, base), k);
      } else {
        ExtrasAtOutside(ea, k);
        RebaseAt(eb, base, k - base);
      }
    }
  }

  lemma RebaseInRange(es: seq<Entry>, base: nat, len: nat)
    requires InRange(es, len)
    ensures InRange(Rebase(es, base), base + len)
  {
    forall e | e in Rebase(es, base) ensures e.at < base + len {
      var i :| 0 <= i < |es| && Rebase(es, base)[i] == e;
      assert es[i] in es;
    }
  }

  lemma PushGlyphs(line: Logical, row: Row, cols: nat)
    requires LogicalOk(line) && RowOk(row, cols)
    ensures LogicalOk(PushRow(line, row))
    ensures LineGlyphs(PushRow(line, row)) == LineGlyphs(line) + LineOf(row).glyphs
  {
    var len := Min(LineLen(row), |row.cells|);
    var cut := CutOff(Drawn(row.extras), len);
    GlyphsConcat(line.cells, line.extras, row.cells[..len], cut);
    DepartReads(row, cols);
    CutOffKeeps(Drawn(row.extras), len);
    RebaseInRange(cut, |line.cells|, len);
  }

  function AllGlyphs(lines: seq<Logical>): (r: seq<seq<Glyph>>)
    ensures |r| == |lines|
  {
    seq(|lines|, i requires 0 <= i < |lines| => LineGlyphs(lines[i]))
  }

  ghost predicate LinesOk(lines: seq<Logical>) {
    forall i :: 0 <= i < |lines| ==> LogicalOk(lines[i])
  }

  lemma AssembleStep(lines: seq<Logical>, continuing: bool, row: Row, cols: nat)
    requires LinesOk(lines) && RowOk(row, cols) && (continuing ==> lines != [])
    ensures var started := if continuing then lines else lines + [EMPTY_LINE];
            var after := started[|started| - 1 := PushRow(started[|started| - 1], row)];
            && LinesOk(after)
            && AllGlyphs(after) == Extend(AllGlyphs(lines), continuing, LineOf(row).glyphs)
  {
    var started := if continuing then lines else lines + [EMPTY_LINE];
    var last := started[|started| - 1];
    assert LogicalOk(last);
    PushGlyphs(last, row, cols);
    var after := started[|started| - 1 := PushRow(last, row)];
    if !continuing {
      assert LineGlyphs(last) + LineOf(row).glyphs == LineOf(row).glyphs;
    }
    assert AllGlyphs(after) == Extend(AllGlyphs(lines), continuing, LineOf(row).glyphs);
  }

  lemma ReadOneMore(rows: seq<Row>, n: nat)
    requires 0 < n <= |rows|
    ensures Read(LinesOf(rows[..n]))
            == Extend(Read(LinesOf(rows[..n - 1])), n > 1 && rows[n - 2].wrapped, LineOf(rows[n - 1]).glyphs)
  {
    var before := LinesOf(rows[..n - 1]);
    assert LinesOf(rows[..n]) == before + [LineOf(rows[n - 1])];
    if n > 1 {
      ReadSnoc(before, LineOf(rows[n - 1]));
    } else {
      assert LinesOf(rows[..n])[1..] == [];
    }
  }

  /** The lines a rewrap reassembles are the lines the rows read as. */
  lemma {:induction false} AssembleReads(rows: seq<Row>, n: nat, cols: nat)
    requires n <= |rows| && RowsOk(rows, cols)
    ensures LinesOk(AssembleTo(rows, n).0)
    ensures AllGlyphs(AssembleTo(rows, n).0) == Read(LinesOf(rows[..n]))
  {
    hide PushRow, LineOf, Extend, LineGlyphs, LogicalOk;
    if n == 0 {
      assert LinesOf(rows[..0]) == [];
    } else {
      AssembleReads(rows, n - 1, cols);
      var (lines, continuing) := AssembleTo(rows, n - 1);
      AssembleStep(lines, continuing, rows[n - 1], cols);
      ReadOneMore(rows, n);
    }
  }

  lemma PadGlyphs(line: Logical, len: nat)
    requires LogicalOk(line)
    ensures LogicalOk(PadLine(line, len))
    ensures TrimsTo(LineGlyphs(PadLine(line, len)), LineGlyphs(line))
    ensures |PadLine(line, len).cells| == Max(|line.cells|, len)
  {
    forall k: nat | |line.cells| <= k < len ensures ExtrasAt(line.extras, k) == [] {
      ExtrasAtOutside(line.extras, k);
    }
  }

  // ----- one row of a line -----

  lemma InsertLastHas(es: seq<Entry>, e: Entry)
    ensures forall x :: x in InsertLast(es, e) <==> x in es || x == e
    ensures Sorted(es) ==> Sorted(InsertLast(es, e))
  {
    if es != [] && es[|es| - 1].at > e.at {
      var l := es[|es| - 1];
      InsertLastHas(es[..|es| - 1], e);
      assert es == es[..|es| - 1] + [l];
      var r := InsertLast(es[..|es| - 1], e);
      if Sorted(es) {
        forall x | x in r ensures x.at <= l.at {}
        forall i, j | 0 <= i < j < |r + [l]| ensures (r + [l])[i].at <= (r + [l])[j].at {
          assert r[i] in r;
        }
      }
    }
  }

  lemma SortHas(es: seq<Entry>)
    ensures forall x :: x in SortByColumn(es) <==> x in es
    ensures Sorted(SortByColumn(es))
  {
    if es != [] {
      SortHas(es[..|es| - 1]);
      InsertLastHas(SortByColumn(es[..|es| - 1]), es[|es| - 1]);
      assert es == es[..|es| - 1] + [es[|es| - 1]];
    }
  }

  lemma InsertLastAt(es: seq<Entry>, e: Entry, k: nat)
    ensures ExtrasAt(InsertLast(es, e), k) == ExtrasAt(es, k) + ExtrasAt([e], k)
  {
    ExtrasAtConcat(es, [e], k);
    if es != [] && es[|es| - 1].at > e.at {
      var l := es[|es| - 1];
      InsertLastAt(es[..|es| - 1], e, k);
      assert es == es[..|es| - 1] + [l];
      ExtrasAtConcat(es[..|es| - 1], [l], k);
      ExtrasAtConcat(InsertLast(es[..|es| - 1], e), [l], k);
    }
  }

  /** A stable sort by column keeps what each column holds, in order. */
  lemma SortAt(es: seq<Entry>, k: nat)
    ensures ExtrasAt(SortByColumn(es), k) == ExtrasAt(es, k)
  {
    if es != [] {
      SortAt(es[..|es| - 1], k);
      InsertLastAt(SortByColumn(es[..|es| - 1]), es[|es| - 1], k);
      assert es == es[..|es| - 1] + [es[|es| - 1]];
      ExtrasAtConcat(es[..|es| - 1], [es[|es| - 1]], k);
    }
  }

  lemma WithinAt(es: seq<Entry>, lo: nat, hi: nat, k: nat)
    ensures ExtrasAt(Within(es, lo, hi), k) == if lo + k < hi then ExtrasAt(es, lo + k) else []
    ensures forall e :: e in Within(es, lo, hi) ==> lo + e.at < hi
  {
  }

  lemma MarksWithinAt(ms: seq<MarkAt>, lo: nat, hi: nat, k: nat)
    ensures ExtrasAt(MarksWithin(ms, lo, hi), k) == []
    ensures forall e :: e in MarksWithin(ms, lo, hi) ==> lo + e.at < hi
  {
  }

  function Blanks(n: nat): (r: seq<Glyph>)
    ensures |r| == n
  {
    seq(n, _ => Glyph(DEFAULT_CELL, []))
  }

  lemma RowOfOk(line: Logical, start: nat, end: nat, cols: nat, wrapped: bool)
    requires start <= end <= |line.cells|
    ensures var row := RowOf(line, start, end, cols, wrapped); RowOk(row, cols) && Sorted(row.extras)
  {
    var taken := Min(end, start + cols);
    var a, b := Within(line.extras, start, taken), MarksWithin(line.marks, start, start + cols);
    SortHas(a + b);
    WithinAt(line.extras, start, taken, 0);
    MarksWithinAt(line.marks, start, start + cols, 0);
  }

  lemma RowOfAt(line: Logical, start: nat, end: nat, cols: nat, wrapped: bool, k: nat)
    requires start <= end <= |line.cells| && k < cols
    ensures ExtrasAt(RowOf(line, start, end, cols, wrapped).extras, k)
            == if start + k < Min(end, start + cols) then ExtrasAt(line.extras, start + k) else []
  {
    hide ExtrasAt, SortByColumn, Within, MarksWithin;
    var taken := Min(end, start + cols);
    var a, b := Within(line.extras, start, taken), MarksWithin(line.marks, start, start + cols);
    SortAt(a + b, k);
    ExtrasAtConcat(a, b, k);
    WithinAt(line.extras, start, taken, k);
    MarksWithinAt(line.marks, start, start + cols, k);
  }

  /** A row cut from a line shows the glyphs of its span and nothing else. */
  lemma RowOfGlyphs(line: Logical, start: nat, end: nat, cols: nat, wrapped: bool)
    requires start <= end <= |line.cells|
    ensures var row := RowOf(line, start, end, cols, wrapped);
            var taken := Min(end, start + cols);
            Glyphs(row.cells, row.extras)
            == LineGlyphs(line)[start..taken] + Blanks(cols - (taken - start))
  {
    var row := RowOf(line, start, end, cols, wrapped);
    var taken := Min(end, start + cols);
    forall k: nat | k < cols
      ensures Glyphs(row.cells, row.extras)[k]
              == (LineGlyphs(line)[start..taken] + Blanks(cols - (taken - start)))[k]
    {
      RowOfAt(line, start, end, cols, wrapped, k);
    }
  }

  lemma MarkEachSeen(row: Row, col: nat, ms: seq<MarkAt>, from: nat, cols: nat)
    requires RowOk(row, cols) && Sorted(row.extras)
    ensures Seen(MarkEach(row, col, ms, from)) == Seen(row)
    ensures RowOk(MarkEach(row, col, ms, from), cols) && Sorted(MarkEach(row, col, ms, from).extras)
    decreases |ms|
  {
    if ms != [] {
      MarkUnseen(row, col, ms[0].id);
      MarkRowKept(row, col, ms[0].id, cols);
      MarkEachSeen(if ms[0].at >= from then MarkRow(row, col, ms[0].id) else row, col, ms[1..], from, cols);
    }
  }

  lemma BareChunkOk(line: Logical, cols: nat)
    ensures RowsOk(BareChunk(line, cols), cols) && RowsSorted(BareChunk(line, cols))
  {
    var (cuts, open) := Cuts(line.cells, cols, 0, 0);
    var bare := BareChunk(line, cols);
    forall i | 0 <= i < |bare|
      ensures RowOk(bare[i], cols) && Sorted(bare[i].extras)
    {
      if i < |cuts| {
        RowOfOk(line, cuts[i].start, cuts[i].end, cols, true);
        assert bare[i] == RowOf(line, cuts[i].start, cuts[i].end, cols, true);
      } else {
        RowOfOk(line, open, |line.cells|, cols, false);
      }
    }
  }

  /** Hanging the leftover marks on a line's last row changes nothing that is seen. */
  lemma ChunkSeen(line: Logical, cols: nat)
    ensures |Chunk(line, cols)| == |BareChunk(line, cols)|
    ensures forall i :: 0 <= i < |Chunk(line, cols)| ==>
              && RowOk(Chunk(line, cols)[i], cols) && Sorted(Chunk(line, cols)[i].extras)
              && Seen(Chunk(line, cols)[i]) == Seen(BareChunk(line, cols)[i])
  {
    hide BareChunk, Cuts, MarkEach, RowOk, Sorted, Seen;
    BareChunkOk(line, cols);
    var bare := BareChunk(line, cols);
    var last := bare[|bare| - 1];
    MarkEachSeen(last, Saturate(|last.cells| - 1), line.marks, Cuts(line.cells, cols, 0, 0).1 + cols, cols);
  }

  /** Every row a line is cut into is exactly `cols` wide with its attachments in order. */
  lemma ChunkOk(line: Logical, cols: nat)
    ensures RowsOk(Chunk(line, cols), cols) && RowsSorted(Chunk(line, cols))
  {
    ChunkSeen(line, cols);
  }

  lemma ChunkLines(line: Logical, cols: nat)
    ensures LinesOf(Chunk(line, cols)) == LinesOf(BareChunk(line, cols))
  {
    ChunkSeen(line, cols);
    var bare, rows := BareChunk(line, cols), Chunk(line, cols);
    forall i | 0 <= i < |rows| ensures LineOf(rows[i]) == LineOf(bare[i]) {
      SeenSameLine(rows[i], bare[i]);
    }
  }

  lemma RowsOkConcat(a: seq<Row>, b: seq<Row>, cols: nat)
    requires RowsOk(a, cols) && RowsOk(b, cols) && RowsSorted(a) && RowsSorted(b)
    ensures RowsOk(a + b, cols) && RowsSorted(a + b)
  {
  }

  lemma {:induction false} ConcatOk(parts: seq<seq<Row>>, cols: nat)
    requires forall i :: 0 <= i < |parts| ==> RowsOk(parts[i], cols) && RowsSorted(parts[i])
    ensures RowsOk(Concat(parts), cols) && RowsSorted(Concat(parts))
  {
    if parts != [] {
      ConcatOk(parts[..|parts| - 1], cols);
      RowsOkConcat(Concat(parts[..|parts| - 1]), parts[|parts| - 1], cols);
    }
  }

  lemma FlowOk(lines: seq<Logical>, cols: nat)
    ensures RowsOk(Flow(lines, cols), cols) && RowsSorted(Flow(lines, cols))
  {
    var parts := Chunks(lines, cols);
    forall i | 0 <= i < |parts| ensures RowsOk(parts[i], cols) && RowsSorted(parts[i]) {
      ChunkOk(lines[i], cols);
    }
    ConcatOk(parts, cols);
  }

  // ----- cutting a line of one-column characters -----

  ghost predicate Plain(cells: seq<Cell>) {
    forall i :: 0 <= i < |cells| ==> !IsContinuation(cells[i])
  }

  /** Rows of exactly `cols` until no more than that is left. */
  function PlainCuts(n: nat, cols: nat, start: nat): (seq<Cut>, nat)
    requires cols >= 1
    decreases n - start
  {
    if n <= start + cols then ([], start)
    else
      var (more, open) := PlainCuts(n, cols, start + cols);
      ([Cut(start, start + cols)] + more, open)
  }

  function RowStart(k: nat, cols: nat): nat {
    k * cols
  }

  /** No row boundary at this width falls inside a character. */
  ghost predicate Even(cells: seq<Cell>, cols: nat)
    requires cols >= 1
  {
    forall k: nat :: 0 < RowStart(k, cols) < |cells| ==> !IsContinuation(cells[RowStart(k, cols)])
  }

  lemma PlainIsEven(cells: seq<Cell>, cols: nat)
    requires Plain(cells) && cols >= 1
    ensures Even(cells, cols)
  {
  }

  lemma CharEndStops(cells: seq<Cell>, from: nat, stop: nat)
    requires from <= stop && from <= |cells| && (stop < |cells| ==> !IsContinuation(cells[stop]))
    ensures CharEnd(cells, from) <= stop
    decreases |cells| - from
  {
    if from < |cells| && from < stop {
      CharEndStops(cells, from + 1, stop);
    }
  }

  lemma {:induction false} CutsArePlain(cells: seq<Cell>, cols: nat, k: nat, at: nat)
    requires cols >= 1 && Even(cells, cols) && k * cols <= at <= k * cols + cols && at <= |cells|
    ensures Cuts(cells, cols, k * cols, at) == PlainCuts(|cells|, cols, k * cols)
    decreases |cells| - at
  {
    hide Even;
    if at < |cells| {
      var start := k * cols;
      assert (k + 1) * cols == start + cols && (k + 2) * cols == start + cols + cols;
      if at == start + cols {
        RowStartsCharacter(cells, cols, k + 2);
        CharEndStops(cells, at + 1, at + cols);
        CutsArePlain(cells, cols, k + 1, CharEnd(cells, at + 1));
      } else {
        RowStartsCharacter(cells, cols, k + 1);
        CharEndStops(cells, at + 1, start + cols);
        CutsArePlain(cells, cols, k, CharEnd(cells, at + 1));
      }
    }
  }

  lemma RowStartsCharacter(cells: seq<Cell>, cols: nat, k: nat)
    requires cols >= 1 && Even(cells, cols) && 0 < k
    ensures k * cols < |cells| ==> !IsContinuation(cells[k * cols])
  {
    assert RowStart(k, cols) == k * cols;
    assert k * cols >= cols;
  }

  /** The rows of a plain line from offset `start` on. */
  function PlainRows(line: Logical, cols: nat, start: nat): (r: seq<Row>)
    requires cols >= 1 && start <= |line.cells|
    ensures r != []
    decreases |line.cells| - start
  {
    if |line.cells| <= start + cols then [RowOf(line, start, |line.cells|, cols, false)]
    else [RowOf(line, start, start + cols, cols, true)] + PlainRows(line, cols, start + cols)
  }

  ghost predicate CutsOk(cuts: seq<Cut>, n: nat) {
    forall i :: 0 <= i < |cuts| ==> cuts[i].start <= cuts[i].end <= n
  }

  lemma PlainCutsOk(n: nat, cols: nat, start: nat)
    requires cols >= 1 && start <= n
    ensures var (cuts, open) := PlainCuts(n, cols, start);
            CutsOk(cuts, n) && open <= n && (open == n ==> start == n)
    decreases n - start
  {
    if start + cols < n {
      PlainCutsOk(n, cols, start + cols);
    }
  }

  lemma WrappedRowsCons(line: Logical, cut: Cut, more: seq<Cut>, cols: nat)
    requires CutsOk([cut] + more, |line.cells|) && CutsOk(more, |line.cells|)
    requires cut.start <= cut.end <= |line.cells|
    ensures WrappedRows(line, [cut] + more, cols)
            == [RowOf(line, cut.start, cut.end, cols, true)] + WrappedRows(line, more, cols)
  {
  }

  lemma PlainCutsRows(line: Logical, cols: nat, start: nat)
    requires cols >= 1 && start <= |line.cells|
    requires CutsOk(PlainCuts(|line.cells|, cols, start).0, |line.cells|)
    requires PlainCuts(|line.cells|, cols, start).1 <= |line.cells|
    ensures var (cuts, open) := PlainCuts(|line.cells|, cols, start);
            PlainRows(line, cols, start)
            == WrappedRows(line, cuts, cols) + [RowOf(line, open, |line.cells|, cols, false)]
    decreases |line.cells| - start
  {
    hide RowOf;
    if start + cols < |line.cells| {
      PlainCutsOk(|line.cells|, cols, start + cols);
      PlainCutsRows(line, cols, start + cols);
      WrappedRowsCons(line, Cut(start, start + cols), PlainCuts(|line.cells|, cols, start + cols).0, cols);
    }
  }

  lemma ChunkIsPlain(line: Logical, cols: nat)
    requires cols >= 1 && Even(line.cells, cols)
    ensures BareChunk(line, cols) == PlainRows(line, cols, 0)
  {
    assert 0 * cols == 0;
    CutsArePlain(line.cells, cols, 0, 0);
    PlainCutsOk(|line.cells|, cols, 0);
    PlainCutsRows(line, cols, 0);
  }

  lemma LinesOfCons(row: Row, below: seq<Row>)
    ensures LinesOf([row] + below) == [LineOf(row)] + LinesOf(below)
  {
  }

  /** Cutting a line and reading it back gives the one line, less some trailing blanks. */
  lemma {:induction false} PlainRowsRead(line: Logical, cols: nat, start: nat)
    requires cols >= 1 && start <= |line.cells|
    ensures Closed(LinesOf(PlainRows(line, cols, start)))
    ensures |Read(LinesOf(PlainRows(line, cols, start)))| == 1
    ensures TrimsTo(LineGlyphs(line)[start..], Read(LinesOf(PlainRows(line, cols, start)))[0])
    decreases |line.cells| - start
  {
    hide LineGlyphs, RowOf, LineOf, Read, Closed;
    if |line.cells| <= start + cols {
      LastRowReads(line, cols, start);
    } else {
      PlainRowsRead(line, cols, start + cols);
      FullRowReads(line, cols, start);
      var row, below := RowOf(line, start, start + cols, cols, true), PlainRows(line, cols, start + cols);
      LinesOfCons(row, below);
      ReadAbove(LineGlyphs(line), start, start + cols, LinesOf(below));
    }
  }

  lemma ReadAbove(gs: seq<Glyph>, start: nat, next: nat, below: seq<Line>)
    requires start <= next <= |gs| && Closed(below) && below != []
    requires |Read(below)| == 1 && TrimsTo(gs[next..], Read(below)[0])
    ensures var ls := [Line(gs[start..next], true)] + below;
            Closed(ls) && |Read(ls)| == 1 && TrimsTo(gs[start..], Read(ls)[0])
  {
    var ls := [Line(gs[start..next], true)] + below;
    assert ls[1..] == below;
    assert gs[start..] == gs[start..next] + gs[next..];
    TrimsToPrefix(gs[start..next], gs[next..], Read(below)[0]);
  }

  lemma FullRowReads(line: Logical, cols: nat, start: nat)
    requires start + cols <= |line.cells|
    ensures LineOf(RowOf(line, start, start + cols, cols, true))
            == Line(LineGlyphs(line)[start..start + cols], true)
  {
    RowOfGlyphs(line, start, start + cols, cols, true);
    assert LineGlyphs(line)[start..start + cols] + Blanks(0) == LineGlyphs(line)[start..start + cols];
  }

  lemma LastRowReads(line: Logical, cols: nat, start: nat)
    requires cols >= 1 && start <= |line.cells| <= start + cols
    ensures Closed(LinesOf(PlainRows(line, cols, start)))
    ensures |Read(LinesOf(PlainRows(line, cols, start)))| == 1
    ensures TrimsTo(LineGlyphs(line)[start..], Read(LinesOf(PlainRows(line, cols, start)))[0])
  {
    hide SortByColumn, Within, MarksWithin, LineGlyphs, ContentLen;
    var gs, n := LineGlyphs(line), |line.cells|;
    var row := RowOf(line, start, n, cols, false);
    RowOfOk(line, start, n, cols, false);
    RowOfGlyphs(line, start, n, cols, false);
    assert gs[start..n] == gs[start..];
    ContentTrims(row, cols);
    PaddingTrims(gs[start..], cols - (n - start), LineOf(row).glyphs);
    var ls := LinesOf(PlainRows(line, cols, start));
    assert ls == [LineOf(row)];
    assert Read(ls[1..]) == [];
  }

  /** Trimming never stops inside the padding. */
  lemma PaddingTrims(gs: seq<Glyph>, n: nat, r: seq<Glyph>)
    requires TrimsTo(gs + Blanks(n), r)
    requires r != [] ==> !BlankGlyph(r[|r| - 1])
    ensures TrimsTo(gs, r)
  {
    var padded := gs + Blanks(n);
    forall k | |gs| <= k < |padded| ensures BlankGlyph(padded[k]) {
      assert padded[k] == Glyph(DEFAULT_CELL, []);
    }
    assert |r| <= |gs|;
    forall i | 0 <= i < |gs[|r|..]| ensures BlankGlyph(gs[|r|..][i]) {
      assert padded[|r|..][i] == gs[|r|..][i];
    }
  }

  lemma TrimsToPrefix(p: seq<Glyph>, gs: seq<Glyph>, r: seq<Glyph>)
    requires TrimsTo(gs, r)
    ensures TrimsTo(p + gs, p + r)
  {
    assert (p + gs)[|p + r|..] == gs[|r|..];
  }
}
