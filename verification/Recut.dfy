/** A re-cut line whatever its characters: no row after its first begins inside one, so a boundary
    that fell inside a character before the cut does not any more. */
module Recut {
  import opened Cells
  import opened RowLaws
  import opened Grid
  import opened Reading
  import opened Reflow
  import opened ReflowLaws

  ghost predicate EvenLines(lines: seq<Logical>, cols: nat)
    requires cols >= 1
  {
    forall i :: 0 <= i < |lines| ==> Even(lines[i].cells, cols)
  }

  /** No character goes on across `at`. */
  predicate Starts(cells: seq<Cell>, at: nat) {
    at < |cells| ==> !IsContinuation(cells[at])
  }

  /** No row that continues a line begins inside a character. */
  ghost predicate RowsStart(rows: seq<Row>) {
    forall i :: 0 < i < |rows| && rows[i - 1].wrapped ==> Starts(rows[i].cells, 0)
  }

  // ----- the rows a line is cut into -----

  lemma CharEndStarts(cells: seq<Cell>, from: nat)
    requires from <= |cells|
    ensures Starts(cells, CharEnd(cells, from))
    decreases |cells| - from
  {
  }

  /** Every row after the first starts at the start of a character. */
  lemma {:induction false} CutsStart(cells: seq<Cell>, cols: nat, start: nat, at: nat)
    requires start <= at <= |cells| && (at == start || Starts(cells, at))
    ensures var (cuts, open) := Cuts(cells, cols, start, at);
            && (forall i :: 0 < i < |cuts| ==> Starts(cells, cuts[i].start))
            && (cuts == [] ==> open == start) && (cuts != [] ==> Starts(cells, open))
    ensures var cuts := Cuts(cells, cols, start, at).0; cuts != [] ==> cuts[0].start == start
    decreases |cells| - at
  {
    if at < |cells| {
      var next := CharEnd(cells, at + 1);
      CharEndStarts(cells, at + 1);
      if next - start > cols {
        var (end, resume) := if at == start then (next, next) else (at, at);
        CutsStart(cells, cols, resume, next);
        var (more, open) := Cuts(cells, cols, resume, next);
        assert Cuts(cells, cols, start, at) == ([Cut(start, end)] + more, open);
      } else {
        CutsStart(cells, cols, start, next);
      }
    }
  }

  lemma RowOfStarts(line: Logical, start: nat, end: nat, cols: nat, wrapped: bool)
    requires start <= end <= |line.cells| && Starts(line.cells, start)
    ensures Starts(RowOf(line, start, end, cols, wrapped).cells, 0)
  {
  }

  /** A line is cut into rows that run on into one another, each beginning with a character. */
  lemma ChunkStarts(line: Logical, cols: nat)
    ensures RowsStart(Chunk(line, cols))
    ensures forall i :: 0 <= i < |Chunk(line, cols)| - 1 ==> Chunk(line, cols)[i].wrapped
  {
    ChunkSeen(line, cols);
    CutsStart(line.cells, cols, 0, 0);
    var rows, bare := Chunk(line, cols), BareChunk(line, cols);
    var (cuts, open) := Cuts(line.cells, cols, 0, 0);
    forall i | 0 <= i < |rows|
      ensures (i > 0 ==> Starts(rows[i].cells, 0)) && (i < |rows| - 1 ==> rows[i].wrapped)
    {
      assert Seen(rows[i]) == Seen(bare[i]);
      if 0 < i < |cuts| {
        RowOfStarts(line, cuts[i].start, cuts[i].end, cols, true);
      } else if i > 0 {
        RowOfStarts(line, open, |line.cells|, cols, false);
      }
    }
  }

  // ----- such rows reassembled -----

  lemma EvenPush(cells: seq<Cell>, m: nat, more: seq<Cell>, cols: nat)
    requires cols >= 1 && |cells| == m * cols && |more| <= cols
    requires Even(cells, cols) && (m > 0 ==> Starts(more, 0))
    ensures Even(cells + more, cols)
  {
    var all := cells + more;
    assert RowStart(m + 1, cols) == RowStart(m, cols) + cols;
    forall k: nat | 0 < RowStart(k, cols) < |all| ensures !IsContinuation(all[RowStart(k, cols)]) {
      if k > m {
        RowStartGrows(m + 1, k, cols);
      } else if k < m {
        RowStartGrows(k + 1, m, cols);
        assert (k + 1) * cols == k * cols + cols;
      }
    }
  }

  lemma RowStartGrows(a: nat, b: nat, cols: nat)
    requires a <= b
    ensures RowStart(a, cols) <= RowStart(b, cols)
  {
  }

  /** Reassembly so far: no boundary cuts a line, and the open one is `m` rows long. */
  ghost predicate WholeSoFar(lines: seq<Logical>, continuing: bool, m: nat, cols: nat)
    requires cols >= 1
  {
    && EvenLines(lines, cols)
    && (continuing ==> m > 0 && lines != [] && |lines[|lines| - 1].cells| == m * cols)
  }

  lemma PushStarts(lines: seq<Logical>, continuing: bool, m: nat, row: Row, cols: nat)
    requires cols >= 1 && WholeSoFar(lines, continuing, m, cols) && RowOk(row, cols)
    requires continuing ==> Starts(row.cells, 0)
    ensures var started := if continuing then lines else lines + [EMPTY_LINE];
            var after := started[|started| - 1 := PushRow(started[|started| - 1], row)];
            WholeSoFar(after, row.wrapped, (if continuing then m else 0) + 1, cols)
  {
    hide LineLen, Even;
    var base := if continuing then m else 0;
    var started := if continuing then lines else lines + [EMPTY_LINE];
    var open := started[|started| - 1];
    var more := row.cells[..Min(LineLen(row), |row.cells|)];
    assert 0 * cols == 0 && (base + 1) * cols == base * cols + cols;
    assert Even(open.cells, cols) by { EmptyIsEven(cols); }
    EvenPush(open.cells, base, more, cols);
    assert PushRow(open, row).cells == open.cells + more;
    WrappedIsFull(row);
  }

  lemma EmptyIsEven(cols: nat)
    requires cols >= 1
    ensures Even(EMPTY_LINE.cells, cols)
  {
  }

  lemma WrappedIsFull(row: Row)
    ensures row.wrapped ==> LineLen(row) == |row.cells|
  {
  }

  /** Rows that begin with a character reassemble into lines no boundary at that width cuts. */
  lemma {:induction false} StartsAssemble(rows: seq<Row>, n: nat, cols: nat) returns (m: nat)
    requires cols >= 1 && n <= |rows| && RowsOk(rows, cols) && RowsStart(rows[..n])
    ensures WholeSoFar(AssembleTo(rows, n).0, AssembleTo(rows, n).1, m, cols)
  {
    hide PushRow, Even, Starts;
    m := 0;
    if n > 0 {
      assert rows[..n - 1] == rows[..n][..n - 1];
      m := StartsAssemble(rows, n - 1, cols);
      var (lines, continuing) := AssembleTo(rows, n - 1);
      assert continuing ==> rows[..n][n - 2].wrapped && rows[..n][n - 1] == rows[n - 1];
      PushStarts(lines, continuing, m, rows[n - 1], cols);
      m := (if continuing then m else 0) + 1;
    }
  }

  // ----- what a re-cut line reads as -----

  lemma {:induction false} ChainReads(ls: seq<Line>)
    requires ls != [] && forall i :: 0 <= i < |ls| - 1 ==> ls[i].wrapped
    ensures |Read(ls)| == 1
  {
    if |ls| > 1 {
      ChainReads(ls[1..]);
    } else {
      assert Read(ls[1..]) == [];
    }
  }

  /** Lines of the same text up to trailing blanks have the same characters on their boundaries. */
  lemma SameTextEven(a: Logical, b: Logical, cols: nat)
    requires cols >= 1 && Even(a.cells, cols) && Trim(LineGlyphs(a)) == Trim(LineGlyphs(b))
    ensures Even(b.cells, cols)
  {
    hide Trim, ExtrasAt;
    forall k: nat | 0 < RowStart(k, cols) < |b.cells| ensures !IsContinuation(b.cells[RowStart(k, cols)]) {
      var at := RowStart(k, cols);
      var text := Trim(LineGlyphs(b));
      if at >= |text| {
        assert BlankGlyph(LineGlyphs(b)[|text|..][at - |text|]);
      } else {
        assert text[at] == LineGlyphs(a)[at] == LineGlyphs(b)[at];
      }
    }
  }

  /** Cut and read back, a line is one line, and no boundary falls inside a character of that; so it is
      the line it was, up to trailing blanks, exactly when no boundary fell inside a character before. */
  lemma ChunkReadsIff(line: Logical, cols: nat)
    requires cols >= 1
    ensures |Read(LinesOf(Chunk(line, cols)))| == 1
    ensures Trim(Read(LinesOf(Chunk(line, cols)))[0]) == Trim(LineGlyphs(line)) <==> Even(line.cells, cols)
    ensures Even(line.cells, cols) ==>
              && Closed(LinesOf(Chunk(line, cols)))
              && TrimsTo(LineGlyphs(line), Read(LinesOf(Chunk(line, cols)))[0])
  {
    hide Chunk, Even;
    var rows := Chunk(line, cols);
    ChunkOk(line, cols);
    ChunkStarts(line, cols);
    ChainReads(LinesOf(rows));
    assert rows[..|rows|] == rows;
    AssembleReads(rows, |rows|, cols);
    var _ := StartsAssemble(rows, |rows|, cols);
    var read := AssembleTo(rows, |rows|).0;
    assert |AllGlyphs(read)| == 1 && AllGlyphs(read)[0] == LineGlyphs(read[0]);
    if Trim(LineGlyphs(read[0])) == Trim(LineGlyphs(line)) {
      SameTextEven(read[0], line, cols);
    }
    if Even(line.cells, cols) {
      ChunkIsPlain(line, cols);
      ChunkLines(line, cols);
      PlainRowsRead(line, cols, 0);
      assert LineGlyphs(line)[0..] == LineGlyphs(line);
      TrimsToSameTrim(LineGlyphs(line), Read(LinesOf(rows))[0]);
    }
  }
}
