/** Cutting a line that holds wide characters: no character is split, each row takes as many as
    fit, and only the last row ends the line. */
module WideChunk {
  import opened Cells
  import opened RowLaws
  import opened Grid
  import opened Reading
  import opened Reflow
  import opened ReflowLaws

  /** Every character from the boundary `at` on (its lead and continuation cells) fits in `cols`. */
  ghost predicate CharsFit(cells: seq<Cell>, at: nat, cols: nat)
    requires at <= |cells|
    decreases |cells| - at
  {
    at == |cells| || (CharEnd(cells, at + 1) - at <= cols && CharsFit(cells, CharEnd(cells, at + 1), cols))
  }

  /** No character from `at` on fits. */
  ghost predicate NoneFits(cells: seq<Cell>, at: nat, cols: nat)
    requires at <= |cells|
    decreases |cells| - at
  {
    at == |cells| || (CharEnd(cells, at + 1) - at > cols && NoneFits(cells, CharEnd(cells, at + 1), cols))
  }

  /** A character starts at `at`, or the line ends there. */
  predicate Boundary(cells: seq<Cell>, at: nat) {
    at == 0 || at >= |cells| || !IsContinuation(cells[at])
  }

  /** Where no boundary falls inside a character no character is wider than the screen. */
  lemma {:induction false} EvenFits(cells: seq<Cell>, cols: nat, k: nat, at: nat)
    requires cols >= 1 && Even(cells, cols) && k * cols <= at <= k * cols + cols && at <= |cells|
    ensures CharsFit(cells, at, cols)
    decreases |cells| - at
  {
    hide Even;
    if at < |cells| {
      var start := k * cols;
      assert (k + 1) * cols == start + cols && (k + 2) * cols == start + cols + cols;
      var n := if at == start + cols then k + 1 else k;
      RowStartsCharacter(cells, cols, n + 1);
      CharEndStops(cells, at + 1, (n + 1) * cols);
      EvenFits(cells, cols, n, CharEnd(cells, at + 1));
    }
  }

  lemma CharEndBoundary(cells: seq<Cell>, from: nat)
    requires from <= |cells|
    ensures Boundary(cells, CharEnd(cells, from))
    decreases |cells| - from
  {
  }

  /** A row: whole characters, as many as fit, at least one. */
  ghost predicate GreedyCut(cells: seq<Cell>, cut: Cut, cols: nat) {
    && cut.start < cut.end < |cells|
    && cut.end - cut.start <= cols
    && Boundary(cells, cut.end)
    && CharEnd(cells, cut.end + 1) - cut.start > cols
  }

  /** Rows that follow one another from `start` to `open` without a gap. */
  ghost predicate Contiguous(cuts: seq<Cut>, start: nat, open: nat) {
    if cuts == [] then start == open
    else cuts[0].start == start && Contiguous(cuts[1..], cuts[0].end, open)
  }

  lemma {:induction false} CutsAreGreedy(cells: seq<Cell>, cols: nat, start: nat, at: nat)
    requires start <= at <= |cells| && at - start <= cols && Boundary(cells, at)
    requires CharsFit(cells, at, cols)
    ensures var (cuts, open) := Cuts(cells, cols, start, at);
            && (forall i :: 0 <= i < |cuts| ==> GreedyCut(cells, cuts[i], cols))
            && Contiguous(cuts, start, open)
            && |cells| - open <= cols
            && (start < |cells| ==> open < |cells|)
    decreases |cells| - at
  {
    if at < |cells| {
      var next := CharEnd(cells, at + 1);
      CharEndBoundary(cells, at + 1);
      if next - start > cols {
        CutsAreGreedy(cells, cols, at, next);
        var (more, open) := Cuts(cells, cols, at, next);
        assert Cuts(cells, cols, start, at) == ([Cut(start, at)] + more, open);
      } else {
        CutsAreGreedy(cells, cols, start, next);
      }
    }
  }

  /** The spans of the rows of a line, the row that ends it included. */
  function Spans(cells: seq<Cell>, cols: nat): (r: seq<Cut>)
  {
    var (cuts, open) := Cuts(cells, cols, 0, 0);
    if open < |cells| || cuts == [] then cuts + [Cut(open, |cells|)] else cuts
  }

  lemma {:induction false} ContiguousNext(cuts: seq<Cut>, start: nat, open: nat, i: nat)
    requires Contiguous(cuts, start, open) && i < |cuts|
    ensures cuts[i].end == if i + 1 < |cuts| then cuts[i + 1].start else open
  {
    if i > 0 {
      ContiguousNext(cuts[1..], cuts[0].end, open, i - 1);
    }
  }

  lemma CutRow(line: Logical, cut: Cut, cols: nat, wrapped: bool)
    requires cut.start <= cut.end <= |line.cells| && cut.end - cut.start <= cols
    ensures RowOf(line, cut.start, cut.end, cols, wrapped).cells
            == line.cells[cut.start..cut.end] + seq(cols - (cut.end - cut.start), _ => DEFAULT_CELL)
  {
  }

  /** The spans run from the start of the line to its end, each but the last greedy. */
  ghost predicate SpansCover(cells: seq<Cell>, spans: seq<Cut>, cols: nat) {
    && spans != [] && spans[0].start == 0 && spans[|spans| - 1].end == |cells|
    && (forall i :: 0 <= i < |spans| - 1 ==>
          spans[i].end == spans[i + 1].start && GreedyCut(cells, spans[i], cols))
    && (forall i :: 0 <= i < |spans| ==>
          spans[i].start <= spans[i].end <= |cells| && spans[i].end - spans[i].start <= cols)
  }

  lemma SpansDoCover(cells: seq<Cell>, cols: nat)
    requires CharsFit(cells, 0, cols)
    ensures SpansCover(cells, Spans(cells, cols), cols)
    ensures Spans(cells, cols) == Cuts(cells, cols, 0, 0).0 + [Cut(Cuts(cells, cols, 0, 0).1, |cells|)]
  {
    var (cuts, open) := Cuts(cells, cols, 0, 0);
    CutsAreGreedy(cells, cols, 0, 0);
    forall i | 0 <= i < |cuts| ensures cuts[i].end == Spans(cells, cols)[i + 1].start {
      ContiguousNext(cuts, 0, open, i);
    }
    forall i | 0 <= i < |cuts| ensures GreedyCut(cells, cuts[i], cols) {}
  }

  lemma BareRows(line: Logical, cols: nat, spans: seq<Cut>)
    requires spans == Spans(line.cells, cols) && SpansCover(line.cells, spans, cols)
    requires spans == Cuts(line.cells, cols, 0, 0).0 + [Cut(Cuts(line.cells, cols, 0, 0).1, |line.cells|)]
    ensures |BareChunk(line, cols)| == |spans|
    ensures forall i :: 0 <= i < |spans| ==>
              BareChunk(line, cols)[i] == RowOf(line, spans[i].start, spans[i].end, cols, i < |spans| - 1)
  {
  }

  /** A span as the cells of the row that shows it. */
  function SpanCells(cells: seq<Cell>, span: Cut, cols: nat): seq<Cell>
    requires span.start <= span.end <= |cells| && span.end - span.start <= cols
  {
    cells[span.start..span.end] + seq(cols - (span.end - span.start), _ => DEFAULT_CELL)
  }

  /** When every character fits, a line is cut into rows of exactly `cols` cells that hold, span
      by span and padded with blanks, the whole line in order; each row but the last is as full
      as whole characters allow, and the line runs on from every row but the last. */
  lemma ChunkKeepsCharacters(line: Logical, cols: nat)
    requires CharsFit(line.cells, 0, cols)
    ensures SpansCover(line.cells, Spans(line.cells, cols), cols)
    ensures |Chunk(line, cols)| == |Spans(line.cells, cols)|
    ensures forall i :: 0 <= i < |Chunk(line, cols)| ==>
              && Chunk(line, cols)[i].cells == SpanCells(line.cells, Spans(line.cells, cols)[i], cols)
              && (Chunk(line, cols)[i].wrapped <==> i < |Chunk(line, cols)| - 1)
  {
    var spans := Spans(line.cells, cols);
    SpansDoCover(line.cells, cols);
    BareRows(line, cols, spans);
    ChunkSeen(line, cols);
    var rows, bare := Chunk(line, cols), BareChunk(line, cols);
    forall i | 0 <= i < |rows|
      ensures rows[i].cells == SpanCells(line.cells, spans[i], cols) && (rows[i].wrapped <==> i < |rows| - 1)
    {
      CutRow(line, spans[i], cols, i < |spans| - 1);
      assert Seen(rows[i]) == Seen(bare[i]);
    }
  }

  /** Once a character has fitted, the row open at the end of the line is never empty. */
  lemma OpenBehind(cells: seq<Cell>, cols: nat, start: nat, at: nat)
    requires start < at <= |cells|
    ensures Cuts(cells, cols, start, at).1 < |cells|
    decreases |cells| - at
  {
    if at < |cells| {
      var next := CharEnd(cells, at + 1);
      OpenBehind(cells, cols, if next - start > cols then at else start, next);
    }
  }

  lemma {:induction false} OpenAtEndIff(cells: seq<Cell>, cols: nat, at: nat)
    requires at <= |cells|
    ensures Cuts(cells, cols, at, at).1 == |cells| <==> NoneFits(cells, at, cols)
    decreases |cells| - at
  {
    if at < |cells| {
      var next := CharEnd(cells, at + 1);
      if next - at > cols {
        OpenAtEndIff(cells, cols, next);
      } else {
        OpenBehind(cells, cols, at, next);
      }
    }
  }

  /** The last row of a line is left running on exactly when the line has something in it and
      not one of its characters fits the screen. */
  lemma LastRowRunsOnIff(line: Logical, cols: nat)
    ensures var rows := Chunk(line, cols);
            rows[|rows| - 1].wrapped <==> line.cells != [] && NoneFits(line.cells, 0, cols)
  {
    ChunkSeen(line, cols);
    OpenAtEndIff(line.cells, cols, 0);
    var rows, bare := Chunk(line, cols), BareChunk(line, cols);
    assert Seen(rows[|rows| - 1]) == Seen(bare[|bare| - 1]);
    var (cuts, open) := Cuts(line.cells, cols, 0, 0);
    if line.cells == [] {
      assert cuts == [] && open == 0;
    } else if open == |line.cells| {
      assert cuts != [];
    }
  }

  /** A two-column character on a one-column screen is such a line. */
  lemma WideCharacterRunsOn()
    ensures var wide := Logical([Cell('A', PLAIN), Cell(CONTINUATION, PLAIN)], [], []);
            Chunk(wide, 1)[|Chunk(wide, 1)| - 1].wrapped
  {
    var cells := [Cell('A', PLAIN), Cell(CONTINUATION, PLAIN)];
    assert CharEnd(cells, 2) == 2 && CharEnd(cells, 1) == 2;
    LastRowRunsOnIff(Logical(cells, [], []), 1);
  }
}
