/** How far along its line the last cell that shows stands. Cutting lines of characters that all fit
    never brings it closer, and takes it further off when a boundary falls inside a character. */
module ReachLaws {
  import opened Cells
  import opened RowLaws
  import opened Grid
  import opened Reading
  import opened Reflow
  import opened ReflowLaws
  import opened Recut
  import opened Transcript
  import opened WideChunk
  import opened InkLaws

  /** How far each line reaches, summed. */
  function Reach(texts: seq<seq<Glyph>>): nat {
    if texts == [] then 0 else Reach(texts[..|texts| - 1]) + CellsLen(CellsIn(texts[|texts| - 1]))
  }

  function RowsReach(rows: seq<Row>): nat {
    Reach(Read(LinesOf(rows)))
  }

  /** `x` is `cells` and default blanks after it. */
  predicate PaddedOut(cells: seq<Cell>, x: seq<Cell>) {
    cells <= x && forall i :: |cells| <= i < |x| ==> x[i] == DEFAULT_CELL
  }

  lemma PaddedReach(cells: seq<Cell>, x: seq<Cell>)
    requires PaddedOut(cells, x)
    ensures CellsLen(x) == CellsLen(cells)
  {
    var n := CellsLen(cells);
    assert n > 0 ==> x[n - 1] == cells[n - 1];
    assert forall i :: n <= i < |cells| ==> x[i] == cells[i];
  }

  lemma ReachJoin(a: seq<Cell>, b: seq<Cell>)
    ensures CellsLen(a + b) == if CellsLen(b) > 0 then |a| + CellsLen(b) else CellsLen(a)
  {
    var n := CellsLen(b);
    if n > 0 {
      assert (a + b)[|a| + n - 1] == b[n - 1];
    } else {
      assert PaddedOut(a, a + b);
      PaddedReach(a, a + b);
    }
  }

  // ----- one line -----

  lemma LaidFull(cells: seq<Cell>, cols: nat, start: nat, at: nat, below: seq<Cell>)
    requires start <= at <= |cells| && at - start == cols
    requires PaddedOut(cells[at..], below) || CellsLen(below) > CellsLen(cells[at..])
    ensures var x := Piece(cells, start, at, cols) + below;
            PaddedOut(cells[start..], x) || CellsLen(x) > CellsLen(cells[start..])
  {
    var row, rest := cells[start..at], cells[at..];
    assert Piece(cells, start, at, cols) == row;
    assert cells[start..] == row + rest;
    if PaddedOut(rest, below) {
      assert PaddedOut(row + rest, row + below);
    } else {
      ReachJoin(row, rest);
      ReachJoin(row, below);
    }
  }

  lemma LaidShort(cells: seq<Cell>, cols: nat, start: nat, at: nat, below: seq<Cell>)
    requires start <= at && at + 1 < |cells| && at - start < cols && IsContinuation(cells[at + 1])
    requires CellsLen(below) >= CellsLen(cells[at..])
    ensures CellsLen(Piece(cells, start, at, cols) + below) > CellsLen(cells[start..])
  {
    var rest := cells[at..];
    assert rest[1] == cells[at + 1] != DEFAULT_CELL;
    assert CellsLen(rest) > 1;
    assert cells[start..] == cells[start..at] + rest;
    ReachJoin(cells[start..at], rest);
    ReachJoin(Piece(cells, start, at, cols), below);
  }

  /** Laid out in rows, a line whose characters all fit is itself, padded out, or reaches further. */
  lemma {:induction false} ReachLaid(cells: seq<Cell>, cols: nat, start: nat, at: nat)
    requires cols >= 1 && start <= at <= |cells| && at - start <= cols && CharsFit(cells, at, cols)
    ensures var x := Laid(cells, cols, start, at);
            PaddedOut(cells[start..], x) || CellsLen(x) > CellsLen(cells[start..])
    decreases |cells| - at
  {
    hide CellsLen, Piece, PaddedOut;
    if at == |cells| {
      LastLaid(cells, cols, start);
    } else {
      var next := CharEnd(cells, at + 1);
      if next - start > cols {
        ReachLaid(cells, cols, at, next);
        var below := Laid(cells, cols, at, next);
        if at - start == cols {
          LaidFull(cells, cols, start, at, below);
        } else {
          CharIsWide(cells, at + 1);
          if PaddedOut(cells[at..], below) {
            PaddedReach(cells[at..], below);
          }
          LaidShort(cells, cols, start, at, below);
        }
      } else {
        ReachLaid(cells, cols, start, next);
      }
    }
  }

  lemma LastLaid(cells: seq<Cell>, cols: nat, start: nat)
    requires start <= |cells| <= start + cols
    ensures PaddedOut(cells[start..], Laid(cells, cols, start, |cells|))
  {
    assert cells[start..|cells|] == cells[start..];
  }

  /** Rows that run on into one another reassemble into one line, less its padding. */
  lemma {:induction false} ChainCells(rows: seq<Row>, n: nat)
    requires 0 < n <= |rows| && forall i :: 0 <= i < n - 1 ==> rows[i].wrapped
    ensures var lines := AssembleTo(rows, n).0;
            && |lines| == 1 && PaddedOut(lines[0].cells, Flat(rows[..n]))
            && (rows[n - 1].wrapped ==> lines[0].cells == Flat(rows[..n]))
  {
    hide ContentEnd, CellsLen, PushRow;
    var row := rows[n - 1];
    var before := if n > 1 then Flat(rows[..n - 1]) else [];
    if n > 1 {
      ChainCells(rows, n - 1);
    } else {
      assert AssembleTo(rows, 0) == ([], false);
    }
    assert rows[..n][..n - 1] == rows[..n - 1];
    assert Flat(rows[..n]) == before + row.cells;
    PushPadded(if n > 1 then AssembleTo(rows, n - 1).0[0] else EMPTY_LINE, row);
  }

  lemma PushPadded(line: Logical, row: Row)
    ensures PaddedOut(PushRow(line, row).cells, line.cells + row.cells)
    ensures row.wrapped ==> PushRow(line, row).cells == line.cells + row.cells
  {
    var all, len := line.cells + row.cells, Min(LineLen(row), |row.cells|);
    assert PushRow(line, row).cells == all[..|line.cells| + len];
    assert row.wrapped ==> all[..|all|] == all;
  }

  lemma CellsInLine(line: Logical)
    ensures CellsIn(LineGlyphs(line)) == line.cells
  {
  }

  lemma OneReach(text: seq<Glyph>)
    ensures Reach([text]) == CellsLen(CellsIn(text))
  {
    assert [text][..0] == [];
  }

  /** The line re-cut rows read as. */
  lemma ChunkReadCells(line: Logical, cols: nat)
    requires cols >= 1
    ensures |Read(LinesOf(Chunk(line, cols)))| == 1
    ensures Even(CellsIn(Read(LinesOf(Chunk(line, cols)))[0]), cols)
    ensures PaddedOut(CellsIn(Read(LinesOf(Chunk(line, cols)))[0]), Flat(Chunk(line, cols)))
  {
    hide Chunk, Even, PaddedOut, Flat, Read;
    var rows := Chunk(line, cols);
    ChunkOk(line, cols);
    ChunkStarts(line, cols);
    assert rows[..|rows|] == rows;
    ChainCells(rows, |rows|);
    AssembleReads(rows, |rows|, cols);
    var _ := StartsAssemble(rows, |rows|, cols);
    var read := AssembleTo(rows, |rows|).0;
    CellsInLine(read[0]);
    assert |AllGlyphs(read)| == 1 && AllGlyphs(read)[0] == LineGlyphs(read[0]);
  }

  lemma PaddedEven(cells: seq<Cell>, x: seq<Cell>, y: seq<Cell>, cols: nat)
    requires cols >= 1 && PaddedOut(cells, x) && PaddedOut(y, x) && Even(y, cols)
    ensures Even(cells, cols)
  {
    forall k: nat | 0 < RowStart(k, cols) < |cells| ensures !IsContinuation(cells[RowStart(k, cols)]) {
      var at := RowStart(k, cols);
      assert cells[at] == x[at] == if at < |y| then y[at] else DEFAULT_CELL;
    }
  }

  /** Cutting a line whose characters all fit leaves it reaching as far, or further if a boundary cut one. */
  lemma ChunkReach(line: Logical, cols: nat)
    requires cols >= 1 && CharsFit(line.cells, 0, cols)
    ensures Closed(LinesOf(Chunk(line, cols)))
    ensures RowsReach(Chunk(line, cols)) >= CellsLen(line.cells)
    ensures RowsReach(Chunk(line, cols)) == CellsLen(line.cells) ==> Even(line.cells, cols)
  {
    hide Chunk, Even, CellsLen, PaddedOut, Flat, Read, Laid, LineOf, CellsIn;
    var rows, cells := Chunk(line, cols), line.cells;
    ChunkReadCells(line, cols);
    var text := Read(LinesOf(rows))[0];
    assert Read(LinesOf(rows)) == [text];
    OneReach(text);
    PaddedReach(CellsIn(text), Flat(rows));
    FitsCloses(line, cols);
    ChunkLaid(line, cols);
    if cells == [] {
      EmptyPadded(cols);
    } else {
      ReachLaid(cells, cols, 0, 0);
      assert cells[0..] == cells;
    }
    if PaddedOut(cells, Flat(rows)) {
      PaddedReach(cells, Flat(rows));
      PaddedEven(cells, Flat(rows), CellsIn(text), cols);
    }
  }

  lemma EmptyPadded(cols: nat)
    ensures PaddedOut([], Pad([], cols))
  {
  }

  lemma FitsCloses(line: Logical, cols: nat)
    requires CharsFit(line.cells, 0, cols)
    ensures Closed(LinesOf(Chunk(line, cols)))
  {
    LastRowRunsOnIff(line, cols);
  }

  // ----- many lines -----

  lemma {:induction false} ReachConcat(a: seq<seq<Glyph>>, b: seq<seq<Glyph>>)
    ensures Reach(a + b) == Reach(a) + Reach(b)
  {
    if b == [] {
      assert a + b == a;
    } else {
      ReachConcat(a, b[..|b| - 1]);
      assert (a + b)[..|a + b| - 1] == a + b[..|b| - 1];
    }
  }

  lemma AllGlyphsSnoc(lines: seq<Logical>)
    requires lines != []
    ensures Reach(AllGlyphs(lines)) == Reach(AllGlyphs(lines[..|lines| - 1])) + CellsLen(lines[|lines| - 1].cells)
  {
    assert AllGlyphs(lines)[..|lines| - 1] == AllGlyphs(lines[..|lines| - 1]);
    CellsInLine(lines[|lines| - 1]);
  }

  lemma EvenLinesSnoc(lines: seq<Logical>, cols: nat)
    requires cols >= 1 && lines != []
    ensures EvenLines(lines, cols)
            <==> EvenLines(lines[..|lines| - 1], cols) && Even(lines[|lines| - 1].cells, cols)
  {
    assert lines == lines[..|lines| - 1] + [lines[|lines| - 1]];
  }

  /** Lines whose characters all fit reach no less far once they are cut, and further if one was cut. */
  lemma {:induction false} FlowReach(lines: seq<Logical>, cols: nat)
    requires cols >= 1 && AllFit(lines, cols)
    ensures Closed(LinesOf(Flow(lines, cols)))
    ensures RowsReach(Flow(lines, cols)) >= Reach(AllGlyphs(lines))
    ensures RowsReach(Flow(lines, cols)) == Reach(AllGlyphs(lines)) ==> EvenLines(lines, cols)
  {
    hide Even, Chunk, Flow, CharsFit, CellsLen, AllGlyphs, EvenLines, LineOf;
    if lines == [] {
      NothingReaches(cols);
    } else {
      var n := |lines| - 1;
      AllFitSnoc(lines, cols);
      FlowReach(lines[..n], cols);
      ChunkReach(lines[n], cols);
      FlowSnoc(lines, cols);
      var above, one := LinesOf(Flow(lines[..n], cols)), LinesOf(Chunk(lines[n], cols));
      ReadClosed(above, one);
      ReachConcat(Read(above), Read(one));
      AllGlyphsSnoc(lines);
      EvenLinesSnoc(lines, cols);
    }
  }

  lemma NothingReaches(cols: nat)
    requires cols >= 1
    ensures Flow([], cols) == [] && Reach(AllGlyphs([])) == 0 && EvenLines([], cols)
    ensures RowsReach([]) == 0 && LinesOf([]) == []
  {
  }

  /** A continued line begins with a character on every row, if every character fits. */
  lemma {:induction false} FlowStarts(lines: seq<Logical>, cols: nat)
    requires cols >= 1 && AllFit(lines, cols)
    ensures RowsStart(Flow(lines, cols)) && Closed(LinesOf(Flow(lines, cols)))
  {
    hide Chunk, CharsFit, Starts;
    if lines != [] {
      var n := |lines| - 1;
      AllFitSnoc(lines, cols);
      FlowStarts(lines[..n], cols);
      ChunkStarts(lines[n], cols);
      FitsCloses(lines[n], cols);
      assert Chunks(lines, cols)[..n] == Chunks(lines[..n], cols);
      StartsConcat(Flow(lines[..n], cols), Chunk(lines[n], cols));
    }
  }

  lemma StartsConcat(a: seq<Row>, b: seq<Row>)
    requires RowsStart(a) && RowsStart(b) && Closed(LinesOf(a)) && Closed(LinesOf(b)) && b != []
    ensures RowsStart(a + b) && Closed(LinesOf(a + b))
  {
    assert LinesOf(a + b)[|a + b| - 1] == LineOf(b[|b| - 1]);
    assert a != [] ==> LinesOf(a)[|a| - 1] == LineOf(a[|a| - 1]);
    forall i | 0 < i < |a + b| && (a + b)[i - 1].wrapped ensures Starts((a + b)[i].cells, 0) {
      if i > |a| {
        assert b[i - |a| - 1].wrapped;
      }
    }
  }

  // ----- rows that differ only in what does not show -----

  lemma {:induction false} ReachSame(a: seq<seq<Glyph>>, b: seq<seq<Glyph>>)
    requires |a| == |b| && forall i :: 0 <= i < |a| ==> CellsLen(CellsIn(a[i])) == CellsLen(CellsIn(b[i]))
    ensures Reach(a) == Reach(b)
  {
    if a != [] {
      ReachSame(a[..|a| - 1], b[..|b| - 1]);
    }
  }

  /** The cells a row reads as are its own, less default blanks. */
  lemma LineOfCells(row: Row)
    ensures PaddedOut(CellsIn(LineOf(row).glyphs), row.cells)
    ensures row.wrapped ==> CellsIn(LineOf(row).glyphs) == row.cells
  {
  }

  lemma CellsInConcat(a: seq<Glyph>, b: seq<Glyph>)
    ensures CellsIn(a + b) == CellsIn(a) + CellsIn(b)
  {
  }

  lemma {:induction false} LooksReach(a: seq<Row>, b: seq<Row>)
    requires LooksOf(a) == LooksOf(b)
    ensures |Read(LinesOf(a))| == |Read(LinesOf(b))|
    ensures forall i :: 0 <= i < |Read(LinesOf(a))| ==>
              CellsLen(CellsIn(Read(LinesOf(a))[i])) == CellsLen(CellsIn(Read(LinesOf(b))[i]))
    decreases |a|
  {
    hide CellsLen, LineLen;
    if a != [] {
      assert LooksOf(a)[0] == LooksOf(b)[0] && LooksOf(a[1..]) == LooksOf(a)[1..] == LooksOf(b[1..]);
      LooksReach(a[1..], b[1..]);
      assert LinesOf(a)[1..] == LinesOf(a[1..]) && LinesOf(b)[1..] == LinesOf(b[1..]);
      PrependReach(a[0], b[0], Read(LinesOf(a[1..])), Read(LinesOf(b[1..])));
    }
  }

  lemma PrependReach(a: Row, b: Row, x: seq<seq<Glyph>>, y: seq<seq<Glyph>>)
    requires a.cells == b.cells && a.wrapped == b.wrapped && |x| == |y|
    requires forall i :: 0 <= i < |x| ==> CellsLen(CellsIn(x[i])) == CellsLen(CellsIn(y[i]))
    ensures var (p, q) := (Prepend(LineOf(a), x), Prepend(LineOf(b), y));
            |p| == |q| && forall i :: 0 <= i < |p| ==> CellsLen(CellsIn(p[i])) == CellsLen(CellsIn(q[i]))
  {
    hide CellsLen, CellsIn;
    LineOfCells(a);
    LineOfCells(b);
    PaddedReach(CellsIn(LineOf(a).glyphs), a.cells);
    PaddedReach(CellsIn(LineOf(b).glyphs), b.cells);
    if a.wrapped && x != [] {
      CellsInConcat(LineOf(a).glyphs, x[0]);
      CellsInConcat(LineOf(b).glyphs, y[0]);
      ReachJoin(a.cells, CellsIn(x[0]));
      ReachJoin(b.cells, CellsIn(y[0]));
    }
  }

  /** Rows that look the same reach as far. */
  lemma SameLooksReach(a: seq<Row>, b: seq<Row>)
    requires LooksOf(a) == LooksOf(b)
    ensures RowsReach(a) == RowsReach(b)
  {
    LooksReach(a, b);
    ReachSame(Read(LinesOf(a)), Read(LinesOf(b)));
  }

  /** A row without a cell that shows reaches no further than the rows above it. */
  lemma InklessSnoc(rows: seq<Row>, row: Row)
    requires Ink(row.cells) == 0
    ensures RowsReach(rows + [row]) == RowsReach(rows)
  {
    hide CellsLen, LineOf;
    LenIsInk(row.cells);
    LineOfCells(row);
    PaddedReach(CellsIn(LineOf(row).glyphs), row.cells);
    LinesOfConcat(rows, [row]);
    assert LinesOf([row]) == [LineOf(row)];
    if rows == [] {
      assert rows + [row] == [row] && LinesOf([row])[1..] == [] && Read([]) == [];
      assert Read([LineOf(row)]) == [LineOf(row).glyphs];
      OneReach(LineOf(row).glyphs);
    } else {
      ReadSnoc(LinesOf(rows), LineOf(row));
      ExtendReach(Read(LinesOf(rows)), LinesOf(rows)[|rows| - 1].wrapped, LineOf(row).glyphs);
    }
  }

  lemma ExtendReach(above: seq<seq<Glyph>>, wrapped: bool, gs: seq<Glyph>)
    requires CellsLen(CellsIn(gs)) == 0
    ensures Reach(Extend(above, wrapped, gs)) == Reach(above)
  {
    var n := |above| - 1;
    if wrapped && above != [] {
      CellsInConcat(above[n], gs);
      ReachJoin(CellsIn(above[n]), CellsIn(gs));
      assert (above[..n] + [above[n] + gs])[..n] == above[..n];
    } else {
      assert (above + [gs])[..|above|] == above;
    }
  }

  lemma LenIsInk(cells: seq<Cell>)
    ensures CellsLen(cells) > 0 ==> Ink(cells) > 0
  {
    if CellsLen(cells) > 0 {
      InkShows(cells, CellsLen(cells) - 1);
    }
  }

  /** Rows below the last cell that shows add nothing. */
  lemma {:induction false} InklessBelow(rows: seq<Row>, n: nat)
    requires n <= |rows| && InkAll(RowCells(rows[..n])) == InkAll(RowCells(rows))
    ensures RowsReach(rows[..n]) == RowsReach(rows)
    decreases |rows|
  {
    hide Ink, InkAll, RowCells, RowsReach;
    if n < |rows| {
      var m := |rows| - 1;
      assert rows[..m][..n] == rows[..n] && rows[..|rows|] == rows;
      InkRows(rows, |rows|);
      InkFront(rows[..m], n);
      InklessBelow(rows[..m], n);
      InklessSnoc(rows[..m], rows[m]);
      assert rows == rows[..m] + [rows[m]];
    } else {
      assert rows[..n] == rows;
    }
  }

  lemma InkFront(rows: seq<Row>, n: nat)
    requires n <= |rows|
    ensures InkAll(RowCells(rows[..n])) <= InkAll(RowCells(rows))
  {
    assert RowCells(rows) == RowCells(rows[..n]) + RowCells(rows[n..]);
    InkAllConcat(RowCells(rows[..n]), RowCells(rows[n..]));
  }

  /** The lines a rewrap works on reach as far as the rows in use. */
  lemma GridReach(g: Grid)
    requires Wf(g)
    ensures Reach(AllGlyphs(GridLines(g))) == RowsReach(g.rows[..Used(g)])
  {
    hide AssembleTo, LinePos, Read, CellsLen;
    AssembleReads(g.rows, Used(g), g.cols);
    var base := AssembleTo(g.rows, Used(g)).0;
    var (line, offset) := LinePos(g.rows, g.cursor.row, g.cursor.col, g.cursor.wrapPending);
    forall i | 0 <= i < |base|
      ensures CellsLen(CellsIn(AllGlyphs(GridLines(g))[i])) == CellsLen(CellsIn(AllGlyphs(base)[i]))
    {
      CellsInLine(base[i]);
      CellsInLine(GridLines(g)[i]);
      if i == line {
        assert PaddedOut(base[i].cells, GridLines(g)[i].cells);
        PaddedReach(base[i].cells, GridLines(g)[i].cells);
      }
    }
    ReachSame(AllGlyphs(GridLines(g)), AllGlyphs(base));
  }
}
