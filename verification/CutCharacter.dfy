/** What a row boundary inside a character costs, on one grid: a letter and a wide character on a row of
    three columns, the cursor just past them, taken to two columns and back. */
module CutCharacter {
  import opened Cells
  import opened RowLaws
  import opened Grid
  import opened Reading
  import opened Reflow
  import opened ReflowLaws
  import opened Recut
  import opened Transcript
  import opened CursorTrack
  import opened WideChunk
  import opened InkLaws
  import opened RoundTrip

  const LETTER: Cell := Cell('a', PLAIN)
  const LEAD: Cell := Cell('W', PLAIN)
  const REST: Cell := Cell(CONTINUATION, PLAIN)

  const WIDE_CELLS: seq<Cell> := [LETTER, LEAD, REST]

  const WIDE: Grid :=
    Grid([Row(WIDE_CELLS, [], false)], 3, Cursor(0, 2, true), Region(0, 0), [false], [false, false, false], 0,
         true, false, true)

  const NARROW_ROWS: seq<Row> := [Row([LETTER, DEFAULT_CELL], [], true), Row([LEAD, REST], [], false)]

  const NARROW_CELLS: seq<Cell> := [LETTER, DEFAULT_CELL, LEAD, REST]

  const WIDE_NARROW: Grid :=
    Grid(NARROW_ROWS, 2, Cursor(1, 1, false), FullRegion(2), All(2, true), DefaultTabs(2), 0, true, false, true)

  const BACK_ROWS: seq<Row> :=
    [Row([LETTER, DEFAULT_CELL, DEFAULT_CELL], [], true), Row([LEAD, REST, DEFAULT_CELL], [], false)]

  // ----- three columns -----

  lemma WideLines()
    ensures Used(WIDE) == 1 && GridLines(WIDE) == [Logical(WIDE_CELLS, [], [])] && CursorPos(WIDE) == (0, 3)
  {
    hide LineLen, Drawn, CutOff, MarksOf;
    var row := WIDE.rows[0];
    BareRow(row, 3);
    assert AssembleTo(WIDE.rows, 0) == ([], false);
    var line := PushRow(EMPTY_LINE, row);
    WideLength();
    assert row.cells[..3] == WIDE_CELLS && line == Logical(WIDE_CELLS, [], []);
    assert [EMPTY_LINE][0 := line] == [line];
    assert AssembleTo(WIDE.rows, 1).0 == [line];
  }

  lemma BareRow(row: Row, n: nat)
    requires row.extras == []
    ensures CutOff(Drawn(row.extras), n) == [] && MarksOf(row.extras) == []
  {
  }

  lemma WideLength()
    ensures LineLen(WIDE.rows[0]) == 3
  {
  }

  lemma WideCuts()
    ensures Cuts(WIDE_CELLS, 2, 0, 0) == ([Cut(0, 1)], 1)
  {
    assert CharEnd(WIDE_CELLS, 1) == 1 && CharEnd(WIDE_CELLS, 3) == 3 && CharEnd(WIDE_CELLS, 2) == 3;
    assert Cuts(WIDE_CELLS, 2, 1, 3) == ([], 1);
    assert Cuts(WIDE_CELLS, 2, 0, 1) == ([Cut(0, 1)] + [], 1);
    assert Cuts(WIDE_CELLS, 2, 0, 0) == Cuts(WIDE_CELLS, 2, 0, 1);
    assert [Cut(0, 1)] + [] == [Cut(0, 1)];
  }

  lemma WideFlow()
    ensures Chunk(Logical(WIDE_CELLS, [], []), 2) == NARROW_ROWS == Flow([Logical(WIDE_CELLS, [], [])], 2)
  {
    WideCuts();
    assert Piece(WIDE_CELLS, 0, 1, 2) == NARROW_ROWS[0].cells;
    assert Piece(WIDE_CELLS, 1, 3, 2) == NARROW_ROWS[1].cells;
    TwoRows(Logical(WIDE_CELLS, [], []), 1, 2, NARROW_ROWS[0], NARROW_ROWS[1]);
  }

  lemma WideIsCut()
    ensures !Even(WIDE_CELLS, 2) && Even(WIDE_CELLS, 3) && !Clean(WIDE, 2) && Clean(WIDE, 3)
  {
    WideLines();
    assert RowStart(1, 2) == 2;
    forall k: nat | 0 < RowStart(k, 3) < 3 ensures !IsContinuation(WIDE_CELLS[RowStart(k, 3)]) {
      assert RowStart(k, 3) == 3 * k;
    }
    assert GridLines(WIDE)[0].cells == WIDE_CELLS;
  }

  // ----- two columns -----

  lemma WidePlaced()
    ensures PlaceIn(Chunks([Logical(WIDE_CELLS, [], [])], 2), 0, 3, 2) == Cursor(1, 1, false)
  {
    hide Chunk;
    WideFlow();
    var none: seq<seq<Row>> := [];
    assert Chunks([Logical(WIDE_CELLS, [], [])], 2)[..0] == none;
  }

  lemma WideNarrowed()
    ensures Fits(WIDE, 2, 2) && Rewrap(WIDE, 2, 2) == (WIDE_NARROW, [])
  {
    hide LinePos, Chunks, PlaceIn, Flow, GridLines;
    WideLines();
    WideFlow();
    WidePlaced();
    RewrapFits(WIDE, 2, 2);
    assert NARROW_ROWS == ResizeRows(NARROW_ROWS, 2, 2);
    RewrapRest(WIDE, 2, 2);
  }

  lemma NarrowLengths()
    ensures LineLen(NARROW_ROWS[0]) == 2 && LineLen(NARROW_ROWS[1]) == 2
  {
  }

  lemma NarrowLines()
    ensures
      && Shape(WIDE_NARROW) && Used(WIDE_NARROW) == 2 && CursorPos(WIDE_NARROW) == (0, 3)
      && GridLines(WIDE_NARROW) == [Logical(NARROW_CELLS, [], [])]
  {
    hide LineLen, Drawn, CutOff, MarksOf;
    BareRow(NARROW_ROWS[0], 2);
    BareRow(NARROW_ROWS[1], 2);
    NarrowLengths();
    assert AssembleTo(NARROW_ROWS, 0) == ([], false);
    var one, two := Logical([LETTER, DEFAULT_CELL], [], []), Logical(NARROW_CELLS, [], []);
    assert NARROW_ROWS[0].cells[..2] == one.cells && NARROW_ROWS[1].cells[..2] == [LEAD, REST];
    assert PushRow(EMPTY_LINE, NARROW_ROWS[0]) == one;
    assert one.cells + [LEAD, REST] == NARROW_CELLS;
    assert PushRow(one, NARROW_ROWS[1]) == two;
    var none: seq<Logical> := [];
    assert (none + [EMPTY_LINE])[0 := one] == [one] && [one][0 := two] == [two];
    assert AssembleTo(NARROW_ROWS, 1) == ([one], true);
    assert AssembleTo(NARROW_ROWS, 2) == ([two], false);
  }

  // ----- three columns again -----

  lemma NarrowCuts()
    ensures Cuts(NARROW_CELLS, 3, 0, 0) == ([Cut(0, 2)], 2)
  {
    assert CharEnd(NARROW_CELLS, 1) == 1 && CharEnd(NARROW_CELLS, 2) == 2;
    assert CharEnd(NARROW_CELLS, 4) == 4 && CharEnd(NARROW_CELLS, 3) == 4;
    assert Cuts(NARROW_CELLS, 3, 2, 4) == ([], 2);
    assert Cuts(NARROW_CELLS, 3, 0, 2) == ([Cut(0, 2)] + [], 2);
    assert Cuts(NARROW_CELLS, 3, 0, 1) == Cuts(NARROW_CELLS, 3, 0, 2);
    assert Cuts(NARROW_CELLS, 3, 0, 0) == Cuts(NARROW_CELLS, 3, 0, 1);
    assert [Cut(0, 2)] + [] == [Cut(0, 2)];
  }

  lemma NarrowFlow()
    ensures Flow([Logical(NARROW_CELLS, [], [])], 3) == BACK_ROWS
  {
    NarrowCuts();
    assert Piece(NARROW_CELLS, 0, 2, 3) == BACK_ROWS[0].cells;
    assert Piece(NARROW_CELLS, 2, 4, 3) == BACK_ROWS[1].cells;
    TwoRows(Logical(NARROW_CELLS, [], []), 2, 3, BACK_ROWS[0], BACK_ROWS[1]);
  }

  lemma WideWidened()
    ensures Shape(WIDE_NARROW) && Fits(WIDE_NARROW, 2, 3) && Rewrap(WIDE_NARROW, 2, 3).0.rows == BACK_ROWS
  {
    hide LinePos, Chunks, PlaceIn, Flow, GridLines;
    NarrowLines();
    NarrowFlow();
    RewrapFits(WIDE_NARROW, 2, 3);
    assert ResizeRows(BACK_ROWS, 2, 3) == BACK_ROWS;
  }

  // ----- what it costs -----

  /** The text changes: the wide character moves down whole, and the column it leaves is read as a blank
      that was not there. */
  lemma CutCharacterIsPadded()
    ensures Wf(WIDE) && !CutsCleanly(WIDE, 2) && Rewrap(WIDE, 2, 2) == (WIDE_NARROW, [])
    ensures TrimAll(Read(LinesOf(NARROW_ROWS))) != TrimAll(Read(LinesOf(WIDE.rows)))
  {
    hide Rewrap, Reseam, Flow, Read, TrimAll, GridLines;
    WideIsCut();
    WideNarrowed();
    NoSeam(WIDE, 2);
    WideLines();
    WideFlow();
    RewrapKeepsTranscriptIff(WIDE, 2, 2);
    assert WIDE.rows[..1] == WIDE.rows;
    assert LinesOfDeparted([]) + LinesOf(NARROW_ROWS) == LinesOf(NARROW_ROWS);
    assert TrimAll(Read(LinesOf(WIDE.rows))) + EmptyLines(0) == TrimAll(Read(LinesOf(WIDE.rows)));
  }

  /** The cursor, which stood just past the wide character, is left on its second column: the offset is the
      one it had, and the blank counts for one. */
  lemma CutCharacterMisplacesCursor()
    ensures CursorPos(WIDE) == (0, 3) && CharsFit(WIDE_CELLS, 0, 2)
    ensures
      var c := Rewrap(WIDE, 2, 2).0.cursor;
      && c == Cursor(1, 1, false) && NARROW_ROWS[c.row].cells[c.col] == REST
      && !HeldAt(WIDE_CELLS, 2, 3, 1, 1) && HeldAt(WIDE_CELLS, 2, 3, 1, 2)
  {
    hide Rewrap;
    WideLines();
    WideNarrowed();
    WideCuts();
    assert CharEnd(WIDE_CELLS, 1) == 1 && CharEnd(WIDE_CELLS, 2) == 3;
    assert CharsFit(WIDE_CELLS, 3, 2) && CharsFit(WIDE_CELLS, 1, 2);
    assert Spans(WIDE_CELLS, 2) == [Cut(0, 1), Cut(1, 3)];
  }

  /** The layout does not come back, though there is room both times and the last row shows: the blank has
      become part of the line. */
  lemma CutCharacterLosesLayout()
    ensures Restorable(WIDE) && Archives(WIDE) && !Clean(WIDE, 2) && Clean(WIDE, 3) && TailShows(WIDE, 2)
    ensures
      var (h, after) := ThereAndBack(WIDE, 2, 2, 2);
      Fits(WIDE, 2, 2) && Fits(h, 2, 3) && after.rows == BACK_ROWS && !Restored(WIDE, after)
  {
    hide Flow, Rewrap, GridLines, Reseam, LinePos;
    WideIsCut();
    WideLines();
    WideFlow();
    WideNarrowed();
    WideWidened();
    WideIsRestorable();
    var (h, after) := ThereAndBack(WIDE, 2, 2, 2);
    assert h == WIDE_NARROW;
    assert LooksOf(after.rows[..1])[0].cells[1] != LooksOf(WIDE.rows[..1])[0].cells[1];
  }

  lemma WideIsRestorable()
    ensures Restorable(WIDE) && Archives(WIDE) && TailShows(WIDE, 2)
  {
    WideLines();
    WideFlow();
    WidePlaced();
  }
}
