/** What each operation leaves on the grid: which rows move and where to, which columns are blanked or written,
    and that the rest stays. Nothing here mentions how an operation goes about it. */
module GridEffects {
  import opened Cells
  import opened Grid
  import opened GridLaws
  import opened Reading
  import opened Reflow
  import opened ReflowLaws
  import E = Effects

  /** A row of blanks and nothing else. */
  ghost predicate Bare(row: Row, cols: nat, style: Style) {
    && |row.cells| == cols
    && (forall k :: 0 <= k < cols ==> row.cells[k] == Cell(BLANK, style))
    && row.extras == [] && !row.wrapped
  }

  /** Rows `top..=bottom` moved up by `n`, bare rows coming in below them. */
  ghost predicate MovedUp(before: seq<Row>, after: seq<Row>, top: nat, bottom: nat, n: nat, cols: nat, style: Style) {
    && |after| == |before|
    && (forall i :: 0 <= i < |after| && !(top <= i <= bottom) ==> after[i] == before[i])
    && (forall i :: top <= i < |after| && i + n <= bottom && bottom < |after| ==> after[i] == before[i + n])
    && (forall i :: top <= i <= bottom && i < |after| && bottom < i + n ==> Bare(after[i], cols, style))
  }

  /** Rows `top..=bottom` moved down by `n`, bare rows coming in above them. */
  ghost predicate MovedDown(before: seq<Row>, after: seq<Row>, top: nat, bottom: nat, n: nat, cols: nat, style: Style) {
    && |after| == |before|
    && (forall i :: 0 <= i < |after| && !(top <= i <= bottom) ==> after[i] == before[i])
    && (forall i :: top + n <= i <= bottom && i < |after| ==> after[i] == before[i - n])
    && (forall i :: top <= i <= bottom && i < |after| && i < top + n ==> Bare(after[i], cols, style))
  }

  /** The height of the region, or as much of it as `n` lines are. */
  function Moved(top: nat, bottom: nat, n: nat): nat
    requires top <= bottom
  {
    if n <= bottom + 1 - top then n else bottom + 1 - top
  }

  /** Rows and flags aside, the grid is as it was. */
  ghost predicate Else(g: Grid, h: Grid) {
    h == g.(rows := h.rows, dirty := h.dirty)
  }

  /** The colour a blank of this style shows. */
  function Ground(style: Style): Color {
    if style.attrs / 32 % 2 == 1 then style.fg else style.bg
  }

  /** An erased blank shows what a blank in the pen would, and nothing else of the pen. */
  lemma ErasedPaints(pen: Style)
    ensures Ground(Erased(pen)) == Ground(pen) && Erased(pen).bg == pen.bg && Erased(Erased(pen)) == Erased(pen)
    ensures Erased(pen).attrs == 0 || Erased(pen).attrs == 32
    ensures Erased(pen).attrs == 0 ==> Erased(pen).fg == DefaultColor
  {
  }

  // ----- rows moving -----

  lemma RowsUpMove(rows: seq<Row>, top: nat, bottom: nat, n: nat, style: Style, cols: nat)
    requires top <= bottom < |rows| && n <= bottom + 1 - top && RowsOk(rows, cols)
    ensures MovedUp(rows, RowsUp(rows, top, bottom, n, style), top, bottom, n, cols, style)
    ensures MovedDown(rows, RowsDown(rows, top, bottom, n, style), top, bottom, n, cols, style)
  {
    hide InRange;
    var up, down := RowsUp(rows, top, bottom, n, style), RowsDown(rows, top, bottom, n, style);
    forall i | top <= i <= bottom && bottom < i + n ensures Bare(up[i], cols, style) {
      assert up[i] == ClearRow(rows[i + n - (bottom + 1 - top)], style);
    }
    forall i | top <= i <= bottom && i < top + n ensures Bare(down[i], cols, style) {
      assert down[i] == ClearRow(rows[i - n + (bottom + 1 - top)], style);
    }
  }

  lemma Unmoved(rows: seq<Row>, top: nat, bottom: nat, cols: nat, style: Style)
    ensures MovedUp(rows, rows, top, bottom, 0, cols, style) && MovedDown(rows, rows, top, bottom, 0, cols, style)
  {
  }

  lemma ScrollUpLeaves(g: Grid, n: nat, pen: Style)
    requires Wf(g)
    ensures var (h, top, bottom) := (ScrollUp(g, n, pen).0, g.region.top, g.region.bottom);
            && MovedUp(g.rows, h.rows, top, bottom, Moved(top, bottom, n), g.cols, Erased(pen))
            && Else(g, h.(carried := g.carried))
  {
    hide MovedUp, RowsUp, RowsOk, DepartAll, CarryOf, TouchRange, Erased;
    RowsUpMove(g.rows, g.region.top, g.region.bottom, Moved(g.region.top, g.region.bottom, n), Erased(pen), g.cols);
    Unmoved(g.rows, g.region.top, g.region.bottom, g.cols, Erased(pen));
  }

  lemma ScrollDownLeaves(g: Grid, n: nat, pen: Style)
    requires Wf(g)
    ensures var (h, top, bottom) := (ScrollDown(g, n, pen), g.region.top, g.region.bottom);
            && MovedDown(g.rows, h.rows, top, bottom, Moved(top, bottom, n), g.cols, Erased(pen))
            && Else(g, h)
  {
    hide MovedDown, RowsDown, RowsOk, TouchRange, Erased;
    RowsUpMove(g.rows, g.region.top, g.region.bottom, Moved(g.region.top, g.region.bottom, n), Erased(pen), g.cols);
    Unmoved(g.rows, g.region.top, g.region.bottom, g.cols, Erased(pen));
  }

  /** The rows that archive: those off the top of the whole screen, when there is a history. */
  lemma ScrollUpArchives(g: Grid, n: nat, pen: Style)
    requires Wf(g)
    ensures var ev := ScrollUp(g, n, pen).1;
            if g.history && g.region.top == 0 && g.region.bottom == |g.rows| - 1
            then LinesOfDeparted(ev) == LinesOf(g.rows[..Moved(0, |g.rows| - 1, n)])
            else ev == []
  {
    hide DepartAll, RowsUp, CarryOf, TouchRange, LinesOf, LinesOfDeparted, RowOk;
    if Archives(g) {
      var m := Moved(0, |g.rows| - 1, n);
      DepartAllReads(g.rows[..m], g.cols);
      if m == 0 {
        assert g.rows[..0] == [] && LinesOf([]) == [] && LinesOfDeparted([]) == [] by { NoLines(); }
      }
    }
  }

  lemma NoLines()
    ensures LinesOf([]) == [] && LinesOfDeparted([]) == []
  {
  }

  /** Lines that hold nothing: no columns of them count where the pen leaves no colour. */
  function BlankLines(n: nat, cols: nat, style: Style): (r: seq<Line>)
    ensures |r| == n
  {
    seq(n, _ => Line(if style == PLAIN then [] else seq(cols, _ => Glyph(Cell(BLANK, style), [])), false))
  }

  lemma BareReads(row: Row, cols: nat, style: Style)
    requires Bare(row, cols, style)
    ensures [LineOf(row)] == BlankLines(1, cols, style)
  {
    hide CellsLen, ExtrasAt;
    BareLength(row, cols, style);
    var gs := Glyphs(row.cells, row.extras);
    forall k | 0 <= k < cols ensures gs[k] == Glyph(Cell(BLANK, style), []) {
      NothingThere(k);
    }
    if style == PLAIN {
      assert gs[..0] == [];
      assert LineOf(row) == Line([], false);
    } else {
      assert gs[..cols] == seq(cols, _ => Glyph(Cell(BLANK, style), []));
    }
  }

  lemma NothingThere(k: nat)
    ensures ExtrasAt([], k) == []
  {
  }

  lemma BareLength(row: Row, cols: nat, style: Style)
    requires Bare(row, cols, style)
    ensures LineLen(row) == if style == PLAIN then 0 else cols
  {
    assert ContentEnd([]) == 0;
    assert Cell(BLANK, PLAIN) == DEFAULT_CELL;
    if style == PLAIN {
      assert forall k :: 0 <= k < |row.cells| ==> row.cells[k] == DEFAULT_CELL;
      assert CellsLen(row.cells) == 0;
    } else if cols > 0 {
      assert row.cells[cols - 1] != DEFAULT_CELL;
    }
  }

  /** A scroll loses no line and shows none twice: what departed, and then what stands, are the lines that stood
      and the blank ones that came in. */
  lemma ScrollKeepsLines(g: Grid, n: nat, pen: Style)
    requires Wf(g) && g.history && g.region == Region(0, |g.rows| - 1)
    ensures var (h, ev) := ScrollUp(g, n, pen);
            LinesOfDeparted(ev) + LinesOf(h.rows)
            == LinesOf(g.rows) + BlankLines(Moved(0, |g.rows| - 1, n), g.cols, Erased(pen))
  {
    hide ScrollUp, LineOf, RowsOk, Erased;
    var (h, ev) := ScrollUp(g, n, pen);
    var m := Moved(0, |g.rows| - 1, n);
    ScrollUpLeaves(g, n, pen);
    ScrollUpArchives(g, n, pen);
    LinesMoved(g.rows, h.rows, m, g.cols, Erased(pen));
  }

  lemma LinesMoved(before: seq<Row>, after: seq<Row>, n: nat, cols: nat, style: Style)
    requires before != [] && n <= |before| && MovedUp(before, after, 0, |before| - 1, n, cols, style)
    ensures LinesOf(before[..n]) + LinesOf(after) == LinesOf(before) + BlankLines(n, cols, style)
  {
    hide LineOf, Bare;
    var one, two := LinesOf(before[..n]) + LinesOf(after), LinesOf(before) + BlankLines(n, cols, style);
    forall i | 0 <= i < |one| ensures one[i] == two[i] {
      if |before| <= i {
        BareReads(after[i - n], cols, style);
        assert BlankLines(1, cols, style)[0] == BlankLines(n, cols, style)[i - |before|];
      }
    }
  }

  /** A line feed at the bottom of the region scrolls it by one; elsewhere it moves the cursor down, if it can. */
  lemma LinefeedLeaves(g: Grid, pen: Style)
    requires Wf(g)
    ensures var (h, top, bottom, row) := (Linefeed(g, pen).0, g.region.top, g.region.bottom, g.cursor.row);
            && (row == bottom ==> MovedUp(g.rows, h.rows, top, bottom, 1, g.cols, Erased(pen)))
            && (row != bottom ==> h.rows == g.rows && h.dirty == g.dirty && h.carried == g.carried)
            && h.cursor == Cursor(if row != bottom && row + 1 < |g.rows| then row + 1 else row, g.cursor.col, false)
            && Else(g, h.(cursor := g.cursor, carried := g.carried))
  {
    hide MovedUp, RowsOk, ScrollUp, Erased;
    ScrollUpLeaves(g.(cursor := g.cursor.(wrapPending := false)), 1, pen);
  }

  lemma LinefeedArchives(g: Grid, pen: Style)
    requires Wf(g)
    ensures var ev := Linefeed(g, pen).1;
            if g.history && g.region.top == 0 && g.region.bottom == |g.rows| - 1 == g.cursor.row
            then LinesOfDeparted(ev) == [LineOf(g.rows[0])]
            else ev == []
  {
    hide RowsOk, ScrollUp, LineOf, LineOfDeparted;
    ScrollUpArchives(g.(cursor := g.cursor.(wrapPending := false)), 1, pen);
    assert LinesOf(g.rows[..1]) == [LineOf(g.rows[0])];
  }

  /** A line feed loses no line and shows none twice. */
  lemma LinefeedKeepsLines(g: Grid, pen: Style)
    requires Wf(g) && g.history && g.region == Region(0, |g.rows| - 1)
    ensures var (h, ev) := Linefeed(g, pen);
            LinesOfDeparted(ev) + LinesOf(h.rows)
            == LinesOf(g.rows) + BlankLines(if g.cursor.row == |g.rows| - 1 then 1 else 0, g.cols, Erased(pen))
  {
    hide RowsOk, ScrollUp, LineOf, LineOfDeparted, BlankLines, Erased, LinesOf;
    ScrollKeepsLines(g.(cursor := g.cursor.(wrapPending := false)), 1, pen);
    assert LinesOfDeparted([]) == [];
    assert BlankLines(0, g.cols, Erased(pen)) == [];
    assert LinesOf(g.rows) + [] == LinesOf(g.rows) && [] + LinesOf(g.rows) == LinesOf(g.rows);
  }

  lemma ReverseIndexLeaves(g: Grid, pen: Style)
    requires Wf(g)
    ensures var (h, top, bottom, row) := (ReverseIndex(g, pen), g.region.top, g.region.bottom, g.cursor.row);
            && (row == top ==> MovedDown(g.rows, h.rows, top, bottom, 1, g.cols, Erased(pen)))
            && (row != top ==> h.rows == g.rows && h.dirty == g.dirty)
            && h.cursor == Cursor(if row != top && row > 0 then row - 1 else row, g.cursor.col, false)
            && Else(g, h.(cursor := g.cursor))
  {
    hide MovedDown, RowsOk, ScrollDown, Erased;
    ScrollDownLeaves(g.(cursor := g.cursor.(wrapPending := false)), 1, pen);
  }

  /** Lines open at the cursor and close up there, inside the region alone; nothing archives. */
  lemma LinesOpenAndClose(g: Grid, n: nat, pen: Style)
    requires Wf(g)
    ensures var (wide, tight, row, bottom) := (InsertLines(g, n, pen), DeleteLines(g, n, pen), g.cursor.row,
                                                  g.region.bottom);
            && Else(g, wide) && Else(g, tight)
            && (!(g.region.top <= row <= bottom) ==> wide == g && tight == g)
            && (g.region.top <= row <= bottom ==>
                  && MovedDown(g.rows, wide.rows, row, bottom, Moved(row, bottom, n), g.cols, Erased(pen))
                  && MovedUp(g.rows, tight.rows, row, bottom, Moved(row, bottom, n), g.cols, Erased(pen)))
  {
    hide MovedUp, MovedDown, RowsOk, ScrollDown, ScrollUp, Erased;
    if g.region.top <= g.cursor.row <= g.region.bottom {
      var h := g.(region := Region(g.cursor.row, g.region.bottom));
      ScrollDownLeaves(h, n, pen);
      ScrollUpLeaves(h, n, pen);
    }
  }

  /** Rows taken out close up the rows below them, and the cursor keeps to its row if that stays. */
  lemma RemoveRowsLeaves(g: Grid, first: nat, count: nat)
    requires Wf(g) && first < |g.rows|
    ensures var (h, n, row) := (RemoveRows(g, first, count), Moved(first, |g.rows| - 1, count), g.cursor.row);
            && MovedUp(g.rows, h.rows, first, |g.rows| - 1, n, g.cols, PLAIN)
            && (n == 0 ==> h == g)
            && (n > 0 ==> h.cursor == Cursor(if row < first then row else if row < first + n then first else row - n,
                                             g.cursor.col, false))
            && (first > 0 ==> h.carried == g.carried) && (first == 0 && n > 0 ==> h.carried == 0)
            && Else(g, h.(cursor := g.cursor, carried := g.carried))
  {
    hide RowOk, TouchRange, MovedUp, BlankRows;
    var n := Moved(first, |g.rows| - 1, count);
    if n == 0 {
      Unmoved(g.rows, first, |g.rows| - 1, g.cols, PLAIN);
    } else {
      RowsRemoved(g.rows, first, n, g.cols);
    }
  }

  lemma RowsRemoved(rows: seq<Row>, first: nat, n: nat, cols: nat)
    requires first + n <= |rows| && rows != []
    ensures MovedUp(rows, rows[..first] + rows[first + n..] + BlankRows(n, cols), first, |rows| - 1, n, cols, PLAIN)
  {
    var after := rows[..first] + rows[first + n..] + BlankRows(n, cols);
    forall i | first <= i < |rows| && |rows| - 1 < i + n ensures Bare(after[i], cols, PLAIN) {
      assert after[i] == NewRow(cols) && Cell(BLANK, PLAIN) == DEFAULT_CELL;
    }
  }

  // ----- erasing -----

  /** Every row but one is as it was. */
  ghost predicate RowAlone(g: Grid, h: Grid, row: nat) {
    && |h.rows| == |g.rows|
    && forall i :: 0 <= i < |h.rows| && i != row ==> h.rows[i] == g.rows[i]
  }

  /** What an erase blanks on the cursor's row: from the cursor on, up to it and with it, or the whole line, which
      then no longer runs on. Semantic marks stay. */
  lemma EraseLineLeaves(g: Grid, how: Erase, pen: Style)
    requires Wf(g)
    ensures var (h, row, col) := (EraseLine(g, how, pen), g.cursor.row, g.cursor.col);
            && RowAlone(g, h, row) && Else(g, h)
            && (how == ToEnd ==> E.Blanked(g.rows[row], h.rows[row], col, g.cols, Erased(pen)))
            && (how == ToStart ==> E.Blanked(g.rows[row], h.rows[row], 0, col + 1, Erased(pen)))
            && (how == Everything ==> E.Blanked(g.rows[row], h.rows[row], 0, g.cols, Erased(pen)))
            && h.rows[row].wrapped == (g.rows[row].wrapped && how != Everything)
  {
    hide Fill, EraseAll, E.Blanked, Erased, InRange;
    var row := g.rows[g.cursor.row];
    E.FillLeaves(row, g.cursor.col, g.cols, Erased(pen));
    E.FillLeaves(row, 0, g.cursor.col + 1, Erased(pen));
    E.EraseAllLeaves(row, Erased(pen));
  }

  /** Rows `from..to` are bare and the rest stays. */
  ghost predicate RowsCleared(g: Grid, h: Grid, from: nat, to: nat, style: Style) {
    && |h.rows| == |g.rows|
    && (forall i :: 0 <= i < |h.rows| && !(from <= i < to) ==> h.rows[i] == g.rows[i])
    && (forall i :: from <= i < to && i < |h.rows| ==> Bare(h.rows[i], g.cols, style))
  }

  lemma ClearRowsLeaves(g: Grid, from: nat, to: nat, pen: Style)
    requires Wf(g) && to <= |g.rows|
    ensures RowsCleared(g, ClearRows(g, from, to, pen), from, to, Erased(pen)) && Else(g, ClearRows(g, from, to, pen))
  {
    hide InRange, TouchRange, Erased;
    var h := ClearRows(g, from, to, pen);
    forall i | from <= i < to ensures Bare(h.rows[i], g.cols, Erased(pen)) {
      assert h.rows[i] == ClearRow(g.rows[i], Erased(pen));
    }
  }

  /** What an erase of the display blanks: the line from the cursor and the rows below, the line up to the cursor
      and the rows above, or every row. */
  lemma EraseDisplayLeaves(g: Grid, how: Erase, pen: Style)
    requires Wf(g)
    ensures var (h, row, col, style) := (EraseDisplay(g, how, pen).0, g.cursor.row, g.cursor.col, Erased(pen));
            && Else(g, h.(carried := g.carried)) && |h.rows| == |g.rows|
            && h.carried == (if how == Everything then 0 else g.carried)
            && (how == ToEnd ==>
                  && (forall i :: 0 <= i < row ==> h.rows[i] == g.rows[i])
                  && E.Blanked(g.rows[row], h.rows[row], col, g.cols, style)
                  && h.rows[row].wrapped == g.rows[row].wrapped
                  && (forall i :: row < i < |h.rows| ==> Bare(h.rows[i], g.cols, style)))
            && (how == ToStart ==>
                  && (forall i :: row < i < |h.rows| ==> h.rows[i] == g.rows[i])
                  && E.Blanked(g.rows[row], h.rows[row], 0, col + 1, style)
                  && h.rows[row].wrapped == g.rows[row].wrapped
                  && (forall i :: 0 <= i < row ==> Bare(h.rows[i], g.cols, style)))
            && (how == Everything ==> forall i :: 0 <= i < |h.rows| ==> Bare(h.rows[i], g.cols, style))
  {
    hide E.Blanked, Erased, EraseLine, ClearRows, Bare, RowOk;
    match how
    case ToEnd =>
      EraseLineLeaves(g, ToEnd, pen);
      EraseLineSound(g, ToEnd, pen);
      ClearRowsLeaves(EraseLine(g, ToEnd, pen), g.cursor.row + 1, |g.rows|, pen);
    case ToStart =>
      ClearRowsLeaves(g, 0, g.cursor.row, pen);
      ClearRowsSound(g, 0, g.cursor.row, pen);
      EraseLineLeaves(ClearRows(g, 0, g.cursor.row, pen), ToStart, pen);
    case Everything =>
      ClearRowsLeaves(g, 0, |g.rows|, pen);
  }

  /** What an erase of everything keeps in the history: the rows down to the last that shows anything. */
  lemma EraseDisplayArchives(g: Grid, how: Erase, pen: Style)
    requires Wf(g)
    ensures var ev := EraseDisplay(g, how, pen).1;
            && |ev| <= |g.rows| && LinesOfDeparted(ev) == LinesOf(g.rows[..|ev|])
            && (how == Everything && g.history && g.region == Region(0, |g.rows| - 1) ==>
                  && (ev != [] ==> HasText(g.rows[|ev| - 1]))
                  && (forall i :: |ev| <= i < |g.rows| ==> !HasText(g.rows[i])))
            && (!(how == Everything && g.history && g.region == Region(0, |g.rows| - 1)) ==> ev == [])
  {
    hide HasText, LinesOf, LinesOfDeparted, RowOk, ClearRows, EraseLine, DepartAll;
    NoLines();
    assert g.rows[..0] == [];
    var n := LastText(g.rows) + 1;
    DepartAllReads(g.rows[..n], g.cols);
    if AnyText(g.rows) {
      LastTextIs(g.rows);
    }
  }

  lemma LastTextIs(rows: seq<Row>)
    requires AnyText(rows)
    ensures HasText(rows[LastText(rows)])
    ensures forall i :: LastText(rows) < i < |rows| ==> !HasText(rows[i])
  {
    hide HasText;
    var n := |rows| - 1;
    if n > 0 && !HasText(rows[n]) {
      var i :| 0 <= i < |rows| && HasText(rows[i]);
      assert rows[..n][i] == rows[i];
      LastTextIs(rows[..n]);
      forall i | LastText(rows) < i < |rows| ensures !HasText(rows[i]) {
        assert i < n ==> rows[..n][i] == rows[i];
      }
    }
  }

  lemma EraseCharsLeaves(g: Grid, n: nat, pen: Style)
    requires Wf(g)
    ensures var (h, row, col) := (EraseChars(g, n, pen), g.cursor.row, g.cursor.col);
            && RowAlone(g, h, row) && Else(g, h)
            && E.Blanked(g.rows[row], h.rows[row], col, col + n, Erased(pen))
            && h.rows[row].wrapped == g.rows[row].wrapped
  {
    hide Fill, Erased, InRange, E.At;
    E.FillLeaves(g.rows[g.cursor.row], g.cursor.col, Min(g.cursor.col + n, g.cols), Erased(pen));
  }

  /** Characters open and close up at the cursor; the rest of the line moves. */
  lemma CharsOpenAndClose(g: Grid, n: nat, pen: Style)
    requires Wf(g)
    ensures var (wide, tight, row, col) := (InsertChars(g, n, pen), DeleteChars(g, n, pen), g.cursor.row, g.cursor.col);
            && RowAlone(g, wide, row) && Else(g, wide) && RowAlone(g, tight, row) && Else(g, tight)
            && E.Opened(g.rows[row], wide.rows[row], col, n, Erased(pen))
            && E.Closed(g.rows[row], tight.rows[row], col, if n <= g.cols - col then n else g.cols - col, Erased(pen))
            && wide.rows[row].wrapped == tight.rows[row].wrapped == g.rows[row].wrapped
  {
    hide InsertBlank, DeleteCells, Erased, InRange, E.Opened, E.Closed;
    E.InsertBlankLeaves(g.rows[g.cursor.row], g.cursor.col, n, Erased(pen));
    E.DeleteCellsLeaves(g.rows[g.cursor.row], g.cursor.col, n, Erased(pen));
  }

  // ----- writing -----

  /** The margin's decision. `mid` is the grid the character is written on: the one there was, unless the character
      does not fit on its row. Then the row either keeps it, as far right as it goes, or is left behind as one that
      runs on, and the character starts the next row, scrolled for if need be. */
  ghost predicate RoomMade(g: Grid, mid: Grid, ev: Evicted, width: nat, pen: Style)
    requires Shape(g)
  {
    var (row, left) := (g.cursor.row, g.rows[g.cursor.row := g.rows[g.cursor.row].(wrapped := true)]);
    var (top, bottom, full) := (g.region.top, g.region.bottom, g.cursor.wrapPending || g.cursor.col + width > g.cols);
    && Else(g, mid.(cursor := g.cursor, carried := g.carried))
    && (!full ==> mid == g && ev == [])
    && (full && !g.autowrap ==>
          && mid.rows == g.rows && ev == []
          && mid.cursor == g.cursor.(col := if width < g.cols then g.cols - width else 0))
    && (full && g.autowrap && row == bottom ==>
          && MovedUp(left, mid.rows, top, bottom, 1, g.cols, Erased(pen)) && mid.cursor == Cursor(row, 0, false)
          && (if g.history && top == 0 && bottom == |g.rows| - 1 then LinesOfDeparted(ev) == [LineOf(left[0])]
              else ev == []))
    && (full && g.autowrap && row != bottom ==>
          && mid.rows == left && ev == []
          && mid.cursor == Cursor(if row + 1 < |g.rows| then row + 1 else row, 0, false))
  }

  lemma MakeRoomLeaves(g: Grid, width: nat, pen: Style)
    requires Wf(g) && width >= 1
    ensures RoomMade(g, MakeRoom(g, width, pen).0, MakeRoom(g, width, pen).1, width, pen)
  {
    hide MovedUp, Linefeed, Erased, InRange, LineOf;
    var row := g.rows[g.cursor.row];
    var wrapped := EditRow(g, g.cursor.row, (row.(wrapped := true), !row.wrapped));
    EditSound(g, g.cursor.row, (row.(wrapped := true), !row.wrapped));
    LinefeedLeaves(wrapped.(cursor := wrapped.cursor.(col := 0)), pen);
    LinefeedArchives(wrapped.(cursor := wrapped.cursor.(col := 0)), pen);
  }

  /** A character is written where the margin made room for it, the rest of that grid stays, and the cursor settles
      past it: on the last column, the wrap pending, if it reached the margin. */
  lemma PlaceLeaves(g: Grid, ch: char, width: nat, pen: Style) returns (mid: Grid)
    requires Wf(g) && width >= 1
    ensures var (h, ev) := Place(g, ch, width, pen);
            && Wf(mid) && RoomMade(g, mid, ev, width, pen)
            && RowAlone(mid, h, mid.cursor.row) && Else(mid, h.(cursor := mid.cursor))
            && E.Written(mid.rows[mid.cursor.row], h.rows[mid.cursor.row], mid.cursor.col, ch, width, pen, g.insertMode)
            && h.cursor == if mid.cursor.col + width < g.cols then Cursor(mid.cursor.row, mid.cursor.col + width, false)
                           else Cursor(mid.cursor.row, g.cols - 1, g.autowrap)
  {
    hide RoomMade, PlaceCells, E.Written, InRange;
    mid := MakeRoom(g, width, pen).0;
    MakeRoomLeaves(g, width, pen);
    MakeRoomSound(g, width, pen);
    assert Else(g, mid.(cursor := g.cursor, carried := g.carried))
        by { RoomIs(g, mid, MakeRoom(g, width, pen).1, width, pen); }
    E.PlaceCellsLeave(mid.rows[mid.cursor.row], mid.cursor.col, ch, width, pen, g.insertMode);
  }

  lemma RoomIs(g: Grid, mid: Grid, ev: Evicted, width: nat, pen: Style)
    requires Shape(g) && RoomMade(g, mid, ev, width, pen)
    ensures Else(g, mid.(cursor := g.cursor, carried := g.carried))
  {
  }

  /** The column of the cell written last, `width` columns back from where the cursor came to stand. */
  function Lead(g: Grid, width: nat): nat {
    var end := if g.cursor.wrapPending then g.cols else g.cursor.col;
    if width < end then end - width else 0
  }

  /** A combining character joins the cell before the cursor. If that changes how many columns the cell takes, and
      they are there, it gains continuations or gives columns back as blanks, and the cursor settles after it. */
  lemma JoinLeaves(g: Grid, mark: char, before: nat, after: nat) returns (mid: Row)
    requires Wf(g)
    ensures var (h, settled) := Join(g, mark, before, after);
            var (row, lead) := (g.cursor.row, Lead(g, if before == 0 then 1 else before));
            var kept := after == before || before == 0 || (after > before && lead + after > g.cols);
            && RowAlone(g, h, row) && Else(g, h.(cursor := g.cursor))
            && E.ColumnAlone(g.rows[row], mid, lead)
            && multiset(E.On(mid.extras, lead)) == multiset(E.Combined(E.On(g.rows[row].extras, lead), mark))
            && (Sorted(g.rows[row].extras) ==>
                E.On(mid.extras, lead) == E.Combined(E.On(g.rows[row].extras, lead), mark))
            && settled == (if kept then before else after)
            && (kept ==> h.rows[row] == mid && h.cursor == g.cursor)
            && (!kept ==>
                  && Retaken(mid, h.rows[row], lead, before, after)
                  && h.cursor == if lead + after < g.cols then Cursor(row, lead + after, false)
                                 else Cursor(row, g.cols - 1, g.autowrap))
  {
    hide E.On, E.Combined, Combine, ResizeCell, Sorted, InRange;
    var row, lead := g.cursor.row, LeadColumn(g, AtLeastOne(before));
    mid := Combine(g.rows[row], lead, mark);
    E.CombineLeaves(g.rows[row], lead, mark);
    var h := TouchRow(g, row, mid);
    if !(after == before || before == 0 || (after > before && lead + after > g.cols)) {
      ResizeCellLeaves(h, lead, before, after);
    }
  }

  /** A cell that took `was` columns takes `now`. */
  ghost predicate Retaken(before: Row, after: Row, lead: nat, was: nat, now: nat) {
    var (lo, hi) := (lead + if was < now then was else now, lead + if was < now then now else was);
    && E.Beside(before, after, lo, hi) && after.wrapped == before.wrapped
    && (forall k :: lo <= k < hi && k < |after.cells| && lead < |before.cells| ==>
          E.At(after, k) == E.Column(Cell(if was < now then CONTINUATION else BLANK, before.cells[lead].style),
                                     E.OnlyMarks(E.On(before.extras, k))))
  }

  lemma ResizeCellLeaves(g: Grid, lead: nat, before: nat, after: nat)
    requires Shape(g) && before != after && |g.rows[g.cursor.row].cells| == g.cols
    ensures var (h, row) := (ResizeCell(g, lead, before, after), g.cursor.row);
            && RowAlone(g, h, row) && Else(g, h.(cursor := g.cursor))
            && Retaken(g.rows[row], h.rows[row], lead, before, after)
            && h.cursor == if lead + after < g.cols then Cursor(row, lead + after, false)
                           else Cursor(row, g.cols - 1, g.autowrap)
  {
    hide SetSpan, Retaken;
    SpanRetakes(g.rows[g.cursor.row], lead, before, after);
  }

  lemma SpanRetakes(row: Row, lead: nat, before: nat, after: nat)
    requires before != after
    ensures var style := if lead < |row.cells| then row.cells[lead].style else PLAIN;
            var cell := if after > before then Cell(CONTINUATION, style) else BlankCell(style);
            Retaken(row, SetSpan(row, lead + Min(after, before), lead + Max(after, before), cell).0, lead, before,
                after)
  {
    hide SetSpan, E.On, E.OnlyMarks, E.At;
    var style := if lead < |row.cells| then row.cells[lead].style else PLAIN;
    var cell := if after > before then Cell(CONTINUATION, style) else BlankCell(style);
    assert BlankCell(style) == Cell(BLANK, style);
    E.SetSpanLeaves(row, lead + Min(after, before), lead + Max(after, before), cell);
  }

  /** The pen's underline colour and link go on the cell written last, in place of what it had. */
  lemma AttachmentsLeave(g: Grid, color: Color, link: Option<nat>, width: nat)
    requires Wf(g) && width >= 1
    ensures var (lined, linked) := (UnderlineCell(g, color, width), LinkCell(g, link, width));
            var (row, lead) := (g.cursor.row, Lead(g, width));
            && RowAlone(g, lined, row) && Else(g, lined) && RowAlone(g, linked, row) && Else(g, linked)
            && E.ColumnAlone(g.rows[row], lined.rows[row], lead) && E.ColumnAlone(g.rows[row], linked.rows[row], lead)
            && (RowsSorted(g.rows) ==>
                  && E.On(lined.rows[row].extras, lead) == E.NotOfKind(E.On(g.rows[row].extras, lead), KindUnderline)
                                                           + (if color == DefaultColor then [] else [Underline(color)])
                  && E.On(linked.rows[row].extras, lead) == E.NotOfKind(E.On(g.rows[row].extras, lead), KindLink)
                                                            + (if link.None? then [] else [Link(link.value)]))
  {
    hide E.On, E.NotOfKind, SetUnderline, SetLink, InRange, Sorted;
    var row, lead := g.rows[g.cursor.row], LeadColumn(g, width);
    E.SetUnderlineLeaves(row, lead, color);
    E.SetLinkLeaves(row, lead, link);
    assert E.NotOfKind(E.On(row.extras, lead), KindUnderline) + []
        == E.NotOfKind(E.On(row.extras, lead), KindUnderline);
    assert E.NotOfKind(E.On(row.extras, lead), KindLink) + [] == E.NotOfKind(E.On(row.extras, lead), KindLink);
  }

  /** A row of an image: a placed cell on each column it covers, numbered from the cursor, cut off at the margin. */
  lemma PlaceImageRowLeaves(g: Grid, place: Placement, pen: Style)
    requires Wf(g) && RowsSorted(g.rows)
    ensures var (h, row, start) := (PlaceImageRow(g, place, pen), g.cursor.row, g.cursor.col);
            && RowAlone(g, h, row) && Else(g, h)
            && E.Beside(g.rows[row], h.rows[row], start, start + place.cols)
            && h.rows[row].wrapped == g.rows[row].wrapped
            && forall k :: start <= k < start + place.cols && k < g.cols ==>
                 E.At(h.rows[row], k)
                 == E.Column(Cell(BLANK, pen),
                             E.OnlyMarks(E.On(g.rows[row].extras, k)) + [Image(place.(cellCol := k - start))])
  {
    hide E.On, E.OnlyMarks, PlaceSpan, InRange, Sorted, E.At;
    var row, start, span := g.rows[g.cursor.row], g.cursor.col, Min(place.cols, g.cols - g.cursor.col);
    E.PlaceSpanLeaves(row, start, 0, span, place, pen);
    var after := PlaceSpan(row, start, 0, span, place, pen);
    forall k | start <= k < start + place.cols && k < g.cols
      ensures E.At(after, k)
              == E.Column(Cell(BLANK, pen), E.OnlyMarks(E.On(row.extras, k)) + [Image(place.(cellCol := k - start))])
    {
      assert E.At(after, start + (k - start)) == E.At(after, k);
    }
  }

  // ----- the cutting resize -----

  /** Rows cut or padded on the right to a width. */
  ghost predicate Widened(before: seq<Row>, after: seq<Row>, cols: nat) {
    && |after| == |before|
    && forall i :: 0 <= i < |after| ==>
         && |after[i].cells| == cols && after[i].wrapped == before[i].wrapped
         && forall k :: 0 <= k < cols ==>
              E.At(after[i], k) == if k < |before[i].cells| then E.At(before[i], k) else E.Column(DEFAULT_CELL, [])
  }

  /** The rows down to the last that shows anything, and to the cursor's own. */
  ghost predicate InUse(rows: seq<Row>, row: nat, used: nat) {
    && row < used <= |rows|
    && (forall i :: used <= i < |rows| ==> !HasText(rows[i]))
    && (used - 1 > row ==> HasText(rows[used - 1]))
  }

  /** A resize that does not rewrap: lines are cut off or padded on the right, blank rows below those in use go
      first, and what still does not fit leaves off the top. */
  lemma ClampResizeLeaves(g: Grid, rows: nat, cols: nat) returns (wide: seq<Row>, used: nat)
    requires Wf(g) && rows >= 1 && cols >= 1
    ensures Widened(g.rows, wide, cols) && InUse(wide, g.cursor.row, used)
    ensures var (h, ev) := ClampResize(g, rows, cols);
            var shed := if rows < |wide| && rows < used then used - rows else 0;
            && LinesOfDeparted(ev) == LinesOf(wide[..shed])
            && |h.rows| == rows && h.cols == cols && h.region == Region(0, rows - 1)
            && (forall i :: 0 <= i < rows && shed + i < |wide| ==> h.rows[i] == wide[shed + i])
            && (forall i :: 0 <= i < rows && |wide| <= shed + i ==> Bare(h.rows[i], cols, PLAIN))
            && h.cursor == g.cursor.(row := Min(Saturate(g.cursor.row - shed), rows - 1),
                col := Min(g.cursor.col, cols - 1))
  {
    hide HasText, LinesOf, LinesOfDeparted, InRange, DepartAll, CarryOf, LastText, ResizeRow, E.At, Widened;
    wide := ChangeWidth(g, cols).rows;
    used := Max(LastText(wide), g.cursor.row) + 1;
    ChangeWidthOk(g, cols);
    WidthLeaves(g, cols);
    UsedIs(wide, g.cursor.row);
    DepartAllReads(wide[..if rows < |wide| && rows < used then used - rows else 0], cols);
    assert Cell(BLANK, PLAIN) == DEFAULT_CELL;
  }

  lemma UsedIs(rows: seq<Row>, row: nat)
    requires row < |rows|
    ensures InUse(rows, row, Max(LastText(rows), row) + 1)
  {
    hide HasText;
    if |rows| > 1 && !HasText(rows[|rows| - 1]) {
      var n := |rows| - 1;
      if row < n {
        UsedIs(rows[..n], row);
        var used := Max(LastText(rows), row) + 1;
        assert LastText(rows) == LastText(rows[..n]);
        forall i | used <= i < |rows| ensures !HasText(rows[i]) {
          assert i < n ==> rows[..n][i] == rows[i];
        }
      }
    }
  }

  lemma WidthLeaves(g: Grid, cols: nat)
    requires Wf(g) && cols >= 1
    ensures Widened(g.rows, ChangeWidth(g, cols).rows, cols)
  {
    hide E.At, ResizeRow, InRange;
    forall i | 0 <= i < |g.rows| {
      E.ResizeRowLeaves(g.rows[i], cols);
    }
  }

  /** A rewrap takes the new size, keeps the modes, and starts over with tab stops, the region and the flags. */
  lemma RewrapResets(g: Grid, rows: nat, cols: nat)
    requires Wf(g) && rows >= 1 && cols >= 1
    ensures var h := Rewrap(g, rows, cols).0;
            && |h.rows| == rows && h.cols == cols && h.region == Region(0, rows - 1)
            && h.autowrap == g.autowrap && h.insertMode == g.insertMode && h.history == g.history
            && (forall i :: 0 <= i < rows ==> h.dirty[i])
            && (forall k :: 0 <= k < cols ==> h.tabs[k] == (k % 8 == 0 && k > 0))
  {
    hide Reseam, Flow, PlacedCursor, CarryOf, DepartAll;
  }

  // ----- damage that is not earned -----

  lemma SameCells(cells: seq<Cell>, col: nat, cell: Cell)
    requires col < |cells| && cells[col] == cell
    ensures cells[col := cell] == cells
  {
  }

  lemma NothingPruned(lo: nat, hi: nat)
    ensures Prune([], lo, hi, true) == []
  {
  }

  lemma {:induction false} SpanThere(row: Row, lo: nat, hi: nat, cell: Cell)
    requires row.extras == [] && hi <= |row.cells| && forall k :: lo <= k < hi ==> row.cells[k] == cell
    ensures SetSpan(row, lo, hi, cell) == (row, false)
    decreases hi - lo
  {
    if lo < hi {
      SameCells(row.cells, lo, cell);
      NothingPruned(lo, lo + 1);
      SpanThere(row, lo + 1, hi, cell);
    }
  }

  /** A character written where it already stands, on a row with nothing attached, flags nothing. */
  lemma RewritingFlagsNothing(g: Grid, ch: char, width: nat, pen: Style)
    requires Wf(g) && width >= 1 && !g.insertMode && !g.cursor.wrapPending && g.cursor.col + width <= g.cols
    requires var (row, col) := (g.rows[g.cursor.row], g.cursor.col);
             && row.extras == []
             && forall k :: col <= k < col + width ==> row.cells[k] == Cell(if k == col then ch else CONTINUATION, pen)
    ensures Place(g, ch, width, pen).0.dirty == g.dirty && Place(g, ch, width, pen).0.rows == g.rows
  {
    hide SetSpan, InRange;
    var row, col := g.rows[g.cursor.row], g.cursor.col;
    SameCells(row.cells, col, Cell(ch, pen));
    NothingPruned(col, col + 1);
    assert Set(row, col, Cell(ch, pen)) == (row, false);
    SpanThere(row, col + 1, col + width, Cell(CONTINUATION, pen));
  }

  /** An erase that finds blanks of the pen's colour, and nothing attached, flags nothing. */
  lemma ErasingBlanksFlagsNothing(g: Grid, how: Erase, pen: Style)
    requires Wf(g) && g.rows[g.cursor.row].extras == [] && (how == Everything ==> !g.rows[g.cursor.row].wrapped)
    requires forall k :: 0 <= k < g.cols && (how == ToEnd ==> g.cursor.col <= k)
                         && (how == ToStart ==> k <= g.cursor.col) ==>
               g.rows[g.cursor.row].cells[k] == Cell(BLANK, Erased(pen))
    ensures EraseLine(g, how, pen).dirty == g.dirty
  {
    hide InRange, Erased;
    assert BlankCell(Erased(pen)) == Cell(BLANK, Erased(pen));
  }

  /** Rows elsewhere keep their flags: a scroll flags its region, and the writers of one row that row at most. */
  lemma FlagsStay(g: Grid, n: nat, how: Erase, pen: Style, i: nat)
    requires Wf(g) && i < |g.rows|
    ensures ScrollUp(g, n, pen).0.dirty[i] == (g.dirty[i] || (n > 0 && g.region.top <= i <= g.region.bottom))
    ensures ScrollDown(g, n, pen).dirty[i] == (g.dirty[i] || (n > 0 && g.region.top <= i <= g.region.bottom))
    ensures i != g.cursor.row ==>
              && EraseLine(g, how, pen).dirty[i] == EraseChars(g, n, pen).dirty[i] == g.dirty[i]
              && InsertChars(g, n, pen).dirty[i] == DeleteChars(g, n, pen).dirty[i] == g.dirty[i]
  {
    hide RowsUp, RowsDown, DepartAll, CarryOf, Fill, EraseAll, InsertBlank, DeleteCells, InRange;
  }

  // ----- the cursor and the tab stops -----

  /** A move keeps to the region it starts in, and to the screen. */
  lemma MovesStayInside(g: Grid, rows: int, cols: int)
    requires Wf(g)
    ensures var (h, row, top, bottom) := (MoveBy(g, rows, cols), g.cursor.row, g.region.top, g.region.bottom);
            && h == g.(cursor := h.cursor) && !h.cursor.wrapPending
            && (top <= row <= bottom ==> top <= h.cursor.row <= bottom)
            && (top <= row <= bottom && top <= row + rows <= bottom ==> h.cursor.row == row + rows)
            && (0 <= g.cursor.col + cols < g.cols ==> h.cursor.col == g.cursor.col + cols)
  {
    hide RowOk;
  }

  /** The next stop is the first to the right, or the last column if there is none. */
  lemma {:induction false} NextStopIsFirst(tabs: seq<bool>, from: nat)
    requires tabs != []
    ensures var i := NextStop(tabs, from);
            && (forall k :: from <= k < i ==> !tabs[k])
            && (from < |tabs| ==> from <= i && (tabs[i] || i == |tabs| - 1))
    decreases |tabs| - from
  {
    if from < |tabs| && !tabs[from] {
      NextStopIsFirst(tabs, from + 1);
    }
  }

  /** The one before is the last to the left, or the first column. */
  lemma {:induction false} PrevStopIsLast(tabs: seq<bool>, before: nat)
    requires before <= |tabs|
    ensures var i := PrevStop(tabs, before);
            && (forall k :: i < k < before ==> !tabs[k])
            && (before > 0 ==> i < before && (tabs[i] || i == 0))
  {
    if before > 0 && !tabs[before - 1] {
      PrevStopIsLast(tabs, before - 1);
    }
  }
}
