/** What every grid operation keeps: well-formedness, attachments in column order, and honest
    damage flags. */
module GridLaws {
  import opened Cells
  import opened RowLaws
  import opened Grid
  import opened Reflow
  import opened ReflowLaws

  /** Rows not flagged in `h` look as they did in `g`, and were not flagged there either. */
  ghost predicate Undamaged(g: Grid, h: Grid)
    requires Shape(g) && Shape(h)
  {
    forall i :: 0 <= i < |h.rows| && !h.dirty[i] ==>
      i < |g.rows| && !g.dirty[i] && Seen(h.rows[i]) == Seen(g.rows[i])
  }

  ghost predicate Sound(g: Grid, h: Grid)
    requires Shape(g)
  {
    Wf(h) && Undamaged(g, h)
  }

  ghost predicate Ordered(g: Grid, h: Grid) {
    RowsSorted(g.rows) ==> RowsSorted(h.rows)
  }

  lemma SoundThen(g: Grid, h: Grid, k: Grid)
    requires Shape(g) && Sound(g, h) && Sound(h, k)
    ensures Sound(g, k)
  {
  }

  /** Only the cursor, the modes, the tabs or the carry changed. */
  ghost predicate SameRows(g: Grid, h: Grid) {
    g.rows == h.rows && g.dirty == h.dirty && g.cols == h.cols
  }

  lemma SameRowsSound(g: Grid, h: Grid)
    requires Wf(g) && Shape(h) && SameRows(g, h)
    ensures Sound(g, h) && Ordered(g, h)
  {
  }

  lemma EditSound(g: Grid, index: nat, edited: (Row, bool))
    requires Wf(g) && index < |g.rows| && RowOk(edited.0, g.cols)
    requires !edited.1 ==> Seen(edited.0) == Seen(g.rows[index])
    ensures Sound(g, EditRow(g, index, edited))
  {
  }

  lemma EditOrdered(g: Grid, index: nat, edited: (Row, bool))
    requires Wf(g) && index < |g.rows|
    requires Sorted(g.rows[index].extras) ==> Sorted(edited.0.extras)
    ensures Ordered(g, EditRow(g, index, edited))
  {
  }

  /** A writer that damages its row whatever it did. */
  lemma TouchSound(g: Grid, index: nat, row: Row)
    requires Wf(g) && index < |g.rows| && Kept(g.rows[index], row, g.cols)
    ensures Sound(g, TouchRow(g, index, row)) && Ordered(g, TouchRow(g, index, row))
  {
    EditSound(g, index, (row, true));
    EditOrdered(g, index, (row, true));
  }

  // ----- rows moving -----

  lemma ClearRowOk(row: Row, style: Style, cols: nat)
    requires RowOk(row, cols)
    ensures RowOk(ClearRow(row, style), cols) && Sorted(ClearRow(row, style).extras)
  {
  }

  lemma NewRowOk(cols: nat)
    ensures RowOk(NewRow(cols), cols) && Sorted(NewRow(cols).extras)
  {
  }

  lemma RowsUpOk(rows: seq<Row>, top: nat, bottom: nat, n: nat, style: Style, cols: nat)
    requires top <= bottom < |rows| && n <= bottom + 1 - top && RowsOk(rows, cols)
    ensures RowsOk(RowsUp(rows, top, bottom, n, style), cols)
    ensures RowsSorted(rows) ==> RowsSorted(RowsUp(rows, top, bottom, n, style))
    ensures RowsOk(RowsDown(rows, top, bottom, n, style), cols)
    ensures RowsSorted(rows) ==> RowsSorted(RowsDown(rows, top, bottom, n, style))
  {
    var up, down := RowsUp(rows, top, bottom, n, style), RowsDown(rows, top, bottom, n, style);
    forall i | 0 <= i < |rows|
      ensures RowOk(up[i], cols) && RowOk(down[i], cols)
      ensures RowsSorted(rows) ==> Sorted(up[i].extras) && Sorted(down[i].extras)
    {
      if top <= i <= bottom {
        var j := if i + n <= bottom then i + n else i + n - (bottom + 1 - top);
        ClearRowOk(rows[j], style, cols);
        var k := if i >= top + n then i - n else i - n + (bottom + 1 - top);
        ClearRowOk(rows[k], style, cols);
      }
    }
  }

  lemma ScrollUpSound(g: Grid, n: nat, pen: Style)
    requires Wf(g)
    ensures Sound(g, ScrollUp(g, n, pen).0) && Ordered(g, ScrollUp(g, n, pen).0)
  {
    var m: nat := Min(n, g.region.bottom + 1 - g.region.top);
    RowsUpOk(g.rows, g.region.top, g.region.bottom, m, Erased(pen), g.cols);
  }

  lemma ScrollDownSound(g: Grid, n: nat, pen: Style)
    requires Wf(g)
    ensures Sound(g, ScrollDown(g, n, pen)) && Ordered(g, ScrollDown(g, n, pen))
  {
    var m: nat := Min(n, g.region.bottom + 1 - g.region.top);
    RowsUpOk(g.rows, g.region.top, g.region.bottom, m, Erased(pen), g.cols);
  }

  lemma LinefeedSound(g: Grid, pen: Style)
    requires Wf(g)
    ensures Sound(g, Linefeed(g, pen).0) && Ordered(g, Linefeed(g, pen).0)
  {
    var h := g.(cursor := g.cursor.(wrapPending := false));
    ScrollUpSound(h, 1, pen);
  }

  lemma ReverseIndexSound(g: Grid, pen: Style)
    requires Wf(g)
    ensures Sound(g, ReverseIndex(g, pen)) && Ordered(g, ReverseIndex(g, pen))
  {
    var h := g.(cursor := g.cursor.(wrapPending := false));
    ScrollDownSound(h, 1, pen);
  }

  lemma InsertLinesSound(g: Grid, n: nat, pen: Style)
    requires Wf(g)
    ensures Sound(g, InsertLines(g, n, pen)) && Ordered(g, InsertLines(g, n, pen))
  {
    if g.region.top <= g.cursor.row <= g.region.bottom {
      ScrollDownSound(g.(region := Region(g.cursor.row, g.region.bottom)), n, pen);
    }
  }

  lemma DeleteLinesSound(g: Grid, n: nat, pen: Style)
    requires Wf(g)
    ensures Sound(g, DeleteLines(g, n, pen)) && Ordered(g, DeleteLines(g, n, pen))
  {
    if g.region.top <= g.cursor.row <= g.region.bottom {
      ScrollUpSound(g.(region := Region(g.cursor.row, g.region.bottom)), n, pen);
    }
  }

  lemma RemoveRowsSound(g: Grid, first: nat, count: nat)
    requires Wf(g)
    ensures Sound(g, RemoveRows(g, first, count)) && Ordered(g, RemoveRows(g, first, count))
  {
    NewRowOk(g.cols);
  }

  // ----- writing -----

  lemma SetSpanKept(row: Row, lo: nat, hi: nat, cell: Cell, cols: nat)
    requires RowOk(row, cols)
    ensures Kept(row, SetSpan(row, lo, hi, cell).0, cols)
    ensures !SetSpan(row, lo, hi, cell).1 ==> SetSpan(row, lo, hi, cell).0 == row
    decreases hi - lo
  {
    if lo < hi {
      SetKept(row, lo, cell, cols);
      SetSpanKept(Set(row, lo, cell).0, lo + 1, hi, cell, cols);
      if !Set(row, lo, cell).1 {
        SetAnswers(row, lo, cell);
      }
    }
  }

  lemma PlaceCellsKept(row: Row, col: nat, ch: char, width: nat, style: Style, insertMode: bool, cols: nat)
    requires RowOk(row, cols)
    ensures var r := PlaceCells(row, col, ch, width, style, insertMode);
            Kept(row, r.0, cols) && (!r.1 ==> r.0 == row)
  {
    InsertBlankKept(row, col, width, style, cols);
    var shifted := if insertMode then InsertBlank(row, col, width, style) else row;
    SetKept(shifted, col, Cell(ch, style), cols);
    SetSpanKept(Set(shifted, col, Cell(ch, style)).0, col + 1, col + width, Cell(CONTINUATION, style), cols);
    if !Set(shifted, col, Cell(ch, style)).1 {
      SetAnswers(shifted, col, Cell(ch, style));
    }
  }

  lemma MakeRoomSound(g: Grid, width: nat, style: Style)
    requires Wf(g) && width >= 1
    ensures Sound(g, MakeRoom(g, width, style).0) && Ordered(g, MakeRoom(g, width, style).0)
  {
    if g.cursor.wrapPending || g.cursor.col + width > g.cols {
      if g.autowrap {
        var row := g.rows[g.cursor.row];
        var wrapped := EditRow(g, g.cursor.row, (row.(wrapped := true), !row.wrapped));
        EditSound(g, g.cursor.row, (row.(wrapped := true), !row.wrapped));
        LinefeedSound(wrapped.(cursor := wrapped.cursor.(col := 0)), style);
      }
    }
  }

  lemma PlaceSound(g: Grid, ch: char, width: nat, style: Style)
    requires Wf(g) && width >= 1
    ensures Sound(g, Place(g, ch, width, style).0) && Ordered(g, Place(g, ch, width, style).0)
  {
    hide Undamaged, PlaceCells, MakeRoom, RowsSorted;
    MakeRoomSound(g, width, style);
    var h := MakeRoom(g, width, style).0;
    var row, col := h.cursor.row, h.cursor.col;
    var edited := PlaceCells(h.rows[row], col, ch, width, style, h.insertMode);
    PlaceCellsKept(h.rows[row], col, ch, width, style, h.insertMode, h.cols);
    EditSound(h, row, edited);
    EditOrdered(h, row, edited);
    var k := EditRow(h, row, edited);
    SoundThen(g, h, k);
    SameRowsSound(k, SettleCursor(k, col + width));
    SoundThen(g, k, SettleCursor(k, col + width));
  }

  lemma SpanSound(g: Grid, lo: nat, hi: nat, cell: Cell, end: nat)
    requires Wf(g)
    ensures var h := SettleCursor(EditRow(g, g.cursor.row, SetSpan(g.rows[g.cursor.row], lo, hi, cell)), end);
            Sound(g, h) && Ordered(g, h)
  {
    var row := g.rows[g.cursor.row];
    SetSpanKept(row, lo, hi, cell, g.cols);
    EditSound(g, g.cursor.row, SetSpan(row, lo, hi, cell));
    EditOrdered(g, g.cursor.row, SetSpan(row, lo, hi, cell));
    var h := EditRow(g, g.cursor.row, SetSpan(row, lo, hi, cell));
    SameRowsSound(h, SettleCursor(h, end));
    SoundThen(g, h, SettleCursor(h, end));
  }

  lemma ResizeCellSound(g: Grid, lead: nat, before: nat, after: nat)
    requires Wf(g)
    ensures Sound(g, ResizeCell(g, lead, before, after)) && Ordered(g, ResizeCell(g, lead, before, after))
  {
    hide Sound, Ordered, SetSpan, EditRow, SettleCursor;
    var row := g.rows[g.cursor.row];
    var style := if lead < |row.cells| then row.cells[lead].style else PLAIN;
    var cell := if after > before then Cell(CONTINUATION, style) else BlankCell(style);
    SpanSound(g, lead + Min(after, before), lead + Max(after, before), cell, lead + after);
  }

  lemma JoinSound(g: Grid, mark: char, before: nat, after: nat)
    requires Wf(g)
    ensures Sound(g, Join(g, mark, before, after).0) && Ordered(g, Join(g, mark, before, after).0)
  {
    var row := g.cursor.row;
    var lead := LeadColumn(g, AtLeastOne(before));
    CombineKept(g.rows[row], lead, mark, g.cols);
    TouchSound(g, row, Combine(g.rows[row], lead, mark));
    var h := TouchRow(g, row, Combine(g.rows[row], lead, mark));
    ResizeCellSound(h, lead, before, after);
    SoundThen(g, h, ResizeCell(h, lead, before, after));
  }

  lemma JoinAllSound(g: Grid, marks: string, width: nat)
    requires Wf(g)
    ensures Sound(g, JoinAll(g, marks, width)) && Ordered(g, JoinAll(g, marks, width))
    decreases |marks|
  {
    if marks != [] {
      JoinSound(g, marks[0], width, width);
      JoinAllSound(Join(g, marks[0], width, width).0, marks[1..], width);
    } else {
      SameRowsSound(g, g);
    }
  }

  lemma WriteClusterSound(g: Grid, text: string, width: nat, style: Style)
    requires Wf(g)
    ensures Sound(g, WriteCluster(g, text, width, style).0) && Ordered(g, WriteCluster(g, text, width, style).0)
  {
    if text == [] {
      SameRowsSound(g, g);
    } else {
      var h := if width == 0 then Join(g, text[0], 0, 0).0 else Place(g, text[0], width, style).0;
      if width == 0 {
        JoinSound(g, text[0], 0, 0);
      } else {
        PlaceSound(g, text[0], width, style);
      }
      JoinAllSound(h, text[1..], width);
    }
  }

  lemma WriteRunSound(g: Grid, text: string, style: Style)
    requires Wf(g)
    ensures Sound(g, WriteRun(g, text, style).0) && Ordered(g, WriteRun(g, text, style).0)
  {
    hide FillRun, Undamaged, RowsSorted, EditRow;
    var row, col := g.cursor.row, g.cursor.col;
    var n: nat := Min(|text|, g.cols - (col + 1));
    var edited := FillRun(g.rows[row], col, text[..n], style);
    FillRunKept(g.rows[row], col, text[..n], style, g.cols);
    FillRunAnswers(g.rows[row], col, text[..n], style);
    EditSound(g, row, edited);
    EditOrdered(g, row, edited);
    var h, after := EditRow(g, row, edited), WriteRun(g, text, style).0;
    SameRowsSound(g, g);
    if !g.insertMode && !g.cursor.wrapPending && n != 0 {
      SameRowsSound(h, after);
      SoundThen(g, h, after);
    }
  }

  lemma PlaceSpanKept(row: Row, start: nat, i: nat, width: nat, place: Placement, style: Style, cols: nat)
    requires RowOk(row, cols)
    ensures Kept(row, PlaceSpan(row, start, i, width, place, style), cols)
    decreases width - i
  {
    if i < width {
      PlaceImageKept(row, start + i, place.(cellCol := i), style, cols);
      PlaceSpanKept(PlaceImage(row, start + i, place.(cellCol := i), style), start, i + 1, width, place, style, cols);
    }
  }

  lemma AttachmentsSound(g: Grid, color: Color, link: Option<nat>, width: nat, place: Placement, pen: Style)
    requires Wf(g)
    ensures Sound(g, UnderlineCell(g, color, width)) && Ordered(g, UnderlineCell(g, color, width))
    ensures Sound(g, LinkCell(g, link, width)) && Ordered(g, LinkCell(g, link, width))
    ensures Sound(g, PlaceImageRow(g, place, pen)) && Ordered(g, PlaceImageRow(g, place, pen))
  {
    var row := g.rows[g.cursor.row];
    SetUnderlineKept(row, LeadColumn(g, width), color, g.cols);
    TouchSound(g, g.cursor.row, SetUnderline(row, LeadColumn(g, width), color));
    SetLinkKept(row, LeadColumn(g, width), link, g.cols);
    TouchSound(g, g.cursor.row, SetLink(row, LeadColumn(g, width), link));
    var span := Min(place.cols, g.cols - g.cursor.col);
    PlaceSpanKept(row, g.cursor.col, 0, span, place, pen, g.cols);
    TouchSound(g, g.cursor.row, PlaceSpan(row, g.cursor.col, 0, span, place, pen));
  }

  lemma MarkCellSound(g: Grid, row: nat, col: nat, id: nat)
    requires Wf(g)
    ensures Sound(g, MarkCell(g, row, col, id)) && Ordered(g, MarkCell(g, row, col, id))
  {
    if row < |g.rows| {
      MarkRowKept(g.rows[row], col, id, g.cols);
      MarkUnseen(g.rows[row], col, id);
      EditSound(g, row, (MarkRow(g.rows[row], col, id), false));
      EditOrdered(g, row, (MarkRow(g.rows[row], col, id), false));
    } else {
      SameRowsSound(g, g);
    }
  }

  // ----- erasing -----

  lemma FillSound(g: Grid, lo: nat, hi: nat, style: Style)
    requires Wf(g)
    ensures var e := Fill(g.rows[g.cursor.row], lo, hi, style);
            Sound(g, EditRow(g, g.cursor.row, e)) && Ordered(g, EditRow(g, g.cursor.row, e))
  {
    var row := g.rows[g.cursor.row];
    FillKept(row, lo, hi, style, g.cols);
    if !Fill(row, lo, hi, style).1 {
      FillAnswers(row, lo, hi, style);
    }
    EditSound(g, g.cursor.row, Fill(row, lo, hi, style));
    EditOrdered(g, g.cursor.row, Fill(row, lo, hi, style));
  }

  lemma EraseLineSound(g: Grid, how: Erase, pen: Style)
    requires Wf(g)
    ensures Sound(g, EraseLine(g, how, pen)) && Ordered(g, EraseLine(g, how, pen))
  {
    var row, style := g.rows[g.cursor.row], Erased(pen);
    match how
    case ToEnd => FillSound(g, g.cursor.col, g.cols, style);
    case ToStart => FillSound(g, 0, g.cursor.col + 1, style);
    case Everything =>
      EraseAllKept(row, style, g.cols);
      if !EraseAll(row, style).1 {
        EraseAllAnswers(row, style);
      }
      EditSound(g, g.cursor.row, EraseAll(row, style));
      EditOrdered(g, g.cursor.row, EraseAll(row, style));
  }

  lemma ClearRowsSound(g: Grid, from: nat, to: nat, pen: Style)
    requires Wf(g) && to <= |g.rows|
    ensures Sound(g, ClearRows(g, from, to, pen)) && Ordered(g, ClearRows(g, from, to, pen))
  {
  }

  lemma EraseDisplaySound(g: Grid, how: Erase, pen: Style)
    requires Wf(g)
    ensures Sound(g, EraseDisplay(g, how, pen).0) && Ordered(g, EraseDisplay(g, how, pen).0)
  {
    match how
    case ToEnd =>
      EraseLineSound(g, ToEnd, pen);
      ClearRowsSound(EraseLine(g, ToEnd, pen), g.cursor.row + 1, |g.rows|, pen);
    case ToStart =>
      ClearRowsSound(g, 0, g.cursor.row, pen);
      EraseLineSound(ClearRows(g, 0, g.cursor.row, pen), ToStart, pen);
    case Everything =>
      ClearRowsSound(g, 0, |g.rows|, pen);
  }

  lemma EraseCharsSound(g: Grid, n: nat, pen: Style)
    requires Wf(g)
    ensures Sound(g, EraseChars(g, n, pen)) && Ordered(g, EraseChars(g, n, pen))
  {
    FillSound(g, g.cursor.col, Min(g.cursor.col + n, g.cols), Erased(pen));
  }

  lemma InsertCharsSound(g: Grid, n: nat, pen: Style)
    requires Wf(g)
    ensures Sound(g, InsertChars(g, n, pen)) && Ordered(g, InsertChars(g, n, pen))
  {
    InsertBlankKept(g.rows[g.cursor.row], g.cursor.col, n, Erased(pen), g.cols);
    TouchSound(g, g.cursor.row, InsertBlank(g.rows[g.cursor.row], g.cursor.col, n, Erased(pen)));
  }

  /** Deleting characters keeps the attachments in order exactly when it moves none of them
      left past a mark it spares. */
  lemma DeleteCharsSound(g: Grid, n: nat, pen: Style)
    requires Wf(g)
    ensures Sound(g, DeleteChars(g, n, pen))
    ensures RowsSorted(g.rows) ==>
              (RowsSorted(DeleteChars(g, n, pen).rows)
               <==> !Overtaken(g.rows[g.cursor.row].extras, g.cursor.col, n))
  {
    var row := g.rows[g.cursor.row];
    var deleted := DeleteCells(row, g.cursor.col, n, Erased(pen));
    DeleteCellsOk(row, g.cursor.col, n, Erased(pen), g.cols);
    EditSound(g, g.cursor.row, (deleted, true));
    assert DeleteChars(g, n, pen).rows[g.cursor.row] == deleted;
  }

  // ----- resizing -----

  lemma ResizeRowKept(row: Row, cols: nat, style: Style)
    ensures RowOk(ResizeRow(row, cols, style), cols)
    ensures Sorted(row.extras) ==> Sorted(ResizeRow(row, cols, style).extras)
  {
    CutOffKeeps(row.extras, cols);
  }

  lemma ChangeWidthOk(g: Grid, cols: nat)
    requires Wf(g) && cols >= 1
    ensures RowsOk(ChangeWidth(g, cols).rows, cols)
    ensures RowsSorted(g.rows) ==> RowsSorted(ChangeWidth(g, cols).rows)
  {
    forall i | 0 <= i < |g.rows|
      ensures RowOk(ChangeWidth(g, cols).rows[i], cols)
      ensures RowsSorted(g.rows) ==> Sorted(ChangeWidth(g, cols).rows[i].extras)
    {
      ResizeRowKept(g.rows[i], cols, PLAIN);
    }
  }

  lemma ClampResizeSound(g: Grid, rows: nat, cols: nat)
    requires Wf(g) && rows >= 1 && cols >= 1
    ensures Sound(g, ClampResize(g, rows, cols).0) && Ordered(g, ClampResize(g, rows, cols).0)
  {
    ChangeWidthOk(g, cols);
    NewRowOk(cols);
  }

  lemma RefillOk(g: Grid, flow: seq<Row>, head: nat, placed: Cursor, rows: nat, cols: nat)
    requires rows >= 1 && cols >= 1 && placed.col < cols && RowsOk(flow, cols) && RowsSorted(flow)
    ensures var h := Refill(g, flow, head, placed, rows, cols).0;
            Wf(h) && RowsSorted(h.rows) && forall i :: 0 <= i < |h.rows| ==> h.dirty[i]
  {
    hide Sorted, InRange, NewRow, DepartAll, CarryOf, DefaultTabs;
    NewRowOk(cols);
    var h, kept := Refill(g, flow, head, placed, rows, cols).0, flow[Saturate(|flow| - rows)..];
    forall i | 0 <= i < |h.rows| ensures RowOk(h.rows[i], cols) && Sorted(h.rows[i].extras) {
      assert h.rows[i] == if i < |kept| then flow[Saturate(|flow| - rows) + i] else NewRow(cols);
    }
  }

  /** A rewrap leaves a well-formed grid in column order, whatever it started from. */
  lemma RewrapSound(g: Grid, rows: nat, cols: nat)
    requires Wf(g) && rows >= 1 && cols >= 1
    ensures Sound(g, Rewrap(g, rows, cols).0) && RowsSorted(Rewrap(g, rows, cols).0.rows)
  {
    var s := Reseam(g, cols);
    FlowOk(s.lines, cols);
    RefillOk(g, Flow(s.lines, cols), s.head, PlacedCursor(s, cols), rows, cols);
  }

  lemma ResizeSound(g: Grid, rows: nat, cols: nat, mode: Mode)
    requires Wf(g)
    ensures Sound(g, Resize(g, rows, cols, mode).0) && Ordered(g, Resize(g, rows, cols, mode).0)
  {
    RewrapSound(g, AtLeastOne(rows), AtLeastOne(cols));
    ClampResizeSound(g, AtLeastOne(rows), AtLeastOne(cols));
  }
}
