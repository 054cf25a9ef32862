/** What printing adds to the text (src/emu/term/perform.rs, src/emu/screen.rs): read from the first archived row
    to the cursor, it is the text there was with the new characters at its end, over however many margins. */
module Typing {
  import opened Cells
  import opened Grid
  import opened GridLaws
  import opened GridEffects
  import opened Print
  import opened Reading
  import opened ReflowLaws
  import E = Effects

  /** The columns of the cursor's row that are written up to the cursor. */
  function Standing(g: Grid): nat {
    if g.cursor.wrapPending then g.cols else g.cursor.col
  }

  ghost predicate CursorRowOk(g: Grid) {
    Shape(g) && |g.rows[g.cursor.row].cells| == g.cols
  }

  function CursorGlyphs(g: Grid): (gs: seq<Glyph>)
    requires CursorRowOk(g)
    ensures |gs| == g.cols
  {
    Glyphs(g.rows[g.cursor.row].cells, g.rows[g.cursor.row].extras)
  }

  /** The rows above the cursor's, from the first one archived. */
  function Above(archived: Evicted, g: Grid): seq<Line>
    requires Shape(g)
  {
    LinesOfDeparted(archived) + LinesOf(g.rows[..g.cursor.row])
  }

  /** The lines from the first row archived to the cursor. */
  function TextTo(archived: Evicted, g: Grid): (ls: seq<seq<Glyph>>)
    requires CursorRowOk(g)
    ensures ls != []
  {
    Read(Above(archived, g) + [Line(CursorGlyphs(g)[..Standing(g)], false)])
  }

  /** The last line with more at its end. */
  function Appended(ls: seq<seq<Glyph>>, more: seq<Glyph>): (r: seq<seq<Glyph>>)
    requires ls != []
    ensures |r| == |ls|
  {
    ls[..|ls| - 1] + [ls[|ls| - 1] + more]
  }

  /** A character as it stands: its lead cell with what is drawn on it, and a continuation on each further column. */
  function Stamp(ch: char, width: nat, style: Style, extras: seq<Extra>): (gs: seq<Glyph>)
    requires width >= 1
    ensures |gs| == width
  {
    [Glyph(Cell(ch, style), extras)] + seq(width - 1, _ => Glyph(Cell(CONTINUATION, style), []))
  }

  // ----- a line that grows -----

  lemma LastGrows(above: seq<Line>, gs: seq<Glyph>, more: seq<Glyph>)
    ensures Read(above + [Line(gs + more, false)]) == Appended(Read(above + [Line(gs, false)]), more)
  {
    var a, b := Line(gs, false), Line(gs + more, false);
    if above == [] {
      assert above + [a] == [a] && above + [b] == [b];
      assert [a][1..] == [] && [b][1..] == [];
      assert Read([a]) == [gs] && Read([b]) == [gs + more];
    } else {
      ReadSnoc(above, a);
      ReadSnoc(above, b);
      var ls := Read(above);
      if above[|above| - 1].wrapped {
        assert (ls[|ls| - 1] + gs) + more == ls[|ls| - 1] + (gs + more);
      }
    }
  }

  lemma LineRunsOn(above: seq<Line>, gs: seq<Glyph>, more: seq<Glyph>)
    ensures Read(above + [Line(gs, true)] + [Line(more, false)]) == Appended(Read(above + [Line(gs, false)]), more)
  {
    ReadSnoc(above + [Line(gs, true)], Line(more, false));
    if above == [] {
      assert above + [Line(gs, true)] == [Line(gs, true)] && above + [Line(gs, false)] == [Line(gs, false)];
      assert [Line(gs, true)][1..] == [] && [Line(gs, false)][1..] == [];
      assert Read([Line(gs, true)]) == [gs] == Read([Line(gs, false)]);
    } else {
      ReadSnoc(above, Line(gs, true));
      ReadSnoc(above, Line(gs, false));
    }
  }

  // ----- the margin -----

  lemma WrappedReads(row: Row)
    requires row.wrapped
    ensures LineOf(row) == Line(Glyphs(row.cells, row.extras), true)
  {
    assert Glyphs(row.cells, row.extras)[..|row.cells|] == Glyphs(row.cells, row.extras);
  }

  lemma AboveSplits(archived: Evicted, more: Evicted, rows: seq<Row>)
    ensures LinesOfDeparted(archived + more) == LinesOfDeparted(archived) + LinesOfDeparted(more)
  {
  }

  /** A row left behind at the margin is read above the next one, all its columns. */
  lemma SteppedOver(g: Grid, mid: Grid, ev: Evicted, archived: Evicted, width: nat, pen: Style)
    requires Wf(g) && Shape(mid) && RoomMade(g, mid, ev, width, pen)
    requires g.autowrap && g.history && g.region == Region(0, |g.rows| - 1)
    requires g.cursor.wrapPending || g.cursor.col + width > g.cols
    ensures mid.cursor.col == 0 && |mid.rows| == |g.rows|
    ensures Above(archived + ev, mid) == Above(archived, g) + [Line(CursorGlyphs(g), true)]
  {
    hide LineOf, LineOfDeparted, Glyphs, InRange, Bare;
    var row := g.cursor.row;
    var left := g.rows[row := g.rows[row].(wrapped := true)];
    WrappedReads(left[row]);
    assert LineOf(left[row]) == Line(CursorGlyphs(g), true);
    assert LinesOf(left[..row + 1]) == LinesOf(g.rows[..row]) + [LineOf(left[row])];
    AboveSplits(archived, ev, left);
    if row == |g.rows| - 1 {
      assert LinesOf(left[..row + 1]) == [LineOf(left[0])] + LinesOf(mid.rows[..row]);
    } else {
      assert mid.rows[..row + 1] == left[..row + 1];
      assert LinesOfDeparted(ev) == [];
    }
  }

  // ----- the character -----

  /** The attachments on a column that are drawn. */
  function NoMarks(xs: seq<Extra>): seq<Extra> {
    if xs == [] then []
    else if xs[0].Mark? then NoMarks(xs[1..])
    else [xs[0]] + NoMarks(xs[1..])
  }

  lemma DrawnOn(es: seq<Entry>, k: nat)
    ensures ExtrasAt(es, k) == NoMarks(E.On(es, k))
  {
    if es != [] {
      DrawnOn(es[1..], k);
      if es[0].at == k {
        assert E.On(es, k)[1..] == E.On(es[1..], k);
      }
    }
  }

  lemma NoMarksCons(x: Extra, rest: seq<Extra>)
    ensures NoMarks([x] + rest) == (if x.Mark? then [] else [x]) + NoMarks(rest)
  {
    assert ([x] + rest)[1..] == rest;
  }

  lemma {:induction false} NoMarksConcat(a: seq<Extra>, b: seq<Extra>)
    ensures NoMarks(a + b) == NoMarks(a) + NoMarks(b)
  {
    hide NoMarks;
    if a == [] {
      assert a + b == b;
      NothingDrawn();
    } else {
      NoMarksConcat(a[1..], b);
      assert a + b == [a[0]] + (a[1..] + b) && a == [a[0]] + a[1..];
      NoMarksCons(a[0], a[1..] + b);
      NoMarksCons(a[0], a[1..]);
    }
  }

  lemma MarksAlone(xs: seq<Extra>)
    ensures NoMarks(E.OnlyMarks(xs)) == []
    ensures forall kind :: E.NotOfKind(E.OnlyMarks(xs), kind) == E.OnlyMarks(xs)
  {
    if xs != [] {
      MarksAlone(xs[1..]);
      if xs[0].Mark? {
        assert E.OnlyMarks(xs)[1..] == E.OnlyMarks(xs[1..]);
      }
    }
  }

  lemma GlyphAt(row: Row, k: nat)
    requires k < |row.cells|
    ensures Glyphs(row.cells, row.extras)[k] == Glyph(row.cells[k], NoMarks(E.On(row.extras, k)))
    ensures E.At(row, k) == E.Column(row.cells[k], E.On(row.extras, k))
  {
    DrawnOn(row.extras, k);
  }

  /** Left of a column as before, and a character on it. */
  ghost predicate Stamped(before: Row, after: Row, col: nat, ch: char, width: nat, style: Style, extras: seq<Extra>)
    requires width >= 1
  {
    && |after.cells| == |before.cells| && col < |after.cells|
    && var (was, now, end) := (Glyphs(before.cells, before.extras), Glyphs(after.cells, after.extras),
                               Min(col + width, |after.cells|));
       now[..end] == was[..col] + Stamp(ch, width, style, extras)[..end - col]
  }

  /** What the pen draws on the cells it writes, besides the character. */
  function PenExtras(underline: Color, link: Option<nat>): seq<Extra> {
    (if underline == DefaultColor then [] else [Underline(underline)])
    + (match link case None => [] case Some(id) => [Link(id)])
  }

  lemma WrittenStamps(before: Row, after: Row, col: nat, ch: char, width: nat, style: Style, inserted: bool)
    requires width >= 1 && col < |before.cells| && E.Written(before, after, col, ch, width, style, inserted)
    ensures Stamped(before, after, col, ch, width, style, [])
    ensures NoMarks(E.On(after.extras, col)) == []
    ensures forall kind :: E.NotOfKind(E.On(after.extras, col), kind) == E.On(after.extras, col)
  {
    hide NoMarks, E.On, E.OnlyMarks, Glyphs;
    var was, now, end := Glyphs(before.cells, before.extras), Glyphs(after.cells, after.extras),
        Min(col + width, |after.cells|);
    forall k | 0 <= k < end ensures now[k] == (was[..col] + Stamp(ch, width, style, [])[..end - col])[k] {
      GlyphAt(before, k);
      GlyphAt(after, k);
      MarksAlone(E.On(before.extras, k));
      NothingDrawn();
      assert k < col ==> E.At(after, k) == E.At(before, k);
    }
    MarksAlone(E.On(before.extras, col));
    NothingDrawn();
  }

  lemma NothingDrawn()
    ensures NoMarks([]) == []
    ensures forall kind :: E.NotOfKind([], kind) == []
  {
  }

  // ----- what the pen adds -----

  lemma NotOfKindCons(x: Extra, rest: seq<Extra>, kind: Kind)
    ensures E.NotOfKind([x] + rest, kind) == E.NotOfKind([x], kind) + E.NotOfKind(rest, kind)
  {
    assert ([x] + rest)[1..] == rest && [x][1..] == [];
  }

  lemma {:induction false} NotOfKindConcat(a: seq<Extra>, b: seq<Extra>, kind: Kind)
    ensures E.NotOfKind(a + b, kind) == E.NotOfKind(a, kind) + E.NotOfKind(b, kind)
  {
    hide E.NotOfKind;
    if a == [] {
      assert a + b == b;
      NothingDrawn();
    } else {
      NotOfKindConcat(a[1..], b, kind);
      assert a + b == [a[0]] + (a[1..] + b) && a == [a[0]] + a[1..];
      NotOfKindCons(a[0], a[1..] + b, kind);
      NotOfKindCons(a[0], a[1..], kind);
    }
  }

  lemma OneDrawn(x: Extra)
    requires !x.Mark?
    ensures NoMarks([x]) == [x]
    ensures x.Underline? ==> E.NotOfKind([x], KindLink) == [x]
  {
    assert [x][1..] == [];
  }

  /** One column drawn on changes that glyph alone. */
  lemma Redrawn(before: Row, after: Row, col: nat)
    requires col < |before.cells| && E.ColumnAlone(before, after, col)
    ensures Glyphs(after.cells, after.extras)
            == Glyphs(before.cells, before.extras)[col := Glyph(before.cells[col], NoMarks(E.On(after.extras, col)))]
  {
    hide NoMarks, E.On;
    forall k | 0 <= k < |before.cells|
      ensures Glyphs(after.cells, after.extras)[k]
              == if k == col then Glyph(before.cells[col], NoMarks(E.On(after.extras, col)))
                 else Glyphs(before.cells, before.extras)[k]
    {
      GlyphAt(before, k);
      GlyphAt(after, k);
    }
  }

  lemma Restamped(base: Row, before: Row, after: Row, col: nat, ch: char, width: nat, style: Style, extras: seq<Extra>)
    requires width >= 1 && Stamped(base, before, col, ch, width, style, extras) && E.ColumnAlone(before, after, col)
    ensures Stamped(base, after, col, ch, width, style, NoMarks(E.On(after.extras, col)))
  {
    hide NoMarks, E.On, Glyphs;
    Redrawn(before, after, col);
    var was, now, end := Glyphs(before.cells, before.extras), Glyphs(after.cells, after.extras),
        Min(col + width, |after.cells|);
    var under := Glyphs(base.cells, base.extras);
    assert was[..end][col] == Stamp(ch, width, style, extras)[0];
    assert was[col].cell == Cell(ch, style) by { GlyphAt(before, col); }
    assert before.cells[col] == Cell(ch, style) by { GlyphAt(before, col); }
    forall k | 0 <= k < end
      ensures now[k] == (under[..col] + Stamp(ch, width, style, NoMarks(E.On(after.extras, col)))[..end - col])[k]
    {
      assert was[k] == was[..end][k];
    }
  }

  /** The pen's attachments go on the lead cell and are drawn in the order they were put there. */
  lemma DecorateDraws(s: Term, p: Grid, base: Row, col: nat, ch: char, width: nat)
    requires Wf(p) && width >= 1 && Lead(p, width) == col
    requires (s.underline == DefaultColor && s.link == None) || RowsSorted(p.rows)
    requires Stamped(base, p.rows[p.cursor.row], col, ch, width, s.pen, [])
    requires NoMarks(E.On(p.rows[p.cursor.row].extras, col)) == []
    requires forall kind :: E.NotOfKind(E.On(p.rows[p.cursor.row].extras, col), kind)
                == E.On(p.rows[p.cursor.row].extras, col)
    ensures var (h, row) := (Decorate(s, p, width), p.cursor.row);
            && RowAlone(p, h, row) && Else(p, h) && Wf(h) && (RowsSorted(p.rows) ==> RowsSorted(h.rows))
            && h.rows[row].wrapped == p.rows[row].wrapped
            && Stamped(base, h.rows[row], col, ch, width, s.pen, PenExtras(s.underline, s.link))
            && (forall k :: col < k < p.cols ==> E.At(h.rows[row], k) == E.At(p.rows[row], k))
  {
    hide NoMarks, E.On, E.NotOfKind, UnderlineCell, LinkCell, Stamped, Undamaged, RowOk, E.Combined;
    var row := p.cursor.row;
    var on := E.On(p.rows[row].extras, col);
    var lined := if s.underline != DefaultColor then UnderlineCell(p, s.underline, width) else p;
    var first := if s.underline == DefaultColor then [] else [Underline(s.underline)];
    AttachmentsLeave(p, s.underline, None, width);
    AttachmentsSound(p, s.underline, s.link, width, Placement(0, 0, 0, 0, 0), PLAIN);
    assert on + [] == on;
    OneDrawn(Underline(s.underline));
    NothingDrawn();
    NoMarksConcat(on, first);
    assert [] + first == first;
    assert NoMarks(first) == first;
    assert Stamped(base, lined.rows[row], col, ch, width, s.pen, first) by {
      if s.underline != DefaultColor {
        Restamped(base, p.rows[row], lined.rows[row], col, ch, width, s.pen, []);
      }
    }
    if s.link.Some? {
      var linked := LinkCell(lined, s.link, width);
      AttachmentsLeave(lined, DefaultColor, s.link, width);
      AttachmentsSound(lined, DefaultColor, s.link, width, Placement(0, 0, 0, 0, 0), PLAIN);
      NotOfKindConcat(on, first, KindLink);
      NoMarksConcat(on + first, [Link(s.link.value)]);
      OneDrawn(Link(s.link.value));
      Restamped(base, lined.rows[row], linked.rows[row], col, ch, width, s.pen, first);
    } else {
      assert first + [] == first;
    }
  }

  // ----- one character -----

  /** Nothing that is scrolled off is lost: the whole screen scrolls, into the history, and the margin is stepped
      over. */
  ghost predicate Recorded(s: Term) {
    && Wf(s.grid) && s.grid.autowrap && s.grid.history && !s.onAlt
    && s.grid.region == Region(0, |s.grid.rows| - 1)
    && ((s.underline == DefaultColor && s.link == None) || RowsSorted(s.grid.rows))
  }

  /** The cells a character too wide for the rest of its row leaves unwritten at the end of it. */
  function Skipped(g: Grid, width: nat): seq<Glyph>
    requires CursorRowOk(g)
  {
    if g.cursor.wrapPending || g.cursor.col + width > g.cols then CursorGlyphs(g)[Standing(g)..] else []
  }

  lemma AppendedTwice(ls: seq<seq<Glyph>>, a: seq<Glyph>, b: seq<Glyph>)
    requires ls != []
    ensures Appended(Appended(ls, a), b) == Appended(ls, a + b)
  {
    assert (ls[|ls| - 1] + a) + b == ls[|ls| - 1] + (a + b);
  }

  /** Where the margin lets the character stand, and what is read before it there. */
  lemma ReadBefore(g: Grid, mid: Grid, ev: Evicted, archived: Evicted, width: nat, pen: Style)
    requires Wf(g) && Wf(mid) && RoomMade(g, mid, ev, width, pen) && width >= 1
    requires g.autowrap && g.history && g.region == Region(0, |g.rows| - 1)
    ensures mid.cols == g.cols && |mid.rows| == |g.rows|
    ensures if g.cursor.wrapPending || g.cursor.col + width > g.cols
            then mid.cursor.col == 0 && Above(archived + ev, mid) == Above(archived, g) + [Line(CursorGlyphs(g), true)]
            else mid == g && ev == []
  {
    hide LinesOf, LinesOfDeparted, CursorGlyphs, MovedUp, RowOk;
    if g.cursor.wrapPending || g.cursor.col + width > g.cols {
      SteppedOver(g, mid, ev, archived, width, pen);
    }
  }

  /** A character that opens a cell is the next of the text, on as many columns as there are for it. */
  lemma CellAppends(s: Term, ch: char, width: nat)
    requires Recorded(s) && width >= 1
    ensures var (p, ev) := Place(s.grid, ch, width, s.pen);
            var h := Decorate(s, p, width);
            && Recorded(s.(grid := h)) && h.cols == s.grid.cols
            && h.cursor.wrapPending == (Standing(h) == h.cols)
            && TextTo(s.archived + ev, h)
               == Appended(TextTo(s.archived, s.grid),
                           Skipped(s.grid, width)
                               + Stamp(ch, width, s.pen, PenExtras(s.underline, s.link))[..Min(width, h.cols)])
  {
    hide Place, Decorate, Stamped, E.Written, RoomMade, NoMarks, E.On, E.NotOfKind, Above, Read, Glyphs, Stamp,
         PenExtras, Appended, Undamaged, InRange, RowsSorted;
    var g := s.grid;
    var (p, ev) := Place(g, ch, width, s.pen);
    var mid := PlaceLeaves(g, ch, width, s.pen);
    RoomIs(g, mid, ev, width, s.pen);
    PlaceSound(g, ch, width, s.pen);
    var row, col := mid.cursor.row, mid.cursor.col;
    ReadBefore(g, mid, ev, s.archived, width, s.pen);
    assert s.archived + [] == s.archived;
    WrittenStamps(mid.rows[row], p.rows[row], col, ch, width, s.pen, g.insertMode);
    DecorateDraws(s, p, mid.rows[row], col, ch, width);
    var h := Decorate(s, p, width);
    AboveAlone(s.archived + ev, mid, h);
    var stamp := Stamp(ch, width, s.pen, PenExtras(s.underline, s.link))[..Min(width, h.cols)];
    StampedReads(g, mid, h, Above(s.archived, g), Above(s.archived + ev, mid), ch, width, s.pen,
                 PenExtras(s.underline, s.link));
  }

  lemma AboveAlone(archived: Evicted, mid: Grid, h: Grid)
    requires Shape(mid) && Shape(h) && RowAlone(mid, h, mid.cursor.row) && h.cursor.row == mid.cursor.row
    ensures Above(archived, h) == Above(archived, mid)
  {
    assert h.rows[..h.cursor.row] == mid.rows[..mid.cursor.row];
  }

  lemma StampedReads(g: Grid, mid: Grid, h: Grid, above: seq<Line>, now: seq<Line>, ch: char, width: nat, style: Style,
                     extras: seq<Extra>)
    requires CursorRowOk(g) && CursorRowOk(mid) && CursorRowOk(h) && width >= 1
    requires mid.cols == h.cols == g.cols && mid.cursor.row == h.cursor.row
    requires Standing(h) == Min(mid.cursor.col + width, g.cols)
    requires Stamped(mid.rows[mid.cursor.row], h.rows[h.cursor.row], mid.cursor.col, ch, width, style, extras)
    requires if g.cursor.wrapPending || g.cursor.col + width > g.cols
             then mid.cursor.col == 0 && now == above + [Line(CursorGlyphs(g), true)]
             else mid == g && now == above
    ensures Read(now + [Line(CursorGlyphs(h)[..Standing(h)], false)])
            == Appended(Read(above + [Line(CursorGlyphs(g)[..Standing(g)], false)]),
                        Skipped(g, width) + Stamp(ch, width, style, extras)[..Min(width, h.cols)])
  {
    hide Read, Glyphs, Stamp, Appended;
    var stamp := Stamp(ch, width, style, extras)[..Min(width, h.cols)];
    if g.cursor.wrapPending || g.cursor.col + width > g.cols {
      assert CursorGlyphs(h)[..Standing(h)] == stamp;
      var gs, n := CursorGlyphs(g), Standing(g);
      LineRunsOn(above, gs, stamp);
      assert gs == gs[..n] + gs[n..];
      LastGrows(above, gs[..n], gs[n..]);
      AppendedTwice(Read(above + [Line(gs[..n], false)]), gs[n..], stamp);
    } else {
      assert CursorGlyphs(h)[..Standing(h)] == CursorGlyphs(g)[..Standing(g)] + stamp;
      LastGrows(above, CursorGlyphs(g)[..Standing(g)], stamp);
      assert [] + stamp == stamp;
    }
  }

  // ----- a text -----

  /** Characters one column wide, as the pen leaves them. */
  function Typed(text: string, style: Style, extras: seq<Extra>): (gs: seq<Glyph>)
    ensures |gs| == |text|
  {
    seq(|text|, i requires 0 <= i < |text| => Glyph(Cell(text[i], style), extras))
  }

  lemma PrintableAppends(t: Tables, s: Term, ch: char)
    requires Recorded(s) && Printable(ch) && !s.decGraphics
    ensures var h := PrintChar(t, s, ch);
            && Recorded(h)
            && h == s.(grid := h.grid, seg := Segmenter([ch], 1, false), lastPrint := Some(ch), archived := h.archived)
            && TextTo(h.archived, h.grid)
               == Appended(TextTo(s.archived, s.grid), Typed([ch], s.pen, PenExtras(s.underline, s.link)))
  {
    hide Place, Decorate, Appended, TextTo, PenExtras, InRange, Undamaged, RowsSorted;
    CellAppends(s, ch, 1);
    assert Skipped(s.grid, 1) == [];
    var extras := PenExtras(s.underline, s.link);
    assert [] + Stamp(ch, 1, s.pen, extras)[..1] == Typed([ch], s.pen, extras);
  }

  /** Printing a text of one-column characters adds it to the end of what there was, whatever margins it crosses:
      rows archived as the screen scrolls, and then the grid to the cursor, read as the old text and the new. */
  lemma {:induction false} TextAppends(t: Tables, s: Term, text: string)
    requires Recorded(s) && AllPrintable(text) && !s.decGraphics
    ensures var h := PrintEach(t, s, text);
            && Recorded(h)
            && TextTo(h.archived, h.grid)
               == Appended(TextTo(s.archived, s.grid), Typed(text, s.pen, PenExtras(s.underline, s.link)))
    decreases |text|
  {
    hide PrintChar, Appended, TextTo, PenExtras, Recorded;
    RecordedOk(s);
    var extras, ls := PenExtras(s.underline, s.link), TextTo(s.archived, s.grid);
    if text == [] {
      AppendedNothing(ls);
      assert Typed(text, s.pen, extras) == [];
    } else {
      PrintableAppends(t, s, text[0]);
      TextAppends(t, PrintChar(t, s, text[0]), text[1..]);
      AppendedTwice(ls, Typed([text[0]], s.pen, extras), Typed(text[1..], s.pen, extras));
      assert Typed([text[0]], s.pen, extras) + Typed(text[1..], s.pen, extras) == Typed(text, s.pen, extras);
    }
  }

  /** Nothing printed on the alternate screen is ever archived. */
  lemma {:induction false} AlternateArchivesNothing(t: Tables, s: Term, text: string)
    requires Shape(s.grid) && s.onAlt
    ensures var h := PrintEach(t, s, text); h.archived == s.archived && h.onAlt
    decreases |text|
  {
    hide Place, Join, Decorate, Push;
    if text != [] {
      AlternateArchivesNothing(t, PrintChar(t, s, text[0]), text[1..]);
    }
  }

  lemma RecordedOk(s: Term)
    requires Recorded(s)
    ensures Wf(s.grid) && CursorRowOk(s.grid)
  {
  }

  lemma AppendedNothing(ls: seq<seq<Glyph>>)
    requires ls != []
    ensures Appended(ls, []) == ls
  {
    assert ls[|ls| - 1] + [] == ls[|ls| - 1];
  }

  // ----- the whole text, when the cursor is at its end -----

  /** Nothing stands past the cursor: blanks to the end of its row, which ends its line, and empty lines below. */
  ghost predicate AtEnd(g: Grid) {
    && CursorRowOk(g) && !g.rows[g.cursor.row].wrapped
    && AllBlank(CursorGlyphs(g)[Standing(g)..])
    && forall i :: g.cursor.row < i < |g.rows| ==> LineOf(g.rows[i]) == Line([], false)
  }

  /** Every line, from the first row archived to the last of the grid. */
  function Whole(archived: Evicted, g: Grid): seq<seq<Glyph>> {
    Read(LinesOfDeparted(archived) + LinesOf(g.rows))
  }

  function Empties(n: nat): (r: seq<seq<Glyph>>)
    ensures |r| == n
  {
    seq(n, _ => [])
  }

  /** The blanks between the end of the text on the cursor's row and the cursor. */
  function Gap(g: Grid): seq<Glyph>
    requires CursorRowOk(g)
  {
    var n := LineLen(g.rows[g.cursor.row]);
    if n <= Standing(g) <= g.cols then CursorGlyphs(g)[n..Standing(g)] else []
  }

  lemma {:induction false} ReadEmpties(n: nat)
    ensures Read(seq(n, _ => Line([], false))) == Empties(n)
  {
    if n > 0 {
      ReadEmpties(n - 1);
      assert seq(n, _ => Line([], false))[1..] == seq(n - 1, _ => Line([], false));
    }
  }

  /** The cursor at the end, the whole text is the text to the cursor, less the gap, and empty lines. */
  lemma WholeToCursor(archived: Evicted, g: Grid)
    requires Wf(g) && RowsSorted(g.rows) && AtEnd(g)
    ensures var (ls, whole, below) := (TextTo(archived, g), Whole(archived, g), |g.rows| - 1 - g.cursor.row);
            && |whole| == |ls| + below
            && Appended(whole[..|ls|], Gap(g)) == ls
            && whole[|ls|..] == Empties(below)
    ensures AllBlank(Gap(g))
  {
    hide LinesOf, LinesOfDeparted, LineOf, Glyphs, InRange, Read, Appended, Sorted;
    var row := g.cursor.row;
    LineEnds(g);
    var line := CursorGlyphs(g)[..LineLen(g.rows[row])];
    var above, below := Above(archived, g), seq(|g.rows| - 1 - row, _ => Line([], false));
    RowsApart(g.rows, row);
    assert LineOf(g.rows[row]) == Line(line, false);
    assert LinesOfDeparted(archived) + LinesOf(g.rows) == (above + [Line(line, false)]) + below;
    ReadClosed(above + [Line(line, false)], below);
    ReadEmpties(|g.rows| - 1 - row);
    assert CursorGlyphs(g)[..Standing(g)] == line + Gap(g);
    LastGrows(above, line, Gap(g));
  }

  lemma RowsApart(rows: seq<Row>, row: nat)
    requires row < |rows| && forall i :: row < i < |rows| ==> LineOf(rows[i]) == Line([], false)
    ensures LinesOf(rows) == LinesOf(rows[..row]) + [LineOf(rows[row])] + seq(|rows| - 1 - row, _ => Line([], false))
  {
    hide LineOf;
  }

  /** The text on the cursor's row ends no later than the cursor. */
  lemma LineEnds(g: Grid)
    requires Wf(g) && RowsSorted(g.rows) && AtEnd(g)
    ensures LineLen(g.rows[g.cursor.row]) <= Standing(g) <= g.cols
    ensures LineOf(g.rows[g.cursor.row]) == Line(CursorGlyphs(g)[..LineLen(g.rows[g.cursor.row])], false)
    ensures AllBlank(Gap(g))
  {
    hide ContentLen, InRange, Sorted;
    var row := g.rows[g.cursor.row];
    ContentTrims(row, g.cols);
    var n, gs := ContentLen(row), CursorGlyphs(g);
    forall k | Standing(g) <= k < g.cols ensures BlankGlyph(gs[k]) {
      assert gs[k] == gs[Standing(g)..][k - Standing(g)];
    }
    forall i | n <= i < Standing(g) ensures BlankGlyph(gs[i]) {
      assert gs[i] == gs[n..][i - n];
    }
  }

  /** An empty line stands on a row of blanks. */
  lemma EmptyIsBlank(row: Row, cols: nat)
    requires RowOk(row, cols) && Sorted(row.extras) && cols >= 1 && LineOf(row) == Line([], false)
    ensures !row.wrapped && AllBlank(Glyphs(row.cells, row.extras))
  {
    hide ContentLen;
    ContentTrims(row, cols);
    assert Glyphs(row.cells, row.extras)[0..] == Glyphs(row.cells, row.extras);
  }

  lemma BareIsBlank(row: Row, cols: nat)
    requires Bare(row, cols, PLAIN)
    ensures !row.wrapped && AllBlank(Glyphs(row.cells, row.extras))
  {
    assert Cell(BLANK, PLAIN) == DEFAULT_CELL;
  }

  /** Where the margin lets the character stand, blanks are all there is from the cursor on. */
  lemma RoomIsBlank(g: Grid, mid: Grid, ev: Evicted, width: nat, pen: Style)
    requires Wf(g) && RowsSorted(g.rows) && AtEnd(g) && Wf(mid) && RoomMade(g, mid, ev, width, pen) && width >= 1
    requires g.autowrap && g.region == Region(0, |g.rows| - 1) && Erased(pen) == PLAIN
    ensures !mid.rows[mid.cursor.row].wrapped && AllBlank(CursorGlyphs(mid)[mid.cursor.col..])
    ensures forall i :: mid.cursor.row < i < |mid.rows| ==> LineOf(mid.rows[i]) == Line([], false)
  {
    hide LineOf, Bare, Glyphs, InRange, Sorted;
    if g.cursor.wrapPending || g.cursor.col + width > g.cols {
      var row := mid.rows[mid.cursor.row];
      if g.cursor.row == g.region.bottom {
        BareIsBlank(row, g.cols);
      } else {
        EmptyIsBlank(row, g.cols);
      }
      assert CursorGlyphs(mid)[0..] == CursorGlyphs(mid);
    }
  }

  lemma StaysBlank(before: Row, placed: Row, after: Row, col: nat, ch: char, width: nat, style: Style, inserted: bool)
    requires width >= 1 && E.Written(before, placed, col, ch, width, style, inserted) && col < |before.cells|
    requires |after.cells| == |placed.cells| && forall k :: col < k < |after.cells| ==>
                E.At(after, k) == E.At(placed, k)
    requires AllBlank(Glyphs(before.cells, before.extras)[col..])
    ensures AllBlank(Glyphs(after.cells, after.extras)[Min(col + width, |after.cells|)..])
  {
    hide Glyphs, E.On, NoMarks, BlankGlyph;
    var gs, end := Glyphs(after.cells, after.extras), Min(col + width, |after.cells|);
    forall k | end <= k < |gs| ensures BlankGlyph(gs[k]) {
      var j := if inserted then k - width else k;
      assert E.At(after, k) == E.At(placed, k) == E.At(before, j);
      GlyphAt(after, k);
      GlyphAt(before, j);
      assert Glyphs(before.cells, before.extras)[j] == Glyphs(before.cells, before.extras)[col..][j - col];
    }
  }

  lemma CellStaysAtEnd(s: Term, ch: char, width: nat)
    requires Recorded(s) && RowsSorted(s.grid.rows) && AtEnd(s.grid) && Erased(s.pen) == PLAIN && width >= 1
    ensures var h := Decorate(s, Place(s.grid, ch, width, s.pen).0, width);
            AtEnd(h) && RowsSorted(h.rows) && |h.rows| == |s.grid.rows|
  {
    hide Place, Decorate, Stamped, E.Written, RoomMade, NoMarks, E.On, E.NotOfKind, Glyphs, Erased, LineOf, PenExtras,
         Undamaged, InRange, Sorted, E.At, AllBlank, MovedUp;
    var g := s.grid;
    var (p, ev) := Place(g, ch, width, s.pen);
    var mid := PlaceLeaves(g, ch, width, s.pen);
    RoomIs(g, mid, ev, width, s.pen);
    PlaceSound(g, ch, width, s.pen);
    var row, col := mid.cursor.row, mid.cursor.col;
    ReadBefore(g, mid, ev, s.archived, width, s.pen);
    RoomIsBlank(g, mid, ev, width, s.pen);
    WrittenStamps(mid.rows[row], p.rows[row], col, ch, width, s.pen, g.insertMode);
    DecorateDraws(s, p, mid.rows[row], col, ch, width);
    var h := Decorate(s, p, width);
    assert p.rows[row].wrapped == mid.rows[row].wrapped
        by { WrittenKeepsEnd(mid.rows[row], p.rows[row], col, ch, width, s.pen, g.insertMode); }
    StaysBlank(mid.rows[row], p.rows[row], h.rows[row], col, ch, width, s.pen, g.insertMode);
  }

  lemma WrittenKeepsEnd(before: Row, after: Row, col: nat, ch: char, width: nat, style: Style, inserted: bool)
    requires E.Written(before, after, col, ch, width, style, inserted)
    ensures after.wrapped == before.wrapped && |after.cells| == |before.cells|
  {
  }

  lemma {:induction false} TextStaysAtEnd(t: Tables, s: Term, text: string)
    requires Recorded(s) && RowsSorted(s.grid.rows) && AtEnd(s.grid) && Erased(s.pen) == PLAIN
    requires AllPrintable(text) && !s.decGraphics
    ensures var h := PrintEach(t, s, text);
            Recorded(h) && AtEnd(h.grid) && RowsSorted(h.grid.rows) && |h.grid.rows| == |s.grid.rows|
    decreases |text|
  {
    hide Recorded, AtEnd, RowsSorted, Erased, Place, Decorate, TextTo, Appended, Wf;
    if text != [] {
      RecordedOk(s);
      PrintableAppends(t, s, text[0]);
      CellStaysAtEnd(s, text[0], 1);
      TextStaysAtEnd(t, PrintChar(t, s, text[0]), text[1..]);
    }
  }

  /** Typing at the end of the text: archive and grid, read from end to end, are the lines there were, the text
      following on the last of them after any gap the cursor left, and empty lines. */
  lemma TypingAppends(t: Tables, s: Term, text: string)
    requires Recorded(s) && RowsSorted(s.grid.rows) && AtEnd(s.grid) && Erased(s.pen) == PLAIN
    requires AllPrintable(text) && !s.decGraphics
    ensures var h := PrintEach(t, s, text);
            var (was, now, last) := (Whole(s.archived, s.grid), Whole(h.archived, h.grid),
                |TextTo(s.archived, s.grid)| - 1);
            && last < |was| && last < |now| && now[..last] == was[..last]
            && Trim(now[last])
               == Trim(was[last] + Gap(s.grid) + Typed(text, s.pen, PenExtras(s.underline, s.link)))
            && (forall i :: last < i < |was| ==> was[i] == []) && (forall i :: last < i < |now| ==> now[i] == [])
  {
    hide PrintEach, Recorded, AtEnd, RowsSorted, Erased, TextTo, Whole, Gap, PenExtras, Typed, Wf, AllBlank;
    RecordedOk(s);
    var h := PrintEach(t, s, text);
    TextStaysAtEnd(t, s, text);
    RecordedOk(h);
    TextAppends(t, s, text);
    WholeToCursor(s.archived, s.grid);
    WholeToCursor(h.archived, h.grid);
    Compared(Whole(s.archived, s.grid), Whole(h.archived, h.grid), TextTo(s.archived, s.grid), Gap(s.grid), Gap(h.grid),
             Typed(text, s.pen, PenExtras(s.underline, s.link)), |s.grid.rows| - 1 - s.grid.cursor.row,
             |h.grid.rows| - 1 - h.grid.cursor.row);
  }

  lemma Compared(was: seq<seq<Glyph>>, now: seq<seq<Glyph>>, ls: seq<seq<Glyph>>, gap: seq<Glyph>, after: seq<Glyph>,
                 typed: seq<Glyph>, below: nat, under: nat)
    requires ls != [] && |was| == |ls| + below && |now| == |ls| + under
    requires Appended(was[..|ls|], gap) == ls && Appended(now[..|ls|], after) == Appended(ls, typed)
    requires was[|ls|..] == Empties(below) && now[|ls|..] == Empties(under) && AllBlank(after)
    ensures var last := |ls| - 1;
            && now[..last] == was[..last] && Trim(now[last]) == Trim(was[last] + gap + typed)
            && (forall i :: last < i < |was| ==> was[i] == []) && (forall i :: last < i < |now| ==> now[i] == [])
  {
    hide Trim, AllBlank;
    var last := |ls| - 1;
    assert was[..last] == ls[..last];
    assert now[..last] == Appended(now[..|ls|], after)[..last] == Appended(ls, typed)[..last] == ls[..last];
    assert ls[last] == was[last] + gap;
    assert Appended(ls, typed)[last] == ls[last] + typed;
    assert now[last] + after == was[last] + gap + typed;
    GapTrims(now[last], after);
    assert forall i :: last < i < |was| ==> was[i] == was[last + 1..][i - last - 1];
    assert forall i :: last < i < |now| ==> now[i] == now[last + 1..][i - last - 1];
  }

  lemma GapTrims(gs: seq<Glyph>, gap: seq<Glyph>)
    requires AllBlank(gap)
    ensures Trim(gs + gap) == Trim(gs)
  {
    assert (gs + gap)[|gs|..] == gap;
    TrimsToSameTrim(gs + gap, gs);
  }

  // ----- a frame printed again -----

  /** Printing over a row what it already says, in the style it says it in, flags nothing and changes no row. */
  lemma {:induction false} ReprintingFlagsNothing(t: Tables, s: Term, text: string)
    requires Wf(s.grid) && Batched(s) && AllPrintable(text)
    requires !s.grid.insertMode
    requires text != [] ==> !s.grid.cursor.wrapPending && s.grid.cursor.col + |text| <= s.grid.cols
    requires var (row, col) := (s.grid.rows[s.grid.cursor.row], s.grid.cursor.col);
             row.extras == [] && forall i :: 0 <= i < |text| ==> row.cells[col + i] == Cell(text[i], s.pen)
    ensures PrintEach(t, s, text).grid.dirty == s.grid.dirty && PrintEach(t, s, text).grid.rows == s.grid.rows
    decreases |text|
  {
    hide Place, InRange;
    if text != [] {
      var g := s.grid;
      RewritingFlagsNothing(g, text[0], 1, s.pen);
      OnePlaced(g, text[0], s.pen);
      ReprintingFlagsNothing(t, PrintChar(t, s, text[0]), text[1..]);
    }
  }

  lemma OnePlaced(g: Grid, ch: char, pen: Style)
    requires Shape(g) && !g.cursor.wrapPending
    ensures Place(g, ch, 1, pen).0
            == g.(rows := Place(g, ch, 1, pen).0.rows, dirty := Place(g, ch, 1, pen).0.dirty,
                  cursor := if g.cursor.col + 1 < g.cols then Cursor(g.cursor.row, g.cursor.col + 1, false)
                            else Cursor(g.cursor.row, g.cols - 1, g.autowrap))
  {
    hide PlaceCells;
  }
}
