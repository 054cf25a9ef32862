/** Characters of more than one code point (src/emu/text.rs, src/emu/screen.rs): the first of them opens a cell and
    the others become combining text on it, however many there are. */
module Joining {
  import opened Cells
  import opened Grid
  import opened GridLaws
  import opened GridEffects
  import opened Print
  import opened Reading
  import opened ReflowLaws
  import opened Typing
  import E = Effects
  import Utf8

  /** What is drawn on a column once marks have joined it one after another. */
  function CombinedAll(xs: seq<Extra>, marks: string): seq<Extra>
    decreases |marks|
  {
    if marks == [] then xs else CombinedAll(E.Combined(xs, marks[0]), marks[1..])
  }

  /** A column that had no combining text has all the marks in one. */
  lemma {:induction false} CombinedAllIs(xs: seq<Extra>, before: string, marks: string)
    requires forall x :: x in xs ==> !x.Marks?
    requires before != [] || marks != []
    ensures CombinedAll(if before == [] then xs else xs + [Marks(before)], marks) == xs + [Marks(before + marks)]
    decreases |marks|
  {
    if marks == [] {
      assert before + [] == before;
    } else {
      LastCombines(xs, before, marks[0]);
      CombinedAllIs(xs, before + [marks[0]], marks[1..]);
      assert (before + [marks[0]]) + marks[1..] == before + marks;
      assert [] + [marks[0]] == [marks[0]];
    }
  }

  lemma {:induction false} LastCombines(xs: seq<Extra>, before: string, mark: char)
    requires forall x :: x in xs ==> !x.Marks?
    ensures E.Combined(xs, mark) == xs + [Marks([mark])]
    ensures E.Combined(xs + [Marks(before)], mark) == xs + [Marks(before + [mark])]
  {
    if xs == [] {
      assert [Marks(before)][1..] == [] && xs + [Marks(before)] == [Marks(before)];
      assert [Marks(before + [mark])] + [] == [Marks(before + [mark])];
    } else {
      assert xs[0] in xs && forall x :: x in xs[1..] ==> x in xs;
      LastCombines(xs[1..], before, mark);
      assert (xs + [Marks(before)])[1..] == xs[1..] + [Marks(before)];
      assert [xs[0]] + (xs[1..] + [Marks([mark])]) == xs + [Marks([mark])];
      assert [xs[0]] + (xs[1..] + [Marks(before + [mark])]) == xs + [Marks(before + [mark])];
    }
  }

  lemma {:induction false} DrawnCombined(xs: seq<Extra>, mark: char)
    ensures NoMarks(E.Combined(xs, mark)) == E.Combined(NoMarks(xs), mark)
  {
    if xs == [] {
      assert [Marks([mark])][1..] == [];
    } else if xs[0].Marks? {
      NoMarksCons(xs[0], xs[1..]);
      assert xs == [xs[0]] + xs[1..];
      NoMarksCons(Marks(xs[0].text + [mark]), xs[1..]);
      assert ([xs[0]] + NoMarks(xs[1..]))[1..] == NoMarks(xs[1..]);
    } else {
      DrawnCombined(xs[1..], mark);
      NoMarksCons(xs[0], E.Combined(xs[1..], mark));
      if !xs[0].Mark? {
        assert ([xs[0]] + NoMarks(xs[1..]))[1..] == NoMarks(xs[1..]);
      }
    }
  }

  /** A character stands at `col` of the cursor's row, and the cursor where it left it. */
  ghost predicate StandsThere(base: Row, g: Grid, col: nat, ch: char, width: nat, style: Style, extras: seq<Extra>) {
    && Wf(g) && RowsSorted(g.rows) && width >= 1 && Lead(g, width) == col
    && Stamped(base, g.rows[g.cursor.row], col, ch, width, style, extras)
    && NoMarks(E.On(g.rows[g.cursor.row].extras, col)) == extras
  }

  lemma JoinStands(base: Row, g: Grid, mark: char, col: nat, ch: char, width: nat, style: Style, extras: seq<Extra>)
    requires StandsThere(base, g, col, ch, width, style, extras)
    ensures var (h, settled) := Join(g, mark, width, width);
            && settled == width && RowAlone(g, h, g.cursor.row) && Else(g, h)
            && StandsThere(base, h, col, ch, width, style, E.Combined(extras, mark))
  {
    hide E.On, E.Combined, NoMarks, Stamped, InRange, Sorted, Undamaged, Retaken;
    var row := JoinLeaves(g, mark, width, width);
    JoinSound(g, mark, width, width);
    var h := Join(g, mark, width, width).0;
    assert RowsSorted(h.rows);
    DrawnCombined(E.On(g.rows[g.cursor.row].extras, col), mark);
    Restamped(base, g.rows[g.cursor.row], row, col, ch, width, style, extras);
  }

  lemma {:induction false} JoinAllStands(base: Row, g: Grid, marks: string, col: nat, ch: char, width: nat,
                                         style: Style, extras: seq<Extra>)
    requires StandsThere(base, g, col, ch, width, style, extras)
    ensures var h := JoinAll(g, marks, width);
            && RowAlone(g, h, g.cursor.row) && Else(g, h)
            && StandsThere(base, h, col, ch, width, style, CombinedAll(extras, marks))
    decreases |marks|
  {
    hide Join, StandsThere, E.Combined;
    StandsIsWf(base, g, col, ch, width, style, extras);
    if marks != [] {
      JoinStands(base, g, marks[0], col, ch, width, style, extras);
      JoinAllStands(base, Join(g, marks[0], width, width).0, marks[1..], col, ch, width, style,
                    E.Combined(extras, marks[0]));
    }
  }

  lemma StandsIsWf(base: Row, g: Grid, col: nat, ch: char, width: nat, style: Style, extras: seq<Extra>)
    requires StandsThere(base, g, col, ch, width, style, extras)
    ensures Wf(g)
  {
  }

  /** What is drawn on the lead cell of a character: what the pen adds, and the marks after the first. */
  function Drawing(extras: seq<Extra>, marks: string): seq<Extra> {
    extras + if marks == [] then [] else [Marks(marks)]
  }

  lemma AllCombined(extras: seq<Extra>, marks: string)
    requires forall x :: x in extras ==> !x.Marks?
    ensures CombinedAll(extras, marks) == Drawing(extras, marks)
  {
    if marks == [] {
      assert extras + [] == extras;
    } else {
      CombinedAllIs(extras, [], marks);
      assert [] + marks == marks;
    }
  }

  // ----- whether what joins finds its cell -----

  /** Without autowrap no wrap is ever pending, and a character that ends at the margin leaves the cursor on it. */
  predicate Found(g: Grid, width: nat) {
    g.autowrap || width >= g.cols || !(g.cursor.wrapPending || g.cursor.col + width >= g.cols)
  }

  /** What joins a character just placed, a combining mark, an underline colour or a link, finds the column it stands
      on exactly if autowrap is on, or it stopped short of the margin, or it took the whole row; else it goes to the
      column left of it. */
  lemma LeadFoundIff(g: Grid, ch: char, width: nat, pen: Style) returns (mid: Grid)
    requires Wf(g) && width >= 1
    ensures var (h, ev) := Place(g, ch, width, pen);
            && Wf(mid) && RoomMade(g, mid, ev, width, pen)
            && mid.cursor.col < |h.rows[h.cursor.row].cells|
            && h.rows[h.cursor.row].cells[mid.cursor.col] == Cell(ch, pen)
            && (Lead(h, width) == mid.cursor.col <==> Found(g, width))
            && (!Found(g, width) ==> Lead(h, width) + 1 == mid.cursor.col)
  {
    hide Place, RoomMade, E.At, E.On, InRange;
    mid := PlaceLeaves(g, ch, width, pen);
    RoomIs(g, mid, Place(g, ch, width, pen).1, width, pen);
    RoomColumn(g, mid, Place(g, ch, width, pen).1, width, pen);
  }

  lemma RoomColumn(g: Grid, mid: Grid, ev: Evicted, width: nat, pen: Style)
    requires Shape(g) && RoomMade(g, mid, ev, width, pen)
    ensures g.autowrap ==> mid.cursor.col + width <= g.cols || mid.cursor.col == 0
    ensures !g.autowrap && (g.cursor.wrapPending || g.cursor.col + width > g.cols) ==>
              mid.cursor.col == if width < g.cols then g.cols - width else 0
    ensures !g.autowrap && !(g.cursor.wrapPending || g.cursor.col + width > g.cols) ==> mid.cursor.col == g.cursor.col
  {
    hide MovedUp;
  }

  const MARGIN: Grid :=
    Grid([Row([Cell('a', PLAIN), DEFAULT_CELL], [], false)], 2, Cursor(0, 1, false), Region(0, 0), [false],
         [false, false], 0, false, false, true)

  /** A letter and an accent at the margin, autowrap off: the accent is on the letter before. */
  lemma AccentStrays()
    ensures Wf(MARGIN) && !Found(MARGIN, 1)
    ensures var h := WriteCluster(MARGIN, "e\U{301}", 1, PLAIN).0;
            && h.rows[0].cells == [Cell('a', PLAIN), Cell('e', PLAIN)]
            && E.On(h.rows[0].extras, 0) == [Marks("\U{301}")] && E.On(h.rows[0].extras, 1) == []
  {
    var text := "e\U{301}";
    var p := Place(MARGIN, 'e', 1, PLAIN).0;
    assert p.rows[0] == Row([Cell('a', PLAIN), Cell('e', PLAIN)], [], false) && p.cursor == Cursor(0, 1, false);
    var h := Join(p, text[1], 1, 1).0;
    assert FindMarks([], 0) == 0 && PartitionPoint([], 0, 0, 0) == 0;
    assert h.rows[0].extras == [Entry(0, Marks([text[1]]))];
    assert text[1..] == [text[1]] && text[1..][1..] == [];
    assert JoinAll(h, [], 1) == h && JoinAll(p, text[1..], 1) == h;
    E.OnOne(Entry(0, Marks([text[1]])), 0);
    E.OnOne(Entry(0, Marks([text[1]])), 1);
  }

  // ----- a cluster of a declared width -----

  /** A cluster written in one piece stands where its first code point would, the others on it. */
  lemma WriteClusterLeaves(g: Grid, text: string, width: nat, style: Style) returns (mid: Grid)
    requires Wf(g) && RowsSorted(g.rows) && text != [] && width >= 1
    requires Found(g, width)
    ensures var (h, ev) := WriteCluster(g, text, width, style);
            && Wf(mid) && RoomMade(g, mid, ev, width, style)
            && RowAlone(mid, h, mid.cursor.row) && Else(mid, h.(cursor := mid.cursor))
            && Stamped(mid.rows[mid.cursor.row], h.rows[mid.cursor.row], mid.cursor.col, text[0], width, style,
                       Drawing([], text[1..]))
            && h.cursor == if mid.cursor.col + width < g.cols then Cursor(mid.cursor.row, mid.cursor.col + width, false)
                           else Cursor(mid.cursor.row, g.cols - 1, g.autowrap)
  {
    hide RoomMade, Place, JoinAll, E.Written, Stamped, NoMarks, E.On, InRange, Sorted, Undamaged, E.NotOfKind, MovedUp;
    mid := PlaceLeaves(g, text[0], width, style);
    var (p, ev) := Place(g, text[0], width, style);
    var row, col := mid.cursor.row, mid.cursor.col;
    PlaceSound(g, text[0], width, style);
    RoomIs(g, mid, ev, width, style);
    RoomColumn(g, mid, ev, width, style);
    WrittenStamps(mid.rows[row], p.rows[row], col, text[0], width, style, g.insertMode);
    assert StandsThere(mid.rows[row], p, col, text[0], width, style, []);
    JoinAllStands(mid.rows[row], p, text[1..], col, text[0], width, style, []);
    AllCombined([], text[1..]);
  }

  // ----- a cluster that is printed -----

  /** UTF-8 takes that many bytes. */
  lemma ByteLenIsEncoded(c: char)
    requires Utf8.IsScalar(c as nat)
    ensures Utf8Len(c) == |Utf8.Encode(c as nat)|
  {
  }

  /** The first code point opens a cell of its own. */
  predicate Opens(t: Tables, seg: Segmenter, c: char, width: nat) {
    if 0x20 <= c as int < 0x7F then width == 1
    else
      && t.charCells(c) == width > 0
      && (seg.cluster == [] || ByteLen(seg.cluster) >= 512 || t.boundary(seg.cluster + [c], ByteLen(seg.cluster)))
  }

  /** Every further one joins it and leaves its width. */
  predicate JoinsOn(t: Tables, cluster: string, width: nat) {
    forall k :: 0 < k < |cluster| ==>
      && !(0x20 <= cluster[k] as int < 0x7F) && ByteLen(cluster[..k]) < 512
      && (if t.boundary(cluster[..k] + [cluster[k]], ByteLen(cluster[..k])) then t.charCells(cluster[k]) == 0
          else t.clusterCells(cluster[..k] + [cluster[k]]) == width)
  }

  lemma {:induction false} PrintJoins(t: Tables, s: Term, cluster: string, k: nat, width: nat)
    requires Wf(s.grid) && !s.decGraphics && 0 < k <= |cluster| && width >= 1 && JoinsOn(t, cluster, width)
    requires s.seg == Segmenter(cluster[..k], width, false)
    ensures PrintEach(t, s, cluster[k..])
            == s.(grid := JoinAll(s.grid, cluster[k..], width), seg := Segmenter(cluster, width, false))
    decreases |cluster| - k
  {
    hide Join, InRange;
    if k == |cluster| {
      assert cluster[..k] == cluster && cluster[k..] == [];
    } else {
      var c := cluster[k];
      assert cluster[..k] != [] && cluster[..k] + [c] == cluster[..k + 1];
      assert Push(t, s.seg, c) == (Segmenter(cluster[..k + 1], width, false), JoinCell(width, width));
      JoinSound(s.grid, c, width, width);
      var (g, settled) := Join(s.grid, c, width, width);
      Settles(s.grid, c, width);
      var next := PrintChar(t, s, c);
      assert next == s.(seg := Segmenter(cluster[..k + 1], width, false), grid := g);
      PrintJoins(t, next, cluster, k + 1, width);
      assert cluster[k..][0] == c && cluster[k..][1..] == cluster[k + 1..];
    }
  }

  lemma Settles(g: Grid, c: char, width: nat)
    requires Shape(g)
    ensures Join(g, c, width, width).1 == width
  {
    hide Combine;
  }

  /** A character of any number of code points is one cell of the text: the first of them, the pen's attachments, and
      the others as combining text. */
  lemma ClusterAppends(t: Tables, s: Term, cluster: string, width: nat)
    requires Recorded(s) && RowsSorted(s.grid.rows) && !s.decGraphics
    requires cluster != [] && Opens(t, s.seg, cluster[0], width) && JoinsOn(t, cluster, width)
    ensures var h := PrintEach(t, s, cluster);
            && Recorded(h) && h.seg == Segmenter(cluster, width, false)
            && TextTo(h.archived, h.grid)
               == Appended(TextTo(s.archived, s.grid),
                           Skipped(s.grid, width)
                           + Stamp(cluster[0], width, s.pen, Drawing(PenExtras(s.underline, s.link), cluster[1..]))
                             [..Min(width, h.grid.cols)])
  {
    hide Place, Decorate, PrintEach, JoinAll, Appended, Recorded, RowsSorted, Skipped, Stamp, Drawing, Wf, JoinsOn;
    RecordedOk(s);
    var (p, ev) := Place(s.grid, cluster[0], width, s.pen);
    var g := Decorate(s, p, width);
    var first := PrintChar(t, s, cluster[0]);
    OpensCell(t, s, cluster, width);
    PrintEachSplits(t, s, cluster);
    CellAppends(s, cluster[0], width);
    RecordedSame(s.(grid := g), first);
    RecordedOk(first);
    assert Archive(s, ev) == s.archived + ev by { NotOnAlt(s); }
    PrintJoins(t, first, cluster, 1, width);
    ClusterStands(s, cluster, width);
    RecordedMoves(first, JoinAll(g, cluster[1..], width), Segmenter(cluster, width, false));
  }

  lemma StampedDraws(base: Row, row: Row, col: nat, ch: char, width: nat, style: Style, extras: seq<Extra>)
    requires width >= 1 && Stamped(base, row, col, ch, width, style, extras)
    ensures NoMarks(E.On(row.extras, col)) == extras
  {
    hide NoMarks, E.On, Glyphs;
    GlyphAt(row, col);
    var end := Min(col + width, |row.cells|);
    var now := Glyphs(row.cells, row.extras);
    assert now[..end][col] == Stamp(ch, width, style, extras)[..end - col][0];
    assert now[col] == Glyph(Cell(ch, style), extras);
  }

  lemma PenHasNoMarks(underline: Color, link: Option<nat>)
    ensures forall x :: x in PenExtras(underline, link) ==> !x.Marks?
  {
  }

  lemma ClusterStands(s: Term, cluster: string, width: nat)
    requires Recorded(s) && RowsSorted(s.grid.rows) && cluster != [] && width >= 1
    ensures var (p, ev) := Place(s.grid, cluster[0], width, s.pen);
            var g := Decorate(s, p, width);
            var h := JoinAll(g, cluster[1..], width);
            && Wf(h) && RowsSorted(h.rows) && |h.rows| == |g.rows| && Else(g, h)
            && TextTo(s.archived + ev, h)
               == Appended(TextTo(s.archived, s.grid),
                           Skipped(s.grid, width)
                           + Stamp(cluster[0], width, s.pen, Drawing(PenExtras(s.underline, s.link), cluster[1..]))
                             [..Min(width, h.cols)])
  {
    hide Place, Decorate, JoinAll, Stamped, E.Written, RoomMade, NoMarks, E.On, E.NotOfKind, Above, Read, Glyphs, Stamp,
         PenExtras, Appended, Undamaged, InRange, RowsSorted, CombinedAll, Drawing;
    var g, ch := s.grid, cluster[0];
    var (p, ev) := Place(g, ch, width, s.pen);
    var mid := PlaceLeaves(g, ch, width, s.pen);
    RoomIs(g, mid, ev, width, s.pen);
    PlaceSound(g, ch, width, s.pen);
    var row, col := mid.cursor.row, mid.cursor.col;
    var base, extras := mid.rows[row], PenExtras(s.underline, s.link);
    ReadBefore(g, mid, ev, s.archived, width, s.pen);
    assert s.archived + [] == s.archived;
    WrittenStamps(base, p.rows[row], col, ch, width, s.pen, g.insertMode);
    DecorateDraws(s, p, base, col, ch, width);
    var d := Decorate(s, p, width);
    StampedDraws(base, d.rows[row], col, ch, width, s.pen, extras);
    assert StandsThere(base, d, col, ch, width, s.pen, extras);
    JoinAllStands(base, d, cluster[1..], col, ch, width, s.pen, extras);
    PenHasNoMarks(s.underline, s.link);
    AllCombined(extras, cluster[1..]);
    var h := JoinAll(d, cluster[1..], width);
    AboveAlone(s.archived + ev, mid, h);
    StampedReads(g, mid, h, Above(s.archived, g), Above(s.archived + ev, mid), ch, width, s.pen,
                 Drawing(extras, cluster[1..]));
  }

  lemma PrintEachSplits(t: Tables, s: Term, cluster: string)
    requires Shape(s.grid) && cluster != []
    ensures PrintEach(t, s, cluster) == PrintEach(t, PrintChar(t, s, cluster[0]), cluster[1..])
  {
    hide PrintChar;
  }

  lemma OpensCell(t: Tables, s: Term, cluster: string, width: nat)
    requires Shape(s.grid) && cluster != [] && Opens(t, s.seg, cluster[0], width) && !s.decGraphics
    ensures width >= 1
    ensures var (p, ev) := Place(s.grid, cluster[0], width, s.pen);
            PrintChar(t, s, cluster[0])
            == s.(seg := Segmenter(cluster[..1], width, false), grid := Decorate(s, p, width),
                  archived := Archive(s, ev), lastPrint := Some(cluster[0]))
  {
    hide Place, Decorate;
    assert cluster[..1] == [cluster[0]];
  }

  lemma NotOnAlt(s: Term)
    requires Recorded(s)
    ensures !s.onAlt
  {
  }

  lemma RecordedSame(a: Term, b: Term)
    requires Recorded(a) && b.grid == a.grid && b.onAlt == a.onAlt && b.underline == a.underline && b.link == a.link
    ensures Recorded(b)
  {
  }

  lemma RecordedMoves(s: Term, h: Grid, seg: Segmenter)
    requires Recorded(s) && Wf(h) && Else(s.grid, h) && |h.rows| == |s.grid.rows|
    requires RowsSorted(s.grid.rows) ==> RowsSorted(h.rows)
    ensures Recorded(s.(grid := h, seg := seg))
  {
    hide RowsSorted;
  }

  // ----- the cell that is printed on -----

  /** The combining text on a column: that of the first entry of any. */
  function TextOn(xs: seq<Extra>): string {
    if xs == [] then "" else if xs[0].Marks? then xs[0].text else TextOn(xs[1..])
  }

  lemma TextCombined(xs: seq<Extra>, mark: char)
    ensures TextOn(E.Combined(xs, mark)) == TextOn(xs) + [mark]
  {
  }

  lemma {:induction false} TextDrawn(xs: seq<Extra>)
    ensures TextOn(NoMarks(xs)) == TextOn(xs)
  {
    if xs != [] {
      TextDrawn(xs[1..]);
      NoMarksCons(xs[0], xs[1..]);
      assert xs == [xs[0]] + xs[1..];
      if !xs[0].Mark? {
        assert ([xs[0]] + NoMarks(xs[1..]))[1..] == NoMarks(xs[1..]);
      }
    }
  }

  lemma NoText(xs: seq<Extra>)
    requires forall x :: x in xs ==> !x.Marks?
    ensures TextOn(xs) == ""
  {
  }

  /** The cell a cluster stands on, so many columns before the cursor, shows its first code point and has the others
      as its combining text. */
  ghost predicate Tracks(g: Grid, cluster: string, width: nat) {
    && Wf(g) && RowsSorted(g.rows) && g.autowrap && cluster != [] && width >= 1
    && var (row, lead) := (g.rows[g.cursor.row], Lead(g, width));
       && lead < |row.cells| && row.cells[lead].ch == cluster[0] && TextOn(E.On(row.extras, lead)) == cluster[1..]
  }

  /** What the segmenter holds is what stands before the cursor, if it holds anything that has a width. */
  ghost predicate Follows(s: Term) {
    && Wf(s.grid) && RowsSorted(s.grid.rows) && s.grid.autowrap
    && (s.seg.cluster != [] && s.seg.cells > 0 ==> Tracks(s.grid, s.seg.cluster, s.seg.cells))
  }

  lemma StampedCell(base: Row, row: Row, col: nat, ch: char, width: nat, style: Style, extras: seq<Extra>)
    requires width >= 1 && Stamped(base, row, col, ch, width, style, extras)
    ensures col < |row.cells| && row.cells[col] == Cell(ch, style)
  {
    hide NoMarks, E.On, Glyphs;
    GlyphAt(row, col);
    var end := Min(col + width, |row.cells|);
    assert Glyphs(row.cells, row.extras)[..end][col] == Stamp(ch, width, style, extras)[..end - col][0];
  }

  lemma OpenedTracks(s: Term, c: char, width: nat)
    requires Wf(s.grid) && RowsSorted(s.grid.rows) && s.grid.autowrap && width >= 1
    ensures Tracks(Decorate(s, Place(s.grid, c, width, s.pen).0, width), [c], width)
  {
    hide Place, Decorate, E.On, NoMarks, E.NotOfKind, Glyphs, RoomMade, PenExtras, Undamaged, InRange, TextOn,
         E.Written, Stamped, Sorted, E.At;
    var g, p := s.grid, Place(s.grid, c, width, s.pen).0;
    var mid := PlaceLeaves(g, c, width, s.pen);
    RoomIs(g, mid, Place(g, c, width, s.pen).1, width, s.pen);
    RoomColumn(g, mid, Place(g, c, width, s.pen).1, width, s.pen);
    PlaceSound(g, c, width, s.pen);
    var row, col := mid.cursor.row, mid.cursor.col;
    var base, extras := mid.rows[row], PenExtras(s.underline, s.link);
    WrittenStamps(base, p.rows[row], col, c, width, s.pen, g.insertMode);
    DecorateDraws(s, p, base, col, c, width);
    var h := Decorate(s, p, width);
    StampedDraws(base, h.rows[row], col, c, width, s.pen, extras);
    StampedCell(base, h.rows[row], col, c, width, s.pen, extras);
    TextDrawn(E.On(h.rows[row].extras, col));
    PenHasNoMarks(s.underline, s.link);
    NoText(extras);
    assert [c][1..] == [];
  }

  lemma JoinedTracks(g: Grid, cluster: string, mark: char, before: nat, after: nat)
    requires Tracks(g, cluster, before) && after >= 1
    ensures var (h, settled) := Join(g, mark, before, after);
            settled >= 1 && Tracks(h, cluster + [mark], settled)
  {
    hide E.On, TextOn, E.Combined, InRange, Sorted, Undamaged, E.OnlyMarks, Join;
    var mid := JoinLeaves(g, mark, before, after);
    JoinSound(g, mark, before, after);
    var (h, settled) := Join(g, mark, before, after);
    var row, lead := g.cursor.row, Lead(g, before);
    assert RowsSorted(h.rows);
    TextCombined(E.On(g.rows[row].extras, lead), mark);
    assert (cluster + [mark])[1..] == cluster[1..] + [mark];
    if settled != before {
      Untouched(mid, h.rows[row], lead, before, after);
    }
  }

  lemma Untouched(before: Row, after: Row, lead: nat, was: nat, now: nat)
    requires Retaken(before, after, lead, was, now) && was >= 1 && now >= 1 && lead < |before.cells|
    ensures |after.cells| == |before.cells| && after.cells[lead] == before.cells[lead]
    ensures E.On(after.extras, lead) == E.On(before.extras, lead)
  {
    hide E.On, E.OnlyMarks;
    assert E.At(after, lead) == E.At(before, lead);
  }

  /** No cluster measures nothing. */
  ghost predicate Measured(t: Tables) {
    forall cluster :: cluster != [] ==> t.clusterCells(cluster) >= 1
  }

  lemma CharFollows(t: Tables, s: Term, raw: char)
    requires Follows(s) && Measured(t)
    ensures Follows(PrintChar(t, s, raw))
  {
    hide Place, Join, Decorate, Tracks, InRange, Sorted, Undamaged;
    var c := if s.decGraphics then t.decGraphic(raw) else raw;
    var (seg, step) := Push(t, s.seg, c);
    match step
    case NewCell(width) =>
      OpenedTracks(s, c, width);
      TracksIsWf(Decorate(s, Place(s.grid, c, width, s.pen).0, width), [c], width);
    case JoinCell(before, after) =>
      JoinSound(s.grid, c, before, after);
      JoinKeepsModes(s.grid, c, before, after);
      if before > 0 {
        JoinedTracks(s.grid, s.seg.cluster, c, before, after);
      }
  }

  lemma TracksIsWf(g: Grid, cluster: string, width: nat)
    requires Tracks(g, cluster, width)
    ensures Wf(g) && RowsSorted(g.rows) && g.autowrap
  {
  }

  lemma JoinKeepsModes(g: Grid, mark: char, before: nat, after: nat)
    requires Wf(g)
    ensures Join(g, mark, before, after).0.autowrap == g.autowrap
    ensures before == 0 ==> Join(g, mark, before, after).1 == 0
  {
    hide Combine, SetSpan, InRange;
  }

  /** Over every text, of whatever characters and widths, the segmenter's cell is where it takes it to be: its lead
      cell shows the first code point of the cluster and holds the rest as combining text. */
  lemma {:induction false} TextFollows(t: Tables, s: Term, text: string)
    requires Follows(s) && Measured(t)
    ensures Follows(PrintEach(t, s, text))
    decreases |text|
  {
    hide PrintChar, Follows;
    FollowsIsWf(s);
    if text != [] {
      CharFollows(t, s, text[0]);
      TextFollows(t, PrintChar(t, s, text[0]), text[1..]);
    }
  }

  lemma FollowsIsWf(s: Term)
    requires Follows(s)
    ensures Wf(s.grid)
  {
  }
}
