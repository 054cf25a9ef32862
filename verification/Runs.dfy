/** Rows as runs of like cells (src/emu/cell.rs): the two fast builders against the reference
    that looks every column up on its own. Which characters draw a shape is left open, as any
    function from characters to glyphs. */
module Runs {
  import opened Cells
  import opened Grid

  datatype DecoCell = GlyphCell(bits: nat) | ImageCell(place: Placement)

  datatype Deco = Glyphs(glyphs: seq<nat>) | Images(places: seq<Placement>)

  datatype Run = Run(text: string, cols: nat, style: Style, deco: Option<Deco>, underline: Color, link: Option<nat>)

  type Classify = char -> Option<nat>

  function StartDeco(cell: DecoCell): Deco {
    match cell
    case GlyphCell(bits) => Glyphs([bits])
    case ImageCell(place) => Images([place])
  }

  predicate Accepts(deco: Deco, cell: DecoCell) {
    deco.Glyphs? == cell.GlyphCell?
  }

  function PushDeco(deco: Deco, cell: DecoCell): Deco
    requires Accepts(deco, cell)
  {
    match cell
    case GlyphCell(bits) => Glyphs(deco.glyphs + [bits])
    case ImageCell(place) => Images(deco.places + [place])
  }

  predicate DecoJoins(deco: Option<Deco>, cell: Option<DecoCell>) {
    if cell.None? then deco.None? else deco.Some? && Accepts(deco.value, cell.value)
  }

  function PushOption(deco: Option<Deco>, cell: Option<DecoCell>): Option<Deco>
    requires DecoJoins(deco, cell)
  {
    if cell.None? then None else Some(PushDeco(deco.value, cell.value))
  }

  function StartOption(cell: Option<DecoCell>): Option<Deco> {
    if cell.None? then None else Some(StartDeco(cell.value))
  }

  // ----- the reference -----

  /** What the attachments of one column say about the cell there. */
  datatype Look = Look(underline: Color, marks: Option<string>, placed: Option<Placement>, link: Option<nat>)

  const NO_LOOK: Look := Look(DefaultColor, None, None, None)

  function Consider(look: Look, extra: Extra): Look {
    match extra
    case Underline(color) => look.(underline := color)
    case Marks(text) => look.(marks := Some(text))
    case Image(place) => look.(placed := Some(place))
    case Link(id) => look.(link := Some(id))
    case Mark(_) => look
  }

  /** The entries on column `col`, wherever in the table they are. */
  function LookAt(es: seq<Entry>, col: nat): Look {
    if es == [] then NO_LOOK
    else
      var look := LookAt(es[..|es| - 1], col);
      var last := es[|es| - 1];
      if last.at == col then Consider(look, last.extra) else look
  }

  function DecoOf(classify: Classify, ch: char, look: Look): Option<DecoCell> {
    if look.placed.Some? then Some(ImageCell(look.placed.value))
    else if classify(ch).Some? then Some(GlyphCell(classify(ch).value))
    else None
  }

  predicate Joins(run: Run, cell: Cell, look: Look, deco: Option<DecoCell>) {
    && run.style == cell.style && run.underline == look.underline && run.link == look.link
    && DecoJoins(run.deco, deco)
  }

  function Last(runs: seq<Run>): Run
    requires runs != []
  {
    runs[|runs| - 1]
  }

  function WithLast(runs: seq<Run>, run: Run): (r: seq<Run>)
    requires runs != []
    ensures |r| == |runs|
  {
    runs[|runs| - 1 := run]
  }

  function Widen(runs: seq<Run>): (r: seq<Run>)
    ensures |r| == |runs|
  {
    if runs == [] then [] else WithLast(runs, Last(runs).(cols := Last(runs).cols + 1))
  }

  function AddCell(classify: Classify, runs: seq<Run>, cell: Cell, look: Look): (r: seq<Run>)
    ensures runs == [] && IsContinuation(cell) <==> r == []
  {
    if IsContinuation(cell) then Widen(runs)
    else
      var deco := DecoOf(classify, cell.ch, look);
      var tail := if look.marks.Some? then look.marks.value else "";
      if runs != [] && Joins(Last(runs), cell, look, deco) then
        var run := Last(runs);
        WithLast(runs, run.(text := run.text + [cell.ch] + tail, cols := run.cols + 1,
                            deco := PushOption(run.deco, deco)))
      else
        runs + [Run([cell.ch] + tail, 1, cell.style, StartOption(deco), look.underline, look.link)]
  }

  /** The runs of the first `end` columns, every column looked up in the whole table. */
  function Reference(classify: Classify, cells: seq<Cell>, es: seq<Entry>, end: nat): (r: seq<Run>)
    requires end <= |cells|
  {
    if end == 0 then []
    else AddCell(classify, Reference(classify, cells, es, end - 1), cells[end - 1], LookAt(es, end - 1))
  }

  // ----- what the reference promises -----

  function ColumnCount(runs: seq<Run>): nat {
    if runs == [] then 0 else ColumnCount(runs[..|runs| - 1]) + Last(runs).cols
  }

  /** Continuation cells at the front, which no character on this row claims. */
  function Orphans(cells: seq<Cell>, end: nat): (n: nat)
    requires end <= |cells|
    ensures n <= end
  {
    if end == 0 then 0
    else if Orphans(cells, end - 1) == end - 1 && IsContinuation(cells[end - 1]) then end
    else Orphans(cells, end - 1)
  }

  lemma CountWithLast(runs: seq<Run>, run: Run)
    requires runs != []
    ensures ColumnCount(WithLast(runs, run)) == ColumnCount(runs) - Last(runs).cols + run.cols
  {
    assert WithLast(runs, run)[..|runs| - 1] == runs[..|runs| - 1];
  }

  /** The runs of a row stand on every column of it but the orphans at the front. */
  lemma {:induction false} ColumnsAddUp(classify: Classify, cells: seq<Cell>, es: seq<Entry>, end: nat)
    requires end <= |cells|
    ensures ColumnCount(Reference(classify, cells, es, end)) == end - Orphans(cells, end)
    ensures Reference(classify, cells, es, end) == [] <==> Orphans(cells, end) == end
  {
    if end > 0 {
      ColumnsAddUp(classify, cells, es, end - 1);
      var runs := Reference(classify, cells, es, end - 1);
      var after := Reference(classify, cells, es, end);
      if |after| == |runs| {
        if runs != [] {
          CountWithLast(runs, Last(after));
          assert after == WithLast(runs, Last(after));
        }
      } else {
        assert after[..|after| - 1] == runs;
      }
    }
  }

  function TextOf(runs: seq<Run>): string {
    if runs == [] then "" else TextOf(runs[..|runs| - 1]) + Last(runs).text
  }

  /** The characters of a row in column order, each with the marks combined onto it. */
  function RowText(cells: seq<Cell>, es: seq<Entry>, end: nat): string
    requires end <= |cells|
  {
    if end == 0 then ""
    else
      var before := RowText(cells, es, end - 1);
      var look := LookAt(es, end - 1);
      if IsContinuation(cells[end - 1]) then before
      else before + [cells[end - 1].ch] + if look.marks.Some? then look.marks.value else ""
  }

  lemma TextWithLast(runs: seq<Run>, run: Run)
    requires runs != []
    ensures TextOf(WithLast(runs, run)) == TextOf(runs[..|runs| - 1]) + run.text
  {
    assert WithLast(runs, run)[..|runs| - 1] == runs[..|runs| - 1];
  }

  lemma AddCellText(classify: Classify, runs: seq<Run>, cell: Cell, look: Look)
    ensures TextOf(AddCell(classify, runs, cell, look))
         == if IsContinuation(cell) then TextOf(runs)
            else TextOf(runs) + [cell.ch] + if look.marks.Some? then look.marks.value else ""
  {
    var after := AddCell(classify, runs, cell, look);
    var tail := if look.marks.Some? then look.marks.value else "";
    if |after| == |runs| {
      if runs != [] {
        TextWithLast(runs, Last(after));
        assert after == WithLast(runs, Last(after));
        var before := TextOf(runs[..|runs| - 1]);
        assert before + (Last(runs).text + [cell.ch] + tail) == before + Last(runs).text + [cell.ch] + tail;
      }
    } else {
      assert after[..|after| - 1] == runs;
      assert TextOf(runs) + ([cell.ch] + tail) == TextOf(runs) + [cell.ch] + tail;
    }
  }

  /** No character is lost, doubled or moved by grouping. */
  lemma {:induction false} RunsSpellTheRow(classify: Classify, cells: seq<Cell>, es: seq<Entry>, end: nat)
    requires end <= |cells|
    ensures TextOf(Reference(classify, cells, es, end)) == RowText(cells, es, end)
  {
    if end > 0 {
      RunsSpellTheRow(classify, cells, es, end - 1);
      AddCellText(classify, Reference(classify, cells, es, end - 1), cells[end - 1], LookAt(es, end - 1));
    }
  }

  // ----- what the runs read -----

  lemma LookSnoc(es: seq<Entry>, e: Entry, col: nat)
    ensures LookAt(es + [e], col) == if e.at == col then Consider(LookAt(es, col), e.extra) else LookAt(es, col)
  {
    assert (es + [e])[..|es|] == es;
  }

  /** The look once the entries on `col` have been considered, starting from `look`. */
  function LookFrom(look: Look, es: seq<Entry>, col: nat): Look {
    if es == [] then look
    else
      var before := LookFrom(look, es[..|es| - 1], col);
      var last := es[|es| - 1];
      if last.at == col then Consider(before, last.extra) else before
  }

  lemma {:induction false} LookFromCons(look: Look, e: Entry, es: seq<Entry>, col: nat)
    ensures LookFrom(look, [e] + es, col)
         == LookFrom(if e.at == col then Consider(look, e.extra) else look, es, col)
  {
    if es == [] {
      assert [e] + es == [e] && [e][..0] == [];
      assert LookFrom(look, [e][..0], col) == look;
    } else {
      LookFromCons(look, e, es[..|es| - 1], col);
      assert ([e] + es)[..|es|] == [e] + es[..|es| - 1];
    }
  }

  lemma {:induction false} LookFromNone(es: seq<Entry>, col: nat)
    ensures LookFrom(NO_LOOK, es, col) == LookAt(es, col)
  {
    if es != [] {
      LookFromNone(es[..|es| - 1], col);
    }
  }

  /** Dropping semantic marks and entries past the end changes no look within it. */
  lemma {:induction false} LookSurvives(look: Look, es: seq<Entry>, n: nat, col: nat)
    requires col < n
    ensures LookFrom(look, CutOff(Drawn(es), n), col) == LookFrom(look, es, col)
    decreases |es|
  {
    if es != [] {
      var e, rest := es[0], es[1..];
      var next := if e.at == col then Consider(look, e.extra) else look;
      assert es == [e] + rest;
      LookFromCons(look, e, rest, col);
      LookSurvives(next, rest, n, col);
      if !e.extra.Mark? {
        assert Drawn(es)[0] == e && Drawn(es)[1..] == Drawn(rest);
        if e.at < n {
          LookFromCons(look, e, CutOff(Drawn(rest), n), col);
        }
      }
    }
  }

  /** A departed row holds all that its runs are built from: what leaves the grid renders as the
      row did on it. */
  lemma {:induction false} DepartedKeepsRuns(classify: Classify, row: Row, end: nat)
    requires end <= |Depart(row).cells|
    ensures Reference(classify, Depart(row).cells, Depart(row).extras, end)
         == Reference(classify, row.cells, row.extras, end)
  {
    hide AddCell, LookAt, LookFrom, CutOff, Drawn, ContentLen;
    if end > 0 {
      DepartedKeepsRuns(classify, row, end - 1);
      var d := Depart(row);
      LookFromNone(d.extras, end - 1);
      LookFromNone(row.extras, end - 1);
      LookSurvives(NO_LOOK, row.extras, |d.cells|, end - 1);
      assert d.cells[end - 1] == row.cells[end - 1];
    }
  }

  // ----- the builder for rows with attachments -----

  lemma {:induction false} LookDropTail(a: seq<Entry>, b: seq<Entry>, col: nat)
    requires forall e :: e in b ==> e.at != col || e.extra.Mark?
    ensures LookAt(a + b, col) == LookAt(a, col)
    decreases |b|
  {
    if b == [] {
      assert a + b == a;
    } else {
      var init := b[..|b| - 1];
      assert b[|b| - 1] in b;
      LookDropTail(a, init, col);
      LookSnoc(a + init, b[|b| - 1], col);
      assert a + b == a + init + [b[|b| - 1]];
    }
  }

  lemma {:induction false} LookDropHead(a: seq<Entry>, b: seq<Entry>, col: nat)
    requires forall e :: e in a ==> e.at != col || e.extra.Mark?
    ensures LookAt(a + b, col) == LookAt(b, col)
    decreases |b|
  {
    if b == [] {
      LookDropTail([], a, col);
      assert a + b == [] + a;
    } else {
      var init := b[..|b| - 1];
      LookDropHead(a, init, col);
      LookSnoc(a + init, b[|b| - 1], col);
      assert a + b == a + init + [b[|b| - 1]];
    }
  }

  lemma LookSplit(es: seq<Entry>, lo: nat, hi: nat, col: nat)
    requires lo <= hi <= |es|
    requires forall i :: 0 <= i < lo ==> es[i].at != col || es[i].extra.Mark?
    requires forall i :: hi <= i < |es| ==> es[i].at != col || es[i].extra.Mark?
    ensures LookAt(es, col) == LookAt(es[lo..hi], col)
  {
    assert es == es[..lo] + es[lo..hi] + es[hi..];
    LookDropTail(es[..lo] + es[lo..hi], es[hi..], col);
    LookDropHead(es[..lo], es[lo..hi], col);
  }

  /** Where a cursor that only moves right stands at column `col`: on the first entry that is not left
      of it. */
  function CursorAt(es: seq<Entry>, col: nat): (at: nat)
    ensures at <= |es| && (forall i :: 0 <= i < at ==> es[i].at < col) && (at < |es| ==> es[at].at >= col)
  {
    if es == [] || es[0].at >= col then 0 else 1 + CursorAt(es[1..], col)
  }

  /** How far from there the entries are on `col`. */
  function BlockEnd(es: seq<Entry>, at: nat, col: nat): (end: nat)
    requires at <= |es|
    ensures at <= end <= |es| && (forall i :: at <= i < end ==> es[i].at == col) && (end < |es| ==> es[end].at != col)
    decreases |es| - at
  {
    if at < |es| && es[at].at == col then BlockEnd(es, at + 1, col) else at
  }

  predicate Reached(es: seq<Entry>, i: nat)
    requires i < |es|
  {
    var at := CursorAt(es, es[i].at);
    at <= i < BlockEnd(es, at, es[i].at)
  }

  /** The cursor misses an entry exactly when one before it stands to its right, or when one before it on
      its own column is followed by one to its left. */
  lemma MissedIff(es: seq<Entry>, i: nat)
    requires i < |es|
    ensures !Reached(es, i)
       <==> || (exists j :: 0 <= j < i && es[j].at > es[i].at)
            || (exists j, k :: 0 <= j < k < i && es[j].at == es[i].at && es[k].at < es[i].at)
  {
    var col := es[i].at;
    var at := CursorAt(es, col);
    var end := BlockEnd(es, at, col);
    if i >= end {
      assert at <= end && es[at].at >= col;
      if es[at].at == col {
        assert at < end < i && es[end].at != col;
      }
    }
  }

  /** On a table in column order it misses none. */
  lemma SortedIsReached(es: seq<Entry>, i: nat)
    requires Sorted(es) && i < |es|
    ensures Reached(es, i)
  {
    MissedIff(es, i);
  }

  function CursorLook(es: seq<Entry>, col: nat): Look {
    var at := CursorAt(es, col);
    LookAt(es[at..BlockEnd(es, at, col)], col)
  }

  /** The runs as the cursor sees them. */
  function CursorRuns(classify: Classify, cells: seq<Cell>, es: seq<Entry>, end: nat): (r: seq<Run>)
    requires end <= |cells|
  {
    if end == 0 then []
    else AddCell(classify, CursorRuns(classify, cells, es, end - 1), cells[end - 1], CursorLook(es, end - 1))
  }

  /** Nothing drawn left of `end` is missed. */
  ghost predicate NoneMissed(es: seq<Entry>, end: nat) {
    forall i :: 0 <= i < |es| && es[i].at < end && !es[i].extra.Mark? ==> Reached(es, i)
  }

  lemma SortedMissesNone(es: seq<Entry>, end: nat)
    requires Sorted(es)
    ensures NoneMissed(es, end)
  {
    hide Reached;
    forall i | 0 <= i < |es| ensures Reached(es, i) {
      SortedIsReached(es, i);
    }
  }

  lemma CursorLookIs(es: seq<Entry>, end: nat, col: nat)
    requires NoneMissed(es, end) && col < end
    ensures CursorLook(es, col) == LookAt(es, col)
  {
    var at := CursorAt(es, col);
    var stop := BlockEnd(es, at, col);
    forall i | (0 <= i < at || stop <= i < |es|) && es[i].at == col ensures es[i].extra.Mark? {
      assert !Reached(es, i);
    }
    LookSplit(es, at, stop, col);
  }

  /** Two looks draw a cell the same. */
  predicate SameLook(a: Look, b: Look) {
    && a.underline == b.underline && a.link == b.link && a.placed == b.placed
    && (if a.marks.Some? then a.marks.value else "") == (if b.marks.Some? then b.marks.value else "")
  }

  /** The cursor sees every character left of `end` as it looks. */
  ghost predicate LooksRight(cells: seq<Cell>, es: seq<Entry>, end: nat)
    requires end <= |cells|
  {
    forall col :: 0 <= col < end && !IsContinuation(cells[col]) ==> SameLook(CursorLook(es, col), LookAt(es, col))
  }

  lemma MissesNoneLooksRight(cells: seq<Cell>, es: seq<Entry>, end: nat)
    requires end <= |cells| && NoneMissed(es, end)
    ensures LooksRight(cells, es, end)
  {
    hide NoneMissed, CursorLook;
    forall col | 0 <= col < end ensures CursorLook(es, col) == LookAt(es, col) {
      CursorLookIs(es, end, col);
    }
  }

  /** The runs tell how a character looks. */
  lemma AddCellIff(classify: Classify, runs: seq<Run>, cell: Cell, a: Look, b: Look)
    ensures AddCell(classify, runs, cell, a) == AddCell(classify, runs, cell, b)
            <==> IsContinuation(cell) || SameLook(a, b)
  {
    if !IsContinuation(cell) {
      var x, y := AddCell(classify, runs, cell, a), AddCell(classify, runs, cell, b);
      if x == y {
        LastLook(classify, runs, cell, a, b);
      }
    }
  }

  lemma LastLook(classify: Classify, runs: seq<Run>, cell: Cell, a: Look, b: Look)
    requires !IsContinuation(cell) && AddCell(classify, runs, cell, a) == AddCell(classify, runs, cell, b)
    ensures SameLook(a, b)
  {
    var x, y := Last(AddCell(classify, runs, cell, a)), Last(AddCell(classify, runs, cell, b));
    var s := if a.marks.Some? then a.marks.value else "";
    var t := if b.marks.Some? then b.marks.value else "";
    assert x.underline == a.underline && y.underline == b.underline && x.link == a.link && y.link == b.link;
    if runs != [] && Joins(Last(runs), cell, a, DecoOf(classify, cell.ch, a)) {
      var front := Last(runs).text + [cell.ch];
      assert x.text == front + s && y.text == front + t;
      assert (front + s)[|front|..] == s && (front + t)[|front|..] == t;
    } else {
      assert x.text == [cell.ch] + s && y.text == [cell.ch] + t;
      assert ([cell.ch] + s)[1..] == s && ([cell.ch] + t)[1..] == t;
    }
    LastIsDeco(classify, runs, cell, a);
    LastIsDeco(classify, runs, cell, b);
  }

  lemma LastIsDeco(classify: Classify, runs: seq<Run>, cell: Cell, look: Look)
    requires !IsContinuation(cell)
    ensures LastDeco(Last(AddCell(classify, runs, cell, look)).deco) == DecoOf(classify, cell.ch, look)
  {
    hide DecoOf;
  }

  /** The decoration of the last cell of a run. */
  function LastDeco(deco: Option<Deco>): Option<DecoCell> {
    match deco
    case Some(Glyphs(gs)) => if gs == [] then None else Some(GlyphCell(gs[|gs| - 1]))
    case Some(Images(ps)) => if ps == [] then None else Some(ImageCell(ps[|ps| - 1]))
    case None => None
  }

  /** Seen right, the row has the reference's runs. */
  lemma {:induction false} CursorRunsAreReference(classify: Classify, cells: seq<Cell>, es: seq<Entry>, end: nat)
    requires end <= |cells| && LooksRight(cells, es, end)
    ensures CursorRuns(classify, cells, es, end) == Reference(classify, cells, es, end)
    decreases end
  {
    hide CursorLook, AddCell, LookAt, SameLook;
    if end > 0 {
      CursorRunsAreReference(classify, cells, es, end - 1);
      AddCellIff(classify, Reference(classify, cells, es, end - 1), cells[end - 1], CursorLook(es, end - 1),
                 LookAt(es, end - 1));
    }
  }

  /** The cursor's runs are the reference's, however much of the row is built, exactly when it sees every
      character as it looks: what it misses on a continuation cell changes nothing. */
  lemma {:induction false} CursorRunsAgreeIff(classify: Classify, cells: seq<Cell>, es: seq<Entry>, end: nat)
    requires end <= |cells|
    ensures (forall n: nat :: n <= end ==> CursorRuns(classify, cells, es, n) == Reference(classify, cells, es, n))
            <==> LooksRight(cells, es, end)
    decreases end
  {
    hide CursorLook, AddCell, LookAt, SameLook;
    if LooksRight(cells, es, end) {
      forall n: nat | n <= end ensures CursorRuns(classify, cells, es, n) == Reference(classify, cells, es, n) {
        CursorRunsAreReference(classify, cells, es, n);
      }
    } else {
      var col :| 0 <= col < end && !IsContinuation(cells[col]) && !SameLook(CursorLook(es, col), LookAt(es, col));
      AddCellIff(classify, Reference(classify, cells, es, col), cells[col], CursorLook(es, col), LookAt(es, col));
      var n: nat := if CursorRuns(classify, cells, es, col) == Reference(classify, cells, es, col) then col + 1 else col;
      assert CursorRuns(classify, cells, es, n) != Reference(classify, cells, es, n);
    }
  }

  /** The table a deletion can leave: a mark on the second column before a link on the first. The cursor
      misses the link, and so the run loses it. */
  lemma DisorderedLinkIsMissed(classify: Classify)
    ensures
      var es := [Entry(1, Mark(7)), Entry(0, Link(3))];
      var cells := [Cell('a', PLAIN)];
      !Reached(es, 1) && Last(CursorRuns(classify, cells, es, 1)).link == None
      && Last(Reference(classify, cells, es, 1)).link == Some(3)
  {
    var es := [Entry(1, Mark(7)), Entry(0, Link(3))];
    var cells := [Cell('a', PLAIN)];
    assert CursorAt(es, 0) == 0 && BlockEnd(es, 0, 0) == 0 && es[0..0] == [];
    assert CursorLook(es, 0) == NO_LOOK;
    assert es[..1] == [Entry(1, Mark(7))] && es[..1][..0] == [];
    assert LookAt(es[..1], 0) == NO_LOOK && LookAt(es, 0) == NO_LOOK.(link := Some(3));
    var none: seq<Run> := [];
    assert Reference(classify, cells, es, 0) == none && CursorRuns(classify, cells, es, 0) == none;
    assert CursorRuns(classify, cells, es, 1) == AddCell(classify, none, cells[0], NO_LOOK);
    assert Reference(classify, cells, es, 1) == AddCell(classify, none, cells[0], NO_LOOK.(link := Some(3)));
  }

  lemma NothingSeen(es: seq<Entry>, at: nat, col: nat)
    requires at <= |es|
    ensures LookAt(es[at..at], col) == NO_LOOK
  {
    assert es[at..at] == [];
  }

  lemma BlockGoesOn(es: seq<Entry>, i: nat, col: nat)
    requires i < |es| && es[i].at == col
    ensures BlockEnd(es, i + 1, col) == BlockEnd(es, i, col)
  {
  }

  lemma BlockStops(es: seq<Entry>, i: nat, col: nat)
    requires i <= |es| && (i < |es| ==> es[i].at != col)
    ensures BlockEnd(es, i, col) == i
  {
  }

  /** What the entries from the cursor on say about column `col`. */
  method LookFromCursor(es: seq<Entry>, at: nat, col: nat) returns (look: Look)
    requires at == CursorAt(es, col)
    ensures look == CursorLook(es, col)
  {
    hide LookAt, CursorAt, Consider, BlockEnd;
    NothingSeen(es, at, col);
    look := NO_LOOK;
    var i := at;
    while i < |es| && es[i].at == col
      invariant at <= i <= |es| && BlockEnd(es, i, col) == BlockEnd(es, at, col)
      invariant look == LookAt(es[at..i], col)
    {
      LookSnoc(es[at..i], es[i], col);
      assert es[at..i + 1] == es[at..i] + [es[i]];
      BlockGoesOn(es, i, col);
      look := Consider(look, es[i].extra);
      i := i + 1;
    }
    BlockStops(es, i, col);
  }

  lemma CursorIs(es: seq<Entry>, at: nat, col: nat)
    requires at <= |es| && (forall i :: 0 <= i < at ==> es[i].at < col) && (at < |es| ==> es[at].at >= col)
    ensures CursorAt(es, col) == at
    decreases at
  {
    if at > 0 {
      CursorIs(es[1..], at - 1, col);
    }
  }

  method PutCell(classify: Classify, before: seq<Run>, cell: Cell, look: Look) returns (runs: seq<Run>)
    requires !IsContinuation(cell)
    ensures runs == AddCell(classify, before, cell, look)
  {
    runs := before;
    var deco := DecoOf(classify, cell.ch, look);
    if runs != [] && Joins(Last(runs), cell, look, deco) {
      var run := Last(runs);
      runs := WithLast(runs, run.(text := run.text + [cell.ch], cols := run.cols + 1,
                                  deco := PushOption(run.deco, deco)));
    } else {
      runs := runs + [Run([cell.ch], 1, cell.style, StartOption(deco), look.underline, look.link)];
    }
    if look.marks.Some? {
      runs := WithLast(runs, Last(runs).(text := Last(runs).text + look.marks.value));
    }
    assert [cell.ch] + "" == [cell.ch];
    assert before != [] ==> Last(before).text + [cell.ch] + "" == Last(before).text + [cell.ch];
  }

  /** One pass over the cells with a cursor into the table, never going back. */
  method BuildRuns(classify: Classify, cells: seq<Cell>, end: nat, es: seq<Entry>) returns (runs: seq<Run>)
    requires end <= |cells|
    ensures runs == CursorRuns(classify, cells, es, end)
    ensures LooksRight(cells, es, end) ==> runs == Reference(classify, cells, es, end)
  {
    hide CursorLook, LooksRight, CursorAt;
    runs := [];
    var at := 0;
    for col := 0 to end
      invariant at <= |es|
      invariant forall i :: 0 <= i < at ==> es[i].at < col
      invariant runs == CursorRuns(classify, cells, es, col)
    {
      var cell := cells[col];
      if IsContinuation(cell) {
        runs := Widen(runs);
      } else {
        while at < |es| && es[at].at < col
          invariant at <= |es|
          invariant forall i :: 0 <= i < at ==> es[i].at < col
        {
          at := at + 1;
        }
        CursorIs(es, at, col);
        var look := LookFromCursor(es, at, col);
        runs := PutCell(classify, runs, cell, look);
      }
    }
    if LooksRight(cells, es, end) {
      CursorRunsAreReference(classify, cells, es, end);
    }
  }

  // ----- the builder for rows without -----

  /** Characters of a span of cells, continuation cells contributing none. */
  function SpanText(cells: seq<Cell>): string {
    if cells == [] then ""
    else
      var before := SpanText(cells[..|cells| - 1]);
      var last := cells[|cells| - 1];
      if IsContinuation(last) then before else before + [last.ch]
  }

  /** A whole span of one style, with nothing drawn in it, taken by the last run or a new one. */
  function Absorb(runs: seq<Run>, span: seq<Cell>, style: Style): seq<Run> {
    if runs != [] && Last(runs).style == style && Last(runs).deco.None? then
      WithLast(runs, Last(runs).(text := Last(runs).text + SpanText(span), cols := Last(runs).cols + |span|))
    else runs + [Run(SpanText(span), |span|, style, None, DefaultColor, None)]
  }

  ghost predicate Bare(runs: seq<Run>) {
    forall i :: 0 <= i < |runs| ==> runs[i].underline == DefaultColor && runs[i].link.None?
  }

  lemma {:induction false} PlainRunsAreBare(classify: Classify, cells: seq<Cell>, end: nat)
    requires end <= |cells|
    ensures Bare(Reference(classify, cells, [], end))
  {
    if end > 0 {
      PlainRunsAreBare(classify, cells, end - 1);
    }
  }

  lemma AbsorbOne(classify: Classify, runs: seq<Run>, cell: Cell)
    requires Bare(runs) && !IsContinuation(cell) && classify(cell.ch).None?
    ensures AddCell(classify, runs, cell, NO_LOOK) == Absorb(runs, [cell], cell.style)
  {
    assert [cell][..0] == [];
    assert SpanText([cell]) == [cell.ch];
    assert [cell.ch] + "" == [cell.ch];
    assert runs != [] ==> Last(runs).text + [cell.ch] + "" == Last(runs).text + [cell.ch];
  }

  lemma SpanTextSnoc(span: seq<Cell>, cell: Cell)
    ensures SpanText(span + [cell]) == SpanText(span) + if IsContinuation(cell) then "" else [cell.ch]
  {
    assert (span + [cell])[..|span|] == span;
  }

  lemma AbsorbMore(classify: Classify, runs: seq<Run>, span: seq<Cell>, cell: Cell, style: Style)
    requires Bare(runs) && span != []
    requires IsContinuation(cell) || (cell.style == style && classify(cell.ch).None?)
    ensures AddCell(classify, Absorb(runs, span, style), cell, NO_LOOK) == Absorb(runs, span + [cell], style)
  {
    hide SpanText, PushDeco, Accepts, StartDeco;
    SpanTextSnoc(span, cell);
    var now := Absorb(runs, span, style);
    assert Last(now).text + [cell.ch] + "" == Last(now).text + [cell.ch];
    if runs != [] {
      assert Last(runs).text + (SpanText(span) + [cell.ch]) == Last(runs).text + SpanText(span) + [cell.ch];
    }
    if !IsContinuation(cell) {
      assert Joins(Last(now), cell, NO_LOOK, None);
    }
    assert AddCell(classify, now, cell, NO_LOOK)[..|now| - 1] == Absorb(runs, span + [cell], style)[..|now| - 1];
    assert Last(AddCell(classify, now, cell, NO_LOOK)) == Last(Absorb(runs, span + [cell], style));
  }

  predicate RunsOn(classify: Classify, cell: Cell, style: Style) {
    IsContinuation(cell) || (cell.style == style && classify(cell.ch).None?)
  }

  /** The end of the plain span from `start` on, which is taken as a whole. */
  method PlainSpan(classify: Classify, cells: seq<Cell>, start: nat, end: nat) returns (col: nat)
    requires start < end <= |cells|
    requires !IsContinuation(cells[start]) && classify(cells[start].ch).None?
    ensures start < col <= end
    ensures Reference(classify, cells, [], col)
         == Absorb(Reference(classify, cells, [], start), cells[start..col], cells[start].style)
  {
    hide Absorb;
    ghost var runs := Reference(classify, cells, [], start);
    var style := cells[start].style;
    PlainRunsAreBare(classify, cells, start);
    AbsorbOne(classify, runs, cells[start]);
    assert cells[start..start + 1] == [cells[start]];
    col := start + 1;
    while col < end && RunsOn(classify, cells[col], style)
      invariant start < col <= end
      invariant Reference(classify, cells, [], col) == Absorb(runs, cells[start..col], style)
    {
      AbsorbMore(classify, runs, cells[start..col], cells[col], style);
      assert cells[start..col + 1] == cells[start..col] + [cells[col]];
      col := col + 1;
    }
  }

  method CharactersOf(cells: seq<Cell>) returns (text: string)
    ensures text == SpanText(cells)
  {
    text := "";
    for i := 0 to |cells|
      invariant text == SpanText(cells[..i])
    {
      assert cells[..i + 1][..i] == cells[..i];
      if !IsContinuation(cells[i]) {
        text := text + [cells[i].ch];
      }
    }
    assert cells[..|cells|] == cells;
  }

  method AbsorbSpan(before: seq<Run>, span: seq<Cell>, style: Style) returns (runs: seq<Run>)
    ensures runs == Absorb(before, span, style)
  {
    var text := CharactersOf(span);
    if before != [] && Last(before).style == style && Last(before).deco.None? {
      var run := Last(before);
      runs := WithLast(before, run.(text := run.text + text, cols := run.cols + |span|));
    } else {
      runs := before + [Run(text, |span|, style, None, DefaultColor, None)];
    }
  }

  /** A character that draws a shape, on a row where nothing else can end a run. */
  method PutGlyph(classify: Classify, before: seq<Run>, cell: Cell) returns (runs: seq<Run>)
    requires Bare(before) && !IsContinuation(cell) && classify(cell.ch).Some?
    ensures runs == AddCell(classify, before, cell, NO_LOOK)
  {
    var deco := GlyphCell(classify(cell.ch).value);
    if before != [] && Last(before).style == cell.style && DecoJoins(Last(before).deco, Some(deco)) {
      var run := Last(before);
      runs := WithLast(before, run.(text := run.text + [cell.ch], cols := run.cols + 1,
                                    deco := PushOption(run.deco, Some(deco))));
    } else {
      runs := before + [Run([cell.ch], 1, cell.style, Some(StartDeco(deco)), DefaultColor, None)];
    }
    assert [cell.ch] + "" == [cell.ch];
    assert before != [] ==> Last(before).text + [cell.ch] + "" == Last(before).text + [cell.ch];
  }

  /** Whole spans at a time: no side table is looked at, one join test is made per run. */
  method BuildPlainRuns(classify: Classify, cells: seq<Cell>, end: nat) returns (runs: seq<Run>)
    requires end <= |cells|
    ensures runs == Reference(classify, cells, [], end)
  {
    runs := [];
    var col := 0;
    while col < end
      invariant 0 <= col <= end
      invariant runs == Reference(classify, cells, [], col)
    {
      var cell := cells[col];
      if IsContinuation(cell) {
        runs := Widen(runs);
        col := col + 1;
      } else if classify(cell.ch).Some? {
        PlainRunsAreBare(classify, cells, col);
        runs := PutGlyph(classify, runs, cell);
        col := col + 1;
      } else {
        var next := PlainSpan(classify, cells, col, end);
        runs := AbsorbSpan(runs, cells[col..next], cell.style);
        col := next;
      }
    }
  }

  /** The dispatch: the table decides which builder answers. */
  method RunsTo(classify: Classify, row: Row, end: nat) returns (runs: seq<Run>)
    requires end <= |row.cells|
    ensures runs == CursorRuns(classify, row.cells, row.extras, end)
    ensures LooksRight(row.cells, row.extras, end) ==> runs == Reference(classify, row.cells, row.extras, end)
    ensures Sorted(row.extras) ==> runs == Reference(classify, row.cells, row.extras, end)
  {
    hide CursorRuns, Reference, NoneMissed, LooksRight, Sorted;
    if Sorted(row.extras) {
      SortedMissesNone(row.extras, end);
      MissesNoneLooksRight(row.cells, row.extras, end);
    }
    if row.extras == [] {
      runs := BuildPlainRuns(classify, row.cells, end);
      EmptyMissesNone(end);
      MissesNoneLooksRight(row.cells, [], end);
      CursorRunsAreReference(classify, row.cells, [], end);
    } else {
      runs := BuildRuns(classify, row.cells, end, row.extras);
    }
  }

  lemma EmptyMissesNone(end: nat)
    ensures NoneMissed([], end)
  {
  }

  // ----- the packed form of a run of glyphs -----

  const MAX_COUNT: nat := 0xFFFF

  function LittleEndian(n: nat): (bytes: seq<nat>)
    requires n <= 0xFFFF
    ensures |bytes| == 2
  {
    [n % 256, n / 256]
  }

  function Pair(bits: nat, count: nat): (bytes: seq<nat>)
    requires bits <= 0xFFFF && count <= MAX_COUNT
    ensures |bytes| == 4
  {
    LittleEndian(bits) + LittleEndian(count)
  }

  function Repeat(bits: nat, count: nat): seq<nat> {
    seq(count, _ => bits)
  }

  /** What the other end reads back out of the packed bytes. */
  function Unpack(bytes: seq<nat>): seq<nat>
  {
    if |bytes| < 4 then []
    else Repeat(bytes[0] + 256 * bytes[1], bytes[2] + 256 * bytes[3]) + Unpack(bytes[4..])
  }

  lemma {:induction false} UnpackConcat(a: seq<nat>, b: seq<nat>)
    requires |a| % 4 == 0
    ensures Unpack(a + b) == Unpack(a) + Unpack(b)
  {
    if a == [] {
      assert a + b == b;
    } else {
      UnpackConcat(a[4..], b);
      assert (a + b)[4..] == a[4..] + b;
    }
  }

  lemma UnpackPair(bits: nat, count: nat)
    requires bits <= 0xFFFF && count <= MAX_COUNT
    ensures Unpack(Pair(bits, count)) == Repeat(bits, count)
  {
    assert Pair(bits, count)[4..] == [];
  }

  /** No record stands for no glyphs. */
  predicate NoneEmpty(bytes: seq<nat>) {
    |bytes| < 4 || (bytes[2] + 256 * bytes[3] >= 1 && NoneEmpty(bytes[4..]))
  }

  lemma {:induction false} NoneEmptyConcat(a: seq<nat>, b: seq<nat>)
    requires |a| % 4 == 0 && NoneEmpty(a) && NoneEmpty(b)
    ensures NoneEmpty(a + b)
  {
    if a == [] {
      assert a + b == b;
    } else {
      NoneEmptyConcat(a[4..], b);
      assert (a + b)[4..] == a[4..] + b;
    }
  }

  lemma FlushRun(packed: seq<nat>, bits: nat, count: nat)
    requires |packed| % 4 == 0 && bits <= 0xFFFF && count <= MAX_COUNT
    ensures Unpack(packed + Pair(bits, count)) == Unpack(packed) + Repeat(bits, count)
    ensures NoneEmpty(packed) && count >= 1 ==> NoneEmpty(packed + Pair(bits, count))
  {
    UnpackConcat(packed, Pair(bits, count));
    UnpackPair(bits, count);
    if NoneEmpty(packed) && count >= 1 {
      NoneEmptyConcat(packed, Pair(bits, count));
    }
  }

  lemma RepeatMore(bits: nat, count: nat)
    ensures Repeat(bits, count + 1) == Repeat(bits, count) + [bits]
    ensures Repeat(bits, 0) == [] && [] + [bits] == [bits]
  {
  }

  lemma OneMore(a: seq<nat>, b: seq<nat>, bits: nat)
    ensures a + (b + [bits]) == (a + b) + [bits]
  {
  }

  lemma NothingPacked()
    ensures Unpack([]) == [] && NoneEmpty([])
    ensures forall s: seq<nat> :: [] + s == s
  {
  }

  /** Run-length packing of glyphs, a count that fills its sixteen bits starting a new pair. */
  method PackGlyphs(glyphs: seq<nat>) returns (packed: seq<nat>)
    requires forall i :: 0 <= i < |glyphs| ==> glyphs[i] <= 0xFFFF
    ensures Unpack(packed) == glyphs
    ensures |packed| % 4 == 0 && NoneEmpty(packed)
  {
    hide Unpack, Repeat, NoneEmpty, Pair;
    NothingPacked();
    packed := [];
    if glyphs == [] {
      return;
    }
    var bits, count := glyphs[0], 1;
    RepeatMore(bits, 0);
    assert glyphs[..1] == [bits];
    for i := 1 to |glyphs|
      invariant |packed| % 4 == 0 && NoneEmpty(packed) && bits <= 0xFFFF && 1 <= count <= MAX_COUNT
      invariant Unpack(packed) + Repeat(bits, count) == glyphs[..i]
    {
      assert glyphs[..i + 1] == glyphs[..i] + [glyphs[i]];
      RepeatMore(bits, count);
      RepeatMore(glyphs[i], 0);
      if glyphs[i] == bits && count < MAX_COUNT {
        OneMore(Unpack(packed), Repeat(bits, count), bits);
        count := count + 1;
      } else {
        FlushRun(packed, bits, count);
        packed := packed + Pair(bits, count);
        bits, count := glyphs[i], 1;
      }
    }
    assert glyphs[..|glyphs|] == glyphs;
    FlushRun(packed, bits, count);
    packed := packed + Pair(bits, count);
  }

  // ----- the packed form of a run of images -----

  /** Every field in the width the record has for it. */
  predicate Fits(place: Placement) {
    && place.id < 0x1_0000_0000 && place.cellRow <= 0xFFFF && place.cellCol <= 0xFFFF
    && place.cols <= 0xFFFF && place.rows <= 0xFFFF
  }

  function Word(n: nat): (bytes: seq<nat>)
    requires n < 0x1_0000_0000
    ensures |bytes| == 4
  {
    LittleEndian(n % 0x1_0000) + LittleEndian(n / 0x1_0000)
  }

  function Record(place: Placement): (bytes: seq<nat>)
    requires Fits(place)
    ensures |bytes| == 12
  {
    Word(place.id) + LittleEndian(place.cellRow) + LittleEndian(place.cellCol)
    + LittleEndian(place.cols) + LittleEndian(place.rows)
  }

  function Number(bytes: seq<nat>, at: nat): nat
    requires at + 2 <= |bytes|
  {
    bytes[at] + 256 * bytes[at + 1]
  }

  /** What the other end reads back out of twelve bytes a cell. */
  function UnpackImages(bytes: seq<nat>): seq<Placement> {
    if |bytes| < 12 then []
    else
      [Placement(Number(bytes, 0) + 0x1_0000 * Number(bytes, 2), Number(bytes, 4), Number(bytes, 6),
                 Number(bytes, 8), Number(bytes, 10))]
      + UnpackImages(bytes[12..])
  }

  lemma {:induction false} UnpackImagesSnoc(packed: seq<nat>, place: Placement)
    requires |packed| % 12 == 0 && Fits(place)
    ensures UnpackImages(packed + Record(place)) == UnpackImages(packed) + [place]
    decreases |packed|
  {
    hide Fits, Record, Number;
    if packed == [] {
      RecordReads(place);
      assert packed + Record(place) == Record(place);
    } else {
      UnpackImagesSnoc(packed[12..], place);
      var all := packed + Record(place);
      assert all[12..] == packed[12..] + Record(place);
      forall at: nat | at <= 10 ensures Number(all, at) == Number(packed, at) {
        NumberWithin(packed, Record(place), at);
      }
    }
  }

  lemma NumberWithin(a: seq<nat>, b: seq<nat>, at: nat)
    requires at + 2 <= |a|
    ensures Number(a + b, at) == Number(a, at)
  {
  }

  lemma RecordReads(place: Placement)
    requires Fits(place)
    ensures UnpackImages(Record(place)) == [place]
  {
    var bytes := Record(place);
    assert Number(bytes, 0) == place.id % 0x1_0000 && Number(bytes, 2) == place.id / 0x1_0000;
    assert bytes[12..] == [];
  }

  method PackImages(places: seq<Placement>) returns (packed: seq<nat>)
    requires forall i :: 0 <= i < |places| ==> Fits(places[i])
    ensures UnpackImages(packed) == places && |packed| == 12 * |places|
  {
    hide Fits, Record;
    packed := [];
    for i := 0 to |places|
      invariant UnpackImages(packed) == places[..i] && |packed| == 12 * i
    {
      UnpackImagesSnoc(packed, places[i]);
      packed := packed + Record(places[i]);
      assert places[..i + 1] == places[..i] + [places[i]];
    }
    assert places[..|places|] == places;
  }
}
