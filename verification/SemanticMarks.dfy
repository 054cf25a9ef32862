/** Where semantic marks go in a rewrap (`Logical` and `Screen::reflow` in src/emu/screen.rs). A mark names a place
    in the text: a line, and an offset into it. Which marks name which place is read off the rows here, departed or
    shown, and does not mention how a rewrap carries anything. */
module SemanticMarks {
  import opened Cells
  import opened RowLaws
  import opened Grid
  import opened Reading
  import opened Reflow
  import opened ReflowLaws
  import opened Recut
  import opened Transcript
  import opened WideChunk
  import E = Effects

  // ----- reading marks -----

  /** The ids of the marks among some attachments. */
  function Ids(xs: seq<Extra>): seq<nat> {
    if xs == [] then []
    else if xs[0].Mark? then [xs[0].id] + Ids(xs[1..])
    else Ids(xs[1..])
  }

  /** The ids of the marks at one place of a list. */
  function IdsOf(ms: seq<MarkAt>, at: nat): seq<nat> {
    if ms == [] then []
    else if ms[0].at == at then [ms[0].id] + IdsOf(ms[1..], at)
    else IdsOf(ms[1..], at)
  }

  /** A row as marks are read off it: one that departed, or one that stands. */
  datatype Strip = Left(gone: Departed) | Shown(row: Row)

  function StripIds(s: Strip, col: nat): seq<nat> {
    match s
    case Left(gone) => IdsOf(gone.marks, col)
    case Shown(row) => Ids(E.On(row.extras, col))
  }

  datatype Pos = Pos(line: nat, offset: nat)

  /** Where the row after this one starts. */
  function Next(p: Pos, s: Strip): Pos {
    var (len, wrapped) := match s
                          case Left(gone) => (|gone.cells|, gone.wrapped)
                          case Shown(row) => (|row.cells|, row.wrapped);
    if wrapped then Pos(p.line, p.offset + len) else Pos(p.line + 1, 0)
  }

  function After(ss: seq<Strip>, p: Pos): Pos {
    if ss == [] then p else After(ss[1..], Next(p, ss[0]))
  }

  /** The marks at a place of the text that rows spell, the first of them standing at `p`. */
  function IdsFrom(ss: seq<Strip>, p: Pos, at: Pos): seq<nat> {
    if ss == [] then []
    else (if at.line == p.line && p.offset <= at.offset then StripIds(ss[0], at.offset - p.offset) else [])
         + IdsFrom(ss[1..], Next(p, ss[0]), at)
  }

  function ShownAll(rows: seq<Row>): (r: seq<Strip>)
    ensures |r| == |rows|
  {
    seq(|rows|, i requires 0 <= i < |rows| => Shown(rows[i]))
  }

  function LeftAll(ev: Evicted): (r: seq<Strip>)
    ensures |r| == |ev|
  {
    seq(|ev|, i requires 0 <= i < |ev| => Left(ev[i]))
  }

  const TOP: Pos := Pos(0, 0)

  lemma AfterConcat(a: seq<Strip>, b: seq<Strip>, p: Pos)
    ensures After(a + b, p) == After(b, After(a, p))
  {
    if a == [] {
      assert a + b == b;
    } else {
      assert (a + b)[1..] == a[1..] + b;
      AfterConcat(a[1..], b, Next(p, a[0]));
    }
  }

  lemma {:induction false} IdsFromConcat(a: seq<Strip>, b: seq<Strip>, p: Pos, at: Pos)
    ensures IdsFrom(a + b, p, at) == IdsFrom(a, p, at) + IdsFrom(b, After(a, p), at)
  {
    hide StripIds, Next;
    if a == [] {
      assert a + b == b;
    } else {
      assert (a + b)[0] == a[0] && (a + b)[1..] == a[1..] + b;
      IdsFromConcat(a[1..], b, Next(p, a[0]), at);
    }
  }

  // ----- the table of a row -----

  lemma IdsCons(x: Extra, rest: seq<Extra>)
    ensures Ids([x] + rest) == (if x.Mark? then [x.id] else []) + Ids(rest)
  {
    assert ([x] + rest)[1..] == rest;
  }

  lemma {:induction false} IdsConcat(a: seq<Extra>, b: seq<Extra>)
    ensures Ids(a + b) == Ids(a) + Ids(b)
  {
    hide Ids;
    if a == [] {
      assert a + b == b;
      NoIds(0);
    } else {
      IdsConcat(a[1..], b);
      assert a + b == [a[0]] + (a[1..] + b) && a == [a[0]] + a[1..];
      IdsCons(a[0], a[1..] + b);
      IdsCons(a[0], a[1..]);
    }
  }

  lemma IdsOfCons(m: MarkAt, rest: seq<MarkAt>, at: nat)
    ensures IdsOf([m] + rest, at) == (if m.at == at then [m.id] else []) + IdsOf(rest, at)
  {
    assert ([m] + rest)[1..] == rest;
  }

  lemma {:induction false} IdsOfConcat(a: seq<MarkAt>, b: seq<MarkAt>, at: nat)
    ensures IdsOf(a + b, at) == IdsOf(a, at) + IdsOf(b, at)
  {
    hide IdsOf;
    if a == [] {
      assert a + b == b;
      NoIds(at);
    } else {
      IdsOfConcat(a[1..], b, at);
      assert a + b == [a[0]] + (a[1..] + b) && a == [a[0]] + a[1..];
      IdsOfCons(a[0], a[1..] + b, at);
      IdsOfCons(a[0], a[1..], at);
    }
  }

  lemma {:induction false} MarksAreIds(es: seq<Entry>, col: nat)
    ensures IdsOf(MarksOf(es), col) == Ids(E.On(es, col))
  {
    if es != [] {
      MarksAreIds(es[1..], col);
      var rest := MarksOf(es[1..]);
      if es[0].extra.Mark? {
        assert ([MarkAt(es[0].at, es[0].extra.id)] + rest)[1..] == rest;
      }
      if es[0].at == col {
        assert ([es[0].extra] + E.On(es[1..], col))[1..] == E.On(es[1..], col);
      }
    }
  }

  lemma RebasedIds(ms: seq<MarkAt>, base: nat, at: nat)
    ensures IdsOf(RebaseMarks(ms, base), at) == if base <= at then IdsOf(ms, at - base) else []
  {
    if ms != [] {
      RebasedIds(ms[1..], base, at);
      assert RebaseMarks(ms, base)[1..] == RebaseMarks(ms[1..], base);
    }
  }

  lemma NoneThere(es: seq<Entry>, cols: nat, col: nat)
    requires InRange(es, cols) && cols <= col
    ensures E.On(es, col) == []
  {
    forall i | 0 <= i < |es| ensures es[i].at != col {
      assert es[i] in es;
    }
    E.OnOutside(es, col);
  }

  // ----- reassembling -----

  /** Reassembly so far: the place it stands at, and the marks it holds. */
  ghost predicate Holds(lines: seq<Logical>, continuing: bool, ss: seq<Strip>) {
    && (continuing ==> lines != [])
    && After(ss, TOP) == (if continuing then Pos(|lines| - 1, |lines[|lines| - 1].cells|) else Pos(|lines|, 0))
    && forall at: Pos :: IdsFrom(ss, TOP, at) == LinesIds(lines, at)
  }

  /** The marks at a place of reassembled lines. */
  function LinesIds(lines: seq<Logical>, at: Pos): seq<nat> {
    if at.line < |lines| then IdsOf(lines[at.line].marks, at.offset) else []
  }

  lemma PushedIds(line: Logical, row: Row, at: nat)
    ensures IdsOf(PushRow(line, row).marks, at)
            == IdsOf(line.marks, at)
               + if |line.cells| <= at then Ids(E.On(row.extras, at - |line.cells|)) else []
  {
    hide Drawn, CutOff, Rebase, IdsOf, Ids, E.On, MarksOf, RebaseMarks;
    IdsOfConcat(line.marks, RebaseMarks(MarksOf(row.extras), |line.cells|), at);
    RebasedIds(MarksOf(row.extras), |line.cells|, at);
    if |line.cells| <= at {
      MarksAreIds(row.extras, at - |line.cells|);
    }
  }

  lemma PushHolds(lines: seq<Logical>, continuing: bool, ss: seq<Strip>, row: Row)
    requires Holds(lines, continuing, ss) && (continuing ==> lines != [])
    ensures var started := if continuing then lines else lines + [EMPTY_LINE];
            Holds(started[|started| - 1 := PushRow(started[|started| - 1], row)], row.wrapped, ss + [Shown(row)])
  {
    hide IdsFrom, After, IdsOf, Ids, E.On;
    var started := if continuing then lines else lines + [EMPTY_LINE];
    var n := |started| - 1;
    var after := started[n := PushRow(started[n], row)];
    var p := Pos(n, |started[n].cells|);
    AfterOne(ss, Shown(row));
    PushedCells(started[n], row);
    assert After(ss, TOP) == p;
    forall at: Pos ensures IdsFrom(ss + [Shown(row)], TOP, at) == LinesIds(after, at) {
      IdsFromOne(ss, Shown(row), at);
      NoIds(at.offset);
      if at.line == n {
        PushedIds(started[n], row, at.offset);
      }
    }
  }

  lemma NoIds(at: nat)
    ensures IdsOf([], at) == [] && Ids([]) == []
  {
  }

  lemma PushedCells(line: Logical, row: Row)
    ensures row.wrapped ==> |PushRow(line, row).cells| == |line.cells| + |row.cells|
  {
    hide Drawn, CutOff, Rebase, MarksOf;
  }

  lemma AfterOne(ss: seq<Strip>, s: Strip)
    ensures After(ss + [s], TOP) == Next(After(ss, TOP), s)
  {
    AfterConcat(ss, [s], TOP);
    assert [s][1..] == [];
  }

  lemma IdsFromOne(ss: seq<Strip>, s: Strip, at: Pos)
    ensures var p := After(ss, TOP);
            IdsFrom(ss + [s], TOP, at)
            == IdsFrom(ss, TOP, at)
               + if at.line == p.line && p.offset <= at.offset then StripIds(s, at.offset - p.offset) else []
  {
    hide StripIds, Next;
    IdsFromConcat(ss, [s], TOP, at);
    assert [s][1..] == [];
  }

  /** The marks of the reassembled lines are those the rows hold, at the places they name. */
  lemma {:induction false} AssembledMarks(rows: seq<Row>, n: nat)
    requires n <= |rows|
    ensures Holds(AssembleTo(rows, n).0, AssembleTo(rows, n).1, ShownAll(rows[..n]))
  {
    hide PushRow, Holds;
    if n == 0 {
      assert ShownAll(rows[..0]) == [];
      HoldsNothing();
    } else {
      AssembledMarks(rows, n - 1);
      var (lines, continuing) := AssembleTo(rows, n - 1);
      PushHolds(lines, continuing, ShownAll(rows[..n - 1]), rows[n - 1]);
      assert ShownAll(rows[..n]) == ShownAll(rows[..n - 1]) + [Shown(rows[n - 1])];
    }
  }

  lemma HoldsNothing()
    ensures Holds([], false, [])
  {
  }

  // ----- one row cut from a line -----

  /** A line's marks are held apart: none is among the attachments that follow its cells. */
  ghost predicate Apart(es: seq<Entry>) {
    forall e :: e in es ==> !e.extra.Mark?
  }

  ghost predicate AllApart(lines: seq<Logical>) {
    forall i :: 0 <= i < |lines| ==> Apart(lines[i].extras)
  }

  lemma {:induction false} NoneDrawn(es: seq<Entry>)
    ensures Apart(Drawn(es))
  {
    if es != [] {
      NoneDrawn(es[1..]);
    }
  }

  lemma PushApart(line: Logical, row: Row)
    requires Apart(line.extras)
    ensures Apart(PushRow(line, row).extras)
  {
    hide MarksOf, LineLen;
    var len := Min(LineLen(row), |row.cells|);
    NoneDrawn(row.extras);
    CutOffKeeps(Drawn(row.extras), len);
    var cut := CutOff(Drawn(row.extras), len);
    forall e | e in Rebase(cut, |line.cells|) ensures !e.extra.Mark? {
      var i :| 0 <= i < |cut| && Rebase(cut, |line.cells|)[i] == e;
      assert cut[i] in cut;
    }
  }

  lemma {:induction false} AssembledApart(rows: seq<Row>, n: nat)
    requires n <= |rows|
    ensures AllApart(AssembleTo(rows, n).0)
  {
    hide PushRow, Apart;
    if n > 0 {
      AssembledApart(rows, n - 1);
      var (lines, continuing) := AssembleTo(rows, n - 1);
      EmptyApart();
      var started := if continuing then lines else lines + [EMPTY_LINE];
      PushApart(started[|started| - 1], rows[n - 1]);
    }
  }

  lemma EmptyApart()
    ensures Apart(EMPTY_LINE.extras) && Apart([])
  {
  }

  lemma ApartIds(es: seq<Entry>, col: nat)
    requires Apart(es)
    ensures Ids(E.On(es, col)) == []
  {
    if es != [] {
      assert es[0] in es;
      ApartIds(es[1..], col);
    }
  }

  lemma WithinApart(es: seq<Entry>, lo: nat, hi: nat)
    requires Apart(es)
    ensures Apart(Within(es, lo, hi))
  {
    if es != [] {
      assert es[0] in es;
      WithinApart(es[1..], lo, hi);
    }
  }

  lemma InsertLastOn(es: seq<Entry>, e: Entry, k: nat)
    ensures E.On(InsertLast(es, e), k) == E.On(es, k) + E.On([e], k)
  {
    hide E.On;
    E.OnConcat(es, [e], k);
    if es != [] && es[|es| - 1].at > e.at {
      var l := es[|es| - 1];
      InsertLastOn(es[..|es| - 1], e, k);
      assert es == es[..|es| - 1] + [l];
      E.OnConcat(es[..|es| - 1], [l], k);
      E.OnConcat(InsertLast(es[..|es| - 1], e), [l], k);
      E.OnOne(e, k);
      E.OnOne(l, k);
    }
  }

  lemma SortOn(es: seq<Entry>, k: nat)
    ensures E.On(SortByColumn(es), k) == E.On(es, k)
  {
    hide E.On;
    if es != [] {
      SortOn(es[..|es| - 1], k);
      InsertLastOn(SortByColumn(es[..|es| - 1]), es[|es| - 1], k);
      assert es == es[..|es| - 1] + [es[|es| - 1]];
      E.OnConcat(es[..|es| - 1], [es[|es| - 1]], k);
    }
  }

  lemma MarksWithinIds(ms: seq<MarkAt>, lo: nat, hi: nat, k: nat)
    ensures Ids(E.On(MarksWithin(ms, lo, hi), k)) == if lo + k < hi then IdsOf(ms, lo + k) else []
  {
    if ms != [] {
      MarksWithinIds(ms[1..], lo, hi, k);
      var rest := MarksWithin(ms[1..], lo, hi);
      if lo <= ms[0].at < hi {
        var e := Entry(ms[0].at - lo, Mark(ms[0].id));
        assert ([e] + rest)[1..] == rest;
        if e.at == k {
          assert ([e.extra] + E.On(rest, k))[1..] == E.On(rest, k);
        }
      }
    }
  }

  /** A row cut from a line has on each column the marks of the offset it shows, text or not. */
  lemma RowMarks(line: Logical, start: nat, end: nat, cols: nat, wrapped: bool, k: nat)
    requires start <= end <= |line.cells| && Apart(line.extras)
    ensures Ids(E.On(RowOf(line, start, end, cols, wrapped).extras, k))
            == if k < cols then IdsOf(line.marks, start + k) else []
  {
    hide SortByColumn, Within, MarksWithin, E.On, Ids, IdsOf, Apart;
    var taken := Min(end, start + cols);
    var a, b := Within(line.extras, start, taken), MarksWithin(line.marks, start, start + cols);
    SortOn(a + b, k);
    E.OnConcat(a, b, k);
    IdsConcat(E.On(a, k), E.On(b, k));
    WithinApart(line.extras, start, taken);
    ApartIds(a, k);
    MarksWithinIds(line.marks, start, start + cols, k);
  }

  // ----- a mark that is hung -----

  /** The ids of all the marks in a table. */
  function AllIds(es: seq<Entry>): seq<nat> {
    if es == [] then []
    else (if es[0].extra.Mark? then [es[0].extra.id] else []) + AllIds(es[1..])
  }

  lemma CountIsIds(es: seq<Entry>)
    ensures MarkCount(es) == |AllIds(es)| <= |es|
  {
  }

  /** A row that has fewer than eight marks takes another, on its column. */
  lemma MarkRowTakes(row: Row, col: nat, id: nat, k: nat)
    requires col < |row.cells| && |AllIds(row.extras)| < 8 && Sorted(row.extras)
    ensures E.On(MarkRow(row, col, id).extras, k) == E.On(row.extras, k) + if k == col then [Mark(id)] else []
    ensures |AllIds(MarkRow(row, col, id).extras)| == |AllIds(row.extras)| + 1
  {
    hide E.On, Insert, AllIds;
    CountIsIds(row.extras);
    E.OnInsert(row.extras, col, Mark(id), k);
    InsertIds(row.extras, col, id);
  }

  lemma AllIdsCons(e: Entry, rest: seq<Entry>)
    ensures AllIds([e] + rest) == (if e.extra.Mark? then [e.extra.id] else []) + AllIds(rest)
  {
    assert ([e] + rest)[1..] == rest;
  }

  lemma {:induction false} AllIdsConcat(a: seq<Entry>, b: seq<Entry>)
    ensures AllIds(a + b) == AllIds(a) + AllIds(b)
  {
    hide AllIds;
    if a == [] {
      assert a + b == b && AllIds([]) == [] by { NoneAtAll(); }
    } else {
      AllIdsConcat(a[1..], b);
      assert a + b == [a[0]] + (a[1..] + b) && a == [a[0]] + a[1..];
      AllIdsCons(a[0], a[1..] + b);
      AllIdsCons(a[0], a[1..]);
    }
  }

  lemma NoneAtAll()
    ensures AllIds([]) == []
  {
  }

  lemma InsertIds(es: seq<Entry>, col: nat, id: nat)
    ensures multiset(AllIds(Insert(es, col, Mark(id)))) == multiset(AllIds(es)) + multiset{id}
    ensures |AllIds(Insert(es, col, Mark(id)))| == |AllIds(es)| + 1
  {
    hide AllIds;
    var at := PartitionPoint(es, col, 0, |es|);
    AllIdsConcat(es[..at] + [Entry(col, Mark(id))], es[at..]);
    AllIdsConcat(es[..at], [Entry(col, Mark(id))]);
    AllIdsConcat(es[..at], es[at..]);
    assert es == es[..at] + es[at..];
    OneId(Entry(col, Mark(id)));
  }

  lemma OneId(e: Entry)
    ensures AllIds([e]) == if e.extra.Mark? then [e.extra.id] else []
  {
    assert [e][1..] == [];
  }

  /** One that has eight or more lets go of the oldest of them for it. */
  lemma MarkRowEvicts(row: Row, col: nat, id: nat) returns (gone: Entry)
    requires col < |row.cells| && |AllIds(row.extras)| >= 8
    ensures gone in row.extras && gone.extra.Mark?
    ensures forall e :: e in row.extras && e.extra.Mark? ==> gone.extra.id <= e.extra.id
    ensures forall k: nat ::
              multiset(E.On(MarkRow(row, col, id).extras, k)) + multiset(if k == gone.at then [gone.extra] else [])
              == multiset(E.On(row.extras, k)) + multiset(if k == col then [Mark(id)] else [])
    ensures |AllIds(MarkRow(row, col, id).extras)| == |AllIds(row.extras)|
  {
    hide E.On, Insert, AllIds, OldestMark;
    CountIsIds(row.extras);
    var es := row.extras;
    var i := OldestMark(es);
    gone := es[i];
    OldestIsLeast(es);
    var before, after := es[..i], es[i + 1..];
    assert es == before + [gone] + after;
    assert es[i := Entry(col, Mark(id))] == before + [Entry(col, Mark(id))] + after;
    AllIdsConcat(before + [gone], after);
    AllIdsConcat(before, [gone]);
    AllIdsConcat(before, after);
    AllIdsConcat(before + [Entry(col, Mark(id))], after);
    AllIdsConcat(before, [Entry(col, Mark(id))]);
    OneId(gone);
    OneId(Entry(col, Mark(id)));
    InsertIds(before + after, col, id);
    forall k: nat
      ensures multiset(E.On(MarkRow(row, col, id).extras, k)) + multiset(if k == gone.at then [gone.extra] else [])
              == multiset(E.On(row.extras, k)) + multiset(if k == col then [Mark(id)] else [])
    {
      EvictedOn(before, gone, after, col, id, k);
    }
  }

  lemma EvictedOn(before: seq<Entry>, gone: Entry, after: seq<Entry>, col: nat, id: nat, k: nat)
    ensures multiset(E.On(Insert(before + after, col, Mark(id)), k))
                + multiset(if k == gone.at then [gone.extra] else [])
            == multiset(E.On(before + [gone] + after, k)) + multiset(if k == col then [Mark(id)] else [])
    ensures gone.at == col ==>
              multiset(E.On(before + [Entry(col, Mark(id))] + after, k))
                  + multiset(if k == gone.at then [gone.extra] else [])
              == multiset(E.On(before + [gone] + after, k)) + multiset(if k == col then [Mark(id)] else [])
  {
    hide E.On, Insert;
    E.OnConcat(before + [gone], after, k);
    E.OnConcat(before, [gone], k);
    E.OnConcat(before, after, k);
    E.OnConcat(before + [Entry(col, Mark(id))], after, k);
    E.OnConcat(before, [Entry(col, Mark(id))], k);
    E.OnOne(gone, k);
    E.OnOne(Entry(col, Mark(id)), k);
    E.OnInsert(before + after, col, Mark(id), k);
    E.OnInsert(before + after, col, Mark(id), col);
  }

  lemma {:induction false} OldestIsLeast(es: seq<Entry>)
    requires MarkCount(es) > 0
    ensures forall e :: e in es && e.extra.Mark? ==> es[OldestMark(es)].extra.id <= e.extra.id
  {
    assert es == [es[0]] + es[1..];
    if MarkCount(es[1..]) > 0 {
      OldestIsLeast(es[1..]);
    } else {
      NoneCounted(es[1..]);
    }
  }

  lemma NoneCounted(es: seq<Entry>)
    requires MarkCount(es) == 0
    ensures forall e :: e in es ==> !e.extra.Mark?
  {
  }

  /** The ids of the marks at or past an offset. */
  function Past(ms: seq<MarkAt>, from: nat): seq<nat> {
    if ms == [] then []
    else (if ms[0].at >= from then [ms[0].id] else []) + Past(ms[1..], from)
  }

  /** Marks hung on a column: they all stay if the row has room for them, and it never grows past the eight. */
  lemma {:induction false} HangTakes(row: Row, col: nat, ms: seq<MarkAt>, from: nat, k: nat)
    requires col < |row.cells| && Sorted(row.extras) && InRange(row.extras, |row.cells|)
    ensures var after := MarkEach(row, col, ms, from);
            var (had, more) := (|AllIds(row.extras)|, Past(ms, from));
            && (had + |more| <= 8 ==>
                  Ids(E.On(after.extras, k)) == Ids(E.On(row.extras, k)) + if k == col then more else [])
            && |AllIds(after.extras)| == if had + |more| <= 8 then had + |more| else if had > 8 then had else 8
    decreases |ms|
  {
    hide E.On, AllIds, MarkRow, Ids, Sorted, InRange;
    if ms != [] {
      if ms[0].at >= from {
        var next := MarkRow(row, col, ms[0].id);
        MarkRowKept(row, col, ms[0].id, |row.cells|);
        MarkRowIs(row, col, ms[0].id);
        HangTakes(next, col, ms[1..], from, k);
        if |AllIds(row.extras)| < 8 {
          MarkRowTakes(row, col, ms[0].id, k);
          IdsConcat(E.On(row.extras, k), if k == col then [Mark(ms[0].id)] else []);
          NoIds(0);
          OneMark(ms[0].id);
        } else {
          var _ := MarkRowEvicts(row, col, ms[0].id);
        }
      } else {
        HangTakes(row, col, ms[1..], from, k);
      }
    }
  }

  lemma MarkRowIs(row: Row, col: nat, id: nat)
    ensures MarkRow(row, col, id).cells == row.cells && MarkRow(row, col, id).wrapped == row.wrapped
  {
  }

  lemma OneMark(id: nat)
    ensures Ids([Mark(id)]) == [id]
  {
    assert [Mark(id)][1..] == [];
  }

  // ----- a line cut into rows -----

  /** The offset each row of a line begins at. */
  function RowBegins(line: Logical, cols: nat, i: nat): nat
    requires i < |Chunk(line, cols)| && |Chunk(line, cols)| == |Spans(line.cells, cols)|
  {
    Spans(line.cells, cols)[i].start
  }

  lemma SpansAreRows(line: Logical, cols: nat)
    ensures |Chunk(line, cols)| == |BareChunk(line, cols)| == |Spans(line.cells, cols)|
    ensures forall i :: 0 <= i < |Spans(line.cells, cols)| ==>
              var span := Spans(line.cells, cols)[i];
              && span.start <= span.end <= |line.cells|
              && exists wrapped :: BareChunk(line, cols)[i] == RowOf(line, span.start, span.end, cols, wrapped)
  {
    hide RowOf;
    var (cuts, open) := Cuts(line.cells, cols, 0, 0);
    ChunkSeen(line, cols);
    NothingCut(line.cells, cols);
    var spans, bare := Spans(line.cells, cols), BareChunk(line, cols);
    forall i | 0 <= i < |spans|
      ensures spans[i].start <= spans[i].end <= |line.cells|
      ensures exists wrapped :: bare[i] == RowOf(line, spans[i].start, spans[i].end, cols, wrapped)
    {
      assert bare[i] == RowOf(line, spans[i].start, spans[i].end, cols, i < |cuts|);
    }
  }

  lemma NothingCut(cells: seq<Cell>, cols: nat)
    ensures Cuts(cells, cols, 0, 0).0 == [] ==> Cuts(cells, cols, 0, 0).1 == 0
  {
    CutsStart(cells, cols, 0, 0);
  }

  /** However a line is cut, each of its rows but the last has on its columns the marks of the offsets it shows, and
      the last has them before the marks past its end are hung on it. */
  lemma ChunkMarks(line: Logical, cols: nat, i: nat, k: nat)
    requires i < |Chunk(line, cols)| && Apart(line.extras)
    ensures |Chunk(line, cols)| == |BareChunk(line, cols)| == |Spans(line.cells, cols)|
    ensures i < |Chunk(line, cols)| - 1 ==> Chunk(line, cols)[i] == BareChunk(line, cols)[i]
    ensures Ids(E.On(BareChunk(line, cols)[i].extras, k))
            == if k < cols then IdsOf(line.marks, RowBegins(line, cols, i) + k) else []
  {
    hide RowOf, E.On, Ids, IdsOf, Apart, Spans, Cuts, MarkEach, BareChunk;
    SpansAreRows(line, cols);
    var span, bare := Spans(line.cells, cols)[i], BareChunk(line, cols);
    var wrapped :| bare[i] == RowOf(line, span.start, span.end, cols, wrapped);
    RowMarks(line, span.start, span.end, cols, wrapped, k);
  }

  /** Where the marks past a line's last row begin: that many columns past where the row open at the end of the cut
      begins. */
  function HangsFrom(line: Logical, cols: nat): nat {
    Cuts(line.cells, cols, 0, 0).1 + cols
  }

  /** The marks past the end of a line are hung on the last column of its last row, as many as it has room for. */
  lemma LastRowHangs(line: Logical, cols: nat, k: nat)
    requires cols >= 1 && k < cols && Apart(line.extras)
    ensures |Chunk(line, cols)| == |BareChunk(line, cols)|
    ensures var (i, past) := (|Chunk(line, cols)| - 1, Past(line.marks, HangsFrom(line, cols)));
            var (last, bare) := (Chunk(line, cols)[i], BareChunk(line, cols)[i]);
            var had := |AllIds(bare.extras)|;
            && (had + |past| <= 8 ==>
                  Ids(E.On(last.extras, k)) == Ids(E.On(bare.extras, k)) + if k == cols - 1 then past else [])
            && |AllIds(last.extras)| == if had + |past| <= 8 then had + |past| else if had > 8 then had else 8
  {
    hide E.On, Ids, MarkEach, BareChunk, AllIds, Past, Sorted, InRange, Apart;
    BareChunkOk(line, cols);
    var bare := BareChunk(line, cols)[|BareChunk(line, cols)| - 1];
    assert RowOk(bare, cols) && Sorted(bare.extras);
    HangTakes(bare, cols - 1, line.marks, HangsFrom(line, cols), k);
  }

  // ----- a line no character of which is cut -----

  /** The columns of the rows that `n` cells take. */
  function Room(n: nat, cols: nat): nat
    requires cols >= 1
  {
    if n <= cols then cols else cols + Room(n - cols, cols)
  }

  /** The marks at an offset of a line once it is cut: the ones past its last row are hung on the last column. */
  function CutIds(line: Logical, cols: nat, offset: nat): seq<nat>
    requires cols >= 1
  {
    var end := Room(|line.cells|, cols);
    if offset >= end then []
    else IdsOf(line.marks, offset) + if offset == end - 1 then Past(line.marks, end) else []
  }

  /** Marks on a stretch of a line. */
  function Among(ms: seq<MarkAt>, lo: nat, hi: nat): nat {
    if ms == [] then 0 else (if lo <= ms[0].at < hi then 1 else 0) + Among(ms[1..], lo, hi)
  }

  /** The last row has room for the marks past its end. */
  predicate Spacious(line: Logical, cols: nat)
    requires cols >= 1
  {
    var end := Room(|line.cells|, cols);
    Past(line.marks, end) == [] || (end >= cols && Among(line.marks, end - cols, end) + |Past(line.marks, end)| <= 8)
  }

  /** Rows of one line, each `cols` wide and the last of them its end. */
  ghost predicate Chain(rows: seq<Row>, cols: nat) {
    && rows != [] && RowsOk(rows, cols)
    && forall i :: 0 <= i < |rows| ==> rows[i].wrapped == (i < |rows| - 1)
  }

  lemma ChainNext(rows: seq<Row>, cols: nat, p: Pos)
    requires Chain(rows, cols)
    ensures rows != [] && ShownAll(rows) == [Shown(rows[0])] + ShownAll(rows[1..])
    ensures |rows| == 1 ==> ShownAll(rows[1..]) == [] && Next(p, Shown(rows[0])) == Pos(p.line + 1, 0)
    ensures |rows| > 1 ==> Chain(rows[1..], cols) && Next(p, Shown(rows[0])) == Pos(p.line, p.offset + cols)
    ensures RowOk(rows[0], cols)
  {
    hide InRange;
  }

  /** The first row's marks, and those of the rows after it. */
  lemma IdsFromCons(s: Strip, rest: seq<Strip>, p: Pos, at: Pos)
    ensures IdsFrom([s] + rest, p, at)
            == (if at.line == p.line && p.offset <= at.offset then StripIds(s, at.offset - p.offset) else [])
               + IdsFrom(rest, Next(p, s), at)
    ensures After([s] + rest, p) == After(rest, Next(p, s))
  {
    assert ([s] + rest)[1..] == rest;
  }

  lemma {:induction false} ChainEnds(rows: seq<Row>, cols: nat, p: Pos)
    requires Chain(rows, cols)
    ensures After(ShownAll(rows), p) == Pos(p.line + 1, 0)
    decreases |rows|
  {
    hide Chain, IdsFrom, ShownAll;
    ChainNext(rows, cols, p);
    var next := Next(p, Shown(rows[0]));
    IdsFromCons(Shown(rows[0]), ShownAll(rows[1..]), p, p);
    if |rows| > 1 {
      ChainEnds(rows[1..], cols, next);
    }
  }

  /** A chain has no marks but on its own columns. */
  lemma {:induction false} ChainOutside(rows: seq<Row>, cols: nat, p: Pos, at: Pos)
    requires Chain(rows, cols) && !(at.line == p.line && p.offset <= at.offset < p.offset + RowStart(|rows|, cols))
    ensures IdsFrom(ShownAll(rows), p, at) == []
    decreases |rows|
  {
    hide Chain, ShownAll, E.On, Ids, RowStart;
    ChainNext(rows, cols, p);
    var next := Next(p, Shown(rows[0]));
    IdsFromCons(Shown(rows[0]), ShownAll(rows[1..]), p, at);
    OutsideRow(rows[0], cols);
    RowAfter(|rows| - 1, cols);
    if |rows| > 1 {
      ChainOutside(rows[1..], cols, next, at);
    }
  }

  lemma {:induction false} ChainAt(rows: seq<Row>, cols: nat, p: Pos, i: nat, k: nat)
    requires Chain(rows, cols) && i < |rows| && k < cols
    ensures IdsFrom(ShownAll(rows), p, Pos(p.line, p.offset + (RowStart(i, cols) + k))) == Ids(E.On(rows[i].extras, k))
    decreases |rows|
  {
    hide Chain, ShownAll, E.On, Ids, RowStart;
    var at := Pos(p.line, p.offset + (RowStart(i, cols) + k));
    ChainNext(rows, cols, p);
    var next, rest := Next(p, Shown(rows[0])), rows[1..];
    IdsFromCons(Shown(rows[0]), ShownAll(rest), p, at);
    OutsideRow(rows[0], cols);
    RowAfter(0, cols);
    if i == 0 {
      if |rows| > 1 {
        ChainOutside(rest, cols, next, at);
      } else {
        assert IdsFrom([], next, at) == [];
      }
    } else {
      RowAfter(i - 1, cols);
      ChainAt(rest, cols, next, i - 1, k);
      assert at == Pos(next.line, next.offset + (RowStart(i - 1, cols) + k));
    }
  }

  lemma RowAfter(i: nat, cols: nat)
    ensures RowStart(i + 1, cols) == RowStart(i, cols) + cols && RowStart(0, cols) == 0
  {
  }

  lemma OutsideRow(row: Row, cols: nat)
    requires RowOk(row, cols)
    ensures forall k: nat :: cols <= k ==> Ids(E.On(row.extras, k)) == []
  {
    forall k: nat | cols <= k ensures Ids(E.On(row.extras, k)) == [] {
      NoneThere(row.extras, cols, k);
      NoIds(0);
    }
  }

  /** A row cut from a line at an offset. */
  ghost predicate CutAt(row: Row, line: Logical, begin: nat, cols: nat, last: bool) {
    begin <= |line.cells| && row == RowOf(line, begin, Min(begin + cols, |line.cells|), cols, !last)
  }

  lemma EvenRows(line: Logical, cols: nat)
    requires cols >= 1 && Even(line.cells, cols)
    ensures Chain(Chunk(line, cols), cols) && RowStart(|Chunk(line, cols)|, cols) == Room(|line.cells|, cols)
    ensures HangsFrom(line, cols) == Room(|line.cells|, cols)
    ensures |BareChunk(line, cols)| == |Chunk(line, cols)|
    ensures forall i :: 0 <= i < |Chunk(line, cols)| ==>
              CutAt(BareChunk(line, cols)[i], line, RowStart(i, cols), cols, i == |Chunk(line, cols)| - 1)
  {
    hide RowOf, BareChunk, Chunk, Even, Cuts, PlainCuts, CutAt, InRange, Sorted, PlainRows, RowStart;
    ChunkSeen(line, cols);
    ChunkIsPlain(line, cols);
    ChunkOk(line, cols);
    RowAfter(0, cols);
    CutsPlainly(line, cols);
    PlainRowsAre(line, cols, 0);
    var rows, bare := Chunk(line, cols), BareChunk(line, cols);
    forall i | 0 <= i < |rows| ensures rows[i].wrapped == (i < |rows| - 1) {
      assert Seen(rows[i]) == Seen(bare[i]);
      CutWrap(bare[i], line, RowStart(i, cols), cols, i == |rows| - 1);
    }
    LastOpens(|line.cells|, cols, 0);
  }

  lemma CutsPlainly(line: Logical, cols: nat)
    requires cols >= 1 && Even(line.cells, cols)
    ensures Cuts(line.cells, cols, 0, 0) == PlainCuts(|line.cells|, cols, 0)
  {
    hide Even, Cuts, PlainCuts;
    assert 0 * cols == 0;
    CutsArePlain(line.cells, cols, 0, 0);
  }

  lemma CutWrap(row: Row, line: Logical, begin: nat, cols: nat, last: bool)
    requires CutAt(row, line, begin, cols, last)
    ensures row.wrapped == !last
  {
  }

  lemma LastOpens(n: nat, cols: nat, start: nat)
    requires cols >= 1 && start <= n
    ensures PlainCuts(n, cols, start).1 + cols == start + Room(n - start, cols)
    decreases n - start
  {
    if n > start + cols {
      LastOpens(n, cols, start + cols);
    }
  }

  lemma {:induction false} PlainRowsAre(line: Logical, cols: nat, k: nat)
    requires cols >= 1 && RowStart(k, cols) <= |line.cells|
    ensures var rows := PlainRows(line, cols, RowStart(k, cols));
            && RowStart(|rows|, cols) == Room(|line.cells| - RowStart(k, cols), cols)
            && forall i :: 0 <= i < |rows| ==> CutAt(rows[i], line, RowStart(k + i, cols), cols, i == |rows| - 1)
    decreases |line.cells| - RowStart(k, cols)
  {
    hide RowOf, RowStart;
    var start, n := RowStart(k, cols), |line.cells|;
    RowAfter(k, cols);
    RowAfter(0, cols);
    if n <= start + cols {
      assert PlainRows(line, cols, start) == [RowOf(line, start, n, cols, false)];
    } else {
      PlainRowsAre(line, cols, k + 1);
      var more := PlainRows(line, cols, start + cols);
      var first := RowOf(line, start, start + cols, cols, true);
      var rows := PlainRows(line, cols, start);
      assert rows == [first] + more;
      RowAfter(|more|, cols);
      forall i | 0 <= i < |rows| ensures CutAt(rows[i], line, RowStart(k + i, cols), cols, i == |rows| - 1) {
        if i > 0 {
          assert rows[i] == more[i - 1] && k + 1 + (i - 1) == k + i;
        }
      }
    }
  }

  lemma CutAtMarks(row: Row, line: Logical, begin: nat, cols: nat, last: bool, k: nat)
    requires CutAt(row, line, begin, cols, last) && Apart(line.extras)
    ensures Ids(E.On(row.extras, k)) == if k < cols then IdsOf(line.marks, begin + k) else []
  {
    hide RowOf;
    RowMarks(line, begin, Min(begin + cols, |line.cells|), cols, !last, k);
  }

  /** How many marks a row has, counted column by column. */
  lemma RowCount(row: Row, line: Logical, begin: nat, cols: nat, last: bool)
    requires CutAt(row, line, begin, cols, last) && Apart(line.extras)
    ensures |AllIds(row.extras)| == Among(line.marks, begin, begin + cols)
  {
    hide Within, MarksWithin, SortByColumn, Apart, AllIds, Among;
    var taken := Min(Min(begin + cols, |line.cells|), begin + cols);
    var a, b := Within(line.extras, begin, taken), MarksWithin(line.marks, begin, begin + cols);
    SortCount(a + b);
    AllIdsConcat(a, b);
    WithinApart(line.extras, begin, taken);
    ApartCount(a);
    WithinCount(line.marks, begin, begin + cols);
  }

  lemma ApartCount(es: seq<Entry>)
    requires Apart(es)
    ensures AllIds(es) == []
  {
    if es != [] {
      assert es[0] in es;
      ApartCount(es[1..]);
    }
  }

  lemma WithinCount(ms: seq<MarkAt>, lo: nat, hi: nat)
    ensures |AllIds(MarksWithin(ms, lo, hi))| == Among(ms, lo, hi)
  {
    if ms != [] {
      WithinCount(ms[1..], lo, hi);
      if lo <= ms[0].at < hi {
        AllIdsCons(Entry(ms[0].at - lo, Mark(ms[0].id)), MarksWithin(ms[1..], lo, hi));
      }
    }
  }

  lemma InsertLastCount(es: seq<Entry>, e: Entry)
    ensures |AllIds(InsertLast(es, e))| == |AllIds(es)| + |AllIds([e])|
  {
    hide AllIds;
    if es == [] || es[|es| - 1].at <= e.at {
      AllIdsConcat(es, [e]);
    } else {
      var l := es[|es| - 1];
      InsertLastCount(es[..|es| - 1], e);
      assert es == es[..|es| - 1] + [l];
      AllIdsConcat(es[..|es| - 1], [l]);
      AllIdsConcat(InsertLast(es[..|es| - 1], e), [l]);
    }
  }

  lemma SortCount(es: seq<Entry>)
    ensures |AllIds(SortByColumn(es))| == |AllIds(es)|
  {
    hide AllIds;
    if es != [] {
      SortCount(es[..|es| - 1]);
      InsertLastCount(SortByColumn(es[..|es| - 1]), es[|es| - 1]);
      assert es == es[..|es| - 1] + [es[|es| - 1]];
      AllIdsConcat(es[..|es| - 1], [es[|es| - 1]]);
    }
  }

  // ----- a line, its rows laid out from a place -----

  /** Cut and read back, a line has its marks at the offsets they had; those past its last row are hung on the last
      column of it, if it has room for them, and have no offset past it in any case. */
  lemma LineMarks(line: Logical, cols: nat, p: Pos, at: Pos)
    requires cols >= 1 && Even(line.cells, cols) && Apart(line.extras)
    ensures After(ShownAll(Chunk(line, cols)), p) == Pos(p.line + 1, 0)
    ensures var ids := IdsFrom(ShownAll(Chunk(line, cols)), p, at);
            && (!(at.line == p.line && p.offset <= at.offset < p.offset + Room(|line.cells|, cols)) ==> ids == [])
            && (Spacious(line, cols) && at.line == p.line && p.offset <= at.offset ==>
                  ids == CutIds(line, cols, at.offset - p.offset))
  {
    hide Chunk, BareChunk, IdsFrom, After, ShownAll, Chain, CutAt, Even, Apart, Spacious, HangsFrom, CutIds, Room,
         RowStart;
    EvenRows(line, cols);
    var rows, end := Chunk(line, cols), Room(|line.cells|, cols);
    ChainEnds(rows, cols, p);
    if !(at.line == p.line && p.offset <= at.offset < p.offset + end) {
      ChainOutside(rows, cols, p, at);
      if at.line == p.line && p.offset <= at.offset {
        NonePast(line, cols, at.offset - p.offset);
      }
    } else if Spacious(line, cols) {
      LineMarksIn(line, cols, p, at.offset - p.offset);
    }
  }

  lemma NonePast(line: Logical, cols: nat, o: nat)
    requires cols >= 1 && o >= Room(|line.cells|, cols)
    ensures CutIds(line, cols, o) == []
  {
  }

  lemma LineMarksIn(line: Logical, cols: nat, p: Pos, o: nat)
    requires cols >= 1 && Even(line.cells, cols) && Apart(line.extras) && Spacious(line, cols)
    requires o < Room(|line.cells|, cols)
    ensures IdsFrom(ShownAll(Chunk(line, cols)), p, Pos(p.line, p.offset + o)) == CutIds(line, cols, o)
  {
    hide Chunk, BareChunk, IdsFrom, After, ShownAll, Chain, CutAt, Even, Apart, Spacious, HangsFrom, CutIds, E.On,
         Ids, Room, RowStart;
    EvenRows(line, cols);
    var i, k := RowOfOffset(o, cols, |Chunk(line, cols)|);
    ChainAt(Chunk(line, cols), cols, p, i, k);
    LineMarksAt(line, cols, i, k);
  }

  lemma RowOfOffset(o: nat, cols: nat, n: nat) returns (i: nat, k: nat)
    requires cols >= 1 && o < RowStart(n, cols)
    ensures i < n && k < cols && o == RowStart(i, cols) + k
  {
    i, k := o / cols, o % cols;
    if i >= n {
      MulUp(n, i, cols);
    }
  }

  lemma MulUp(a: int, b: int, c: nat)
    requires a <= b
    ensures a * c <= b * c
  {
  }

  /** One of the rows of a line that is cut evenly: where it begins, and where the last of them ends. */
  lemma EvenRow(line: Logical, cols: nat, i: nat) returns (begin: nat, end: nat)
    requires cols >= 1 && Even(line.cells, cols) && i < |Chunk(line, cols)|
    ensures |Chunk(line, cols)| == |BareChunk(line, cols)|
    ensures begin == RowStart(i, cols) && end == Room(|line.cells|, cols) == HangsFrom(line, cols)
    ensures CutAt(BareChunk(line, cols)[i], line, begin, cols, i == |Chunk(line, cols)| - 1)
    ensures if i == |Chunk(line, cols)| - 1 then begin + cols == end else begin + cols < end
  {
    hide BareChunk, CutAt, Even, Chunk, HangsFrom, Room, Chain, RowStart;
    EvenRows(line, cols);
    var n := |Chunk(line, cols)|;
    begin, end := RowStart(i, cols), RowStart(n, cols);
    RowAfter(i, cols);
    if i < n - 1 {
      RowAfter(n - 1, cols);
      RowStartGrows(i + 1, n - 1, cols);
    }
  }

  lemma LineMarksAt(line: Logical, cols: nat, i: nat, k: nat)
    requires cols >= 1 && Even(line.cells, cols) && Apart(line.extras) && Spacious(line, cols)
    requires i < |Chunk(line, cols)| && k < cols
    ensures Ids(E.On(Chunk(line, cols)[i].extras, k)) == CutIds(line, cols, RowStart(i, cols) + k)
  {
    hide BareChunk, CutAt, Even, Apart, E.On, Ids, IdsOf, Past, Chunk, HangsFrom, Room, Spacious, CutIds, RowStart;
    var begin, end := EvenRow(line, cols, i);
    var n, bare := |Chunk(line, cols)|, BareChunk(line, cols);
    CutAtMarks(bare[i], line, begin, cols, i == n - 1, k);
    CutIdsAre(line, cols, begin + k);
    if i < n - 1 {
      EarlierRow(line, cols, i);
    } else {
      LastRowMarks(line, cols, k);
    }
  }

  lemma CutIdsAre(line: Logical, cols: nat, o: nat)
    requires cols >= 1 && o < Room(|line.cells|, cols)
    ensures o != Room(|line.cells|, cols) - 1 ==> CutIds(line, cols, o) == IdsOf(line.marks, o)
    ensures o == Room(|line.cells|, cols) - 1 ==>
              CutIds(line, cols, o) == IdsOf(line.marks, o) + Past(line.marks, Room(|line.cells|, cols))
  {
    hide Room, IdsOf, Past;
    assert IdsOf(line.marks, o) + [] == IdsOf(line.marks, o);
  }

  lemma EarlierRow(line: Logical, cols: nat, i: nat)
    requires i < |Chunk(line, cols)| - 1 && |Chunk(line, cols)| == |BareChunk(line, cols)|
    ensures Chunk(line, cols)[i] == BareChunk(line, cols)[i]
  {
    hide BareChunk, MarkEach;
  }

  lemma LastRowMarks(line: Logical, cols: nat, k: nat)
    requires cols >= 1 && Even(line.cells, cols) && Apart(line.extras) && Spacious(line, cols) && k < cols
    ensures |Chunk(line, cols)| == |BareChunk(line, cols)|
    ensures var i := |Chunk(line, cols)| - 1;
            Ids(E.On(Chunk(line, cols)[i].extras, k))
            == Ids(E.On(BareChunk(line, cols)[i].extras, k))
               + if k == cols - 1 then Past(line.marks, Room(|line.cells|, cols)) else []
  {
    hide BareChunk, CutAt, Even, Apart, E.On, Ids, IdsOf, Past, AllIds, Among, HangsFrom, Room, Chunk, RowStart;
    ChunkSeen(line, cols);
    var n, bare := |Chunk(line, cols)|, BareChunk(line, cols);
    var begin, end := EvenRow(line, cols, n - 1);
    LastRowHangs(line, cols, k);
    RowCount(bare[n - 1], line, begin, cols, true);
    if Past(line.marks, end) == [] {
      NothingHangs(line, cols);
      assert Ids(E.On(bare[n - 1].extras, k)) + [] == Ids(E.On(bare[n - 1].extras, k));
    }
  }

  lemma NothingHangs(line: Logical, cols: nat)
    requires Past(line.marks, HangsFrom(line, cols)) == []
    ensures Chunk(line, cols) == BareChunk(line, cols)
  {
    var bare := BareChunk(line, cols);
    NoneHung(bare[|bare| - 1], Saturate(|bare[|bare| - 1].cells| - 1), line.marks, HangsFrom(line, cols));
  }

  lemma NoneHung(row: Row, col: nat, ms: seq<MarkAt>, from: nat)
    requires Past(ms, from) == []
    ensures MarkEach(row, col, ms, from) == row
    decreases |ms|
  {
    if ms != [] {
      NoneHung(row, col, ms[1..], from);
    }
  }

  // ----- all the lines -----

  /** The offset in its line of a place among lines laid out from `p`, the first of which may have begun before it. */
  function Along(p: Pos, at: Pos): int {
    if at.line == p.line then at.offset - p.offset else at.offset
  }

  ghost predicate Inside(lines: seq<Logical>, p: Pos, at: Pos) {
    p.line <= at.line < p.line + |lines| && 0 <= Along(p, at)
  }

  /** What lines leave at a place once they are cut. */
  ghost predicate CutLeaves(lines: seq<Logical>, cols: nat, p: Pos, at: Pos, ids: seq<nat>)
    requires cols >= 1
  {
    if !Inside(lines, p, at) then ids == []
    else
      var line := lines[at.line - p.line];
      && (Along(p, at) >= Room(|line.cells|, cols) ==> ids == [])
      && (Spacious(line, cols) ==> ids == CutIds(line, cols, Along(p, at)))
  }

  lemma ShownConcat(a: seq<Row>, b: seq<Row>)
    ensures ShownAll(a + b) == ShownAll(a) + ShownAll(b)
  {
  }

  lemma FlowOneMore(lines: seq<Logical>, cols: nat)
    requires lines != []
    ensures var n := |lines| - 1; Flow(lines, cols) == Flow(lines[..n], cols) + Chunk(lines[n], cols)
  {
    var n := |lines| - 1;
    assert Chunks(lines, cols)[..n] == Chunks(lines[..n], cols);
  }

  lemma {:induction false} FlowMarks(lines: seq<Logical>, cols: nat, p: Pos, at: Pos)
    requires cols >= 1 && EvenLines(lines, cols) && AllApart(lines)
    ensures After(ShownAll(Flow(lines, cols)), p) == if lines == [] then p else Pos(p.line + |lines|, 0)
    ensures CutLeaves(lines, cols, p, at, IdsFrom(ShownAll(Flow(lines, cols)), p, at))
  {
    hide Chunk, Even, Apart, Spacious, CutIds, Room, Flow, ShownAll, CutLeaves, IdsFrom, After;
    if lines == [] {
      NothingFlows(cols, p, at);
    } else {
      var n := |lines| - 1;
      var above, last := ShownAll(Flow(lines[..n], cols)), ShownAll(Chunk(lines[n], cols));
      FlowMarks(lines[..n], cols, p, at);
      FlowOneMore(lines, cols);
      ShownConcat(Flow(lines[..n], cols), Chunk(lines[n], cols));
      var q := After(above, p);
      LineMarks(lines[n], cols, q, at);
      AfterConcat(above, last, p);
      IdsFromConcat(above, last, p, at);
      CutLeavesMore(lines, cols, p, at, IdsFrom(above, p, at), IdsFrom(last, q, at));
    }
  }

  lemma CutLeavesMore(lines: seq<Logical>, cols: nat, p: Pos, at: Pos, above: seq<nat>, last: seq<nat>)
    requires cols >= 1 && lines != [] && CutLeaves(lines[..|lines| - 1], cols, p, at, above)
    requires var (n, line) := (|lines| - 1, lines[|lines| - 1]);
             var q := if n == 0 then p else Pos(p.line + n, 0);
             && (!(at.line == q.line && q.offset <= at.offset < q.offset + Room(|line.cells|, cols)) ==> last == [])
             && (Spacious(line, cols) && at.line == q.line && q.offset <= at.offset ==>
                   last == CutIds(line, cols, at.offset - q.offset))
    ensures CutLeaves(lines, cols, p, at, above + last)
  {
    hide Spacious, CutIds, Room;
    assert above + [] == above && [] + last == last;
  }

  lemma NothingFlows(cols: nat, p: Pos, at: Pos)
    requires cols >= 1
    ensures var ss := ShownAll(Flow([], cols)); After(ss, p) == p && CutLeaves([], cols, p, at, IdsFrom(ss, p, at))
  {
    assert ShownAll(Flow([], cols)) == [];
  }

  // ----- the seam -----

  lemma DroppedIds(ms: seq<MarkAt>, n: nat, at: nat)
    ensures IdsOf(DropMarks(ms, n), at) == IdsOf(ms, n + at)
    ensures Past(DropMarks(ms, n), at) == Past(ms, n + at)
  {
  }

  lemma DroppedApart(es: seq<Entry>, n: nat)
    requires Apart(es)
    ensures Apart(DropFront(es, n))
  {
    if es != [] {
      assert es[0] in es;
      DroppedApart(es[1..], n);
    }
  }

  lemma DepartedIds(row: Row, col: nat)
    ensures IdsOf(Depart(row).marks, col) == Ids(E.On(row.extras, col))
  {
    hide LineLen, CutOff, Drawn;
    MarksAreIds(row.extras, col);
  }

  lemma DepartedStrip(row: Row, p: Pos)
    requires LineLen(row) <= |row.cells|
    ensures Next(p, Left(Depart(row))) == Next(p, Shown(row))
    ensures forall k: nat :: StripIds(Left(Depart(row)), k) == StripIds(Shown(row), k)
  {
    hide CutOff, Drawn;
    forall k: nat ensures StripIds(Left(Depart(row)), k) == StripIds(Shown(row), k) {
      DepartedIds(row, k);
    }
  }

  /** How many cells of the first line complete the visual row that is already out. */
  function SeamSplit(lines: seq<Logical>, head: nat, cols: nat): nat
    requires cols >= 1
  {
    if head % cols == 0 || lines == [] then 0
    else if cols - head % cols < |lines[0].cells| then cols - head % cols else |lines[0].cells|
  }

  /** The first line is out for good. */
  predicate SeamEndsLine(lines: seq<Logical>, head: nat, cols: nat)
    requires cols >= 1
  {
    head % cols != 0 && lines != [] && |lines[0].cells| <= cols - head % cols
  }

  /** The marks the seam hands over: those on the cells it hands over, at the offsets they had. */
  lemma SeamMarks(lines: seq<Logical>, head: nat, cols: nat, cursorLine: nat, cursorOffset: nat, at: Pos)
    requires cols >= 1 && AllApart(lines)
    ensures var (s, split) := (Realign(lines, head, cols, cursorLine, cursorOffset), SeamSplit(lines, head, cols));
            var ends := SeamEndsLine(lines, head, cols);
            && IdsFrom(LeftAll(s.handed), TOP, at)
               == (if lines != [] && at.line == 0 && at.offset < split then IdsOf(lines[0].marks, at.offset) else [])
            && After(LeftAll(s.handed), TOP) == (if ends then Pos(1, 0) else Pos(0, split))
            && AllApart(s.lines)
            && (ends ==> s.lines == lines[1..])
            && (!ends && split == 0 ==> s.lines == lines)
            && (!ends && split > 0 ==> s.lines == lines[0 := AfterFront(lines[0], split)])
  {
    hide RowOf, Apart, IdsOf, E.On, Ids, AfterFront, IdsFrom, After, Depart;
    var s, split := Realign(lines, head, cols, cursorLine, cursorOffset), SeamSplit(lines, head, cols);
    if head % cols == 0 || lines == [] {
      assert LeftAll(s.handed) == [];
      NothingLeft(at);
    } else {
      var ends := SeamEndsLine(lines, head, cols);
      HandedMarks(lines[0], split, !ends, at);
      assert s.handed == [Depart(RowOf(lines[0], 0, split, split, !ends))];
      assert LeftAll(s.handed) == [Left(s.handed[0])];
      FrontApart(lines[0], split);
    }
  }

  lemma NothingLeft(at: Pos)
    ensures IdsFrom([], TOP, at) == [] && After([], TOP) == TOP
  {
  }

  lemma HandedMarks(line: Logical, split: nat, wrapped: bool, at: Pos)
    requires split <= |line.cells| && Apart(line.extras)
    ensures var ss := [Left(Depart(RowOf(line, 0, split, split, wrapped)))];
            && IdsFrom(ss, TOP, at) == (if at.line == 0 && at.offset < split then IdsOf(line.marks, at.offset) else [])
            && After(ss, TOP) == if wrapped then Pos(0, split) else Pos(1, 0)
  {
    hide RowOf, Apart, IdsOf, E.On, Ids, Depart;
    var row := RowOf(line, 0, split, split, wrapped);
    HandedLength(line, split, wrapped);
    DepartedStrip(row, TOP);
    RowMarks(line, 0, split, split, wrapped, at.offset);
    assert [Left(Depart(row))] == [Left(Depart(row))] + [];
    IdsFromCons(Left(Depart(row)), [], TOP, at);
  }

  lemma FrontApart(line: Logical, split: nat)
    requires split <= |line.cells| && Apart(line.extras)
    ensures Apart(AfterFront(line, split).extras)
  {
    DroppedApart(line.extras, split);
  }

  lemma HandedLength(line: Logical, split: nat, wrapped: bool)
    requires split <= |line.cells|
    ensures var row := RowOf(line, 0, split, split, wrapped);
            |row.cells| == split && row.wrapped == wrapped && LineLen(row) <= split
  {
    RowOfOk(line, 0, split, split, wrapped);
    LineTrims(RowOf(line, 0, split, split, wrapped), split);
  }

  // ----- the new grid -----

  lemma {:induction false} LeftLikeShown(rows: seq<Row>, cols: nat, p: Pos, at: Pos)
    requires RowsOk(rows, cols) && RowsSorted(rows)
    ensures After(LeftAll(DepartAll(rows)), p) == After(ShownAll(rows), p)
    ensures IdsFrom(LeftAll(DepartAll(rows)), p, at) == IdsFrom(ShownAll(rows), p, at)
    decreases |rows|
  {
    hide Depart, StripIds, Next, LineLen, InRange, Sorted;
    if rows == [] {
      assert LeftAll(DepartAll(rows)) == [] && ShownAll(rows) == [];
    } else {
      var rest := rows[1..];
      LineTrims(rows[0], cols);
      DepartedStrip(rows[0], p);
      LeftLikeShown(rest, cols, Next(p, Shown(rows[0])), at);
      assert LeftAll(DepartAll(rows)) == [Left(Depart(rows[0]))] + LeftAll(DepartAll(rest));
      assert ShownAll(rows) == [Shown(rows[0])] + ShownAll(rest);
      IdsFromCons(Left(Depart(rows[0])), LeftAll(DepartAll(rest)), p, at);
      IdsFromCons(Shown(rows[0]), ShownAll(rest), p, at);
    }
  }

  lemma {:induction false} BlankRowsMark(n: nat, cols: nat, p: Pos, at: Pos)
    ensures IdsFrom(ShownAll(seq(n, _ => NewRow(cols))), p, at) == []
    decreases n
  {
    if n > 0 {
      var row := NewRow(cols);
      assert ShownAll(seq(n, _ => NewRow(cols))) == [Shown(row)] + ShownAll(seq(n - 1, _ => NewRow(cols)));
      IdsFromCons(Shown(row), ShownAll(seq(n - 1, _ => NewRow(cols))), p, at);
      BlankRowsMark(n - 1, cols, Next(p, Shown(row)), at);
      assert StripIds(Shown(row), 0) == [];
      forall k: nat ensures StripIds(Shown(row), k) == [] {
        assert E.On([], k) == [];
      }
    }
  }

  /** Rows that leave the top keep their marks, and blank ones below bring none. */
  lemma RefillMarks(g: Grid, flow: seq<Row>, head: nat, placed: Cursor, rows: nat, cols: nat, p: Pos, at: Pos)
    requires rows >= 1 && cols >= 1 && placed.col < cols && RowsOk(flow, cols) && RowsSorted(flow)
    ensures var (h, ev) := Refill(g, flow, head, placed, rows, cols);
            IdsFrom(LeftAll(ev) + ShownAll(h.rows), p, at) == IdsFrom(ShownAll(flow), p, at)
  {
    hide Depart, StripIds, Next, IdsFrom, After, RowOk, Sorted, CarryOf, DefaultTabs, NewRow;
    var overflow := Saturate(|flow| - rows);
    var (h, ev) := Refill(g, flow, head, placed, rows, cols);
    var gone, kept, pad := flow[..overflow], flow[overflow..], seq(Saturate(rows - |flow|), _ => NewRow(cols));
    assert h.rows == kept + pad;
    ShownConcat(kept, pad);
    LeftLikeShown(gone, cols, p, at);
    IdsFromConcat(LeftAll(ev), ShownAll(h.rows), p, at);
    IdsFromConcat(ShownAll(kept), ShownAll(pad), After(ShownAll(gone), p), at);
    BlankRowsMark(Saturate(rows - |flow|), cols, After(ShownAll(kept), After(ShownAll(gone), p)), at);
    assert flow == gone + kept;
    ShownConcat(gone, kept);
    IdsFromConcat(ShownAll(gone), ShownAll(kept), p, at);
  }

  lemma LeftConcat(a: Evicted, b: Evicted)
    ensures LeftAll(a + b) == LeftAll(a) + LeftAll(b)
  {
  }

  /** The marks read off what departed in a rewrap and off the grid it leaves. */
  function MarksAfter(g: Grid, rows: nat, cols: nat, at: Pos): seq<nat>
    requires Shape(g) && rows >= 1 && cols >= 1
  {
    var (h, ev) := Rewrap(g, rows, cols);
    IdsFrom(LeftAll(ev) + ShownAll(h.rows), TOP, at)
  }

  /** The marks read off the rows in use. */
  function MarksBefore(g: Grid, at: Pos): seq<nat>
    requires Shape(g)
  {
    IdsFrom(ShownAll(g.rows[..Used(g)]), TOP, at)
  }

  lemma AfterIs(g: Grid, rows: nat, cols: nat, at: Pos)
    requires Wf(g) && rows >= 1 && cols >= 1
    ensures var s := Reseam(g, cols);
            MarksAfter(g, rows, cols, at)
            == IdsFrom(LeftAll(s.handed), TOP, at)
                + IdsFrom(ShownAll(Flow(s.lines, cols)), After(LeftAll(s.handed), TOP), at)
  {
    hide Refill, Reseam, Flow, PlacedCursor, IdsFrom, After;
    var s := Reseam(g, cols);
    var flow, placed := Flow(s.lines, cols), PlacedCursor(s, cols);
    FlowOk(s.lines, cols);
    var (h, ev) := Refill(g, flow, s.head, placed, rows, cols);
    var p := After(LeftAll(s.handed), TOP);
    RefillMarks(g, flow, s.head, placed, rows, cols, p, at);
    LeftConcat(s.handed, ev);
    assert (LeftAll(s.handed) + LeftAll(ev)) + ShownAll(h.rows) == LeftAll(s.handed) + (LeftAll(ev) + ShownAll(h.rows));
    IdsFromConcat(LeftAll(s.handed), LeftAll(ev) + ShownAll(h.rows), TOP, at);
  }

  lemma GridLinesHold(g: Grid, at: Pos)
    requires Wf(g)
    ensures LinesIds(GridLines(g), at) == MarksBefore(g, at) && AllApart(GridLines(g))
  {
    hide AssembleTo, LinePos, IdsFrom, Apart, After;
    AssembledMarks(g.rows, Used(g));
    AssembledApart(g.rows, Used(g));
    var base := AssembleTo(g.rows, Used(g)).0;
    var (line, offset) := LinePos(g.rows, g.cursor.row, g.cursor.col, g.cursor.wrapPending);
    if line < |base| {
      PadKeepsMarks(base[line], offset);
    }
  }

  lemma PadKeepsMarks(line: Logical, len: nat)
    ensures PadLine(line, len).marks == line.marks && PadLine(line, len).extras == line.extras
  {
  }

  // ----- the main results -----

  /** How far the rows of a line come to reach: the columns handed over at the seam, if the line is the top one, and
      those of the rows it is cut into, unless it ended at the seam. */
  function Reach(g: Grid, cols: nat, line: nat): nat
    requires Shape(g) && cols >= 1 && line < |GridLines(g)|
  {
    var lines := GridLines(g);
    var split := if line == 0 then SeamSplit(lines, Head(g), cols) else 0;
    if line == 0 && SeamEndsLine(lines, Head(g), cols) then split
    else split + Room(|lines[line].cells| - split, cols)
  }

  /** The line ended at the seam: its marks past that are on no row any more. */
  predicate OverAtSeam(g: Grid, cols: nat, line: nat)
    requires Shape(g) && cols >= 1
  {
    line == 0 && SeamEndsLine(GridLines(g), Head(g), cols)
  }

  /** The last row of a line has room for the marks past its end. */
  predicate RoomForMarks(g: Grid, cols: nat, line: nat)
    requires Shape(g) && cols >= 1 && line < |GridLines(g)|
  {
    var (marks, end) := (GridLines(g)[line].marks, Reach(g, cols, line));
    Past(marks, end) == [] || (end >= cols && Among(marks, end - cols, end) + |Past(marks, end)| <= 8)
  }

  lemma DroppedAmong(ms: seq<MarkAt>, n: nat, lo: nat, hi: nat)
    ensures Among(DropMarks(ms, n), lo, hi) == Among(ms, n + lo, n + hi)
  {
  }

  lemma RoomAtLeast(n: nat, cols: nat)
    requires cols >= 1
    ensures Room(n, cols) >= cols && Room(n, cols) >= n
  {
  }

  /** What is left of the top line at the seam has the marks it had, that much nearer its start. */
  lemma FrontCutIds(line: Logical, split: nat, cols: nat, o: nat)
    requires cols >= 1 && split <= |line.cells|
    ensures var (rest, end) := (AfterFront(line, split), split + Room(|line.cells| - split, cols));
            && CutIds(rest, cols, o)
               == (if split + o >= end then []
                   else IdsOf(line.marks, split + o) + if split + o == end - 1 then Past(line.marks, end) else [])
            && Spacious(rest, cols)
               == (Past(line.marks, end) == [] || Among(line.marks, end - cols, end) + |Past(line.marks, end)| <= 8)
  {
    hide Room, IdsOf, Past, Among;
    var end := Room(|line.cells| - split, cols);
    RoomAtLeast(|line.cells| - split, cols);
    DroppedIds(line.marks, split, o);
    DroppedIds(line.marks, split, end);
    DroppedAmong(line.marks, split, end - cols, end);
  }

  /** The marks of a line at an offset once `split` columns of it have been handed over and the rest has been cut. */
  ghost predicate Lands(line: Logical, split: nat, ends: bool, cols: nat, offset: nat, ids: seq<nat>)
    requires cols >= 1 && split <= |line.cells|
  {
    var end := if ends then split else split + Room(|line.cells| - split, cols);
    && (offset >= end ==> ids == [])
    && (offset < end && ends ==> ids == IdsOf(line.marks, offset))
    && (offset < end && !ends
          && (Past(line.marks, end) == []
              || (end >= cols && Among(line.marks, end - cols, end) + |Past(line.marks, end)| <= 8)) ==>
          ids == IdsOf(line.marks, offset) + if offset == end - 1 then Past(line.marks, end) else [])
  }

  lemma TopLands(lines: seq<Logical>, rest: seq<Logical>, split: nat, ends: bool, cols: nat, at: Pos,
                 handed: seq<nat>, flow: seq<nat>)
    requires cols >= 1 && lines != [] && split <= |lines[0].cells| && at.line == 0
    requires handed == if at.offset < split then IdsOf(lines[0].marks, at.offset) else []
    requires if ends then rest == lines[1..] else if split == 0 then rest == lines
             else rest == lines[0 := AfterFront(lines[0], split)]
    requires CutLeaves(rest, cols, if ends then Pos(1, 0) else Pos(0, split), at, flow)
    ensures Lands(lines[0], split, ends, cols, at.offset, handed + flow)
  {
    hide IdsOf, Past, Among, AfterFront, CutIds, Spacious, Room;
    assert handed + [] == handed && [] + flow == flow;
    if !ends && split <= at.offset {
      FrontCutIds(lines[0], split, cols, at.offset - split);
      RoomAtLeast(|lines[0].cells| - split, cols);
      if split == 0 {
        FrontIsAll(lines[0], cols, at.offset);
      } else {
        FrontCells(lines[0], split);
      }
    } else if !ends {
      RoomAtLeast(|lines[0].cells| - split, cols);
      assert IdsOf(lines[0].marks, at.offset) + [] == IdsOf(lines[0].marks, at.offset);
    }
  }

  lemma FrontCells(line: Logical, split: nat)
    requires split <= |line.cells|
    ensures |AfterFront(line, split).cells| == |line.cells| - split
  {
  }

  lemma FrontIsAll(line: Logical, cols: nat, o: nat)
    requires cols >= 1
    ensures CutIds(AfterFront(line, 0), cols, o) == CutIds(line, cols, o)
    ensures Spacious(AfterFront(line, 0), cols) == Spacious(line, cols)
  {
    hide Room, IdsOf, Past, Among;
    var end := Room(|line.cells|, cols);
    RoomAtLeast(|line.cells|, cols);
    DroppedIds(line.marks, 0, o);
    DroppedIds(line.marks, 0, end);
    DroppedAmong(line.marks, 0, end - cols, end);
  }

  lemma LowerLands(lines: seq<Logical>, rest: seq<Logical>, split: nat, ends: bool, cols: nat, at: Pos, flow: seq<nat>)
    requires cols >= 1 && lines != [] && split <= |lines[0].cells| && at.line > 0
    requires if ends then rest == lines[1..] else if split == 0 then rest == lines
             else rest == lines[0 := AfterFront(lines[0], split)]
    requires CutLeaves(rest, cols, if ends then Pos(1, 0) else Pos(0, split), at, flow)
    ensures at.line >= |lines| ==> flow == []
    ensures at.line < |lines| ==> Lands(lines[at.line], 0, false, cols, at.offset, flow)
  {
    hide IdsOf, Past, Among, AfterFront, Room;
    if at.line < |lines| {
      var line := lines[at.line];
      assert (if ends then rest[at.line - 1] else rest[at.line]) == line;
      RoomAtLeast(|line.cells|, cols);
      assert IdsOf(line.marks, at.offset) + [] == IdsOf(line.marks, at.offset);
    }
  }

  lemma ReseamLands(g: Grid, cols: nat, at: Pos)
    requires Wf(g) && cols >= 1 && CutsCleanly(g, cols)
    ensures var (s, lines) := (Reseam(g, cols), GridLines(g));
            var (split, ends) := (SeamSplit(lines, Head(g), cols), SeamEndsLine(lines, Head(g), cols));
            var ids := IdsFrom(LeftAll(s.handed), TOP, at)
                       + IdsFrom(ShownAll(Flow(s.lines, cols)), After(LeftAll(s.handed), TOP), at);
            && (at.line >= |lines| ==> ids == [])
            && (at.line == 0 ==> Lands(lines[0], split, ends, cols, at.offset, ids))
            && (0 < at.line < |lines| ==> Lands(lines[at.line], 0, false, cols, at.offset, ids))
  {
    hide GridLines, LinePos, Realign, IdsFrom, After, Apart, Even, Flow, CutLeaves, IdsOf, AfterFront, Lands;
    var (line, offset) := LinePos(g.rows, g.cursor.row, g.cursor.col, g.cursor.wrapPending);
    var lines, s := GridLines(g), Reseam(g, cols);
    var split, ends := SeamSplit(lines, Head(g), cols), SeamEndsLine(lines, Head(g), cols);
    GridLinesHold(g, at);
    SeamMarks(lines, Head(g), cols, line, offset, at);
    var p := After(LeftAll(s.handed), TOP);
    FlowMarks(s.lines, cols, p, at);
    var flow := IdsFrom(ShownAll(Flow(s.lines, cols)), p, at);
    if at.line == 0 {
      TopLands(lines, s.lines, split, ends, cols, at, IdsFrom(LeftAll(s.handed), TOP, at), flow);
    } else {
      LowerLands(lines, s.lines, split, ends, cols, at, flow);
      assert [] + flow == flow;
    }
  }

  /** Where marks go in a rewrap that splits no character. Nothing has a place past the reach of its line. Short of
      that every place has the marks it had, and the last of them also those from past it, as long as its row has
      room for them; but a line that ended at the seam only leaves those behind. */
  lemma RewrapMarks(g: Grid, rows: nat, cols: nat, at: Pos)
    requires Wf(g) && rows >= 1 && cols >= 1 && CutsCleanly(g, cols)
    ensures var (lines, was, now) := (GridLines(g), MarksBefore(g, at), MarksAfter(g, rows, cols, at));
            && (at.line >= |lines| ==> now == [] && was == [])
            && (at.line < |lines| ==>
                  var end := Reach(g, cols, at.line);
                  && (at.offset >= end ==> now == [])
                  && (at.offset < end && OverAtSeam(g, cols, at.line) ==> now == was)
                  && (at.offset < end && !OverAtSeam(g, cols, at.line) && RoomForMarks(g, cols, at.line) ==>
                        now == was + if at.offset == end - 1 then Past(lines[at.line].marks, end) else []))
  {
    hide GridLines, Reseam, IdsFrom, After, IdsOf, Past, Among, CutsCleanly, MarksAfter, MarksBefore, Lands, Reach,
         OverAtSeam, RoomForMarks, SeamSplit, SeamEndsLine;
    var lines := GridLines(g);
    AfterIs(g, rows, cols, at);
    GridLinesHold(g, at);
    ReseamLands(g, cols, at);
    if at.line < |lines| {
      var split, ends := SeamSplit(lines, Head(g), cols), SeamEndsLine(lines, Head(g), cols);
      SeamSplitFits(lines, Head(g), cols);
      LandsInReach(g, cols, at, if at.line == 0 then split else 0, at.line == 0 && ends, MarksAfter(g, rows, cols, at));
      assert LinesIds(lines, at) == IdsOf(lines[at.line].marks, at.offset);
    }
  }

  lemma LandsInReach(g: Grid, cols: nat, at: Pos, split: nat, ends: bool, ids: seq<nat>)
    requires Shape(g) && cols >= 1 && at.line < |GridLines(g)| && split <= |GridLines(g)[at.line].cells|
    requires split == if at.line == 0 then SeamSplit(GridLines(g), Head(g), cols) else 0
    requires ends == (at.line == 0 && SeamEndsLine(GridLines(g), Head(g), cols))
    requires Lands(GridLines(g)[at.line], split, ends, cols, at.offset, ids)
    ensures var (line, end) := (GridLines(g)[at.line], Reach(g, cols, at.line));
            && (at.offset >= end ==> ids == [])
            && (at.offset < end && OverAtSeam(g, cols, at.line) ==> ids == IdsOf(line.marks, at.offset))
            && (at.offset < end && !OverAtSeam(g, cols, at.line) && RoomForMarks(g, cols, at.line) ==>
                  ids == IdsOf(line.marks, at.offset) + if at.offset == end - 1 then Past(line.marks, end) else [])
  {
    hide GridLines, IdsOf, Past, Among, SeamSplit, SeamEndsLine, Room;
  }

  lemma SeamSplitFits(lines: seq<Logical>, head: nat, cols: nat)
    requires cols >= 1
    ensures lines != [] ==> SeamSplit(lines, head, cols) <= |lines[0].cells|
  {
  }

  lemma SomeThere(ms: seq<MarkAt>)
    requires ms != []
    ensures IdsOf(ms, ms[0].at) != []
  {
  }

  lemma NoneAfter(ms: seq<MarkAt>, from: nat)
    requires forall o: nat :: o >= from ==> IdsOf(ms, o) == []
    ensures Past(ms, from) == []
  {
    if ms != [] {
      SomeThere(ms);
      forall o: nat | o >= from ensures IdsOf(ms[1..], o) == [] {
        assert IdsOf(ms, o) == [];
      }
      NoneAfter(ms[1..], from);
    }
  }

  /** Every mark keeps its place in the text, in a rewrap that splits no character, exactly when none stands past the
      reach of its line. */
  lemma RewrapKeepsMarksIff(g: Grid, rows: nat, cols: nat)
    requires Wf(g) && rows >= 1 && cols >= 1 && CutsCleanly(g, cols)
    ensures (forall at: Pos :: MarksAfter(g, rows, cols, at) == MarksBefore(g, at))
            <==> (forall at: Pos :: at.line < |GridLines(g)| && at.offset >= Reach(g, cols, at.line) ==>
                    MarksBefore(g, at) == [])
  {
    hide GridLines, MarksAfter, MarksBefore, CutsCleanly, Reach, Past, Among, IdsOf, OverAtSeam;
    if forall at: Pos :: MarksAfter(g, rows, cols, at) == MarksBefore(g, at) {
      forall at: Pos | at.line < |GridLines(g)| && at.offset >= Reach(g, cols, at.line)
        ensures MarksBefore(g, at) == []
      {
        RewrapMarks(g, rows, cols, at);
      }
    }
    if forall at: Pos :: at.line < |GridLines(g)| && at.offset >= Reach(g, cols, at.line) ==> MarksBefore(g, at) == [] {
      forall at: Pos ensures MarksAfter(g, rows, cols, at) == MarksBefore(g, at) {
        RewrapMarks(g, rows, cols, at);
        if at.line < |GridLines(g)| {
          NoneStandsPast(g, cols, at.line);
          assert MarksBefore(g, at) + [] == MarksBefore(g, at);
        }
      }
    }
  }

  lemma NoneStandsPast(g: Grid, cols: nat, line: nat)
    requires Wf(g) && cols >= 1 && line < |GridLines(g)|
    requires forall at: Pos :: at.line < |GridLines(g)| && at.offset >= Reach(g, cols, at.line) ==>
                MarksBefore(g, at) == []
    ensures Past(GridLines(g)[line].marks, Reach(g, cols, line)) == []
  {
    hide GridLines, MarksBefore, Reach, Past, IdsOf;
    var ms, end := GridLines(g)[line].marks, Reach(g, cols, line);
    forall o: nat | o >= end ensures IdsOf(ms, o) == [] {
      GridLinesHold(g, Pos(line, o));
      assert MarksBefore(g, Pos(line, o)) == [];
    }
    NoneAfter(ms, end);
  }

  // ----- what a split character costs -----

  /** A mark on the column a wide character left blank is read twice: there, and where the character went. */
  lemma PaddedMarkIsDoubled()
    ensures var line := Logical([Cell('a', PLAIN), Cell('W', PLAIN), Cell(CONTINUATION, PLAIN)], [], [MarkAt(1, 7)]);
            var rows := Chunk(line, 2);
            |rows| == 2 && Ids(E.On(rows[0].extras, 1)) == [7] && Ids(E.On(BareChunk(line, 2)[1].extras, 0)) == [7]
            && rows[1] == BareChunk(line, 2)[1]
  {
    hide Chunk, BareChunk, E.On, Ids;
    var cells := [Cell('a', PLAIN), Cell('W', PLAIN), Cell(CONTINUATION, PLAIN)];
    var line := Logical(cells, [], [MarkAt(1, 7)]);
    assert CharEnd(cells, 1) == 1 && CharEnd(cells, 3) == 3 && CharEnd(cells, 2) == 3;
    assert Cuts(cells, 2, 1, 3) == ([], 1);
    assert Cuts(cells, 2, 0, 1) == ([Cut(0, 1)] + [], 1);
    assert Cuts(cells, 2, 0, 0) == Cuts(cells, 2, 0, 1) && [Cut(0, 1)] + [] == [Cut(0, 1)];
    assert Spans(cells, 2) == [Cut(0, 1), Cut(1, 3)];
    SpansAreRows(line, 2);
    EmptyApart();
    OneAt(1, 7);
    ChunkMarks(line, 2, 0, 1);
    ChunkMarks(line, 2, 1, 0);
    assert Past(line.marks, 3) == [] by { OnePast(1, 7, 3); }
    NothingHangs(line, 2);
  }

  lemma OneAt(at: nat, id: nat)
    ensures IdsOf([MarkAt(at, id)], at) == [id]
  {
    assert [MarkAt(at, id)][1..] == [];
  }

  lemma OnePast(at: nat, id: nat, from: nat)
    ensures at < from ==> Past([MarkAt(at, id)], from) == []
  {
    assert [MarkAt(at, id)][1..] == [];
  }

  /** A mark on the part of a character that no screen so narrow shows is on no row. */
  lemma DroppedMarkIsLost()
    ensures var line := Logical([Cell('W', PLAIN), Cell(CONTINUATION, PLAIN), Cell(CONTINUATION, PLAIN)], [],
                [MarkAt(2, 7)]);
            |Chunk(line, 2)| == 1 && forall k: nat :: Ids(E.On(Chunk(line, 2)[0].extras, k)) == []
  {
    hide Chunk, BareChunk, E.On, Ids;
    var cells := [Cell('W', PLAIN), Cell(CONTINUATION, PLAIN), Cell(CONTINUATION, PLAIN)];
    var line := Logical(cells, [], [MarkAt(2, 7)]);
    assert CharEnd(cells, 3) == 3 && CharEnd(cells, 2) == 3 && CharEnd(cells, 1) == 3;
    assert Cuts(cells, 2, 3, 3) == ([], 3);
    assert Cuts(cells, 2, 0, 0) == ([Cut(0, 3)] + [], 3) && [Cut(0, 3)] + [] == [Cut(0, 3)];
    assert Spans(cells, 2) == [Cut(0, 3)];
    SpansAreRows(line, 2);
    EmptyApart();
    assert Past(line.marks, 5) == [] by { OnePast(2, 7, 5); }
    NothingHangs(line, 2);
    forall k: nat ensures Ids(E.On(Chunk(line, 2)[0].extras, k)) == [] {
      ChunkMarks(line, 2, 0, k);
      if k < 2 {
        OneElsewhere(2, 7, k);
      }
    }
  }

  lemma OneElsewhere(at: nat, id: nat, k: nat)
    ensures k != at ==> IdsOf([MarkAt(at, id)], k) == []
  {
    assert [MarkAt(at, id)][1..] == [];
  }
}
