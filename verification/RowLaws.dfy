/** What the row writers keep: the row's width, its attachments inside it and in column
    order, and honest answers to "did that change anything". */
module RowLaws {
  import opened Cells

  // ----- a writer's answer is exact, but that a row with attachments always answers yes -----

  lemma SetAnswers(row: Row, col: nat, cell: Cell)
    ensures Set(row, col, cell).1 <==> Set(row, col, cell).0 != row || (row.extras != [] && col < |row.cells|)
  {
  }

  lemma FillRunAnswers(row: Row, col: nat, text: string, style: Style)
    ensures FillRun(row, col, text, style).1
       <==> FillRun(row, col, text, style).0 != row || (row.extras != [] && col <= |row.cells|)
  {
  }

  lemma FillAnswers(row: Row, lo: nat, hi: nat, style: Style)
    ensures Fill(row, lo, hi, style).1
       <==> Fill(row, lo, hi, style).0 != row || (row.extras != [] && lo < Min(hi, |row.cells|))
  {
  }

  lemma EraseAllAnswers(row: Row, style: Style)
    ensures EraseAll(row, style).1 <==> EraseAll(row, style).0 != row || row.extras != []
  {
  }

  // ----- the side table: what each edit keeps -----

  lemma PruneKeeps(es: seq<Entry>, lo: nat, hi: nat, keepMarks: bool)
    ensures forall e :: e in Prune(es, lo, hi, keepMarks) <==>
              e in es && (!(lo <= e.at < hi) || (keepMarks && e.extra.Mark?))
    ensures Sorted(es) ==> Sorted(Prune(es, lo, hi, keepMarks))
  {
    if es != [] {
      PruneKeeps(es[1..], lo, hi, keepMarks);
      assert es == [es[0]] + es[1..];
    }
  }

  lemma CutOffKeeps(es: seq<Entry>, cols: nat)
    ensures forall e :: e in CutOff(es, cols) <==> e in es && e.at < cols
    ensures Sorted(es) ==> Sorted(CutOff(es, cols))
  {
    if es != [] {
      CutOffKeeps(es[1..], cols);
      assert es == [es[0]] + es[1..];
    }
  }

  lemma PruneKindKeeps(es: seq<Entry>, col: nat, kind: Kind)
    ensures forall e :: e in PruneKind(es, col, kind) <==>
              e in es && !(e.at == col && OfKind(e.extra, kind))
    ensures Sorted(es) ==> Sorted(PruneKind(es, col, kind))
  {
    if es != [] {
      PruneKindKeeps(es[1..], col, kind);
      assert es == [es[0]] + es[1..];
    }
  }

  lemma PartitionSplits(es: seq<Entry>, col: nat, lo: nat, hi: nat)
    requires lo <= hi <= |es| && Sorted(es)
    requires forall i :: 0 <= i < lo ==> es[i].at <= col
    requires forall i :: hi <= i < |es| ==> es[i].at > col
    ensures var at := PartitionPoint(es, col, lo, hi);
            && (forall i :: 0 <= i < at ==> es[i].at <= col)
            && (forall i :: at <= i < |es| ==> es[i].at > col)
    decreases hi - lo
  {
    if lo != hi {
      var mid := (lo + hi) / 2;
      if es[mid].at <= col {
        PartitionSplits(es, col, mid + 1, hi);
      } else {
        PartitionSplits(es, col, lo, mid);
      }
    }
  }

  lemma InsertHas(es: seq<Entry>, col: nat, extra: Extra)
    ensures forall e :: e in Insert(es, col, extra) <==> e in es || e == Entry(col, extra)
  {
    var at := PartitionPoint(es, col, 0, |es|);
    var l, r := es[..at], es[at..];
    assert es == l + r;
    assert forall e :: e in es <==> e in l || e in r;
  }

  lemma InsertSorted(es: seq<Entry>, col: nat, extra: Extra)
    requires Sorted(es)
    ensures Sorted(Insert(es, col, extra))
  {
    PartitionSplits(es, col, 0, |es|);
    var at := PartitionPoint(es, col, 0, |es|);
    var r := Insert(es, col, extra);
    forall i, j | 0 <= i < j < |r| ensures r[i].at <= r[j].at {
      assert i < at ==> r[i] == es[i];
      assert j < at ==> r[j] == es[j];
      assert i > at ==> r[i] == es[i - 1];
      assert j > at ==> r[j] == es[j - 1];
    }
  }

  lemma ShiftKeepsRange(es: seq<Entry>, from: nat, move: int, cols: nat)
    requires InRange(es, cols)
    ensures InRange(Shift(es, from, move, cols), cols)
  {
    if es != [] {
      assert es[0] in es && InRange(es[1..], cols);
      ShiftKeepsRange(es[1..], from, move, cols);
    }
  }

  /** Opening a gap moves a suffix of the table right together, so order survives. */
  lemma ShiftRightSorted(es: seq<Entry>, from: nat, move: nat, cols: nat)
    requires Sorted(es)
    ensures Sorted(Shift(es, from, move, cols))
    ensures forall e :: e in Shift(es, from, move, cols) && es != [] ==>
              e.at >= es[0].at && (es[0].at >= from ==> e.at >= es[0].at + move)
  {
    if es != [] {
      ShiftRightSorted(es[1..], from, move, cols);
    }
  }

  // ----- DCH: deleting columns -----

  /** The table `DeleteCells` leaves: marks in the span stay, what is right of it closes up. */
  function DeletedTable(es: seq<Entry>, col: nat, gone: nat, cols: nat): seq<Entry> {
    Shift(Prune(es, col, col + gone, true), col + gone, -(gone as int), cols)
  }

  /** A mark inside the deleted span that some later entry would be moved left past. */
  ghost predicate Overtaken(es: seq<Entry>, col: nat, gone: nat) {
    exists m, x :: m in es && x in es && m.extra.Mark? && col <= m.at < col + gone <= x.at
      && x.at - gone < m.at
  }

  lemma DeletedTableNil(col: nat, gone: nat, cols: nat)
    ensures DeletedTable([], col, gone, cols) == []
  {
  }

  lemma DeletedTableCons(es: seq<Entry>, col: nat, gone: nat, cols: nat)
    requires es != []
    ensures
      var e := es[0];
      var below := DeletedTable(es[1..], col, gone, cols);
      DeletedTable(es, col, gone, cols) ==
        if e.at < col || (e.at < col + gone && e.extra.Mark?) then [e] + below
        else if e.at < col + gone || e.at - gone >= cols then below
        else [e.(at := e.at - gone)] + below
  {
  }

  lemma DeletedTableHas(es: seq<Entry>, col: nat, gone: nat, cols: nat)
    requires InRange(es, cols)
    ensures forall x :: x in es && x.at >= col + gone ==>
              x.(at := x.at - gone) in DeletedTable(es, col, gone, cols)
    ensures forall m :: m in es && m.at < col + gone && (m.at < col || m.extra.Mark?) ==>
              m in DeletedTable(es, col, gone, cols)
    ensures InRange(DeletedTable(es, col, gone, cols), cols)
  {
    if es != [] {
      assert es == [es[0]] + es[1..];
      assert es[0] in es && InRange(es[1..], cols);
      DeletedTableHas(es[1..], col, gone, cols);
    }
  }

  /** What an entry left by a deletion was: where it stands, or as many columns to the right. */
  predicate Survived(es: seq<Entry>, col: nat, gone: nat, e: Entry) {
    || (e in es && (e.at < col || (e.at < col + gone && e.extra.Mark?)))
    || (e.at >= col && e.(at := e.at + gone) in es)
  }

  lemma DeletedEntryFrom(es: seq<Entry>, col: nat, gone: nat, cols: nat, e: Entry)
    requires e in DeletedTable(es, col, gone, cols)
    ensures Survived(es, col, gone, e)
  {
    hide DeletedTable;
    if es == [] {
      DeletedTableNil(col, gone, cols);
    } else {
      DeletedTableCons(es, col, gone, cols);
      if e in DeletedTable(es[1..], col, gone, cols) {
        DeletedEntryFrom(es[1..], col, gone, cols, e);
        assert e in es[1..] ==> e in es;
        assert e.(at := e.at + gone) in es[1..] ==> e.(at := e.at + gone) in es;
      } else {
        assert es[0] in es;
      }
    }
  }

  lemma DeletedTableFrom(es: seq<Entry>, col: nat, gone: nat, cols: nat)
    ensures forall e :: e in DeletedTable(es, col, gone, cols) ==> Survived(es, col, gone, e)
  {
    hide DeletedTable, Survived;
    forall e | e in DeletedTable(es, col, gone, cols) ensures Survived(es, col, gone, e) {
      DeletedEntryFrom(es, col, gone, cols, e);
    }
  }

  lemma SortedCons(e: Entry, rest: seq<Entry>)
    ensures Sorted([e] + rest) <==> Sorted(rest) && forall x :: x in rest ==> e.at <= x.at
  {
    var all := [e] + rest;
    if Sorted(all) {
      forall i, j | 0 <= i < j < |rest| ensures rest[i].at <= rest[j].at {
        assert all[i + 1] == rest[i] && all[j + 1] == rest[j];
      }
      forall x | x in rest ensures e.at <= x.at {
        var k :| 0 <= k < |rest| && rest[k] == x;
        assert all[0] == e && all[k + 1] == x;
      }
    }
  }

  lemma DeletedAllMove(es: seq<Entry>, col: nat, gone: nat, cols: nat)
    requires Sorted(es) && InRange(es, cols) && es != [] && es[0].at >= col + gone
    ensures Sorted(DeletedTable(es, col, gone, cols)) && !Overtaken(es, col, gone)
    ensures forall e :: e in DeletedTable(es, col, gone, cols) ==> e.at >= es[0].at - gone
  {
    hide DeletedTable;
    var rest := es[1..];
    assert es[0] in es && InRange(rest, cols);
    forall x | x in es ensures x.at >= es[0].at {}
    if rest != [] {
      DeletedAllMove(rest, col, gone, cols);
    }
    var d := DeletedTable(rest, col, gone, cols);
    DeletedTableCons(es, col, gone, cols);
    if rest == [] {
      DeletedTableNil(col, gone, cols);
    }
    SortedCons(es[0].(at := es[0].at - gone), d);
  }

  lemma OvertakenAfterHead(es: seq<Entry>, col: nat, gone: nat, cols: nat)
    requires Sorted(es) && InRange(es, cols) && es != [] && es[0].at < col + gone
    requires Overtaken(es, col, gone) && !Overtaken(es[1..], col, gone)
    ensures exists x :: x in DeletedTable(es[1..], col, gone, cols) && x.at < es[0].at
  {
    hide DeletedTable;
    var rest := es[1..];
    assert es == [es[0]] + rest;
    SortedCons(es[0], rest);
    var m, x :| m in es && x in es && m.extra.Mark? && col <= m.at < col + gone <= x.at
      && x.at - gone < m.at;
    assert x in rest && m == es[0];
    assert InRange(rest, cols);
    DeletedTableHas(rest, col, gone, cols);
  }

  lemma NotOvertaken(es: seq<Entry>, col: nat, gone: nat, cols: nat, x: Entry)
    requires Sorted(es) && es != []
    requires es[0].at < col || (es[0].at < col + gone && es[0].extra.Mark?)
    requires !Overtaken(es, col, gone)
    requires x in DeletedTable(es[1..], col, gone, cols)
    ensures es[0].at <= x.at
  {
    hide DeletedTable;
    var rest := es[1..];
    assert es == [es[0]] + rest;
    SortedCons(es[0], rest);
    DeletedTableFrom(rest, col, gone, cols);
    if x !in rest {
      assert x.(at := x.at + gone) in es && es[0] in es;
    }
  }

  lemma DeletedHeadStays(es: seq<Entry>, col: nat, gone: nat, cols: nat)
    requires Sorted(es) && InRange(es, cols) && es != []
    requires es[0].at < col || (es[0].at < col + gone && es[0].extra.Mark?)
    requires Sorted(DeletedTable(es[1..], col, gone, cols)) <==> !Overtaken(es[1..], col, gone)
    ensures Sorted(DeletedTable(es, col, gone, cols)) <==> !Overtaken(es, col, gone)
  {
    hide DeletedTable;
    var dr := DeletedTable(es[1..], col, gone, cols);
    DeletedTableCons(es, col, gone, cols);
    SortedCons(es[0], dr);
    assert es == [es[0]] + es[1..];
    if Overtaken(es, col, gone) {
      if !Overtaken(es[1..], col, gone) {
        OvertakenAfterHead(es, col, gone, cols);
      }
    } else {
      forall x | x in dr ensures es[0].at <= x.at {
        NotOvertaken(es, col, gone, cols, x);
      }
    }
  }

  /** Deleting columns keeps the table in column order exactly when no later attachment is
      moved left past a mark that the deletion spared. */
  lemma {:induction false} DeleteKeepsOrderIff(es: seq<Entry>, col: nat, gone: nat, cols: nat)
    requires Sorted(es) && InRange(es, cols)
    ensures Sorted(DeletedTable(es, col, gone, cols)) <==> !Overtaken(es, col, gone)
  {
    hide DeletedTable;
    if es == [] {
      DeletedTableNil(col, gone, cols);
    } else {
      var e, rest := es[0], es[1..];
      assert es == [e] + rest;
      assert e in es && InRange(rest, cols);
      DeleteKeepsOrderIff(rest, col, gone, cols);
      DeletedTableCons(es, col, gone, cols);
      if e.at >= col + gone {
        DeletedAllMove(es, col, gone, cols);
      } else if e.at < col || e.extra.Mark? {
        DeletedHeadStays(es, col, gone, cols);
      } else {
        OvertakenWithoutHead(es, col, gone);
      }
    }
  }

  /** Two columns deleted from the first: the mark on the second stays, and the link on the third is moved
      left past it. */
  lemma DeleteCanDisorder()
    ensures
      var es := [Entry(1, Mark(7)), Entry(2, Link(3))];
      Sorted(es) && !Sorted(DeletedTable(es, 0, 2, 3)) && DeletedTable(es, 0, 2, 3) == [Entry(1, Mark(7)), Entry(0, Link(3))]
  {
    var mark, link := Entry(1, Mark(7)), Entry(2, Link(3));
    var es := [mark, link];
    var last := [link];
    assert es[1..] == last && last[1..] == [];
    assert Prune(last, 0, 2, true) == last && Prune(es, 0, 2, true) == [mark] + last == es;
    assert Shift(last, 2, -2, 3) == [Entry(0, Link(3))] && Shift(es, 2, -2, 3) == [mark] + [Entry(0, Link(3))];
    var left := DeletedTable(es, 0, 2, 3);
    assert left[0].at > left[1].at;
  }

  /** A deleted entry that is no mark neither overtakes nor is overtaken. */
  lemma OvertakenWithoutHead(es: seq<Entry>, col: nat, gone: nat)
    requires es != [] && col <= es[0].at < col + gone && !es[0].extra.Mark?
    ensures Overtaken(es, col, gone) <==> Overtaken(es[1..], col, gone)
  {
    assert es == [es[0]] + es[1..];
  }

  // ----- every writer keeps the row inside its width, and all but DCH keep the order -----

  /** `after` is a row `cols` wide like `before`, in column order if `before` was. */
  ghost predicate Kept(before: Row, after: Row, cols: nat) {
    RowOk(after, cols) && (Sorted(before.extras) ==> Sorted(after.extras))
  }

  lemma AttachKept(row: Row, col: nat, extra: Extra, cols: nat)
    requires RowOk(row, cols) && col < cols
    ensures Kept(row, Attach(row, col, extra), cols)
  {
    InsertHas(row.extras, col, extra);
    if Sorted(row.extras) {
      InsertSorted(row.extras, col, extra);
    }
  }

  lemma SetKept(row: Row, col: nat, cell: Cell, cols: nat)
    requires RowOk(row, cols)
    ensures Kept(row, Set(row, col, cell).0, cols)
  {
    PruneKeeps(row.extras, col, col + 1, true);
  }

  lemma FillRunKept(row: Row, col: nat, text: string, style: Style, cols: nat)
    requires RowOk(row, cols)
    ensures Kept(row, FillRun(row, col, text, style).0, cols)
  {
    PruneKeeps(row.extras, col, col + RunRoom(row, col, text), true);
  }

  lemma FillKept(row: Row, lo: nat, hi: nat, style: Style, cols: nat)
    requires RowOk(row, cols)
    ensures Kept(row, Fill(row, lo, hi, style).0, cols)
  {
    PruneKeeps(row.extras, lo, Min(hi, cols), true);
  }

  lemma EraseAllKept(row: Row, style: Style, cols: nat)
    requires RowOk(row, cols)
    ensures Kept(row, EraseAll(row, style).0, cols)
  {
    PruneKeeps(row.extras, 0, cols, true);
  }

  lemma InsertBlankKept(row: Row, col: nat, count: nat, style: Style, cols: nat)
    requires RowOk(row, cols)
    ensures Kept(row, InsertBlank(row, col, count, style), cols)
  {
    if col < cols {
      ShiftKeepsRange(row.extras, col, Min(count, cols - col), cols);
      if Sorted(row.extras) {
        ShiftRightSorted(row.extras, col, Min(count, cols - col), cols);
      }
    }
  }

  lemma DeleteCellsOk(row: Row, col: nat, count: nat, style: Style, cols: nat)
    requires RowOk(row, cols)
    ensures RowOk(DeleteCells(row, col, count, style), cols)
    ensures Sorted(row.extras) ==>
              (Sorted(DeleteCells(row, col, count, style).extras)
               <==> !Overtaken(row.extras, col, count))
  {
    hide Shift, Prune, Insert;
    if col < cols {
      var gone := Min(col + count, cols) - col;
      DeletedTableHas(row.extras, col, gone, cols);
      if Sorted(row.extras) {
        DeleteKeepsOrderIff(row.extras, col, gone, cols);
        assert Overtaken(row.extras, col, gone) <==> Overtaken(row.extras, col, count);
      }
    } else {
      assert !Overtaken(row.extras, col, count);
    }
  }

  lemma SetUnderlineKept(row: Row, col: nat, color: Color, cols: nat)
    requires RowOk(row, cols)
    ensures Kept(row, SetUnderline(row, col, color), cols)
  {
    PruneKindKeeps(row.extras, col, KindUnderline);
    var pruned := row.(extras := PruneKind(row.extras, col, KindUnderline));
    if col < cols {
      AttachKept(pruned, col, Underline(color), cols);
    }
  }

  lemma SetLinkKept(row: Row, col: nat, link: Option<nat>, cols: nat)
    requires RowOk(row, cols)
    ensures Kept(row, SetLink(row, col, link), cols)
  {
    PruneKindKeeps(row.extras, col, KindLink);
    var pruned := row.(extras := PruneKind(row.extras, col, KindLink));
    if col < cols && link.Some? {
      AttachKept(pruned, col, Link(link.value), cols);
    }
  }

  lemma PlaceImageKept(row: Row, col: nat, place: Placement, style: Style, cols: nat)
    requires RowOk(row, cols)
    ensures Kept(row, PlaceImage(row, col, place, style), cols)
  {
    SetKept(row, col, BlankCell(style), cols);
    if col < cols {
      AttachKept(Set(row, col, BlankCell(style)).0, col, Image(place), cols);
    }
  }

  lemma CombineKept(row: Row, col: nat, mark: char, cols: nat)
    requires RowOk(row, cols) && col < cols
    ensures Kept(row, Combine(row, col, mark), cols)
  {
    var i := FindMarks(row.extras, col);
    if i == |row.extras| {
      AttachKept(row, col, Marks([mark]), cols);
    }
  }

  lemma RemoveKept(row: Row, i: nat, cols: nat)
    requires RowOk(row, cols) && i < |row.extras|
    ensures Kept(row, row.(extras := row.extras[..i] + row.extras[i + 1..]), cols)
  {
  }

  lemma MarkRowKept(row: Row, col: nat, id: nat, cols: nat)
    requires RowOk(row, cols)
    ensures Kept(row, MarkRow(row, col, id), cols)
  {
    hide Insert, PartitionPoint;
    if col < cols {
      AttachKept(row, col, Mark(id), cols);
      if MarkCount(row.extras) >= MARKS_PER_ROW {
        var i := OldestMark(row.extras);
        RemoveKept(row, i, cols);
        AttachKept(row.(extras := row.extras[..i] + row.extras[i + 1..]), col, Mark(id), cols);
      }
    }
  }

  // ----- a semantic mark is never drawn -----

  lemma {:induction false} DrawnConcat(a: seq<Entry>, b: seq<Entry>)
    ensures Drawn(a + b) == Drawn(a) + Drawn(b)
  {
    if a == [] {
      assert a + b == b;
    } else {
      DrawnConcat(a[1..], b);
      assert (a + b)[0] == a[0] && (a + b)[1..] == a[1..] + b;
      var head := if a[0].extra.Mark? then [] else [a[0]];
      assert head + (Drawn(a[1..]) + Drawn(b)) == head + Drawn(a[1..]) + Drawn(b);
    }
  }

  lemma DrawnInsertMark(es: seq<Entry>, col: nat, id: nat)
    ensures Drawn(Insert(es, col, Mark(id))) == Drawn(es)
  {
    var at := PartitionPoint(es, col, 0, |es|);
    DrawnConcat(es[..at], [Entry(col, Mark(id))]);
    DrawnConcat(es[..at] + [Entry(col, Mark(id))], es[at..]);
    DrawnConcat(es[..at], es[at..]);
    assert es == es[..at] + es[at..];
  }

  lemma DrawnWithoutMark(es: seq<Entry>, i: nat, col: nat, id: nat)
    requires i < |es| && es[i].extra.Mark?
    ensures Drawn(es[..i] + es[i + 1..]) == Drawn(es)
    ensures Drawn(es[i := Entry(col, Mark(id))]) == Drawn(es)
  {
    assert es == es[..i] + ([es[i]] + es[i + 1..]);
    assert es[i := Entry(col, Mark(id))] == es[..i] + ([Entry(col, Mark(id))] + es[i + 1..]);
    DrawnConcat(es[..i], [es[i]] + es[i + 1..]);
    DrawnConcat(es[..i], es[i + 1..]);
    DrawnConcat(es[..i], [Entry(col, Mark(id))] + es[i + 1..]);
  }

  /** Marking a row changes nothing the renderer sees, which is why it damages nothing. */
  lemma MarkUnseen(row: Row, col: nat, id: nat)
    ensures Seen(MarkRow(row, col, id)) == Seen(row)
  {
    hide Insert, Drawn, OldestMark;
    if col < |row.cells| {
      DrawnInsertMark(row.extras, col, id);
      if MarkCount(row.extras) >= MARKS_PER_ROW {
        var i := OldestMark(row.extras);
        DrawnWithoutMark(row.extras, i, col, id);
        DrawnInsertMark(row.extras[..i] + row.extras[i + 1..], col, id);
      }
    }
  }
}
