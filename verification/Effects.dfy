/** What each operation leaves where, column by column: a column holds a cell and the attachments that stand
    on it, semantic marks included, in the order they were attached. */
module Effects {
  import opened Cells
  import opened RowLaws
  import opened Grid

  /** The attachments on column `k`, in table order. */
  function On(es: seq<Entry>, k: nat): seq<Extra> {
    if es == [] then []
    else if es[0].at == k then [es[0].extra] + On(es[1..], k)
    else On(es[1..], k)
  }

  function OnlyMarks(xs: seq<Extra>): seq<Extra> {
    if xs == [] then []
    else if xs[0].Mark? then [xs[0]] + OnlyMarks(xs[1..])
    else OnlyMarks(xs[1..])
  }

  datatype Column = Column(cell: Cell, extras: seq<Extra>)

  function At(row: Row, k: nat): Column
    requires k < |row.cells|
  {
    Column(row.cells[k], On(row.extras, k))
  }

  // ----- the table's edits -----

  lemma OnPrune(es: seq<Entry>, lo: nat, hi: nat, keepMarks: bool, k: nat)
    ensures On(Prune(es, lo, hi, keepMarks), k)
            == if !(lo <= k < hi) then On(es, k) else if keepMarks then OnlyMarks(On(es, k)) else []
  {
    if es != [] {
      OnPrune(es[1..], lo, hi, keepMarks, k);
      var rest := Prune(es[1..], lo, hi, keepMarks);
      assert ([es[0]] + rest)[1..] == rest;
      assert On(es, k) == (if es[0].at == k then [es[0].extra] else []) + On(es[1..], k);
    }
  }

  lemma OnCutOff(es: seq<Entry>, cols: nat, k: nat)
    ensures On(CutOff(es, cols), k) == if k < cols then On(es, k) else []
  {
  }

  lemma OnConcat(a: seq<Entry>, b: seq<Entry>, k: nat)
    ensures On(a + b, k) == On(a, k) + On(b, k)
  {
    if a == [] {
      assert a + b == b;
    } else {
      OnConcat(a[1..], b, k);
      assert (a + b)[0] == a[0] && (a + b)[1..] == a[1..] + b;
    }
  }

  lemma OnOutside(es: seq<Entry>, k: nat)
    requires forall i :: 0 <= i < |es| ==> es[i].at != k
    ensures On(es, k) == []
  {
    if es != [] {
      assert forall i :: 0 <= i < |es[1..]| ==> es[1..][i] == es[i + 1];
      OnOutside(es[1..], k);
    }
  }

  lemma OnOne(e: Entry, k: nat)
    ensures On([e], k) == if e.at == k then [e.extra] else []
  {
    assert [e][1..] == [];
  }

  /** What a table gains stands on its column, and last there if the table is in column order. */
  lemma OnInsert(es: seq<Entry>, col: nat, extra: Extra, k: nat)
    ensures k != col ==> On(Insert(es, col, extra), k) == On(es, k)
    ensures multiset(On(Insert(es, col, extra), col)) == multiset(On(es, col)) + multiset{extra}
    ensures Sorted(es) ==> On(Insert(es, col, extra), col) == On(es, col) + [extra]
  {
    hide On, PartitionPoint;
    var at := PartitionPoint(es, col, 0, |es|);
    InsertSplits(es, at, col, extra, k);
    InsertSplits(es, at, col, extra, col);
    if Sorted(es) {
      PartitionSplits(es, col, 0, |es|);
      OnOutside(es[at..], col);
      assert On(es[..at], col) + [extra] + [] == On(es[..at], col) + [extra]
          && On(es[..at], col) + [] == On(es[..at], col);
    }
  }

  lemma InsertSplits(es: seq<Entry>, at: nat, col: nat, extra: Extra, k: nat)
    requires at <= |es|
    ensures On(es, k) == On(es[..at], k) + On(es[at..], k)
    ensures On(es[..at] + [Entry(col, extra)] + es[at..], k)
            == On(es[..at], k) + (if k == col then [extra] else []) + On(es[at..], k)
  {
    hide On;
    assert es == es[..at] + es[at..];
    OnConcat(es[..at], es[at..], k);
    OnConcat(es[..at] + [Entry(col, extra)], es[at..], k);
    OnConcat(es[..at], [Entry(col, extra)], k);
    OnOne(Entry(col, extra), k);
  }

  /** Entries moved right leave a gap. */
  lemma OnShiftRight(es: seq<Entry>, from: nat, n: nat, cols: nat, k: nat)
    ensures On(Shift(es, from, n, cols), k)
            == if k < from then On(es, k) else if from + n <= k < cols then On(es, k - n) else []
  {
    if es != [] {
      OnShiftRight(es[1..], from, n, cols, k);
    }
  }

  /** What stands on a column once the entries right of a gap have moved into it. */
  function Closing(es: seq<Entry>, from: nat, gone: nat, k: nat): seq<Extra> {
    (if k < from then On(es, k) else []) + if k + gone >= from then On(es, k + gone) else []
  }

  lemma NothingOn(from: nat, gone: nat, cols: nat, k: nat)
    ensures On([], k) == [] && On([], k + gone) == [] && On(Shift([], from, -(gone as int), cols), k) == []
  {
  }

  lemma OnCons(es: seq<Entry>, k: nat)
    requires es != []
    ensures On(es, k) == (if es[0].at == k then [es[0].extra] else []) + On(es[1..], k)
  {
  }

  lemma OnShiftCons(es: seq<Entry>, from: nat, gone: nat, cols: nat, k: nat)
    requires es != [] && es[0].at < cols && gone <= from
    ensures On(Shift(es, from, -(gone as int), cols), k)
            == (if Landing(es[0], from, gone) == k then [es[0].extra] else [])
                + On(Shift(es[1..], from, -(gone as int), cols), k)
  {
    hide On;
    var rest := Shift(es[1..], from, -(gone as int), cols);
    var e := if es[0].at < from then es[0] else es[0].(at := es[0].at - gone);
    assert Shift(es, from, -(gone as int), cols) == [e] + rest;
    OnCons([e] + rest, k);
  }

  lemma NothingCloses(from: nat, gone: nat, k: nat)
    ensures Closing([], from, gone, k) == []
  {
  }

  lemma RestOk(es: seq<Entry>, cols: nat)
    requires es != [] && InRange(es, cols)
    ensures es[0].at < cols && InRange(es[1..], cols) && (Sorted(es) ==> Sorted(es[1..]))
  {
    assert es == [es[0]] + es[1..];
    assert es[0] in es && forall e :: e in es[1..] ==> e in es;
  }

  lemma Woven(first: seq<Extra>, a: seq<Extra>, second: seq<Extra>, b: seq<Extra>)
    ensures multiset((first + a) + (second + b)) == multiset(first + second) + multiset(a + b)
    ensures second == [] || a == [] ==> (first + a) + (second + b) == (first + second) + (a + b)
  {
  }

  /** Where a first entry stands once those from `from` on have moved left. */
  function Landing(e: Entry, from: nat, gone: nat): int {
    if e.at < from then e.at else e.at - gone
  }

  lemma ClosingParts(es: seq<Entry>, from: nat, gone: nat, k: nat)
    returns (first: seq<Extra>, a: seq<Extra>, second: seq<Extra>, b: seq<Extra>)
    requires es != [] && gone <= from
    ensures Closing(es, from, gone, k) == (first + a) + (second + b) && Closing(es[1..], from, gone, k) == a + b
    ensures first + second == if Landing(es[0], from, gone) == k then [es[0].extra] else []
    ensures second != [] ==> es[0].at >= from
    ensures a == if k < from then On(es[1..], k) else []
  {
    hide On;
    var e, rest := es[0], es[1..];
    OnCons(es, k);
    OnCons(es, k + gone);
    a, b := if k < from then On(rest, k) else [], if k + gone >= from then On(rest, k + gone) else [];
    first := if e.at < from && e.at == k then [e.extra] else [];
    second := if e.at >= from && e.at == k + gone then [e.extra] else [];
  }

  lemma NoneBefore(es: seq<Entry>, from: nat, k: nat)
    requires es != [] && Sorted(es) && es[0].at >= from && k < from
    ensures On(es[1..], k) == []
  {
    OnOutside(es[1..], k);
  }

  lemma ClosingCons(es: seq<Entry>, from: nat, gone: nat, k: nat)
    requires es != [] && gone <= from
    ensures var more := if Landing(es[0], from, gone) == k then [es[0].extra] else [];
            && multiset(Closing(es, from, gone, k)) == multiset(more) + multiset(Closing(es[1..], from, gone, k))
            && (Sorted(es) ==> Closing(es, from, gone, k) == more + Closing(es[1..], from, gone, k))
  {
    hide On, Closing, Sorted;
    var first, a, second, b := ClosingParts(es, from, gone, k);
    Woven(first, a, second, b);
    if Sorted(es) && second != [] && k < from {
      NoneBefore(es, from, k);
    }
  }

  /** Entries moved left past a gap join what was kept there, and come after it in a table in column order. */
  lemma OnShiftLeft(es: seq<Entry>, from: nat, gone: nat, cols: nat, k: nat)
    requires InRange(es, cols) && gone <= from
    ensures multiset(On(Shift(es, from, -(gone as int), cols), k)) == multiset(Closing(es, from, gone, k))
    ensures Sorted(es) ==> On(Shift(es, from, -(gone as int), cols), k) == Closing(es, from, gone, k)
  {
    hide Shift, On, Closing, Sorted, InRange;
    if es == [] {
      NothingOn(from, gone, cols, k);
      assert Closing(es, from, gone, k) == [] by { NothingCloses(from, gone, k); }
    } else {
      var e, rest := es[0], es[1..];
      RestOk(es, cols);
      OnShiftLeft(rest, from, gone, cols, k);
      OnShiftCons(es, from, gone, cols, k);
      ClosingCons(es, from, gone, k);
    }
  }

  // ----- the writers of a row -----

  /** A row as it was but for what is said of it elsewhere. */
  ghost predicate Beside(before: Row, after: Row, lo: nat, hi: nat) {
    && |after.cells| == |before.cells|
    && forall k :: 0 <= k < |after.cells| && !(lo <= k < hi) ==> At(after, k) == At(before, k)
  }

  /** Columns blanked in place: nothing is left on them but semantic marks. */
  ghost predicate Blanked(before: Row, after: Row, lo: nat, hi: nat, style: Style) {
    && Beside(before, after, lo, hi)
    && forall k :: lo <= k < hi && k < |after.cells| ==>
         At(after, k) == Column(Cell(BLANK, style), OnlyMarks(On(before.extras, k)))
  }

  lemma SetLeaves(row: Row, col: nat, cell: Cell)
    ensures var after := Set(row, col, cell).0;
            && Beside(row, after, col, col + 1) && after.wrapped == row.wrapped
            && (col < |row.cells| ==> At(after, col) == Column(cell, OnlyMarks(On(row.extras, col))))
  {
    var after := Set(row, col, cell).0;
    forall k | 0 <= k < |after.cells|
      ensures On(after.extras, k) == if k == col then OnlyMarks(On(row.extras, k)) else On(row.extras, k)
    {
      OnPrune(row.extras, col, col + 1, true, k);
    }
  }

  lemma FillLeaves(row: Row, lo: nat, hi: nat, style: Style)
    ensures Blanked(row, Fill(row, lo, hi, style).0, lo, hi, style)
    ensures Fill(row, lo, hi, style).0.wrapped == row.wrapped
  {
    var end := Min(hi, |row.cells|);
    if lo < end {
      forall k: nat
        ensures On(Prune(row.extras, lo, end, true), k)
                == if lo <= k < end then OnlyMarks(On(row.extras, k)) else On(row.extras, k)
      {
        OnPrune(row.extras, lo, end, true, k);
      }
    }
  }

  lemma EraseAllLeaves(row: Row, style: Style)
    ensures Blanked(row, EraseAll(row, style).0, 0, |row.cells|, style)
    ensures !EraseAll(row, style).0.wrapped
  {
    forall k: nat
      ensures On(Prune(row.extras, 0, |row.cells|, true), k)
              == if k < |row.cells| then OnlyMarks(On(row.extras, k)) else On(row.extras, k)
    {
      OnPrune(row.extras, 0, |row.cells|, true, k);
    }
  }

  /** Columns moved right by `n`, blanks and nothing else opening on the left of them. */
  ghost predicate Opened(before: Row, after: Row, col: nat, n: nat, style: Style) {
    && |after.cells| == |before.cells|
    && (forall k :: 0 <= k < col && k < |after.cells| ==> At(after, k) == At(before, k))
    && (forall k :: col <= k < col + n && k < |after.cells| ==> At(after, k) == Column(Cell(BLANK, style), []))
    && (forall k :: col + n <= k < |after.cells| ==> At(after, k) == At(before, k - n))
  }

  lemma InsertBlankAt(row: Row, col: nat, count: nat, style: Style, k: nat)
    requires k < |row.cells|
    ensures var after := InsertBlank(row, col, count, style);
            && |after.cells| == |row.cells|
            && (k < col ==> At(after, k) == At(row, k))
            && (col <= k < col + count ==> At(after, k) == Column(Cell(BLANK, style), []))
            && (col + count <= k ==> At(after, k) == At(row, k - count))
  {
    assert BlankCell(style) == Cell(BLANK, style);
    if col < |row.cells| {
      OnShiftRight(row.extras, col, Min(count, |row.cells| - col), |row.cells|, k);
    }
  }

  lemma InsertBlankLeaves(row: Row, col: nat, count: nat, style: Style)
    ensures Opened(row, InsertBlank(row, col, count, style), col, count, style)
    ensures InsertBlank(row, col, count, style).wrapped == row.wrapped
  {
    hide At;
    var after := InsertBlank(row, col, count, style);
    forall k: nat | k < |row.cells|
      ensures k < col ==> At(after, k) == At(row, k)
      ensures col <= k < col + count ==> At(after, k) == Column(Cell(BLANK, style), [])
      ensures col + count <= k ==> At(after, k) == At(row, k - count)
    {
      InsertBlankAt(row, col, count, style, k);
    }
  }

  /** Columns moved left by `gone`, blanks coming in on the right; a semantic mark on a column that went
      stays on it. */
  ghost predicate Closed(before: Row, after: Row, col: nat, gone: nat, style: Style) {
    && |after.cells| == |before.cells|
    && (forall k :: 0 <= k < col && k < |after.cells| ==> At(after, k) == At(before, k))
    && (forall k :: col <= k < |after.cells| - gone ==> after.cells[k] == before.cells[k + gone])
    && (forall k :: col <= k < |after.cells| && |after.cells| - gone <= k ==> after.cells[k] == Cell(BLANK, style))
    && (forall k :: col <= k < |after.cells| ==>
          multiset(On(after.extras, k)) == multiset(Left(before.extras, col, gone, k)))
    && (Sorted(before.extras) ==>
          forall k :: col <= k < |after.cells| ==> On(after.extras, k) == Left(before.extras, col, gone, k))
  }

  /** The marks spared on a column, and what has moved onto it. */
  function Left(es: seq<Entry>, col: nat, gone: nat, k: nat): seq<Extra> {
    (if k < col + gone then OnlyMarks(On(es, k)) else []) + On(es, k + gone)
  }

  lemma DeletedOn(es: seq<Entry>, col: nat, gone: nat, cols: nat, k: nat)
    requires InRange(es, cols)
    ensures var after := Shift(Prune(es, col, col + gone, true), col + gone, -(gone as int), cols);
            && (k < col ==> On(after, k) == On(es, k))
            && (col <= k ==> multiset(On(after, k)) == multiset(Left(es, col, gone, k)))
            && (col <= k && Sorted(es) ==> On(after, k) == Left(es, col, gone, k))
  {
    hide Shift, Prune, OnlyMarks, On, Closing, Left, Sorted, InRange;
    PruneKeeps(es, col, col + gone, true);
    assert InRange(Prune(es, col, col + gone, true), cols) by { PrunedInRange(es, col, col + gone, cols); }
    if k < col {
      OnPrune(es, col, col + gone, true, k);
      OnShiftKeeps(Prune(es, col, col + gone, true), col + gone, gone, cols, k);
    } else {
      OnShiftLeft(Prune(es, col, col + gone, true), col + gone, gone, cols, k);
      ClosingPruned(es, col, gone, k);
    }
  }

  lemma PrunedInRange(es: seq<Entry>, lo: nat, hi: nat, cols: nat)
    requires InRange(es, cols)
    ensures InRange(Prune(es, lo, hi, true), cols)
  {
    PruneKeeps(es, lo, hi, true);
  }

  lemma ClosingPruned(es: seq<Entry>, col: nat, gone: nat, k: nat)
    requires col <= k
    ensures Closing(Prune(es, col, col + gone, true), col + gone, gone, k) == Left(es, col, gone, k)
  {
    hide Prune, OnlyMarks, On;
    OnPrune(es, col, col + gone, true, k);
    OnPrune(es, col, col + gone, true, k + gone);
  }

  /** Entries left of the ones that move are not disturbed. */
  lemma OnShiftKeeps(es: seq<Entry>, from: nat, gone: nat, cols: nat, k: nat)
    requires k + gone < from && InRange(es, cols)
    ensures On(Shift(es, from, -(gone as int), cols), k) == On(es, k)
  {
    if es != [] {
      assert es == [es[0]] + es[1..];
      assert es[0] in es && InRange(es[1..], cols);
      OnShiftKeeps(es[1..], from, gone, cols, k);
      OnShiftCons(es, from, gone, cols, k);
    }
  }

  lemma DeleteCellsAt(row: Row, col: nat, count: nat, style: Style, k: nat)
    requires InRange(row.extras, |row.cells|) && col < |row.cells| && k < |row.cells|
    ensures var (after, gone) := (DeleteCells(row, col, count, style), Min(count, |row.cells| - col));
            && |after.cells| == |row.cells|
            && (k < col ==> At(after, k) == At(row, k))
            && (col <= k < |after.cells| - gone ==> after.cells[k] == row.cells[k + gone])
            && (col <= k && |after.cells| - gone <= k ==> after.cells[k] == Cell(BLANK, style))
            && (col <= k ==> multiset(On(after.extras, k)) == multiset(Left(row.extras, col, gone, k)))
            && (col <= k && Sorted(row.extras) ==> On(after.extras, k) == Left(row.extras, col, gone, k))
  {
    hide Shift, Prune, OnlyMarks, On, Left;
    assert BlankCell(style) == Cell(BLANK, style);
    DeletedOn(row.extras, col, Min(count, |row.cells| - col), |row.cells|, k);
  }

  lemma DeleteCellsLeaves(row: Row, col: nat, count: nat, style: Style)
    requires InRange(row.extras, |row.cells|) && col < |row.cells|
    ensures Closed(row, DeleteCells(row, col, count, style), col, Min(count, |row.cells| - col), style)
    ensures DeleteCells(row, col, count, style).wrapped == row.wrapped
  {
    hide On, Left, At, Sorted;
    var after, gone := DeleteCells(row, col, count, style), Min(count, |row.cells| - col);
    forall k: nat | k < |row.cells|
      ensures k < col ==> At(after, k) == At(row, k)
      ensures col <= k < |after.cells| - gone ==> after.cells[k] == row.cells[k + gone]
      ensures col <= k && |after.cells| - gone <= k ==> after.cells[k] == Cell(BLANK, style)
      ensures col <= k ==> multiset(On(after.extras, k)) == multiset(Left(row.extras, col, gone, k))
      ensures col <= k && Sorted(row.extras) ==> On(after.extras, k) == Left(row.extras, col, gone, k)
    {
      DeleteCellsAt(row, col, count, style, k);
    }
  }

  // ----- writing a character -----

  lemma SetSpanLeaves(row: Row, lo: nat, hi: nat, cell: Cell)
    ensures var after := SetSpan(row, lo, hi, cell).0;
            && Beside(row, after, lo, hi) && after.wrapped == row.wrapped
            && forall k :: lo <= k < hi && k < |after.cells| ==>
                At(after, k) == Column(cell, OnlyMarks(On(row.extras, k)))
    decreases hi - lo
  {
    hide At, Set, OnlyMarks;
    if lo < hi {
      var first := Set(row, lo, cell).0;
      SetLeaves(row, lo, cell);
      SetSpanLeaves(first, lo + 1, hi, cell);
      var after := SetSpan(row, lo, hi, cell).0;
      assert after == SetSpan(first, lo + 1, hi, cell).0;
      forall k | lo <= k < hi && k < |after.cells|
        ensures At(after, k) == Column(cell, OnlyMarks(On(row.extras, k)))
      {
        if k > lo {
          assert At(first, k) == At(row, k);
          AtIs(first, k);
          AtIs(row, k);
        }
      }
    }
  }

  lemma AtIs(row: Row, k: nat)
    requires k < |row.cells|
    ensures At(row, k) == Column(row.cells[k], On(row.extras, k))
  {
  }

  /** A character on the columns from `col` that it stands on, the lead and its continuations. Inserted, it moves
      what stood there right; written over, it leaves the semantic marks where they were. */
  ghost predicate Written(before: Row, after: Row, col: nat, ch: char, width: nat, style: Style, inserted: bool) {
    && |after.cells| == |before.cells| && after.wrapped == before.wrapped
    && (forall k :: 0 <= k < col && k < |after.cells| ==> At(after, k) == At(before, k))
    && (forall k :: col <= k < col + width && k < |after.cells| ==>
          after.cells[k] == Cell(if k == col then ch else CONTINUATION, style))
    && (inserted ==> forall k :: col <= k < col + width && k < |after.cells| ==> On(after.extras, k) == [])
    && (!inserted ==>
          forall k :: col <= k < col + width && k < |after.cells| ==>
              On(after.extras, k) == OnlyMarks(On(before.extras, k)))
    && (inserted ==> forall k :: col + width <= k < |after.cells| ==> At(after, k) == At(before, k - width))
    && (!inserted ==> forall k :: col + width <= k < |after.cells| ==> At(after, k) == At(before, k))
  }

  lemma PlaceCellsLeave(row: Row, col: nat, ch: char, width: nat, style: Style, inserted: bool)
    requires width >= 1 && col < |row.cells|
    ensures Written(row, PlaceCells(row, col, ch, width, style, inserted).0, col, ch, width, style, inserted)
  {
    hide SetSpan, Set, InsertBlank;
    var shifted := if inserted then InsertBlank(row, col, width, style) else row;
    InsertBlankLeaves(row, col, width, style);
    SetLeaves(shifted, col, Cell(ch, style));
    var led := Set(shifted, col, Cell(ch, style)).0;
    SetSpanLeaves(led, col + 1, col + width, Cell(CONTINUATION, style));
    var after := PlaceCells(row, col, ch, width, style, inserted).0;
    forall k | 0 <= k < |row.cells|
      ensures k < col ==> At(after, k) == At(row, k)
      ensures col <= k < col + width ==> after.cells[k] == Cell(if k == col then ch else CONTINUATION, style)
      ensures col <= k < col + width ==> On(after.extras, k) == if inserted then [] else OnlyMarks(On(row.extras, k))
      ensures col + width <= k ==> At(after, k) == At(row, if inserted then k - width else k)
    {
      PlacedAt(row, shifted, led, after, col, ch, width, style, inserted, k);
    }
  }

  lemma PlacedAt(row: Row, shifted: Row, led: Row, after: Row, col: nat, ch: char, width: nat, style: Style,
                 inserted: bool, k: nat)
    requires width >= 1 && k < |row.cells|
    requires if inserted then Opened(row, shifted, col, width, style) else shifted == row
    requires Beside(shifted, led, col, col + 1)
    requires col < |shifted.cells| ==> At(led, col) == Column(Cell(ch, style), OnlyMarks(On(shifted.extras, col)))
    requires Beside(led, after, col + 1, col + width)
    requires forall k :: col + 1 <= k < col + width && k < |after.cells| ==>
               At(after, k) == Column(Cell(CONTINUATION, style), OnlyMarks(On(led.extras, k)))
    ensures |after.cells| == |row.cells|
    ensures k < col ==> At(after, k) == At(row, k)
    ensures col <= k < col + width ==> after.cells[k] == Cell(if k == col then ch else CONTINUATION, style)
    ensures col <= k < col + width ==> On(after.extras, k) == if inserted then [] else OnlyMarks(On(row.extras, k))
    ensures col + width <= k ==> At(after, k) == At(row, if inserted then k - width else k)
  {
    hide On;
    if col <= k < col + width && inserted {
      assert At(shifted, k) == Column(Cell(BLANK, style), []);
    }
    if col + 1 <= k < col + width {
      assert At(led, k) == At(shifted, k);
    } else {
      assert At(after, k) == At(led, k);
    }
  }

  // ----- attaching -----

  /** A column's attachments once a combining character is put on it: it goes on the first text there is. */
  function Combined(xs: seq<Extra>, mark: char): seq<Extra> {
    if xs == [] then [Marks([mark])]
    else if xs[0].Marks? then [Marks(xs[0].text + [mark])] + xs[1..]
    else [xs[0]] + Combined(xs[1..], mark)
  }

  /** Nothing but what stands on the one column has changed. */
  ghost predicate ColumnAlone(before: Row, after: Row, col: nat) {
    && after.cells == before.cells && after.wrapped == before.wrapped
    && forall k: nat :: k != col ==> On(after.extras, k) == On(before.extras, k)
  }

  lemma {:induction false} CombineFound(es: seq<Entry>, col: nat, mark: char, k: nat)
    requires FindMarks(es, col) < |es|
    ensures var i := FindMarks(es, col);
            On(es[i := Entry(col, Marks(es[i].extra.text + [mark]))], k)
            == if k == col then Combined(On(es, k), mark) else On(es, k)
  {
    var i := FindMarks(es, col);
    var edited := es[i := Entry(col, Marks(es[i].extra.text + [mark]))];
    if i > 0 {
      CombineFound(es[1..], col, mark, k);
      assert edited[1..] == es[1..][i - 1 := Entry(col, Marks(es[i].extra.text + [mark]))];
      assert edited[0] == es[0];
    } else {
      assert edited[1..] == es[1..];
    }
  }

  lemma CombineMissed(es: seq<Entry>, col: nat, mark: char)
    requires FindMarks(es, col) == |es|
    ensures Combined(On(es, col), mark) == On(es, col) + [Marks([mark])]
  {
  }

  lemma CombineLeaves(row: Row, col: nat, mark: char)
    ensures var after := Combine(row, col, mark);
            && ColumnAlone(row, after, col)
            && multiset(On(after.extras, col)) == multiset(Combined(On(row.extras, col), mark))
            && (Sorted(row.extras) ==> On(after.extras, col) == Combined(On(row.extras, col), mark))
  {
    hide On, Combined, FindMarks, Insert, Sorted;
    var after := Combine(row, col, mark);
    if FindMarks(row.extras, col) < |row.extras| {
      forall k: nat
        ensures On(after.extras, k) == if k == col then Combined(On(row.extras, k), mark) else On(row.extras, k)
      {
        CombineFound(row.extras, col, mark, k);
      }
    } else {
      CombineMissed(row.extras, col, mark);
      forall k: nat | k != col ensures On(after.extras, k) == On(row.extras, k) {
        OnInsert(row.extras, col, Marks([mark]), k);
      }
      OnInsert(row.extras, col, Marks([mark]), col);
    }
  }

  function NotOfKind(xs: seq<Extra>, kind: Kind): seq<Extra> {
    if xs == [] then []
    else if (if kind == KindLink then xs[0].Link? else xs[0].Underline?) then NotOfKind(xs[1..], kind)
    else [xs[0]] + NotOfKind(xs[1..], kind)
  }

  lemma OnPruneKind(es: seq<Entry>, col: nat, kind: Kind, k: nat)
    ensures On(PruneKind(es, col, kind), k) == if k == col then NotOfKind(On(es, k), kind) else On(es, k)
  {
    if es != [] {
      OnPruneKind(es[1..], col, kind, k);
      var rest := PruneKind(es[1..], col, kind);
      assert ([es[0]] + rest)[1..] == rest;
      assert On(es, k) == (if es[0].at == k then [es[0].extra] else []) + On(es[1..], k);
    }
  }

  /** A column has one link and one underline colour at most: the last given, or none if that takes it off. */
  lemma SetLinkLeaves(row: Row, col: nat, link: Option<nat>)
    requires col < |row.cells|
    ensures var after := SetLink(row, col, link);
            var kept := NotOfKind(On(row.extras, col), KindLink);
            && ColumnAlone(row, after, col)
            && (link == None ==> On(after.extras, col) == kept)
            && (link.Some? ==> multiset(On(after.extras, col)) == multiset(kept) + multiset{Link(link.value)})
            && (link.Some? && Sorted(row.extras) ==> On(after.extras, col) == kept + [Link(link.value)])
  {
    hide On, NotOfKind, PruneKind, Insert, Sorted;
    var pruned := PruneKind(row.extras, col, KindLink);
    PruneKindKeeps(row.extras, col, KindLink);
    forall k: nat
      ensures On(pruned, k) == if k == col then NotOfKind(On(row.extras, k), KindLink) else On(row.extras, k)
    {
      OnPruneKind(row.extras, col, KindLink, k);
    }
    if link.Some? {
      forall k: nat | k != col ensures On(Insert(pruned, col, Link(link.value)), k) == On(pruned, k) {
        OnInsert(pruned, col, Link(link.value), k);
      }
      OnInsert(pruned, col, Link(link.value), col);
    }
  }

  lemma SetUnderlineLeaves(row: Row, col: nat, color: Color)
    requires col < |row.cells|
    ensures var after := SetUnderline(row, col, color);
            var kept := NotOfKind(On(row.extras, col), KindUnderline);
            && ColumnAlone(row, after, col)
            && (color == DefaultColor ==> On(after.extras, col) == kept)
            && (color != DefaultColor ==>
                  multiset(On(after.extras, col)) == multiset(kept) + multiset{Underline(color)})
            && (color != DefaultColor && Sorted(row.extras) ==> On(after.extras, col) == kept + [Underline(color)])
  {
    hide On, NotOfKind, PruneKind, Insert, Sorted;
    var pruned := PruneKind(row.extras, col, KindUnderline);
    PruneKindKeeps(row.extras, col, KindUnderline);
    forall k: nat
      ensures On(pruned, k) == if k == col then NotOfKind(On(row.extras, k), KindUnderline) else On(row.extras, k)
    {
      OnPruneKind(row.extras, col, KindUnderline, k);
    }
    if color != DefaultColor {
      forall k: nat | k != col ensures On(Insert(pruned, col, Underline(color)), k) == On(pruned, k) {
        OnInsert(pruned, col, Underline(color), k);
      }
      OnInsert(pruned, col, Underline(color), col);
    }
  }

  /** An image cell: a blank with the placement on it, behind whatever marks were there. */
  lemma PlaceImageLeaves(row: Row, col: nat, place: Placement, style: Style)
    requires col < |row.cells|
    ensures var after := PlaceImage(row, col, place, style);
            && Beside(row, after, col, col + 1) && after.wrapped == row.wrapped
            && after.cells[col] == Cell(BLANK, style)
            && multiset(On(after.extras, col)) == multiset(OnlyMarks(On(row.extras, col))) + multiset{Image(place)}
            && (Sorted(row.extras) ==> On(after.extras, col) == OnlyMarks(On(row.extras, col)) + [Image(place)])
  {
    hide On, OnlyMarks, Insert, Sorted;
    var bare := Set(row, col, BlankCell(style)).0;
    SetLeaves(row, col, BlankCell(style));
    PruneKeeps(row.extras, col, col + 1, true);
    AtIs(bare, col);
    forall k: nat | k != col ensures On(Insert(bare.extras, col, Image(place)), k) == On(bare.extras, k) {
      OnInsert(bare.extras, col, Image(place), k);
    }
    OnInsert(bare.extras, col, Image(place), col);
  }

  lemma PlaceSpanLeaves(row: Row, start: nat, i: nat, width: nat, place: Placement, style: Style)
    requires Sorted(row.extras) && InRange(row.extras, |row.cells|) && start + width <= |row.cells|
    ensures var after := PlaceSpan(row, start, i, width, place, style);
            && Beside(row, after, start + i, start + width) && after.wrapped == row.wrapped
            && forall k :: i <= k < width ==>
                 At(after, start + k)
                 == Column(Cell(BLANK, style), OnlyMarks(On(row.extras, start + k)) + [Image(place.(cellCol := k))])
    decreases width - i
  {
    hide On, OnlyMarks, PlaceImage, Sorted, InRange;
    if i < width {
      var first := PlaceImage(row, start + i, place.(cellCol := i), style);
      PlaceImageLeaves(row, start + i, place.(cellCol := i), style);
      PlaceImageKept(row, start + i, place.(cellCol := i), style, |row.cells|);
      PlaceSpanLeaves(first, start, i + 1, width, place, style);
      var after := PlaceSpan(row, start, i, width, place, style);
      forall k | i <= k < width
        ensures At(after, start + k)
                == Column(Cell(BLANK, style), OnlyMarks(On(row.extras, start + k)) + [Image(place.(cellCol := k))])
      {
        if k > i {
          assert At(first, start + k) == At(row, start + k);
        } else {
          assert At(after, start + k) == At(first, start + k);
        }
      }
    }
  }

  /** A row cut or padded to a width. */
  lemma ResizeRowLeaves(row: Row, cols: nat)
    requires InRange(row.extras, |row.cells|)
    ensures var after := ResizeRow(row, cols, PLAIN);
            && |after.cells| == cols && after.wrapped == row.wrapped
            && forall k :: 0 <= k < cols ==>
                At(after, k) == if k < |row.cells| then At(row, k) else Column(DEFAULT_CELL, [])
  {
    hide On, CutOff;
    assert BlankCell(PLAIN) == DEFAULT_CELL;
    var after := ResizeRow(row, cols, PLAIN);
    forall k | 0 <= k < cols
      ensures At(after, k) == if k < |row.cells| then At(row, k) else Column(DEFAULT_CELL, [])
    {
      OnCutOff(row.extras, cols, k);
      if |row.cells| <= k {
        forall i | 0 <= i < |row.extras| ensures row.extras[i].at != k {
          assert row.extras[i] in row.extras;
        }
        OnOutside(row.extras, k);
      }
    }
  }
}
