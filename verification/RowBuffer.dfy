/** A row as the object it is (`Row` and `Extras` in src/emu/cell.rs): its writers, as loops over
    cells and entries updated in place. Each is proved to leave exactly the row the function of
    the same name in `Cells` gives, and to answer the same about whether anything changed. */
module RowObject {
  import opened Cells
  import C = Cells

  // ----- passes over the side table -----

  method Pruned(es: seq<Entry>, lo: nat, hi: nat, keepMarks: bool) returns (kept: seq<Entry>)
    ensures kept == Prune(es, lo, hi, keepMarks)
  {
    kept := [];
    var i := |es|;
    while i > 0
      invariant 0 <= i <= |es|
      invariant kept == Prune(es[i..], lo, hi, keepMarks)
    {
      i := i - 1;
      if !(lo <= es[i].at < hi) || (keepMarks && es[i].extra.Mark?) {
        kept := [es[i]] + kept;
      }
      assert es[i..][1..] == es[i + 1..];
    }
  }

  method PrunedKind(es: seq<Entry>, col: nat, kind: Kind) returns (kept: seq<Entry>)
    ensures kept == PruneKind(es, col, kind)
  {
    kept := [];
    var i := |es|;
    while i > 0
      invariant 0 <= i <= |es|
      invariant kept == PruneKind(es[i..], col, kind)
    {
      i := i - 1;
      if es[i].at != col || !OfKind(es[i].extra, kind) {
        kept := [es[i]] + kept;
      }
      assert es[i..][1..] == es[i + 1..];
    }
  }

  method Shifted(es: seq<Entry>, from: nat, move: int, cols: nat) returns (kept: seq<Entry>)
    ensures kept == Shift(es, from, move, cols)
  {
    kept := [];
    var i := |es|;
    while i > 0
      invariant 0 <= i <= |es|
      invariant kept == Shift(es[i..], from, move, cols)
    {
      i := i - 1;
      if es[i].at < from {
        kept := [es[i]] + kept;
      } else if 0 <= es[i].at + move < cols {
        kept := [es[i].(at := es[i].at + move)] + kept;
      }
      assert es[i..][1..] == es[i + 1..];
    }
  }

  method CutPast(es: seq<Entry>, cols: nat) returns (kept: seq<Entry>)
    ensures kept == CutOff(es, cols)
  {
    kept := [];
    var i := |es|;
    while i > 0
      invariant 0 <= i <= |es|
      invariant kept == CutOff(es[i..], cols)
    {
      i := i - 1;
      if es[i].at < cols {
        kept := [es[i]] + kept;
      }
      assert es[i..][1..] == es[i + 1..];
    }
  }

  /** Binary search for where an entry on `col` goes. */
  method InsertionPoint(es: seq<Entry>, col: nat) returns (at: nat)
    ensures at == PartitionPoint(es, col, 0, |es|)
  {
    var lo, hi := 0, |es|;
    while lo < hi
      invariant 0 <= lo <= hi <= |es|
      invariant PartitionPoint(es, col, lo, hi) == PartitionPoint(es, col, 0, |es|)
    {
      var mid := (lo + hi) / 2;
      if es[mid].at <= col {
        lo := mid + 1;
      } else {
        hi := mid;
      }
    }
    at := lo;
  }

  // ----- the mark that makes room -----

  ghost predicate FirstLeast(es: seq<Entry>, n: nat, o: nat)
    requires o < n <= |es|
  {
    && es[o].extra.Mark?
    && (forall j :: 0 <= j < n && es[j].extra.Mark? ==> es[o].extra.id <= es[j].extra.id)
    && (forall j :: 0 <= j < o && es[j].extra.Mark? ==> es[o].extra.id < es[j].extra.id)
  }

  lemma NoMarks(es: seq<Entry>)
    requires MarkCount(es) == 0
    ensures forall j :: 0 <= j < |es| ==> !es[j].extra.Mark?
  {
    if es != [] {
      NoMarks(es[1..]);
      forall j | 0 < j < |es| ensures !es[j].extra.Mark? {
        assert es[j] == es[1..][j - 1];
      }
    }
  }

  /** The mark that makes room is the first in table order among those with the least id. */
  lemma {:induction false} OldestIsFirstLeast(es: seq<Entry>)
    requires MarkCount(es) > 0
    ensures FirstLeast(es, |es|, OldestMark(es))
  {
    var rest := es[1..];
    if MarkCount(rest) == 0 {
      NoMarks(rest);
      forall j | 0 < j < |es| ensures !es[j].extra.Mark? {
        assert es[j] == rest[j - 1];
      }
    } else {
      OldestIsFirstLeast(rest);
      forall j | 0 < j < |es| ensures es[j] == rest[j - 1] {
      }
    }
  }

  lemma MarkCountSnoc(es: seq<Entry>, e: Entry)
    ensures MarkCount(es + [e]) == MarkCount(es) + if e.extra.Mark? then 1 else 0
  {
    if es == [] {
      assert (es + [e])[1..] == [];
    } else {
      assert (es + [e])[1..] == es[1..] + [e];
      MarkCountSnoc(es[1..], e);
    }
  }

  /** How many marks the table holds, and where the oldest of them is. */
  method FindOldest(es: seq<Entry>) returns (marks: nat, oldest: nat)
    ensures marks == MarkCount(es)
    ensures marks > 0 ==> oldest == OldestMark(es)
  {
    marks, oldest := 0, 0;
    for i := 0 to |es|
      invariant marks == MarkCount(es[..i])
      invariant marks > 0 ==> oldest < i && FirstLeast(es, i, oldest)
      invariant marks == 0 ==> forall j :: 0 <= j < i ==> !es[j].extra.Mark?
    {
      MarkCountSnoc(es[..i], es[i]);
      assert es[..i + 1] == es[..i] + [es[i]];
      if es[i].extra.Mark? {
        if marks == 0 || es[i].extra.id < es[oldest].extra.id {
          oldest := i;
        }
        marks := marks + 1;
      }
    }
    assert es[..|es|] == es;
    if marks > 0 {
      OldestIsFirstLeast(es);
    }
  }

  // ----- the row -----

  /** Cells deleted by closing up and filling in is the row with every cell taken from the right. */
  lemma ClosedCells(row: Row, col: nat, count: nat, style: Style)
    requires col < |row.cells|
    ensures var gone := Min(col + count, |row.cells|) - col;
            row.cells[..col] + row.cells[col + gone..] + seq(gone, _ => BlankCell(style))
            == DeleteCells(row, col, count, style).cells
  {
    hide Shift, Prune;
  }

  class RowBuffer {
    var cells: seq<Cell>
    var extras: seq<Entry>
    var wrapped: bool

    function Value(): Row
      reads this
    {
      Row(cells, extras, wrapped)
    }

    constructor (cols: nat)
      ensures Value() == NewRow(cols)
    {
      cells := seq(cols, _ => DEFAULT_CELL);
      extras := [];
      wrapped := false;
    }

    method Attach(col: nat, extra: Extra)
      modifies this`extras
      ensures Value() == C.Attach(old(Value()), col, extra)
    {
      var at := InsertionPoint(extras, col);
      extras := extras[..at] + [Entry(col, extra)] + extras[at..];
    }

    method Set(col: nat, cell: Cell) returns (changed: bool)
      modifies this`cells, this`extras
      ensures (Value(), changed) == C.Set(old(Value()), col, cell)
    {
      if col >= |cells| {
        return false;
      }
      changed := extras != [] || cells[col] != cell;
      cells := cells[col := cell];
      if extras != [] {
        extras := Pruned(extras, col, col + 1, true);
      }
    }

    /** Whether any cell the run would land on differs from the one it would leave. */
    method Differs(col: nat, text: string, style: Style) returns (differs: bool)
      requires col <= |cells|
      ensures differs == RunDiffers(Value(), col, text, style)
    {
      differs := false;
      var n := RunRoom(Value(), col, text);
      var i := 0;
      while i < n && !differs
        invariant 0 <= i <= n
        invariant differs ==> RunDiffers(Value(), col, text, style)
        invariant !differs ==> forall j :: 0 <= j < i ==> cells[col + j] == Cell(text[j], style)
      {
        differs := cells[col + i] != Cell(text[i], style);
        i := i + 1;
      }
    }

    method Store(col: nat, text: string, style: Style, n: nat)
      requires col + n <= |cells| && n <= |text|
      modifies this`cells
      ensures |cells| == |old(cells)|
      ensures forall i :: 0 <= i < |cells| ==>
                cells[i] == if col <= i < col + n then Cell(text[i - col], style) else old(cells)[i]
    {
      for k := 0 to n
        invariant |cells| == |old(cells)|
        invariant forall i :: 0 <= i < |cells| ==>
                    cells[i] == if col <= i < col + k then Cell(text[i - col], style) else old(cells)[i]
      {
        cells := cells[col + k := Cell(text[k], style)];
      }
    }

    /** Retire the columns `lo..hi` one after another. */
    method RetireEach(lo: nat, hi: nat)
      requires lo <= hi
      modifies this`extras
      ensures extras == Prune(old(extras), lo, hi, true)
    {
      PruneNone(extras, lo);
      for at := lo to hi
        invariant extras == Prune(old(extras), lo, at, true)
      {
        PruneNext(old(extras), lo, at);
        extras := Pruned(extras, at, at + 1, true);
      }
    }

    method FillRun(col: nat, text: string, style: Style) returns (changed: bool)
      modifies this`cells, this`extras
      ensures (Value(), changed) == C.FillRun(old(Value()), col, text, style)
    {
      if col > |cells| {
        return false;
      }
      var attached := extras != [];
      var differs := Differs(col, text, style);
      if !attached && !differs {
        return false;
      }
      var n := RunRoom(Value(), col, text);
      Store(col, text, style, n);
      if attached {
        RetireEach(col, col + n);
      }
      changed := true;
      assert cells == C.FillRun(old(Value()), col, text, style).0.cells;
    }

    method Fill(lo: nat, hi: nat, style: Style) returns (changed: bool)
      modifies this`cells, this`extras
      ensures (Value(), changed) == C.Fill(old(Value()), lo, hi, style)
    {
      var end := Min(hi, |cells|);
      if lo >= end {
        return false;
      }
      changed := extras != [];
      extras := Pruned(extras, lo, end, true);
      var differs := BlankOut(lo, end, style);
      changed := changed || differs;
    }

    /** Blank the columns `lo..hi`, and say whether one of them held anything else. */
    method BlankOut(lo: nat, hi: nat, style: Style) returns (differs: bool)
      requires lo <= hi <= |cells|
      modifies this`cells
      ensures cells == CellsFilled(old(cells), lo, hi, BlankCell(style))
      ensures differs == exists i :: lo <= i < hi && old(cells)[i] != BlankCell(style)
    {
      differs := false;
      for col := lo to hi
        invariant cells == CellsFilled(old(cells), lo, col, BlankCell(style))
        invariant differs == exists i :: lo <= i < col && old(cells)[i] != BlankCell(style)
      {
        differs := differs || cells[col] != BlankCell(style);
        cells := cells[col := BlankCell(style)];
      }
    }

    method Clear(style: Style)
      modifies this
      ensures Value() == ClearRow(old(Value()), style)
    {
      var ignored := BlankOut(0, |cells|, style);
      extras := [];
      wrapped := false;
      assert cells == ClearRow(old(Value()), style).cells;
    }

    method EraseAll(style: Style) returns (changed: bool)
      modifies this
      ensures (Value(), changed) == C.EraseAll(old(Value()), style)
    {
      changed := extras != [] || wrapped;
      var differs := BlankOut(0, |cells|, style);
      extras := Pruned(extras, 0, |cells|, true);
      wrapped := false;
      changed := changed || differs;
      assert cells == C.EraseAll(old(Value()), style).0.cells;
    }

    method Resize(cols: nat, style: Style)
      modifies this`cells, this`extras
      ensures Value() == ResizeRow(old(Value()), cols, style)
    {
      while |cells| < cols
        invariant extras == old(extras)
        invariant |old(cells)| <= |cells| || cells == old(cells)
        invariant |cells| <= cols || cells == old(cells)
        invariant forall i :: 0 <= i < |cells| ==>
                    cells[i] == if i < |old(cells)| then old(cells)[i] else BlankCell(style)
        decreases cols - |cells|
      {
        cells := cells + [BlankCell(style)];
      }
      cells := cells[..cols];
      extras := CutPast(extras, cols);
      assert cells == ResizeCells(old(cells), cols, BlankCell(style));
    }

    method InsertBlank(col: nat, count: nat, style: Style)
      modifies this`cells, this`extras
      ensures Value() == C.InsertBlank(old(Value()), col, count, style)
    {
      var cols := |cells|;
      if col >= cols {
        return;
      }
      var n := Min(count, cols - col);
      cells := cells[..col + n] + cells[col..cols - n];
      var ignored := BlankOut(col, col + n, style);
      extras := Shifted(extras, col, n, cols);
      assert cells == C.InsertBlank(old(Value()), col, count, style).cells;
    }

    method Delete(col: nat, count: nat, style: Style)
      modifies this`cells, this`extras
      ensures Value() == DeleteCells(old(Value()), col, count, style)
    {
      var cols := |cells|;
      if col >= cols {
        return;
      }
      var gone := Min(col + count, cols) - col;
      ClosedCells(Value(), col, count, style);
      cells := cells[..col] + cells[col + gone..] + seq(gone, _ => BlankCell(style));
      extras := Pruned(extras, col, col + gone, true);
      extras := Shifted(extras, col + gone, -gone, cols);
    }

    method SetUnderline(col: nat, color: Color)
      modifies this`extras
      ensures Value() == C.SetUnderline(old(Value()), col, color)
    {
      extras := PrunedKind(extras, col, KindUnderline);
      if color != DefaultColor && col < |cells| {
        Attach(col, Underline(color));
      }
    }

    method SetLink(col: nat, link: Option<nat>)
      modifies this`extras
      ensures Value() == C.SetLink(old(Value()), col, link)
    {
      extras := PrunedKind(extras, col, KindLink);
      if link.Some? && col < |cells| {
        Attach(col, Link(link.value));
      }
    }

    method Place(col: nat, place: Placement, style: Style)
      modifies this`cells, this`extras
      ensures Value() == PlaceImage(old(Value()), col, place, style)
    {
      if col >= |cells| {
        return;
      }
      var ignored := Set(col, BlankCell(style));
      Attach(col, Image(place));
    }

    method Combine(col: nat, mark: char)
      modifies this`extras
      ensures Value() == C.Combine(old(Value()), col, mark)
    {
      var i := 0;
      while i < |extras| && !(extras[i].at == col && extras[i].extra.Marks?)
        invariant 0 <= i <= |extras| && extras == old(extras)
        invariant FindMarks(extras, col) == i + FindMarks(extras[i..], col)
      {
        assert extras[i..][1..] == extras[i + 1..];
        i := i + 1;
      }
      if i < |extras| {
        extras := extras[i := Entry(col, Marks(extras[i].extra.text + [mark]))];
      } else {
        Attach(col, Marks([mark]));
      }
    }

    method Mark(col: nat, id: nat)
      modifies this`extras
      ensures Value() == MarkRow(old(Value()), col, id)
    {
      if col >= |cells| {
        return;
      }
      if |extras| >= MARKS_PER_ROW {
        var marks, oldest := FindOldest(extras);
        if marks >= MARKS_PER_ROW {
          if extras[oldest].at == col {
            extras := extras[oldest := Entry(col, C.Mark(id))];
            return;
          }
          extras := extras[..oldest] + extras[oldest + 1..];
        }
      }
      Attach(col, C.Mark(id));
    }
  }

  lemma PruneNone(es: seq<Entry>, lo: nat)
    ensures Prune(es, lo, lo, true) == es
  {
  }

  lemma PruneNext(es: seq<Entry>, lo: nat, at: nat)
    requires lo <= at
    ensures Prune(Prune(es, lo, at, true), at, at + 1, true) == Prune(es, lo, at + 1, true)
  {
    if es != [] {
      PruneNext(es[1..], lo, at);
    }
  }
}
