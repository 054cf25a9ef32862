/** What the runs of a row say, run by run: which columns each stands on, and that everything it says of
    them is theirs. */
module RunLaws {
  import opened Cells
  import opened Runs
  import E = Effects

  /** The characters of the columns `lo..hi`, each with the marks combined onto it. */
  function TextOver(cells: seq<Cell>, es: seq<Entry>, lo: nat, hi: nat): string
    requires lo <= hi <= |cells|
    decreases hi - lo
  {
    if lo == hi then ""
    else
      var look := LookAt(es, hi - 1);
      TextOver(cells, es, lo, hi - 1)
      + if IsContinuation(cells[hi - 1]) then ""
        else [cells[hi - 1].ch] + if look.marks.Some? then look.marks.value else ""
  }

  /** What is drawn over those characters, one by one. */
  function DecosOver(classify: Classify, cells: seq<Cell>, es: seq<Entry>, lo: nat, hi: nat): seq<Option<DecoCell>>
    requires lo <= hi <= |cells|
    decreases hi - lo
  {
    if lo == hi then []
    else
      DecosOver(classify, cells, es, lo, hi - 1)
      + if IsContinuation(cells[hi - 1]) then [] else [DecoOf(classify, cells[hi - 1].ch, LookAt(es, hi - 1))]
  }

  /** A run's decoration for each of its characters, of which there are `n`. */
  function Unrolled(deco: Option<Deco>, n: nat): seq<Option<DecoCell>> {
    match deco
    case None => seq(n, _ => None)
    case Some(Glyphs(gs)) => seq(|gs|, i requires 0 <= i < |gs| => Some(GlyphCell(gs[i])))
    case Some(Images(ps)) => seq(|ps|, i requires 0 <= i < |ps| => Some(ImageCell(ps[i])))
  }

  /** The run stands on the columns `lo..hi`, begins with a character, and says of every character there
      what its own cell and attachments do. */
  ghost predicate Stands(classify: Classify, cells: seq<Cell>, es: seq<Entry>, run: Run, lo: nat, hi: nat) {
    && lo < hi <= |cells| && !IsContinuation(cells[lo]) && run.cols == hi - lo
    && run.text == TextOver(cells, es, lo, hi)
    && Unrolled(run.deco, |DecosOver(classify, cells, es, lo, hi)|) == DecosOver(classify, cells, es, lo, hi)
    && forall k :: lo <= k < hi && !IsContinuation(cells[k]) ==>
         run.style == cells[k].style && run.underline == LookAt(es, k).underline && run.link == LookAt(es, k).link
  }

  /** No two runs that could be one stand side by side. */
  predicate Apart(a: Run, b: Run) {
    || a.style != b.style || a.underline != b.underline || a.link != b.link
    || a.deco.Some? != b.deco.Some? || (a.deco.Some? && a.deco.value.Glyphs? != b.deco.value.Glyphs?)
  }

  /** The runs stand side by side on the columns of a row from its first character to `end`. */
  ghost predicate Describes(classify: Classify, cells: seq<Cell>, es: seq<Entry>, runs: seq<Run>, end: nat)
    decreases |runs|
  {
    && end <= |cells|
    && if runs == [] then Orphans(cells, end) == end
       else
         var n := |runs| - 1;
         && runs[n].cols <= end && Stands(classify, cells, es, runs[n], end - runs[n].cols, end)
         && Describes(classify, cells, es, runs[..n], end - runs[n].cols)
         && (n > 0 ==> Apart(runs[n - 1], runs[n]))
  }

  lemma NewRunStands(classify: Classify, cells: seq<Cell>, es: seq<Entry>, col: nat)
    requires col < |cells| && !IsContinuation(cells[col])
    ensures var look := LookAt(es, col);
            var tail := if look.marks.Some? then look.marks.value else "";
            var run := Run([cells[col].ch] + tail, 1, cells[col].style,
                           StartOption(DecoOf(classify, cells[col].ch, look)), look.underline, look.link);
            Stands(classify, cells, es, run, col, col + 1)
  {
    hide LookAt, DecoOf;
    assert TextOver(cells, es, col, col) == "";
    assert DecosOver(classify, cells, es, col, col) == [];
  }

  lemma UnrolledMore(deco: Option<Deco>, cell: Option<DecoCell>, n: nat)
    requires DecoJoins(deco, cell)
    ensures Unrolled(PushOption(deco, cell), n + 1) == Unrolled(deco, n) + [cell]
  {
  }

  /** A character that joins a run extends it by its column. */
  lemma LongerStands(classify: Classify, cells: seq<Cell>, es: seq<Entry>, run: Run, lo: nat, col: nat)
    requires col < |cells| && !IsContinuation(cells[col]) && Stands(classify, cells, es, run, lo, col)
    requires Joins(run, cells[col], LookAt(es, col), DecoOf(classify, cells[col].ch, LookAt(es, col)))
    ensures var look := LookAt(es, col);
            var tail := if look.marks.Some? then look.marks.value else "";
            var more := run.(text := run.text + [cells[col].ch] + tail, cols := run.cols + 1,
                             deco := PushOption(run.deco, DecoOf(classify, cells[col].ch, look)));
            Stands(classify, cells, es, more, lo, col + 1)
  {
    hide LookAt, DecoOf, Unrolled;
    var look := LookAt(es, col);
    var tail := if look.marks.Some? then look.marks.value else "";
    UnrolledMore(run.deco, DecoOf(classify, cells[col].ch, look), |DecosOver(classify, cells, es, lo, col)|);
    assert run.text + ([cells[col].ch] + tail) == run.text + [cells[col].ch] + tail;
  }

  lemma WiderStands(classify: Classify, cells: seq<Cell>, es: seq<Entry>, run: Run, lo: nat, col: nat)
    requires col < |cells| && IsContinuation(cells[col]) && Stands(classify, cells, es, run, lo, col)
    ensures Stands(classify, cells, es, run.(cols := run.cols + 1), lo, col + 1)
  {
    hide LookAt, DecoOf, Unrolled;
    assert run.text + "" == run.text;
    var decos := DecosOver(classify, cells, es, lo, col);
    assert decos + [] == decos;
  }

  /** Not joining is being apart. */
  lemma StartsApart(run: Run, cell: Cell, look: Look, deco: Option<DecoCell>, more: Run)
    requires !Joins(run, cell, look, deco)
    requires more.style == cell.style && more.underline == look.underline && more.link == look.link
    requires more.deco == StartOption(deco)
    ensures Apart(run, more)
  {
  }

  /** The last run changed for one that stands on more columns. */
  lemma ReplaceLast(classify: Classify, cells: seq<Cell>, es: seq<Entry>, runs: seq<Run>, end: nat, more: Run)
    requires runs != [] && end < |cells| && Describes(classify, cells, es, runs, end)
    requires var lo := end - Last(runs).cols; Stands(classify, cells, es, more, lo, end + 1)
    requires forall run: Run :: Apart(run, Last(runs)) ==> Apart(run, more)
    ensures Describes(classify, cells, es, WithLast(runs, more), end + 1)
  {
    var n := |runs| - 1;
    assert WithLast(runs, more)[..n] == runs[..n];
  }

  /** Every column that holds a character, the first one on, is in a run whose style, underline and link are
      its own; a run's text and decorations are those of its columns, in order; and neighbouring runs differ
      in something that keeps them apart. */
  lemma {:induction false} RunsDescribe(classify: Classify, cells: seq<Cell>, es: seq<Entry>, end: nat)
    requires end <= |cells|
    ensures Describes(classify, cells, es, Reference(classify, cells, es, end), end)
  {
    hide LookAt, DecoOf, Stands, Joins, Apart;
    if end > 0 {
      var col := end - 1;
      var runs := Reference(classify, cells, es, col);
      RunsDescribe(classify, cells, es, col);
      ColumnsAddUp(classify, cells, es, col);
      CellDescribes(classify, cells, es, runs, col);
    }
  }

  lemma CellDescribes(classify: Classify, cells: seq<Cell>, es: seq<Entry>, runs: seq<Run>, col: nat)
    requires col < |cells| && Describes(classify, cells, es, runs, col)
    ensures Describes(classify, cells, es, AddCell(classify, runs, cells[col], LookAt(es, col)), col + 1)
  {
    hide LookAt, DecoOf, Stands, Joins, Apart, Orphans;
    var cell, look := cells[col], LookAt(es, col);
    var deco := DecoOf(classify, cell.ch, look);
    if IsContinuation(cell) {
      if runs == [] {
        OrphanGrows(cells, col);
      } else {
        WiderStands(classify, cells, es, Last(runs), col - Last(runs).cols, col);
        SameApart(Last(runs), Last(runs).(cols := Last(runs).cols + 1));
        ReplaceLast(classify, cells, es, runs, col, Last(runs).(cols := Last(runs).cols + 1));
      }
    } else if runs != [] && Joins(Last(runs), cell, look, deco) {
      var more := Last(AddCell(classify, runs, cell, look));
      LongerStands(classify, cells, es, Last(runs), col - Last(runs).cols, col);
      JoinedApart(Last(runs), cell, look, deco, more);
      ReplaceLast(classify, cells, es, runs, col, more);
    } else {
      NewRunStands(classify, cells, es, col);
      var after := AddCell(classify, runs, cell, look);
      assert after[..|runs|] == runs && after[|runs|] == Last(after);
      if runs != [] {
        StartsApart(Last(runs), cell, look, deco, Last(after));
      }
    }
  }

  lemma OrphanGrows(cells: seq<Cell>, col: nat)
    requires col < |cells| && IsContinuation(cells[col]) && Orphans(cells, col) == col
    ensures Orphans(cells, col + 1) == col + 1
  {
  }

  lemma SameApart(a: Run, b: Run)
    requires a.style == b.style && a.underline == b.underline && a.link == b.link && a.deco == b.deco
    ensures forall run: Run :: Apart(run, a) ==> Apart(run, b)
  {
  }

  lemma JoinedApart(a: Run, cell: Cell, look: Look, deco: Option<DecoCell>, b: Run)
    requires Joins(a, cell, look, deco)
    requires a.style == b.style && a.underline == b.underline && a.link == b.link && b.deco == PushOption(a.deco, deco)
    ensures forall run: Run :: Apart(run, a) ==> Apart(run, b)
  {
  }

  // ----- what is looked up is what the column holds -----

  function LastLink(xs: seq<Extra>): Option<nat> {
    if xs == [] then None
    else if xs[|xs| - 1].Link? then Some(xs[|xs| - 1].link)
    else LastLink(xs[..|xs| - 1])
  }

  function LastText(xs: seq<Extra>): Option<string> {
    if xs == [] then None
    else if xs[|xs| - 1].Marks? then Some(xs[|xs| - 1].text)
    else LastText(xs[..|xs| - 1])
  }

  function LastImage(xs: seq<Extra>): Option<Placement> {
    if xs == [] then None
    else if xs[|xs| - 1].Image? then Some(xs[|xs| - 1].place)
    else LastImage(xs[..|xs| - 1])
  }

  function LastUnderline(xs: seq<Extra>): Color {
    if xs == [] then DefaultColor
    else if xs[|xs| - 1].Underline? then xs[|xs| - 1].color
    else LastUnderline(xs[..|xs| - 1])
  }

  /** A column's link, text, picture and underline are the last of each kind attached to it. */
  lemma {:induction false} LookIsColumn(es: seq<Entry>, col: nat)
    ensures var (look, on) := (LookAt(es, col), E.On(es, col));
            && look.link == LastLink(on) && look.marks == LastText(on)
            && look.placed == LastImage(on) && look.underline == LastUnderline(on)
  {
    hide E.On;
    if es == [] {
      NothingOn(col);
    } else {
      var n := |es| - 1;
      LookIsColumn(es[..n], col);
      assert es == es[..n] + [es[n]];
      E.OnConcat(es[..n], [es[n]], col);
      E.OnOne(es[n], col);
      var before := E.On(es[..n], col);
      assert before + [] == before;
      assert (before + [es[n].extra])[..|before|] == before;
    }
  }

  lemma NothingOn(col: nat)
    ensures E.On([], col) == []
  {
  }
}
