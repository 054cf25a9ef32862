/** What a row says, column by column: a glyph is a cell with everything drawn on it. Reading
    rows back into logical lines is defined here, on glyphs, for live and departed rows alike,
    and does not mention how a rewrap reassembles or cuts anything. */
module Reading {
  import opened Cells
  import opened RowLaws
  import opened Grid

  datatype Glyph = Glyph(cell: Cell, extras: seq<Extra>)

  /** The drawn attachments on one column, in table order. */
  function ExtrasAt(es: seq<Entry>, col: nat): seq<Extra> {
    if es == [] then []
    else if es[0].at == col && !es[0].extra.Mark? then [es[0].extra] + ExtrasAt(es[1..], col)
    else ExtrasAt(es[1..], col)
  }

  function Glyphs(cells: seq<Cell>, es: seq<Entry>): (gs: seq<Glyph>)
    ensures |gs| == |cells|
  {
    seq(|cells|, i requires 0 <= i < |cells| => Glyph(cells[i], ExtrasAt(es, i)))
  }

  /** A default blank that at most decorations ride on. */
  ghost predicate BlankGlyph(g: Glyph) {
    g.cell == DEFAULT_CELL && forall e :: e in g.extras ==> !IsContent(e)
  }

  ghost predicate AllBlank(gs: seq<Glyph>) {
    forall i :: 0 <= i < |gs| ==> BlankGlyph(gs[i])
  }

  ghost function Trim(gs: seq<Glyph>): (r: seq<Glyph>)
    ensures r <= gs && AllBlank(gs[|r|..])
    ensures r != [] ==> !BlankGlyph(r[|r| - 1])
  {
    if gs == [] then []
    else if BlankGlyph(gs[|gs| - 1]) then Trim(gs[..|gs| - 1])
    else gs
  }

  /** `r` is `gs` less some of its trailing blanks. */
  ghost predicate TrimsTo(gs: seq<Glyph>, r: seq<Glyph>) {
    r <= gs && AllBlank(gs[|r|..])
  }

  lemma TrimsToSameTrim(gs: seq<Glyph>, r: seq<Glyph>)
    requires TrimsTo(gs, r)
    ensures Trim(gs) == Trim(r)
  {
    if |r| < |gs| {
      assert BlankGlyph(gs[|r|..][|gs| - 1 - |r|]);
      TrimsToSameTrim(gs[..|gs| - 1], r);
    }
  }

  // ----- lines -----

  /** A row as its line reads it: the glyphs it contributes, and whether the line goes on. */
  datatype Line = Line(glyphs: seq<Glyph>, wrapped: bool)

  function LineOf(row: Row): Line {
    Line(Glyphs(row.cells, row.extras)[..Min(LineLen(row), |row.cells|)], row.wrapped)
  }

  function LineOfDeparted(d: Departed): Line {
    Line(Glyphs(d.cells, d.extras), d.wrapped)
  }

  function LinesOf(rows: seq<Row>): (r: seq<Line>)
    ensures |r| == |rows|
  {
    seq(|rows|, i requires 0 <= i < |rows| => LineOf(rows[i]))
  }

  function LinesOfDeparted(ev: Evicted): (r: seq<Line>)
    ensures |r| == |ev|
  {
    seq(|ev|, i requires 0 <= i < |ev| => LineOfDeparted(ev[i]))
  }

  /** A row read in front of the lines below it. */
  function Prepend(l: Line, below: seq<seq<Glyph>>): (r: seq<seq<Glyph>>)
    ensures r != []
  {
    if l.wrapped && below != [] then [l.glyphs + below[0]] + below[1..] else [l.glyphs] + below
  }

  /** The logical lines that rows spell: a wrapped row runs on into the row after it. */
  function Read(ls: seq<Line>): (r: seq<seq<Glyph>>)
    ensures ls != [] ==> r != []
  {
    if ls == [] then [] else Prepend(ls[0], Read(ls[1..]))
  }

  /** A row read after the lines above it, the last of which may run on into it. */
  function Extend(above: seq<seq<Glyph>>, wrapped: bool, gs: seq<Glyph>): seq<seq<Glyph>> {
    if wrapped && above != [] then above[..|above| - 1] + [above[|above| - 1] + gs] else above + [gs]
  }

  ghost predicate Closed(ls: seq<Line>) {
    ls == [] || !ls[|ls| - 1].wrapped
  }

  lemma PrependConcat(l: Line, x: seq<seq<Glyph>>, y: seq<seq<Glyph>>)
    requires x != [] || !l.wrapped
    ensures Prepend(l, x + y) == Prepend(l, x) + y
  {
    if l.wrapped {
      assert (x + y)[1..] == x[1..] + y;
      assert [l.glyphs + x[0]] + (x[1..] + y) == ([l.glyphs + x[0]] + x[1..]) + y;
    } else {
      assert [l.glyphs] + (x + y) == ([l.glyphs] + x) + y;
    }
  }

  lemma {:induction false} ReadClosed(a: seq<Line>, b: seq<Line>)
    requires Closed(a)
    ensures Read(a + b) == Read(a) + Read(b)
  {
    if a == [] {
      assert a + b == b;
    } else {
      ReadClosed(a[1..], b);
      assert (a + b)[1..] == a[1..] + b;
      PrependConcat(a[0], Read(a[1..]), Read(b));
    }
  }

  /** Only an open end and something to run on into make two readings one line shorter than apart. */
  lemma {:induction false} ReadJoin(a: seq<Line>, b: seq<Line>)
    ensures |Read(a + b)| == |Read(a)| + |Read(b)| - if Closed(a) || b == [] then 0 else 1
  {
    if a == [] {
      assert a + b == b;
    } else {
      ReadJoin(a[1..], b);
      assert (a + b)[1..] == a[1..] + b;
    }
  }

  lemma PrependExtend(l: Line, x: seq<seq<Glyph>>, wrapped: bool, gs: seq<Glyph>)
    requires x != []
    ensures Prepend(l, Extend(x, wrapped, gs)) == Extend(Prepend(l, x), wrapped, gs)
  {
    var y := Extend(x, wrapped, gs);
    if wrapped && l.wrapped && |x| == 1 {
      assert l.glyphs + (x[0] + gs) == (l.glyphs + x[0]) + gs;
    }
    assert Prepend(l, y) == Extend(Prepend(l, x), wrapped, gs);
  }

  lemma {:induction false} ReadSnoc(ls: seq<Line>, l: Line)
    requires ls != []
    ensures Read(ls + [l]) == Extend(Read(ls), ls[|ls| - 1].wrapped, l.glyphs)
  {
    var all := ls + [l];
    assert all[1..] == ls[1..] + [l];
    if |ls| == 1 {
      assert Read(all[1..]) == [l.glyphs];
    } else {
      ReadSnoc(ls[1..], l);
      PrependExtend(ls[0], Read(ls[1..]), ls[|ls| - 1].wrapped, l.glyphs);
    }
  }

  // ----- attachments under the table's edits -----

  lemma {:induction false} ExtrasAtConcat(a: seq<Entry>, b: seq<Entry>, k: nat)
    ensures ExtrasAt(a + b, k) == ExtrasAt(a, k) + ExtrasAt(b, k)
  {
    if a == [] {
      assert a + b == b;
      assert [] + ExtrasAt(b, k) == ExtrasAt(b, k);
    } else {
      ExtrasAtConcat(a[1..], b, k);
      assert (a + b)[0] == a[0] && (a + b)[1..] == a[1..] + b;
      assert [a[0].extra] + (ExtrasAt(a[1..], k) + ExtrasAt(b, k))
             == ([a[0].extra] + ExtrasAt(a[1..], k)) + ExtrasAt(b, k);
    }
  }

  lemma ExtrasAtDrawn(es: seq<Entry>, k: nat)
    ensures ExtrasAt(Drawn(es), k) == ExtrasAt(es, k)
  {
  }

  lemma ExtrasAtCutOff(es: seq<Entry>, n: nat, k: nat)
    requires k < n
    ensures ExtrasAt(CutOff(es, n), k) == ExtrasAt(es, k)
  {
  }

  lemma ExtrasAtOutside(es: seq<Entry>, k: nat)
    requires forall e :: e in es ==> e.at != k
    ensures ExtrasAt(es, k) == []
  {
  }

  lemma ContentIn(es: seq<Entry>, k: nat, i: nat)
    requires i < |es| && es[i].at == k && IsContent(es[i].extra)
    ensures es[i].extra in ExtrasAt(es, k)
  {
    if i > 0 {
      ContentIn(es[1..], k, i - 1);
    }
  }

  lemma ContentFrom(es: seq<Entry>, k: nat, e: Extra) returns (i: nat)
    requires e in ExtrasAt(es, k)
    ensures i < |es| && es[i].at == k && es[i].extra == e
  {
    if es[0].at == k && es[0].extra == e {
      i := 0;
    } else {
      i := ContentFrom(es[1..], k, e);
      i := i + 1;
    }
  }

  lemma ExtrasAtContent(es: seq<Entry>, k: nat)
    ensures (exists e :: e in ExtrasAt(es, k) && IsContent(e)) <==>
            (exists i :: 0 <= i < |es| && es[i].at == k && IsContent(es[i].extra))
  {
    hide ExtrasAt;
    if e :| e in ExtrasAt(es, k) && IsContent(e) {
      var i := ContentFrom(es, k, e);
      assert es[i].at == k;
    }
    if i :| 0 <= i < |es| && es[i].at == k && IsContent(es[i].extra) {
      ContentIn(es, k, i);
    }
  }

  // ----- a row's content length is what trimming its glyphs leaves -----

  lemma {:induction false} ContentEndIsLast(es: seq<Entry>)
    requires Sorted(es)
    ensures forall i :: 0 <= i < |es| && IsContent(es[i].extra) ==> es[i].at < ContentEnd(es)
    ensures ContentEnd(es) > 0 ==>
              exists i :: 0 <= i < |es| && IsContent(es[i].extra) && es[i].at == ContentEnd(es) - 1
  {
    if es != [] && !IsContent(es[|es| - 1].extra) {
      ContentEndIsLast(es[..|es| - 1]);
    }
  }

  lemma ContentTrims(row: Row, cols: nat)
    requires RowOk(row, cols) && Sorted(row.extras)
    ensures ContentLen(row) <= cols
    ensures AllBlank(Glyphs(row.cells, row.extras)[ContentLen(row)..])
    ensures ContentLen(row) > 0 ==> !BlankGlyph(Glyphs(row.cells, row.extras)[ContentLen(row) - 1])
  {
    hide ExtrasAt, ContentEnd, CellsLen;
    var gs, n := Glyphs(row.cells, row.extras), ContentLen(row);
    ContentEndIsLast(row.extras);
    if ContentEnd(row.extras) > 0 {
      var i :| 0 <= i < |row.extras| && IsContent(row.extras[i].extra)
        && row.extras[i].at == ContentEnd(row.extras) - 1;
      assert row.extras[i] in row.extras;
      ExtrasAtContent(row.extras, ContentEnd(row.extras) - 1);
    }
    forall k | n <= k < cols ensures BlankGlyph(gs[k]) {
      ExtrasAtContent(row.extras, k);
    }
  }

  lemma LineTrims(row: Row, cols: nat)
    requires RowOk(row, cols) && Sorted(row.extras)
    ensures TrimsTo(Glyphs(row.cells, row.extras), LineOf(row).glyphs)
    ensures LineLen(row) <= cols
  {
    ContentTrims(row, cols);
  }

  lemma DepartReads(row: Row, cols: nat)
    requires RowOk(row, cols)
    ensures LineOfDeparted(Depart(row)) == LineOf(row)
  {
    var n := Min(LineLen(row), |row.cells|);
    forall k: nat | k < n
      ensures ExtrasAt(CutOff(Drawn(row.extras), n), k) == ExtrasAt(row.extras, k)
    {
      ExtrasAtCutOff(Drawn(row.extras), n, k);
      ExtrasAtDrawn(row.extras, k);
    }
    assert Glyphs(row.cells, row.extras)[..n] == Glyphs(Depart(row).cells, Depart(row).extras);
  }

  lemma DepartAllReads(rows: seq<Row>, cols: nat)
    requires RowsOk(rows, cols)
    ensures LinesOfDeparted(DepartAll(rows)) == LinesOf(rows)
  {
    forall i | 0 <= i < |rows| ensures LineOfDeparted(Depart(rows[i])) == LineOf(rows[i]) {
      DepartReads(rows[i], cols);
    }
  }

  // ----- a line does not read semantic marks -----

  lemma {:induction false} ContentEndConcat(a: seq<Entry>, b: seq<Entry>)
    ensures ContentEnd(a + b) == if ContentEnd(b) > 0 then ContentEnd(b) else ContentEnd(a)
  {
    if b == [] {
      assert a + b == a;
    } else if !IsContent(b[|b| - 1].extra) {
      ContentEndConcat(a, b[..|b| - 1]);
      assert (a + b)[..|a + b| - 1] == a + b[..|b| - 1];
    }
  }

  lemma {:induction false} ContentEndDrawn(es: seq<Entry>)
    ensures ContentEnd(Drawn(es)) == ContentEnd(es)
  {
    if es != [] {
      ContentEndDrawn(es[1..]);
      ContentEndConcat([es[0]], es[1..]);
      ContentEndConcat([es[0]], Drawn(es[1..]));
      assert es == [es[0]] + es[1..];
    }
  }

  /** Rows that look the same read the same, whatever semantic marks they carry. */
  lemma SeenSameLine(a: Row, b: Row)
    requires Seen(a) == Seen(b)
    ensures LineOf(a) == LineOf(b)
    ensures Glyphs(a.cells, a.extras) == Glyphs(b.cells, b.extras)
  {
    ContentEndDrawn(a.extras);
    ContentEndDrawn(b.extras);
    forall k: nat ensures ExtrasAt(a.extras, k) == ExtrasAt(b.extras, k) {
      ExtrasAtDrawn(a.extras, k);
      ExtrasAtDrawn(b.extras, k);
    }
  }
}
