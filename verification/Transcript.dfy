/** The rewrap destroys no text: read back from the rows it hands over and the grid it leaves,
    the logical lines are the ones the grid spelled before. */
module Transcript {
  import opened Cells
  import opened RowLaws
  import opened Grid
  import opened Reading
  import opened Reflow
  import opened ReflowLaws
  import opened Recut

  ghost function TrimAll(ls: seq<seq<Glyph>>): (r: seq<seq<Glyph>>)
    ensures |r| == |ls|
  {
    seq(|ls|, i requires 0 <= i < |ls| => Trim(ls[i]))
  }

  ghost predicate PlainRowCells(rows: seq<Row>) {
    forall i :: 0 <= i < |rows| ==> Plain(rows[i].cells)
  }

  ghost predicate PlainLines(lines: seq<Logical>) {
    forall i :: 0 <= i < |lines| ==> Plain(lines[i].cells)
  }

  lemma PlainLinesAreEven(lines: seq<Logical>, cols: nat)
    requires PlainLines(lines) && cols >= 1
    ensures EvenLines(lines, cols)
  {
    forall i | 0 <= i < |lines| ensures Even(lines[i].cells, cols) {
      PlainIsEven(lines[i].cells, cols);
    }
  }

  /** No row boundary the rewrap makes falls inside a character. */
  ghost predicate CutsCleanly(g: Grid, cols: nat)
    requires Shape(g) && cols >= 1
  {
    EvenLines(Reseam(g, cols).lines, cols)
  }

  // ----- the flow of rows reads back as its lines -----

  lemma LinesOfConcat(a: seq<Row>, b: seq<Row>)
    ensures LinesOf(a + b) == LinesOf(a) + LinesOf(b)
  {
  }

  lemma TrimAllConcat(a: seq<seq<Glyph>>, b: seq<seq<Glyph>>)
    ensures TrimAll(a + b) == TrimAll(a) + TrimAll(b)
  {
  }

  /** Each text is read back less some of its trailing blanks. */
  ghost predicate EachTrimsTo(texts: seq<seq<Glyph>>, read: seq<seq<Glyph>>) {
    |read| == |texts| && forall i :: 0 <= i < |texts| ==> TrimsTo(texts[i], read[i])
  }

  /** The parts each read as one line, and none runs on into the next. */
  ghost predicate ReadAs(parts: seq<seq<Row>>, texts: seq<seq<Glyph>>) {
    && |parts| == |texts|
    && forall i :: 0 <= i < |parts| ==>
         var ls := LinesOf(parts[i]);
         Closed(ls) && ls != [] && |Read(ls)| == 1 && TrimsTo(texts[i], Read(ls)[0])
  }

  lemma EachTrimsToSnoc(texts: seq<seq<Glyph>>, read: seq<seq<Glyph>>, text: seq<Glyph>, one: seq<seq<Glyph>>)
    requires EachTrimsTo(texts, read) && |one| == 1 && TrimsTo(text, one[0])
    ensures EachTrimsTo(texts + [text], read + one)
  {
  }

  lemma NothingReads(texts: seq<seq<Glyph>>)
    requires ReadAs([], texts)
    ensures Closed(LinesOf(Concat([]))) && EachTrimsTo(texts, Read(LinesOf(Concat([]))))
  {
  }

  lemma ReadAsSnoc(parts: seq<seq<Row>>, texts: seq<seq<Glyph>>)
    requires ReadAs(parts, texts) && parts != []
    ensures |parts| == |texts| && ReadAs(parts[..|parts| - 1], texts[..|parts| - 1])
    ensures var ls, text := LinesOf(parts[|parts| - 1]), texts[|parts| - 1];
            Closed(ls) && ls != [] && |Read(ls)| == 1 && TrimsTo(text, Read(ls)[0])
  {
  }

  lemma ClosedConcat(a: seq<Line>, b: seq<Line>)
    requires Closed(b) && b != []
    ensures Closed(a + b)
  {
  }

  lemma {:induction false} ConcatReads(parts: seq<seq<Row>>, texts: seq<seq<Glyph>>)
    requires ReadAs(parts, texts)
    ensures Closed(LinesOf(Concat(parts)))
    ensures EachTrimsTo(texts, Read(LinesOf(Concat(parts))))
  {
    hide ReadAs, Closed, EachTrimsTo, Read, LinesOf;
    if parts == [] {
      NothingReads(texts);
    } else {
      var n := |parts| - 1;
      var above, last := Concat(parts[..n]), parts[n];
      ReadAsSnoc(parts, texts);
      ConcatReads(parts[..n], texts[..n]);
      LinesOfConcat(above, last);
      ClosedConcat(LinesOf(above), LinesOf(last));
      ReadClosed(LinesOf(above), LinesOf(last));
      EachTrimsToSnoc(texts[..n], Read(LinesOf(above)), texts[n], Read(LinesOf(last)));
      assert texts == texts[..n] + [texts[n]];
    }
  }

  ghost function Texts(lines: seq<Logical>): (r: seq<seq<Glyph>>)
    ensures |r| == |lines|
  {
    TrimAll(AllGlyphs(lines))
  }

  lemma FlowTrims(lines: seq<Logical>, cols: nat)
    requires cols >= 1 && EvenLines(lines, cols)
    ensures Closed(LinesOf(Flow(lines, cols)))
    ensures EachTrimsTo(AllGlyphs(lines), Read(LinesOf(Flow(lines, cols))))
  {
    var parts := Chunks(lines, cols);
    forall i | 0 <= i < |parts|
      ensures var ls := LinesOf(parts[i]);
              Closed(ls) && ls != [] && |Read(ls)| == 1 && TrimsTo(AllGlyphs(lines)[i], Read(ls)[0])
    {
      ChunkReadsIff(lines[i], cols);
    }
    ConcatReads(parts, AllGlyphs(lines));
  }

  lemma EachTrimsToSameTrim(texts: seq<seq<Glyph>>, read: seq<seq<Glyph>>)
    requires EachTrimsTo(texts, read)
    ensures TrimAll(read) == TrimAll(texts)
  {
    forall i | 0 <= i < |texts| ensures Trim(read[i]) == Trim(texts[i]) {
      TrimsToSameTrim(texts[i], read[i]);
    }
  }

  lemma FlowReads(lines: seq<Logical>, cols: nat)
    requires cols >= 1 && EvenLines(lines, cols)
    ensures Closed(LinesOf(Flow(lines, cols)))
    ensures TrimAll(Read(LinesOf(Flow(lines, cols)))) == Texts(lines)
  {
    FlowTrims(lines, cols);
    EachTrimsToSameTrim(AllGlyphs(lines), Read(LinesOf(Flow(lines, cols))));
  }

  lemma TrimAllSplit(a: seq<seq<Glyph>>, b: seq<seq<Glyph>>, x: seq<seq<Glyph>>, y: seq<seq<Glyph>>)
    requires |a| == |x| && TrimAll(a + b) == x + y
    ensures TrimAll(a) == x && TrimAll(b) == y
  {
    TrimAllConcat(a, b);
    assert (TrimAll(a) + TrimAll(b))[..|a|] == TrimAll(a) && (TrimAll(a) + TrimAll(b))[|a|..] == TrimAll(b);
    assert (x + y)[..|x|] == x && (x + y)[|x|..] == y;
  }

  lemma FlowSnoc(lines: seq<Logical>, cols: nat)
    requires lines != []
    ensures var n := |lines| - 1;
            LinesOf(Flow(lines, cols)) == LinesOf(Flow(lines[..n], cols)) + LinesOf(Chunk(lines[n], cols))
  {
    var n := |lines| - 1;
    assert Chunks(lines, cols)[..n] == Chunks(lines[..n], cols);
    LinesOfConcat(Flow(lines[..n], cols), Chunk(lines[n], cols));
  }

  /** However lines are cut, they are not read back as more lines than they were. */
  lemma {:induction false} FlowReadsFew(lines: seq<Logical>, cols: nat)
    requires cols >= 1
    ensures |Read(LinesOf(Flow(lines, cols)))| <= |lines|
  {
    if lines != [] {
      var n := |lines| - 1;
      FlowSnoc(lines, cols);
      FlowReadsFew(lines[..n], cols);
      ChunkReadsIff(lines[n], cols);
      ReadJoin(LinesOf(Flow(lines[..n], cols)), LinesOf(Chunk(lines[n], cols)));
    }
  }

  /** Rows that read as `n` lines, one more, and then what is below, run into nothing on the way. */
  lemma ReadApart(above: seq<Line>, one: seq<Line>, below: seq<Line>, n: nat)
    requires |Read(above)| <= n && one != [] && |Read(one)| == 1
    requires |Read((above + one) + below)| == n + 1 + |Read(below)|
    ensures |Read(above)| == n
    ensures Read((above + one) + below) == Read(above) + (Read(one) + Read(below))
  {
    assert (above + one) + below == above + (one + below);
    ReadJoin(above, one + below);
    ReadJoin(one, below);
    ReadClosed(above, one + below);
    if below == [] {
      assert one + below == one && Read(one) + Read(below) == Read(one);
    } else {
      ReadClosed(one, below);
    }
  }

  lemma ApartMatch(a: seq<seq<Glyph>>, one: seq<seq<Glyph>>, b: seq<seq<Glyph>>, texts: seq<seq<Glyph>>, text: seq<Glyph>)
    requires |a| == |texts| && |one| == 1 && TrimAll(a + (one + b)) == (texts + [text]) + TrimAll(b)
    ensures TrimAll(a) == texts && Trim(one[0]) == text
  {
    assert (texts + [text]) + TrimAll(b) == texts + ([text] + TrimAll(b));
    TrimAllSplit(a, one + b, texts, [text] + TrimAll(b));
    TrimAllSplit(one, b, [text], TrimAll(b));
    assert TrimAll(one)[0] == [text][0];
  }

  lemma OverNothing(above: seq<Line>, texts: seq<seq<Glyph>>)
    requires TrimAll(Read(above)) == texts
    ensures TrimAll(Read(above + [])) == texts + TrimAll(Read([]))
  {
    assert above + [] == above;
  }

  lemma {:induction false} FlowReadsOnlyIf(lines: seq<Logical>, cols: nat, below: seq<Line>)
    requires cols >= 1
    requires TrimAll(Read(LinesOf(Flow(lines, cols)) + below)) == Texts(lines) + TrimAll(Read(below))
    ensures EvenLines(lines, cols)
  {
    hide Even, Flow, Chunk, LineGlyphs, TrimAll, Read, Texts, LinesOf, Trim, Closed;
    if lines != [] {
      var n := |lines| - 1;
      var above, one := LinesOf(Flow(lines[..n], cols)), LinesOf(Chunk(lines[n], cols));
      FlowSnoc(lines, cols);
      FlowReadsFew(lines[..n], cols);
      ChunkReadsIff(lines[n], cols);
      ReadApart(above, one, below, n);
      TextsSnoc(lines);
      ApartMatch(Read(above), Read(one), Read(below), Texts(lines[..n]), Trim(LineGlyphs(lines[n])));
      OverNothing(above, Texts(lines[..n]));
      FlowReadsOnlyIf(lines[..n], cols, []);
    }
  }

  lemma TextsSnoc(lines: seq<Logical>)
    requires lines != []
    ensures Texts(lines) == Texts(lines[..|lines| - 1]) + [Trim(LineGlyphs(lines[|lines| - 1]))]
  {
  }

  /** Over whatever is below, re-cut lines read back as themselves exactly when no character was cut. */
  lemma FlowReadsIff(lines: seq<Logical>, cols: nat, below: seq<Line>)
    requires cols >= 1
    ensures TrimAll(Read(LinesOf(Flow(lines, cols)) + below)) == Texts(lines) + TrimAll(Read(below))
            <==> EvenLines(lines, cols)
  {
    var flow := LinesOf(Flow(lines, cols));
    if EvenLines(lines, cols) {
      FlowReads(lines, cols);
      ReadClosed(flow, below);
      TrimAllConcat(Read(flow), Read(below));
    } else if TrimAll(Read(flow + below)) == Texts(lines) + TrimAll(Read(below)) {
      FlowReadsOnlyIf(lines, cols, below);
    }
  }

  // ----- the lines on the grid -----

  lemma PushPlain(line: Logical, row: Row)
    requires Plain(line.cells) && Plain(row.cells)
    ensures Plain(PushRow(line, row).cells)
  {
  }

  lemma {:induction false} AssemblePlain(rows: seq<Row>, n: nat)
    requires n <= |rows| && PlainRowCells(rows)
    ensures PlainLines(AssembleTo(rows, n).0)
  {
    hide PushRow;
    if n > 0 {
      AssemblePlain(rows, n - 1);
      var (lines, continuing) := AssembleTo(rows, n - 1);
      var started := if continuing then lines else lines + [EMPTY_LINE];
      assert PlainLines(started);
      PushPlain(started[|started| - 1], rows[n - 1]);
    }
  }

  /** The lines a rewrap works on are the lines the rows in use read as, up to blanks. */
  lemma GridLinesRead(g: Grid)
    requires Wf(g)
    ensures LinesOk(GridLines(g))
    ensures Texts(GridLines(g)) == TrimAll(Read(LinesOf(g.rows[..Used(g)])))
    ensures PlainRowCells(g.rows) ==> PlainLines(GridLines(g))
  {
    hide AssembleTo, LinePos, Read;
    AssembleReads(g.rows, Used(g), g.cols);
    var base := AssembleTo(g.rows, Used(g)).0;
    var (line, offset) := LinePos(g.rows, g.cursor.row, g.cursor.col, g.cursor.wrapPending);
    if PlainRowCells(g.rows) {
      AssemblePlain(g.rows, Used(g));
    }
    if line < |base| {
      PadGlyphs(base[line], offset);
      TrimsToSameTrim(LineGlyphs(PadLine(base[line], offset)), LineGlyphs(base[line]));
    }
    assert Texts(GridLines(g)) == Texts(base);
  }

  // ----- the seam -----

  lemma DropFrontAt(es: seq<Entry>, n: nat, k: nat)
    ensures ExtrasAt(DropFront(es, n), k) == ExtrasAt(es, n + k)
  {
  }

  lemma {:induction false} DropFrontFrom(es: seq<Entry>, n: nat)
    ensures forall e :: e in DropFront(es, n) ==> e.(at := n + e.at) in es
  {
    forall e | e in DropFront(es, n) ensures e.(at := n + e.at) in es {
      DroppedFrom(es, n, e);
    }
  }

  lemma {:induction false} DroppedFrom(es: seq<Entry>, n: nat, e: Entry)
    requires e in DropFront(es, n)
    ensures e.(at := n + e.at) in es
  {
    var moved := e.(at := n + e.at);
    if es[0].at >= n && e == es[0].(at := es[0].at - n) {
      assert moved == es[0];
    } else {
      DroppedFrom(es[1..], n, e);
      assert moved in es[1..];
    }
  }

  lemma AfterFrontGlyphs(line: Logical, n: nat)
    requires n <= |line.cells|
    ensures LineGlyphs(AfterFront(line, n)) == LineGlyphs(line)[n..]
    ensures LogicalOk(line) ==> LogicalOk(AfterFront(line, n))
    ensures Plain(line.cells) ==> Plain(AfterFront(line, n).cells)
  {
    DropFrontFrom(line.extras, n);
    forall k: nat | k < |line.cells| - n
      ensures ExtrasAt(DropFront(line.extras, n), k) == ExtrasAt(line.extras, n + k)
    {
      DropFrontAt(line.extras, n, k);
    }
  }

  /** The fragment handed over at the seam reads as the front of the first line. */
  lemma HandedReads(line: Logical, split: nat, wrapped: bool)
    requires split <= |line.cells|
    ensures var d := Depart(RowOf(line, 0, split, split, wrapped));
            && LineOfDeparted(d).wrapped == wrapped
            && TrimsTo(LineGlyphs(line)[..split], LineOfDeparted(d).glyphs)
            && (wrapped ==> LineOfDeparted(d).glyphs == LineGlyphs(line)[..split])
  {
    var row := RowOf(line, 0, split, split, wrapped);
    RowOfOk(line, 0, split, split, wrapped);
    RowOfGlyphs(line, 0, split, split, wrapped);
    LineTrims(row, split);
    DepartReads(row, split);
    assert LineGlyphs(line)[0..split] + Blanks(0) == LineGlyphs(line)[..split];
  }

  lemma TrimPrefix(p: seq<Glyph>, a: seq<Glyph>)
    ensures Trim(p + a) == if Trim(a) == [] then Trim(p) else p + Trim(a)
  {
    TrimsToPrefix(p, a, Trim(a));
    TrimsToSameTrim(p + a, p + Trim(a));
    assert p + [] == p;
  }

  lemma TrimPrefixIff(p: seq<Glyph>, a: seq<Glyph>, b: seq<Glyph>)
    ensures Trim(p + a) == Trim(p + b) <==> Trim(a) == Trim(b)
  {
    TrimPrefix(p, a);
    TrimPrefix(p, b);
    if Trim(a) != [] && Trim(b) != [] && p + Trim(a) == p + Trim(b) {
      assert (p + Trim(a))[|p|..] == Trim(a) && (p + Trim(b))[|p|..] == Trim(b);
    }
  }

  lemma FrontEnds(l: Line, below: seq<Line>)
    requires !l.wrapped
    ensures TrimAll(Read([l] + below)) == [Trim(l.glyphs)] + TrimAll(Read(below))
  {
    assert ([l] + below)[1..] == below;
    TrimAllConcat([l.glyphs], Read(below));
  }

  lemma FrontRunsOn(l: Line, below: seq<Line>, tail: seq<Glyph>, more: seq<seq<Glyph>>)
    requires l.wrapped && below != []
    ensures TrimAll(Read([l] + below)) == [Trim(l.glyphs + tail)] + more
            <==> TrimAll(Read(below)) == [Trim(tail)] + more
  {
    var r := Read(below);
    assert ([l] + below)[1..] == below;
    assert Read([l] + below) == [l.glyphs + r[0]] + r[1..];
    TrimAllConcat([l.glyphs + r[0]], r[1..]);
    TrimAllConcat([r[0]], r[1..]);
    assert r == [r[0]] + r[1..];
    TrimPrefixIff(l.glyphs, r[0], tail);
    HeadTail(Trim(l.glyphs + r[0]), TrimAll(r[1..]), Trim(l.glyphs + tail), more);
    HeadTail(Trim(r[0]), TrimAll(r[1..]), Trim(tail), more);
    assert TrimAll([r[0]]) == [Trim(r[0])] && TrimAll([l.glyphs + r[0]]) == [Trim(l.glyphs + r[0])];
  }

  lemma HeadTail(x: seq<Glyph>, xs: seq<seq<Glyph>>, y: seq<Glyph>, ys: seq<seq<Glyph>>)
    ensures [x] + xs == [y] + ys <==> x == y && xs == ys
  {
    assert ([x] + xs)[0] == x && ([x] + xs)[1..] == xs;
    assert ([y] + ys)[0] == y && ([y] + ys)[1..] == ys;
  }

  lemma TextsCons(lines: seq<Logical>)
    requires lines != []
    ensures Texts(lines) == [Trim(LineGlyphs(lines[0]))] + Texts(lines[1..])
  {
  }

  lemma SeamEnds(lines: seq<Logical>, handed: Line, below: seq<Line>, more: seq<seq<Glyph>>)
    requires lines != [] && !handed.wrapped && TrimsTo(LineGlyphs(lines[0]), handed.glyphs)
    ensures TrimAll(Read([handed] + below)) == Texts(lines) + more
            <==> TrimAll(Read(below)) == Texts(lines[1..]) + more
  {
    var text := Trim(LineGlyphs(lines[0]));
    TrimsToSameTrim(LineGlyphs(lines[0]), handed.glyphs);
    FrontEnds(handed, below);
    TextsCons(lines);
    assert Texts(lines) + more == [text] + (Texts(lines[1..]) + more);
    HeadTail(text, TrimAll(Read(below)), text, Texts(lines[1..]) + more);
  }

  lemma SeamCuts(lines: seq<Logical>, split: nat, handed: Line, below: seq<Line>, more: seq<seq<Glyph>>)
    requires lines != [] && split < |lines[0].cells| && below != []
    requires handed == Line(LineGlyphs(lines[0])[..split], true)
    ensures TrimAll(Read([handed] + below)) == Texts(lines) + more
            <==> TrimAll(Read(below)) == ([Trim(LineGlyphs(lines[0])[split..])] + Texts(lines[1..])) + more
  {
    hide Texts, Read, TrimAll, Trim, LineGlyphs;
    var gs := LineGlyphs(lines[0]);
    var rest := Texts(lines[1..]) + more;
    FrontRunsOn(handed, below, gs[split..], rest);
    assert gs[..split] + gs[split..] == gs;
    TextsCons(lines);
    assert Texts(lines) + more == [Trim(gs)] + rest;
    assert ([Trim(gs[split..])] + Texts(lines[1..])) + more == [Trim(gs[split..])] + rest;
  }

  lemma TextsAfterFront(lines: seq<Logical>, split: nat)
    requires lines != [] && split <= |lines[0].cells|
    ensures Texts(lines[0 := AfterFront(lines[0], split)])
            == [Trim(LineGlyphs(lines[0])[split..])] + Texts(lines[1..])
  {
    AfterFrontGlyphs(lines[0], split);
  }

  /** Whatever the seam hands over, and whatever comes to stand below it: the two together read as the
      lines there were exactly when what stands below reads as the lines left. */
  lemma SeamReadsIff(lines: seq<Logical>, head: nat, cols: nat, cursorLine: nat, cursorOffset: nat,
                     below: seq<Line>, more: seq<seq<Glyph>>)
    requires cols >= 1
    requires Realign(lines, head, cols, cursorLine, cursorOffset).lines != [] ==> below != []
    ensures var s := Realign(lines, head, cols, cursorLine, cursorOffset);
            TrimAll(Read(LinesOfDeparted(s.handed) + below)) == Texts(lines) + more
            <==> TrimAll(Read(below)) == Texts(s.lines) + more
  {
    hide LineGlyphs, AfterFront, RowOf, Depart;
    var s := Realign(lines, head, cols, cursorLine, cursorOffset);
    if head % cols == 0 || lines == [] {
      assert LinesOfDeparted([]) + below == below;
    } else {
      var split: nat := Min(cols - head % cols, |lines[0].cells|);
      var ends := split == |lines[0].cells|;
      HandedReads(lines[0], split, !ends);
      var handed := LineOfDeparted(s.handed[0]);
      assert LinesOfDeparted(s.handed) == [handed];
      if ends {
        assert LineGlyphs(lines[0])[..split] == LineGlyphs(lines[0]);
        SeamEnds(lines, handed, below, more);
      } else {
        TextsAfterFront(lines, split);
        SeamCuts(lines, split, handed, below, more);
      }
    }
  }

  lemma SeamPlain(lines: seq<Logical>, head: nat, cols: nat, cursorLine: nat, cursorOffset: nat)
    requires PlainLines(lines) && cols >= 1
    ensures PlainLines(Realign(lines, head, cols, cursorLine, cursorOffset).lines)
  {
  }

  /** Characters of one column are never cut. */
  lemma PlainCutsCleanly(g: Grid, cols: nat)
    requires Wf(g) && PlainRowCells(g.rows) && cols >= 1
    ensures PlainLines(Reseam(g, cols).lines) && CutsCleanly(g, cols)
  {
    hide Realign, GridLines, LinePos;
    var (line, offset) := LinePos(g.rows, g.cursor.row, g.cursor.col, g.cursor.wrapPending);
    GridLinesRead(g);
    SeamPlain(GridLines(g), g.carried * g.cols, cols, line, offset);
    PlainLinesAreEven(Reseam(g, cols).lines, cols);
  }

  // ----- the main result -----

  function EmptyLines(n: nat): (r: seq<seq<Glyph>>)
    ensures |r| == n
  {
    seq(n, _ => [])
  }

  lemma BlankRowsRead(n: nat, cols: nat)
    ensures Read(LinesOf(seq(n, _ => NewRow(cols)))) == EmptyLines(n)
  {
    var rows := seq(n, _ => NewRow(cols));
    if n > 0 {
      BlankRowsRead(n - 1, cols);
      assert LinesOf(rows)[1..] == LinesOf(seq(n - 1, _ => NewRow(cols)));
      assert CellsLen(NewRow(cols).cells) == 0;
      assert LineOf(NewRow(cols)) == Line([], false);
    }
  }

  lemma RefillReads(g: Grid, flow: seq<Row>, head: nat, placed: Cursor, rows: nat, cols: nat)
    requires rows >= 1 && cols >= 1 && placed.col < cols && RowsOk(flow, cols)
    ensures var (h, ev) := Refill(g, flow, head, placed, rows, cols);
            LinesOfDeparted(ev) + LinesOf(h.rows)
            == LinesOf(flow) + LinesOf(seq(Saturate(rows - |flow|), _ => NewRow(cols)))
  {
    var overflow := Saturate(|flow| - rows);
    var h := Refill(g, flow, head, placed, rows, cols).0;
    var pad := seq(Saturate(rows - |flow|), _ => NewRow(cols));
    assert h.rows == flow[overflow..] + pad;
    DepartAllReads(flow[..overflow], cols);
    LinesOfConcat(flow[..overflow], flow[overflow..]);
    LinesOfConcat(flow[overflow..], pad);
    assert flow == flow[..overflow] + flow[overflow..];
  }

  /** The blank rows a rewrap leaves below the text. */
  function Slack(g: Grid, rows: nat, cols: nat): nat
    requires Shape(g) && rows >= 1 && cols >= 1
  {
    Saturate(rows - |Flow(Reseam(g, cols).lines, cols)|)
  }

  lemma FlowNonempty(lines: seq<Logical>, cols: nat)
    requires lines != []
    ensures Flow(lines, cols) != []
  {
  }

  lemma FlowLines(lines: seq<Logical>, cols: nat)
    ensures |LinesOf(Flow(lines, cols))| == |Flow(lines, cols)|
    ensures lines != [] ==> LinesOf(Flow(lines, cols)) != []
  {
    if lines != [] {
      FlowNonempty(lines, cols);
    }
  }

  lemma BlankRowsTrim(n: nat, cols: nat)
    ensures TrimAll(Read(LinesOf(seq(n, _ => NewRow(cols))))) == EmptyLines(n)
  {
    BlankRowsRead(n, cols);
    assert TrimAll(EmptyLines(n)) == EmptyLines(n);
  }

  lemma DepartedConcat(a: Evicted, b: Evicted)
    ensures LinesOfDeparted(a + b) == LinesOfDeparted(a) + LinesOfDeparted(b)
  {
  }

  lemma LinesAssoc(a: seq<Line>, b: seq<Line>, c: seq<Line>)
    ensures (a + b) + c == a + (b + c)
  {
  }

  /** What departed and the new grid are, row for row, what the seam handed over, the flow, and blank rows. */
  lemma RefilledLines(g: Grid, handed: Evicted, flow: seq<Row>, head: nat, placed: Cursor, rows: nat, cols: nat)
    requires rows >= 1 && cols >= 1 && placed.col < cols && RowsOk(flow, cols)
    ensures var (h, ev) := Refill(g, flow, head, placed, rows, cols);
            LinesOfDeparted(handed + ev) + LinesOf(h.rows)
            == LinesOfDeparted(handed) + (LinesOf(flow) + LinesOf(seq(Saturate(rows - |flow|), _ => NewRow(cols))))
  {
    hide Refill, LinesOf, LinesOfDeparted;
    RefillReads(g, flow, head, placed, rows, cols);
    var (h, ev) := Refill(g, flow, head, placed, rows, cols);
    DepartedConcat(handed, ev);
    LinesAssoc(LinesOfDeparted(handed), LinesOfDeparted(ev), LinesOf(h.rows));
  }

  /** What a rewrap hands over and lays out, over `n` blank rows, reads as the rows in use exactly when no
      character is cut. */
  lemma ReseamReadsIff(g: Grid, cols: nat, n: nat)
    requires Wf(g) && cols >= 1
    ensures var s := Reseam(g, cols);
            var below := LinesOf(Flow(s.lines, cols)) + LinesOf(seq(n, _ => NewRow(cols)));
            TrimAll(Read(LinesOfDeparted(s.handed) + below))
            == TrimAll(Read(LinesOf(g.rows[..Used(g)]))) + EmptyLines(n)
            <==> CutsCleanly(g, cols)
  {
    hide Read, TrimAll, Flow, Realign, GridLines, LinePos, LinesOf, LinesOfDeparted, Texts, Used;
    var (line, offset) := LinePos(g.rows, g.cursor.row, g.cursor.col, g.cursor.wrapPending);
    var s := Reseam(g, cols);
    var pad := LinesOf(seq(n, _ => NewRow(cols)));
    GridLinesRead(g);
    FlowLines(s.lines, cols);
    SeamReadsIff(GridLines(g), g.carried * g.cols, cols, line, offset, LinesOf(Flow(s.lines, cols)) + pad,
                 EmptyLines(n));
    FlowReadsIff(s.lines, cols, pad);
    BlankRowsTrim(n, cols);
  }

  /** A rewrap preserves the transcript exactly when no row boundary of the new size falls inside a
      character: the lines read from the departed rows followed by the new grid are then the lines of the
      rows in use, character for character with style and attachments, up to trailing blanks of each line
      and empty lines below the last. */
  lemma RewrapKeepsTranscriptIff(g: Grid, rows: nat, cols: nat)
    requires Wf(g) && rows >= 1 && cols >= 1
    ensures var (h, ev) := Rewrap(g, rows, cols);
            TrimAll(Read(LinesOfDeparted(ev) + LinesOf(h.rows)))
            == TrimAll(Read(LinesOf(g.rows[..Used(g)]))) + EmptyLines(Slack(g, rows, cols))
            <==> CutsCleanly(g, cols)
  {
    hide Read, TrimAll, Flow, LinesOf, LinesOfDeparted, Refill, Reseam, PlacedCursor, Used, CutsCleanly;
    var s, n := Reseam(g, cols), Slack(g, rows, cols);
    FlowOk(s.lines, cols);
    RefilledLines(g, s.handed, Flow(s.lines, cols), s.head, PlacedCursor(s, cols), rows, cols);
    ReseamReadsIff(g, cols, n);
  }
}
