/** What the control data of a graphics command says (src/emu/kitty.rs): a command written out key by key is the
    command that is read. */
module KittyCommand {
  import opened KittyProtocol
  import opened Cells

  /** The letter of each action. */
  function ActionName(action: Action): string {
    match action
    case Transmit => "t"
    case Display => "T"
    case Put => "p"
    case Delete => "d"
    case Query => "q"
  }

  /** The number of each format: bits for each pixel, or a whole file. */
  function FormatName(format: Format): string {
    match format
    case Rgb24 => "24"
    case Rgba32 => "32"
    case PngFile => "100"
  }

  function Decimal(n: nat): (text: string)
    ensures text != "" && forall i :: 0 <= i < |text| ==> '0' <= text[i] <= '9'
  {
    if n < 10 then ['0' + n as char] else Decimal(n / 10) + ['0' + (n % 10) as char]
  }

  lemma {:induction false} DecimalValue(n: nat)
    ensures DigitsValue(Decimal(n)) == Some(n)
  {
    var text := Decimal(n);
    if n < 10 {
      assert text[..0] == "" && DigitsValue("") == Some(0);
    } else {
      DecimalValue(n / 10);
      assert text[..|text| - 1] == Decimal(n / 10);
    }
  }

  lemma DecimalReads(n: nat)
    requires n < 0x1_0000_0000
    ensures Number(Decimal(n)) == n
  {
    hide Decimal, DigitsValue;
    DecimalValue(n);
  }

  // ----- a command written out -----

  datatype Pair = Pair(key: string, value: string)

  function PairText(p: Pair): string {
    p.key + "=" + p.value
  }

  /** Pairs, a comma between them. */
  function Text(pairs: seq<Pair>): string {
    if pairs == [] then "" else if |pairs| == 1 then PairText(pairs[0]) else PairText(pairs[0]) + "," + Text(pairs[1..])
  }

  function YesNo(yes: bool): string {
    if yes then "1" else "0"
  }

  /** Every field of a command under its own key. A picture that is not compressed is one that does not say so. */
  function Written(cmd: Command): seq<Pair> {
    [Pair("a", ActionName(cmd.action)), Pair("f", FormatName(cmd.format)), Pair("m", YesNo(cmd.more)),
     Pair("i", Decimal(cmd.id)), Pair("s", Decimal(cmd.w)), Pair("v", Decimal(cmd.h)), Pair("c", Decimal(cmd.cols)),
     Pair("r", Decimal(cmd.rows)), Pair("q", Decimal(cmd.quiet)), Pair("C", YesNo(cmd.freezeCursor))]
    + if cmd.compressed then [Pair("o", "z")] else []
  }

  predicate PairOk(p: Pair) {
    '=' !in p.key && ',' !in p.key && ',' !in p.value && NamedKey(p.key).Some?
  }

  /** The pairs read in turn. */
  function ReadEach(cmd: Command, pairs: seq<Pair>): Command
    requires forall i :: 0 <= i < |pairs| ==> PairOk(pairs[i])
    decreases |pairs|
  {
    if pairs == [] then cmd
    else
      assert PairOk(pairs[0]);
      ReadEach(Read(cmd, NamedKey(pairs[0].key).value, pairs[0].value), pairs[1..])
  }

  lemma PairReads(cmd: Command, p: Pair)
    requires PairOk(p)
    ensures ReadPair(cmd, PairText(p)) == Read(cmd, NamedKey(p.key).value, p.value) && ',' !in PairText(p)
  {
    hide Read, NamedKey;
    var text := p.key + ['='] + p.value;
    assert PairText(p) == text;
    FindAcross(p.key, '=', p.value);
    KeyHasNone(p.key, '=');
    assert text[..|p.key|] == p.key && text[|p.key| + 1..] == p.value;
  }

  lemma KeyHasNone(key: string, c: char)
    requires c !in key
    ensures Find(key, c) == |key|
  {
  }

  lemma {:induction false} TextReads(cmd: Command, pairs: seq<Pair>)
    requires pairs != [] && forall i :: 0 <= i < |pairs| ==> PairOk(pairs[i])
    ensures ReadAll(cmd, Text(pairs)) == ReadEach(cmd, pairs)
    decreases |pairs|
  {
    hide PairOk, Read, ReadPair, ReadAll, PairText, NamedKey;
    var first, rest := pairs[0], pairs[1..];
    PairReads(cmd, first);
    OnePair(cmd, PairText(first));
    if |pairs| > 1 {
      ReadAllAcross(cmd, PairText(first), Text(rest));
      TextReads(ReadPair(cmd, PairText(first)), rest);
    }
  }

  /** The fields fit: 32 bits, 16 for the cells, eight for how quiet to be; and what applies is what is named. */
  predicate Fits(cmd: Command) {
    && cmd.id < 0x1_0000_0000 && cmd.w < 0x1_0000_0000 && cmd.h < 0x1_0000_0000
    && cmd.cols <= 0xFFFF && cmd.rows <= 0xFFFF && cmd.quiet <= 0xFF
    && cmd.unsupported == None && cmd.explicitAction == Some(cmd.action) && cmd.explicitId == Some(cmd.id)
  }

  /** What the keys of names and of yes or no set, and to what. */
  lemma NamesSet(cmd: Command, action: Action, format: Format, yes: bool)
    ensures Read(cmd, ActionKey, ActionName(action)) == cmd.(action := action, explicitAction := Some(action))
    ensures Read(cmd, FormatKey, FormatName(format)) == cmd.(format := format)
    ensures Read(cmd, MoreKey, YesNo(yes)) == cmd.(more := yes)
    ensures Read(cmd, CursorKey, YesNo(yes)) == cmd.(freezeCursor := yes)
    ensures Read(cmd, CompressionKey, "z") == cmd.(compressed := true)
  {
    hide Number;
    YesNoReads(yes);
    ActionReads(action);
    FormatReads(format);
    assert YesNo(yes) == "1" <==> yes;
  }

  lemma ActionReads(action: Action)
    ensures NamedAction(ActionName(action)) == action
  {
  }

  lemma FormatReads(format: Format)
    ensures NamedFormat(FormatName(format)) == format
  {
  }

  /** What the keys of a picture's name and size set, and to what. */
  lemma SizesSet(cmd: Command, n: nat)
    requires n < 0x1_0000_0000
    ensures Read(cmd, IdKey, Decimal(n)) == cmd.(id := n, explicitId := Some(n))
    ensures Read(cmd, WidthKey, Decimal(n)) == cmd.(w := n) && Read(cmd, HeightKey, Decimal(n)) == cmd.(h := n)
  {
    hide Decimal, Number;
    DecimalReads(n);
  }

  /** What the keys of smaller numbers set, and to what. */
  lemma CellsSet(cmd: Command, n: nat)
    requires n <= 0xFFFF
    ensures Read(cmd, ColsKey, Decimal(n)) == cmd.(cols := n) && Read(cmd, RowsKey, Decimal(n)) == cmd.(rows := n)
    ensures n <= 0xFF ==> Read(cmd, QuietKey, Decimal(n)) == cmd.(quiet := n)
  {
    hide Decimal, Number;
    DecimalReads(n);
  }

  lemma YesNoReads(yes: bool)
    ensures Number(YesNo(yes)) == if yes then 1 else 0
  {
    DecimalReads(1);
    DecimalReads(0);
    assert Decimal(1) == "1" && Decimal(0) == "0";
  }

  lemma Keys()
    ensures NamedKey("a") == Some(ActionKey) && NamedKey("f") == Some(FormatKey) && NamedKey("m") == Some(MoreKey)
    ensures NamedKey("i") == Some(IdKey) && NamedKey("s") == Some(WidthKey) && NamedKey("v") == Some(HeightKey)
    ensures NamedKey("c") == Some(ColsKey) && NamedKey("r") == Some(RowsKey) && NamedKey("q") == Some(QuietKey)
    ensures NamedKey("C") == Some(CursorKey) && NamedKey("o") == Some(CompressionKey)
  {
  }

  /** One more pair read. */
  lemma ReadNext(cmd: Command, first: Pair, rest: seq<Pair>, next: Command)
    requires PairOk(first) && (forall i :: 0 <= i < |rest| ==> PairOk(rest[i]))
    requires Read(cmd, NamedKey(first.key).value, first.value) == next
    ensures ReadEach(cmd, [first] + rest) == ReadEach(next, rest)
  {
    hide Read, NamedKey, PairOk;
    assert ([first] + rest)[1..] == rest;
  }

  predicate AllOk(pairs: seq<Pair>) {
    forall i :: 0 <= i < |pairs| ==> PairOk(pairs[i])
  }

  lemma NamesRead(c: Command, cmd: Command, rest: seq<Pair>)
    requires Fits(cmd) && AllOk(rest)
    ensures var pairs := [Pair("a", ActionName(cmd.action))] + ([Pair("f", FormatName(cmd.format))]
                         + ([Pair("m", YesNo(cmd.more))] + rest));
            && AllOk(pairs)
            && ReadEach(c, pairs)
               == ReadEach(c.(action := cmd.action, explicitAction := Some(cmd.action), format := cmd.format,
                              more := cmd.more), rest)
  {
    hide Read, NamedKey;
    Keys();
    var a, f, m := Pair("a", ActionName(cmd.action)), Pair("f", FormatName(cmd.format)), Pair("m", YesNo(cmd.more));
    var c1 := c.(action := cmd.action, explicitAction := Some(cmd.action));
    var c2 := c1.(format := cmd.format);
    var c3 := c2.(more := cmd.more);
    NamesSet(c, cmd.action, cmd.format, cmd.more);
    NamesSet(c1, cmd.action, cmd.format, cmd.more);
    NamesSet(c2, cmd.action, cmd.format, cmd.more);
    ReadNext(c2, m, rest, c3);
    ReadNext(c1, f, [m] + rest, c2);
    ReadNext(c, a, [f] + ([m] + rest), c1);
  }

  lemma SizesRead(c: Command, cmd: Command, rest: seq<Pair>)
    requires Fits(cmd) && AllOk(rest)
    ensures var pairs := [Pair("i", Decimal(cmd.id))]
                + ([Pair("s", Decimal(cmd.w))] + ([Pair("v", Decimal(cmd.h))] + rest));
            && AllOk(pairs)
            && ReadEach(c, pairs)
               == ReadEach(c.(id := cmd.id, explicitId := Some(cmd.id), w := cmd.w, h := cmd.h), rest)
  {
    hide Read, NamedKey, Decimal;
    Keys();
    var i, s, v := Pair("i", Decimal(cmd.id)), Pair("s", Decimal(cmd.w)), Pair("v", Decimal(cmd.h));
    var c1 := c.(id := cmd.id, explicitId := Some(cmd.id));
    var c2 := c1.(w := cmd.w);
    SizesSet(c, cmd.id);
    SizesSet(c1, cmd.w);
    SizesSet(c2, cmd.h);
    ReadNext(c2, v, rest, c2.(h := cmd.h));
    ReadNext(c1, s, [v] + rest, c2);
    ReadNext(c, i, [s] + ([v] + rest), c1);
  }

  lemma CellsRead(c: Command, cmd: Command, rest: seq<Pair>)
    requires Fits(cmd) && AllOk(rest)
    ensures var pairs := [Pair("c", Decimal(cmd.cols))] + ([Pair("r", Decimal(cmd.rows))]
                         + ([Pair("q", Decimal(cmd.quiet))] + rest));
            && AllOk(pairs)
            && ReadEach(c, pairs) == ReadEach(c.(cols := cmd.cols, rows := cmd.rows, quiet := cmd.quiet), rest)
  {
    hide Read, NamedKey, Decimal;
    Keys();
    var n, r, q := Pair("c", Decimal(cmd.cols)), Pair("r", Decimal(cmd.rows)), Pair("q", Decimal(cmd.quiet));
    var c1 := c.(cols := cmd.cols);
    var c2 := c1.(rows := cmd.rows);
    CellsSet(c, cmd.cols);
    CellsSet(c1, cmd.rows);
    CellsSet(c2, cmd.quiet);
    ReadNext(c2, q, rest, c2.(quiet := cmd.quiet));
    ReadNext(c1, r, [q] + rest, c2);
    ReadNext(c, n, [r] + ([q] + rest), c1);
  }

  lemma LastRead(c: Command, cmd: Command)
    requires !c.compressed
    ensures var more := if cmd.compressed then [Pair("o", "z")] else [];
            && AllOk([Pair("C", YesNo(cmd.freezeCursor))] + more)
            && ReadEach(c, [Pair("C", YesNo(cmd.freezeCursor))] + more)
               == c.(freezeCursor := cmd.freezeCursor, compressed := cmd.compressed)
  {
    hide Read, NamedKey;
    Keys();
    var more := if cmd.compressed then [Pair("o", "z")] else [];
    var next := c.(freezeCursor := cmd.freezeCursor);
    NamesSet(c, Transmit, Rgba32, cmd.freezeCursor);
    NamesSet(next, Transmit, Rgba32, true);
    ReadNext(c, Pair("C", YesNo(cmd.freezeCursor)), more, next);
    if cmd.compressed {
      assert [Pair("o", "z")] + [] == more;
      ReadNext(next, Pair("o", "z"), [], next.(compressed := true));
    }
    assert forall d :: ReadEach(d, []) == d;
  }

  /** A command written out is the command that is read. */
  lemma CommandReadsBack(cmd: Command)
    requires Fits(cmd)
    ensures Parse(Text(Written(cmd))) == cmd
  {
    hide ReadAll, Read, ReadEach, NamedKey, Text, Decimal, ActionName, FormatName, YesNo, PairOk;
    var end := [Pair("C", YesNo(cmd.freezeCursor))] + if cmd.compressed then [Pair("o", "z")] else [];
    var cells := [Pair("c", Decimal(cmd.cols))]
        + ([Pair("r", Decimal(cmd.rows))] + ([Pair("q", Decimal(cmd.quiet))] + end));
    var sizes := [Pair("i", Decimal(cmd.id))] + ([Pair("s", Decimal(cmd.w))] + ([Pair("v", Decimal(cmd.h))] + cells));
    var c1 := DEFAULT.(action := cmd.action, explicitAction := Some(cmd.action), format := cmd.format,
        more := cmd.more);
    var c2 := c1.(id := cmd.id, explicitId := Some(cmd.id), w := cmd.w, h := cmd.h);
    var c3 := c2.(cols := cmd.cols, rows := cmd.rows, quiet := cmd.quiet);
    LastRead(c3, cmd);
    CellsRead(c2, cmd, end);
    SizesRead(c1, cmd, cells);
    NamesRead(DEFAULT, cmd, sizes);
    var pairs := [Pair("a", ActionName(cmd.action))] + ([Pair("f", FormatName(cmd.format))]
                 + ([Pair("m", YesNo(cmd.more))] + sizes));
    assert Written(cmd) == pairs;
    TextReads(DEFAULT, pairs);
  }

  /** What the terminal does not do is remembered, by name, whatever else is said. */
  lemma RefusedCapabilities(before: string, medium: string, scheme: string)
    requires ',' !in medium && medium != "d" && ',' !in scheme && scheme != "z"
    ensures Parse(before + "," + ("t=" + medium)).unsupported == Some("ENOTSUPPORTED:medium")
    ensures Parse(before + "," + ("o=" + scheme)).unsupported == Some("ENOTSUPPORTED:compression")
    ensures Parse(before + "," + "U=1").unsupported == Some("ENOTSUPPORTED:placeholder")
  {
    hide ReadAll, ReadPair;
    Alone(before, Pair("t", medium));
    Alone(before, Pair("o", scheme));
    Alone(before, Pair("U", "1"));
    assert PairText(Pair("t", medium)) == "t=" + medium && PairText(Pair("o", scheme)) == "o=" + scheme;
    assert PairText(Pair("U", "1")) == "U=1";
  }

  lemma Alone(before: string, p: Pair)
    requires PairOk(p)
    ensures Parse(before + "," + PairText(p)) == Read(ReadAll(DEFAULT, before), NamedKey(p.key).value, p.value)
  {
    hide ReadAll, ReadPair, Read, NamedKey, PairOk, PairText;
    ReadAllAcross(DEFAULT, before, PairText(p));
    PairReads(ReadAll(DEFAULT, before), p);
    OnePair(ReadAll(DEFAULT, before), PairText(p));
  }
}
