/** Sixel pictures (src/emu/sixel.rs): the tokens of a body, the two passes over them, and what the
    picture they spell looks like. */
module SixelPicture {
  import opened Cells
  import opened Utf8

  const U32: nat := 0xFFFF_FFFF
  const MAX_PIXELS: nat := 32 * 0x10_0000 / 4
  const BODY_LIMIT: nat := 8 * 0x10_0000
  const PALETTE_SIZE: nat := 256

  datatype Rgba = Rgba(red: nat, green: nat, blue: nat, alpha: nat)

  const CLEAR := Rgba(0, 0, 0, 0)

  datatype Percent = Percent(red: nat, green: nat, blue: nat)

  datatype Token =
    | Data(bits: nat, repeat: nat)
    | Color(index: nat, definition: Option<Percent>)
    | Raster(ph: nat, pv: nat)
    | CarriageReturn
    | NewLine

  /** Sums that stick at the largest 32-bit number. */
  function Sat(n: nat): nat {
    if n > U32 then U32 else n
  }

  function AtMost(n: nat, most: nat): nat {
    if n > most then most else n
  }

  // ----- tokens -----

  const BANG: Byte := 0x21
  const QUOTE: Byte := 0x22
  const HASH: Byte := 0x23
  const DOLLAR: Byte := 0x24
  const DASH: Byte := 0x2D
  const SEMICOLON: Byte := 0x3B

  predicate IsDigit(b: Byte) {
    0x30 <= b <= 0x39
  }

  predicate IsSixel(b: Byte) {
    0x3F <= b <= 0x7E
  }

  function Bits(b: Byte): (n: nat)
    requires IsSixel(b)
    ensures n < 64
  {
    b - 0x3F
  }

  /** How many digits some bytes begin with. */
  function Run(rest: seq<Byte>): (n: nat)
    ensures n <= |rest| && (forall i :: 0 <= i < n ==> IsDigit(rest[i])) && (n < |rest| ==> !IsDigit(rest[n]))
  {
    if rest == [] || !IsDigit(rest[0]) then 0 else 1 + Run(rest[1..])
  }

  function Digit(b: Byte): nat
    requires IsDigit(b)
  {
    b - 0x30
  }

  /** The number digits spell, sticking at the largest there is room for. */
  function Value(digits: seq<Byte>): nat
    requires forall i :: 0 <= i < |digits| ==> IsDigit(digits[i])
  {
    if digits == [] then 0
    else Sat(Value(digits[..|digits| - 1]) * 10 + Digit(digits[|digits| - 1]))
  }

  /** Parameters and how many bytes they took. */
  datatype Read = Read(values: seq<nat>, used: nat)

  /** Numbers between semicolons; an empty one at the front is none at all. */
  function Params(rest: seq<Byte>, sofar: seq<nat>): (r: Read)
    ensures r.used <= |rest|
    decreases |rest|
  {
    var n := Run(rest);
    var values := if n != 0 || sofar != [] then sofar + [Value(rest[..n])] else sofar;
    if n < |rest| && rest[n] == SEMICOLON then
      var more := Params(rest[n + 1..], values);
      Read(more.values, n + 1 + more.used)
    else Read(values, n)
  }

  function Nth(values: seq<nat>, i: nat): nat {
    if i < |values| then values[i] else 0
  }

  /** One instruction at the front of some bytes, which may come to nothing, or the end of them. */
  datatype Item = Item(token: Option<Token>, used: nat) | Finished

  function Step(rest: seq<Byte>): (item: Item)
    ensures item.Item? ==> 0 < item.used <= |rest|
  {
    if rest == [] then Finished
    else if IsSixel(rest[0]) then Item(Some(Data(Bits(rest[0]), 1)), 1)
    else if rest[0] == DOLLAR then Item(Some(CarriageReturn), 1)
    else if rest[0] == DASH then Item(Some(NewLine), 1)
    else if rest[0] == BANG then
      var read := Params(rest[1..], []);
      if 1 + read.used == |rest| then Finished
      else
        var b := rest[1 + read.used];
        Item(if IsSixel(b) then Some(Data(Bits(b), Nth(read.values, 0))) else None, read.used + 2)
    else if rest[0] == HASH then
      var read := Params(rest[1..], []);
      var index := AtMost(Nth(read.values, 0), 0xFFFF);
      var definition :=
        if |read.values| >= 5 && read.values[1] == 2 then
          Some(Percent(AtMost(read.values[2], 100), AtMost(read.values[3], 100), AtMost(read.values[4], 100)))
        else None;
      Item(Some(Color(index, definition)), 1 + read.used)
    else if rest[0] == QUOTE then
      var read := Params(rest[1..], []);
      Item(Some(if |read.values| >= 4 then Raster(read.values[2], read.values[3]) else Raster(0, 0)), 1 + read.used)
    else Item(None, 1)
  }

  function Tokens(rest: seq<Byte>): seq<Token>
    decreases |rest|
  {
    var item := Step(rest);
    if item.Finished? then []
    else (if item.token.Some? then [item.token.value] else []) + Tokens(rest[item.used..])
  }

  // ----- what tokens mean -----

  function XAfter(tokens: seq<Token>): (x: nat)
    ensures x <= U32
  {
    if tokens == [] then 0
    else
      var before := XAfter(tokens[..|tokens| - 1]);
      match tokens[|tokens| - 1]
      case Data(_, repeat) => Sat(before + repeat)
      case CarriageReturn => 0
      case NewLine => 0
      case _ => before
  }

  function BandAfter(tokens: seq<Token>): (band: nat)
    ensures band <= |tokens|
  {
    if tokens == [] then 0
    else
      var before := BandAfter(tokens[..|tokens| - 1]);
      if tokens[|tokens| - 1].NewLine? then Sat(before + 1) else before
  }

  function Scale(percent: nat): nat {
    (AtMost(percent, 100) * 255 + 50) / 100
  }

  function Opaque(c: Percent): Rgba {
    Rgba(Scale(c.red), Scale(c.green), Scale(c.blue), 255)
  }

  const DEFAULT_PALETTE: seq<Percent> :=
    [Percent(0, 0, 0), Percent(20, 20, 80), Percent(80, 13, 13), Percent(20, 80, 20),
     Percent(80, 20, 80), Percent(20, 80, 80), Percent(80, 80, 20), Percent(53, 53, 53),
     Percent(26, 26, 26), Percent(33, 33, 60), Percent(60, 26, 26), Percent(33, 60, 33),
     Percent(60, 33, 60), Percent(33, 60, 60), Percent(60, 60, 33), Percent(80, 80, 80)]

  /** What a register holds before anything is defined. */
  function Initial(index: nat): Rgba {
    if index < 16 then Opaque(DEFAULT_PALETTE[index]) else CLEAR
  }

  /** What a register holds: its last definition. */
  function RegisterAfter(tokens: seq<Token>, index: nat): Rgba {
    if tokens == [] then Initial(index)
    else
      var last := tokens[|tokens| - 1];
      if last.Color? && last.index == index && last.definition.Some? then Opaque(last.definition.value)
      else RegisterAfter(tokens[..|tokens| - 1], index)
  }

  /** The colour being drawn in: the last one defined, or the register last selected as it stood
      then; selecting a register there is not selects nothing. */
  function PenAfter(tokens: seq<Token>): Rgba {
    if tokens == [] then Initial(0)
    else
      var rest, last := tokens[..|tokens| - 1], tokens[|tokens| - 1];
      if last.Color? && last.definition.Some? then Opaque(last.definition.value)
      else if last.Color? && last.index < PALETTE_SIZE then RegisterAfter(rest, last.index)
      else PenAfter(rest)
  }

  /** Row `row` of a sixel is set. */
  predicate Bit(bits: nat, row: nat) {
    match row
    case 0 => bits % 2 == 1
    case 1 => bits / 2 % 2 == 1
    case 2 => bits / 4 % 2 == 1
    case 3 => bits / 8 % 2 == 1
    case 4 => bits / 16 % 2 == 1
    case 5 => bits / 32 % 2 == 1
    case _ => false
  }

  /** The lowest row a sixel sets. */
  function TopBit(bits: nat): nat {
    if bits < 2 then 0 else if bits < 4 then 1 else if bits < 8 then 2 else if bits < 16 then 3
    else if bits < 32 then 4 else 5
  }

  lemma TopBitIsLast(bits: nat, row: nat)
    requires 0 < bits < 64
    ensures Bit(bits, TopBit(bits))
    ensures Bit(bits, row) ==> row <= TopBit(bits)
  {
  }

  /** A token, drawn with the cursor where it is, sets this pixel. */
  predicate Covers(token: Token, x: nat, band: nat, px: nat, py: nat) {
    && token.Data?
    && x <= px < x + token.repeat
    && 6 * band <= py && Bit(token.bits, py - 6 * band)
  }

  /** The colour of a pixel: that of the last token to set it, or none at all. */
  function Shown(tokens: seq<Token>, px: nat, py: nat): Rgba {
    if tokens == [] then CLEAR
    else
      var rest, last := tokens[..|tokens| - 1], tokens[|tokens| - 1];
      if Covers(last, XAfter(rest), BandAfter(rest), px, py) then PenAfter(rest) else Shown(rest, px, py)
  }

  predicate CoveredBy(tokens: seq<Token>, i: nat, px: nat, py: nat)
    requires i < |tokens|
  {
    Covers(tokens[i], XAfter(tokens[..i]), BandAfter(tokens[..i]), px, py)
  }

  /** Tokens that miss a pixel leave it alone. */
  lemma {:induction false} MissedSince(tokens: seq<Token>, n: nat, px: nat, py: nat)
    requires n <= |tokens|
    requires forall j :: n <= j < |tokens| ==> !CoveredBy(tokens, j, px, py)
    ensures Shown(tokens, px, py) == Shown(tokens[..n], px, py)
    decreases |tokens|
  {
    hide Covers, XAfter, BandAfter, PenAfter, Shown;
    if n == |tokens| {
      assert tokens[..n] == tokens;
    } else {
      var last := |tokens| - 1;
      var rest := tokens[..last];
      forall j | n <= j < last ensures !CoveredBy(rest, j, px, py) {
        assert rest[..j] == tokens[..j] && !CoveredBy(tokens, j, px, py);
      }
      MissedSince(rest, n, px, py);
      assert rest[..n] == tokens[..n];
      assert !CoveredBy(tokens, last, px, py);
      ShownStep(tokens, px, py);
    }
  }

  lemma ShownStep(tokens: seq<Token>, px: nat, py: nat)
    requires tokens != []
    ensures
      var n := |tokens| - 1;
      Shown(tokens, px, py)
      == if CoveredBy(tokens, n, px, py) then PenAfter(tokens[..n]) else Shown(tokens[..n], px, py)
  {
    hide Covers, XAfter, BandAfter, PenAfter;
  }

  /** A pixel has the colour of the last token that covers it. */
  lemma LastCoverShows(tokens: seq<Token>, i: nat, px: nat, py: nat)
    requires i < |tokens| && CoveredBy(tokens, i, px, py)
    requires forall j :: i < j < |tokens| ==> !CoveredBy(tokens, j, px, py)
    ensures Shown(tokens, px, py) == PenAfter(tokens[..i])
  {
    hide Covers, XAfter, BandAfter, PenAfter, Shown;
    MissedSince(tokens, i + 1, px, py);
    var now := tokens[..i + 1];
    assert now[..i] == tokens[..i] && now[i] == tokens[i];
    assert CoveredBy(now, i, px, py);
    ShownStep(now, px, py);
  }

  /** A pixel no token covers is transparent. */
  lemma UncoveredIsClear(tokens: seq<Token>, px: nat, py: nat)
    requires forall j :: 0 <= j < |tokens| ==> !CoveredBy(tokens, j, px, py)
    ensures Shown(tokens, px, py) == CLEAR
  {
    hide CoveredBy;
    MissedSince(tokens, 0, px, py);
  }

  // ----- how large it is -----

  function WidthOf(tokens: seq<Token>): (w: nat)
    ensures XAfter(tokens) <= w
  {
    if tokens == [] then 0
    else
      var rest, last := tokens[..|tokens| - 1], tokens[|tokens| - 1];
      match last
      case Data(_, _) => Max(WidthOf(rest), XAfter(tokens))
      case Raster(ph, _) => Max(WidthOf(rest), ph)
      case _ => WidthOf(rest)
  }

  function HeightOf(tokens: seq<Token>): nat {
    if tokens == [] then 0
    else
      var rest, last := tokens[..|tokens| - 1], tokens[|tokens| - 1];
      match last
      case Data(bits, _) =>
        if bits != 0 then Max(HeightOf(rest), 6 * BandAfter(rest) + TopBit(bits) + 1) else HeightOf(rest)
      case Raster(_, pv) => Max(HeightOf(rest), pv)
      case _ => HeightOf(rest)
  }

  datatype Size = Size(w: nat, h: nat)

  /** A canvas there is something on and not too much of. */
  function Sized(w: nat, h: nat): Option<Size> {
    if w == 0 || h == 0 || w * h > MAX_PIXELS then None else Some(Size(w, h))
  }

  function Measure(tokens: seq<Token>): Option<Size> {
    Sized(WidthOf(tokens), HeightOf(tokens))
  }

  /** Rows of pixels. */
  datatype Bitmap = Bitmap(size: Size, pixels: seq<seq<Rgba>>)

  function Painted(tokens: seq<Token>, size: Size): Bitmap {
    Bitmap(size, seq(size.h, (y: nat) => seq(size.w, (x: nat) => Shown(tokens, x, y))))
  }

  function DecodeTokens(tokens: seq<Token>): Option<Bitmap> {
    var size := Measure(tokens);
    if size.None? then None else Some(Painted(tokens, size.value))
  }

  function Decode(body: seq<Byte>): Option<Bitmap> {
    DecodeTokens(Tokens(body))
  }

  // ----- the two passes agree -----

  lemma {:induction false} ExtentsGrow(tokens: seq<Token>, i: nat)
    requires i <= |tokens|
    ensures WidthOf(tokens[..i]) <= WidthOf(tokens) && HeightOf(tokens[..i]) <= HeightOf(tokens)
    decreases |tokens| - i
  {
    hide XAfter, BandAfter;
    if i < |tokens| {
      assert tokens[..i + 1][..i] == tokens[..i];
      ExtentsGrow(tokens, i + 1);
    } else {
      assert tokens[..i] == tokens;
    }
  }

  lemma SizedIsSmall(w: nat, h: nat)
    requires Sized(w, h).Some?
    ensures 0 < w <= MAX_PIXELS && 0 < h <= MAX_PIXELS && MAX_PIXELS < U32
  {
    Product(w, h);
  }

  lemma Product(w: nat, h: nat)
    requires w > 0 && h > 0
    ensures w * h >= w && w * h >= h
  {
  }

  /** Whenever there is a picture, every token lies wholly on its canvas: nothing is clipped, in
      either direction, and no cursor has stuck. */
  lemma NothingIsClipped(tokens: seq<Token>, i: nat, row: nat)
    requires Measure(tokens).Some? && i < |tokens| && tokens[i].Data? && tokens[i].bits < 64
    ensures XAfter(tokens[..i]) + tokens[i].repeat <= Measure(tokens).value.w
    ensures Bit(tokens[i].bits, row) ==> 6 * BandAfter(tokens[..i]) + row < Measure(tokens).value.h
  {
    hide BandAfter, Bit, TopBit, XAfter, WidthOf, HeightOf;
    ExtentsGrow(tokens, i + 1);
    SizedIsSmall(WidthOf(tokens), HeightOf(tokens));
    ReachOf(tokens, i);
    NoBits(row);
    if tokens[i].bits != 0 {
      TopBitIsLast(tokens[i].bits, row);
    }
  }

  /** What a token asks of the canvas. */
  lemma ReachOf(tokens: seq<Token>, i: nat)
    requires i < |tokens| && tokens[i].Data?
    ensures Sat(XAfter(tokens[..i]) + tokens[i].repeat) <= WidthOf(tokens[..i + 1])
    ensures tokens[i].bits != 0 ==> 6 * BandAfter(tokens[..i]) + TopBit(tokens[i].bits) + 1 <= HeightOf(tokens[..i + 1])
  {
    hide BandAfter, TopBit;
    assert tokens[..i + 1][..i] == tokens[..i];
  }

  lemma NoBits(row: nat)
    ensures !Bit(0, row)
  {
  }

  lemma CoveredIsInside(tokens: seq<Token>, i: nat, px: nat, py: nat)
    requires Measure(tokens).Some? && (forall t :: t in tokens && t.Data? ==> t.bits < 64)
    requires i < |tokens| && CoveredBy(tokens, i, px, py)
    ensures px < Measure(tokens).value.w && py < Measure(tokens).value.h
  {
    hide BandAfter, Bit, XAfter, Measure;
    assert tokens[i] in tokens;
    NothingIsClipped(tokens, i, py - 6 * BandAfter(tokens[..i]));
  }

  /** Nothing outside the canvas is ever painted. */
  lemma NothingOutside(tokens: seq<Token>, px: nat, py: nat)
    requires Measure(tokens).Some? && (forall t :: t in tokens && t.Data? ==> t.bits < 64)
    requires px >= Measure(tokens).value.w || py >= Measure(tokens).value.h
    ensures Shown(tokens, px, py) == CLEAR
  {
    hide Shown, PenAfter, CoveredBy, Measure;
    forall i | 0 <= i < |tokens| && CoveredBy(tokens, i, px, py) ensures false {
      CoveredIsInside(tokens, i, px, py);
    }
    UncoveredIsClear(tokens, px, py);
  }

  /** Every token of a body took at least a byte of it, so no band of a body the terminal keeps can
      overrun 32 bits. */
  lemma {:induction false} TokensAreShort(body: seq<Byte>)
    ensures |Tokens(body)| <= |body|
    ensures forall t :: t in Tokens(body) && t.Data? ==> t.bits < 64
    decreases |body|
  {
    hide Step, Bits;
    StepIsSixel(body);
    var item := Step(body);
    if item.Item? {
      TokensAreShort(body[item.used..]);
    }
  }

  lemma StepIsSixel(rest: seq<Byte>)
    ensures
      var item := Step(rest);
      item.Item? && item.token.Some? && item.token.value.Data? ==> item.token.value.bits < 64
  {
    hide Params;
  }

  lemma BandsFit(body: seq<Byte>, i: nat)
    requires |body| <= BODY_LIMIT && i <= |Tokens(body)|
    ensures 6 * BandAfter(Tokens(body)[..i]) + 6 <= U32
  {
    hide Tokens, BandAfter;
    TokensAreShort(body);
  }
}
