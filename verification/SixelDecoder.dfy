/** The sixel decoder as it runs: an iterator moving through the body, a pass that measures, and a
    pass that paints a buffer in place. */
module SixelDecoder {
  import opened Cells
  import opened SixelPicture
  import SixelRepeat
  import Utf8

  type Byte = Utf8.Byte

  class TokenReader {
    const body: seq<Byte>
    var at: nat

    ghost predicate Valid()
      reads this`at
    {
      at <= |body|
    }

    ghost function Rest(): seq<Byte>
      requires Valid()
      reads this`at
    {
      body[at..]
    }

    constructor (body: seq<Byte>)
      ensures Valid() && this.body == body && Rest() == body
    {
      this.body, at := body, 0;
    }

    /** The digits here, as a number, and how many there were. */
    method ReadNumber() returns (value: nat, digits: nat)
      requires Valid()
      modifies this`at
      ensures Valid() && digits == Run(old(Rest())) && value == Value(old(Rest())[..digits])
      ensures Rest() == old(Rest())[digits..]
    {
      hide Run, Value;
      value, digits := 0, 0;
      var start := at;
      NoDigits();
      assert body[start..start] == [];
      while at < |body| && IsDigit(body[at])
        invariant start <= at <= |body| && digits == at - start
        invariant forall i :: start <= i < at ==> IsDigit(body[i])
        invariant value == Value(body[start..at])
      {
        OneMoreDigit(body[start..at], body[at]);
        assert body[start..at + 1] == body[start..at] + [body[at]];
        value := Sat(value * 10 + Digit(body[at]));
        at := at + 1;
        digits := digits + 1;
      }
      RunIs(body[start..], digits);
      assert body[start..][..digits] == body[start..at];
    }

    /** Numbers between semicolons into the slots there are; what is answered is how many of those
        were filled. */
    method ReadParams(out: array<nat>) returns (count: nat)
      requires Valid() && forall i :: 0 <= i < out.Length ==> out[i] == 0
      modifies this`at, out
      ensures Valid() && Rest() == old(Rest())[Params(old(Rest()), []).used..]
      ensures count == AtMost(|Params(old(Rest()), []).values|, out.Length)
      ensures forall i :: 0 <= i < out.Length ==> out[i] == Nth(Params(old(Rest()), []).values, i)
    {
      hide Params, Run, Value;
      var n := 0;
      ghost var values: seq<nat> := [];
      ghost var start := at;
      var done := false;
      while !done
        invariant start <= at <= |body| && |values| == n
        invariant forall i :: 0 <= i < out.Length ==> out[i] == Nth(values, i)
        invariant !done ==> Onward(Params(body[at..], values), at - start) == Params(body[start..], [])
        invariant done ==> Params(body[start..], []) == Read(values, at - start)
        decreases !done, |body| - at
      {
        ghost var here, sofar := at, values;
        var value, digits := ReadNumber();
        ParamsTurn(body[here..], sofar, here - start);
        if digits != 0 || n != 0 {
          if n < out.Length {
            out[n] := value;
          }
          values := values + [value];
          n := n + 1;
        }
        assert body[here..][digits..] == body[here + digits..];
        if at < |body| && body[at] == SEMICOLON {
          assert body[here..][digits + 1..] == body[at + 1..];
          at := at + 1;
        } else {
          done := true;
        }
      }
      count := if n < out.Length then n else out.Length;
    }

    /** The next token, what comes to nothing being passed over. */
    method Next() returns (token: Option<Token>)
      requires Valid()
      modifies this`at
      ensures Valid()
      ensures token.None? ==> Tokens(old(Rest())) == []
      ensures token.Some? ==> Tokens(old(Rest())) == [token.value] + Tokens(Rest()) && |Rest()| < |old(Rest())|
    {
      hide Tokens, Step;
      while true
        invariant Valid() && |Rest()| <= |old(Rest())| && Tokens(Rest()) == Tokens(old(Rest()))
        decreases |body| - at
      {
        ghost var here := Rest();
        TokensStep(here);
        if at == |body| {
          Ended();
          return None;
        }
        var ended, found := ReadItem();
        if ended {
          return None;
        }
        if found.Some? {
          return found;
        }
      }
    }

    /** One instruction. */
    method ReadItem() returns (ended: bool, token: Option<Token>)
      requires Valid() && at < |body|
      modifies this`at
      ensures Valid()
      ensures ended <==> Step(old(Rest())).Finished?
      ensures !ended ==>
        && |Rest()| < |old(Rest())|
        && Step(old(Rest())) == Item(token, |old(Rest())| - |Rest()|)
        && Rest() == old(Rest())[Step(old(Rest())).used..]
    {
      hide Params, Bits, AtMost;
      var byte := body[at];
      ghost var here := Rest();
      at := at + 1;
      assert here[1..] == Rest();
      ended, token := false, None;
      if IsSixel(byte) {
        token := Some(Data(Bits(byte), 1));
      } else if byte == DOLLAR {
        token := Some(CarriageReturn);
      } else if byte == DASH {
        token := Some(NewLine);
      } else if byte == BANG {
        var args := new nat[1](_ => 0);
        var _ := ReadParams(args);
        if at == |body| {
          ended := true;
          return;
        }
        byte := body[at];
        at := at + 1;
        if IsSixel(byte) {
          token := Some(Data(Bits(byte), args[0]));
        }
      } else if byte == HASH {
        var args := new nat[5](_ => 0);
        var count := ReadParams(args);
        token := Some(ColorOf(args[..], count));
        ColorAgrees(Params(here[1..], []).values, args[..], count);
      } else if byte == QUOTE {
        var args := new nat[4](_ => 0);
        var count := ReadParams(args);
        AtMostFour(Params(here[1..], []).values, count);
        token := Some(if count >= 4 then Raster(args[2], args[3]) else Raster(0, 0));
      }
    }
  }

  lemma NoDigits()
    ensures Value([]) == 0
  {
  }

  lemma OneMoreDigit(digits: seq<Byte>, b: Byte)
    requires IsDigit(b) && forall i :: 0 <= i < |digits| ==> IsDigit(digits[i])
    ensures Value(digits + [b]) == Sat(Value(digits) * 10 + Digit(b))
  {
    assert (digits + [b])[..|digits|] == digits;
  }

  lemma {:induction false} RunIs(rest: seq<Byte>, n: nat)
    requires n <= |rest| && (forall i :: 0 <= i < n ==> IsDigit(rest[i])) && (n < |rest| ==> !IsDigit(rest[n]))
    ensures Run(rest) == n
    decreases n
  {
    if n > 0 {
      RunIs(rest[1..], n - 1);
    }
  }

  function Onward(read: Read, used: nat): Read {
    Read(read.values, read.used + used)
  }

  lemma ParamsTurn(rest: seq<Byte>, sofar: seq<nat>, used: nat)
    ensures
      var n := Run(rest);
      var values := if n != 0 || sofar != [] then sofar + [Value(rest[..n])] else sofar;
      Onward(Params(rest, sofar), used)
      == if n < |rest| && rest[n] == SEMICOLON then Onward(Params(rest[n + 1..], values), used + n + 1)
         else Read(values, used + n)
  {
    hide Run, Value;
  }

  lemma TokensStep(rest: seq<Byte>)
    ensures
      var item := Step(rest);
      Tokens(rest) == if item.Finished? then []
                      else (if item.token.Some? then [item.token.value] else []) + Tokens(rest[item.used..])
  {
    hide Step;
  }

  lemma Ended()
    ensures Tokens([]) == []
  {
  }

  function ColorOf(args: seq<nat>, count: nat): Token
    requires |args| == 5
  {
    Color(AtMost(args[0], 0xFFFF),
          if count >= 5 && args[1] == 2 then
            Some(Percent(AtMost(args[2], 100), AtMost(args[3], 100), AtMost(args[4], 100)))
          else None)
  }

  lemma ColorAgrees(values: seq<nat>, args: seq<nat>, count: nat)
    requires |args| == 5 && count == AtMost(|values|, 5)
    requires forall i :: 0 <= i < 5 ==> args[i] == Nth(values, i)
    ensures count >= 5 <==> |values| >= 5
    ensures |values| >= 5 ==> args[1] == values[1] && args[2] == values[2] && args[3] == values[3] && args[4] == values[4]
  {
  }

  lemma AtMostFour(values: seq<nat>, count: nat)
    requires count == AtMost(|values|, 4)
    ensures count >= 4 <==> |values| >= 4
  {
  }

  // ----- the first pass -----

  /** Where the walk stands and how far it has reached. */
  datatype Reach = Reach(x: nat, band: nat, width: nat, height: nat)

  ghost function ReachAfter(done: seq<Token>): Reach {
    Reach(XAfter(done), BandAfter(done), WidthOf(done), HeightOf(done))
  }

  method MeasureToken(token: Token, at: Reach, ghost done: seq<Token>) returns (next: Reach)
    requires at == ReachAfter(done)
    ensures next == ReachAfter(done + [token])
  {
    hide XAfter, BandAfter, WidthOf, HeightOf, TopBit;
    Onwards(done, token);
    var x, band, width, height := at.x, at.band, at.width, at.height;
    match token {
      case Data(bits, repeat) =>
        x := Sat(x + repeat);
        width := Max(width, x);
        if bits != 0 {
          var top := 6 * band + TopBit(bits) + 1;
          height := Max(height, top);
        }
      case CarriageReturn =>
        x := 0;
      case NewLine =>
        x := 0;
        band := Sat(band + 1);
      case Raster(ph, pv) =>
        width := Max(width, ph);
        height := Max(height, pv);
      case Color(_, _) =>
    }
    next := Reach(x, band, width, height);
  }

  /** What the token in hand and those still to come are. */
  ghost function Ahead(token: Option<Token>, rest: seq<Byte>): seq<Token> {
    if token.Some? then [token.value] + Tokens(rest) else []
  }

  method MeasureBody(body: seq<Byte>) returns (size: Option<Size>)
    ensures size == Measure(Tokens(body))
  {
    hide Tokens, ReachAfter;
    var reach := Reach(0, 0, 0, 0);
    var reader := new TokenReader(body);
    ghost var done: seq<Token> := [];
    Nowhere();
    ReachIs(done);
    var token := reader.Next();
    assert done + Ahead(token, reader.Rest()) == Tokens(body);
    while token.Some?
      invariant reader.Valid() && done + Ahead(token, reader.Rest()) == Tokens(body)
      invariant reach == ReachAfter(done)
      decreases token.Some?, |reader.Rest()|
    {
      reach := MeasureToken(token.value, reach, done);
      Joined(done, token.value, Tokens(reader.Rest()));
      done := done + [token.value];
      token := reader.Next();
    }
    assert done == Tokens(body);
    ReachIs(done);
    size := Sized(reach.width, reach.height);
  }

  lemma ReachIs(done: seq<Token>)
    ensures ReachAfter(done).width == WidthOf(done) && ReachAfter(done).height == HeightOf(done)
    ensures ReachAfter([]) == Reach(0, 0, 0, 0)
  {
  }

  lemma Nowhere()
    ensures XAfter([]) == 0 && BandAfter([]) == 0 && WidthOf([]) == 0 && HeightOf([]) == 0
    ensures PenAfter([]) == Initial(0)
    ensures forall px: nat, py: nat :: Shown([], px, py) == CLEAR
    ensures forall i: nat :: RegisterAfter([], i) == Initial(i)
  {
  }

  lemma Joined<T>(done: seq<T>, one: T, rest: seq<T>)
    ensures done + ([one] + rest) == (done + [one]) + rest
  {
  }

  /** What one more token does to everything but the pixels. */
  lemma Onwards(done: seq<Token>, last: Token)
    ensures
      var now := done + [last];
      && XAfter(now) == (if last.Data? then Sat(XAfter(done) + last.repeat)
                         else if last.CarriageReturn? || last.NewLine? then 0
                         else XAfter(done))
      && BandAfter(now) == (if last.NewLine? then Sat(BandAfter(done) + 1) else BandAfter(done))
      && WidthOf(now) == (if last.Data? then Max(WidthOf(done), XAfter(now))
                          else if last.Raster? then Max(WidthOf(done), last.ph)
                          else WidthOf(done))
      && HeightOf(now) == (if last.Data? && last.bits != 0 then
                             Max(HeightOf(done), 6 * BandAfter(done) + TopBit(last.bits) + 1)
                           else if last.Raster? then Max(HeightOf(done), last.pv)
                           else HeightOf(done))
  {
    SixelRepeat.OneMore(done, last);
    SixelRepeat.OneMoreExtent(done, last);
  }

  // ----- the second pass -----

  /** Where a pixel is in a buffer `w` wide. */
  function Index(w: nat, x: nat, y: nat): nat {
    y * w + x
  }

  lemma InRange(w: nat, h: nat, x: nat, y: nat)
    requires x < w && y < h
    ensures Index(w, x, y) < w * h
  {
    assert (y + 1) * w <= h * w;
  }

  lemma Below(w: nat, x: nat, y: nat, px: nat, py: nat)
    requires x < w && y < py
    ensures Index(w, x, y) < Index(w, px, py)
  {
    assert (y + 1) * w <= py * w;
  }

  lemma Apart(w: nat, x: nat, y: nat, px: nat, py: nat)
    requires x < w && px < w && Index(w, x, y) == Index(w, px, py)
    ensures x == px && y == py
  {
    if y < py {
      Below(w, x, y, px, py);
    } else if py < y {
      Below(w, px, py, x, y);
    }
  }

  /** A buffer shows a picture: every pixel of the canvas, and nothing else is in it. */
  ghost predicate Shows(pixels: seq<Rgba>, w: nat, h: nat, picture: (nat, nat) -> Rgba) {
    && |pixels| == w * h
    && forall x: nat, y: nat :: x < w && y < h ==> Index(w, x, y) < |pixels| && pixels[Index(w, x, y)] == picture(x, y)
  }

  /** The picture while a run of `bits` is being drawn: `columns` of it done, and `rows` of the next. */
  ghost function Midway(done: seq<Token>, bits: nat, columns: nat, rows: nat): (nat, nat) -> Rgba {
    (px: nat, py: nat) =>
      if px == XAfter(done) + columns && 6 * BandAfter(done) <= py < 6 * BandAfter(done) + rows
         && Bit(bits, py - 6 * BandAfter(done)) then PenAfter(done)
      else if Covers(Data(bits, columns), XAfter(done), BandAfter(done), px, py) then PenAfter(done)
      else Shown(done, px, py)
  }

  method Put(pixels: array<Rgba>, w: nat, h: nat, x: nat, y: nat, pen: Rgba, ghost before: (nat, nat) -> Rgba,
             ghost after: (nat, nat) -> Rgba)
    requires x < w && y < h && Shows(pixels[..], w, h, before)
    requires forall px: nat, py: nat :: after(px, py) == if px == x && py == y then pen else before(px, py)
    modifies pixels
    ensures Shows(pixels[..], w, h, after)
  {
    hide Index;
    InRange(w, h, x, y);
    pixels[Index(w, x, y)] := pen;
    forall px: nat, py: nat | px < w && py < h
      ensures Index(w, px, py) < |pixels[..]| && pixels[..][Index(w, px, py)] == after(px, py)
    {
      if Index(w, px, py) == Index(w, x, y) {
        Apart(w, x, y, px, py);
      }
    }
  }

  /** One column of a sixel, as much of it as is on the canvas. */
  method PaintColumn(pixels: array<Rgba>, w: nat, h: nat, x: nat, band: nat, bits: nat, pen: Rgba,
                     ghost done: seq<Token>, ghost column: nat)
    requires x == XAfter(done) + column < w && band == BandAfter(done) && pen == PenAfter(done)
    requires Shows(pixels[..], w, h, Midway(done, bits, column, 0))
    modifies pixels
    ensures Shows(pixels[..], w, h, Midway(done, bits, column + 1, 0))
  {
    hide Shows, XAfter, BandAfter, PenAfter, Shown, Bit, Index;
    for row := 0 to 6
      invariant Shows(pixels[..], w, h, Midway(done, bits, column, row))
    {
      if Bit(bits, row) {
        var y := 6 * band + row;
        if y < h {
          Put(pixels, w, h, x, y, pen, Midway(done, bits, column, row), Midway(done, bits, column, row + 1));
        } else {
          SameShown(pixels[..], w, h, Midway(done, bits, column, row), Midway(done, bits, column, row + 1));
        }
      } else {
        SameShown(pixels[..], w, h, Midway(done, bits, column, row), Midway(done, bits, column, row + 1));
      }
    }
    ColumnIsWhole(done, bits, column);
    SameShown(pixels[..], w, h, Midway(done, bits, column, 6), Midway(done, bits, column + 1, 0));
  }

  lemma SameShown(pixels: seq<Rgba>, w: nat, h: nat, before: (nat, nat) -> Rgba, after: (nat, nat) -> Rgba)
    requires Shows(pixels, w, h, before)
    requires forall x: nat, y: nat :: x < w && y < h ==> before(x, y) == after(x, y)
    ensures Shows(pixels, w, h, after)
  {
    hide Index;
  }

  lemma ColumnIsWhole(done: seq<Token>, bits: nat, column: nat)
    ensures forall px: nat, py: nat :: Midway(done, bits, column, 6)(px, py) == Midway(done, bits, column + 1, 0)(px, py)
  {
    hide XAfter, BandAfter, PenAfter, Shown;
  }

  lemma RunStarts(done: seq<Token>, bits: nat)
    ensures forall px: nat, py: nat :: Midway(done, bits, 0, 0)(px, py) == Shown(done, px, py)
  {
    hide XAfter, BandAfter, PenAfter, Shown, Bit;
  }

  lemma RunEnds(done: seq<Token>, bits: nat, repeat: nat, drawn: nat, w: nat)
    requires drawn <= repeat && (drawn == repeat || XAfter(done) + drawn >= w)
    ensures forall px: nat, py: nat :: px < w ==>
      Midway(done, bits, drawn, 0)(px, py) == Shown(done + [Data(bits, repeat)], px, py)
  {
    hide XAfter, BandAfter, PenAfter, Shown, Bit;
    forall px: nat, py: nat | px < w
      ensures Midway(done, bits, drawn, 0)(px, py) == Shown(done + [Data(bits, repeat)], px, py)
    {
      SixelRepeat.OneMoreShown(done, Data(bits, repeat), px, py);
    }
  }

  ghost function Picture(tokens: seq<Token>): (nat, nat) -> Rgba {
    (px: nat, py: nat) => Shown(tokens, px, py)
  }

  /** A whole run, clipped to the canvas; the cursor it leaves is not. */
  method PaintRun(pixels: array<Rgba>, w: nat, h: nat, at: nat, band: nat, bits: nat, repeat: nat, pen: Rgba,
                  ghost done: seq<Token>)
    returns (x: nat)
    requires at == XAfter(done) && band == BandAfter(done) && pen == PenAfter(done) && w <= U32
    requires Shows(pixels[..], w, h, Picture(done))
    modifies pixels
    ensures x == Sat(at + repeat)
    ensures Shows(pixels[..], w, h, Picture(done + [Data(bits, repeat)]))
  {
    hide Shows, XAfter, BandAfter, PenAfter, Shown, Bit, Midway;
    x := at;
    var room := if w > x then w - x else 0;
    var drawn := if room < repeat then room else repeat;
    RunStarts(done, bits);
    SameShown(pixels[..], w, h, Picture(done), Midway(done, bits, 0, 0));
    for column := 0 to drawn
      invariant x == at + column
      invariant Shows(pixels[..], w, h, Midway(done, bits, column, 0))
    {
      PaintColumn(pixels, w, h, x, band, bits, pen, done, column);
      x := x + 1;
    }
    RunEnds(done, bits, repeat, drawn, w);
    SameShown(pixels[..], w, h, Midway(done, bits, drawn, 0), Picture(done + [Data(bits, repeat)]));
    x := Sat(x + (repeat - drawn));
  }

  /** The pen and the registers after one more token. */
  lemma PenOnwards(done: seq<Token>, last: Token)
    ensures PenAfter(done + [last])
         == if last.Color? && last.definition.Some? then Opaque(last.definition.value)
            else if last.Color? && last.index < PALETTE_SIZE then RegisterAfter(done, last.index)
            else PenAfter(done)
    ensures forall i: nat ::
      RegisterAfter(done + [last], i)
      == if last.Color? && last.index == i && last.definition.Some? then Opaque(last.definition.value)
         else RegisterAfter(done, i)
  {
    hide PenAfter, RegisterAfter;
    SixelRepeat.OneMore(done, last);
    forall i: nat
      ensures RegisterAfter(done + [last], i)
           == if last.Color? && last.index == i && last.definition.Some? then Opaque(last.definition.value)
              else RegisterAfter(done, i)
    {
      SixelRepeat.OneMoreRegister(done, last, i);
    }
  }

  lemma StillShown(done: seq<Token>, last: Token)
    requires !last.Data?
    ensures forall px: nat, py: nat :: Picture(done)(px, py) == Picture(done + [last])(px, py)
  {
    hide Shown, XAfter, BandAfter, PenAfter;
    forall px: nat, py: nat ensures Shown(done, px, py) == Shown(done + [last], px, py) {
      SixelRepeat.OneMoreShown(done, last, px, py);
    }
  }

  /** What the registers hold. */
  ghost predicate Holds(palette: seq<Rgba>, done: seq<Token>) {
    |palette| == PALETTE_SIZE && forall i :: 0 <= i < PALETTE_SIZE ==> palette[i] == RegisterAfter(done, i)
  }

  /** The cursor and the pen, which is all a token finds and leaves beside the pixels and registers. */
  datatype Hand = Hand(x: nat, band: nat, pen: Rgba)

  ghost function HandAfter(done: seq<Token>): Hand {
    Hand(XAfter(done), BandAfter(done), PenAfter(done))
  }

  /** Paints a canvas of any size, clipping what does not fit on it. */
  method Render(body: seq<Byte>, pixels: array<Rgba>, w: nat, h: nat)
    requires w <= U32 && pixels.Length == w * h && forall i :: 0 <= i < pixels.Length ==> pixels[i] == CLEAR
    modifies pixels
    ensures Shows(pixels[..], w, h, Picture(Tokens(body)))
  {
    hide Tokens, HandAfter, Shows, Holds, Initial, Picture;
    var palette := InitialPalette();
    var hand := Hand(0, 0, palette[0]);
    ghost var done: seq<Token> := [];
    Unmoved();
    Blank(pixels[..], w, h);
    var reader := new TokenReader(body);
    var token := reader.Next();
    assert done + Ahead(token, reader.Rest()) == Tokens(body);
    while token.Some?
      invariant reader.Valid() && done + Ahead(token, reader.Rest()) == Tokens(body)
      invariant hand == HandAfter(done)
      invariant Holds(palette[..], done)
      invariant Shows(pixels[..], w, h, Picture(done))
      decreases token.Some?, |reader.Rest()|
    {
      hand := PaintToken(token.value, hand, palette, pixels, w, h, done);
      Joined(done, token.value, Tokens(reader.Rest()));
      done := done + [token.value];
      token := reader.Next();
    }
    assert done == Tokens(body);
  }

  method InitialPalette() returns (palette: array<Rgba>)
    ensures fresh(palette) && palette.Length == PALETTE_SIZE && palette[0] == Initial(0) && Holds(palette[..], [])
  {
    hide Initial, Holds;
    palette := new Rgba[PALETTE_SIZE](i requires 0 <= i => Initial(i));
    Fresh(palette[..]);
  }

  lemma Unmoved()
    ensures HandAfter([]) == Hand(0, 0, Initial(0))
  {
    hide Initial;
  }

  method PaintToken(token: Token, at: Hand, palette: array<Rgba>, pixels: array<Rgba>, w: nat, h: nat,
                    ghost done: seq<Token>)
    returns (next: Hand)
    requires w <= U32 && palette != pixels
    requires at == HandAfter(done) && Holds(palette[..], done) && Shows(pixels[..], w, h, Picture(done))
    modifies palette, pixels
    ensures next == HandAfter(done + [token]) && Holds(palette[..], done + [token])
    ensures Shows(pixels[..], w, h, Picture(done + [token]))
  {
    hide XAfter, BandAfter, PenAfter, Shown, RegisterAfter, Shows, Holds, WidthOf, HeightOf, Opaque;
    Onwards(done, token);
    PenOnwards(done, token);
    var x, band, pen := at.x, at.band, at.pen;
    if !token.Data? {
      StillShown(done, token);
      SameShown(pixels[..], w, h, Picture(done), Picture(done + [token]));
    }
    if !token.Color? {
      StillHeld(palette[..], done, token);
    }
    match token {
      case Color(index, definition) =>
        pen := Select(palette, pen, index, definition, done);
      case Data(bits, repeat) =>
        x := PaintRun(pixels, w, h, x, band, bits, repeat, pen, done);
      case CarriageReturn =>
        x := 0;
      case NewLine =>
        x := 0;
        band := Sat(band + 1);
      case Raster(_, _) =>
    }
    next := Hand(x, band, pen);
  }

  /** Defines a register, and takes it up; or takes up one that is there. */
  method Select(palette: array<Rgba>, held: Rgba, index: nat, definition: Option<Percent>, ghost done: seq<Token>)
    returns (pen: Rgba)
    requires Holds(palette[..], done) && held == PenAfter(done)
    modifies palette
    ensures Holds(palette[..], done + [Color(index, definition)])
    ensures pen == PenAfter(done + [Color(index, definition)])
  {
    hide PenAfter, RegisterAfter, Opaque;
    PenOnwards(done, Color(index, definition));
    pen := held;
    if definition.Some? {
      var rgba := Opaque(definition.value);
      if index < palette.Length {
        palette[index] := rgba;
      }
      pen := rgba;
    } else if index < palette.Length {
      pen := palette[index];
    }
  }

  lemma StillHeld(palette: seq<Rgba>, done: seq<Token>, last: Token)
    requires Holds(palette, done) && !last.Color?
    ensures Holds(palette, done + [last])
  {
    hide RegisterAfter, PenAfter;
    PenOnwards(done, last);
  }

  lemma Fresh(palette: seq<Rgba>)
    requires |palette| == PALETTE_SIZE && forall i :: 0 <= i < PALETTE_SIZE ==> palette[i] == Initial(i)
    ensures Holds(palette, [])
  {
    hide Initial;
    Nowhere();
  }

  lemma Blank(pixels: seq<Rgba>, w: nat, h: nat)
    requires |pixels| == w * h && forall i :: 0 <= i < |pixels| ==> pixels[i] == CLEAR
    ensures Shows(pixels, w, h, Picture([]))
  {
    hide Index;
    forall x: nat, y: nat | x < w && y < h
      ensures Index(w, x, y) < |pixels| && pixels[Index(w, x, y)] == Picture([])(x, y)
    {
      InRange(w, h, x, y);
    }
  }

  /** The picture, row after row, and its size; nothing when there is none. */
  method DecodeBody(body: seq<Byte>) returns (size: Option<Size>, pixels: array<Rgba>)
    ensures size == Measure(Tokens(body)) && fresh(pixels)
    ensures size.Some? ==> Shows(pixels[..], size.value.w, size.value.h, Picture(Tokens(body)))
  {
    hide Tokens, WidthOf, HeightOf, Shows;
    size := MeasureBody(body);
    if size.None? {
      pixels := new Rgba[0];
      return;
    }
    SizedIsSmall(WidthOf(Tokens(body)), HeightOf(Tokens(body)));
    pixels := new Rgba[size.value.w * size.value.h](_ => CLEAR);
    Render(body, pixels, size.value.w, size.value.h);
  }
}
