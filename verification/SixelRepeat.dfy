/** A repeat count in a sixel body means that many copies of the character, save that a count of zero
    still claims the height of what it does not draw. */
module SixelRepeat {
  import opened Cells
  import opened SixelPicture
  import Utf8

  type Byte = Utf8.Byte

  function Repeat<T>(x: T, n: nat): (r: seq<T>)
    ensures |r| == n && forall i :: 0 <= i < n ==> r[i] == x
  {
    if n == 0 then [] else [x] + Repeat(x, n - 1)
  }

  // ----- token by token -----

  /** Two beginnings nothing later can tell apart, but that the first is at least `floor` tall. The
      last column there could be is not looked at: no picture is that wide. */
  ghost predicate Alike(t: seq<Token>, u: seq<Token>, floor: nat) {
    && XAfter(t) == XAfter(u) && BandAfter(t) == BandAfter(u)
    && PenAfter(t) == PenAfter(u)
    && WidthOf(t) == WidthOf(u) && HeightOf(t) == Max(HeightOf(u), floor)
    && (forall i: nat :: RegisterAfter(t, i) == RegisterAfter(u, i))
    && (forall px: nat, py: nat :: px < U32 ==> Shown(t, px, py) == Shown(u, px, py))
  }

  /** Everything about some tokens, from everything about all but the last. */
  lemma OneMore(tokens: seq<Token>, last: Token)
    ensures
      var now := tokens + [last];
      && XAfter(now) == (if last.Data? then Sat(XAfter(tokens) + last.repeat)
                         else if last.CarriageReturn? || last.NewLine? then 0
                         else XAfter(tokens))
      && BandAfter(now) == (if last.NewLine? then Sat(BandAfter(tokens) + 1) else BandAfter(tokens))
      && PenAfter(now) == (if last.Color? && last.definition.Some? then Opaque(last.definition.value)
                           else if last.Color? && last.index < PALETTE_SIZE then RegisterAfter(tokens, last.index)
                           else PenAfter(tokens))
  {
    assert (tokens + [last])[..|tokens|] == tokens;
  }

  lemma OneMoreExtent(tokens: seq<Token>, last: Token)
    ensures
      var now := tokens + [last];
      && WidthOf(now) == (if last.Data? then Max(WidthOf(tokens), XAfter(now))
                          else if last.Raster? then Max(WidthOf(tokens), last.ph)
                          else WidthOf(tokens))
      && HeightOf(now) == (if last.Data? && last.bits != 0 then
                             Max(HeightOf(tokens), 6 * BandAfter(tokens) + TopBit(last.bits) + 1)
                           else if last.Raster? then Max(HeightOf(tokens), last.pv)
                           else HeightOf(tokens))
  {
    hide XAfter, BandAfter;
    assert (tokens + [last])[..|tokens|] == tokens;
  }

  lemma OneMoreRegister(tokens: seq<Token>, last: Token, i: nat)
    ensures RegisterAfter(tokens + [last], i)
         == if last.Color? && last.index == i && last.definition.Some? then Opaque(last.definition.value)
            else RegisterAfter(tokens, i)
  {
    assert (tokens + [last])[..|tokens|] == tokens;
  }

  lemma OneMoreShown(tokens: seq<Token>, last: Token, px: nat, py: nat)
    ensures Shown(tokens + [last], px, py)
         == if Covers(last, XAfter(tokens), BandAfter(tokens), px, py) then PenAfter(tokens) else Shown(tokens, px, py)
  {
    hide Covers, XAfter, BandAfter, PenAfter;
    assert (tokens + [last])[..|tokens|] == tokens;
  }

  lemma AlikeStep(t: seq<Token>, u: seq<Token>, floor: nat, last: Token)
    requires Alike(t, u, floor)
    ensures Alike(t + [last], u + [last], floor)
  {
    hide XAfter, BandAfter, PenAfter, WidthOf, HeightOf, RegisterAfter, Shown, Covers, TopBit;
    OneMore(t, last);
    OneMore(u, last);
    OneMoreExtent(t, last);
    OneMoreExtent(u, last);
    forall i: nat ensures RegisterAfter(t + [last], i) == RegisterAfter(u + [last], i) {
      OneMoreRegister(t, last, i);
      OneMoreRegister(u, last, i);
    }
    forall px: nat, py: nat | px < U32 ensures Shown(t + [last], px, py) == Shown(u + [last], px, py) {
      OneMoreShown(t, last, px, py);
      OneMoreShown(u, last, px, py);
    }
  }

  lemma {:induction false} AlikeThrough(t: seq<Token>, u: seq<Token>, floor: nat, rest: seq<Token>)
    requires Alike(t, u, floor)
    ensures Alike(t + rest, u + rest, floor)
    decreases |rest|
  {
    hide Alike;
    if rest == [] {
      assert t + rest == t && u + rest == u;
    } else {
      var n := |rest| - 1;
      AlikeThrough(t, u, floor, rest[..n]);
      AlikeStep(t + rest[..n], u + rest[..n], floor, rest[n]);
      assert t + rest == t + rest[..n] + [rest[n]] && u + rest == u + rest[..n] + [rest[n]];
    }
  }

  lemma AlikeInTurn(t: seq<Token>, u: seq<Token>, v: seq<Token>)
    requires Alike(t, u, 0) && Alike(u, v, 0)
    ensures Alike(t, v, 0)
  {
    hide XAfter, BandAfter, PenAfter, WidthOf, HeightOf, RegisterAfter, Shown;
  }

  /** A run one longer is the run and one more. */
  lemma RunGrows(tokens: seq<Token>, bits: nat, n: nat)
    requires n >= 1 && bits < 64
    ensures Alike(tokens + [Data(bits, n + 1)], tokens + [Data(bits, n)] + [Data(bits, 1)], 0)
  {
    hide XAfter, BandAfter, PenAfter, WidthOf, HeightOf, RegisterAfter, Shown, Bit, TopBit;
    var long, short, one := Data(bits, n + 1), Data(bits, n), Data(bits, 1);
    var most := tokens + [short];
    OneMore(tokens, long);
    OneMore(tokens, short);
    OneMore(most, one);
    OneMoreExtent(tokens, long);
    OneMoreExtent(tokens, short);
    OneMoreExtent(most, one);
    forall i: nat ensures RegisterAfter(tokens + [long], i) == RegisterAfter(most + [one], i) {
      OneMoreRegister(tokens, long, i);
      OneMoreRegister(tokens, short, i);
      OneMoreRegister(most, one, i);
    }
    forall px: nat, py: nat | px < U32 ensures Shown(tokens + [long], px, py) == Shown(most + [one], px, py) {
      OneMoreShown(tokens, long, px, py);
      OneMoreShown(tokens, short, px, py);
      OneMoreShown(most, one, px, py);
    }
  }

  lemma AlikeItself(t: seq<Token>)
    ensures Alike(t, t, 0)
  {
    hide XAfter, BandAfter, PenAfter, WidthOf, HeightOf, RegisterAfter, Shown;
  }

  lemma {:induction false} RunIsCopies(tokens: seq<Token>, bits: nat, n: nat)
    requires n >= 1 && bits < 64
    ensures Alike(tokens + [Data(bits, n)], tokens + Repeat(Data(bits, 1), n), 0)
    decreases n
  {
    hide Alike;
    var one := Data(bits, 1);
    if n == 1 {
      assert Repeat(one, 1) == [one];
      AlikeItself(tokens + [one]);
    } else {
      RunIsCopies(tokens, bits, n - 1);
      RunGrows(tokens, bits, n - 1);
      AlikeStep(tokens + [Data(bits, n - 1)], tokens + Repeat(one, n - 1), 0, one);
      AlikeInTurn(tokens + [Data(bits, n)], tokens + [Data(bits, n - 1)] + [one], tokens + Repeat(one, n - 1) + [one]);
      assert tokens + Repeat(one, n - 1) + [one] == tokens + Repeat(one, n);
    }
  }

  /** A count too large to hold draws as far as anything can. */
  lemma StuckCount(tokens: seq<Token>, bits: nat, n: nat)
    requires bits < 64
    ensures Alike(tokens + [Data(bits, Sat(n))], tokens + [Data(bits, n)], 0)
  {
    hide XAfter, BandAfter, PenAfter, WidthOf, HeightOf, RegisterAfter, Shown, Bit, TopBit;
    var stuck, full := Data(bits, Sat(n)), Data(bits, n);
    OneMore(tokens, stuck);
    OneMore(tokens, full);
    OneMoreExtent(tokens, stuck);
    OneMoreExtent(tokens, full);
    forall i: nat ensures RegisterAfter(tokens + [stuck], i) == RegisterAfter(tokens + [full], i) {
      OneMoreRegister(tokens, stuck, i);
      OneMoreRegister(tokens, full, i);
    }
    forall px: nat, py: nat | px < U32 ensures Shown(tokens + [stuck], px, py) == Shown(tokens + [full], px, py) {
      OneMoreShown(tokens, stuck, px, py);
      OneMoreShown(tokens, full, px, py);
    }
  }

  /** What is alike in everything, height included, is one picture. */
  lemma AlikePaints(t: seq<Token>, u: seq<Token>, floor: nat)
    requires Alike(t, u, floor) && Measure(t) == Measure(u)
    ensures DecodeTokens(t) == DecodeTokens(u)
  {
    hide XAfter, BandAfter, PenAfter, WidthOf, HeightOf, RegisterAfter, Shown;
    var size := Measure(t);
    if size.Some? {
      SizedIsSmall(WidthOf(t), HeightOf(t));
      var a, b := Painted(t, size.value).pixels, Painted(u, size.value).pixels;
      forall y | 0 <= y < size.value.h ensures a[y] == b[y] {
        forall x | 0 <= x < size.value.w ensures a[y][x] == b[y][x] {
          assert Shown(t, x, y) == Shown(u, x, y);
        }
      }
      assert a == b;
    }
  }

  /** A run of any length but none is that many single sixels, whatever is around it. */
  lemma RunDecodesAsCopies(before: seq<Token>, bits: nat, n: nat, rest: seq<Token>)
    requires n >= 1 && bits < 64
    ensures DecodeTokens(before + [Data(bits, Sat(n))] + rest) == DecodeTokens(before + Repeat(Data(bits, 1), n) + rest)
  {
    hide XAfter, BandAfter, PenAfter, WidthOf, HeightOf, RegisterAfter, Shown, DecodeTokens;
    StuckCount(before, bits, n);
    RunIsCopies(before, bits, n);
    var t, u := before + [Data(bits, Sat(n))], before + Repeat(Data(bits, 1), n);
    AlikeInTurn(t, before + [Data(bits, n)], u);
    AlikeThrough(t, u, 0, rest);
    AlikePaints(t + rest, u + rest, 0);
  }

  /** A run of none draws nothing and moves nothing, but asks for its height all the same. */
  lemma EmptyRun(tokens: seq<Token>, bits: nat)
    requires bits < 64
    ensures Alike(tokens + [Data(bits, 0)], tokens, if bits == 0 then 0 else 6 * BandAfter(tokens) + TopBit(bits) + 1)
  {
    hide XAfter, BandAfter, PenAfter, WidthOf, HeightOf, RegisterAfter, Shown, Bit, TopBit;
    var none := Data(bits, 0);
    OneMore(tokens, none);
    OneMoreExtent(tokens, none);
    forall i: nat ensures RegisterAfter(tokens + [none], i) == RegisterAfter(tokens, i) {
      OneMoreRegister(tokens, none, i);
    }
    forall px: nat, py: nat | px < U32 ensures Shown(tokens + [none], px, py) == Shown(tokens, px, py) {
      OneMoreShown(tokens, none, px, py);
    }
  }

  /** So it can be left out exactly when the height it asks for changes nothing about the canvas. */
  lemma EmptyRunIsNothingIff(before: seq<Token>, bits: nat, rest: seq<Token>)
    requires bits < 64
    ensures
      var without := before + rest;
      var asked := if bits == 0 then 0 else 6 * BandAfter(before) + TopBit(bits) + 1;
      DecodeTokens(before + [Data(bits, 0)] + rest) == DecodeTokens(without)
      <==> Sized(WidthOf(without), Max(HeightOf(without), asked)) == Sized(WidthOf(without), HeightOf(without))
  {
    hide XAfter, BandAfter, PenAfter, WidthOf, HeightOf, RegisterAfter, Shown, TopBit;
    var asked := if bits == 0 then 0 else 6 * BandAfter(before) + TopBit(bits) + 1;
    EmptyRun(before, bits);
    AlikeThrough(before + [Data(bits, 0)], before, asked, rest);
    var t, u := before + [Data(bits, 0)] + rest, before + rest;
    if Measure(t) == Measure(u) {
      AlikePaints(t, u, asked);
    }
  }

  /** `!0~?` is a picture one pixel wide and six tall; `?` is none. */
  lemma EmptyRunCanMatter()
    ensures Decode([0x21, 0x30, 0x7E, 0x3F]).Some? && Decode([0x3F]).None?
  {
    hide Painted;
    var t := [Data(63, 0), Data(0, 1)];
    TokensOfExample();
    assert t[..1] == [Data(63, 0)] && t[..1][..0] == [];
    assert WidthOf(t) == 1 && HeightOf(t) == 6;
    var u := [Data(0, 1)];
    assert u[..0] == [] && HeightOf(u) == 0;
  }

  lemma TokensOfExample()
    ensures Tokens([0x21, 0x30, 0x7E, 0x3F]) == [Data(63, 0), Data(0, 1)] && Tokens([0x3F]) == [Data(0, 1)]
  {
    var none: seq<Byte> := [];
    NoTokens();
    OneSixel(0x3F, none);
    assert [0x3F] + none == [0x3F];
    CountedSixel([0x30], 0x7E, [0x3F]);
    assert [BANG] + [0x30] + [0x7E] + [0x3F] == [0x21, 0x30, 0x7E, 0x3F];
    var digits: seq<Byte> := [0x30];
    assert digits[..0] == [] && Value([]) == 0 && Value(digits) == 0;
    assert [Data(63, 0)] + [Data(0, 1)] == [Data(63, 0), Data(0, 1)];
  }

  // ----- byte by byte -----

  /** Nothing at the front of these bytes could belong to a parameter left unfinished before them. */
  predicate Stops(rest: seq<Byte>) {
    rest == [] || (!IsDigit(rest[0]) && rest[0] != SEMICOLON)
  }

  lemma {:induction false} RunStops(front: seq<Byte>, rest: seq<Byte>)
    requires Stops(rest)
    ensures Run(front + rest) == Run(front)
    decreases |front|
  {
    if front == [] {
      assert front + rest == rest;
    } else {
      assert (front + rest)[1..] == front[1..] + rest;
      RunStops(front[1..], rest);
    }
  }

  lemma ParamsAre(bs: seq<Byte>, sofar: seq<nat>)
    ensures
      var n := Run(bs);
      var values := if n != 0 || sofar != [] then sofar + [Value(bs[..n])] else sofar;
      Params(bs, sofar) ==
        if n < |bs| && bs[n] == SEMICOLON then
          Read(Params(bs[n + 1..], values).values, n + 1 + Params(bs[n + 1..], values).used)
        else Read(values, n)
  {
    hide Run, Value;
  }

  lemma {:induction false} ParamsStop(front: seq<Byte>, rest: seq<Byte>, sofar: seq<nat>)
    requires Stops(rest)
    ensures Params(front + rest, sofar) == Params(front, sofar)
    decreases |front|
  {
    hide Value, Run, Params;
    RunStops(front, rest);
    var n := Run(front);
    var values := if n != 0 || sofar != [] then sofar + [Value(front[..n])] else sofar;
    ParamsAre(front, sofar);
    ParamsAre(front + rest, sofar);
    assert (front + rest)[..n] == front[..n];
    if n < |front| && front[n] == SEMICOLON {
      assert (front + rest)[n + 1..] == front[n + 1..] + rest;
      ParamsStop(front[n + 1..], rest, values);
    } else if n == |front| && rest != [] {
      assert (front + rest)[n] == rest[0];
    }
  }

  /** What is whole stays what it is, whatever comes after. */
  lemma StepStops(front: seq<Byte>, rest: seq<Byte>)
    requires Stops(rest) && Step(front).Item?
    ensures Step(front + rest) == Step(front)
  {
    hide Params, Bits, Nth, AtMost;
    assert (front + rest)[1..] == front[1..] + rest;
    ParamsStop(front[1..], rest, []);
  }

  /** Bytes that end on the end of an instruction. */
  predicate Complete(body: seq<Byte>)
    decreases |body|
  {
    body == [] || (Step(body).Item? && Complete(body[Step(body).used..]))
  }

  lemma {:induction false} TokensAcross(front: seq<Byte>, rest: seq<Byte>)
    requires Complete(front) && Stops(rest)
    ensures Tokens(front + rest) == Tokens(front) + Tokens(rest)
    decreases |front|
  {
    hide Step, Tokens;
    if front == [] {
      NoTokens();
      assert front + rest == rest;
      assert [] + Tokens(rest) == Tokens(rest);
    } else {
      StepStops(front, rest);
      var item := Step(front);
      TokensAcross(front[item.used..], rest);
      assert (front + rest)[item.used..] == front[item.used..] + rest;
      TokensStep(front);
      TokensStep(front + rest);
      var first := if item.token.Some? then [item.token.value] else [];
      assert first + (Tokens(front[item.used..]) + Tokens(rest)) == (first + Tokens(front[item.used..])) + Tokens(rest);
    }
  }

  lemma TokensStep(bs: seq<Byte>)
    requires !Step(bs).Finished?
    ensures var item := Step(bs);
            Tokens(bs) == (if item.token.Some? then [item.token.value] else []) + Tokens(bs[item.used..])
  {
    hide Step;
  }

  lemma NoTokens()
    ensures Tokens([]) == []
  {
  }

  lemma OneSixel(c: Byte, rest: seq<Byte>)
    requires IsSixel(c)
    ensures Tokens([c] + rest) == [Data(Bits(c), 1)] + Tokens(rest)
  {
    hide Params;
    assert ([c] + rest)[1..] == rest;
  }

  lemma {:induction false} SixelsInARow(c: Byte, n: nat, rest: seq<Byte>)
    requires IsSixel(c)
    ensures Tokens(Repeat(c, n) + rest) == Repeat(Data(Bits(c), 1), n) + Tokens(rest)
    decreases n
  {
    hide Tokens, Bits;
    if n == 0 {
      assert Repeat(c, 0) + rest == rest;
    } else {
      SixelsInARow(c, n - 1, rest);
      OneSixel(c, Repeat(c, n - 1) + rest);
      assert Repeat(c, n) + rest == [c] + (Repeat(c, n - 1) + rest);
    }
  }

  predicate AllDigits(digits: seq<Byte>) {
    forall i :: 0 <= i < |digits| ==> IsDigit(digits[i])
  }

  /** The number digits spell, however large. */
  function Number(digits: seq<Byte>): nat
    requires AllDigits(digits)
  {
    if digits == [] then 0 else Number(digits[..|digits| - 1]) * 10 + Digit(digits[|digits| - 1])
  }

  lemma {:induction false} ValueSticks(digits: seq<Byte>)
    requires AllDigits(digits)
    ensures Value(digits) == Sat(Number(digits))
    decreases |digits|
  {
    if digits != [] {
      ValueSticks(digits[..|digits| - 1]);
    }
  }

  lemma {:induction false} RunOf(digits: seq<Byte>, rest: seq<Byte>)
    requires AllDigits(digits) && Stops(rest)
    ensures Run(digits + rest) == |digits|
    decreases |digits|
  {
    RunStops(digits, rest);
    if digits != [] {
      RunOf(digits[1..], rest);
      RunStops(digits[1..], rest);
    }
  }

  lemma CountedSixel(digits: seq<Byte>, c: Byte, rest: seq<Byte>)
    requires AllDigits(digits) && digits != [] && IsSixel(c)
    ensures Tokens([BANG] + digits + [c] + rest) == [Data(Bits(c), Value(digits))] + Tokens(rest)
  {
    hide Value, Bits, Run;
    var body := [BANG] + digits + [c] + rest;
    assert body[1..] == digits + ([c] + rest);
    RunOf(digits, [c] + rest);
    assert (digits + ([c] + rest))[..|digits|] == digits;
    CountRead(digits, c, rest);
    assert body[1 + |digits|] == c && body[|digits| + 2..] == rest;
  }

  lemma CountRead(digits: seq<Byte>, c: Byte, rest: seq<Byte>)
    requires AllDigits(digits) && digits != [] && IsSixel(c)
    ensures Params(digits + ([c] + rest), []) == Read([Value(digits)], |digits|)
  {
    hide Value, Run;
    var all := digits + ([c] + rest);
    RunOf(digits, [c] + rest);
    assert all[..|digits|] == digits && all[|digits|] == c;
  }

  /** `!n` before a character is `n` of that character, for any count but zero and anywhere in a body. */
  lemma CountIsCopies(front: seq<Byte>, digits: seq<Byte>, c: Byte, rest: seq<Byte>)
    requires Complete(front) && AllDigits(digits) && IsSixel(c) && Number(digits) >= 1
    ensures Decode(front + ([BANG] + digits + [c] + rest)) == Decode(front + (Repeat(c, Number(digits)) + rest))
  {
    hide Tokens, DecodeTokens, Value, Number, Bits, Complete;
    CountIsSome(digits);
    var n, bits := Number(digits), Bits(c);
    var counted, copied := [BANG] + digits + [c] + rest, Repeat(c, n) + rest;
    assert counted[0] == BANG && copied[0] == c;
    TokensAcross(front, counted);
    TokensAcross(front, copied);
    CountedSixel(digits, c, rest);
    SixelsInARow(c, n, rest);
    ValueSticks(digits);
    RunDecodesAsCopies(Tokens(front), bits, n, Tokens(rest));
    assert Tokens(front) + ([Data(bits, Sat(n))] + Tokens(rest)) == Tokens(front) + [Data(bits, Sat(n))] + Tokens(rest);
    assert Tokens(front) + (Repeat(Data(bits, 1), n) + Tokens(rest)) == Tokens(front) + Repeat(Data(bits, 1), n) + Tokens(rest);
  }

  lemma CountIsSome(digits: seq<Byte>)
    requires AllDigits(digits) && Number(digits) >= 1
    ensures digits != []
  {
  }
}
