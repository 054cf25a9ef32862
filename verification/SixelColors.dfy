/** Colour in a sixel picture (src/emu/sixel.rs): from the bytes that define a register to the channels of a pixel
    drawn in it later. */
module SixelColors {
  import opened Cells
  import opened SixelPicture
  import opened SixelRepeat

  // ----- the bytes of a definition -----

  /** Numbers, a semicolon between them. */
  function Joined(numbers: seq<seq<Byte>>): seq<Byte> {
    if numbers == [] then []
    else if |numbers| == 1 then numbers[0]
    else numbers[0] + [0x3B] + Joined(numbers[1..])
  }

  predicate NumbersOk(numbers: seq<seq<Byte>>) {
    forall i :: 0 <= i < |numbers| ==> AllDigits(numbers[i]) && numbers[i] != []
  }

  function Values(numbers: seq<seq<Byte>>): (r: seq<nat>)
    requires NumbersOk(numbers)
    ensures |r| == |numbers|
  {
    seq(|numbers|, i requires 0 <= i < |numbers| => Sat(Number(numbers[i])))
  }

  lemma {:induction false} ParamsJoined(numbers: seq<seq<Byte>>, rest: seq<Byte>, sofar: seq<nat>)
    requires numbers != [] && NumbersOk(numbers) && Stops(rest)
    ensures Params(Joined(numbers) + rest, sofar) == Read(sofar + Values(numbers), |Joined(numbers)|)
    decreases |numbers|
  {
    hide Params, Run, Value, Number, AllDigits, Sat;
    var first, more := numbers[0], numbers[1..];
    ValueSticks(first);
    if |numbers| == 1 {
      var all := first + rest;
      RunOf(first, rest);
      ParamsAre(all, sofar);
      assert all[..|first|] == first;
      assert Values(numbers) == [Sat(Number(first))];
    } else {
      var tail := Joined(more) + rest;
      var all := first + ([0x3B] + tail);
      assert Joined(numbers) + rest == all;
      Semicolon(first, tail);
      ParamsAre(all, sofar);
      assert all[..|first|] == first && all[|first|] == SEMICOLON && all[|first| + 1..] == tail;
      ParamsJoined(more, rest, sofar + [Sat(Number(first))]);
      assert Values(numbers) == [Sat(Number(first))] + Values(more);
      assert (sofar + [Sat(Number(first))]) + Values(more) == sofar + Values(numbers);
    }
  }

  lemma {:induction false} Semicolon(digits: seq<Byte>, tail: seq<Byte>)
    requires AllDigits(digits)
    ensures Run(digits + ([0x3B] + tail)) == |digits|
    decreases |digits|
  {
    var all := digits + ([0x3B] + tail);
    if digits == [] {
      assert all[0] == 0x3B;
    } else {
      assert all[1..] == digits[1..] + ([0x3B] + tail);
      Semicolon(digits[1..], tail);
    }
  }

  /** `#n;2;r;g;b`: register `n` is so many hundredths red, green and blue. */
  function Definition(index: seq<Byte>, red: seq<Byte>, green: seq<Byte>, blue: seq<Byte>): seq<Byte> {
    [0x23] + Joined([index, [0x32], red, green, blue])
  }

  predicate DefinitionOk(index: seq<Byte>, red: seq<Byte>, green: seq<Byte>, blue: seq<Byte>) {
    NumbersOk([index, red, green, blue])
  }

  /** The hundredths a number asks for: no more than there are. */
  function Hundredths(digits: seq<Byte>): nat
    requires AllDigits(digits)
  {
    if Number(digits) > 100 then 100 else Number(digits)
  }

  lemma DefinitionToken(index: seq<Byte>, red: seq<Byte>, green: seq<Byte>, blue: seq<Byte>, rest: seq<Byte>)
    requires DefinitionOk(index, red, green, blue) && Stops(rest)
    ensures [index, red, green, blue][0] == index && AllDigits(index) && AllDigits(red) && AllDigits(green)
                && AllDigits(blue)
    ensures Tokens(Definition(index, red, green, blue) + rest)
            == [Color(AtMost(Number(index), 0xFFFF),
                Some(Percent(Hundredths(red), Hundredths(green), Hundredths(blue))))]
               + Tokens(rest)
  {
    hide Params, Number, Tokens, Joined, Bits, AllDigits;
    var four := [index, red, green, blue];
    assert four[0] == index && four[1] == red && four[2] == green && four[3] == blue;
    TwoIsTwo();
    var numbers := [index, [0x32], red, green, blue];
    var bytes := Joined(numbers);
    var body := Definition(index, red, green, blue) + rest;
    assert body[1..] == bytes + rest;
    ParamsJoined(numbers, rest, []);
    var values := Values(numbers);
    assert [] + values == values;
    TokensStep(body);
    assert body[1 + |bytes|..] == rest;
  }

  lemma TwoIsTwo()
    ensures AllDigits([0x32]) && Number([0x32]) == 2
  {
    assert [0x32][..0] == [];
  }

  // ----- the colour of a pixel -----

  /** The byte nearest to so many hundredths of full. */
  predicate Nearest(byte: nat, hundredths: nat) {
    byte <= 255 && -50 <= 100 * byte - 255 * hundredths <= 50
  }

  /** A colour that is not seen through. */
  predicate Shows(c: Rgba, red: nat, green: nat, blue: nat) {
    Nearest(c.red, red) && Nearest(c.green, green) && Nearest(c.blue, blue) && c.alpha == 255
  }

  lemma OpaqueIsNearest(p: Percent)
    requires p.red <= 100 && p.green <= 100 && p.blue <= 100
    ensures Shows(Opaque(p), p.red, p.green, p.blue)
  {
  }

  /** Drawing leaves the pen. */
  lemma {:induction false} PenStays(tokens: seq<Token>, n: nat)
    requires n <= |tokens| && forall i :: n <= i < |tokens| ==> !tokens[i].Color?
    ensures PenAfter(tokens) == PenAfter(tokens[..n])
    decreases |tokens|
  {
    if n == |tokens| {
      assert tokens[..n] == tokens;
    } else {
      var rest := tokens[..|tokens| - 1];
      PenStays(rest, n);
      assert rest[..n] == tokens[..n];
    }
  }

  /** A register is what it was last defined to be. */
  lemma {:induction false} RegisterStays(tokens: seq<Token>, n: nat, index: nat)
    requires n <= |tokens|
    requires forall i :: n <= i < |tokens| ==>
                !(tokens[i].Color? && tokens[i].index == index && tokens[i].definition.Some?)
    ensures RegisterAfter(tokens, index) == RegisterAfter(tokens[..n], index)
    decreases |tokens|
  {
    if n == |tokens| {
      assert tokens[..n] == tokens;
    } else {
      var rest := tokens[..|tokens| - 1];
      RegisterStays(rest, n, index);
      assert rest[..n] == tokens[..n];
    }
  }

  /** A pixel last covered by a token drawn since a definition, no other register touched in between, has the colour
      that was defined. */
  lemma DefinedShows(tokens: seq<Token>, d: nat, i: nat, px: nat, py: nat)
    requires d < i < |tokens| && tokens[d].Color? && tokens[d].definition.Some?
    requires forall j :: d < j < i ==> !tokens[j].Color?
    requires CoveredBy(tokens, i, px, py) && forall j :: i < j < |tokens| ==> !CoveredBy(tokens, j, px, py)
    ensures var p := tokens[d].definition.value;
            p.red <= 100 && p.green <= 100 && p.blue <= 100 ==> Shows(Shown(tokens, px, py), p.red, p.green, p.blue)
  {
    hide CoveredBy, Shown, Shows, Opaque;
    LastCoverShows(tokens, i, px, py);
    PenStays(tokens[..i], d + 1);
    assert tokens[..i][..d + 1] == tokens[..d] + [tokens[d]];
    OneMore(tokens[..d], tokens[d]);
    var p := tokens[d].definition.value;
    if p.red <= 100 && p.green <= 100 && p.blue <= 100 {
      OpaqueIsNearest(p);
    }
  }

  /** So has one drawn after the register was selected again, as long as it was not redefined. */
  lemma SelectedShows(tokens: seq<Token>, d: nat, k: nat, i: nat, px: nat, py: nat)
    requires d < k < i < |tokens| && tokens[d].Color? && tokens[d].definition.Some? && tokens[d].index < 256
    requires tokens[k] == Color(tokens[d].index, None)
    requires forall j :: d < j < k ==>
               !(tokens[j].Color? && tokens[j].index == tokens[d].index && tokens[j].definition.Some?)
    requires forall j :: k < j < i ==> !tokens[j].Color?
    requires CoveredBy(tokens, i, px, py) && forall j :: i < j < |tokens| ==> !CoveredBy(tokens, j, px, py)
    ensures var p := tokens[d].definition.value;
            p.red <= 100 && p.green <= 100 && p.blue <= 100 ==> Shows(Shown(tokens, px, py), p.red, p.green, p.blue)
  {
    hide CoveredBy, Shown, Shows, Opaque;
    var index := tokens[d].index;
    LastCoverShows(tokens, i, px, py);
    PenStays(tokens[..i], k + 1);
    assert tokens[..i][..k + 1] == tokens[..k] + [tokens[k]];
    OneMore(tokens[..k], tokens[k]);
    RegisterStays(tokens[..k], d + 1, index);
    assert tokens[..k][..d + 1] == tokens[..d] + [tokens[d]];
    OneMoreRegister(tokens[..d], tokens[d], index);
    var p := tokens[d].definition.value;
    if p.red <= 100 && p.green <= 100 && p.blue <= 100 {
      OpaqueIsNearest(p);
    }
  }

  /** From bytes to a pixel: `#n;2;r;g;b` anywhere in a body, and a pixel last covered by something drawn after it
      before another register is touched, has those hundredths of red, green and blue. */
  lemma DefinitionColoursPixel(front: seq<Byte>, index: seq<Byte>, red: seq<Byte>, green: seq<Byte>, blue: seq<Byte>,
                               rest: seq<Byte>, i: nat, px: nat, py: nat)
    requires Complete(front) && DefinitionOk(index, red, green, blue) && Stops(rest) && i < |Tokens(rest)|
    requires forall j :: 0 <= j < i ==> !Tokens(rest)[j].Color?
    requires var tokens := Tokens(front + (Definition(index, red, green, blue) + rest));
             var at := |Tokens(front)| + 1 + i;
             at < |tokens| && CoveredBy(tokens, at, px, py) && forall j :: at < j < |tokens| ==>
                 !CoveredBy(tokens, j, px, py)
    ensures AllDigits(red) && AllDigits(green) && AllDigits(blue)
    ensures Shows(Shown(Tokens(front + (Definition(index, red, green, blue) + rest)), px, py),
                  Hundredths(red), Hundredths(green), Hundredths(blue))
  {
    hide Tokens, CoveredBy, Shown, Shows, Definition, Number, Complete, AllDigits, NumbersOk;
    var bytes := Definition(index, red, green, blue) + rest;
    DefinitionStarts(index, red, green, blue, rest);
    TokensAcross(front, bytes);
    DefinitionToken(index, red, green, blue, rest);
    var tokens, d := Tokens(front + bytes), |Tokens(front)|;
    assert tokens[d].definition == Some(Percent(Hundredths(red), Hundredths(green), Hundredths(blue)));
    forall j | d < j < d + 1 + i ensures !tokens[j].Color? {
      assert tokens[j] == Tokens(rest)[j - d - 1];
    }
    DefinedShows(tokens, d, d + 1 + i, px, py);
  }

  lemma DefinitionStarts(index: seq<Byte>, red: seq<Byte>, green: seq<Byte>, blue: seq<Byte>, rest: seq<Byte>)
    ensures Stops(Definition(index, red, green, blue) + rest)
  {
    hide Joined;
  }

  /** Before any register is touched, what is drawn is black. */
  lemma FirstIsBlack(tokens: seq<Token>, i: nat, px: nat, py: nat)
    requires i < |tokens| && forall j :: 0 <= j < i ==> !tokens[j].Color?
    requires CoveredBy(tokens, i, px, py) && forall j :: i < j < |tokens| ==> !CoveredBy(tokens, j, px, py)
    ensures Shown(tokens, px, py) == Rgba(0, 0, 0, 255)
  {
    hide CoveredBy, Shown;
    LastCoverShows(tokens, i, px, py);
    PenStays(tokens[..i], 0);
    assert tokens[..i][..0] == [];
  }
}
