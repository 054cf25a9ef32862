/** Base64 as the graphics protocol carries it (src/emu/kitty.rs): section 4 of RFC 4648, less what
    the terminal itself put in between, which is whitespace and the two-byte echo of a control key. */
module Base64 {
  import opened Cells
  import opened Utf8

  const CARET: Byte := 0x5E
  const PAD: Byte := 0x3D

  predicate IsSpace(b: Byte) {
    b == 0x20 || b == 0x09 || b == 0x0D || b == 0x0A
  }

  /** The six bits a character stands for. */
  function Sextet(b: Byte): Option<nat> {
    if 0x41 <= b <= 0x5A then Some(b - 0x41)
    else if 0x61 <= b <= 0x7A then Some(b - 0x61 + 26)
    else if 0x30 <= b <= 0x39 then Some(b - 0x30 + 52)
    else if b == 0x2B then Some(62)
    else if b == 0x2F then Some(63)
    else None
  }

  /** The character for six bits. */
  function Letter(n: nat): (b: Byte)
    requires n < 64
    ensures Sextet(b) == Some(n)
  {
    if n < 26 then 0x41 + n else if n < 52 then 0x61 + (n - 26) else if n < 62 then 0x30 + (n - 52)
    else if n == 62 then 0x2B else 0x2F
  }

  /** The alphabet of section 4 of RFC 4648, in its order. */
  function Alphabet(): string {
    "ABCDEFGHIJKLMNOPQRSTUVWXYZabcdefghijklmnopqrstuvwxyz0123456789+/"
  }

  function Capitals(): string {
    "ABCDEFGHIJKLMNOPQRSTUVWXYZ"
  }

  function Smalls(): string {
    "abcdefghijklmnopqrstuvwxyz"
  }

  lemma InParts(parts: string)
    requires parts == Capitals() + Smalls() + "0123456789+/"
    ensures Alphabet() == parts
  {
  }

  lemma OneOfEach(n: nat)
    requires n < 26
    ensures |Capitals()| == 26 == |Smalls()|
    ensures Capitals()[n] as int == 0x41 + n && Smalls()[n] as int == 0x61 + n
  {
  }

  lemma OtherLetter(n: nat)
    requires n < 12
    ensures "0123456789+/"[n] as int == if n < 10 then 0x30 + n else if n == 10 then 0x2B else 0x2F
  {
  }

  /** The character for six bits is the one at that place of the alphabet. */
  lemma LetterIsInAlphabet(n: nat)
    requires n < 64
    ensures |Alphabet()| == 64 && Letter(n) as char == Alphabet()[n]
  {
    hide Alphabet, Capitals, Smalls;
    var others := "0123456789+/";
    InParts(Capitals() + Smalls() + others);
    OneOfEach(0);
    if n < 26 {
      OneOfEach(n);
    } else if n < 52 {
      OneOfEach(n - 26);
    } else {
      OtherLetter(n - 52);
    }
  }

  /** And only those stand for six bits, each for its own place. */
  lemma SextetIsPlace(b: Byte, n: nat)
    ensures |Alphabet()| == 64 && (Sextet(b) == Some(n) <==> n < 64 && b as char == Alphabet()[n])
  {
    hide Alphabet;
    LetterIsInAlphabet(0);
    if n < 64 {
      LetterIsInAlphabet(n);
      SextetLetter(b, n);
    }
  }

  lemma SextetLetter(b: Byte, n: nat)
    requires n < 64
    ensures Sextet(b) == Some(n) <==> b == Letter(n)
    ensures b == Letter(n) <==> b as char == Letter(n) as char
  {
  }

  /** The six-bit values in some text, noise and padding left out; nothing if a byte is neither. */
  function Sextets(text: seq<Byte>): (r: Option<seq<nat>>)
    ensures r.Some? ==> forall i :: 0 <= i < |r.value| ==> r.value[i] < 64
    decreases |text|
  {
    if text == [] then Some([])
    else if text[0] == CARET then Sextets(if |text| >= 2 then text[2..] else [])
    else if text[0] == PAD || IsSpace(text[0]) then Sextets(text[1..])
    else if Sextet(text[0]).None? then None
    else
      var rest := Sextets(text[1..]);
      if rest.None? then None else Some([Sextet(text[0]).value] + rest.value)
  }

  function Power(bits: nat): (n: nat)
    ensures n >= 1
  {
    if bits == 0 then 1 else 2 * Power(bits - 1)
  }

  /** Six-bit values regrouped as bytes, `bits` bits worth `acc` being carried in; what does not fill
      a byte at the end is dropped. */
  function Regroup(acc: nat, bits: nat, sextets: seq<nat>): (r: seq<nat>)
    decreases |sextets|
  {
    if sextets == [] then []
    else
      var all, have := acc * 64 + sextets[0], bits + 6;
      if have >= 8 then
        [all / Power(have - 8) % 256] + Regroup(all % Power(have - 8), have - 8, sextets[1..])
      else Regroup(all, have, sextets[1..])
  }

  function Decode(text: seq<Byte>): Option<seq<nat>> {
    if Sextets(text).None? then None else Some(Regroup(0, 0, Sextets(text).value))
  }

  // ----- the round trip -----

  /** Three bytes as the 24-bit number they spell, the missing ones counting as zero. */
  function Group(bytes: seq<Byte>): nat
    requires bytes != []
  {
    var a: nat, b: nat, c: nat := bytes[0], if |bytes| > 1 then bytes[1] else 0, if |bytes| > 2 then bytes[2] else 0;
    a * 0x1_0000 + b * 0x100 + c
  }

  function Encode(bytes: seq<Byte>): seq<Byte>
    decreases |bytes|
  {
    if bytes == [] then []
    else
      var n := Group(bytes);
      [Letter(n / 0x4_0000 % 64), Letter(n / 0x1000 % 64),
       if |bytes| > 1 then Letter(n / 64 % 64) else PAD,
       if |bytes| > 2 then Letter(n % 64) else PAD]
      + Encode(if |bytes| > 3 then bytes[3..] else [])
  }

  lemma Powers()
    ensures Power(0) == 1 && Power(2) == 4 && Power(4) == 16 && Power(6) == 64
  {
    assert Power(1) == 2;
    assert Power(3) == 8;
    assert Power(5) == 32;
  }

  /** A six-bit value taken in when none, six, four or two bits are carried. */
  lemma RegroupEach(acc: nat, s: nat, rest: seq<nat>)
    ensures Regroup(0, 0, [s] + rest) == Regroup(s, 6, rest)
    ensures Regroup(acc, 6, [s] + rest) == [(acc * 64 + s) / 16 % 256] + Regroup((acc * 64 + s) % 16, 4, rest)
    ensures Regroup(acc, 4, [s] + rest) == [(acc * 64 + s) / 4 % 256] + Regroup((acc * 64 + s) % 4, 2, rest)
    ensures Regroup(acc, 2, [s] + rest) == [(acc * 64 + s) % 256] + Regroup(0, 0, rest)
  {
    Powers();
    assert ([s] + rest)[1..] == rest;
    assert (acc * 64 + s) / 1 == acc * 64 + s && (acc * 64 + s) % 1 == 0;
  }

  lemma FirstDigit(a: nat, b: nat, c: nat)
    requires a < 256 && b < 256 && c < 256
    ensures (a * 0x1_0000 + b * 0x100 + c) / 0x4_0000 % 64 == a / 4
  {
  }

  lemma SecondDigit(a: nat, b: nat, c: nat)
    requires a < 256 && b < 256 && c < 256
    ensures (a * 0x1_0000 + b * 0x100 + c) / 0x1000 % 64 == a % 4 * 16 + b / 16
  {
    assert (a * 0x1_0000 + b * 0x100 + c) / 0x1000 == a * 16 + b / 16;
  }

  lemma Parts(n: nat, k: nat)
    requires k > 0
    ensures n == n / k * k + n % k && n % k < k
  {
  }

  lemma Quotient(q: nat, r: nat)
    requires r < 64
    ensures (q * 64 + r) / 64 == q
  {
  }

  lemma Remainder(q: nat, r: nat)
    requires r < 64
    ensures (q * 64 + r) % 64 == r
  {
  }

  lemma ThirdDigit(a: nat, b: nat, c: nat)
    requires a < 256 && b < 256 && c < 256
    ensures (a * 0x1_0000 + b * 0x100 + c) / 64 % 64 == b % 16 * 4 + c / 64
  {
    var x := a * 1024 + b * 4 + c / 64;
    Parts(c, 64);
    Parts(b, 16);
    assert a * 0x1_0000 + b * 0x100 + c == x * 64 + c % 64;
    Quotient(x, c % 64);
    assert x == (a * 16 + b / 16) * 64 + (b % 16 * 4 + c / 64);
    Remainder(a * 16 + b / 16, b % 16 * 4 + c / 64);
  }

  lemma FourthDigit(a: nat, b: nat, c: nat)
    requires a < 256 && b < 256 && c < 256
    ensures (a * 0x1_0000 + b * 0x100 + c) % 64 == c % 64
  {
  }

  lemma Overlap(a: nat, b: nat)
    requires a < 256 && b < 256
    ensures (a / 4 * 64 + (a % 4 * 16 + b / 16)) / 16 % 256 == a
    ensures (a / 4 * 64 + (a % 4 * 16 + b / 16)) % 16 == b / 16
    ensures (a / 16 * 64 + (a % 16 * 4 + b / 64)) / 4 % 256 == a
    ensures (a / 16 * 64 + (a % 16 * 4 + b / 64)) % 4 == b / 64
    ensures (a / 64 * 64 + a % 64) % 256 == a
  {
    assert a / 4 * 64 + a % 4 * 16 == a * 16;
    assert a / 16 * 64 + a % 16 * 4 == a * 4;
  }

  /** Four six-bit values are three bytes. */
  lemma RegroupFour(a: nat, b: nat, c: nat, rest: seq<nat>)
    requires a < 256 && b < 256 && c < 256
    ensures Regroup(0, 0, [a / 4, a % 4 * 16 + b / 16, b % 16 * 4 + c / 64, c % 64] + rest)
         == [a, b, c] + Regroup(0, 0, rest)
  {
    hide Regroup;
    var s, t, u := a % 4 * 16 + b / 16, b % 16 * 4 + c / 64, c % 64;
    assert [a / 4, s, t, u] + rest == [a / 4] + ([s] + ([t] + ([u] + rest)));
    RegroupEach(0, a / 4, [s] + ([t] + ([u] + rest)));
    RegroupEach(a / 4, s, [t] + ([u] + rest));
    RegroupEach(b / 16, t, [u] + rest);
    RegroupEach(c / 64, u, rest);
    Overlap(a, b);
    Overlap(b, c);
    Overlap(c, 0);
    assert [a] + ([b] + ([c] + Regroup(0, 0, rest))) == [a, b, c] + Regroup(0, 0, rest);
  }

  /** A last byte or two: the bits that fill no byte are dropped. */
  lemma RegroupTail(a: nat, b: nat)
    requires a < 256 && b < 256
    ensures Regroup(0, 0, [a / 4, a % 4 * 16]) == [a]
    ensures Regroup(0, 0, [a / 4, a % 4 * 16 + b / 16, b % 16 * 4]) == [a, b]
  {
    hide Regroup;
    NothingLeft(0, 4);
    NothingLeft(0, 2);
    var none: seq<nat> := [];
    var r, s, t := a % 4 * 16, a % 4 * 16 + b / 16, b % 16 * 4;
    RegroupEach(0, a / 4, [r]);
    RegroupEach(a / 4, r, none);
    Overlap(a, 0);
    assert [a / 4, r] == [a / 4] + [r] && [r] == [r] + none;
    RegroupEach(0, a / 4, [s] + [t]);
    RegroupEach(a / 4, s, [t]);
    RegroupEach(b / 16, t, none);
    Overlap(a, b);
    Overlap(b, 0);
    assert [a / 4, s, t] == [a / 4] + ([s] + [t]) && [t] == [t] + none;
  }

  lemma NothingLeft(acc: nat, bits: nat)
    ensures Regroup(acc, bits, []) == []
  {
  }

  lemma SextetsLetter(n: nat, rest: seq<Byte>)
    requires n < 64
    ensures Sextets([Letter(n)] + rest)
         == if Sextets(rest).None? then None else Some([n] + Sextets(rest).value)
  {
    assert ([Letter(n)] + rest)[1..] == rest;
  }

  lemma SextetsPad(rest: seq<Byte>)
    ensures Sextets([PAD] + rest) == Sextets(rest)
  {
    assert ([PAD] + rest)[1..] == rest;
  }

  /** The six-bit values an encoding spells. */
  function Spelled(bytes: seq<Byte>): seq<nat>
    decreases |bytes|
  {
    if bytes == [] then []
    else
      var n := Group(bytes);
      [n / 0x4_0000 % 64, n / 0x1000 % 64]
      + (if |bytes| > 1 then [n / 64 % 64] else []) + (if |bytes| > 2 then [n % 64] else [])
      + Spelled(if |bytes| > 3 then bytes[3..] else [])
  }

  lemma {:induction false} EncodeSpells(bytes: seq<Byte>)
    ensures Sextets(Encode(bytes)) == Some(Spelled(bytes))
    decreases |bytes|
  {
    hide Letter, Sextet, Sextets, Group, Encode, Spelled;
    if bytes == [] {
      NoSextets();
      EncodesNothing();
      SpellsNothing();
    } else {
      var n, rest := Group(bytes), if |bytes| > 3 then bytes[3..] else [];
      EncodeSpells(rest);
      var tail := Encode(rest);
      var third := if |bytes| > 1 then Letter(n / 64 % 64) else PAD;
      var fourth := if |bytes| > 2 then Letter(n % 64) else PAD;
      SextetsLetter(n % 64, tail);
      SextetsPad(tail);
      SextetsLetter(n / 64 % 64, [fourth] + tail);
      SextetsPad([fourth] + tail);
      SextetsLetter(n / 0x1000 % 64, [third] + ([fourth] + tail));
      SextetsLetter(n / 0x4_0000 % 64, [Letter(n / 0x1000 % 64)] + ([third] + ([fourth] + tail)));
      EncodedAs(bytes, tail);
      SpelledAs(bytes);
    }
  }

  lemma EncodedAs(bytes: seq<Byte>, tail: seq<Byte>)
    requires bytes != [] && tail == Encode(if |bytes| > 3 then bytes[3..] else [])
    ensures
      var n := Group(bytes);
      var third := if |bytes| > 1 then Letter(n / 64 % 64) else PAD;
      var fourth := if |bytes| > 2 then Letter(n % 64) else PAD;
      Encode(bytes) == [Letter(n / 0x4_0000 % 64)] + ([Letter(n / 0x1000 % 64)] + ([third] + ([fourth] + tail)))
  {
    hide Letter, Group;
  }

  lemma SpellsNothing()
    ensures Spelled([]) == []
  {
  }

  lemma NoSextets()
    ensures Sextets([]) == Some([])
  {
  }

  lemma SpelledAs(bytes: seq<Byte>)
    requires bytes != []
    ensures
      var n := Group(bytes);
      var rest := Spelled(if |bytes| > 3 then bytes[3..] else []);
      var fourth := if |bytes| > 2 then [n % 64] + rest else rest;
      var third := if |bytes| > 1 then [n / 64 % 64] + fourth else fourth;
      Spelled(bytes) == [n / 0x4_0000 % 64] + ([n / 0x1000 % 64] + third)
  {
    hide Group;
  }

  /** The digits of a group, in terms of its bytes. */
  lemma GroupDigits(bytes: seq<Byte>)
    requires bytes != []
    ensures
      var a: nat, b: nat, c: nat := bytes[0], if |bytes| > 1 then bytes[1] else 0, if |bytes| > 2 then bytes[2] else 0;
      var n := Group(bytes);
      && n / 0x4_0000 % 64 == a / 4
      && n / 0x1000 % 64 == a % 4 * 16 + b / 16
      && n / 64 % 64 == b % 16 * 4 + c / 64
      && n % 64 == c % 64
  {
    var a: nat, b: nat, c: nat := bytes[0], if |bytes| > 1 then bytes[1] else 0, if |bytes| > 2 then bytes[2] else 0;
    FirstDigit(a, b, c);
    SecondDigit(a, b, c);
    ThirdDigit(a, b, c);
    FourthDigit(a, b, c);
  }

  lemma {:induction false} SpelledRegroups(bytes: seq<Byte>)
    ensures Regroup(0, 0, Spelled(bytes)) == bytes
    decreases |bytes|
  {
    hide Regroup, Group;
    if bytes == [] {
      NothingLeft(0, 0);
    } else if |bytes| >= 3 {
      var rest := if |bytes| > 3 then bytes[3..] else [];
      SpelledRegroups(rest);
      RegroupFour(bytes[0], bytes[1], bytes[2], Spelled(rest));
      GroupDigits(bytes);
      var n := Group(bytes);
      assert Spelled(bytes) == [n / 0x4_0000 % 64, n / 0x1000 % 64, n / 64 % 64, n % 64] + Spelled(rest);
      assert [bytes[0], bytes[1], bytes[2]] + rest == bytes;
    } else {
      LastRegroups(bytes);
    }
  }

  lemma LastRegroups(bytes: seq<Byte>)
    requires 1 <= |bytes| <= 2
    ensures Regroup(0, 0, Spelled(bytes)) == bytes
  {
    hide Regroup, Group, Spelled;
    var a: nat, b: nat := bytes[0], if |bytes| == 2 then bytes[1] else 0;
    RegroupTail(a, b);
    LastSpelled(bytes, a, b);
    if |bytes| == 1 {
      assert [a] == bytes;
    } else {
      assert [a, b] == bytes;
    }
  }

  lemma LastSpelled(bytes: seq<Byte>, a: nat, b: nat)
    requires 1 <= |bytes| <= 2 && a == bytes[0] && b == if |bytes| == 2 then bytes[1] else 0
    ensures Spelled(bytes) == if |bytes| == 1 then [a / 4, a % 4 * 16] else [a / 4, a % 4 * 16 + b / 16, b % 16 * 4]
  {
    hide Group;
    GroupDigits(bytes);
    SpelledAs(bytes);
    assert b / 64 * 1 >= 0;
  }

  /** Decoding undoes encoding, for any bytes. */
  lemma DecodeEncode(bytes: seq<Byte>)
    ensures Decode(Encode(bytes)) == Some(bytes)
  {
    hide Encode, Sextets, Regroup;
    EncodeSpells(bytes);
    SpelledRegroups(bytes);
  }

  // ----- the repair -----

  /** Text as it arrives: what was sent, with noise of the terminal's own making in between. */
  datatype Piece = Plain(byte: Byte) | Blank(byte: Byte) | Echo(key: Byte)

  ghost predicate Noise(pieces: seq<Piece>) {
    forall i :: 0 <= i < |pieces| ==>
      (pieces[i].Plain? ==> pieces[i].byte != CARET) && (pieces[i].Blank? ==> IsSpace(pieces[i].byte))
  }

  function Arrived(pieces: seq<Piece>): seq<Byte> {
    if pieces == [] then []
    else
      (match pieces[0]
       case Plain(b) => [b]
       case Blank(b) => [b]
       case Echo(key) => [CARET, key]) + Arrived(pieces[1..])
  }

  function Transmitted(pieces: seq<Piece>): seq<Byte> {
    if pieces == [] then []
    else (if pieces[0].Plain? then [pieces[0].byte] else []) + Transmitted(pieces[1..])
  }

  lemma SextetsStep(b: Byte, key: Byte, rest: seq<Byte>)
    ensures b != CARET && Sextet(b).None? && b != PAD && !IsSpace(b) ==> Sextets([b] + rest) == None
    ensures b == PAD || IsSpace(b) ==> Sextets([b] + rest) == Sextets(rest)
    ensures b != CARET && Sextet(b).Some? ==>
      Sextets([b] + rest) == if Sextets(rest).None? then None else Some([Sextet(b).value] + Sextets(rest).value)
    ensures Sextets([CARET, key] + rest) == Sextets(rest)
    ensures Sextets([CARET]) == Some([])
  {
    assert ([b] + rest)[1..] == rest;
    assert ([CARET, key] + rest)[2..] == rest;
  }

  /** Whitespace and whole echoes, wherever they fall and however many, and an echo cut short at the
      very end: none of it changes what is decoded. */
  lemma {:induction false} NoiseIsLifted(pieces: seq<Piece>, cut: bool)
    requires Noise(pieces)
    ensures Sextets(Arrived(pieces) + if cut then [CARET] else []) == Sextets(Transmitted(pieces))
    decreases |pieces|
  {
    hide Sextet, Sextets, IsSpace;
    var end := if cut then [CARET] else [];
    if pieces == [] {
      SextetsStep(PAD, PAD, []);
      NoSextets();
      assert Arrived(pieces) + end == end;
    } else {
      NoiseIsLifted(pieces[1..], cut);
      var rest, sent := Arrived(pieces[1..]) + end, Transmitted(pieces[1..]);
      match pieces[0]
      case Plain(b) =>
        assert Arrived(pieces) + end == [b] + rest;
        SextetsStep(b, b, rest);
        SextetsStep(b, b, sent);
      case Blank(b) =>
        assert Arrived(pieces) + end == [b] + rest;
        SextetsStep(b, b, rest);
        assert Transmitted(pieces) == sent;
      case Echo(key) =>
        assert Arrived(pieces) + end == [CARET, key] + rest;
        SextetsStep(key, key, rest);
        assert Transmitted(pieces) == sent;
    }
  }

  /** A payload that picked up echoes and newlines on the way decodes to what was sent. */
  lemma EchoesAreRepaired(pieces: seq<Piece>, cut: bool, bytes: seq<Byte>)
    requires Noise(pieces) && Transmitted(pieces) == Encode(bytes)
    ensures Decode(Arrived(pieces) + if cut then [CARET] else []) == Some(bytes)
  {
    hide Encode, Sextets, Regroup, Arrived, Transmitted;
    NoiseIsLifted(pieces, cut);
    DecodeEncode(bytes);
  }

  // ----- the loops -----

  const WORD: nat := 0x1_0000_0000

  /** The accumulator is 32 bits wide and is never cleared; only its low bits still count. */
  lemma Accumulate(acc: nat, bits: nat, value: nat)
    requires bits == 0 || bits == 2 || bits == 4 || bits == 6
    requires acc < WORD && value < 64
    ensures
      var next, all := (acc * 64 + value) % WORD, acc % Power(bits) * 64 + value;
      && (bits + 6 < 8 ==> next % Power(bits + 6) == all)
      && (bits + 6 >= 8 ==>
            && next / Power(bits - 2) % 256 == all / Power(bits - 2) % 256
            && next % Power(bits - 2) == all % Power(bits - 2))
  {
    hide Power;
    Powers();
    match bits {
      case 0 => Wrapped(acc, value);
      case 2 => WrappedTwo(acc, value);
      case 4 => WrappedFour(acc, value);
      case _ => WrappedSix(acc, value);
    }
  }

  lemma Wrapped(acc: nat, value: nat)
    requires value < 64
    ensures (acc * 64 + value) % WORD % 64 == acc % 1 * 64 + value
  {
    var n := acc * 64 + value;
    var w := n % WORD;
    assert n == (n / WORD * 0x400_0000 + w / 64) * 64 + w % 64;
  }

  lemma LowByte(n: nat)
    ensures n % WORD % 256 == n % 256
  {
    var w := n % WORD;
    assert n == (n / WORD * 0x100_0000 + w / 256) * 256 + w % 256;
  }

  lemma Quarters(acc: nat)
    ensures acc == acc / 4 * 4 + acc % 4
  {
  }

  lemma DropMultiple(q: nat, r: nat)
    ensures (q * 256 + r) % 256 == r % 256
  {
  }

  lemma WrappedTwo(acc: nat, value: nat)
    requires value < 64
    ensures
      var next, all := (acc * 64 + value) % WORD, acc % 4 * 64 + value;
      next / 1 % 256 == all / 1 % 256 && next % 1 == all % 1
  {
    var all := acc % 4 * 64 + value;
    LowByte(acc * 64 + value);
    Quarters(acc);
    assert acc * 64 + value == acc / 4 * 256 + all;
    DropMultiple(acc / 4, all);
    Whole((acc * 64 + value) % WORD);
    Whole(all);
  }

  lemma Whole(n: nat)
    ensures n / 1 == n && n % 1 == 0
  {
  }

  lemma WrappedFour(acc: nat, value: nat)
    requires value < 64
    ensures
      var next, all := (acc * 64 + value) % WORD, acc % 16 * 64 + value;
      next / 4 % 256 == all / 4 % 256 && next % 4 == all % 4
  {
    var w := (acc * 64 + value) % WORD;
    CutFour(acc * 64 + value);
    ShiftedFour(acc, value);
    Slice4(w / 1024, w % 1024);
  }

  lemma CutFour(n: nat)
    ensures n % WORD % 1024 == n % 1024
    ensures n % WORD == n % WORD / 1024 * 1024 + n % WORD % 1024
  {
    var q, w := n / WORD, n % WORD;
    assert n == q * WORD + w;
    ResidueFour(q * 0x40_0000 + w / 1024, w % 1024);
  }

  lemma ResidueFour(k: nat, r: nat)
    requires r < 1024
    ensures (k * 1024 + r) % 1024 == r
  {
  }

  lemma ShiftedFour(acc: nat, value: nat)
    requires value < 64
    ensures (acc * 64 + value) % 1024 == acc % 16 * 64 + value
  {
    assert acc * 64 + value == acc / 16 * 1024 + (acc % 16 * 64 + value);
  }

  lemma WrappedSix(acc: nat, value: nat)
    requires value < 64
    ensures
      var next, all := (acc * 64 + value) % WORD, acc % 64 * 64 + value;
      next / 16 % 256 == all / 16 % 256 && next % 16 == all % 16
  {
    var w := (acc * 64 + value) % WORD;
    CutSix(acc * 64 + value);
    ShiftedSix(acc, value);
    Slice16(w / 4096, w % 4096);
  }

  lemma CutSix(n: nat)
    ensures n % WORD % 4096 == n % 4096
    ensures n % WORD == n % WORD / 4096 * 4096 + n % WORD % 4096
  {
    var q, w := n / WORD, n % WORD;
    assert n == q * WORD + w;
    ResidueSix(q * 0x10_0000 + w / 4096, w % 4096);
  }

  lemma ResidueSix(k: nat, r: nat)
    requires r < 4096
    ensures (k * 4096 + r) % 4096 == r
  {
  }

  lemma ShiftedSix(acc: nat, value: nat)
    requires value < 64
    ensures (acc * 64 + value) % 4096 == acc % 64 * 64 + value
  {
    assert acc * 64 + value == acc / 64 * 4096 + (acc % 64 * 64 + value);
  }

  lemma Slice4(high: nat, low: nat)
    requires low < 1024
    ensures (high * 1024 + low) / 4 % 256 == low / 4 % 256 && (high * 1024 + low) % 4 == low % 4
  {
    assert (high * 1024 + low) / 4 == high * 256 + low / 4;
  }

  lemma Slice16(high: nat, low: nat)
    requires low < 4096
    ensures (high * 4096 + low) / 16 % 256 == low / 16 % 256 && (high * 4096 + low) % 16 == low % 16
  {
    assert (high * 4096 + low) / 16 == high * 256 + low / 16;
  }

  function Joined(out: seq<nat>, more: Option<seq<nat>>, acc: nat, bits: nat): Option<seq<nat>> {
    if more.None? then None else Some(out + Regroup(acc, bits, more.value))
  }

  /** What is left to read, the place having perhaps run one past the end. */
  function After(input: seq<Byte>, at: nat): (rest: seq<Byte>)
    ensures at < |input| ==> rest != [] && rest[0] == input[at] && rest[1..] == After(input, at + 1)
    ensures at < |input| ==> (if |rest| >= 2 then rest[2..] else []) == After(input, at + 2)
    decreases if at < |input| then |input| - at else 0
  {
    if at <= |input| then input[at..] else []
  }

  lemma AllAfter(input: seq<Byte>)
    ensures After(input, 0) == input
  {
  }

  lemma Started(input: seq<Byte>)
    ensures 0 % Power(0) == 0
    ensures Joined([], Sextets(After(input, 0)), 0, 0) == Decode(input)
  {
    Powers();
    AllAfter(input);
    var more := Sextets(input);
    if more.Some? {
      assert [] + Regroup(0, 0, more.value) == Regroup(0, 0, more.value);
    }
  }

  lemma Finished(out: seq<nat>, acc: nat, bits: nat)
    ensures Joined(out, Sextets([]), acc, bits) == Some(out)
  {
    assert out + [] == out;
  }

  method DecodeBase64(input: seq<Byte>) returns (out: Option<seq<nat>>)
    ensures out == Decode(input)
  {
    hide Power, Sextet, Sextets, Joined, IsSpace, Decode, After;
    var bytes: seq<nat> := [];
    var acc: nat, bits: nat := 0, 0;
    var at := 0;
    Started(input);
    while at < |input|
      invariant acc < WORD && (bits == 0 || bits == 2 || bits == 4 || bits == 6)
      invariant Joined(bytes, Sextets(After(input, at)), acc % Power(bits), bits) == Decode(input)
      decreases |input| - at
    {
      var byte := input[at];
      Turn(bytes, After(input, at), acc % Power(bits), bits);
      at := at + 1;
      if byte == CARET {
        at := at + 1;
      } else if byte != PAD && !IsSpace(byte) {
        var value := Sextet(byte);
        if value.None? {
          return None;
        }
        OneMore(bytes, After(input, at - 1), acc, bits);
        acc := (acc * 64 + value.value) % WORD;
        bits := bits + 6;
        if bits >= 8 {
          bits := bits - 8;
          bytes := bytes + [acc / Power(bits) % 256];
        }
      }
    }
    Ended(input, at);
    Finished(bytes, acc % Power(bits), bits);
    out := Some(bytes);
  }

  /** One more six-bit value, into the accumulator and perhaps out as a byte. */
  lemma OneMore(out: seq<nat>, text: seq<Byte>, acc: nat, bits: nat)
    requires acc < WORD && (bits == 0 || bits == 2 || bits == 4 || bits == 6)
    requires text != [] && text[0] != CARET && text[0] != PAD && !IsSpace(text[0]) && Sextet(text[0]).Some?
    ensures
      var next := (acc * 64 + Sextet(text[0]).value) % WORD;
      var before := Joined(out, Sextets(text), acc % Power(bits), bits);
      && (bits + 6 >= 8 ==>
            before == Joined(out + [next / Power(bits - 2) % 256], Sextets(text[1..]), next % Power(bits - 2), bits - 2))
      && (bits + 6 < 8 ==> before == Joined(out, Sextets(text[1..]), next % Power(bits + 6), bits + 6))
  {
    hide Power, Sextet, Sextets, Joined, IsSpace;
    Turn(out, text, acc % Power(bits), bits);
    Accumulate(acc, bits, Sextet(text[0]).value);
  }

  lemma Ended(input: seq<Byte>, at: nat)
    requires at >= |input|
    ensures After(input, at) == []
  {
  }

  /** One turn of the loop: what is owed before it is what is owed after. */
  lemma Turn(out: seq<nat>, text: seq<Byte>, acc: nat, bits: nat)
    requires text != []
    ensures text[0] == CARET ==>
      Joined(out, Sextets(text), acc, bits) == Joined(out, Sextets(if |text| >= 2 then text[2..] else []), acc, bits)
    ensures text[0] != CARET && (text[0] == PAD || IsSpace(text[0])) ==>
      Joined(out, Sextets(text), acc, bits) == Joined(out, Sextets(text[1..]), acc, bits)
    ensures text[0] != CARET && text[0] != PAD && !IsSpace(text[0]) ==>
      if Sextet(text[0]).None? then Joined(out, Sextets(text), acc, bits) == None
      else
        var value := Sextet(text[0]).value;
        var all, have := acc * 64 + value, bits + 6;
        && value < 64
        && (have >= 8 ==>
              Joined(out, Sextets(text), acc, bits)
              == Joined(out + [all / Power(have - 8) % 256], Sextets(text[1..]), all % Power(have - 8), have - 8))
        && (have < 8 ==> Joined(out, Sextets(text), acc, bits) == Joined(out, Sextets(text[1..]), all, have))
  {
    hide Power, IsSpace;
    if text[0] != CARET && text[0] != PAD && !IsSpace(text[0]) && Sextet(text[0]).Some? {
      var rest := Sextets(text[1..]);
      if rest.Some? {
        TakeSextet(out, acc, bits, Sextet(text[0]).value, rest.value);
      }
    }
  }

  lemma TakeSextet(out: seq<nat>, acc: nat, bits: nat, value: nat, rest: seq<nat>)
    ensures
      var all, have := acc * 64 + value, bits + 6;
      out + Regroup(acc, bits, [value] + rest)
      == if have >= 8 then out + [all / Power(have - 8) % 256] + Regroup(all % Power(have - 8), have - 8, rest)
         else out + Regroup(all, have, rest)
  {
    hide Power;
    var all, have := acc * 64 + value, bits + 6;
    assert ([value] + rest)[1..] == rest;
    if have >= 8 {
      var more := Regroup(all % Power(have - 8), have - 8, rest);
      assert out + ([all / Power(have - 8) % 256] + more) == out + [all / Power(have - 8) % 256] + more;
    }
  }

  /** Three bytes at a time, and the padding the last of them may need. */
  method EncodeBase64(bytes: seq<Byte>) returns (out: seq<Byte>)
    ensures out == Encode(bytes)
  {
    hide Letter, Encode;
    out := [];
    var at := 0;
    assert bytes[0..] == bytes;
    EncodesNothing();
    while at < |bytes|
      invariant at <= |bytes| && Encode(bytes) == out + Encode(bytes[at..])
      decreases |bytes| - at
    {
      var size := if |bytes| - at >= 3 then 3 else |bytes| - at;
      var n: nat := 0;
      var byte: nat := bytes[at];
      n := byte * 0x1_0000;
      if size > 1 {
        byte := bytes[at + 1];
        n := n + byte * 0x100;
      }
      if size > 2 {
        n := n + bytes[at + 2];
      }
      var letters := [Letter(n / 0x4_0000 % 64), Letter(n / 0x1000 % 64),
                      if size > 1 then Letter(n / 64 % 64) else PAD,
                      if size > 2 then Letter(n % 64) else PAD];
      EncodesOne(bytes, at, size, n);
      assert out + (letters + Encode(bytes[at + size..])) == out + letters + Encode(bytes[at + size..]);
      out := out + letters;
      at := at + size;
    }
    assert bytes[at..] == [] && out + [] == out;
  }

  lemma EncodesNothing()
    ensures Encode([]) == []
  {
  }

  lemma EncodesOne(bytes: seq<Byte>, at: nat, size: nat, n: nat)
    requires at < |bytes| && size == (if |bytes| - at >= 3 then 3 else |bytes| - at)
    requires n == Group(bytes[at..])
    ensures Encode(bytes[at..])
         == [Letter(n / 0x4_0000 % 64), Letter(n / 0x1000 % 64),
             if size > 1 then Letter(n / 64 % 64) else PAD,
             if size > 2 then Letter(n % 64) else PAD] + Encode(bytes[at + size..])
  {
    hide Letter, Group;
    if |bytes| - at > 3 {
      assert bytes[at..][3..] == bytes[at + 3..];
    } else {
      assert bytes[at + size..] == [];
    }
  }
}
