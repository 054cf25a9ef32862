/** What `str::from_utf8` answers (`valid_up_to` and `error_len`), from the grammar of section 4
    of RFC 3629. */
module Utf8 {
  type Byte = b: nat | b < 256

  /** What stands at the front of some bytes: a whole character, a maximal ill-formed prefix of
      `len` bytes, or a prefix of a character that more bytes could complete. */
  datatype Front = Char(len: nat, cp: nat) | Bad(len: nat) | Short

  predicate IsTail(b: Byte) {
    0x80 <= b <= 0xBF
  }

  /** Bytes in a character that starts with this one; 0 for a byte that starts none. */
  function Width(lead: Byte): (n: nat)
    ensures n <= 4
  {
    if lead <= 0x7F then 1
    else if 0xC2 <= lead <= 0xDF then 2
    else if 0xE0 <= lead <= 0xEF then 3
    else if 0xF0 <= lead <= 0xF4 then 4
    else 0
  }

  /** The second byte is narrower after the leads that could spell an overlong form, a
      surrogate, or a code point past U+10FFFF. */
  predicate SecondFits(lead: Byte, b: Byte) {
    if lead == 0xE0 then 0xA0 <= b <= 0xBF
    else if lead == 0xED then 0x80 <= b <= 0x9F
    else if lead == 0xF0 then 0x90 <= b <= 0xBF
    else if lead == 0xF4 then 0x80 <= b <= 0x8F
    else IsTail(b)
  }

  /** What a byte of a character adds to its code point, past the bits that mark its place. */
  function Bits(b: Byte, mark: nat): (n: nat)
    ensures mark <= b ==> n == b - mark
  {
    if mark <= b then b - mark else 0
  }

  function Scan(bs: seq<Byte>): (r: Front)
    requires bs != []
    ensures r.Char? ==> 1 <= r.len <= |bs| && r.len <= 4
    ensures r.Bad? ==> 1 <= r.len <= |bs| && r.len <= 3
    ensures r.Short? ==> |bs| <= 3
  {
    var n := Width(bs[0]);
    if n == 0 then Bad(1)
    else if n == 1 then Char(1, bs[0])
    else if |bs| == 1 then Short
    else if !SecondFits(bs[0], bs[1]) then Bad(1)
    else if n == 2 then Char(2, Bits(bs[0], 0xC0) * 0x40 + Bits(bs[1], 0x80))
    else if |bs| == 2 then Short
    else if !IsTail(bs[2]) then Bad(2)
    else if n == 3 then Char(3, Bits(bs[0], 0xE0) * 0x1000 + Bits(bs[1], 0x80) * 0x40 + Bits(bs[2], 0x80))
    else if |bs| == 3 then Short
    else if !IsTail(bs[3]) then Bad(3)
    else Char(4, Bits(bs[0], 0xF0) * 0x40000 + Bits(bs[1], 0x80) * 0x1000 + Bits(bs[2], 0x80) * 0x40 + Bits(bs[3], 0x80))
  }

  /** The bytes of a character cut off before its end, or none. */
  predicate IsPartial(p: seq<Byte>) {
    p == [] || Scan(p).Short?
  }

  datatype Stop = Whole | BadAt(len: nat) | ShortAt

  /** The characters decoded, the bytes they took, and what stopped the decoding. */
  datatype Decoded = Decoded(chars: seq<nat>, upTo: nat, stop: Stop)

  lemma DropTwice(bs: seq<Byte>, a: nat, b: nat)
    requires a + b <= |bs|
    ensures bs[a..][b..] == bs[a + b..]
  {
  }

  function Decode(bs: seq<Byte>): (d: Decoded)
    ensures d.upTo <= |bs|
    ensures d.stop.Whole? ==> d.upTo == |bs|
    ensures d.stop.BadAt? ==> d.upTo < |bs| && Scan(bs[d.upTo..]) == Bad(d.stop.len)
    ensures d.stop.ShortAt? ==> d.upTo < |bs| && Scan(bs[d.upTo..]).Short?
    ensures d.upTo > 0 <==> d.chars != []
    ensures bs != [] ==> (d.upTo > 0 <==> Scan(bs).Char?)
    ensures d.upTo > 0 ==> Scan(bs).len <= d.upTo && d.chars[0] == Scan(bs).cp
  {
    hide Scan;
    if bs == [] then Decoded([], 0, Whole)
    else
      match Scan(bs)
      case Bad(len) => Decoded([], 0, BadAt(len))
      case Short => Decoded([], 0, ShortAt)
      case Char(len, cp) =>
        var rest := Decode(bs[len..]);
        DropTwice(bs, len, rest.upTo);
        Decoded([cp] + rest.chars, len + rest.upTo, rest.stop)
  }

  /** More bytes never change what is already settled at the front. */
  lemma ScanSettled(a: seq<Byte>, b: seq<Byte>)
    requires a != [] && !Scan(a).Short?
    ensures Scan(a + b) == Scan(a)
  {
  }

  /** A cut-off character that more bytes settle is settled past the cut. */
  lemma ScanPastPartial(p: seq<Byte>, b: seq<Byte>)
    requires p != [] && IsPartial(p)
    ensures Scan(p + b).Char? ==> Scan(p + b).len > |p|
    ensures Scan(p + b).Bad? ==> Scan(p + b).len >= |p|
  {
  }

  /** Short of where the front is settled, the bytes are a character cut off. */
  lemma ScanBefore(bs: seq<Byte>, k: nat)
    requires bs != [] && 1 <= k < |bs|
    requires Scan(bs).Char? ==> k < Scan(bs).len
    requires Scan(bs).Bad? ==> k <= Scan(bs).len && Width(bs[0]) >= 2
    ensures Scan(bs[..k]).Short?
  {
  }

  // ----- the grammar is UTF-8 -----

  /** A Unicode scalar value: a code point that is not a surrogate. */
  predicate IsScalar(cp: nat) {
    cp < 0xD800 || 0xE000 <= cp <= 0x10FFFF
  }

  function Encode(cp: nat): (bs: seq<Byte>)
    requires IsScalar(cp)
    ensures 1 <= |bs| <= 4
  {
    if cp < 0x80 then [cp]
    else if cp < 0x800 then [0xC0 + cp / 0x40, 0x80 + cp % 0x40]
    else if cp < 0x10000 then [0xE0 + cp / 0x1000, 0x80 + cp / 0x40 % 0x40, 0x80 + cp % 0x40]
    else [0xF0 + cp / 0x40000, 0x80 + cp / 0x1000 % 0x40, 0x80 + cp / 0x40 % 0x40, 0x80 + cp % 0x40]
  }

  /** The six-bit digits of a code point. */
  lemma Digits(cp: nat)
    ensures cp == cp / 0x40 * 0x40 + cp % 0x40
    ensures cp == cp / 0x1000 * 0x1000 + cp / 0x40 % 0x40 * 0x40 + cp % 0x40
    ensures cp == cp / 0x40000 * 0x40000 + cp / 0x1000 % 0x40 * 0x1000 + cp / 0x40 % 0x40 * 0x40 + cp % 0x40
  {
    assert cp / 0x1000 == cp / 0x40 / 0x40;
    assert cp / 0x40000 == cp / 0x1000 / 0x40;
  }

  /** A scalar value's encoding is read back. */
  lemma ScanEncoding(cp: nat)
    requires IsScalar(cp)
    ensures Scan(Encode(cp)) == Char(|Encode(cp)|, cp)
  {
    Digits(cp);
    if cp >= 0x800 && cp < 0x10000 {
      assert cp / 0x1000 == 0 ==> cp / 0x40 % 0x40 >= 0x20;
      assert cp / 0x1000 == 0xD ==> cp / 0x40 % 0x40 < 0x20;
    } else if cp >= 0x10000 {
      assert cp / 0x40000 == 0 ==> cp / 0x1000 % 0x40 >= 0x10;
      assert cp / 0x40000 == 4 ==> cp / 0x1000 % 0x40 < 0x10;
    }
  }

  /** Every scalar value is read back from its encoding, whatever follows it. */
  lemma ScanReadsEncoding(cp: nat, rest: seq<Byte>)
    requires IsScalar(cp)
    ensures Scan(Encode(cp) + rest) == Char(|Encode(cp)|, cp)
  {
    ScanEncoding(cp);
    ScanSettled(Encode(cp), rest);
  }

  lemma ReadsTwo(a: nat, b: nat)
    requires 0xC2 <= a <= 0xDF && 0x80 <= b <= 0xBF
    ensures var cp := (a - 0xC0) * 0x40 + (b - 0x80);
            0x80 <= cp < 0x800 && cp / 0x40 == a - 0xC0 && cp % 0x40 == b - 0x80
  {
  }

  lemma ReadsThree(a: nat, b: nat, c: nat)
    requires 0xE0 <= a <= 0xEF && 0x80 <= b <= 0xBF && 0x80 <= c <= 0xBF
    requires (a == 0xE0 ==> b >= 0xA0) && (a == 0xED ==> b <= 0x9F)
    ensures var cp := (a - 0xE0) * 0x1000 + (b - 0x80) * 0x40 + (c - 0x80);
            && 0x800 <= cp < 0x10000 && IsScalar(cp)
            && cp / 0x1000 == a - 0xE0 && cp / 0x40 % 0x40 == b - 0x80 && cp % 0x40 == c - 0x80
  {
    var cp := (a - 0xE0) * 0x1000 + (b - 0x80) * 0x40 + (c - 0x80);
    assert cp / 0x40 == (a - 0xE0) * 0x40 + (b - 0x80);
  }

  lemma ReadsFour(a: nat, b: nat, c: nat, d: nat)
    requires 0xF0 <= a <= 0xF4 && 0x80 <= b <= 0xBF && 0x80 <= c <= 0xBF && 0x80 <= d <= 0xBF
    requires (a == 0xF0 ==> b >= 0x90) && (a == 0xF4 ==> b <= 0x8F)
    ensures var cp := (a - 0xF0) * 0x40000 + (b - 0x80) * 0x1000 + (c - 0x80) * 0x40 + (d - 0x80);
            && 0x10000 <= cp <= 0x10FFFF
            && cp / 0x40000 == a - 0xF0 && cp / 0x1000 % 0x40 == b - 0x80
            && cp / 0x40 % 0x40 == c - 0x80 && cp % 0x40 == d - 0x80
  {
    var cp := (a - 0xF0) * 0x40000 + (b - 0x80) * 0x1000 + (c - 0x80) * 0x40 + (d - 0x80);
    assert cp / 0x40 == (a - 0xF0) * 0x1000 + (b - 0x80) * 0x40 + (c - 0x80);
    assert cp / 0x1000 == (a - 0xF0) * 0x40 + (b - 0x80);
  }

  lemma FrontBytes(bs: seq<Byte>)
    ensures |bs| >= 2 ==> bs[..2] == [bs[0], bs[1]]
    ensures |bs| >= 3 ==> bs[..3] == [bs[0], bs[1], bs[2]]
    ensures |bs| >= 4 ==> bs[..4] == [bs[0], bs[1], bs[2], bs[3]]
  {
  }

  /** And only encodings are read as characters: no overlong form, no surrogate. */
  lemma OnlyEncodingsAreRead(bs: seq<Byte>)
    requires bs != [] && Scan(bs).Char?
    ensures IsScalar(Scan(bs).cp) && bs[..Scan(bs).len] == Encode(Scan(bs).cp)
  {
    FrontBytes(bs);
    match Width(bs[0]) {
      case 1 =>
      case 2 => ReadsTwo(bs[0], bs[1]);
      case 3 => ReadsThree(bs[0], bs[1], bs[2]);
      case _ => ReadsFour(bs[0], bs[1], bs[2], bs[3]);
    }
  }
}
