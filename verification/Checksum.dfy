/** The checksums a PNG carries (src/emu/png.rs). CRC-32 by slices of eight bytes is proved to be
    the bit-at-a-time definition of section 3.4 of RFC 2083 over any division of the data, and
    Adler-32 with its modulo deferred the per-byte sums of section 2.2 of RFC 1950, without an
    overflow of 32 bits. */
module Checksum {
  import opened Cells

  const POLYNOMIAL: bv32 := 0xEDB8_8320
  const ONES: bv32 := 0xFFFF_FFFF

  // ----- words -----

  function Xor(a: bv32, b: bv32): bv32 {
    a ^ b
  }

  predicate Odd(c: bv32) {
    c & 1 != 0
  }

  function Half(c: bv32): bv32 {
    c >> 1
  }

  /** The word eight bits down, its low byte dropped. */
  function Down(c: bv32): bv32 {
    c >> 8
  }

  function Up(c: bv32): bv32 {
    c << 8
  }

  function Low(c: bv32): bv32 {
    c & 0xFF
  }

  /** The word with its low byte cleared. */
  function High(c: bv32): bv32 {
    c & 0xFFFF_FF00
  }

  function Wide(b: bv8): bv32 {
    b as bv32
  }

  predicate IsByte(c: bv32) {
    c <= 0xFF
  }

  lemma XorHalf(a: bv32, b: bv32)
    ensures Half(Xor(a, b)) == Xor(Half(a), Half(b))
    ensures Odd(Xor(a, b)) == (Odd(a) != Odd(b))
  {
  }

  lemma XorZero(c: bv32)
    ensures Xor(c, 0) == c && Xor(0, c) == c
  {
  }

  lemma XorComm(a: bv32, b: bv32)
    ensures Xor(a, b) == Xor(b, a)
  {
  }

  lemma XorAssoc(a: bv32, b: bv32, c: bv32)
    ensures Xor(Xor(a, b), c) == Xor(a, Xor(b, c))
  {
  }

  lemma XorSelf(a: bv32)
    ensures Xor(a, a) == 0
  {
  }

  lemma XorMiddle(a: bv32, p: bv32, b: bv32, q: bv32)
    ensures Xor(Xor(a, p), Xor(b, q)) == Xor(Xor(a, b), Xor(p, q))
  {
    hide Xor;
    XorAssoc(a, p, Xor(b, q));
    XorAssoc(p, b, q);
    XorComm(p, b);
    XorAssoc(b, p, q);
    XorAssoc(a, b, Xor(p, q));
  }

  lemma XorCross(x: bv32, y: bv32, p: bv32)
    ensures Xor(Xor(x, p), Xor(y, p)) == Xor(x, y)
    ensures Xor(Xor(x, p), y) == Xor(Xor(x, y), p)
    ensures Xor(x, Xor(y, p)) == Xor(Xor(x, y), p)
  {
    hide Xor;
    XorMiddle(x, p, y, p);
    XorSelf(p);
    XorZero(Xor(x, y));
    XorAssoc(x, p, y);
    XorComm(p, y);
    XorAssoc(x, y, p);
  }

  // ----- the definition, a bit at a time -----

  /** The lowest bit of a byte, as a word. */
  function LowBit(byte: bv32): bv32 {
    byte & 1
  }

  /** One bit of the data into the register, least significant first. */
  function BitStep(crc: bv32, bit: bv32): bv32 {
    if Odd(Xor(crc, bit)) then Xor(Half(crc), POLYNOMIAL) else Half(crc)
  }

  function Bits(crc: bv32, byte: bv32, n: nat): bv32
    decreases n
  {
    if n == 0 then crc else Bits(BitStep(crc, LowBit(byte)), Half(byte), n - 1)
  }

  function Defined(crc: bv32, data: seq<bv8>): bv32
    decreases |data|
  {
    if data == [] then crc else Defined(Bits(crc, Wide(data[0]), 8), data[1..])
  }

  lemma {:induction false} DefinedConcat(crc: bv32, a: seq<bv8>, b: seq<bv8>)
    ensures Defined(crc, a + b) == Defined(Defined(crc, a), b)
    decreases |a|
  {
    hide Bits, Wide;
    if a == [] {
      assert a + b == b;
    } else {
      assert (a + b)[1..] == a[1..] + b;
      DefinedConcat(Bits(crc, Wide(a[0]), 8), a[1..], b);
    }
  }

  /** The checksum of some data. */
  function Crc(data: seq<bv8>): bv32 {
    Xor(Defined(ONES, data), ONES)
  }

  /** Pieces one after another have the checksum of the whole. */
  lemma CrcOfPieces(pieces: seq<seq<bv8>>, crc: bv32)
    ensures DefinedOver(crc, pieces) == Defined(crc, Whole(pieces))
    decreases |pieces|
  {
    hide Bits;
    if pieces != [] {
      CrcOfPieces(pieces[1..], Defined(crc, pieces[0]));
      DefinedConcat(crc, pieces[0], Whole(pieces[1..]));
    }
  }

  function DefinedOver(crc: bv32, pieces: seq<seq<bv8>>): bv32
    decreases |pieces|
  {
    if pieces == [] then crc else DefinedOver(Defined(crc, pieces[0]), pieces[1..])
  }

  function Whole(pieces: seq<seq<bv8>>): seq<bv8> {
    if pieces == [] then [] else pieces[0] + Whole(pieces[1..])
  }

  // ----- a byte at a time -----

  function Shift(c: bv32): bv32 {
    if Odd(c) then Xor(Half(c), POLYNOMIAL) else Half(c)
  }

  function ShiftBy(c: bv32, n: nat): bv32
    decreases n
  {
    if n == 0 then c else ShiftBy(Shift(c), n - 1)
  }

  function Shift8(c: bv32): bv32 {
    ShiftBy(c, 8)
  }

  lemma SameOddness(crc: bv32, byte: bv32)
    ensures Odd(Xor(crc, LowBit(byte))) == Odd(Xor(crc, byte))
  {
  }

  lemma BitIsShift(crc: bv32, byte: bv32)
    ensures Shift(Xor(crc, byte)) == Xor(BitStep(crc, LowBit(byte)), Half(byte))
  {
    hide Xor, Half, Odd, LowBit;
    SameOddness(crc, byte);
    XorHalf(crc, byte);
    XorCross(Half(crc), Half(byte), POLYNOMIAL);
  }

  /** The byte has no more than `n` bits. */
  predicate Within(byte: bv32, n: nat)
    decreases n
  {
    if n == 0 then byte == 0 else Within(Half(byte), n - 1)
  }

  /** Feeding bits one by one is exclusive-oring them in at once and shifting. */
  lemma {:induction false} BitsAreShifts(crc: bv32, byte: bv32, n: nat)
    requires Within(byte, n)
    ensures Bits(crc, byte, n) == ShiftBy(Xor(crc, byte), n)
    decreases n
  {
    hide Xor, Half, LowBit, Shift, BitStep;
    if n == 0 {
      XorZero(crc);
    } else {
      BitIsShift(crc, byte);
      BitsAreShifts(BitStep(crc, LowBit(byte)), Half(byte), n - 1);
    }
  }

  lemma EightHalves(c: bv32)
    requires IsByte(c)
    ensures Half(Half(Half(Half(Half(Half(Half(Half(c)))))))) == 0
  {
  }

  lemma ByteIsWithin(c: bv32)
    requires IsByte(c)
    ensures Within(c, 8)
  {
    hide Half, IsByte;
    EightHalves(c);
    var c2 := Half(Half(c));
    var c4 := Half(Half(c2));
    var c6 := Half(Half(c4));
    assert Within(Half(Half(c6)), 0);
    assert Within(c6, 2);
    assert Within(c4, 4);
    assert Within(c2, 6);
  }

  lemma WideIsByte(b: bv8)
    ensures IsByte(Wide(b))
  {
  }

  lemma ByteIsShift8(crc: bv32, b: bv8)
    ensures Bits(crc, Wide(b), 8) == Shift8(Xor(crc, Wide(b)))
  {
    hide Xor, Bits, ShiftBy, Wide, IsByte, Within;
    WideIsByte(b);
    ByteIsWithin(Wide(b));
    BitsAreShifts(crc, Wide(b), 8);
  }

  // ----- the shift is linear -----

  lemma ShiftLinear(a: bv32, b: bv32)
    ensures Shift(Xor(a, b)) == Xor(Shift(a), Shift(b))
  {
    hide Xor, Half, Odd;
    XorHalf(a, b);
    XorCross(Half(a), Half(b), POLYNOMIAL);
  }

  lemma {:induction false} ShiftByLinear(a: bv32, b: bv32, n: nat)
    ensures ShiftBy(Xor(a, b), n) == Xor(ShiftBy(a, n), ShiftBy(b, n))
    decreases n
  {
    hide Xor, Shift;
    if n > 0 {
      ShiftLinear(a, b);
      ShiftByLinear(Shift(a), Shift(b), n - 1);
    }
  }

  /** `n` bytes' worth of shifting. */
  function Fold(c: bv32, n: nat): bv32
    decreases n
  {
    if n == 0 then c else Fold(Shift8(c), n - 1)
  }

  lemma {:induction false} FoldLinear(a: bv32, b: bv32, n: nat)
    ensures Fold(Xor(a, b), n) == Xor(Fold(a, n), Fold(b, n))
    decreases n
  {
    hide Xor, ShiftBy;
    if n > 0 {
      ShiftByLinear(a, b, 8);
      FoldLinear(Shift8(a), Shift8(b), n - 1);
    }
  }

  lemma EvenShift(c: bv32)
    requires !Odd(c)
    ensures Shift(c) == Half(c)
  {
  }

  lemma EightEven(c: bv32)
    requires Low(c) == 0
    ensures var c2 := Half(Half(c)); var c4 := Half(Half(c2)); var c6 := Half(Half(c4));
            && !Odd(c) && !Odd(Half(c)) && !Odd(c2) && !Odd(Half(c2))
            && !Odd(c4) && !Odd(Half(c4)) && !Odd(c6) && !Odd(Half(c6))
            && Half(Half(c6)) == Down(c)
  {
  }

  lemma EvenTwice(c: bv32, n: nat)
    requires !Odd(c) && !Odd(Half(c))
    ensures ShiftBy(c, n + 2) == ShiftBy(Half(Half(c)), n)
  {
    hide Half, Odd, Shift;
    EvenShift(c);
    EvenShift(Half(c));
    assert ShiftBy(c, n + 2) == ShiftBy(Shift(c), n + 1);
  }

  /** A register whose low byte is clear only moves down. */
  lemma LowByteClear(c: bv32)
    requires Low(c) == 0
    ensures Shift8(c) == Down(c)
  {
    hide Half, Odd, Low, Down;
    EightEven(c);
    var c2 := Half(Half(c));
    var c4 := Half(Half(c2));
    var c6 := Half(Half(c4));
    EvenTwice(c, 6);
    EvenTwice(c2, 4);
    EvenTwice(c4, 2);
    EvenTwice(c6, 0);
  }

  lemma SplitLow(c: bv32)
    ensures c == Xor(High(c), Low(c)) && Low(High(c)) == 0 && Down(High(c)) == Down(c) && IsByte(Low(c))
  {
  }

  lemma ByTable(c: bv32)
    ensures Shift8(c) == Xor(Down(c), Shift8(Low(c)))
  {
    hide Xor, High, Low, Down, ShiftBy, IsByte;
    SplitLow(c);
    ShiftByLinear(High(c), Low(c), 8);
    LowByteClear(High(c));
  }

  lemma UpIsClear(x: bv32)
    requires x <= 0xFF_FFFF
    ensures Low(Up(x)) == 0 && Down(Up(x)) == x
  {
  }

  lemma FoldUp(x: bv32, n: nat)
    requires x <= 0xFF_FFFF
    ensures Fold(Up(x), n + 1) == Fold(x, n)
  {
    hide Up, Low, Down, Shift8;
    UpIsClear(x);
    LowByteClear(Up(x));
  }

  lemma {:induction false} FoldLast(c: bv32, n: nat)
    ensures Fold(c, n + 1) == Shift8(Fold(c, n))
    decreases n
  {
    hide Shift8;
    if n == 0 {
      assert Fold(c, 1) == Fold(Shift8(c), 0);
    } else {
      FoldLast(Shift8(c), n - 1);
    }
  }

  // ----- the tables -----

  /** The place of a byte in a table. */
  function Index(x: bv32): (i: nat)
    requires IsByte(x)
    ensures i < 256
  {
    x as int
  }

  /** The table, as far as it is filled, answers for a byte what `k` bytes of shifting do to it. */
  ghost predicate TableOk(table: seq<bv32>, k: nat, upTo: nat) {
    |table| >= upTo && forall x: bv32 {:trigger Fold(x, k)} ::
      IsByte(x) && Index(x) < upTo ==> table[Index(x)] == Fold(x, k)
  }

  ghost predicate TablesOk(tables: seq<seq<bv32>>) {
    |tables| == 8 && forall k :: 0 <= k < 8 ==> |tables[k]| == 256 && TableOk(tables[k], k + 1, 256)
  }

  lemma Lookup(table: seq<bv32>, k: nat, x: bv32)
    requires |table| == 256 && TableOk(table, k, 256) && IsByte(x)
    ensures table[Index(x)] == Fold(x, k)
  {
    hide IsByte, Index, Fold;
  }

  /** The byte that stands at place `i`. */
  function AtPlace(i: nat): (x: bv32)
    requires i < 256
    ensures IsByte(x)
  {
    i as bv32
  }

  lemma OnlyAtPlace(x: bv32)
    requires IsByte(x)
    ensures AtPlace(Index(x)) == x
  {
  }

  /** One more entry keeps the table right. */
  lemma OneMoreEntry(table: seq<bv32>, k: nat, entry: bv32)
    requires |table| < 256 && TableOk(table, k, |table|) && entry == Fold(AtPlace(|table|), k)
    ensures TableOk(table + [entry], k, |table| + 1)
  {
    hide IsByte, Index, AtPlace, Fold;
    forall x: bv32 {:trigger Fold(x, k)} | IsByte(x) && Index(x) < |table| + 1
      ensures (table + [entry])[Index(x)] == Fold(x, k)
    {
      OnlyAtPlace(x);
    }
  }

  /** The first table: eight shift-and-xor steps for each byte value. */
  method FirstTable() returns (table: seq<bv32>)
    ensures |table| == 256 && TableOk(table, 1, 256)
  {
    hide Xor, Half, Odd, IsByte, Index, AtPlace, TableOk, Fold;
    table := [];
    NoEntries(1);
    for byte := 0 to 256
      invariant |table| == byte && TableOk(table, 1, byte)
    {
      var crc := AtPlace(byte);
      for bit := 0 to 8
        invariant ShiftBy(crc, 8 - bit) == ShiftBy(AtPlace(byte), 8)
      {
        crc := if Odd(crc) then Xor(Half(crc), POLYNOMIAL) else Half(crc);
      }
      FoldOnce(AtPlace(byte));
      OneMoreEntry(table, 1, crc);
      table := table + [crc];
    }
  }

  lemma NoEntries(k: nat)
    ensures TableOk([], k, 0)
  {
  }

  lemma FoldOnce(c: bv32)
    ensures Fold(c, 1) == Shift8(c)
  {
    hide Shift8;
    assert Fold(c, 1) == Fold(Shift8(c), 0);
  }

  /** The next table: the one before, advanced by another byte. */
  method NextTable(first: seq<bv32>, prev: seq<bv32>, k: nat) returns (table: seq<bv32>)
    requires |first| == 256 && TableOk(first, 1, 256) && |prev| == 256 && TableOk(prev, k, 256)
    ensures |table| == 256 && TableOk(table, k + 1, 256)
  {
    hide Xor, Down, Low, IsByte, Index, AtPlace, TableOk, Fold;
    table := [];
    NoEntries(k + 1);
    for byte := 0 to 256
      invariant |table| == byte && TableOk(table, k + 1, byte)
    {
      var was := prev[byte];
      SplitLow(was);
      var entry := Xor(Down(was), first[Index(Low(was))]);
      NextEntry(first, prev, k, byte);
      OneMoreEntry(table, k + 1, entry);
      table := table + [entry];
    }
  }

  lemma NextEntry(first: seq<bv32>, prev: seq<bv32>, k: nat, byte: nat)
    requires |first| == 256 && TableOk(first, 1, 256) && |prev| == 256 && TableOk(prev, k, 256) && byte < 256
    ensures IsByte(Low(prev[byte]))
    ensures Xor(Down(prev[byte]), first[Index(Low(prev[byte]))]) == Fold(AtPlace(byte), k + 1)
  {
    hide Xor, Down, Low, High, IsByte, TableOk, Fold, Shift8;
    var x := AtPlace(byte);
    PlaceOf(byte);
    Lookup(prev, k, x);
    SplitLow(prev[byte]);
    Lookup(first, 1, Low(prev[byte]));
    FoldOnce(Low(prev[byte]));
    ByTable(prev[byte]);
    FoldLast(x, k);
  }

  lemma PlaceOf(i: nat)
    requires i < 256
    ensures Index(AtPlace(i)) == i
  {
    assert i as bv32 == (i as bv8) as bv32;
  }

  method Tables() returns (tables: seq<seq<bv32>>)
    ensures TablesOk(tables)
  {
    hide TableOk;
    var first := FirstTable();
    tables := [first];
    for step := 1 to 8
      invariant |tables| == step && tables[0] == first
      invariant forall k :: 0 <= k < step ==> |tables[k]| == 256 && TableOk(tables[k], k + 1, 256)
    {
      var next := NextTable(first, tables[step - 1], step);
      tables := tables + [next];
    }
  }

  // ----- eight bytes at once -----

  datatype Quad = Quad(b0: bv32, b1: bv32, b2: bv32, b3: bv32)

  /** The bytes of a word, lowest first. */
  function BytesOf(c: bv32): (q: Quad)
    ensures IsByte(q.b0) && IsByte(q.b1) && IsByte(q.b2) && IsByte(q.b3)
  {
    Quad(c & 0xFF, (c >> 8) & 0xFF, (c >> 16) & 0xFF, c >> 24)
  }

  function LittleEndian(q: Quad): bv32 {
    q.b0 | (q.b1 << 8) | (q.b2 << 16) | (q.b3 << 24)
  }

  predicate AreBytes(q: Quad) {
    IsByte(q.b0) && IsByte(q.b1) && IsByte(q.b2) && IsByte(q.b3)
  }

  lemma MixByte0(q: Quad, crc: bv32)
    requires AreBytes(q)
    ensures BytesOf(Xor(LittleEndian(q), crc)).b0 == Xor(q.b0, BytesOf(crc).b0)
  {
  }

  lemma MixByte1(q: Quad, crc: bv32)
    requires AreBytes(q)
    ensures BytesOf(Xor(LittleEndian(q), crc)).b1 == Xor(q.b1, BytesOf(crc).b1)
  {
  }

  lemma MixByte2(q: Quad, crc: bv32)
    requires AreBytes(q)
    ensures BytesOf(Xor(LittleEndian(q), crc)).b2 == Xor(q.b2, BytesOf(crc).b2)
  {
  }

  lemma MixByte3(q: Quad, crc: bv32)
    requires AreBytes(q)
    ensures BytesOf(Xor(LittleEndian(q), crc)).b3 == Xor(q.b3, BytesOf(crc).b3)
  {
  }

  lemma BytesOfWord(q: Quad)
    requires AreBytes(q)
    ensures BytesOf(LittleEndian(q)) == q
  {
    hide Xor, LittleEndian, BytesOf;
    var word := LittleEndian(q);
    MixByte0(q, 0);
    MixByte1(q, 0);
    MixByte2(q, 0);
    MixByte3(q, 0);
    NoBytes();
    XorZero(word);
    XorZero(q.b0);
    XorZero(q.b1);
    XorZero(q.b2);
    XorZero(q.b3);
  }

  lemma NoBytes()
    ensures BytesOf(0) == Quad(0, 0, 0, 0)
  {
  }

  /** A word is its bytes, each moved up to where it stands. */
  lemma SplitWord(c: bv32)
    ensures var q := BytesOf(c);
            && q.b3 <= 0xFF_FFFF && Xor(q.b2, Up(q.b3)) <= 0xFF_FFFF
            && Xor(q.b1, Up(Xor(q.b2, Up(q.b3)))) <= 0xFF_FFFF
            && c == Xor(q.b0, Up(Xor(q.b1, Up(Xor(q.b2, Up(q.b3))))))
  {
  }

  function Xor4(a: bv32, b: bv32, c: bv32, d: bv32): bv32 {
    Xor(a, Xor(b, Xor(c, d)))
  }

  /** Folding a whole register is folding its bytes, each from where it stands. */
  lemma FoldBytes(c: bv32, n: nat)
    ensures var q := BytesOf(c);
            Fold(c, n + 4) == Xor4(Fold(q.b0, n + 4), Fold(q.b1, n + 3), Fold(q.b2, n + 2), Fold(q.b3, n + 1))
  {
    hide Xor, Up, BytesOf, Fold;
    SplitWord(c);
    var q := BytesOf(c);
    var top := Xor(q.b2, Up(q.b3));
    var upper := Xor(q.b1, Up(top));
    FoldLinear(q.b0, Up(upper), n + 4);
    FoldUp(upper, n + 3);
    FoldLinear(q.b1, Up(top), n + 3);
    FoldUp(top, n + 2);
    FoldLinear(q.b2, Up(q.b3), n + 2);
    FoldUp(q.b3, n + 1);
  }

  /** The bytes fed in, a byte of shifting for each. */
  function Feed(c: bv32, data: seq<bv8>): bv32
    decreases |data|
  {
    if data == [] then c else Feed(Shift8(Xor(c, Wide(data[0]))), data[1..])
  }

  lemma {:induction false} FeedIsDefined(c: bv32, data: seq<bv8>)
    ensures Feed(c, data) == Defined(c, data)
    decreases |data|
  {
    hide Shift8, Bits, Xor, Wide;
    if data != [] {
      ByteIsShift8(c, data[0]);
      FeedIsDefined(Shift8(Xor(c, Wide(data[0]))), data[1..]);
    }
  }

  /** Each byte of a run folded from where it stands. */
  function Spread(data: seq<bv8>): bv32
    decreases |data|
  {
    if data == [] then 0 else Xor(Fold(Wide(data[0]), |data|), Spread(data[1..]))
  }

  lemma {:induction false} FeedSpreads(c: bv32, data: seq<bv8>)
    ensures Feed(c, data) == Xor(Fold(c, |data|), Spread(data))
    decreases |data|
  {
    hide Shift8, Xor, Wide;
    if data == [] {
      XorZero(c);
    } else {
      var d, n := Wide(data[0]), |data|;
      FeedSpreads(Shift8(Xor(c, d)), data[1..]);
      assert Fold(Xor(c, d), n) == Fold(Shift8(Xor(c, d)), n - 1);
      FoldLinear(c, d, n);
      XorAssoc(Fold(c, n), Fold(d, n), Spread(data[1..]));
    }
  }

  lemma SpreadOne(data: seq<bv8>)
    requires data != []
    ensures Spread(data) == Xor(Fold(Wide(data[0]), |data|), Spread(data[1..]))
  {
  }

  lemma SpreadFour(data: seq<bv8>)
    requires |data| >= 4
    ensures var n := |data|;
            Spread(data) == Xor(Xor4(Fold(Wide(data[0]), n), Fold(Wide(data[1]), n - 1),
                                     Fold(Wide(data[2]), n - 2), Fold(Wide(data[3]), n - 3)),
                                Spread(data[4..]))
  {
    hide Xor, Fold, Wide, Spread;
    SpreadOne(data);
    SpreadOne(data[1..]);
    SpreadOne(data[2..]);
    SpreadOne(data[3..]);
    assert data[1..][1..] == data[2..] && data[2..][1..] == data[3..] && data[3..][1..] == data[4..];
    XorFourAndMore(Fold(Wide(data[0]), |data|), Fold(Wide(data[1]), |data| - 1),
                   Fold(Wide(data[2]), |data| - 2), Fold(Wide(data[3]), |data| - 3), Spread(data[4..]));
  }

  lemma XorFourAndMore(a: bv32, b: bv32, c: bv32, d: bv32, rest: bv32)
    ensures Xor(Xor4(a, b, c, d), rest) == Xor(a, Xor(b, Xor(c, Xor(d, rest))))
  {
    hide Xor;
    XorAssoc(a, Xor(b, Xor(c, d)), rest);
    XorAssoc(b, Xor(c, d), rest);
    XorAssoc(c, d, rest);
  }

  /** Four lookups in tables that end at number `n`. */
  function Lookups(tables: seq<seq<bv32>>, q: Quad, n: nat): bv32
    requires TablesOk(tables) && AreBytes(q) && 3 <= n < 8
  {
    Xor4(tables[n][Index(q.b0)], tables[n - 1][Index(q.b1)], tables[n - 2][Index(q.b2)], tables[n - 3][Index(q.b3)])
  }

  lemma LookupsFold(tables: seq<seq<bv32>>, q: Quad, n: nat)
    requires TablesOk(tables) && AreBytes(q) && 3 <= n < 8
    ensures Lookups(tables, q, n)
         == Xor4(Fold(q.b0, n + 1), Fold(q.b1, n), Fold(q.b2, n - 1), Fold(q.b3, n - 2))
  {
    hide Xor, Fold, TableOk, IsByte, Index;
    Lookup(tables[n], n + 1, q.b0);
    Lookup(tables[n - 1], n, q.b1);
    Lookup(tables[n - 2], n - 1, q.b2);
    Lookup(tables[n - 3], n - 2, q.b3);
  }

  /** The slice: the running register goes into the low word, and eight lookups that do not wait for
      one another do the rest. */
  function Slice(tables: seq<seq<bv32>>, crc: bv32, lo: bv32, hi: bv32): bv32
    requires TablesOk(tables)
  {
    Xor(Lookups(tables, BytesOf(Xor(lo, crc)), 7), Lookups(tables, BytesOf(hi), 3))
  }

  function QuadAt(o: seq<bv8>, i: nat): (q: Quad)
    requires i + 4 <= |o|
  {
    Quad(Wide(o[i]), Wide(o[i + 1]), Wide(o[i + 2]), Wide(o[i + 3]))
  }

  lemma QuadIsBytes(o: seq<bv8>, i: nat)
    requires i + 4 <= |o|
    ensures AreBytes(QuadAt(o, i))
  {
    hide Wide, IsByte;
    WideIsByte(o[i]);
    WideIsByte(o[i + 1]);
    WideIsByte(o[i + 2]);
    WideIsByte(o[i + 3]);
  }

  function FoldQuad(q: Quad, n: nat): bv32
    requires n >= 3
  {
    Xor4(Fold(q.b0, n), Fold(q.b1, n - 1), Fold(q.b2, n - 2), Fold(q.b3, n - 3))
  }

  function XorQuad(p: Quad, q: Quad): Quad {
    Quad(Xor(p.b0, q.b0), Xor(p.b1, q.b1), Xor(p.b2, q.b2), Xor(p.b3, q.b3))
  }

  lemma XorOfQuads(a: bv32, p: bv32, b: bv32, q: bv32, c: bv32, r: bv32, d: bv32, s: bv32)
    ensures Xor4(Xor(a, p), Xor(b, q), Xor(c, r), Xor(d, s)) == Xor(Xor4(p, q, r, s), Xor4(a, b, c, d))
  {
    hide Xor;
    XorMiddle(c, r, d, s);
    XorMiddle(b, q, Xor(c, d), Xor(r, s));
    XorMiddle(a, p, Xor(b, Xor(c, d)), Xor(q, Xor(r, s)));
    XorComm(Xor4(a, b, c, d), Xor4(p, q, r, s));
  }

  lemma FoldQuadLinear(p: Quad, q: Quad, n: nat)
    requires n >= 3
    ensures FoldQuad(XorQuad(p, q), n) == Xor(FoldQuad(q, n), FoldQuad(p, n))
  {
    hide Xor, Xor4, Fold;
    FoldLinear(p.b0, q.b0, n);
    FoldLinear(p.b1, q.b1, n - 1);
    FoldLinear(p.b2, q.b2, n - 2);
    FoldLinear(p.b3, q.b3, n - 3);
    XorOfQuads(Fold(p.b0, n), Fold(q.b0, n), Fold(p.b1, n - 1), Fold(q.b1, n - 1),
               Fold(p.b2, n - 2), Fold(q.b2, n - 2), Fold(p.b3, n - 3), Fold(q.b3, n - 3));
  }

  lemma MixedBytes(q: Quad, crc: bv32)
    requires AreBytes(q)
    ensures BytesOf(Xor(LittleEndian(q), crc)) == XorQuad(q, BytesOf(crc))
  {
    hide Xor, LittleEndian, BytesOf, IsByte;
    MixByte0(q, crc);
    MixByte1(q, crc);
    MixByte2(q, crc);
    MixByte3(q, crc);
  }

  /** Eight bytes through the tables are eight bytes a bit at a time. */
  lemma SliceIsEightBytes(tables: seq<seq<bv32>>, crc: bv32, o: seq<bv8>)
    requires TablesOk(tables) && |o| == 8
    ensures Slice(tables, crc, LittleEndian(QuadAt(o, 0)), LittleEndian(QuadAt(o, 4))) == Defined(crc, o)
  {
    hide Xor, Fold, BytesOf, LittleEndian, Wide, TablesOk, Feed, Defined, Spread, Lookups, IsByte;
    var p, q := QuadAt(o, 0), QuadAt(o, 4);
    QuadIsBytes(o, 0);
    QuadIsBytes(o, 4);
    MixedBytes(p, crc);
    BytesOfWord(q);
    LookupsFold(tables, XorQuad(p, BytesOf(crc)), 7);
    LookupsFold(tables, q, 3);
    FoldQuadLinear(p, BytesOf(crc), 8);
    FoldBytes(crc, 4);
    SpreadFour(o);
    SpreadFour(o[4..]);
    assert o[4..][4..] == [];
    NoSpread();
    XorZero(FoldQuad(q, 4));
    XorAssoc(Fold(crc, 8), FoldQuad(p, 8), FoldQuad(q, 4));
    FeedSpreads(crc, o);
    FeedIsDefined(crc, o);
  }

  lemma NoSpread()
    ensures Spread([]) == 0
  {
  }

  lemma OneByte(table: seq<bv32>, crc: bv32, b: bv8)
    requires |table| == 256 && TableOk(table, 1, 256)
    ensures IsByte(Low(Xor(crc, Wide(b))))
    ensures Xor(Down(crc), table[Index(Low(Xor(crc, Wide(b))))]) == Defined(crc, [b])
  {
    hide Xor, Down, Low, High, Wide, TableOk, Fold, Shift8, IsByte, Bits;
    var c := Xor(crc, Wide(b));
    SplitLow(c);
    Lookup(table, 1, Low(c));
    FoldOnce(Low(c));
    ByTable(c);
    DownIgnoresLow(crc, b);
    ByteIsShift8(crc, b);
    assert [b][1..] == [];
    assert Defined(crc, [b]) == Defined(Bits(crc, Wide(b), 8), []);
  }

  lemma DownIgnoresLow(crc: bv32, b: bv8)
    ensures Down(Xor(crc, Wide(b))) == Down(crc)
  {
  }

  // ----- the object -----

  /** The checksum of the data in pieces, pushed one after another. */
  class Crc32 {
    const tables: seq<seq<bv32>>
    var held: Option<bv32>

    ghost predicate Valid()
      reads this
    {
      TablesOk(tables)
    }

    /** The register, all ones before anything is pushed. */
    function Register(): bv32
      reads this
    {
      if held.Some? then held.value else ONES
    }

    constructor (tables: seq<seq<bv32>>)
      requires TablesOk(tables)
      ensures Valid() && Register() == ONES
    {
      this.tables, held := tables, None;
    }

    /** Eight bytes at a time, and the odd tail one at a time: the definition carried on over `data`,
        so pushing data in pieces is pushing the whole of it. */
    method Push(data: seq<bv8>)
      requires Valid()
      modifies this
      ensures Valid() && Register() == Defined(old(Register()), data)
    {
      hide Xor, Down, Low, Wide, Defined, TableOk, Fold, IsByte, Index, Slice, BytesOf, LittleEndian;
      var crc := Register();
      ghost var before := crc;
      var at := 0;
      NothingDefined(crc);
      while at + 8 <= |data|
        invariant at <= |data| && crc == Defined(before, data[..at])
        decreases |data| - at
      {
        var octet := data[at..at + 8];
        SliceIsEightBytes(tables, crc, octet);
        DefinedConcat(before, data[..at], octet);
        assert data[..at] + octet == data[..at + 8];
        crc := Slice(tables, crc, LittleEndian(QuadAt(octet, 0)), LittleEndian(QuadAt(octet, 4)));
        at := at + 8;
      }
      while at < |data|
        invariant at <= |data| && crc == Defined(before, data[..at])
      {
        OneByte(tables[0], crc, data[at]);
        DefinedConcat(before, data[..at], [data[at]]);
        assert data[..at] + [data[at]] == data[..at + 1];
        crc := Xor(Down(crc), tables[0][Index(Low(Xor(crc, Wide(data[at]))))]);
        at := at + 1;
      }
      assert data[..at] == data;
      held := Some(crc);
    }

    method Finish() returns (sum: bv32)
      ensures sum == Xor(Register(), ONES)
    {
      sum := Xor(Register(), ONES);
    }
  }

  /** Built, fed a tag and then data, and finished: the checksum of the two as one. */
  method ChecksumOf(tables: seq<seq<bv32>>, tag: seq<bv8>, data: seq<bv8>) returns (sum: bv32)
    requires TablesOk(tables)
    ensures sum == Crc(tag + data)
  {
    hide Xor, Defined, TablesOk;
    var crc := new Crc32(tables);
    crc.Push(tag);
    crc.Push(data);
    DefinedConcat(ONES, tag, data);
    sum := crc.Finish();
  }

  lemma NothingDefined(c: bv32)
    ensures forall data: seq<bv8> :: Defined(c, data[..0]) == c
  {
  }

  // ----- Adler-32 -----

  newtype u32 = x: int | 0 <= x < 0x1_0000_0000

  const MODULUS: u32 := 65521
  const NMAX: nat := 5552

  function Count(b: bv8): (n: nat)
    ensures n <= 255
  {
    b as int
  }

  /** The two sums as the definition has them, reduced at every byte. */
  function Sums(a: nat, b: nat, data: seq<bv8>): (nat, nat)
    decreases |data|
  {
    if data == [] then (a, b)
    else
      var next := (a + Count(data[0])) % 65521;
      Sums(next, (b + next) % 65521, data[1..])
  }

  /** The sums not reduced at all. */
  function Raw(a: nat, b: nat, data: seq<bv8>): (nat, nat)
    decreases |data|
  {
    if data == [] then (a, b) else Raw(a + Count(data[0]), b + a + Count(data[0]), data[1..])
  }

  lemma ModAdd(x: nat, y: nat)
    ensures (x % 65521 + y) % 65521 == (x + y) % 65521
    ensures (x % 65521 + y % 65521) % 65521 == (x + y) % 65521
  {
  }

  /** Reducing at the end is reducing all along. */
  lemma {:induction false} DeferredModulo(a: nat, b: nat, data: seq<bv8>)
    ensures (Raw(a, b, data).0 % 65521, Raw(a, b, data).1 % 65521) == Sums(a % 65521, b % 65521, data)
    decreases |data|
  {
    if data != [] {
      var byte := Count(data[0]);
      ModAdd(a, byte);
      ModAdd(b, a + byte);
      DeferredModulo(a + byte, b + a + byte, data[1..]);
    }
  }

  lemma {:induction false} SumsConcat(a: nat, b: nat, x: seq<bv8>, y: seq<bv8>)
    ensures Sums(a, b, x + y) == Sums(Sums(a, b, x).0, Sums(a, b, x).1, y)
    decreases |x|
  {
    if x == [] {
      assert x + y == y;
    } else {
      assert (x + y)[1..] == x[1..] + y;
      var next := (a + Count(x[0])) % 65521;
      SumsConcat(next, (b + next) % 65521, x[1..], y);
    }
  }

  lemma {:induction false} RawSnoc(a: nat, b: nat, data: seq<bv8>, byte: bv8)
    ensures var r := Raw(a, b, data);
            Raw(a, b, data + [byte]) == (r.0 + Count(byte), r.1 + r.0 + Count(byte))
    decreases |data|
  {
    if data == [] {
      assert data + [byte] == [byte];
    } else {
      assert (data + [byte])[1..] == data[1..] + [byte];
      RawSnoc(a + Count(data[0]), b + a + Count(data[0]), data[1..], byte);
    }
  }

  /** The most the second sum can have come to after `n` bytes of a block. */
  function Ceiling(n: nat): nat {
    if n == 0 then 65520 else Ceiling(n - 1) + 65520 + 255 * n
  }

  lemma CeilingStep(n: nat)
    ensures Ceiling(0) == 65520 && Ceiling(n + 1) == Ceiling(n) + 65520 + 255 * (n + 1)
  {
  }

  lemma {:induction false} CeilingIs(n: nat)
    ensures 2 * Ceiling(n) == 131040 * (n + 1) + 255 * n * (n + 1)
  {
    if n > 0 {
      CeilingIs(n - 1);
      assert 255 * n * (n + 1) == 255 * (n - 1) * n + 510 * n;
    }
  }

  lemma {:induction false} CeilingGrows(n: nat, m: nat)
    requires n <= m
    ensures Ceiling(n) <= Ceiling(m)
  {
    if n < m {
      CeilingGrows(n, m - 1);
    }
  }

  /** No reduced start and no bytes come to more. */
  lemma {:induction false} RawWithin(a: nat, b: nat, block: seq<bv8>)
    requires a <= 65520 && b <= 65520
    ensures Raw(a, b, block).0 <= 65520 + 255 * |block| && Raw(a, b, block).1 <= Ceiling(|block|)
    decreases |block|
  {
    hide Count;
    CeilingStep(|block|);
    if block != [] {
      var n := |block| - 1;
      assert block == block[..n] + [block[n]];
      RawWithin(a, b, block[..n]);
      RawSnoc(a, b, block[..n], block[n]);
      CeilingStep(n);
    }
  }

  /** The longest bytes there are, from the largest start there is. */
  function Full(n: nat): (block: seq<bv8>)
    ensures |block| == n
  {
    seq(n, _ => 0xFF)
  }

  lemma {:induction false} RawOfFull(n: nat)
    ensures Raw(65520, 65520, Full(n)) == (65520 + 255 * n, Ceiling(n))
  {
    hide Count;
    CeilingStep(n);
    if n > 0 {
      assert Full(n) == Full(n - 1) + [0xFF];
      RawOfFull(n - 1);
      RawSnoc(65520, 65520, Full(n - 1), 0xFF);
      CountOfFull();
      CeilingStep(n - 1);
    }
  }

  lemma CountOfFull()
    ensures Count(0xFF) == 255
  {
  }

  /** A block is as long as it can be: from every reduced start the sums over any `NMAX` bytes fit in 32
      bits, and over one byte more, all ones from the largest start, the second does not. */
  lemma BlockFits(a: nat, b: nat, block: seq<bv8>)
    requires a <= 65520 && b <= 65520 && |block| <= NMAX
    ensures Raw(a, b, block).0 < 0x1_0000_0000 && Raw(a, b, block).1 < 0x1_0000_0000
    ensures Raw(65520, 65520, Full(NMAX + 1)).1 >= 0x1_0000_0000
  {
    hide Raw, Ceiling, Full;
    RawWithin(a, b, block);
    CeilingGrows(|block|, NMAX);
    CeilingIs(NMAX);
    CeilingIs(NMAX + 1);
    RawOfFull(NMAX + 1);
  }

  /** One block, the sums running flat out; no addition overflows. */
  method AdlerBlock(a0: u32, b0: u32, block: seq<bv8>) returns (a: u32, b: u32)
    requires a0 < MODULUS && b0 < MODULUS && |block| <= NMAX
    ensures a < MODULUS && b < MODULUS
    ensures (a as int, b as int) == Sums(a0 as int, b0 as int, block)
  {
    hide Count, Sums;
    a, b := a0, b0;
    for i := 0 to |block|
      invariant (a as int, b as int) == Raw(a0 as int, b0 as int, block[..i])
    {
      BlockFits(a0 as int, b0 as int, block[..i + 1]);
      RawSnoc(a0 as int, b0 as int, block[..i], block[i]);
      assert block[..i + 1] == block[..i] + [block[i]];
      var byte := Value(block[i]);
      a := a + byte;
      b := b + a;
    }
    assert block[..|block|] == block;
    DeferredModulo(a0 as int, b0 as int, block);
    a := a % MODULUS;
    b := b % MODULUS;
  }

  function Value(b: bv8): (v: u32)
    ensures v as int == Count(b)
  {
    Count(b) as u32
  }

  /** Adler-32 of some data: the definition's two sums, the second above the first. */
  method Adler32(data: seq<bv8>) returns (sum: u32)
    ensures sum as int == Sums(1, 0, data).1 * 0x1_0000 + Sums(1, 0, data).0
  {
    var a: u32, b: u32 := 1, 0;
    var at := 0;
    while at < |data|
      invariant 0 <= at <= |data| && a < MODULUS && b < MODULUS
      invariant (a as int, b as int) == Sums(1, 0, data[..at])
    {
      var end := if at + NMAX <= |data| then at + NMAX else |data|;
      SumsConcat(1, 0, data[..at], data[at..end]);
      assert data[..at] + data[at..end] == data[..end];
      a, b := AdlerBlock(a, b, data[at..end]);
      at := end;
    }
    assert data[..at] == data;
    sum := b * 0x1_0000 + a;
  }
}
