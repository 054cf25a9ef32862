/** A zlib stream of stored blocks (`zlib_stored` in src/emu/png.rs), against a reader of such
    streams written from section 2.2 of RFC 1950 and section 3.2.4 of RFC 1951. */
module Zlib {
  import opened Cells
  import opened Checksum

  const CHUNK: nat := 0xFFFF

  function ByteOf(n: nat): bv8
    requires n < 256
  {
    n as bv8
  }

  lemma NextByte(b: bv8)
    requires b != 255
    ensures Count(b + 1) == Count(b) + 1
  {
  }

  lemma {:induction false} SomeByteCounts(n: nat) returns (b: bv8)
    requires n < 256
    ensures Count(b) == n
  {
    if n == 0 {
      b := 0;
    } else {
      b := SomeByteCounts(n - 1);
      NextByte(b);
      b := b + 1;
    }
  }

  lemma ByteOfCount(b: bv8)
    ensures ByteOf(Count(b)) == b
  {
  }

  lemma CountOfByte(n: nat)
    requires n < 256
    ensures Count(ByteOf(n)) == n
  {
    hide ByteOf, Count;
    var b := SomeByteCounts(n);
    ByteOfCount(b);
  }

  function Pair(n: nat): (bs: seq<bv8>)
    requires n <= 0xFFFF
    ensures |bs| == 2
  {
    [ByteOf(n % 256), ByteOf(n / 256)]
  }

  function PairValue(a: bv8, b: bv8): nat {
    Count(a) + 256 * Count(b)
  }

  lemma PairBack(n: nat)
    requires n <= 0xFFFF
    ensures PairValue(Pair(n)[0], Pair(n)[1]) == n
  {
    hide ByteOf, Count;
    CountOfByte(n % 256);
    CountOfByte(n / 256);
  }

  // ----- the reader -----

  /** The data of the stored blocks at the front, and what follows the final one. */
  function ReadBlocks(s: seq<bv8>): Option<(seq<bv8>, seq<bv8>)>
    decreases |s|
  {
    if |s| < 5 || Count(s[0]) > 1 then None
    else
      var len := PairValue(s[1], s[2]);
      if len + PairValue(s[3], s[4]) != 0xFFFF || |s| < 5 + len then None
      else
        var data := s[5..5 + len];
        var rest := s[5 + len..];
        if Count(s[0]) == 1 then Some((data, rest))
        else
          var more := ReadBlocks(rest);
          if more.None? then None else Some((data + more.value.0, more.value.1))
  }

  /** A number in four bytes, highest first. */
  function Quad(a: bv8, b: bv8, c: bv8, d: bv8): nat {
    ((Count(a) * 256 + Count(b)) * 256 + Count(c)) * 256 + Count(d)
  }

  function AdlerOf(data: seq<bv8>): nat {
    Sums(1, 0, data).1 * 0x1_0000 + Sums(1, 0, data).0
  }

  /** The data of a zlib stream of stored blocks whose checksum is right. */
  function Inflate(s: seq<bv8>): Option<seq<bv8>> {
    if |s| < 2 || Count(s[0]) != 0x78 || Count(s[1]) != 0x01 then None
    else
      var read := ReadBlocks(s[2..]);
      if read.None? || |read.value.1| != 4 then None
      else
        var sum := read.value.1;
        if Quad(sum[0], sum[1], sum[2], sum[3]) == AdlerOf(read.value.0) then Some(read.value.0) else None
  }

  // ----- the writer -----

  function Block(final: bool, data: seq<bv8>): (bs: seq<bv8>)
    requires |data| <= CHUNK
    ensures |bs| == 5 + |data|
  {
    [ByteOf(if final then 1 else 0)] + Pair(|data|) + Pair(0xFFFF - |data|) + data
  }

  function Blocks(data: seq<bv8>): seq<bv8>
    decreases |data|
  {
    if |data| <= CHUNK then Block(true, data) else Block(false, data[..CHUNK]) + Blocks(data[CHUNK..])
  }

  lemma BlockReads(final: bool, data: seq<bv8>, rest: seq<bv8>)
    requires |data| <= CHUNK
    ensures var s := Block(final, data) + rest;
            && |s| >= 5 + |data| && Count(s[0]) == (if final then 1 else 0)
            && PairValue(s[1], s[2]) == |data| && PairValue(s[3], s[4]) == 0xFFFF - |data|
            && s[5..5 + |data|] == data && s[5 + |data|..] == rest
  {
    hide ByteOf, Count, PairValue, Pair;
    var n := |data|;
    CountOfByte(if final then 1 else 0);
    PairBack(n);
    PairBack(0xFFFF - n);
    var s := Block(final, data) + rest;
    assert s[0] == ByteOf(if final then 1 else 0);
    assert s[1] == Pair(n)[0] && s[2] == Pair(n)[1];
    assert s[3] == Pair(0xFFFF - n)[0] && s[4] == Pair(0xFFFF - n)[1];
  }

  /** What is written in blocks is read back, whatever follows. */
  lemma {:induction false} BlocksRead(data: seq<bv8>, rest: seq<bv8>)
    ensures ReadBlocks(Blocks(data) + rest) == Some((data, rest))
    decreases |data|
  {
    hide Block, Count, PairValue;
    if |data| <= CHUNK {
      BlockReads(true, data, rest);
    } else {
      var first, more := data[..CHUNK], data[CHUNK..];
      BlocksRead(more, rest);
      BlockReads(false, first, Blocks(more) + rest);
      assert Blocks(data) + rest == Block(false, first) + (Blocks(more) + rest);
      assert first + more == data;
    }
  }

  function BigEndian(n: nat): (bs: seq<bv8>)
    requires n < 0x1_0000_0000
    ensures |bs| == 4
  {
    [ByteOf(n / 0x100_0000), ByteOf(n / 0x1_0000 % 256), ByteOf(n / 256 % 256), ByteOf(n % 256)]
  }

  lemma BigEndianBack(n: nat)
    requires n < 0x1_0000_0000
    ensures var q := BigEndian(n); Quad(q[0], q[1], q[2], q[3]) == n
  {
    hide ByteOf, Count;
    CountOfByte(n / 0x100_0000);
    CountOfByte(n / 0x1_0000 % 256);
    CountOfByte(n / 256 % 256);
    CountOfByte(n % 256);
    assert n / 0x1_0000 == n / 256 / 256;
    assert n / 0x100_0000 == n / 0x1_0000 / 256;
  }

  /** A zlib stream of stored blocks, which reads back as the data. */
  method ZlibStored(data: seq<bv8>) returns (out: seq<bv8>)
    ensures Inflate(out) == Some(data)
  {
    hide ByteOf, Count, Block, ReadBlocks, Sums;
    out := [ByteOf(0x78), ByteOf(0x01)];
    var at := 0;
    ghost var blocks: seq<bv8> := [];
    assert data[0..] == data;
    while |data| - at > CHUNK
      invariant at <= |data|
      invariant out == [ByteOf(0x78), ByteOf(0x01)] + blocks
      invariant Blocks(data) == blocks + Blocks(data[at..])
    {
      assert data[at..][..CHUNK] == data[at..at + CHUNK] && data[at..][CHUNK..] == data[at + CHUNK..];
      out := out + Block(false, data[at..at + CHUNK]);
      blocks := blocks + Block(false, data[at..at + CHUNK]);
      at := at + CHUNK;
    }
    out := out + Block(true, data[at..]);
    var sum := Adler32(data);
    out := out + BigEndian(sum as int);
    StreamReads(out, data, sum as int);
  }

  lemma StreamReads(out: seq<bv8>, data: seq<bv8>, sum: nat)
    requires sum < 0x1_0000_0000 && sum == AdlerOf(data)
    requires out == [ByteOf(0x78), ByteOf(0x01)] + Blocks(data) + BigEndian(sum)
    ensures Inflate(out) == Some(data)
  {
    hide ByteOf, Count, Blocks, ReadBlocks, BigEndian, AdlerOf, Quad;
    CountOfByte(0x78);
    CountOfByte(0x01);
    assert out[2..] == Blocks(data) + BigEndian(sum);
    assert out[0] == ByteOf(0x78) && out[1] == ByteOf(0x01);
    BlocksRead(data, BigEndian(sum));
    BigEndianBack(sum);
  }

  // ----- a chunk of a PNG -----

  const WORD: nat := 0x1_0000_0000

  function Number(c: bv32): (n: nat)
    ensures n < WORD
  {
    c as int
  }

  /** A chunk as section 3.2 of RFC 2083 lays it out: how long, what kind, the data, and the checksum of
      kind and data. What is answered is the kind, the data, and what follows. */
  datatype Chunk = Chunk(tag: seq<bv8>, data: seq<bv8>, rest: seq<bv8>)

  function ReadChunk(s: seq<bv8>): Option<Chunk> {
    if |s| < 12 then None
    else
      var len := Quad(s[0], s[1], s[2], s[3]);
      if |s| < 12 + len then None
      else
        var sum := s[8 + len..12 + len];
        if Quad(sum[0], sum[1], sum[2], sum[3]) != Number(Crc(s[4..8 + len])) then None
        else Some(Chunk(s[4..8], s[8..8 + len], s[12 + len..]))
  }

  /** Data of less than four gigabytes is read back, its checksum right; the length written for more is
      what 32 bits hold of it. */
  method PushChunk(tables: seq<seq<bv32>>, before: seq<bv8>, tag: seq<bv8>, data: seq<bv8>) returns (out: seq<bv8>)
    requires TablesOk(tables) && |tag| == 4
    ensures |out| == |before| + 12 + |data| && out[..|before|] == before
    ensures |data| < WORD ==> forall rest: seq<bv8> ::
      ReadChunk(out[|before|..] + rest) == Some(Chunk(tag, data, rest))
  {
    hide BigEndian, ReadChunk, TablesOk;
    out := before + BigEndian(|data| % WORD);
    out := out + tag;
    out := out + data;
    var sum := ChecksumOf(tables, tag, data);
    out := out + BigEndian(Number(sum));
    ghost var chunk := BigEndian(|data| % WORD) + tag + data + BigEndian(Number(sum));
    assert out == before + chunk;
    if |data| < WORD {
      forall rest: seq<bv8> ensures ReadChunk(out[|before|..] + rest) == Some(Chunk(tag, data, rest)) {
        ChunkReads(tag, data, rest);
      }
    }
  }

  lemma ChunkReads(tag: seq<bv8>, data: seq<bv8>, rest: seq<bv8>)
    requires |tag| == 4 && |data| < WORD
    ensures ReadChunk(BigEndian(|data|) + tag + data + BigEndian(Number(Crc(tag + data))) + rest)
         == Some(Chunk(tag, data, rest))
  {
    hide BigEndian, Quad, Crc, Number;
    var n, sum := |data|, BigEndian(Number(Crc(tag + data)));
    var s := BigEndian(n) + tag + data + sum + rest;
    BigEndianBack(n);
    BigEndianBack(Number(Crc(tag + data)));
    assert s[0] == BigEndian(n)[0] && s[1] == BigEndian(n)[1] && s[2] == BigEndian(n)[2] && s[3] == BigEndian(n)[3];
    assert s[8 + n..12 + n] == sum && s[4..8 + n] == tag + data;
    assert s[4..8] == tag && s[8..8 + n] == data && s[12 + n..] == rest;
  }
}
