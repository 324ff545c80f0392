/** core/vca/filesystem: the fingerprint of a file. A stream is the bytes it delivers; the CRC is a
    function of the bytes fed since the last Final. */
module Fingerprints {
  type Byte = x: int | 0 <= x < 0x100
  type U64 = x: int | 0 <= x < 0x1_0000_0000_0000_0000
  type I32 = x: int | -0x8000_0000 <= x < 0x8000_0000
  type Crcs = s: seq<I32> | |s| == 4 witness [0, 0, 0, 0]

  datatype Fingerprint = Fingerprint(size: U64, lastWriteTime: U64, crc: Crcs)

  const LIMIT := 8192
  const BLOCK := 64
  const BLOCKS := 32

  // ---- little-endian memory ----

  function ToBytes(n: nat, len: nat): (b: seq<Byte>)
    ensures |b| == len
  {
    if len == 0 then [] else [n % 256] + ToBytes(n / 256, len - 1)
  }

  function FromBytes(b: seq<Byte>): nat {
    if b == [] then 0 else b[0] + 256 * FromBytes(b[1..])
  }

  function Pow256(len: nat): (p: nat)
    ensures p > 0
  {
    if len == 0 then 1 else 256 * Pow256(len - 1)
  }

  lemma {:induction false} FromToBytes(n: nat, len: nat)
    requires n < Pow256(len)
    ensures FromBytes(ToBytes(n, len)) == n
  {
    if len > 0 {
      FromToBytes(n / 256, len - 1);
      assert ToBytes(n, len)[1..] == ToBytes(n / 256, len - 1);
    }
  }

  lemma {:induction false} ToFromBytes(b: seq<Byte>)
    ensures FromBytes(b) < Pow256(|b|)
    ensures ToBytes(FromBytes(b), |b|) == b
  {
    if b != [] {
      ToFromBytes(b[1..]);
      assert FromBytes(b) / 256 == FromBytes(b[1..]) && FromBytes(b) % 256 == b[0];
    }
  }

  /** Two's complement. */
  function Unsigned(v: I32): nat {
    if v < 0 then v + 0x1_0000_0000 else v
  }

  function I32At(b: seq<Byte>, i: nat): I32
    requires i + 4 <= |b|
  {
    ToFromBytes(b[i..i + 4]);
    assert Pow256(4) == 0x1_0000_0000;
    var n := FromBytes(b[i..i + 4]);
    if n < 0x8000_0000 then n else n - 0x1_0000_0000
  }

  lemma I32AtBytes(b: seq<Byte>, i: nat)
    requires i + 4 <= |b|
    ensures ToBytes(Unsigned(I32At(b, i)), 4) == b[i..i + 4]
  {
    ToFromBytes(b[i..i + 4]);
  }

  function CrcsAt(b: seq<Byte>, i: nat): Crcs
    requires i + 16 <= |b|
  {
    [I32At(b, i), I32At(b, i + 4), I32At(b, i + 8), I32At(b, i + 12)]
  }

  function CrcsBytes(c: Crcs): (b: seq<Byte>)
    ensures |b| == 16
  {
    ToBytes(Unsigned(c[0]), 4) + ToBytes(Unsigned(c[1]), 4) + ToBytes(Unsigned(c[2]), 4) + ToBytes(Unsigned(c[3]), 4)
  }

  lemma CrcsBytesAt(b: seq<Byte>, i: nat)
    requires i + 16 <= |b|
    ensures CrcsBytes(CrcsAt(b, i)) == b[i..i + 16]
  {
    I32AtBytes(b, i);
    I32AtBytes(b, i + 4);
    I32AtBytes(b, i + 8);
    I32AtBytes(b, i + 12);
    FourQuads(b, i);
  }

  lemma FourQuads(b: seq<Byte>, i: nat)
    requires i + 16 <= |b|
    ensures b[i..i + 4] + b[i + 4..i + 8] + b[i + 8..i + 12] + b[i + 12..i + 16] == b[i..i + 16]
  {
  }

  lemma SliceLater<T>(a: seq<T>, b: seq<T>, i: nat, j: nat)
    requires i <= j <= |b|
    ensures (a + b)[|a| + i..|a| + j] == b[i..j]
  {
  }

  lemma CrcBytes(c: Crcs, k: nat)
    requires k < 4
    ensures CrcsBytes(c)[4 * k..4 * k + 4] == ToBytes(Unsigned(c[k]), 4)
  {
  }

  lemma CrcAtBytes(c: Crcs, before: seq<Byte>, k: nat)
    requires k < 4
    ensures I32At(before + CrcsBytes(c), |before| + 4 * k) == c[k]
  {
    SliceLater(before, CrcsBytes(c), 4 * k, 4 * k + 4);
    CrcBytes(c, k);
    FromToBytes(Unsigned(c[k]), 4);
  }

  lemma CrcsAtBytes(c: Crcs, before: seq<Byte>)
    ensures CrcsAt(before + CrcsBytes(c), |before|) == c
  {
    CrcAtBytes(c, before, 0);
    CrcAtBytes(c, before, 1);
    CrcAtBytes(c, before, 2);
    CrcAtBytes(c, before, 3);
  }

  // ---- serialize, deserialize ----

  function Serialize(f: Fingerprint): (d: seq<Byte>)
    ensures |d| == 32
  {
    ToBytes(f.size, 8) + ToBytes(f.lastWriteTime, 8) + CrcsBytes(f.crc)
  }

  function Deserialize(d: seq<Byte>): Fingerprint
    requires |d| >= 32
  {
    ToFromBytes(d[..8]);
    ToFromBytes(d[8..16]);
    Fingerprint(FromBytes(d[..8]), FromBytes(d[8..16]), CrcsAt(d, 16))
  }

  lemma DeserializeSerialize(f: Fingerprint, rest: seq<Byte>)
    ensures Deserialize(Serialize(f) + rest) == f
  {
    var d := Serialize(f) + rest;
    FromToBytes(f.size, 8);
    FromToBytes(f.lastWriteTime, 8);
    var head := ToBytes(f.size, 8) + ToBytes(f.lastWriteTime, 8);
    assert d[..8] == ToBytes(f.size, 8) && d[8..16] == ToBytes(f.lastWriteTime, 8);
    CrcsAtBytes(f.crc, head);
    var s := head + CrcsBytes(f.crc);
    forall i | i in {16, 20, 24, 28} ensures I32At(d, i) == I32At(s, i) {
      assert d[i..i + 4] == s[i..i + 4];
    }
  }

  lemma SerializeDeserialize(d: seq<Byte>)
    requires |d| >= 32
    ensures Serialize(Deserialize(d)) == d[..32]
  {
    ToFromBytes(d[..8]);
    ToFromBytes(d[8..16]);
    CrcsBytesAt(d, 16);
  }

  lemma SerializeInjective(f: Fingerprint, g: Fingerprint)
    ensures Serialize(f) == Serialize(g) <==> f == g
  {
    DeserializeSerialize(f, []);
    DeserializeSerialize(g, []);
    assert Serialize(f) + [] == Serialize(f) && Serialize(g) + [] == Serialize(g);
  }

  /** The lowest byte comes first. */
  lemma LittleEndian(n: nat)
    ensures ToBytes(n, 4) == [n % 256, n / 0x100 % 256, n / 0x1_0000 % 256, n / 0x100_0000 % 256]
    ensures ToBytes(n, 8) == ToBytes(n, 4) + ToBytes(n / 0x1_0000_0000, 4)
  {
    var a := n / 256;
    var b := a / 256;
    var c := b / 256;
    FourBytes(n, a, b, c);
    EightBytes(n, a, b, c, c / 256);
  }

  lemma FourBytes(n: nat, a: nat, b: nat, c: nat)
    requires a == n / 256 && b == a / 256 && c == b / 256
    ensures b == n / 0x1_0000 && c == n / 0x100_0000
    ensures ToBytes(n, 4) == [n % 256, a % 256, b % 256, c % 256]
  {
    assert ToBytes(c, 1) == [c % 256];
    assert ToBytes(b, 2) == [b % 256, c % 256];
    assert ToBytes(a, 3) == [a % 256, b % 256, c % 256];
  }

  lemma EightBytes(n: nat, a: nat, b: nat, c: nat, d: nat)
    requires a == n / 256 && b == a / 256 && c == b / 256 && d == c / 256
    ensures d == n / 0x1_0000_0000 && ToBytes(n, 8) == ToBytes(n, 4) + ToBytes(d, 4)
  {
    FourBytes(n, a, b, c);
    assert ToBytes(c, 5) == [c % 256] + ToBytes(d, 4);
    assert ToBytes(b, 6) == [b % 256, c % 256] + ToBytes(d, 4);
    assert ToBytes(a, 7) == [a % 256, b % 256, c % 256] + ToBytes(d, 4);
  }

  /** The size, the time, then the four checksums; each with its lowest byte first, as LittleEndian says. */
  lemma SerializeLayout(f: Fingerprint)
    ensures Serialize(f)[..8] == ToBytes(f.size, 8) && Serialize(f)[8..16] == ToBytes(f.lastWriteTime, 8)
    ensures Serialize(f)[16..20] == ToBytes(Unsigned(f.crc[0]), 4)
    ensures Serialize(f)[20..24] == ToBytes(Unsigned(f.crc[1]), 4)
    ensures Serialize(f)[24..28] == ToBytes(Unsigned(f.crc[2]), 4)
    ensures Serialize(f)[28..32] == ToBytes(Unsigned(f.crc[3]), 4)
  {
  }

  // ---- from_stream ----

  /** The 16 bytes of m_crc after reading a tiny file into the zeroed array. */
  function TinyBytes(content: seq<Byte>, size: nat): (b: seq<Byte>)
    requires size <= |content| && size <= 16
    ensures |b| == 16
  {
    content[..size] + seq(16 - size, _ => 0)
  }

  function Chunk(content: seq<Byte>, size: nat, i: nat): seq<Byte>
    requires size <= |content| && i < 4
  {
    content[i * size / 4..(i + 1) * size / 4]
  }

  function MulU64(a: nat, b: nat): U64 {
    a * b % 0x1_0000_0000_0000_0000
  }

  /** Where the k-th of the 128 blocks of a larger file starts. */
  function Offset(size: nat, k: nat): nat
    requires size >= BLOCK
  {
    MulU64(size - BLOCK, k) / 127
  }

  /** However large the file, no block reaches past its end: a product that wraps only moves the block down. */
  lemma OffsetInFile(size: U64, k: nat)
    requires size >= BLOCK && k <= 127
    ensures Offset(size, k) + BLOCK <= size
  {
    var n := size - BLOCK;
    MulBound(n, k);
    var product := n * k;
    if product < 0x1_0000_0000_0000_0000 {
      assert MulU64(n, k) == product;
    }
  }

  lemma MulBound(n: nat, k: nat)
    requires k <= 127
    ensures 0 <= n * k <= n * 127
  {
  }

  /** What `count` consecutive blocks, the first of them block `first`, feed to the hash. */
  function Samples(content: seq<Byte>, size: U64, first: nat, count: nat): (s: seq<Byte>)
    requires BLOCK <= size <= |content| && first + count <= 128
    ensures |s| == BLOCK * count
  {
    if count == 0 then []
    else
      OffsetInFile(size, first + count - 1);
      var o := Offset(size, first + count - 1);
      Samples(content, size, first, count - 1) + content[o..o + BLOCK]
  }

  function CrcsOf(content: seq<Byte>, size: U64, crc32: seq<Byte> -> I32): Crcs
    requires size <= |content|
  {
    if size <= 16 then CrcsAt(TinyBytes(content, size), 0)
    else if size < LIMIT then
      [crc32(Chunk(content, size, 0)), crc32(Chunk(content, size, 1)),
       crc32(Chunk(content, size, 2)), crc32(Chunk(content, size, 3))]
    else
      [crc32(Samples(content, size, 0, 32)), crc32(Samples(content, size, 32, 32)),
       crc32(Samples(content, size, 64, 32)), crc32(Samples(content, size, 96, 32))]
  }

  // ---- which bytes each checksum covers ----

  /** Block k starts at (size - 64) * k / 127, in 64-bit arithmetic. */
  lemma OffsetFormula(size: U64, k: nat)
    requires size >= 64
    ensures Offset(size, k) == (size - 64) * k % 0x1_0000_0000_0000_0000 / 127
  {
  }

  /** The 32 blocks of 64 bytes that go into checksum i of a larger file, one after the other. */
  function Blocks(content: seq<Byte>, size: U64, i: nat): (b: seq<Byte>)
    requires 8192 <= size <= |content| && i < 4
    ensures |b| == 2048
  {
    seq(2048, n requires 0 <= n < 2048 =>
      OffsetInFile(size, 32 * i + n / 64);
      content[Offset(size, 32 * i + n / 64) + n % 64])
  }

  /** What checksum i covers: a quarter of the file, or its 32 blocks. */
  function Part(content: seq<Byte>, size: U64, i: nat): seq<Byte>
    requires 16 < size <= |content| && i < 4
  {
    if size < 8192 then content[i * size / 4..(i + 1) * size / 4] else Blocks(content, size, i)
  }

  /** The four checksums of a file: up to 16 bytes the bytes themselves, then zeros; else those of its four parts. */
  ghost predicate Hashes(crc: Crcs, content: seq<Byte>, size: U64, crc32: seq<Byte> -> I32)
    requires size <= |content|
  {
    if size <= 16 then CrcsBytes(crc) == content[..size] + seq(16 - size, _ => 0)
    else forall i :: 0 <= i < 4 ==> crc[i] == crc32(Part(content, size, i))
  }

  lemma {:induction false} SamplesAt(content: seq<Byte>, size: U64, first: nat, count: nat, j: nat)
    requires BLOCK <= size <= |content| && first + count <= 128 && j < count
    ensures Offset(size, first + j) + 64 <= size
    ensures Samples(content, size, first, count)[64 * j..64 * (j + 1)] ==
            content[Offset(size, first + j)..Offset(size, first + j) + 64]
    decreases count
  {
    OffsetInFile(size, first + j);
    OffsetInFile(size, first + count - 1);
    var o := Offset(size, first + count - 1);
    var before, last := Samples(content, size, first, count - 1), content[o..o + BLOCK];
    assert Samples(content, size, first, count) == before + last;
    if j < count - 1 {
      SamplesAt(content, size, first, count - 1, j);
      SliceBefore(before, last, 64 * j, 64 * (j + 1));
    } else {
      SliceAfter(before, last);
    }
  }

  lemma SliceBefore<T>(a: seq<T>, b: seq<T>, i: nat, j: nat)
    requires i <= j <= |a|
    ensures (a + b)[i..j] == a[i..j]
  {
  }

  lemma SliceAfter<T>(a: seq<T>, b: seq<T>)
    ensures (a + b)[|a|..|a| + |b|] == b
  {
  }

  lemma SamplesAreBlocks(content: seq<Byte>, size: U64, i: nat)
    requires 8192 <= size <= |content| && i < 4
    ensures Samples(content, size, 32 * i, 32) == Blocks(content, size, i)
  {
    var s, b := Samples(content, size, 32 * i, 32), Blocks(content, size, i);
    forall n | 0 <= n < 2048 ensures s[n] == b[n] {
      SampleAt(content, size, i, n);
    }
  }

  lemma SampleAt(content: seq<Byte>, size: U64, i: nat, n: nat)
    requires 8192 <= size <= |content| && i < 4 && n < 2048
    ensures Samples(content, size, 32 * i, 32)[n] == Blocks(content, size, i)[n]
  {
    var s, j, m := Samples(content, size, 32 * i, 32), n / 64, n % 64;
    SamplesAt(content, size, 32 * i, 32, j);
    InSlice(s, 64 * j, m);
    InSlice(content, Offset(size, 32 * i + j), m);
    OffsetInFile(size, 32 * i + j);
  }

  lemma InSlice<T>(s: seq<T>, i: nat, m: nat)
    requires i + 64 <= |s| && m < 64
    ensures s[i..i + 64][m] == s[i + m]
  {
  }

  lemma PartsHashed(content: seq<Byte>, size: U64, crc32: seq<Byte> -> I32, i: nat)
    requires 16 < size <= |content| && i < 4
    ensures CrcsOf(content, size, crc32)[i] == crc32(Part(content, size, i))
  {
    if size >= 8192 {
      SamplesAreBlocks(content, size, i);
    }
  }

  lemma SameFour(c: Crcs, d: Crcs)
    requires forall i :: 0 <= i < 4 ==> c[i] == d[i]
    ensures c == d
  {
  }

  /** There are no other checksums than these. */
  lemma HashesExact(crc: Crcs, content: seq<Byte>, size: U64, crc32: seq<Byte> -> I32)
    requires size <= |content|
    ensures Hashes(crc, content, size, crc32) <==> crc == CrcsOf(content, size, crc32)
  {
    if size <= 16 {
      CrcsBytesAt(TinyBytes(content, size), 0);
      CrcsAtBytes(crc, []);
      assert [] + CrcsBytes(crc) == CrcsBytes(crc);
    } else {
      forall i | 0 <= i < 4 ensures CrcsOf(content, size, crc32)[i] == crc32(Part(content, size, i)) {
        PartsHashed(content, size, crc32, i);
      }
      if Hashes(crc, content, size, crc32) {
        SameFour(crc, CrcsOf(content, size, crc32));
      }
    }
  }

  /** Two files of one size have equal checksums if and only if they are equal, up to 16 bytes; and else if and only if
      each of the four parts hashes alike. */
  lemma SameChecksumsExact(c: Crcs, d: Crcs, a: seq<Byte>, b: seq<Byte>, size: U64, crc32: seq<Byte> -> I32)
    requires size <= |a| && size <= |b| && Hashes(c, a, size, crc32) && Hashes(d, b, size, crc32)
    ensures size <= 16 ==> (c == d <==> a[..size] == b[..size])
    ensures size > 16 ==>
              (c == d <==> forall i :: 0 <= i < 4 ==> crc32(Part(a, size, i)) == crc32(Part(b, size, i)))
  {
    if size <= 16 {
      CrcsAtBytes(c, []);
      CrcsAtBytes(d, []);
      assert [] + CrcsBytes(c) == CrcsBytes(c) && [] + CrcsBytes(d) == CrcsBytes(d);
      assert a[..size] == CrcsBytes(c)[..size] && b[..size] == CrcsBytes(d)[..size];
    } else if forall i :: 0 <= i < 4 ==> crc32(Part(a, size, i)) == crc32(Part(b, size, i)) {
      SameFour(c, d);
    }
  }

  // ---- streams that end early ----

  /** How much of n bytes at a position a stream can deliver. */
  function Delivered(content: seq<Byte>, pos: nat, n: nat): (d: nat)
    ensures d <= n && (d > 0 ==> pos + d <= |content|) && (d < n ==> pos + d >= |content|)
  {
    if pos >= |content| then 0 else if pos + n <= |content| then n else |content| - pos
  }

  /** A buffer after a read at a position: what the stream does not deliver stays as it was. */
  function ReadInto(content: seq<Byte>, pos: nat, buf: seq<Byte>): (r: seq<Byte>)
    ensures |r| == |buf|
    ensures pos + |buf| <= |content| ==> r == content[pos..pos + |buf|]
    ensures forall m :: 0 <= m < |buf| ==> r[m] == if pos + m < |content| then content[pos + m] else buf[m]
  {
    var d := Delivered(content, pos, |buf|);
    if d == 0 then buf else content[pos..pos + d] + buf[d..]
  }

  datatype Reading = Reading(block: seq<Byte>, failed: bool)

  /** A seek and a read; a stream that has failed does neither. */
  function ReadBlock(content: seq<Byte>, pos: nat, r: Reading): Reading {
    if r.failed then r else Reading(ReadInto(content, pos, r.block), pos + |r.block| > |content|)
  }

  function BlocksRead(content: seq<Byte>, size: U64, block: seq<Byte>, count: nat): (r: Reading)
    requires BLOCK <= size && |block| == BLOCK
    ensures |r.block| == BLOCK
  {
    if count == 0 then Reading(block, false)
    else ReadBlock(content, Offset(size, count - 1), BlocksRead(content, size, block, count - 1))
  }

  /** What the blocks feed to the hash, whatever the stream delivers. */
  function SamplesRead(content: seq<Byte>, size: U64, block: seq<Byte>, first: nat, count: nat): seq<Byte>
    requires BLOCK <= size && |block| == BLOCK
  {
    if count == 0 then []
    else SamplesRead(content, size, block, first, count - 1) + BlocksRead(content, size, block, first + count).block
  }

  lemma {:induction false} BlocksReadWhole(content: seq<Byte>, size: U64, block: seq<Byte>, count: nat)
    requires BLOCK <= size <= |content| && |block| == BLOCK && count <= 128
    ensures !BlocksRead(content, size, block, count).failed
    ensures count > 0 ==> Offset(size, count - 1) + BLOCK <= |content|
    ensures count > 0 ==> var o := Offset(size, count - 1);
      BlocksRead(content, size, block, count).block == content[o..o + BLOCK]
  {
    if count > 0 {
      BlocksReadWhole(content, size, block, count - 1);
      OffsetInFile(size, count - 1);
    }
  }

  lemma {:induction false} SamplesReadWhole(content: seq<Byte>, size: U64, block: seq<Byte>, first: nat, count: nat)
    requires BLOCK <= size <= |content| && |block| == BLOCK && first + count <= 128
    ensures SamplesRead(content, size, block, first, count) == Samples(content, size, first, count)
  {
    if count > 0 {
      SamplesReadWhole(content, size, block, first, count - 1);
      BlocksReadWhole(content, size, block, first + count);
    }
  }

  /** The checksums, when the buffers begin with the given bytes. */
  function CrcsRead(content: seq<Byte>, size: U64, crc32: seq<Byte> -> I32, buf: seq<Byte>, block: seq<Byte>): Crcs
    requires |buf| == LIMIT && |block| == BLOCK
  {
    if size <= 16 then CrcsAt(TinyBytes(content, Delivered(content, 0, size)), 0)
    else if size < LIMIT then
      var read := ReadInto(content, 0, buf[..size]);
      [crc32(Chunk(read, size, 0)), crc32(Chunk(read, size, 1)),
       crc32(Chunk(read, size, 2)), crc32(Chunk(read, size, 3))]
    else
      [crc32(SamplesRead(content, size, block, 0, 32)), crc32(SamplesRead(content, size, block, 32, 32)),
       crc32(SamplesRead(content, size, block, 64, 32)), crc32(SamplesRead(content, size, block, 96, 32))]
  }

  /** A stream that delivers the whole file leaves nothing of what the buffers held. */
  lemma CrcsReadWhole(content: seq<Byte>, size: U64, crc32: seq<Byte> -> I32, buf: seq<Byte>, block: seq<Byte>)
    requires size <= |content| && |buf| == LIMIT && |block| == BLOCK
    ensures CrcsRead(content, size, crc32, buf, block) == CrcsOf(content, size, crc32)
  {
    if 16 < size < LIMIT {
      var read := ReadInto(content, 0, buf[..size]);
      assert read == content[..size];
      forall i | 0 <= i < 4 ensures Chunk(read, size, i) == Chunk(content, size, i) {
      }
    } else if size >= LIMIT {
      SamplesReadWhole(content, size, block, 0, 32);
      SamplesReadWhole(content, size, block, 32, 32);
      SamplesReadWhole(content, size, block, 64, 32);
      SamplesReadWhole(content, size, block, 96, 32);
    }
  }

  /** A smaller file that turns out shorter than its size. */
  lemma ShortStream(content: seq<Byte>, size: U64, crc32: seq<Byte> -> I32, buf: seq<Byte>, block: seq<Byte>)
    requires |content| < size && |buf| == LIMIT && |block| == BLOCK
    ensures var crc := CrcsRead(content, size, crc32, buf, block);
            && (size <= 16 ==> CrcsBytes(crc) == content + seq(16 - |content|, _ => 0))
            && (16 < size < 8192 ==> forall i :: 0 <= i < 4 ==>
                  crc[i] == crc32((content + buf[|content|..])[i * size / 4..(i + 1) * size / 4]))
  {
    if size <= 16 {
      CrcsBytesAt(TinyBytes(content, |content|), 0);
    } else if size < 8192 {
      forall i | 0 <= i < 4
        ensures CrcsRead(content, size, crc32, buf, block)[i] ==
                crc32((content + buf[|content|..])[i * size / 4..(i + 1) * size / 4])
      {
        ShortQuarter(content, size, buf, i);
      }
    }
  }

  lemma ShortQuarter(content: seq<Byte>, size: U64, buf: seq<Byte>, i: nat)
    requires 16 < size < 8192 && |content| < size && |buf| == LIMIT && i < 4
    ensures Chunk(ReadInto(content, 0, buf[..size]), size, i) ==
            (content + buf[|content|..])[i * size / 4..(i + 1) * size / 4]
  {
    var all := content + buf[|content|..];
    assert ReadInto(content, 0, buf[..size]) == all[..size];
    SlicePrefix(all, size, i * size / 4, (i + 1) * size / 4);
  }

  lemma SlicePrefix<T>(s: seq<T>, n: nat, i: nat, j: nat)
    requires i <= j <= n <= |s|
    ensures s[..n][i..j] == s[i..j]
  {
  }

  /** A block that the stream delivers whole. */
  lemma {:induction false} WholeBlocks(content: seq<Byte>, size: U64, block: seq<Byte>, count: nat)
    requires BLOCK <= size && |block| == BLOCK
    requires forall k :: 0 <= k < count ==> Offset(size, k) + 64 <= |content|
    ensures !BlocksRead(content, size, block, count).failed
    ensures BlocksRead(content, size, block, count).block ==
            if count == 0 then block else content[Offset(size, count - 1)..Offset(size, count - 1) + 64]
  {
    if count > 0 {
      WholeBlocks(content, size, block, count - 1);
    }
  }

  /** From the first block on that the stream does not deliver whole, nothing more is read: the end of the file and,
      behind it, the block before are hashed over and over. */
  lemma BlocksAfterEnd(content: seq<Byte>, size: U64, block: seq<Byte>, k: nat, count: nat, pos: nat, before: Reading,
                       m: nat)
    requires BLOCK <= size && |block| == BLOCK && k < count && m < 64
    requires pos == Offset(size, k) && before == BlocksRead(content, size, block, k)
    requires pos + 64 > |content| && !before.failed
    ensures var r := BlocksRead(content, size, block, count);
            r.failed && r.block[m] == if pos + m < |content| then content[pos + m] else before.block[m]
  {
    var r := BlocksRead(content, size, block, k + 1);
    OneBlock(content, size, block, k);
    assert r == ReadBlock(content, pos, before);
    FailedRead(content, pos, before, m);
    FailedStays(content, size, block, k + 1, count);
  }

  lemma OneBlock(content: seq<Byte>, size: U64, block: seq<Byte>, k: nat)
    requires BLOCK <= size && |block| == BLOCK
    ensures BlocksRead(content, size, block, k + 1)
            == ReadBlock(content, Offset(size, k), BlocksRead(content, size, block, k))
  {
  }

  lemma {:induction false} FailedStays(content: seq<Byte>, size: U64, block: seq<Byte>, k: nat, count: nat)
    requires BLOCK <= size && |block| == BLOCK && k <= count && BlocksRead(content, size, block, k).failed
    ensures BlocksRead(content, size, block, count) == BlocksRead(content, size, block, k)
    decreases count
  {
    if k < count {
      FailedStays(content, size, block, k, count - 1);
    }
  }

  lemma FailedRead(content: seq<Byte>, pos: nat, r: Reading, m: nat)
    requires !r.failed && |r.block| == 64 && pos + 64 > |content| && m < 64
    ensures ReadBlock(content, pos, r).failed && |ReadBlock(content, pos, r).block| == 64
    ensures ReadBlock(content, pos, r).block[m] == if pos + m < |content| then content[pos + m] else r.block[m]
  {
  }

  /** from_stream; `buf` and `block` are what its buffers hold before anything is read. */
  method FromStream(content: seq<Byte>, size: U64, lastWriteTime: U64, crc32: seq<Byte> -> I32, buf: seq<Byte>,
                    block: seq<Byte>)
    returns (fp: Fingerprint)
    requires |buf| == LIMIT && |block| == BLOCK
    ensures fp == Fingerprint(size, lastWriteTime, CrcsRead(content, size, crc32, buf, block))
    ensures size <= |content| ==> fp == Fingerprint(size, lastWriteTime, CrcsOf(content, size, crc32))
    ensures size <= |content| ==> Hashes(fp.crc, content, size, crc32)
    ensures |content| < size <= 16 ==> CrcsBytes(fp.crc) == content + seq(16 - |content|, _ => 0)
    ensures 16 < size < 8192 && |content| < size ==>
              forall i :: 0 <= i < 4 ==>
                fp.crc[i] == crc32((content + buf[|content|..])[i * size / 4..(i + 1) * size / 4])
  {
    var crc: Crcs := [0, 0, 0, 0];
    if size <= 16 {
      crc := CrcsAt(TinyBytes(content, Delivered(content, 0, size)), 0);
    } else if size < LIMIT {
      crc := HashChunks(ReadInto(content, 0, buf[..size]), size, crc32);
    } else {
      crc := HashBlocks(content, size, crc32, block);
    }
    if size <= |content| {
      CrcsReadWhole(content, size, crc32, buf, block);
      HashesExact(crc, content, size, crc32);
    } else {
      ShortStream(content, size, crc32, buf, block);
    }
    return Fingerprint(size, lastWriteTime, crc);
  }

  /** The loop for a small file. */
  method HashChunks(buf: seq<Byte>, size: U64, crc32: seq<Byte> -> I32) returns (crc: Crcs)
    requires size == |buf|
    ensures crc == [crc32(Chunk(buf, size, 0)), crc32(Chunk(buf, size, 1)),
                    crc32(Chunk(buf, size, 2)), crc32(Chunk(buf, size, 3))]
  {
    crc := [0, 0, 0, 0];
    for i := 0 to 4
      invariant forall m :: 0 <= m < i ==> crc[m] == crc32(Chunk(buf, size, m))
    {
      var begin := i * size / 4;
      var end := (i + 1) * size / 4;
      crc := crc[i := crc32(buf[begin..end])];
    }
  }

  /** The loop for a larger file. */
  method HashBlocks(content: seq<Byte>, size: U64, crc32: seq<Byte> -> I32, block: seq<Byte>) returns (crc: Crcs)
    requires LIMIT <= size && |block| == BLOCK
    ensures crc == [crc32(SamplesRead(content, size, block, 0, 32)), crc32(SamplesRead(content, size, block, 32, 32)),
                    crc32(SamplesRead(content, size, block, 64, 32)), crc32(SamplesRead(content, size, block, 96, 32))]
  {
    crc := [0, 0, 0, 0];
    var r := Reading(block, false);
    for i := 0 to 4
      invariant r == BlocksRead(content, size, block, 32 * i)
      invariant forall m :: 0 <= m < i ==> crc[m] == crc32(SamplesRead(content, size, block, 32 * m, 32))
    {
      var fed;
      fed, r := FeedBlocks(content, size, block, i, r);
      crc := crc[i := crc32(fed)];
    }
    assert crc[0] == crc32(SamplesRead(content, size, block, 32 * 0, 32));
    assert crc[1] == crc32(SamplesRead(content, size, block, 32 * 1, 32));
    assert crc[2] == crc32(SamplesRead(content, size, block, 32 * 2, 32));
    assert crc[3] == crc32(SamplesRead(content, size, block, 32 * 3, 32));
  }

  lemma NextBlock(content: seq<Byte>, size: U64, block: seq<Byte>, i: nat, j: nat)
    requires BLOCK <= size && |block| == BLOCK
    ensures var at, first := MulU64(size - BLOCK, i * BLOCKS + j) / (4 * BLOCKS - 1), 32 * i;
            var r := ReadBlock(content, at, BlocksRead(content, size, block, first + j));
            && r == BlocksRead(content, size, block, first + (j + 1))
            && SamplesRead(content, size, block, first, j) + r.block == SamplesRead(content, size, block, first, j + 1)
  {
  }

  /** The inner loop for a larger file: the 32 blocks hashed together into m_crc[i]. */
  method FeedBlocks(content: seq<Byte>, size: U64, ghost block: seq<Byte>, i: nat, before: Reading)
    returns (fed: seq<Byte>, r: Reading)
    requires LIMIT <= size && |block| == BLOCK && i < 4 && before == BlocksRead(content, size, block, 32 * i)
    ensures fed == SamplesRead(content, size, block, 32 * i, 32) && r == BlocksRead(content, size, block, 32 * (i + 1))
  {
    fed, r := [], before;
    for j := 0 to BLOCKS
      invariant fed == SamplesRead(content, size, block, 32 * i, j) && r == BlocksRead(content, size, block, 32 * i + j)
    {
      var at := MulU64(size - BLOCK, i * BLOCKS + j) / (4 * BLOCKS - 1);
      NextBlock(content, size, block, i, j);
      r := ReadBlock(content, at, r);
      fed := fed + r.block;
    }
  }

  // ---- what the three regimes guarantee ----

  /** Up to 16 bytes the fingerprint holds the whole file. */
  lemma TinyExact(a: seq<Byte>, b: seq<Byte>, crc32: seq<Byte> -> I32)
    requires |a| == |b| <= 16
    ensures CrcsOf(a, |a|, crc32) == CrcsOf(b, |b|, crc32) <==> a == b
  {
    var x, y := TinyBytes(a, |a|), TinyBytes(b, |b|);
    CrcsBytesAt(x, 0);
    CrcsBytesAt(y, 0);
    if CrcsAt(x, 0) == CrcsAt(y, 0) {
      assert x[0..16] == y[0..16];
      assert a == x[0..16][..|a|] && b == y[0..16][..|b|];
    }
  }

  /** The four chunks are the file, in order; none is empty and their lengths differ by at most one. */
  lemma ChunksPartition(content: seq<Byte>)
    requires 17 <= |content| < LIMIT
    ensures Chunk(content, |content|, 0) + Chunk(content, |content|, 1)
            + Chunk(content, |content|, 2) + Chunk(content, |content|, 3) == content
    ensures forall i :: 0 <= i < 4 ==> |content| / 4 <= |Chunk(content, |content|, i)| <= |content| / 4 + 1
  {
    var n := |content|;
    assert n * 4 / 4 == n;
    assert content == content[..n / 4] + content[n / 4..2 * n / 4]
                      + content[2 * n / 4..3 * n / 4] + content[3 * n / 4..];
  }

  /** No product wraps at 64 bits exactly up to this size (which is above 2^57). */
  lemma OffsetsExact(size: U64)
    requires size >= BLOCK
    ensures (forall k: nat {:trigger MulU64(size - BLOCK, k)} ::
               k <= 127 ==> MulU64(size - BLOCK, k) == (size - BLOCK) * k)
       <==> size <= 0xFFFF_FFFF_FFFF_FFFF / 127 + BLOCK
    ensures 0x200_0000_0000_0000 <= 0xFFFF_FFFF_FFFF_FFFF / 127
  {
    var n := size - BLOCK;
    if size <= 0xFFFF_FFFF_FFFF_FFFF / 127 + BLOCK {
      forall k: nat | k <= 127 ensures MulU64(n, k) == n * k {
        MulBound(n, k);
      }
    } else {
      assert MulU64(n, 127) < n * 127;
    }
  }

  ghost predicate Exact(size: nat) {
    BLOCK <= size <= 0xFFFF_FFFF_FFFF_FFFF / 127 + BLOCK
  }

  function Ceil127(n: nat): nat {
    (n + 126) / 127
  }

  /** Neighbouring blocks start at least (size-64)/127 and at most its ceiling apart. */
  lemma OffsetStep(size: nat, k: nat)
    requires Exact(size) && k < 127
    ensures (size - BLOCK) / 127 <= Offset(size, k + 1) - Offset(size, k) <= Ceil127(size - BLOCK)
  {
    OffsetsExact(size);
    var n := size - BLOCK;
    assert MulU64(n, k) == n * k && MulU64(n, k + 1) == n * (k + 1) == n * k + n;
  }

  lemma OffsetEnds(size: nat)
    requires Exact(size)
    ensures Offset(size, 0) == 0 && Offset(size, 127) == size - BLOCK
  {
    OffsetsExact(size);
  }

  lemma {:induction false} OffsetApart(size: nat, k: nat, m: nat)
    requires Exact(size) && size >= LIMIT && k < m <= 127
    ensures Offset(size, k) + BLOCK * (m - k) <= Offset(size, m)
    decreases m
  {
    OffsetStep(size, m - 1);
    if k < m - 1 {
      OffsetApart(size, k, m - 1);
    }
  }

  ghost predicate Disjoint(size: nat)
    requires size >= BLOCK
  {
    forall k, m :: 0 <= k < m <= 127 ==> Offset(size, k) + BLOCK <= Offset(size, m)
  }

  /** The limit is exactly where the 128 blocks stop overlapping. */
  lemma DisjointIff(size: nat)
    requires Exact(size)
    ensures Disjoint(size) <==> size >= LIMIT
  {
    if size >= LIMIT {
      forall k, m | 0 <= k < m <= 127 ensures Offset(size, k) + BLOCK <= Offset(size, m) {
        OffsetApart(size, k, m);
      }
    } else {
      if Disjoint(size) {
        Spread(size, 127, BLOCK);
        OffsetEnds(size);
      }
    }
  }

  lemma {:induction false} Spread(size: nat, m: nat, step: nat)
    requires Exact(size) && m <= 127
    requires forall k {:trigger Offset(size, k)} :: 0 <= k < m ==> Offset(size, k) + step <= Offset(size, k + 1)
    ensures step * m <= Offset(size, m)
  {
    if m > 0 {
      Spread(size, m - 1, step);
    } else {
      OffsetEnds(size);
    }
  }

  /** At 8192 bytes the blocks tile the file. */
  lemma TilesAtLimit(k: nat)
    requires k <= 127
    ensures Offset(LIMIT, k) == BLOCK * k
  {
    OffsetsExact(LIMIT);
    assert MulU64(LIMIT - BLOCK, k) == 127 * 64 * k;
  }

  ghost predicate Sampled(size: nat, pos: nat)
    requires size >= BLOCK
  {
    exists k :: 0 <= k <= 127 && Offset(size, k) <= pos < Offset(size, k) + BLOCK
  }

  function MaxGap(size: nat): nat
    requires size >= LIMIT
  {
    Ceil127(size - BLOCK) - BLOCK
  }

  /** A run of bytes longer than the gap contains a sampled one. */
  lemma LongRunIsSampled(size: nat, a: nat, b: nat)
    requires Exact(size) && size >= LIMIT
    requires a < b <= size && b - a > MaxGap(size)
    ensures exists pos :: a <= pos < b && Sampled(size, pos)
  {
    OffsetEnds(size);
    var k := 0;
    while k < 127 && Offset(size, k + 1) <= a
      invariant k <= 127 && Offset(size, k) <= a
    {
      k := k + 1;
    }
    if a < Offset(size, k) + BLOCK {
      assert Sampled(size, a);
    } else {
      OffsetStep(size, k);
      assert Sampled(size, Offset(size, k + 1));
    }
  }

  /** The bound is tight: the run before the last block is never sampled and has exactly that length. */
  lemma GapIsReached(size: nat)
    requires Exact(size) && size >= LIMIT
    ensures Offset(size, 127) - (Offset(size, 126) + BLOCK) == MaxGap(size)
    ensures forall pos :: Offset(size, 126) + BLOCK <= pos < Offset(size, 127) ==> !Sampled(size, pos)
  {
    OffsetsExact(size);
    OffsetEnds(size);
    assert MulU64(size - BLOCK, 126) == (size - BLOCK) * 126;
    forall pos | Offset(size, 126) + BLOCK <= pos < Offset(size, 127) ensures !Sampled(size, pos) {
      BetweenBlocks(size, 126, pos);
    }
  }

  lemma BetweenBlocks(size: nat, k: nat, pos: nat)
    requires Exact(size) && size >= LIMIT && k < 127
    requires Offset(size, k) + BLOCK <= pos < Offset(size, k + 1)
    ensures !Sampled(size, pos)
  {
    forall m | 0 <= m <= 127 ensures !(Offset(size, m) <= pos < Offset(size, m) + BLOCK) {
      if m < k {
        OffsetApart(size, m, k);
      } else if m > k + 1 {
        OffsetApart(size, k + 1, m);
      }
    }
  }

  /** The fingerprint of a larger file looks at nothing but the sampled bytes. */
  lemma OnlySamplesMatter(a: seq<Byte>, b: seq<Byte>, size: U64, crc32: seq<Byte> -> I32)
    requires LIMIT <= size <= |a| && size <= |b|
    requires forall pos :: 0 <= pos < size && Sampled(size, pos) ==> a[pos] == b[pos]
    ensures CrcsOf(a, size, crc32) == CrcsOf(b, size, crc32)
  {
    SamplesAgree(a, b, size, 0, 32);
    SamplesAgree(a, b, size, 32, 32);
    SamplesAgree(a, b, size, 64, 32);
    SamplesAgree(a, b, size, 96, 32);
  }

  lemma {:induction false} SamplesAgree(a: seq<Byte>, b: seq<Byte>, size: U64, first: nat, count: nat)
    requires LIMIT <= size <= |a| && size <= |b| && first + count <= 128
    requires forall pos :: 0 <= pos < size && Sampled(size, pos) ==> a[pos] == b[pos]
    ensures Samples(a, size, first, count) == Samples(b, size, first, count)
  {
    if count > 0 {
      SamplesAgree(a, b, size, first, count - 1);
      OffsetInFile(size, first + count - 1);
      var o := Offset(size, first + count - 1);
      forall pos | o <= pos < o + BLOCK ensures a[pos] == b[pos] {
        assert Sampled(size, pos);
      }
      assert a[o..o + BLOCK] == b[o..o + BLOCK];
    }
  }
}
