/** `ss_hash_sw_padding`: the end of a message padded for MD5 (RFC 1321, sections
    3.1 and 3.2) and the SHA family (FIPS 180-4, sections 5.1.1 and 5.1.2). */
module HashPadding {
  import opened Common

  datatype Hash = Md5 | Sha1 | Sha224 | Sha256 | Sha384 | Sha512

  const SHA1_BLOCK_SIZE := 64
  const SHA512_BLOCK_SIZE := 128
  const WORD: nat := 0x1_0000_0000

  /** `ss_hash_blk_size`; `wide` is set when SHA-384 or SHA-512 is configured in. */
  function BlockSize(h: Hash, wide: bool): (r: nat)
    ensures r == SHA1_BLOCK_SIZE || r == SHA512_BLOCK_SIZE
  {
    if wide && (h == Sha384 || h == Sha512) then SHA512_BLOCK_SIZE else SHA1_BLOCK_SIZE
  }

  /** SS_HASH_PAD_SIZE. */
  function PadSize(wide: bool): nat {
    if wide then SHA512_BLOCK_SIZE * 2 else SHA1_BLOCK_SIZE * 2
  }

  // ---- Numbers as bytes ----

  /** `v` in `n` bytes, most significant first. */
  function BigEndian(v: nat, n: nat): (r: seq<byte>)
    ensures |r| == n
  {
    if n == 0 then [] else BigEndian(v / 256, n - 1) + [v % 256]
  }

  function LittleEndian(v: nat, n: nat): (r: seq<byte>)
    ensures |r| == n
  {
    if n == 0 then [] else [v % 256] + LittleEndian(v / 256, n - 1)
  }

  function FromBigEndian(s: seq<byte>): nat {
    if s == [] then 0 else FromBigEndian(s[..|s| - 1]) * 256 + s[|s| - 1]
  }

  function FromLittleEndian(s: seq<byte>): nat {
    if s == [] then 0 else FromLittleEndian(s[1..]) * 256 + s[0]
  }

  function Pow256(n: nat): (r: nat)
    ensures r > 0
  {
    if n == 0 then 1 else 256 * Pow256(n - 1)
  }

  lemma {:induction false} BigEndianReadsBack(v: nat, n: nat)
    requires v < Pow256(n)
    ensures FromBigEndian(BigEndian(v, n)) == v
  {
    if n > 0 {
      BigEndianReadsBack(v / 256, n - 1);
      var s := BigEndian(v, n);
      assert s[..n - 1] == BigEndian(v / 256, n - 1);
    }
  }

  lemma {:induction false} LittleEndianReadsBack(v: nat, n: nat)
    requires v < Pow256(n)
    ensures FromLittleEndian(LittleEndian(v, n)) == v
  {
    if n > 0 {
      LittleEndianReadsBack(v / 256, n - 1);
      var s := LittleEndian(v, n);
      assert s[1..] == LittleEndian(v / 256, n - 1);
    }
  }

  function Zeros(n: nat): (r: seq<byte>)
    ensures |r| == n
  {
    seq(n, i => 0)
  }

  // ---- The standard ----

  /** Width of the length field: 64 bits, or 128 for the wide block. */
  function LengthWidth(block: nat): nat {
    block / 8
  }

  function LengthField(h: Hash, bits: nat, width: nat): (r: seq<byte>)
    ensures |r| == width
  {
    if h == Md5 then LittleEndian(bits, width) else BigEndian(bits, width)
  }

  /** How many zero bytes the standard puts before the length. */
  function ZeroCount(len: nat, block: nat): nat
    requires block > 0
  {
    (block - (len + 1 + LengthWidth(block)) % block) % block
  }

  /** It is the least number that ends the message on a block boundary. */
  lemma FewestZeros(len: nat, block: nat, z: nat)
    requires block == SHA1_BLOCK_SIZE || block == SHA512_BLOCK_SIZE
    ensures (len + 1 + ZeroCount(len, block) + LengthWidth(block)) % block == 0
    ensures (len + 1 + z + LengthWidth(block)) % block == 0 ==> ZeroCount(len, block) <= z
  {
    if block == SHA1_BLOCK_SIZE {
      Fewest64(len + 9, z);
    } else {
      Fewest128(len + 17, z);
    }
  }

  lemma Fewest64(x: nat, z: nat)
    ensures (x + (64 - x % 64) % 64) % 64 == 0
    ensures (x + z) % 64 == 0 ==> (64 - x % 64) % 64 <= z
  {
  }

  lemma Fewest128(x: nat, z: nat)
    ensures (x + (128 - x % 128) % 128) % 128 == 0
    ensures (x + z) % 128 == 0 ==> (128 - x % 128) % 128 <= z
  {
  }

  /** The padded message. */
  function Padded(h: Hash, m: seq<byte>, block: nat): seq<byte>
    requires block > 0
  {
    m + [0x80] + Zeros(ZeroCount(|m|, block)) + LengthField(h, 8 * |m|, LengthWidth(block))
  }

  /** The 64-bit bit length always fits its field. */
  lemma LengthFits(len: nat, block: nat)
    requires len < WORD && (block == SHA1_BLOCK_SIZE || block == SHA512_BLOCK_SIZE)
    ensures 8 * len < Pow256(LengthWidth(block))
  {
    assert Pow256(4) == WORD;
    assert Pow256(8) == WORD * Pow256(4) by {
      assert Pow256(5) == 256 * WORD && Pow256(6) == 0x1_0000 * WORD && Pow256(7) == 0x100_0000 * WORD;
    }
    PowGrows(8, LengthWidth(block));
  }

  lemma {:induction false} PowGrows(a: nat, b: nat)
    requires a <= b
    ensures Pow256(a) <= Pow256(b)
  {
    if a < b {
      PowGrows(a, b - 1);
    }
  }

  /** Different messages stay different when padded. */
  lemma PaddedInjective(h: Hash, m1: seq<byte>, m2: seq<byte>, block: nat)
    requires block == SHA1_BLOCK_SIZE || block == SHA512_BLOCK_SIZE
    requires |m1| < WORD && |m2| < WORD
    requires Padded(h, m1, block) == Padded(h, m2, block)
    ensures m1 == m2
  {
    var p, w := Padded(h, m1, block), LengthWidth(block);
    LengthFits(|m1|, block);
    LengthFits(|m2|, block);
    hide BigEndian, LittleEndian, Pow256;
    assert LengthField(h, 8 * |m1|, w) == p[|p| - w..];
    assert LengthField(h, 8 * |m2|, w) == p[|p| - w..];
    SameLength(h, 8 * |m1|, 8 * |m2|, w);
    assert m1 == p[..|m1|] && m2 == p[..|m2|];
  }

  lemma SameLength(h: Hash, x: nat, y: nat, w: nat)
    requires x < Pow256(w) && y < Pow256(w) && LengthField(h, x, w) == LengthField(h, y, w)
    ensures x == y
  {
    BigEndianReadsBack(x, w);
    BigEndianReadsBack(y, w);
    LittleEndianReadsBack(x, w);
    LittleEndianReadsBack(y, w);
  }

  // ---- The driver ----

  /** The bytes a 32-bit store leaves in memory, the CPU being little endian. */
  function Store32(v: nat): (r: seq<byte>)
    requires v < WORD
    ensures |r| == 4
  {
    [v % 256, v / 0x100 % 256, v / 0x1_0000 % 256, v / 0x100_0000]
  }

  function Swab32(v: nat): (r: nat)
    requires v < WORD
    ensures r < WORD
  {
    v % 256 * 0x100_0000 + v / 0x100 % 256 * 0x1_0000 + v / 0x1_0000 % 256 * 0x100 + v / 0x100_0000
  }

  class HashCtx {
    const pad: array<byte>
    var tailLen: nat
    var cnt: nat

    constructor (wide: bool)
      ensures fresh(pad) && pad.Length == PadSize(wide) == if wide then 256 else 128
    {
      pad := new byte[PadSize(wide)](i => 0);
      tailLen, cnt := 0, 0;
    }

    /** `*(int *)(pad + at) = v`. */
    method StoreInt(at: nat, v: nat)
      requires at + 4 <= pad.Length && v < WORD
      modifies pad
      ensures pad[..] == old(pad[..at]) + Store32(v) + old(pad[at + 4..])
    {
      pad[at], pad[at + 1], pad[at + 2], pad[at + 3] :=
        v % 256, v / 0x100 % 256, v / 0x1_0000 % 256, v / 0x100_0000;
    }

    /** The last eight bytes, from position `p` on. */
    method StoreLength(h: Hash, p: nat)
      requires p + 8 <= pad.Length && cnt < WORD
      modifies pad
      ensures pad[..] == old(pad[..p]) + LengthBytes(h, cnt) + old(pad[p + 8..])
    {
      hide Store32, Swab32;
      var lenL := cnt * 8 % WORD;
      var lenH := cnt / 0x2000_0000;
      var bigEndian := h != Md5;
      if bigEndian {
        StoreInt(p, Swab32(lenH));
        StoreInt(p + 4, Swab32(lenL));
      } else {
        StoreInt(p, lenL);
        StoreInt(p + 4, lenH);
      }
    }

    /** `ss_hash_sw_padding`: the tail already in `pad` is extended by 0x80, zeros and
        the bit length; the result is the length of tail and padding. */
    method SwPadding(h: Hash, wide: bool) returns (len: nat)
      requires pad.Length == PadSize(wide)
      requires tailLen < BlockSize(h, wide) && cnt < WORD
      modifies pad
      ensures len <= pad.Length && (len == BlockSize(h, wide) || len == 2 * BlockSize(h, wide))
      ensures pad[..len] == TailPadding(h, BlockSize(h, wide), old(pad[..tailLen]), cnt)
      ensures pad[len..] == old(pad[len..])
    {
      hide LengthBytes;
      var blkSize := BlockSize(h, wide);
      var lenThreshold := if blkSize == SHA512_BLOCK_SIZE then 112 else 56;
      var n := tailLen;
      pad[n] := 0x80;
      n := n + 1;
      len := if n > lenThreshold then blkSize * 2 else blkSize;
      forall i | n <= i < len {
        pad[i] := 0;
      }
      ghost var cleared := pad[..];
      assert cleared[..len - 8] == old(pad[..tailLen]) + [0x80] + Zeros(len - 8 - n);
      assert cleared[len..] == old(pad[len..]);
      StoreLength(h, len - 8);
      assert pad[..len] == cleared[..len - 8] + LengthBytes(h, cnt);
    }
  }

  /** The two 32-bit stores of the bit length. */
  function LengthBytes(h: Hash, cnt: nat): (r: seq<byte>)
    requires cnt < WORD
    ensures |r| == 8
  {
    var low, high := cnt * 8 % WORD, cnt / 0x2000_0000;
    if h != Md5 then Store32(Swab32(high)) + Store32(Swab32(low)) else Store32(low) + Store32(high)
  }

  /** What the driver writes: tail, 0x80, zeros, and the eight length bytes. */
  function TailPadding(h: Hash, block: nat, tail: seq<byte>, cnt: nat): seq<byte>
    requires block == SHA1_BLOCK_SIZE || block == SHA512_BLOCK_SIZE
    requires |tail| < block && cnt < WORD
  {
    var threshold := if block == SHA512_BLOCK_SIZE then 112 else 56;
    var len := if |tail| + 1 > threshold then block * 2 else block;
    tail + [0x80] + Zeros(len - 9 - |tail|) + LengthBytes(h, cnt)
  }

  // ---- The driver's bytes are the standard's ----

  lemma FourBytes(v: nat)
    ensures LittleEndian(v, 4) == [v % 256, v / 256 % 256, v / 256 / 256 % 256, v / 256 / 256 / 256 % 256]
    ensures BigEndian(v, 4) == [v / 256 / 256 / 256 % 256, v / 256 / 256 % 256, v / 256 % 256, v % 256]
  {
    var v1, v2, v3 := v / 256, v / 256 / 256, v / 256 / 256 / 256;
    assert LittleEndian(v3, 1) == [v3 % 256] + LittleEndian(v3 / 256, 0);
    assert LittleEndian(v2, 2) == [v2 % 256] + LittleEndian(v3, 1);
    assert LittleEndian(v1, 3) == [v1 % 256] + LittleEndian(v2, 2);
    assert BigEndian(v3, 1) == BigEndian(v3 / 256, 0) + [v3 % 256];
    assert BigEndian(v2, 2) == BigEndian(v3, 1) + [v2 % 256];
    assert BigEndian(v1, 3) == BigEndian(v2, 2) + [v1 % 256];
  }

  /** The four bytes of a word, taken out of the sum that makes it up. */
  lemma Digits(b0: nat, b1: nat, b2: nat, b3: nat)
    requires b0 < 256 && b1 < 256 && b2 < 256
    ensures var v := b0 + 0x100 * b1 + 0x1_0000 * b2 + 0x100_0000 * b3;
      && v % 256 == b0 && v / 0x100 % 256 == b1 && v / 0x1_0000 % 256 == b2 && v / 0x100_0000 == b3
  {
    var v := b0 + 0x100 * b1 + 0x1_0000 * b2 + 0x100_0000 * b3;
    assert v / 0x100 == b1 + 0x100 * b2 + 0x1_0000 * b3;
    assert v / 0x1_0000 == b2 + 0x100 * b3;
    assert v / 0x100_0000 == b3;
  }

  lemma ByteByByte(v: nat)
    ensures v / 256 / 256 == v / 0x1_0000 && v / 256 / 256 / 256 == v / 0x100_0000
    ensures v == v % 256 + 0x100 * (v / 0x100 % 256) + 0x1_0000 * (v / 0x1_0000 % 256) + 0x100_0000 * (v / 0x100_0000)
  {
  }

  lemma StoresWords(v: nat)
    requires v < WORD
    ensures Store32(v) == LittleEndian(v, 4)
    ensures Store32(Swab32(v)) == BigEndian(v, 4)
  {
    hide LittleEndian, BigEndian;
    FourBytes(v);
    ByteByByte(v);
    Digits(v / 0x100_0000, v / 0x1_0000 % 256, v / 0x100 % 256, v % 256);
    assert v / 0x100_0000 % 256 == v / 0x100_0000;
    SwabSum(v);
  }

  lemma SwabSum(v: nat)
    requires v < WORD
    ensures Swab32(v) == v / 0x100_0000 + 0x100 * (v / 0x1_0000 % 256) + 0x1_0000 * (v / 0x100 % 256) + 0x100_0000 * (v % 256)
  {
  }

  /** Dividing a two-word number byte by byte. */
  lemma Halves(high: nat, low: nat)
    requires low < WORD
    ensures var v := high * WORD + low;
      && v / 256 == high * 0x100_0000 + low / 256
      && v / 256 / 256 == high * 0x1_0000 + low / 256 / 256
      && v / 256 / 256 / 256 == high * 0x100 + low / 256 / 256 / 256
      && v / 256 / 256 / 256 / 256 == high
  {
  }

  lemma SameLowByte(x: nat, k: nat, y: nat)
    requires x == k * 256 + y
    ensures x % 256 == y % 256
  {
  }

  /** Eight bytes are the bytes of the two halves. */
  lemma EightBytes(high: nat, low: nat)
    requires low < WORD
    ensures BigEndian(high * WORD + low, 8) == BigEndian(high, 4) + BigEndian(low, 4)
    ensures LittleEndian(high * WORD + low, 8) == LittleEndian(low, 4) + LittleEndian(high, 4)
  {
    var v := high * WORD + low;
    var v1, v2, v3 := v / 256, v / 256 / 256, v / 256 / 256 / 256;
    FourBytes(low);
    Halves(high, low);
    SameLowByte(v, high * 0x100_0000, low);
    SameLowByte(v1, high * 0x1_0000, low / 256);
    SameLowByte(v2, high * 0x100, low / 256 / 256);
    SameLowByte(v3, high, low / 256 / 256 / 256);
    EightUnfolded(v);
    hide BigEndian, LittleEndian;
  }

  lemma EightUnfolded(v: nat)
    ensures var v1, v2, v3 := v / 256, v / 256 / 256, v / 256 / 256 / 256;
      && BigEndian(v, 8) == BigEndian(v3 / 256, 4) + [v3 % 256, v2 % 256, v1 % 256, v % 256]
      && LittleEndian(v, 8) == [v % 256, v1 % 256, v2 % 256, v3 % 256] + LittleEndian(v3 / 256, 4)
  {
    var v1, v2, v3 := v / 256, v / 256 / 256, v / 256 / 256 / 256;
    assert BigEndian(v3, 5) == BigEndian(v3 / 256, 4) + [v3 % 256];
    assert BigEndian(v2, 6) == BigEndian(v3, 5) + [v2 % 256];
    assert BigEndian(v1, 7) == BigEndian(v2, 6) + [v1 % 256];
    assert LittleEndian(v3, 5) == [v3 % 256] + LittleEndian(v3 / 256, 4);
    assert LittleEndian(v2, 6) == [v2 % 256] + LittleEndian(v3, 5);
    assert LittleEndian(v1, 7) == [v1 % 256] + LittleEndian(v2, 6);
  }

  lemma {:induction false} ZeroBytes(n: nat)
    ensures BigEndian(0, n) == Zeros(n)
  {
    if n > 0 {
      ZeroBytes(n - 1);
    }
  }

  /** A number that fits in `k` bytes has zeros in front of them. */
  lemma {:induction false} LeadingZeros(v: nat, n: nat, k: nat)
    requires v < Pow256(k)
    ensures BigEndian(v, n + k) == Zeros(n) + BigEndian(v, k)
    decreases k
  {
    if k == 0 {
      ZeroBytes(n);
    } else {
      LeadingZeros(v / 256, n, k - 1);
    }
  }

  /** The driver's length bytes end the standard's length field, which is zero
      before them. */
  lemma LengthBytesStandard(h: Hash, cnt: nat, block: nat)
    requires cnt < WORD && (block == SHA1_BLOCK_SIZE || (block == SHA512_BLOCK_SIZE && h != Md5))
    ensures LengthField(h, 8 * cnt, LengthWidth(block)) == Zeros(LengthWidth(block) - 8) + LengthBytes(h, cnt)
  {
    hide BigEndian, LittleEndian, Store32, Swab32, Pow256;
    var low, high := cnt * 8 % WORD, cnt / 0x2000_0000;
    TwoWords(cnt);
    StoresWords(low);
    StoresWords(high);
    EightBytes(high, low);
    LengthFits(cnt, SHA1_BLOCK_SIZE);
    LeadingZeros(8 * cnt, 8, 8);
    assert Zeros(0) == [];
    hide Zeros;
  }

  lemma TwoWords(cnt: nat)
    ensures 8 * cnt == cnt / 0x2000_0000 * WORD + cnt * 8 % WORD
  {
  }

  /** The whole blocks of a message followed by what the driver leaves in `pad` for
      its tail are the message padded as the standard says.  (Without the wide block
      configured in, SHA-384 and SHA-512 have no standard padding.) */
  lemma PadsAsStandard(h: Hash, wide: bool, m: seq<byte>)
    requires |m| < WORD && (wide || (h != Sha384 && h != Sha512))
    ensures var block := if h == Sha384 || h == Sha512 then SHA512_BLOCK_SIZE else SHA1_BLOCK_SIZE;
      var n := |m| % block;
      m[..|m| - n] + TailPadding(h, BlockSize(h, wide), m[|m| - n..], |m|) == Padded(h, m, block)
  {
    PadsToBlock(h, wide, m);
    hide TailPadding, Padded;
  }

  /** The same for the block size in force, whatever is configured. */
  lemma PadsToBlock(h: Hash, wide: bool, m: seq<byte>)
    requires |m| < WORD
    ensures var block := BlockSize(h, wide);
      var n := |m| % block;
      m[..|m| - n] + TailPadding(h, block, m[|m| - n..], |m|) == Padded(h, m, block)
  {
    var block := BlockSize(h, wide);
    var n := |m| % block;
    var tail := m[|m| - n..];
    LengthBytesStandard(h, |m|, block);
    hide LengthField, LengthBytes, ZeroCount, Zeros;
    ZerosWritten(|m|, block);
    ZerosAdd(ZeroCount(|m|, block), LengthWidth(block) - 8);
    assert m[..|m| - n] + tail == m;
    Rejoin(m[..|m| - n], tail, [0x80], Zeros(ZeroCount(|m|, block)), Zeros(LengthWidth(block) - 8), LengthBytes(h, |m|));
  }

  lemma Rejoin(a: seq<byte>, b: seq<byte>, c: seq<byte>, x: seq<byte>, y: seq<byte>, z: seq<byte>)
    ensures a + (b + c + (x + y) + z) == (a + b) + c + x + (y + z)
  {
  }

  /** The zeros of the driver are the standard's and the empty top of the length. */
  lemma ZerosWritten(len: nat, block: nat)
    requires block == SHA1_BLOCK_SIZE || block == SHA512_BLOCK_SIZE
    ensures var n := len % block;
      var threshold := if block == SHA512_BLOCK_SIZE then 112 else 56;
      (if n + 1 > threshold then block * 2 else block) - 9 - n == ZeroCount(len, block) + (LengthWidth(block) - 8)
  {
    if block == SHA1_BLOCK_SIZE {
      Written64(len);
    } else {
      Written128(len);
    }
  }

  lemma Written64(len: nat)
    ensures var n := len % 64; (if n + 1 > 56 then 128 else 64) - 9 - n == (64 - (len + 9) % 64) % 64
  {
  }

  lemma Written128(len: nat)
    ensures var n := len % 128; (if n + 1 > 112 then 256 else 128) - 9 - n == (128 - (len + 17) % 128) % 128 + 8
  {
  }

  lemma ZerosAdd(a: nat, b: nat)
    ensures Zeros(a + b) == Zeros(a) + Zeros(b)
  {
  }
}
