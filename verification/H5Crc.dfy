/** The link CRC of the three-wire UART driver: a 16-bit register fed one byte
    at a time through a table indexed by nibbles.  The reference is the CCITT
    polynomial x^16 + x^12 + x^5 + 1 divided bit by bit, least significant bit
    of each byte first. */
module H5Crc {

  import opened Common

  // ---- The driver's table-driven form ----

  /** `crc_table`, one entry for each nibble. */
  function CrcTable(i: bv16): bv16 {
    if i == 0 then 0x0000 else if i == 1 then 0x1081 else if i == 2 then 0x2102 else if i == 3 then 0x3183
    else if i == 4 then 0x4204 else if i == 5 then 0x5285 else if i == 6 then 0x6306 else if i == 7 then 0x7387
    else if i == 8 then 0x8408 else if i == 9 then 0x9489 else if i == 10 then 0xa50a else if i == 11 then 0xb58b
    else if i == 12 then 0xc60c else if i == 13 then 0xd68d else if i == 14 then 0xe70e else 0xf78f
  }

  /** One of the two table steps of `h5_crc_update`, on the low nibble of `n`. */
  function CrcNibble(reg: bv16, n: bv16): bv16 {
    (reg >> 4) ^ CrcTable((reg ^ n) & 0x000f)
  }

  type bit = b: bv16 | b <= 1

  /** Bit `k` of a byte; `p` is 2 to the `k`. */
  function BitOf(d: byte, p: nat): bit
    requires p > 0
  {
    if d / p % 2 == 1 then 1 else 0
  }

  function Pack(a: bit, b: bit, c: bit, d: bit, e: bit, f: bit, g: bit, h: bit): bv16 {
    a | (b << 1) | (c << 2) | (d << 3) | (e << 4) | (f << 5) | (g << 6) | (h << 7)
  }

  /** The byte zero-extended to the register's width. */
  function ByteToBv(d: byte): bv16 {
    Pack(BitOf(d, 1), BitOf(d, 2), BitOf(d, 4), BitOf(d, 8), BitOf(d, 16), BitOf(d, 32), BitOf(d, 64), BitOf(d, 128))
  }

  /** `h5_crc_update`: the register after one more data byte. */
  function CrcUpdate(reg: bv16, d: byte): bv16 {
    CrcNibble(CrcNibble(reg, ByteToBv(d)), ByteToBv(d) >> 4)
  }

  /** The register after a whole byte string. */
  function CrcAll(reg: bv16, s: seq<byte>): bv16
    decreases |s|
  {
    if s == [] then reg else CrcAll(CrcUpdate(reg, s[0]), s[1..])
  }

  const CRC_INIT: bv16 := 0xffff

  /** `bitrev16`: the register is transmitted with its bits reversed. */
  function BitRev16(x: bv16): bv16 {
    var a := ((x & 0x5555) << 1) | ((x >> 1) & 0x5555);
    var b := ((a & 0x3333) << 2) | ((a >> 2) & 0x3333);
    var c := ((b & 0x0f0f) << 4) | ((b >> 4) & 0x0f0f);
    (c << 8) | (c >> 8)
  }

  /** The two CRC bytes of a frame, most significant byte first. */
  function CrcBytes(reg: bv16): (r: seq<byte>)
    ensures |r| == 2
    ensures (r[0] as int) * 256 + (r[1] as int) == WordValue(BitRev16(reg))
  {
    hide BitRev16, WordValue;
    var v := WordValue(BitRev16(reg));
    [v / 256, v % 256]
  }

  function WordValue(w: bv16): (r: nat)
    ensures r < 0x1_0000
  {
    w as nat
  }

  /** The receiver's comparison with the two bytes at the end of the skb. */
  predicate CrcMatches(reg: bv16, hi: byte, lo: byte) {
    WordValue(BitRev16(reg)) == hi * 256 + lo
  }

  lemma BitRevTwice(x: bv16)
    ensures BitRev16(BitRev16(x)) == x
  {
  }

  lemma SpelledOut(x: bv16, hi: byte, lo: byte)
    ensures CrcMatches(x, hi, lo) <==> CrcBytes(x) == [hi, lo]
  {
    hide BitRev16, WordValue;
  }

  lemma WordBack(x: bv16)
    ensures WordValue(x) as bv16 == x
  {
  }

  lemma WordValueInjective(x: bv16, y: bv16)
    ensures WordValue(x) == WordValue(y) <==> x == y
  {
    WordBack(x);
    WordBack(y);
    hide WordValue;
  }

  /** It succeeds on exactly the bytes the sender writes for that register. */
  lemma CrcMatchesExactly(x: bv16, y: bv16)
    ensures CrcMatches(x, CrcBytes(y)[0], CrcBytes(y)[1]) <==> x == y
    ensures forall hi: byte, lo: byte :: CrcMatches(x, hi, lo) <==> CrcBytes(x) == [hi, lo]
  {
    forall hi: byte, lo: byte ensures CrcMatches(x, hi, lo) <==> CrcBytes(x) == [hi, lo] {
      SpelledOut(x, hi, lo);
    }
    BitRevTwice(x);
    BitRevTwice(y);
    hide BitRev16, CrcBytes, WordValue;
    WordValueInjective(BitRev16(x), BitRev16(y));
  }

  // ---- The trailer, bit by bit ----

  /** Bit `k` of a number. */
  predicate NumberBit(v: nat, k: nat) {
    if k == 0 then v % 2 == 1 else NumberBit(v / 2, k - 1)
  }

  function Mask(k: nat): bv16
    requires k < 16
  {
    if k == 0 then 1 else Twice(Mask(k - 1))
  }

  function Twice(m: bv16): bv16 {
    m << 1
  }

  predicate Meets(w: bv16, m: bv16) {
    w & m != 0
  }

  /** Bit `k` of the register. */
  predicate RegBit(reg: bv16, k: nat)
    requires k < 16
  {
    Meets(reg, Mask(k))
  }

  predicate Odd(w: bv16) {
    w & 1 != 0
  }

  function Doubled(w: bv16, odd: bool): bv16 {
    if odd then (w << 1) | 1 else w << 1
  }

  lemma DoubledValue(w: bv16, odd: bool)
    requires w < 0x8000
    ensures WordValue(Doubled(w, odd)) == 2 * WordValue(w) + if odd then 1 else 0
  {
    EvenValue(w);
    OddValue(w);
    hide WordValue;
  }

  lemma EvenValue(w: bv16)
    requires w < 0x8000
    ensures WordValue(w << 1) == 2 * WordValue(w)
  {
  }

  lemma OddValue(w: bv16)
    requires w < 0x8000
    ensures WordValue((w << 1) | 1) == 2 * WordValue(w) + 1
  {
  }

  lemma HalfDoubled(w: bv16)
    ensures w >> 1 < 0x8000 && Doubled(w >> 1, Odd(w)) == w
  {
  }

  lemma MaskShifts(w: bv16, k: nat)
    requires 0 < k < 16
    ensures RegBit(w, k) == RegBit(w >> 1, k - 1)
  {
    hide Twice, Meets;
    MaskSmall(k - 1);
    ShiftedMeets(w, Mask(k - 1));
  }

  lemma ShiftedMeets(w: bv16, m: bv16)
    requires m < 0x8000
    ensures Meets(w, Twice(m)) == Meets(w >> 1, m)
  {
  }

  lemma MaskSmall(k: nat)
    requires k < 15
    ensures Mask(k) < 0x8000
  {
    MaskValues();
  }

  lemma MaskValues()
    ensures Mask(0) == 0x0001 && Mask(1) == 0x0002 && Mask(2) == 0x0004 && Mask(3) == 0x0008
    ensures Mask(4) == 0x0010 && Mask(5) == 0x0020 && Mask(6) == 0x0040 && Mask(7) == 0x0080
    ensures Mask(8) == 0x0100 && Mask(9) == 0x0200 && Mask(10) == 0x0400 && Mask(11) == 0x0800
    ensures Mask(12) == 0x1000 && Mask(13) == 0x2000 && Mask(14) == 0x4000 && Mask(15) == 0x8000
  {
  }

  lemma {:induction false} SameBit(w: bv16, k: nat)
    requires k < 16
    ensures NumberBit(WordValue(w), k) == RegBit(w, k)
    decreases k
  {
    HalfDoubled(w);
    hide WordValue, Doubled, Odd;
    DoubledValue(w >> 1, Odd(w));
    if k > 0 {
      hide RegBit;
      SameBit(w >> 1, k - 1);
      MaskShifts(w, k);
    } else {
      LowestBit(w);
    }
  }

  lemma LowestBit(w: bv16)
    ensures RegBit(w, 0) == Odd(w)
  {
  }

  lemma BitsSwap(w: bv16)
    ensures var r := BitRev16(w);
      && ((r & 0x0001 != 0) == (w & 0x8000 != 0)) && ((r & 0x0002 != 0) == (w & 0x4000 != 0))
      && ((r & 0x0004 != 0) == (w & 0x2000 != 0)) && ((r & 0x0008 != 0) == (w & 0x1000 != 0))
      && ((r & 0x0010 != 0) == (w & 0x0800 != 0)) && ((r & 0x0020 != 0) == (w & 0x0400 != 0))
      && ((r & 0x0040 != 0) == (w & 0x0200 != 0)) && ((r & 0x0080 != 0) == (w & 0x0100 != 0))
      && ((r & 0x0100 != 0) == (w & 0x0080 != 0)) && ((r & 0x0200 != 0) == (w & 0x0040 != 0))
      && ((r & 0x0400 != 0) == (w & 0x0020 != 0)) && ((r & 0x0800 != 0) == (w & 0x0010 != 0))
      && ((r & 0x1000 != 0) == (w & 0x0008 != 0)) && ((r & 0x2000 != 0) == (w & 0x0004 != 0))
      && ((r & 0x4000 != 0) == (w & 0x0002 != 0)) && ((r & 0x8000 != 0) == (w & 0x0001 != 0))
  {
  }

  lemma RegBitReversed(w: bv16, k: nat)
    requires k < 16
    ensures RegBit(BitRev16(w), k) == RegBit(w, 15 - k)
  {
    BitsSwap(w);
    hide BitRev16, Mask;
    MaskValues();
  }

  /** The two bytes at the end of a frame carry the register with its highest bit
      last: bit `k` of what they spell is bit `15 - k` of the register. */
  lemma CrcBytesReversed(reg: bv16, k: nat)
    requires k < 16
    ensures NumberBit((CrcBytes(reg)[0] as nat) * 256 + CrcBytes(reg)[1] as nat, k) == RegBit(reg, 15 - k)
  {
    hide BitRev16, WordValue, NumberBit, RegBit;
    RegBitReversed(reg, k);
    SameBit(BitRev16(reg), k);
  }

  /** The published check value of this CRC: the register after "123456789". */
  lemma CheckValue()
    ensures CrcAll(CRC_INIT, [0x31, 0x32, 0x33, 0x34, 0x35, 0x36, 0x37, 0x38, 0x39]) == 0x6f91
  {
    hide CrcAll;
    CheckFirst();
    CheckSecond();
    CheckThird();
    var a: seq<byte>, b: seq<byte>, c: seq<byte> := [0x31, 0x32, 0x33], [0x34, 0x35, 0x36], [0x37, 0x38, 0x39];
    CrcAllConcat(CRC_INIT, a, b + c);
    CrcAllConcat(0x634b, b, c);
    assert a + (b + c) == [0x31, 0x32, 0x33, 0x34, 0x35, 0x36, 0x37, 0x38, 0x39];
  }

  lemma CheckFirst()
    ensures CrcAll(0xffff, [0x31, 0x32, 0x33]) == 0x634b
  {
    hide CrcUpdate;
    AfterDigit(0xffff, 1, 0x2f8d);
    AfterDigit(0x2f8d, 2, 0x4d53);
    AfterDigit(0x4d53, 3, 0x634b);
    CrcAllThree(0xffff, 0x31, 0x32, 0x33);
  }

  lemma CheckSecond()
    ensures CrcAll(0x634b, [0x34, 0x35, 0x36]) == 0x198d
  {
    hide CrcUpdate;
    AfterDigit(0x634b, 4, 0x8b13);
    AfterDigit(0x8b13, 5, 0x44bf);
    AfterDigit(0x44bf, 6, 0x198d);
    CrcAllThree(0x634b, 0x34, 0x35, 0x36);
  }

  lemma CheckThird()
    ensures CrcAll(0x198d, [0x37, 0x38, 0x39]) == 0x6f91
  {
    hide CrcUpdate;
    AfterDigit(0x198d, 7, 0x1ac8);
    AfterDigit(0x1ac8, 8, 0xf795);
    AfterDigit(0xf795, 9, 0x6f91);
    CrcAllThree(0x198d, 0x37, 0x38, 0x39);
  }

  lemma DigitBits(n: nat)
    requires 1 <= n <= 9
    ensures ByteToBv(0x30 + n) == 0x30 | n as bv16
  {
  }

  lemma AfterDigit(reg: bv16, n: nat, r: bv16)
    requires 1 <= n <= 9 && CrcNibble(CrcNibble(reg, 0x30 | n as bv16), 3) == r
    ensures CrcUpdate(reg, 0x30 + n) == r
  {
    DigitBits(n);
  }

  lemma CrcAllThree(reg: bv16, a: byte, b: byte, c: byte)
    ensures CrcAll(reg, [a, b, c]) == CrcUpdate(CrcUpdate(CrcUpdate(reg, a), b), c)
  {
    hide CrcUpdate;
    assert [a, b, c][1..] == [b, c] && [b, c][1..] == [c] && [c][1..] == [];
    assert CrcAll(reg, [a, b, c]) == CrcAll(CrcUpdate(reg, a), [b, c]);
    assert CrcAll(CrcUpdate(reg, a), [b, c]) == CrcAll(CrcUpdate(CrcUpdate(reg, a), b), [c]);
  }

  lemma {:induction false} CrcAllConcat(reg: bv16, s: seq<byte>, t: seq<byte>)
    ensures CrcAll(reg, s + t) == CrcAll(CrcAll(reg, s), t)
    decreases |s|
  {
    hide CrcUpdate;
    if s == [] {
      assert s + t == t;
    } else {
      assert (s + t)[1..] == s[1..] + t;
      CrcAllConcat(CrcUpdate(reg, s[0]), s[1..], t);
    }
  }

  lemma CrcAllAppend(reg: bv16, s: seq<byte>, d: byte)
    ensures CrcAll(reg, s + [d]) == CrcUpdate(CrcAll(reg, s), d)
  {
    hide CrcUpdate;
    CrcAllConcat(reg, s, [d]);
    assert CrcAll(CrcAll(reg, s), [d]) == CrcAll(CrcUpdate(CrcAll(reg, s), d), []);
  }

  // ---- The bit-serial reference ----

  /** One bit of data enters.  0x8408 is x^16 + x^12 + x^5 + 1 with its bits
      reversed, as the register holds x^15 in its lowest bit. */
  function BitStep(reg: bv16, b: bit): bv16 {
    (reg >> 1) ^ Feedback((reg ^ b) & 1 == 1)
  }

  function Feedback(f: bool): bv16 {
    if f then 0x8408 else 0
  }

  function CrcBits(reg: bv16, bits: seq<bit>): bv16
    decreases |bits|
  {
    if bits == [] then reg else CrcBits(BitStep(reg, bits[0]), bits[1..])
  }

  function LowBit(x: bv16): bit {
    x & 1
  }

  function NibbleBits(n: bv16): (r: seq<bit>)
    ensures |r| == 4
  {
    [LowBit(n), LowBit(n >> 1), LowBit(n >> 2), LowBit(n >> 3)]
  }

  /** The eight bits of a byte in transmission order. */
  function ByteBits(d: byte): (r: seq<bit>)
    ensures |r| == 8
  {
    [BitOf(d, 1), BitOf(d, 2), BitOf(d, 4), BitOf(d, 8), BitOf(d, 16), BitOf(d, 32), BitOf(d, 64), BitOf(d, 128)]
  }

  function Bits(s: seq<byte>): (r: seq<bit>)
    ensures |r| == 8 * |s|
  {
    if s == [] then [] else ByteBits(s[0]) + Bits(s[1..])
  }

  lemma XorShift(x: bv16, c: bv16)
    ensures (x ^ c) >> 1 == (x >> 1) ^ (c >> 1)
  {
  }

  lemma XorAssoc(x: bv16, c: bv16, d: bv16)
    ensures (x ^ c) ^ d == x ^ (c ^ d)
  {
  }

  lemma LowBitXor(x: bv16, c: bv16, b: bv16)
    requires c & 1 == 0
    ensures ((x ^ c) ^ b) & 1 == (x ^ b) & 1
  {
  }

  function Xor(x: bv16, y: bv16): bv16 {
    x ^ y
  }

  /** A step on a register to which `c` was added: the two parts go their own ways. */
  lemma StepParts(x: bv16, c: bv16, b: bit)
    requires c & 1 == 0
    ensures BitStep(Xor(x, c), b) == Xor(x >> 1, (c >> 1) ^ Feedback((x ^ b) & 1 == 1))
  {
    XorShift(x, c);
    LowBitXor(x, c, b);
    hide Feedback;
    XorAssoc(x >> 1, c >> 1, Feedback((x ^ b) & 1 == 1));
  }

  function Fed2(f0: bool, f1: bool): bv16 { (Feedback(f0) >> 1) ^ Feedback(f1) }

  function Fed3(f0: bool, f1: bool, f2: bool): bv16 { (Fed2(f0, f1) >> 1) ^ Feedback(f2) }

  function Fed4(f0: bool, f1: bool, f2: bool, f3: bool): bv16 { (Fed3(f0, f1, f2) >> 1) ^ Feedback(f3) }

  function Index(f0: bool, f1: bool, f2: bool, f3: bool): bv16 {
    (if f0 then 1 else 0) | (if f1 then 2 else 0) | (if f2 then 4 else 0) | (if f3 then 8 else 0)
  }

  /** The table holds what four feedbacks leave behind; the first three do not reach
      the lowest bit. */
  lemma TableHoldsFeedback(f0: bool, f1: bool, f2: bool, f3: bool)
    ensures CrcTable(Index(f0, f1, f2, f3)) == Fed4(f0, f1, f2, f3)
    ensures Feedback(f0) & 1 == 0 && Fed2(f0, f1) & 1 == 0 && Fed3(f0, f1, f2) & 1 == 0
  {
  }

  lemma IndexOfBits(x: bv16, n: bv16)
    ensures (x ^ n) & 0x000f ==
            Index(Fed(x, LowBit(n)), Fed(x >> 1, LowBit(n >> 1)), Fed(x >> 2, LowBit(n >> 2)), Fed(x >> 3, LowBit(n >> 3)))
  {
  }

  lemma ShiftsAdd(x: bv16)
    ensures (x >> 1) >> 1 == x >> 2 && (x >> 2) >> 1 == x >> 3 && (x >> 3) >> 1 == x >> 4
  {
  }

  lemma NibbleIsFourSteps(x: bv16, n: bv16)
    ensures CrcNibble(x, n) ==
            BitStep(BitStep(BitStep(BitStep(x, LowBit(n)), LowBit(n >> 1)), LowBit(n >> 2)), LowBit(n >> 3))
  {
    var b0, b1, b2, b3 := LowBit(n), LowBit(n >> 1), LowBit(n >> 2), LowBit(n >> 3);
    var f0, f1, f2, f3 := Fed(x, b0), Fed(x >> 1, b1), Fed(x >> 2, b2), Fed(x >> 3, b3);
    NibbleParts(x, n);
    hide BitStep, LowBit, CrcNibble, Fed, Xor, Index, CrcTable, Feedback, Fed2, Fed3, Fed4;
    FirstStep(x, b0);
    SecondStep(x, b1, f0);
    ThirdStep(x, b2, f0, f1);
    FourthStep(x, b3, f0, f1, f2);
  }

  /** The feedback of a step. */
  predicate Fed(x: bv16, b: bit) {
    (x ^ b) & 1 == 1
  }

  lemma FirstStep(x: bv16, b: bit)
    ensures BitStep(x, b) == Xor(x >> 1, Feedback(Fed(x, b)))
  {
    hide Feedback;
  }

  lemma SecondStep(x: bv16, b: bit, f0: bool)
    ensures BitStep(Xor(x >> 1, Feedback(f0)), b) == Xor(x >> 2, Fed2(f0, Fed(x >> 1, b)))
  {
    TableHoldsFeedback(f0, f0, f0, f0);
    StepParts(x >> 1, Feedback(f0), b);
    ShiftsAdd(x);
    hide BitStep, Xor, Feedback;
  }

  lemma ThirdStep(x: bv16, b: bit, f0: bool, f1: bool)
    ensures BitStep(Xor(x >> 2, Fed2(f0, f1)), b) == Xor(x >> 3, Fed3(f0, f1, Fed(x >> 2, b)))
  {
    TableHoldsFeedback(f0, f1, f1, f1);
    StepParts(x >> 2, Fed2(f0, f1), b);
    ShiftsAdd(x);
    hide BitStep, Xor, Feedback, Fed2;
  }

  lemma FourthStep(x: bv16, b: bit, f0: bool, f1: bool, f2: bool)
    ensures BitStep(Xor(x >> 3, Fed3(f0, f1, f2)), b) == Xor(x >> 4, Fed4(f0, f1, f2, Fed(x >> 3, b)))
  {
    TableHoldsFeedback(f0, f1, f2, f2);
    StepParts(x >> 3, Fed3(f0, f1, f2), b);
    ShiftsAdd(x);
    hide BitStep, Xor, Feedback, Fed3;
  }

  lemma NibbleParts(x: bv16, n: bv16)
    ensures CrcNibble(x, n) == Xor(x >> 4, Fed4(Fed(x, LowBit(n)), Fed(x >> 1, LowBit(n >> 1)),
                                                Fed(x >> 2, LowBit(n >> 2)), Fed(x >> 3, LowBit(n >> 3))))
  {
    IndexOfBits(x, n);
    TableHoldsFeedback(Fed(x, LowBit(n)), Fed(x >> 1, LowBit(n >> 1)), Fed(x >> 2, LowBit(n >> 2)), Fed(x >> 3, LowBit(n >> 3)));
    hide CrcTable, Index, Fed4;
  }

  lemma NibbleFeedsBits(x: bv16, n: bv16, rest: seq<bit>)
    ensures CrcBits(x, NibbleBits(n) + rest) == CrcBits(CrcNibble(x, n), rest)
  {
    NibbleIsFourSteps(x, n);
    hide CrcNibble, BitStep, LowBit;
    var s := NibbleBits(n) + rest;
    var x1 := BitStep(x, s[0]);
    var x2 := BitStep(x1, s[1]);
    var x3 := BitStep(x2, s[2]);
    assert s[1..][1..][1..][1..] == rest;
    assert CrcBits(x, s) == CrcBits(x1, s[1..]);
    assert CrcBits(x1, s[1..]) == CrcBits(x2, s[1..][1..]);
    assert CrcBits(x2, s[1..][1..]) == CrcBits(x3, s[1..][1..][1..]);
  }

  lemma PackedLow(a: bit, b: bit, c: bit, d: bit, e: bit, f: bit, g: bit, h: bit)
    ensures var n := Pack(a, b, c, d, e, f, g, h);
      n & 1 == a && (n >> 1) & 1 == b && (n >> 2) & 1 == c && (n >> 3) & 1 == d
  {
  }

  lemma PackedHigh(a: bit, b: bit, c: bit, d: bit, e: bit, f: bit, g: bit, h: bit)
    ensures var n := Pack(a, b, c, d, e, f, g, h) >> 4;
      n & 1 == e && (n >> 1) & 1 == f && (n >> 2) & 1 == g && (n >> 3) & 1 == h
  {
  }

  lemma PackedBits(a: bit, b: bit, c: bit, d: bit, e: bit, f: bit, g: bit, h: bit)
    ensures var n := Pack(a, b, c, d, e, f, g, h);
      NibbleBits(n) + NibbleBits(n >> 4) == [a, b, c, d, e, f, g, h]
  {
    PackedLow(a, b, c, d, e, f, g, h);
    PackedHigh(a, b, c, d, e, f, g, h);
    hide Pack;
    var n := Pack(a, b, c, d, e, f, g, h);
    assert NibbleBits(n) == [a, b, c, d];
    assert NibbleBits(n >> 4) == [e, f, g, h];
    hide NibbleBits;
  }

  lemma ByteIsTwoNibbles(d: byte)
    ensures ByteBits(d) == NibbleBits(ByteToBv(d)) + NibbleBits(ByteToBv(d) >> 4)
  {
    hide NibbleBits, BitOf, Pack;
    PackedBits(BitOf(d, 1), BitOf(d, 2), BitOf(d, 4), BitOf(d, 8), BitOf(d, 16), BitOf(d, 32), BitOf(d, 64), BitOf(d, 128));
  }

  lemma UpdateIsEightSteps(x: bv16, d: byte, rest: seq<bit>)
    ensures CrcBits(x, ByteBits(d) + rest) == CrcBits(CrcUpdate(x, d), rest)
  {
    ByteIsTwoNibbles(d);
    hide CrcNibble, CrcBits, NibbleBits, ByteToBv, ByteBits;
    var n := ByteToBv(d);
    assert ByteBits(d) + rest == NibbleBits(n) + (NibbleBits(n >> 4) + rest);
    NibbleFeedsBits(x, n, NibbleBits(n >> 4) + rest);
    NibbleFeedsBits(CrcNibble(x, n), n >> 4, rest);
  }

  /** The table-driven CRC is the bit-serial CCITT CRC, from every register
      value (the driver starts at 0xffff) and on every byte string. */
  lemma {:induction false} TableIsBitSerial(x: bv16, s: seq<byte>)
    ensures CrcAll(x, s) == CrcBits(x, Bits(s))
    decreases |s|
  {
    hide CrcUpdate, BitStep, ByteBits;
    if s != [] {
      UpdateIsEightSteps(x, s[0], Bits(s[1..]));
      TableIsBitSerial(CrcUpdate(x, s[0]), s[1..]);
    }
  }

  // ---- Error detection ----

  lemma {:induction false} CrcBitsConcat(x: bv16, s: seq<bit>, t: seq<bit>)
    ensures CrcBits(x, s + t) == CrcBits(CrcBits(x, s), t)
    decreases |s|
  {
    hide BitStep;
    if s == [] {
      assert s + t == t;
    } else {
      assert (s + t)[1..] == s[1..] + t;
      CrcBitsConcat(BitStep(x, s[0]), s[1..], t);
    }
  }

  /** The feedback of a step shows in the top bit afterwards. */
  lemma FeedbackInTopBit(r: bv16, b: bit)
    ensures (BitStep(r, b) & 0x8000 != 0) == ((r ^ b) & 1 == 1)
  {
  }

  lemma TopBitOfXor(x: bv16, y: bv16)
    ensures ((x ^ y) & 0x8000 == 0) == ((x & 0x8000 != 0) == (y & 0x8000 != 0))
  {
  }

  lemma SameFeedback(r1: bv16, r2: bv16, b1: bit, b2: bit)
    requires ((r1 ^ b1) & 1 == 1) == ((r2 ^ b2) & 1 == 1)
    ensures r1 ^ r2 == ((BitStep(r1, b1) ^ BitStep(r2, b2)) << 1) | Differ(b1, b2)
  {
  }

  /** Undoing one step: the registers before differed exactly as the registers
      after do, shifted by one, plus the difference of the bits fed in. */
  lemma UndoStep(r1: bv16, r2: bv16, b1: bit, b2: bit)
    requires (BitStep(r1, b1) ^ BitStep(r2, b2)) & 0x8000 == 0
    ensures r1 ^ r2 == ((BitStep(r1, b1) ^ BitStep(r2, b2)) << 1) | Differ(b1, b2)
  {
    hide BitStep;
    FeedbackInTopBit(r1, b1);
    FeedbackInTopBit(r2, b2);
    TopBitOfXor(BitStep(r1, b1), BitStep(r2, b2));
    SameFeedback(r1, r2, b1, b2);
  }

  function Differ(b1: bit, b2: bit): bit {
    if b1 == b2 then 0 else 1
  }

  function ShiftIn(x: bv16, b: bit): bv16 {
    (x << 1) | b
  }

  /** The positions at which two bit strings differ, as a word. */
  function DiffWord(w1: seq<bit>, w2: seq<bit>): bv16
    requires |w1| == |w2|
  {
    if w1 == [] then 0 else ShiftIn(DiffWord(w1[1..], w2[1..]), Differ(w1[0], w2[0]))
  }

  /** The largest word a difference of `n` bits can reach. */
  function LowMask(n: nat): bv16 {
    if n == 0 then 0 else ShiftIn(LowMask(n - 1), 1)
  }

  predicate Under(x: bv16, mask: bv16) {
    x & mask == x
  }

  lemma ShiftInUnder(x: bv16, m: bv16, b1: bit, b2: bit)
    requires Under(x, m)
    ensures Under(ShiftIn(x, Differ(b1, b2)), ShiftIn(m, 1))
  {
  }

  lemma {:induction false} DiffWordFits(w1: seq<bit>, w2: seq<bit>)
    requires |w1| == |w2|
    ensures Under(DiffWord(w1, w2), LowMask(|w1|))
  {
    if w1 == [] {
      assert Under(0, 0);
    } else {
      hide ShiftIn, Under;
      DiffWordFits(w1[1..], w2[1..]);
      ShiftInUnder(DiffWord(w1[1..], w2[1..]), LowMask(|w1| - 1), w1[0], w2[0]);
    }
  }

  lemma UnderTransitive(x: bv16, y: bv16, z: bv16)
    requires Under(x, y) && Under(y, z)
    ensures Under(x, z)
  {
  }

  lemma MaskBelowTop(n: nat)
    requires n <= 15
    ensures Under(LowMask(n), 0x7fff)
  {
    assert LowMask(0) == 0 && LowMask(1) == 1 && LowMask(2) == 3 && LowMask(3) == 7;
    assert LowMask(4) == 15 && LowMask(5) == 31 && LowMask(6) == 63 && LowMask(7) == 127;
    assert LowMask(8) == 255 && LowMask(9) == 511 && LowMask(10) == 1023 && LowMask(11) == 2047;
    assert LowMask(12) == 4095 && LowMask(13) == 8191 && LowMask(14) == 16383 && LowMask(15) == 32767;
  }

  lemma UnderHasNoTop(x: bv16)
    requires Under(x, 0x7fff)
    ensures x & 0x8000 == 0
  {
  }

  lemma DiffWordHasNoTop(w1: seq<bit>, w2: seq<bit>)
    requires |w1| == |w2| <= 15
    ensures DiffWord(w1, w2) & 0x8000 == 0
  {
    hide Under, DiffWord, LowMask;
    DiffWordFits(w1, w2);
    MaskBelowTop(|w1|);
    UnderTransitive(DiffWord(w1, w2), LowMask(|w1|), 0x7fff);
    UnderHasNoTop(DiffWord(w1, w2));
  }

  lemma XorZero(x: bv16, y: bv16)
    ensures x == y <==> x ^ y == 0
  {
  }

  /** Registers that meet after windows of at most 16 bits differed before them
      exactly as the windows do. */
  lemma {:induction false} UndoWindow(r1: bv16, r2: bv16, w1: seq<bit>, w2: seq<bit>)
    requires |w1| == |w2| <= 16
    requires CrcBits(r1, w1) == CrcBits(r2, w2)
    ensures r1 ^ r2 == DiffWord(w1, w2)
    decreases |w1|
  {
    hide BitStep;
    if w1 == [] {
      XorZero(r1, r2);
    } else {
      UndoWindow(BitStep(r1, w1[0]), BitStep(r2, w2[0]), w1[1..], w2[1..]);
      DiffWordHasNoTop(w1[1..], w2[1..]);
      UndoStep(r1, r2, w1[0], w2[0]);
    }
  }

  lemma ShiftInZero(x: bv16, b1: bit, b2: bit)
    requires x & 0x8000 == 0 && ShiftIn(x, Differ(b1, b2)) == 0
    ensures x == 0 && b1 == b2
  {
  }

  lemma {:induction false} NoDifference(w1: seq<bit>, w2: seq<bit>)
    requires |w1| == |w2| <= 16
    requires DiffWord(w1, w2) == 0
    ensures w1 == w2
  {
    hide ShiftIn;
    if w1 != [] {
      DiffWordHasNoTop(w1[1..], w2[1..]);
      ShiftInZero(DiffWord(w1[1..], w2[1..]), w1[0], w2[0]);
      NoDifference(w1[1..], w2[1..]);
      assert w1 == [w1[0]] + w1[1..] && w2 == [w2[0]] + w2[1..];
    }
  }

  lemma StepInjective(r1: bv16, r2: bv16, b: bit)
    requires BitStep(r1, b) == BitStep(r2, b)
    ensures r1 == r2
  {
  }

  /** Feeding the same bits never merges two registers. */
  lemma {:induction false} SameBitsInjective(r1: bv16, r2: bv16, bits: seq<bit>)
    requires CrcBits(r1, bits) == CrcBits(r2, bits)
    ensures r1 == r2
    decreases |bits|
  {
    hide BitStep;
    if bits != [] {
      SameBitsInjective(BitStep(r1, bits[0]), BitStep(r2, bits[0]), bits[1..]);
      StepInjective(r1, r2, bits[0]);
    }
  }

  /** The register that `BitStep` takes to `r` on bit `b`. */
  function BitUnstep(r: bv16, b: bit): bv16 {
    (r << 1) ^ (if r & 0x8000 == 0 then 0 else 0x0811) ^ b
  }

  lemma UnstepParts(r: bv16, k: bv16, b: bit)
    requires k == 0 || k == 0x0811
    ensures (((r << 1) ^ k ^ b) ^ b) & 1 == k & 1
    ensures ((r << 1) ^ k ^ b) >> 1 == (r & 0x7fff) ^ (k >> 1)
  {
  }

  lemma TopBitBack(r: bv16)
    ensures r & 0x8000 == 0 ==> r & 0x7fff == r
    ensures r & 0x8000 != 0 ==> (r & 0x7fff) ^ 0x0408 ^ 0x8408 == r
  {
  }

  lemma StepUnstep(r: bv16, b: bit)
    ensures BitStep(BitUnstep(r, b), b) == r
  {
    var k: bv16 := if r & 0x8000 == 0 then 0 else 0x0811;
    UnstepParts(r, k, b);
    TopBitBack(r);
    assert k >> 1 == if r & 0x8000 == 0 then 0 else 0x0408;
  }

  function UnstepAll(r: bv16, bits: seq<bit>): bv16 {
    if bits == [] then r else BitUnstep(UnstepAll(r, bits[1..]), bits[0])
  }

  lemma {:induction false} StepUnstepAll(r: bv16, bits: seq<bit>)
    ensures CrcBits(UnstepAll(r, bits), bits) == r
  {
    hide BitStep, BitUnstep;
    if bits != [] {
      StepUnstep(UnstepAll(r, bits[1..]), bits[0]);
      StepUnstepAll(r, bits[1..]);
    }
  }

  /** The register value that data byte `d` takes to `x`. */
  function CrcUndo(x: bv16, d: byte): bv16 {
    UnstepAll(x, ByteBits(d))
  }

  lemma UpdateFeedsByte(x: bv16, d: byte)
    ensures CrcUpdate(x, d) == CrcBits(x, ByteBits(d))
  {
    hide CrcUpdate, BitStep, ByteBits;
    UpdateIsEightSteps(x, d, []);
    assert ByteBits(d) + [] == ByteBits(d);
  }

  /** For each data byte, `h5_crc_update` is a bijection on the register. */
  lemma UpdateIsBijection(x: bv16, y: bv16, d: byte)
    ensures CrcUpdate(x, d) == CrcUpdate(y, d) ==> x == y
    ensures CrcUpdate(CrcUndo(x, d), d) == x
  {
    hide CrcUpdate, CrcBits, ByteBits, UnstepAll;
    UpdateFeedsByte(x, d);
    UpdateFeedsByte(y, d);
    if CrcUpdate(x, d) == CrcUpdate(y, d) {
      SameBitsInjective(x, y, ByteBits(d));
    }
    UpdateFeedsByte(CrcUndo(x, d), d);
    StepUnstepAll(x, ByteBits(d));
  }

  /** Two bit strings that differ, but only inside one window of at most 16
      bits, leave different registers behind. */
  lemma BurstDetectedBits(x: bv16, p: seq<bit>, w1: seq<bit>, w2: seq<bit>, t: seq<bit>)
    requires |w1| == |w2| <= 16 && w1 != w2
    ensures CrcBits(x, p + w1 + t) != CrcBits(x, p + w2 + t)
  {
    hide CrcBits, DiffWord;
    var r := CrcBits(x, p);
    CrcBitsConcat(x, p + w1, t);
    CrcBitsConcat(x, p + w2, t);
    CrcBitsConcat(x, p, w1);
    CrcBitsConcat(x, p, w2);
    if CrcBits(x, p + w1 + t) == CrcBits(x, p + w2 + t) {
      SameBitsInjective(CrcBits(r, w1), CrcBits(r, w2), t);
      UndoWindow(r, r, w1, w2);
      XorZero(r, r);
      NoDifference(w1, w2);
      assert false;
    }
  }

  predicate BitWeight(p: nat) {
    p == 1 || p == 2 || p == 4 || p == 8 || p == 16 || p == 32 || p == 64 || p == 128
  }

  lemma Halves(d: nat, p: nat)
    requires BitWeight(p)
    ensures d / p == 2 * (d / (2 * p)) + d / p % 2
  {
    if p == 1 {
    } else if p == 2 {
    } else if p == 4 {
    } else if p == 8 {
    } else if p == 16 {
    } else if p == 32 {
    } else if p == 64 {
    } else {
    }
  }

  lemma BitsMeet(c: byte, d: byte, p: nat)
    requires BitWeight(p) && BitOf(c, p) == BitOf(d, p) && c / (2 * p) == d / (2 * p)
    ensures c / p == d / p
  {
    Halves(c, p);
    Halves(d, p);
  }

  lemma ByteBitsInjective(c: byte, d: byte)
    requires ByteBits(c) == ByteBits(d)
    ensures c == d
  {
    var x, y := ByteBits(c), ByteBits(d);
    assert x[0] == y[0] && x[1] == y[1] && x[2] == y[2] && x[3] == y[3];
    assert x[4] == y[4] && x[5] == y[5] && x[6] == y[6] && x[7] == y[7];
    hide BitOf, ByteBits;
    BitsMeet(c, d, 128);
    BitsMeet(c, d, 64);
    BitsMeet(c, d, 32);
    BitsMeet(c, d, 16);
    BitsMeet(c, d, 8);
    BitsMeet(c, d, 4);
    BitsMeet(c, d, 2);
    BitsMeet(c, d, 1);
  }

  lemma {:induction false} BitsInjective(s: seq<byte>, t: seq<byte>)
    requires |s| == |t| && Bits(s) == Bits(t)
    ensures s == t
  {
    hide ByteBits;
    if s != [] {
      assert ByteBits(s[0]) == Bits(s)[..8] && ByteBits(t[0]) == Bits(t)[..8];
      assert Bits(s[1..]) == Bits(s)[8..] && Bits(t[1..]) == Bits(t)[8..];
      ByteBitsInjective(s[0], t[0]);
      BitsInjective(s[1..], t[1..]);
      assert s == [s[0]] + s[1..] && t == [t[0]] + t[1..];
    }
  }

  ghost predicate AgreeOutside(a: seq<bit>, b: seq<bit>, i: nat, j: nat) {
    i <= j <= |a| == |b| && a[..i] == b[..i] && a[j..] == b[j..]
  }

  /** `t` is `s` hit by one burst: the transmitted bits agree outside some
      window of at most 16 consecutive bits, which may straddle three bytes. */
  ghost predicate OneBurst(s: seq<byte>, t: seq<byte>) {
    |s| == |t| && exists i: nat, j: nat :: AgreeOutside(Bits(s), Bits(t), i, j) && j - i <= 16
  }

  /** Every such corruption of a header and payload changes the CRC. */
  lemma BurstDetected(x: bv16, s: seq<byte>, t: seq<byte>)
    requires OneBurst(s, t) && s != t
    ensures CrcAll(x, s) != CrcAll(x, t)
  {
    hide CrcUpdate, CrcAll, CrcBits, ByteBits, Bits;
    var a, b := Bits(s), Bits(t);
    var i: nat, j: nat :| AgreeOutside(a, b, i, j) && j - i <= 16;
    assert a == a[..i] + a[i..j] + a[j..];
    assert b == a[..i] + b[i..j] + a[j..];
    if a[i..j] == b[i..j] {
      BitsInjective(s, t);
      assert false;
    }
    BurstDetectedBits(x, a[..i], a[i..j], b[i..j], a[j..]);
    TableIsBitSerial(x, s);
    TableIsBitSerial(x, t);
  }

  lemma {:induction false} BitsConcat(s: seq<byte>, t: seq<byte>)
    ensures Bits(s + t) == Bits(s) + Bits(t)
  {
    hide ByteBits;
    if s == [] {
      assert s + t == t;
    } else {
      assert (s + t)[1..] == s[1..] + t;
      BitsConcat(s[1..], t);
    }
  }

  /** In particular two messages that differ only inside two consecutive bytes. */
  lemma TwoBytesDetected(x: bv16, p: seq<byte>, a: seq<byte>, b: seq<byte>, t: seq<byte>)
    requires |a| == |b| == 2 && a != b
    ensures CrcAll(x, p + a + t) != CrcAll(x, p + b + t)
  {
    hide CrcUpdate, CrcAll, Bits;
    BitsConcat(p + a, t);
    BitsConcat(p + b, t);
    BitsConcat(p, a);
    BitsConcat(p, b);
    var s1, s2 := p + a + t, p + b + t;
    assert AgreeOutside(Bits(s1), Bits(s2), 8 * |p|, 8 * |p| + 16);
    assert s1[|p|..|p| + 2] == a && s2[|p|..|p| + 2] == b;
    BurstDetected(x, s1, s2);
  }
}
