/** CRC32C as the serial shift register of RFC 3720 section 12.1, and its algebra over GF(2).
    The combination, the table-driven form and the part fold are all proved against this register. */
module Crc32c {

  /** The Castagnoli polynomial in reflected form. */
  const POLY: bv32 := 0x82f6_3b78
  const ONES: bv32 := 0xffff_ffff

  type Bytes = seq<bv8>

  /** Addition over GF(2). This, the halving and the low bit are named so that
      proofs reason with their laws instead of with bits. */
  function Xor(x: bv32, y: bv32): bv32 {
    x ^ y
  }

  function Half(x: bv32): bv32 {
    x >> 1
  }

  predicate Odd(x: bv32) {
    x & 1 == 1
  }

  lemma XorAssociative(x: bv32, y: bv32, z: bv32)
    ensures Xor(x, Xor(y, z)) == Xor(Xor(x, y), z)
  {
    XorAssociativeBits(x, y, z, Xor(x, y), Xor(y, z));
  }

  lemma XorAssociativeBits(x: bv32, y: bv32, z: bv32, xy: bv32, yz: bv32)
    requires xy == x ^ y && yz == y ^ z
    ensures x ^ yz == xy ^ z
  {
  }

  lemma XorCommutative(x: bv32, y: bv32)
    ensures Xor(x, y) == Xor(y, x)
  {
  }

  lemma XorCancels(x: bv32, y: bv32)
    ensures Xor(x, Xor(x, y)) == y
    ensures Xor(Xor(y, x), x) == y
  {
    XorAssociative(x, x, y);
    XorAssociative(y, x, x);
    assert Xor(x, x) == 0;
    XorZero(y);
  }

  lemma XorZero(x: bv32)
    ensures Xor(x, 0) == x
    ensures Xor(0, x) == x
  {
  }

  lemma HalfLinear(x: bv32, y: bv32)
    ensures Half(Xor(x, y)) == Xor(Half(x), Half(y))
  {
    HalfLinearBits(x, y, Xor(x, y));
    assert Xor(Half(x), Half(y)) == Xor(x >> 1, y >> 1);
  }

  lemma HalfLinearBits(x: bv32, y: bv32, z: bv32)
    requires z == x ^ y
    ensures z >> 1 == (x >> 1) ^ (y >> 1)
  {
  }

  lemma OddLinear(x: bv32, y: bv32)
    ensures Odd(Xor(x, y)) == (Odd(x) != Odd(y))
  {
    OddLinearBits(x, y, Xor(x, y));
  }

  lemma OddLinearBits(x: bv32, y: bv32, z: bv32)
    requires z == x ^ y
    ensures (z & 1 == 1) == ((x & 1 == 1) != (y & 1 == 1))
  {
  }

  // ---------- the register ----------

  /** One clock of the register with a zero input bit. */
  function Step(c: bv32): bv32 {
    if Odd(c) then Xor(Half(c), POLY) else Half(c)
  }

  /** The low `k` bits of `v` clocked in, least significant first. */
  function FeedBits(c: bv32, v: bv32, k: nat): bv32
    decreases k
  {
    if k == 0 then c else FeedBits(Step(Xor(c, v & 1)), Half(v), k - 1)
  }

  function FeedByte(c: bv32, b: bv8): bv32 {
    FeedBits(c, b as bv32, 8)
  }

  function Register(c: bv32, data: Bytes): bv32
    decreases |data|
  {
    if data == [] then c else Register(FeedByte(c, data[0]), data[1..])
  }

  /** CRC32C continuing from an earlier value; the register is complemented on entry and exit. */
  function CrcFrom(previous: bv32, data: Bytes): bv32 {
    Xor(Register(Xor(previous, ONES), data), ONES)
  }

  function Crc(data: Bytes): bv32 {
    CrcFrom(0, data)
  }

  /** `n` clocks with zero input. */
  function Steps(c: bv32, n: nat): bv32
    decreases n
  {
    if n == 0 then c else Steps(Step(c), n - 1)
  }

  // ---------- linearity ----------

  lemma StepLinear(x: bv32, y: bv32)
    ensures Step(Xor(x, y)) == Xor(Step(x), Step(y))
  {
    var hx, hy := Half(x), Half(y);
    HalfLinear(x, y);
    OddLinear(x, y);
    XorAssociative(hx, hy, POLY);
    XorAssociative(hx, POLY, hy);
    XorCommutative(POLY, hy);
    XorAssociative(hx, POLY, Xor(hy, POLY));
    XorCommutative(hy, POLY);
    XorCancels(POLY, hy);
  }

  lemma {:induction false} StepsLinear(x: bv32, y: bv32, n: nat)
    ensures Steps(Xor(x, y), n) == Xor(Steps(x, n), Steps(y, n))
    decreases n
  {
    if n > 0 {
      StepLinear(x, y);
      StepsLinear(Step(x), Step(y), n - 1);
    }
  }

  lemma {:induction false} StepsAdd(c: bv32, m: nat, n: nat)
    ensures Steps(c, m + n) == Steps(Steps(c, m), n)
    decreases m
  {
    if m > 0 {
      StepsAdd(Step(c), m - 1, n);
    }
  }

  // ---------- words of few bits ----------

  /** `v` has no set bit at position `k` or above. */
  predicate Fits(v: bv32, k: nat)
    decreases k
  {
    if k == 0 then v == 0 else Fits(Half(v), k - 1)
  }

  lemma Half2(v: bv32)
    ensures Half(Half(v)) == v >> 2
  {
    Half2Bits(v, Half(v));
  }

  lemma Half2Bits(v: bv32, z: bv32)
    requires z == v >> 1
    ensures z >> 1 == v >> 2
  {
  }

  lemma Half4(v: bv32)
    ensures Half(Half(Half(Half(v)))) == v >> 4
  {
    Half2(v);
    Half2(Half(Half(v)));
    Half4Bits(v, Half(Half(v)));
  }

  lemma Half4Bits(v: bv32, z: bv32)
    requires z == v >> 2
    ensures z >> 2 == v >> 4
  {
  }

  lemma Half8Bits(v: bv32, z: bv32)
    requires z == v >> 4
    ensures z >> 4 == v >> 8
  {
  }

  lemma FitsShift8(v: bv32, k: nat)
    ensures Fits(v, k + 8) == Fits(v >> 8, k)
  {
    var v2 := Half(Half(v));
    var v4 := Half(Half(v2));
    var v6 := Half(Half(v4));
    Half4(v);
    Half4(v4);
    Half8Bits(v, v4);
    assert Fits(v, k + 8) == Fits(v2, k + 6);
    assert Fits(v2, k + 6) == Fits(v4, k + 4);
    assert Fits(v4, k + 4) == Fits(v6, k + 2);
    assert Fits(v6, k + 2) == Fits(Half(v6), k + 1);
  }

  lemma ByteFits(b: bv8)
    ensures Fits(b as bv32, 8)
  {
    FitsShift8(b as bv32, 0);
    assert (b as bv32) >> 8 == 0;
  }

  lemma FitsShift16(v: bv32, w: bv32, k: nat)
    requires w == v >> 16
    ensures Fits(v, k + 16) == Fits(w, k)
  {
    var u := v >> 8;
    FitsShift8(v, k + 8);
    FitsShift8(u, k);
    ByteShifts(v, u);
  }

  lemma ByteShifts(v: bv32, w: bv32)
    requires w == v >> 8
    ensures w >> 8 == v >> 16
  {
  }

  lemma HalfWordShifts(v: bv32, w: bv32)
    requires w == v >> 16
    ensures w >> 16 == 0
  {
  }

  lemma WordFits(v: bv32)
    ensures Fits(v, 32)
  {
    var w := v >> 16;
    FitsShift16(v, w, 16);
    HalfWordShifts(v, w);
    FitsShift16(w, 0, 0);
  }

  /** Splitting off the lowest bit of a word about to be shifted. */
  lemma StepSplitsLowBit(v: bv32)
    ensures Step(v) == Xor(Step(v & 1), Half(v))
  {
  }

  /** Clocking bits in is adding them into the low end and clocking zeros. */
  lemma {:induction false} FeedBitsIsSteps(c: bv32, v: bv32, k: nat)
    requires Fits(v, k)
    ensures FeedBits(c, v, k) == Steps(Xor(c, v), k)
    decreases k
  {
    if k == 0 {
      XorZero(c);
    } else {
      FeedBitsIsSteps(Step(Xor(c, v & 1)), Half(v), k - 1);
      StepLinear(c, v & 1);
      StepLinear(c, v);
      StepSplitsLowBit(v);
      XorAssociative(Step(c), Step(v & 1), Half(v));
    }
  }

  /** The byte form of the register: add the byte into the low end, then eight zero bits. */
  lemma FeedByteIsSteps(c: bv32, b: bv8)
    ensures FeedByte(c, b) == Steps(Xor(c, b as bv32), 8)
  {
    ByteFits(b);
    FeedBitsIsSteps(c, b as bv32, 8);
  }

  /** The register is affine in its state: a difference in state passes through a byte as eight zero bits. */
  lemma FeedByteSplit(c: bv32, d: bv32, b: bv8)
    ensures FeedByte(Xor(c, d), b) == Xor(FeedByte(c, b), Steps(d, 8))
  {
    var v := b as bv32;
    FeedByteIsSteps(c, b);
    FeedByteIsSteps(Xor(c, d), b);
    XorAssociative(c, d, v);
    XorCommutative(d, v);
    XorAssociative(c, v, d);
    StepsLinear(Xor(c, v), d, 8);
  }

  lemma {:induction false} RegisterSplit(c: bv32, d: bv32, data: Bytes)
    ensures Register(Xor(c, d), data) == Xor(Register(c, data), Steps(d, 8 * |data|))
    decreases |data|
  {
    hide Xor, FeedByte, Step;
    if data != [] {
      FeedByteSplit(c, d, data[0]);
      RegisterSplit(FeedByte(c, data[0]), Steps(d, 8), data[1..]);
      StepsAdd(d, 8, 8 * |data[1..]|);
    }
  }

  lemma {:induction false} RegisterConcat(c: bv32, a: Bytes, b: Bytes)
    ensures Register(c, a + b) == Register(Register(c, a), b)
    decreases |a|
  {
    if a == [] {
      assert a + b == b;
    } else {
      assert (a + b)[1..] == a[1..] + b;
      RegisterConcat(FeedByte(c, a[0]), a[1..], b);
    }
  }

  // ---------- concatenation ----------

  /** The CRC of a concatenation from the CRCs of the two halves and the length of the second. */
  lemma CrcConcat(a: Bytes, b: Bytes)
    ensures Crc(a + b) == Xor(Steps(Crc(a), 8 * |b|), Crc(b))
  {
    var i := Xor(0, ONES);
    var ra, rb, sa := Register(i, a), Register(i, b), Steps(Crc(a), 8 * |b|);
    XorZero(ONES);
    XorCommutative(ra, ONES);
    XorCancels(ONES, ra);
    RegisterConcat(i, a, b);
    RegisterSplit(i, Crc(a), b);
    XorCommutative(rb, sa);
    XorAssociative(sa, rb, ONES);
  }

  /** Continuing from a previous value is the CRC of everything so far: the value streams. */
  lemma CrcStreams(previous: bv32, a: Bytes, b: Bytes)
    ensures CrcFrom(CrcFrom(previous, a), b) == CrcFrom(previous, a + b)
  {
    var r := Register(Xor(previous, ONES), a);
    XorCancels(ONES, r);
    RegisterConcat(Xor(previous, ONES), a, b);
  }

  /** The check value published with the algorithm: the CRC of the ASCII digits 1 to 9. */
  lemma CheckValue()
    ensures Crc([0x31, 0x32, 0x33, 0x34, 0x35, 0x36, 0x37, 0x38, 0x39]) == 0xe306_9283
  {
    CheckValueTail();
    var d: Bytes := [0x31, 0x32, 0x33, 0x34, 0x35, 0x36, 0x37, 0x38, 0x39];
    assert d[5..] == [0x36, 0x37, 0x38, 0x39];
    assert FeedByte(0xffff_ffff, 0x31) == 0x6f0a_661c;
    assert FeedByte(0x6f0a_661c, 0x32) == 0x8caa_3b9f;
    assert FeedByte(0x8caa_3b9f, 0x33) == 0xef84_d04d;
    assert FeedByte(0xef84_d04d, 0x34) == 0x09c5_0b11;
    assert FeedByte(0x09c5_0b11, 0x35) == 0xe72e_dcca;
    assert Register(0x09c5_0b11, d[4..]) == 0x1cf9_6d7c;
    assert Register(0xef84_d04d, d[3..]) == 0x1cf9_6d7c;
    assert Register(0x8caa_3b9f, d[2..]) == 0x1cf9_6d7c;
    assert Register(0x6f0a_661c, d[1..]) == 0x1cf9_6d7c;
    assert Register(0xffff_ffff, d[0..]) == 0x1cf9_6d7c;
    assert d[0..] == d;
  }

  lemma CheckValueTail()
    ensures Register(0xe72e_dcca, [0x36, 0x37, 0x38, 0x39]) == 0x1cf9_6d7c
  {
    var d: Bytes := [0x36, 0x37, 0x38, 0x39];
    assert FeedByte(0xe72e_dcca, 0x36) == 0xbeca_8e79;
    assert FeedByte(0xbeca_8e79, 0x37) == 0xedbd_6815;
    assert FeedByte(0xedbd_6815, 0x38) == 0x9f78_7f65;
    assert FeedByte(0x9f78_7f65, 0x39) == 0x1cf9_6d7c;
    assert Register(0x1cf9_6d7c, d[4..]) == 0x1cf9_6d7c;
    assert Register(0x9f78_7f65, d[3..]) == 0x1cf9_6d7c;
    assert Register(0xedbd_6815, d[2..]) == 0x1cf9_6d7c;
    assert Register(0xbeca_8e79, d[1..]) == 0x1cf9_6d7c;
    assert Register(0xe72e_dcca, d[0..]) == 0x1cf9_6d7c;
    assert d[0..] == d;
  }
}
