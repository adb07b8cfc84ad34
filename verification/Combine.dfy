/** CRC32C combination: sig/combine.go and its transcription in sdk/typescript/src/wire/crc32c.ts. */
module Combine {
  import opened Crc32c
  import opened Gf2

  /** What combination is for: the first CRC shifted by the second range's length, plus the second CRC. */
  function Combined(a: bv32, b: bv32, lenB: int): bv32 {
    if lenB <= 0 then a else Xor(Steps(a, 8 * lenB), b)
  }

  /** Combining the CRCs of two byte strings gives the CRC of their concatenation, for all byte strings. */
  lemma CombinedIsConcatenation(a: Bytes, b: Bytes)
    ensures Combined(Crc(a), Crc(b), |b|) == Crc(a + b)
  {
    CrcConcat(a, b);
    if b == [] {
      assert a + b == a;
    }
  }

  /** The empty range is neutral on the left, and combination is associative: parts may be folded in any grouping. */
  lemma CombinedAssociative(a: bv32, b: bv32, c: bv32, lenB: nat, lenC: nat)
    requires lenB > 0 && lenC > 0
    ensures Combined(Combined(a, b, lenB), c, lenC) == Combined(a, Combined(b, c, lenC), lenB + lenC)
  {
    var sa := Steps(a, 8 * lenB);
    StepsLinear(sa, b, 8 * lenC);
    StepsAdd(a, 8 * lenB, 8 * lenC);
    assert 8 * lenB + 8 * lenC == 8 * (lenB + lenC);
    XorAssociative(Steps(sa, 8 * lenC), Steps(b, 8 * lenC), c);
  }

  // ---------- sig/combine.go ----------

  method Gf2Times(m: array<bv32>, v0: bv32) returns (sum: bv32)
    requires m.Length == 32
    ensures sum == Times(m[..], v0)
  {
    sum := 0;
    var i, v := 0, v0;
    WordFits(v);
    XorZero(Times(m[..], v0));
    while v != 0
      invariant i <= 32 && Fits(v, 32 - i)
      invariant Xor(sum, TimesFrom(m[..], i, v)) == Times(m[..], v0)
      decreases 32 - i
    {
      ghost var rest := TimesFrom(m[..], i + 1, Half(v));
      XorAssociative(sum, m[i], rest);
      XorZero(rest);
      if Odd(v) {
        sum := Xor(sum, m[i]);
      }
      i, v := i + 1, Half(v);
    }
    TimesFromZero(m[..], i);
    XorZero(sum);
  }

  method Gf2Square(sq: array<bv32>, m: array<bv32>)
    requires sq.Length == 32 && m.Length == 32 && sq != m
    modifies sq
    ensures sq[..] == Square(m[..])
  {
    for n := 0 to 32
      invariant forall k | 0 <= k < n :: sq[k] == Square(m[..])[k]
    {
      sq[n] := Gf2Times(m, m[n]);
    }
  }

  /** The operator for one zero bit: the polynomial in column 0, a shifted identity in the rest. */
  method OneZeroBit(odd: array<bv32>)
    requires odd.Length == 32
    modifies odd
    ensures Shifts(odd[..], 1)
  {
    odd[0] := POLY;
    var row: bv32 := 1;
    for n := 1 to 32
      invariant row == Unit(n - 1)
      invariant odd[0] == POLY
      invariant forall k | 1 <= k < n :: odd[k] == Unit(k - 1)
    {
      odd[n] := row;
      UpDouble(1, n - 1);
      row := Double(row);
    }
    forall k | 0 <= k < 32
      ensures odd[k] == Steps(Unit(k), 1)
    {
      StepUnit(k);
      assert Steps(Step(Unit(k)), 0) == Step(Unit(k));
    }
  }

  /** With `len` still to consume at weight `p`, the bits already consumed have shifted `a0` into `a`. */
  ghost predicate Progress(a0: bv32, a: bv32, len: nat, p: nat, total: nat) {
    len * p <= total && a == Steps(a0, 8 * (total - len * p))
  }

  lemma ProgressStart(a0: bv32, total: nat)
    ensures Progress(a0, a0, total, 1, total)
  {
  }

  lemma LowBitOfLength(len: nat, p: nat)
    ensures (len / 2) * (2 * p) == len * p - (len % 2) * p
  {
    assert len == 2 * (len / 2) + len % 2;
    assert (2 * (len / 2) + len % 2) * p == (len / 2) * (2 * p) + (len % 2) * p;
  }

  /** One round of the loop: the low bit of the length decides whether the operator of its weight is applied. */
  lemma BitConsumed(a0: bv32, a: bv32, len: nat, p: nat, total: nat, m: Matrix)
    requires Progress(a0, a, len, p, total) && Shifts(m, 8 * p)
    ensures Progress(a0, if len % 2 != 0 then Times(m, a) else a, len / 2, 2 * p, total)
  {
    LowBitOfLength(len, p);
    if len % 2 != 0 {
      var done := total - len * p;
      ShiftsTimes(m, 8 * p, a);
      StepsAdd(a0, 8 * done, 8 * p);
    }
  }

  lemma SquareOf(m: Matrix, k: nat, k2: nat)
    requires Shifts(m, k) && k2 == 2 * k
    ensures Shifts(Square(m), k2)
  {
    ShiftsSquare(m, k);
  }

  method CombineCRC32C(a0: bv32, b: bv32, lenB0: int) returns (r: bv32)
    ensures r == Combined(a0, b, lenB0)
  {
    hide Shifts, Steps, Times;
    var a, lenB := a0, lenB0;
    if lenB <= 0 {
      return a;
    }
    var even, odd := new bv32[32], new bv32[32];
    OneZeroBit(odd);
    SquareOf(odd[..], 1, 2);
    Gf2Square(even, odd);
    SquareOf(even[..], 2, 4);
    Gf2Square(odd, even);

    ghost var p := 1;
    ProgressStart(a0, lenB);
    while true
      invariant lenB > 0 && p > 0
      invariant Shifts(odd[..], 4 * p)
      invariant Progress(a0, a, lenB, p, lenB0)
      decreases lenB
    {
      SquareOf(odd[..], 4 * p, 8 * p);
      Gf2Square(even, odd);
      BitConsumed(a0, a, lenB, p, lenB0, even[..]);
      if lenB % 2 != 0 {
        a := Gf2Times(even, a);
      }
      lenB, p := lenB / 2, 2 * p;
      if lenB == 0 {
        break;
      }
      SquareOf(even[..], 4 * p, 8 * p);
      Gf2Square(odd, even);
      BitConsumed(a0, a, lenB, p, lenB0, odd[..]);
      if lenB % 2 != 0 {
        a := Gf2Times(odd, a);
      }
      lenB, p := lenB / 2, 2 * p;
      if lenB == 0 {
        break;
      }
    }
    r := Xor(a, b);
  }
}
