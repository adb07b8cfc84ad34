/** 32x32 matrices over GF(2), stored by columns, and the operators that shift a CRC register. */
module Gf2 {
  import opened Crc32c

  type Matrix = m: seq<bv32> | |m| == 32 witness seq(32, _ => 0)

  function Double(x: bv32): bv32 {
    x << 1
  }

  /** `v` moved up by `i` bits. */
  function Up(v: bv32, i: nat): bv32
    decreases i
  {
    if i == 0 then v else Up(Double(v), i - 1)
  }

  function Unit(n: nat): bv32 {
    Up(1, n)
  }

  /** The sum of the columns from `i` on that the bits of `v` select. */
  function TimesFrom(m: Matrix, i: nat, v: bv32): bv32
    requires i <= 32
    decreases 32 - i
  {
    if i == 32 then 0 else Xor(if Odd(v) then m[i] else 0, TimesFrom(m, i + 1, Half(v)))
  }

  /** The product of the matrix and the bit vector. */
  function Times(m: Matrix, v: bv32): bv32 {
    TimesFrom(m, 0, v)
  }

  function Square(m: Matrix): Matrix {
    seq(32, n requires 0 <= n < 32 => Times(m, m[n]))
  }

  /** `m` is the operator of `k` zero bits: column n is where the unit vector n goes. */
  ghost predicate Shifts(m: Matrix, k: nat) {
    forall n | 0 <= n < 32 :: m[n] == Steps(Unit(n), k)
  }

  // ---------- the product is linear ----------

  lemma XorInterchange(a: bv32, b: bv32, c: bv32, d: bv32)
    ensures Xor(Xor(a, b), Xor(c, d)) == Xor(Xor(a, c), Xor(b, d))
  {
    XorAssociative(a, b, Xor(c, d));
    XorAssociative(b, c, d);
    XorCommutative(b, c);
    XorAssociative(c, b, d);
    XorAssociative(a, c, Xor(b, d));
  }

  lemma {:induction false} TimesFromLinear(m: Matrix, i: nat, x: bv32, y: bv32)
    requires i <= 32
    ensures TimesFrom(m, i, Xor(x, y)) == Xor(TimesFrom(m, i, x), TimesFrom(m, i, y))
    decreases 32 - i
  {
    if i == 32 {
      XorZero(0);
    } else {
      HalfLinear(x, y);
      OddLinear(x, y);
      TimesFromLinear(m, i + 1, Half(x), Half(y));
      var cx, cy := if Odd(x) then m[i] else 0, if Odd(y) then m[i] else 0;
      XorZero(m[i]);
      XorZero(0);
      XorCancels(m[i], 0);
      XorInterchange(cx, TimesFrom(m, i + 1, Half(x)), cy, TimesFrom(m, i + 1, Half(y)));
    }
  }

  lemma TimesLinear(m: Matrix, x: bv32, y: bv32)
    ensures Times(m, Xor(x, y)) == Xor(Times(m, x), Times(m, y))
  {
    TimesFromLinear(m, 0, x, y);
  }

  lemma {:induction false} TimesFromZero(m: Matrix, i: nat)
    requires i <= 32
    ensures TimesFrom(m, i, 0) == 0
    decreases 32 - i
  {
    if i < 32 {
      assert Half(0) == 0;
      TimesFromZero(m, i + 1);
      XorZero(0);
    }
  }

  /** The square of a matrix applies it twice. */
  lemma SquareComposes(m: Matrix, v: bv32)
    ensures Times(Square(m), v) == Times(m, Times(m, v))
  {
    SquareComposesFrom(m, 0, v);
  }

  lemma {:induction false} SquareComposesFrom(m: Matrix, i: nat, v: bv32)
    requires i <= 32
    ensures TimesFrom(Square(m), i, v) == Times(m, TimesFrom(m, i, v))
    decreases 32 - i
  {
    TimesFromZero(m, 0);
    if i < 32 {
      SquareComposesFrom(m, i + 1, Half(v));
      TimesLinear(m, if Odd(v) then m[i] else 0, TimesFrom(m, i + 1, Half(v)));
    }
  }

  // ---------- shift operators ----------

  lemma {:induction false} UpLinear(x: bv32, y: bv32, i: nat)
    ensures Up(Xor(x, y), i) == Xor(Up(x, i), Up(y, i))
    decreases i
  {
    if i > 0 {
      DoubleLinear(x, y);
      UpLinear(Double(x), Double(y), i - 1);
    }
  }

  lemma DoubleLinear(x: bv32, y: bv32)
    ensures Double(Xor(x, y)) == Xor(Double(x), Double(y))
  {
    DoubleLinearBits(x, y, Xor(x, y));
    assert Xor(Double(x), Double(y)) == Xor(x << 1, y << 1);
  }

  lemma DoubleLinearBits(x: bv32, y: bv32, z: bv32)
    requires z == x ^ y
    ensures z << 1 == (x << 1) ^ (y << 1)
  {
  }

  lemma {:induction false} UpZero(i: nat)
    ensures Up(0, i) == 0
    decreases i
  {
    if i > 0 {
      assert Double(0) == 0;
      UpZero(i - 1);
    }
  }

  lemma {:induction false} UpDouble(v: bv32, i: nat)
    ensures Up(v, i + 1) == Double(Up(v, i))
    decreases i
  {
    if i > 0 {
      UpDouble(Double(v), i - 1);
    }
  }

  lemma LowBitAndRest(v: bv32)
    ensures v == Xor(if Odd(v) then 1 else 0, Double(Half(v)))
  {
  }

  lemma {:induction false} StepsZero(n: nat)
    ensures Steps(0, n) == 0
    decreases n
  {
    if n > 0 {
      assert Step(0) == 0;
      StepsZero(n - 1);
    }
  }

  lemma {:induction false} TimesFromIsSteps(m: Matrix, k: nat, i: nat, v: bv32)
    requires Shifts(m, k) && i <= 32 && Fits(v, 32 - i)
    ensures TimesFrom(m, i, v) == Steps(Up(v, i), k)
    decreases 32 - i
  {
    if i == 32 {
      UpZero(i);
      StepsZero(k);
    } else {
      var low: bv32 := if Odd(v) then 1 else 0;
      var rest := Double(Half(v));
      TimesFromIsSteps(m, k, i + 1, Half(v));
      ColumnIsSteps(m, k, i, Odd(v));
      LowBitAndRest(v);
      UpLinear(low, rest, i);
      StepsLinear(Up(low, i), Up(rest, i), k);
    }
  }

  lemma ColumnIsSteps(m: Matrix, k: nat, i: nat, bit: bool)
    requires Shifts(m, k) && i < 32
    ensures (if bit then m[i] else 0) == Steps(Up(if bit then 1 else 0, i), k)
  {
    UpZero(i);
    StepsZero(k);
  }

  /** A shift operator clocks any register, not only the unit vectors. */
  lemma ShiftsTimes(m: Matrix, k: nat, v: bv32)
    requires Shifts(m, k)
    ensures Times(m, v) == Steps(v, k)
  {
    WordFits(v);
    TimesFromIsSteps(m, k, 0, v);
  }

  /** Squaring doubles the shift. */
  lemma ShiftsSquare(m: Matrix, k: nat)
    requires Shifts(m, k)
    ensures Shifts(Square(m), 2 * k)
  {
    forall n | 0 <= n < 32
      ensures Square(m)[n] == Steps(Unit(n), 2 * k)
    {
      ShiftsTimes(m, k, m[n]);
      StepsAdd(Unit(n), k, k);
    }
  }

  // ---------- the operator for one zero bit ----------

  lemma Fits7(v: bv32)
    requires Fits(v, 7)
    ensures v >> 7 == 0
  {
    Half4(v);
    var u := Half(Half(Half(Half(v))));
    assert Fits(v, 7) == Fits(Half(Half(v)), 5) == Fits(u, 3);
    assert Fits(u, 3) == Fits(Half(Half(u)), 1);
    Half2(u);
    Fits7Bits(v, u, Half(Half(u)));
  }

  lemma Fits7Bits(v: bv32, u: bv32, t: bv32)
    requires u == v >> 4 && t == u >> 2 && t >> 1 == 0
    ensures v >> 7 == 0
  {
  }

  lemma TopBitClearParts(u: bv32, w: bv32, x: bv32)
    requires Fits(u, 31) && w == u >> 16 && x == w >> 8
    ensures u >> 31 == 0
  {
    FitsShift16(u, w, 15);
    FitsShift8(w, 7);
    Fits7(x);
  }

  predicate TopBitClear(u: bv32) {
    u >> 31 == 0
  }

  lemma FitsTopBitClear(u: bv32)
    requires Fits(u, 31)
    ensures TopBitClear(u)
  {
    TopBitClearParts(u, u >> 16, u >> 16 >> 8);
  }

  lemma HalfOfDouble(u: bv32)
    requires TopBitClear(u)
    ensures Half(Double(u)) == u && !Odd(Double(u))
  {
    HalfOfDoubleBits(u, Double(u));
  }

  lemma HalfOfDoubleBits(u: bv32, d: bv32)
    requires u >> 31 == 0 && d == u << 1
    ensures d >> 1 == u && d & 1 == 0
  {
  }

  lemma {:induction false} UnitFits(n: nat)
    requires n < 32
    ensures Fits(Unit(n), n + 1)
  {
    if n == 0 {
      assert Half(1) == 0;
    } else {
      UnitFits(n - 1);
      UpDouble(1, n - 1);
      FitsMore(Unit(n - 1), n, 31);
      FitsTopBitClear(Unit(n - 1));
      HalfOfDouble(Unit(n - 1));
    }
  }

  lemma {:induction false} FitsMore(v: bv32, j: nat, k: nat)
    requires Fits(v, j) && j <= k
    ensures Fits(v, k)
    decreases k
  {
    if j > 0 {
      FitsMore(Half(v), j - 1, k - 1);
    } else if k > 0 {
      assert Half(0) == 0;
      FitsMore(0, 0, k - 1);
    }
  }

  /** One clock moves every unit vector but the lowest down by one; the lowest becomes the polynomial. */
  lemma StepUnit(n: nat)
    requires n < 32
    ensures Step(Unit(n)) == if n == 0 then POLY else Unit(n - 1)
  {
    if n == 0 {
      assert Half(1) == 0 && Odd(1);
      XorZero(POLY);
    } else {
      UnitFits(n - 1);
      FitsMore(Unit(n - 1), n, 31);
      FitsTopBitClear(Unit(n - 1));
      HalfOfDouble(Unit(n - 1));
      UpDouble(1, n - 1);
      LowBitClear(Double(Unit(n - 1)));
    }
  }

  lemma LowBitClear(x: bv32)
    requires !Odd(x)
    ensures Step(x) == Half(x)
  {
  }
}
