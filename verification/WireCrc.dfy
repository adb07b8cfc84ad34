/** The table-driven CRC32C and the second copy of the combination: sdk/typescript/src/wire/crc32c.ts.
    JavaScript's bitwise operators work on the 32 bits of a number, which is what bv32 holds;
    the unsigned shift by zero that ends its expressions only changes how those bits print. */
module WireCrc {
  import opened Crc32c
  import opened Gf2
  import opened Combine

  function Low8(x: bv32): bv32 {
    x & 0xff
  }

  function High24(x: bv32): bv32 {
    x & 0xffff_ff00
  }

  /** A table entry: eight zero bits clocked from the byte. */
  function Entry(n: nat): bv32
    requires n < 256
  {
    Steps(n as bv32, 8)
  }

  ghost predicate IsTable(table: seq<bv32>) {
    |table| == 256 && forall n: nat | n < 256 :: table[n] == Entry(n)
  }

  lemma StepsUnfold(c: bv32, n: nat)
    requires n > 0
    ensures Steps(c, n) == Steps(Step(c), n - 1)
  {
  }

  lemma StepsNone(c: bv32)
    ensures Steps(c, 0) == c
  {
  }

  method BuildTable() returns (table: array<bv32>)
    ensures fresh(table) && IsTable(table[..])
  {
    hide Steps;
    table := new bv32[256];
    for n := 0 to 256
      invariant forall j: nat | j < n :: table[j] == Entry(j)
    {
      var c := n as bv32;
      for k := 0 to 8
        invariant Steps(c, 8 - k) == Entry(n)
        invariant forall j: nat | j < n :: table[j] == Entry(j)
      {
        StepsUnfold(c, 8 - k);
        c := if Odd(c) then Xor(Half(c), POLY) else Half(c);
      }
      StepsNone(c);
      table[n] := c;
    }
  }

  // ---------- one table lookup is eight clocks ----------

  lemma WordIndex(x: bv32)
    ensures (x as int) as bv32 == x
  {
  }

  lemma Low8Index(x: bv32)
    ensures Low8(x) as int < 256
  {
  }

  lemma SplitBytes(x: bv32)
    ensures x == Xor(Low8(x), High24(x))
  {
  }

  ghost predicate NibbleClear(h: bv32) {
    !Odd(h) && !Odd(Half(h)) && !Odd(Half(Half(h))) && !Odd(Half(Half(Half(h))))
  }

  lemma NibbleClearSteps(h: bv32)
    requires NibbleClear(h)
    ensures Steps(h, 4) == Half(Half(Half(Half(h))))
  {
    hide Half, Odd;
    assert Steps(h, 2) == Half(Half(h));
    StepsAdd(h, 2, 2);
  }

  lemma NibbleClearBits(h: bv32, h1: bv32, h2: bv32, h3: bv32)
    requires h & 0xf == 0 && h1 == h >> 1 && h2 == h1 >> 1 && h3 == h2 >> 1
    ensures h & 1 == 0 && h1 & 1 == 0 && h2 & 1 == 0 && h3 & 1 == 0
  {
  }

  lemma HalfBits(x: bv32)
    ensures Half(x) == x >> 1
  {
  }

  lemma EvenBits(x: bv32)
    ensures x & 1 == 0 ==> !Odd(x)
  {
  }

  lemma NibbleIsClear(h: bv32)
    requires h & 0xf == 0
    ensures NibbleClear(h)
  {
    hide Half, Odd;
    var h1 := Half(h);
    var h2 := Half(h1);
    var h3 := Half(h2);
    HalfBits(h);
    HalfBits(h1);
    HalfBits(h2);
    NibbleClearBits(h, h1, h2, h3);
    EvenBits(h);
    EvenBits(h1);
    EvenBits(h2);
    EvenBits(h3);
  }

  lemma NibbleSteps(h: bv32, g: bv32)
    requires h & 0xf == 0 && g == h >> 4
    ensures Steps(h, 4) == g
  {
    NibbleIsClear(h);
    Half4(h);
    NibbleClearSteps(h);
  }

  lemma High24Nibbles(x: bv32, h: bv32, g: bv32, e: bv32)
    requires h == x & 0xffff_ff00 && g == h >> 4 && e == g >> 4
    ensures h & 0xf == 0 && g & 0xf == 0 && e == x >> 8
  {
  }

  /** A register whose low byte is clear only shifts for eight clocks. */
  lemma ByteClearSteps(h: bv32, g: bv32, e: bv32)
    requires h & 0xf == 0 && g == h >> 4 && g & 0xf == 0 && e == g >> 4
    ensures Steps(h, 8) == e
  {
    NibbleSteps(h, g);
    NibbleSteps(g, e);
    StepsAdd(h, 4, 4);
  }

  lemma High24StepsFrom(x: bv32, h: bv32, g: bv32, e: bv32)
    requires h == x & 0xffff_ff00 && g == h >> 4 && e == g >> 4
    ensures Steps(h, 8) == e && e == x >> 8
  {
    hide Steps;
    High24Nibbles(x, h, g, e);
    ByteClearSteps(h, g, e);
  }

  lemma High24Parts(x: bv32) returns (h: bv32, g: bv32, e: bv32)
    ensures h == High24(x) && h == x & 0xffff_ff00 && g == h >> 4 && e == g >> 4
  {
    h := High24(x);
    g := h >> 4;
    e := g >> 4;
  }

  lemma High24Steps(x: bv32)
    ensures Steps(High24(x), 8) == x >> 8
  {
    var h, g, e := High24Parts(x);
    hide Steps, High24;
    High24StepsFrom(x, h, g, e);
  }

  /** A table lookup on the low byte and a shift of the rest is eight clocks of the whole register. */
  lemma TableStep(x: bv32)
    ensures Steps(x, 8) == Xor(Steps(Low8(x), 8), x >> 8)
  {
    SplitBytes(x);
    StepsLinear(Low8(x), High24(x), 8);
    High24Steps(x);
  }

  lemma ByteLeavesHigh(c: bv32, b: bv8)
    ensures Xor(c, b as bv32) >> 8 == c >> 8
  {
    ByteLeavesHighBits(c, b, Xor(c, b as bv32));
  }

  lemma ByteLeavesHighBits(c: bv32, b: bv8, x: bv32)
    requires x == c ^ (b as bv32)
    ensures x >> 8 == c >> 8
  {
  }

  /** The table-driven CRC is the bit-by-bit one, from any previous value. */
  method Crc32cTable(table: array<bv32>, data: Bytes, previous: bv32) returns (r: bv32)
    requires IsTable(table[..])
    ensures r == CrcFrom(previous, data)
  {
    hide Steps, Step;
    var crc := Xor(previous, ONES);
    for i := 0 to |data|
      invariant Register(crc, data[i..]) == Register(Xor(previous, ONES), data)
    {
      ghost var x := Xor(crc, data[i] as bv32);
      FeedByteIsSteps(crc, data[i]);
      TableStep(x);
      ByteLeavesHigh(crc, data[i]);
      Low8Index(x);
      WordIndex(Low8(x));
      assert data[i..][1..] == data[i + 1..];
      crc := Xor(table[Low8(Xor(crc, data[i] as bv32)) as int], crc >> 8);
    }
    r := Xor(crc, ONES);
  }

  // ---------- the second combination ----------

  /** Integers a JavaScript number holds exactly. */
  const SAFE: nat := 0x20_0000_0000_0000

  /** JavaScript's `len & 1`, which looks at the low 32 bits of the number. */
  predicate LowBitSet(len: nat) {
    (len % 0x1_0000_0000) as bv32 & 1 != 0
  }

  /** Math.floor(len / 2); the quotient is exact below 2^53. */
  function FloorHalf(len: nat): int {
    (len as real / 2.0).Floor
  }

  lemma WordParity(n: nat)
    requires n < 0x1_0000_0000
    ensures ((n as bv32) & 1 != 0) == (n % 2 != 0)
  {
  }

  lemma LowWordParity(len: nat)
    ensures len % 0x1_0000_0000 % 2 == len % 2
  {
    SameParity(len, 0x8000_0000 * (len / 0x1_0000_0000), len % 0x1_0000_0000);
  }

  lemma SameParity(len: nat, half: nat, rest: nat)
    requires len == 2 * half + rest
    ensures rest % 2 == len % 2
  {
  }

  lemma LowBitOfNumber(len: nat)
    ensures LowBitSet(len) == (len % 2 != 0)
  {
    WordParity(len % 0x1_0000_0000);
    LowWordParity(len);
  }

  lemma FloorOfHalf(len: nat)
    ensures FloorHalf(len) == len / 2
  {
    assert len as real / 2.0 == (len / 2) as real + (if len % 2 == 0 then 0.0 else 0.5);
  }

  lemma NumberHalving(len: nat)
    ensures LowBitSet(len) == (len % 2 != 0)
    ensures FloorHalf(len) == len / 2
  {
    hide *;
    LowBitOfNumber(len);
    FloorOfHalf(len);
  }

  method CombineNumbers(crc1: bv32, crc2: bv32, length2: int) returns (r: bv32)
    requires length2 < SAFE
    ensures r == Combined(crc1, crc2, length2)
  {
    hide Shifts, Steps, Times, LowBitSet, FloorHalf;
    if length2 <= 0 {
      return crc1;
    }
    var even, odd := new bv32[32], new bv32[32];
    OneZeroBit(odd);
    SquareOf(odd[..], 1, 2);
    Gf2Square(even, odd);
    SquareOf(even[..], 2, 4);
    Gf2Square(odd, even);

    var a, len := crc1, length2;
    ghost var p := 1;
    ProgressStart(crc1, len);
    while true
      invariant len > 0 && p > 0
      invariant Shifts(odd[..], 4 * p)
      invariant Progress(crc1, a, len, p, length2)
      decreases len
    {
      SquareOf(odd[..], 4 * p, 8 * p);
      Gf2Square(even, odd);
      BitConsumed(crc1, a, len, p, length2, even[..]);
      NumberHalving(len);
      if LowBitSet(len) {
        a := Gf2Times(even, a);
      }
      len, p := FloorHalf(len), 2 * p;
      if len == 0 {
        break;
      }
      SquareOf(even[..], 4 * p, 8 * p);
      Gf2Square(odd, even);
      BitConsumed(crc1, a, len, p, length2, odd[..]);
      NumberHalving(len);
      if LowBitSet(len) {
        a := Gf2Times(odd, a);
      }
      len, p := FloorHalf(len), 2 * p;
      if len == 0 {
        break;
      }
    }
    r := Xor(a, crc2);
  }
}
