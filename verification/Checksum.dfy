/** The wire form of a CRC32C, "crc32c=<base64>": sig/checksum.go and the TypeScript parser.
    Four big-endian bytes in standard base64 with padding (sections 4 and 3.5 of RFC 4648). */
module Checksum {
  import opened Wrappers
  import Text

  const PREFIX: string := "crc32c="

  type Sextet = n: nat | n < 64

  function Digit(x: Sextet): char {
    if x < 26 then ('A' as int + x) as char
    else if x < 52 then ('a' as int + (x - 26)) as char
    else if x < 62 then ('0' as int + (x - 52)) as char
    else if x == 62 then '+'
    else '/'
  }

  function DigitValue(c: char): Option<Sextet> {
    if 'A' <= c <= 'Z' then Some(c as int - 'A' as int)
    else if 'a' <= c <= 'z' then Some(c as int - 'a' as int + 26)
    else if '0' <= c <= '9' then Some(c as int - '0' as int + 52)
    else if c == '+' then Some(62)
    else if c == '/' then Some(63)
    else None
  }

  lemma DigitRoundTrip(x: Sextet)
    ensures DigitValue(Digit(x)) == Some(x)
  {
  }

  lemma DigitValueInjective(c: char)
    requires DigitValue(c).Some?
    ensures Digit(DigitValue(c).value) == c
  {
  }

  /** The four bytes, most significant first. */
  function BigEndian(n: nat): (b: seq<nat>)
    requires n < 0x1_0000_0000
    ensures |b| == 4 && forall i | 0 <= i < 4 :: b[i] < 256
  {
    [n / 0x100_0000, n / 0x1_0000 % 256, n / 256 % 256, n % 256]
  }

  function FromBigEndian(b: seq<nat>): (n: nat)
    requires |b| == 4 && forall i | 0 <= i < 4 :: b[i] < 256
    ensures n < 0x1_0000_0000
  {
    ((b[0] * 256 + b[1]) * 256 + b[2]) * 256 + b[3]
  }

  /** Base64 of four bytes: one full group of three and one group of one, padded. */
  function Base64(b: seq<nat>): (s: string)
    requires |b| == 4 && forall i | 0 <= i < 4 :: b[i] < 256
    ensures |s| == 8
  {
    [Digit(b[0] / 4), Digit(b[0] % 4 * 16 + b[1] / 16), Digit(b[1] % 16 * 4 + b[2] / 64), Digit(b[2] % 64),
     Digit(b[3] / 4), Digit(b[3] % 4 * 16), '=', '=']
  }

  /** Decoding to exactly four bytes: six digits and two pads; the low four bits of the sixth digit are dropped. */
  function Decode4(s: string): (r: Option<seq<nat>>)
    ensures r.Some? ==> |r.value| == 4 && forall i | 0 <= i < 4 :: r.value[i] < 256
  {
    if |s| == 8 && s[6] == '=' && s[7] == '=' && (forall i | 0 <= i < 6 :: DigitValue(s[i]).Some?) then
      var d0, d1, d2 := DigitValue(s[0]).value, DigitValue(s[1]).value, DigitValue(s[2]).value;
      var d3, d4, d5 := DigitValue(s[3]).value, DigitValue(s[4]).value, DigitValue(s[5]).value;
      Some([d0 * 4 + d1 / 16, d1 % 16 * 16 + d2 / 4, d2 % 4 * 64 + d3, d4 * 4 + d5 / 16])
    else
      None
  }

  /** Go's decoder skips line breaks anywhere in its input. */
  function StripBreaks(s: string): string {
    if s == [] then []
    else if s[0] == '\r' || s[0] == '\n' then StripBreaks(s[1..])
    else [s[0]] + StripBreaks(s[1..])
  }

  function EncodeWord(n: nat): string
    requires n < 0x1_0000_0000
  {
    PREFIX + Base64(BigEndian(n))
  }

  function EncodeCRC32C(crc: bv32): string {
    EncodeWord(crc as int)
  }

  function CutPrefix(s: string, prefix: string): Option<string> {
    if prefix <= s then Some(s[|prefix|..]) else None
  }

  function ParseBody(rest: string): (r: Result<nat>)
    ensures r.Ok? ==> r.value < 0x1_0000_0000
  {
    match Decode4(rest)
    case None => Err(Other)
    case Some(b) => Ok(FromBigEndian(b))
  }

  function ParseWord(s: string): (r: Result<nat>)
    ensures r.Ok? ==> r.value < 0x1_0000_0000
  {
    match CutPrefix(s, PREFIX)
    case None => Err(Other)
    case Some(rest) => ParseBody(StripBreaks(rest))
  }

  function ParseChecksum(s: string): Result<bv32> {
    match ParseWord(s)
    case Ok(n) => Ok(n as bv32)
    case Err(e) => Err(e)
  }

  /** The TypeScript parser insists on eight characters ending in the padding before it decodes. */
  function ParseWireWord(s: string): (r: Result<nat>)
    ensures r.Ok? ==> r.value < 0x1_0000_0000
  {
    match CutPrefix(s, PREFIX)
    case None => Err(Other)
    case Some(rest) => ParseBody(rest)
  }

  // ---------- round trips ----------

  lemma Quotients(n: nat)
    ensures n / 0x1_0000 == n / 256 / 256 && n / 0x100_0000 == n / 256 / 256 / 256
  {
  }

  lemma BigEndianRoundTrip(n: nat)
    requires n < 0x1_0000_0000
    ensures FromBigEndian(BigEndian(n)) == n
  {
    Quotients(n);
    var q := n / 256;
    var q2 := q / 256;
    assert q2 / 256 * 256 + q2 % 256 == q2;
    assert q2 * 256 + q % 256 == q;
    assert q * 256 + n % 256 == n;
  }

  lemma WordRoundTrip(crc: bv32)
    ensures (crc as int) as bv32 == crc
  {
  }

  lemma SplitBytes(b0: nat, b1: nat, b2: nat, b3: nat)
    requires b0 < 256 && b1 < 256 && b2 < 256 && b3 < 256
    ensures var d1, d2 := b0 % 4 * 16 + b1 / 16, b1 % 16 * 4 + b2 / 64;
            && b0 / 4 * 4 + d1 / 16 == b0
            && d1 % 16 * 16 + d2 / 4 == b1
            && d2 % 4 * 64 + b2 % 64 == b2
            && b3 / 4 * 4 + b3 % 4 * 16 / 16 == b3
  {
  }

  lemma Base64RoundTrip(b: seq<nat>)
    requires |b| == 4 && forall i | 0 <= i < 4 :: b[i] < 256
    ensures Decode4(Base64(b)) == Some(b)
  {
    hide Digit, DigitValue;
    SplitBytes(b[0], b[1], b[2], b[3]);
    DigitRoundTrip(b[0] / 4);
    DigitRoundTrip(b[0] % 4 * 16 + b[1] / 16);
    DigitRoundTrip(b[1] % 16 * 4 + b[2] / 64);
    DigitRoundTrip(b[2] % 64);
    DigitRoundTrip(b[3] / 4);
    DigitRoundTrip(b[3] % 4 * 16);
    assert Decode4(Base64(b)).value == b;
  }

  lemma {:induction false} StripNothing(s: string)
    requires forall i | 0 <= i < |s| :: s[i] != '\r' && s[i] != '\n'
    ensures StripBreaks(s) == s
  {
    if s != [] {
      StripNothing(s[1..]);
    }
  }

  lemma {:induction false} StripShortens(s: string)
    ensures |StripBreaks(s)| <= |s|
    ensures |StripBreaks(s)| == |s| ==> StripBreaks(s) == s
    ensures forall i | 0 <= i < |StripBreaks(s)| :: StripBreaks(s)[i] != '\r' && StripBreaks(s)[i] != '\n'
  {
    if s != [] {
      StripShortens(s[1..]);
    }
  }

  lemma ParseEncodeWord(n: nat)
    requires n < 0x1_0000_0000
    ensures ParseWord(EncodeWord(n)) == Ok(n)
    ensures ParseWireWord(EncodeWord(n)) == Ok(n)
  {
    hide BigEndian, FromBigEndian, Decode4, DigitValue;
    var body := Base64(BigEndian(n));
    assert EncodeWord(n)[|PREFIX|..] == body;
    Base64RoundTrip(BigEndian(n));
    BigEndianRoundTrip(n);
    StripNothing(body);
  }

  /** Every checksum the server writes parses back to the value it was written from. */
  lemma ParseEncode(crc: bv32)
    ensures ParseChecksum(EncodeCRC32C(crc)) == Ok(crc)
  {
    hide EncodeWord, ParseWord;
    ParseEncodeWord(crc as int);
    WordRoundTrip(crc);
  }

  lemma EncodeInjective(a: bv32, b: bv32)
    requires EncodeCRC32C(a) == EncodeCRC32C(b)
    ensures a == b
  {
    hide EncodeCRC32C, ParseChecksum;
    ParseEncode(a);
    ParseEncode(b);
  }

  lemma FromBigEndianRoundTrip(b: seq<nat>)
    requires |b| == 4 && forall i | 0 <= i < 4 :: b[i] < 256
    ensures BigEndian(FromBigEndian(b)) == b
  {
    var b0, b1, b2, b3 := b[0], b[1], b[2], b[3];
    var n := FromBigEndian(b);
    assert n / 256 == (b0 * 256 + b1) * 256 + b2 && n % 256 == b3;
    assert n / 256 / 256 == b0 * 256 + b1;
    assert n / 0x1_0000 == n / 256 / 256 && n / 0x100_0000 == n / 0x1_0000 / 256;
  }

  /** The values of the six digits of a decodable body. */
  ghost predicate Sextets(t: string, d: seq<nat>) {
    && |t| == 8 && |d| == 6 && t[6] == '=' && t[7] == '='
    && forall i | 0 <= i < 6 :: d[i] < 64 && DigitValue(t[i]) == Some(d[i]) && t[i] == Digit(d[i])
  }

  lemma SextetsExist(t: string) returns (d: seq<nat>)
    requires Decode4(t).Some?
    ensures Sextets(t, d)
  {
    forall i | 0 <= i < 6 { DigitValueInjective(t[i]); }
    d := seq(6, i requires 0 <= i < 6 => DigitValue(t[i]).value);
  }

  function BytesOf(d: seq<nat>): (b: seq<nat>)
    requires |d| == 6 && forall i | 0 <= i < 6 :: d[i] < 64
    ensures |b| == 4 && forall i | 0 <= i < 4 :: b[i] < 256
  {
    [d[0] * 4 + d[1] / 16, d[1] % 16 * 16 + d[2] / 4, d[2] % 4 * 64 + d[3], d[4] * 4 + d[5] / 16]
  }

  lemma Base64OfSextets(d: seq<nat>)
    requires |d| == 6 && forall i | 0 <= i < 6 :: d[i] < 64
    ensures Base64(BytesOf(d)) == [Digit(d[0]), Digit(d[1]), Digit(d[2]), Digit(d[3]), Digit(d[4]), Digit(d[5] / 16 * 16), '=', '=']
  {
    hide Digit;
    RegroupBytes(d[0], d[1], d[2], d[3], d[4], d[5]);
  }

  lemma Base64Decode(t: string)
    requires Decode4(t).Some?
    ensures Base64(Decode4(t).value) == t <==> DigitValue(t[5]).value % 16 == 0
  {
    var d := SextetsExist(t);
    hide Digit, DigitValue, Base64;
    assert Decode4(t).value == BytesOf(d);
    Base64OfSextets(d);
    hide Decode4, BytesOf;
    DigitRoundTrip(d[5] / 16 * 16);
    assert t == [Digit(d[0]), Digit(d[1]), Digit(d[2]), Digit(d[3]), Digit(d[4]), Digit(d[5]), '=', '='];
    if Digit(d[5] / 16 * 16) == Digit(d[5]) {
      DigitRoundTrip(d[5]);
    } else {
      assert Base64(BytesOf(d))[5] != t[5];
    }
  }

  lemma RegroupBytes(d0: nat, d1: nat, d2: nat, d3: nat, d4: nat, d5: nat)
    requires d0 < 64 && d1 < 64 && d2 < 64 && d3 < 64 && d4 < 64 && d5 < 64
    ensures var b0, b1, b2, b3 := d0 * 4 + d1 / 16, d1 % 16 * 16 + d2 / 4, d2 % 4 * 64 + d3, d4 * 4 + d5 / 16;
            && b0 / 4 == d0 && b0 % 4 * 16 + b1 / 16 == d1
            && b1 % 16 * 4 + b2 / 64 == d2 && b2 % 64 == d3
            && b3 / 4 == d4 && b3 % 4 * 16 == d5 / 16 * 16
  {
  }

  /** Printing a parsed value gives the input back exactly when it has no line break and its sixth digit no stray bits. */
  lemma EncodeParse(s: string)
    requires ParseWord(s).Ok?
    ensures EncodeWord(ParseWord(s).value) == s
        <==> |s| == 15 && DigitValue(s[12]).Some? && DigitValue(s[12]).value % 16 == 0
  {
    hide DigitValue, BigEndian, FromBigEndian;
    var rest := s[|PREFIX|..];
    var t := StripBreaks(rest);
    var b := Decode4(t).value;
    StripShortens(rest);
    FromBigEndianRoundTrip(b);
    assert EncodeWord(ParseWord(s).value) == PREFIX + Base64(b);
    if |s| == 15 {
      assert s == PREFIX + t;
      assert s[12] == t[5];
      Base64Decode(t);
      if EncodeWord(ParseWord(s).value) == s {
        assert Base64(b) == (PREFIX + Base64(b))[|PREFIX|..] == t;
      }
    }
  }

  /** The two parsers agree on everything the TypeScript one accepts, and differ exactly on line breaks. */
  lemma ParsersAgree(s: string)
    ensures ParseWireWord(s).Ok? <==> ParseWord(s).Ok? && |s| == 15
    ensures ParseWireWord(s).Ok? ==> ParseWireWord(s) == ParseWord(s)
  {
    if CutPrefix(s, PREFIX).Some? {
      var rest := s[|PREFIX|..];
      StripShortens(rest);
      if ParseWireWord(s).Ok? {
        assert forall i | 0 <= i < 6 :: DigitValue(rest[i]).Some?;
        StripNothing(rest);
      }
    }
  }

  // ---------- the text itself ----------

  /** The base64 alphabet, table 1 of RFC 4648. */
  function Alphabet(): (a: string)
    ensures |a| == 64
  {
    Text.UPPER_CASE + Text.LOWER_CASE + Text.DIGITS + "+/"
  }

  lemma DigitExact(x: Sextet)
    ensures Digit(x) == Alphabet()[x]
  {
    if x < 26 {
      CapitalAt(x);
    } else if x < 52 {
      SmallAt(x - 26);
    } else if x < 62 {
      DecimalAt(x - 52);
    }
  }

  lemma CapitalAt(i: nat)
    requires i < 26
    ensures Text.UPPER_CASE[i] == ('A' as int + i) as char
  {
  }

  lemma SmallAt(i: nat)
    requires i < 26
    ensures Text.LOWER_CASE[i] == ('a' as int + i) as char
  {
  }

  lemma DecimalAt(i: nat)
    requires i < 10
    ensures Text.DIGITS[i] == ('0' as int + i) as char
  {
  }

  lemma DigitValueExact(c: char, x: Sextet)
    ensures DigitValue(c) == Some(x) <==> c == Alphabet()[x]
  {
    hide Alphabet;
    DigitExact(x);
    if DigitValue(c) == Some(x) {
      DigitValueInjective(c);
    }
  }

  /** The values of six digits. */
  predicate SixDigits(d: seq<nat>) {
    |d| == 6 && forall i | 0 <= i < 6 :: d[i] < 64
  }

  /** Six digits and the padding, as they are written. */
  function Padded(d: seq<nat>): string
    requires SixDigits(d)
  {
    [Alphabet()[d[0]], Alphabet()[d[1]], Alphabet()[d[2]], Alphabet()[d[3]], Alphabet()[d[4]], Alphabet()[d[5]], '=', '=']
  }

  /** The number they are in base 64. */
  function Number(d: seq<nat>): nat
    requires SixDigits(d)
  {
    ((((d[0] * 64 + d[1]) * 64 + d[2]) * 64 + d[3]) * 64 + d[4]) * 64 + d[5]
  }

  lemma NumberOfBytes(b: seq<nat>)
    requires |b| == 4 && forall i | 0 <= i < 4 :: b[i] < 256
    ensures var d := [b[0] / 4, b[0] % 4 * 16 + b[1] / 16, b[1] % 16 * 4 + b[2] / 64, b[2] % 64, b[3] / 4, b[3] % 4 * 16];
            SixDigits(d) && Number(d) == FromBigEndian(b) * 16
  {
    var x0, y0 := b[0] / 4, b[0] % 4;
    var x1, y1 := b[1] / 16, b[1] % 16;
    var x2, y2 := b[2] / 64, b[2] % 64;
    var x3, y3 := b[3] / 4, b[3] % 4;
    assert b[0] == 4 * x0 + y0 && b[1] == 16 * x1 + y1 && b[2] == 64 * x2 + y2 && b[3] == 4 * x3 + y3;
  }

  /** What is written: the prefix, and the six digits that are sixteen times the value in base 64, padded. */
  lemma WrittenExact(n: nat)
    requires n < 0x1_0000_0000
    ensures exists d :: SixDigits(d) && Number(d) == n * 16 && EncodeWord(n) == "crc32c=" + Padded(d)
  {
    hide Digit, Alphabet, BigEndian, FromBigEndian, Number;
    var b := BigEndian(n);
    BigEndianRoundTrip(n);
    NumberOfBytes(b);
    var d := [b[0] / 4, b[0] % 4 * 16 + b[1] / 16, b[1] % 16 * 4 + b[2] / 64, b[2] % 64, b[3] / 4, b[3] % 4 * 16];
    forall i | 0 <= i < 6
      ensures Digit(d[i]) == Alphabet()[d[i]]
    {
      DigitExact(d[i]);
    }
    assert Base64(b) == Padded(d);
  }

  lemma NumberOfDigits(d: seq<nat>)
    requires SixDigits(d)
    ensures FromBigEndian(BytesOf(d)) == Number(d) / 16
  {
    var q, r := d[5] / 16, d[5] % 16;
    assert d[5] == 16 * q + r;
    var x1, y1 := d[1] / 16, d[1] % 16;
    var x2, y2 := d[2] / 4, d[2] % 4;
    assert d[1] == 16 * x1 + y1 && d[2] == 4 * x2 + y2;
  }

  /** What is read: after the prefix, line breaks apart, six digits and the padding; their low four bits are dropped. */
  lemma ReadExact(s: string, n: nat)
    ensures ParseWord(s) == Ok(n)
        <==> "crc32c=" <= s && exists d :: SixDigits(d) && StripBreaks(s[7..]) == Padded(d) && n == Number(d) / 16
  {
    hide Digit, DigitValue, Alphabet, FromBigEndian, Number, StripBreaks, BytesOf;
    if "crc32c=" <= s {
      var t := StripBreaks(s[7..]);
      if Decode4(t).Some? {
        DecodedDigits(t);
      }
      forall d | SixDigits(d) && t == Padded(d)
        ensures ParseWord(s) == Ok(Number(d) / 16)
      {
        PaddedDecodes(d);
      }
    }
  }

  lemma DecodedDigits(t: string)
    requires Decode4(t).Some?
    ensures exists d :: SixDigits(d) && t == Padded(d) && FromBigEndian(Decode4(t).value) == Number(d) / 16
  {
    hide Digit, DigitValue, Alphabet, FromBigEndian, Number;
    var d := SextetsExist(t);
    forall i | 0 <= i < 6
      ensures t[i] == Alphabet()[d[i]]
    {
      DigitExact(d[i]);
    }
    assert SixDigits(d);
    assert t == Padded(d);
    assert Decode4(t).value == BytesOf(d);
    NumberOfDigits(d);
  }

  lemma PaddedDecodes(d: seq<nat>)
    requires SixDigits(d)
    ensures Decode4(Padded(d)).Some? && FromBigEndian(Decode4(Padded(d)).value) == Number(d) / 16
  {
    hide Digit, DigitValue, Alphabet, FromBigEndian, Number;
    forall i | 0 <= i < 6
      ensures DigitValue(Padded(d)[i]) == Some(d[i])
    {
      DigitValueExact(Padded(d)[i], d[i]);
    }
    assert Decode4(Padded(d)).value == BytesOf(d);
    NumberOfDigits(d);
  }

  /** Line breaks are skipped wherever they stand, and nothing else is. */
  lemma {:induction false} StripExact(a: string, c: char, b: string)
    ensures StripBreaks(a + [c] + b) == StripBreaks(a) + (if c in "\r\n" then [] else [c]) + StripBreaks(b)
    decreases |a|
  {
    if a == [] {
      assert a + [c] + b == [c] + b && ([c] + b)[1..] == b;
    } else {
      StripExact(a[1..], c, b);
      assert (a + [c] + b)[1..] == a[1..] + [c] + b && (a + [c] + b)[0] == a[0];
    }
  }
}
