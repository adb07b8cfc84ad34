/** Percent-encoding of paths and queries, and its inverse on the server: sig/encode.go and internal/httpapi/query.go.
    RFC 3986 sections 2.1 and 2.3 say what is encoded and how. */
module Encode {
  import opened Wrappers
  import opened Text

  // ---------- one segment ----------

  predicate Unreserved(c: Byte) {
    'A' <= c <= 'Z' || 'a' <= c <= 'z' || '0' <= c <= '9' || c == '-' || c == '.' || c == '_' || c == '~'
  }

  function HexDigit(n: int): Byte
    requires 0 <= n < 16
  {
    if n < 10 then (n + 48) as char else (n + 55) as char
  }

  function EncodeByte(c: Byte): Text {
    if Unreserved(c) then [c] else ['%', HexDigit(c as int / 16), HexDigit(c as int % 16)]
  }

  function EncodeSegment(s: Text): Text {
    if s == [] then [] else EncodeByte(s[0]) + EncodeSegment(s[1..])
  }

  const MARKS: Text := "-._~"
  const UPPER_HEX: Text := "0123456789ABCDEF"

  /** What one byte is written as: a letter, a digit or a mark is itself, any other is a percent sign and the two upper-case
      hexadecimal digits of its code. */
  ghost predicate Written(c: Byte, t: Text) {
    if c in UPPER_CASE || c in LOWER_CASE || c in DIGITS || c in MARKS then t == [c]
    else exists i, j | 0 <= i < |UPPER_HEX| && 0 <= j < |UPPER_HEX| :: c as int == 16 * i + j && t == ['%', UPPER_HEX[i], UPPER_HEX[j]]
  }

  lemma UnreservedExact(c: Byte)
    ensures Unreserved(c) <==> c in UPPER_CASE || c in LOWER_CASE || c in DIGITS || c in MARKS
  {
    hide UPPER_CASE, LOWER_CASE, DIGITS;
    CapitalExact(c);
    SmallExact(c);
    DigitExact(c);
  }

  lemma HexDigitExact(n: int)
    requires 0 <= n < 16
    ensures |UPPER_HEX| == 16 && HexDigit(n) == UPPER_HEX[n]
  {
  }

  lemma EncodeByteExact(c: Byte, t: Text)
    ensures t == EncodeByte(c) <==> Written(c, t)
  {
    hide Unreserved, HexDigit, UPPER_CASE, LOWER_CASE, DIGITS, MARKS, UPPER_HEX;
    UnreservedExact(c);
    var i, j := c as int / 16, c as int % 16;
    HexDigitExact(i);
    HexDigitExact(j);
    if !Unreserved(c) {
      assert c as int == 16 * i + j;
    }
  }

  /** What the bytes of a text are written as, one after the other. */
  ghost predicate PercentEncoded(s: Text, t: Text) {
    exists pieces: seq<Text> :: |pieces| == |s| && Join(pieces, []) == t && forall i | 0 <= i < |s| :: Written(s[i], pieces[i])
  }

  /** The encoding of a text is that and nothing else. */
  lemma {:induction false} EncodedExact(s: Text, t: Text)
    ensures t == EncodeSegment(s) <==> PercentEncoded(s, t)
    decreases |s|
  {
    hide EncodeByte, Written;
    if s == [] {
      var none: seq<Text> := [];
      assert |none| == |s| && Join(none, []) == [];
    } else {
      var first := EncodeByte(s[0]);
      EncodeByteExact(s[0], first);
      EncodedExact(s[1..], EncodeSegment(s[1..]));
      var rest: seq<Text> :| |rest| == |s[1..]| && Join(rest, []) == EncodeSegment(s[1..])
        && forall i | 0 <= i < |s[1..]| :: Written(s[1..][i], rest[i]);
      JoinMore(first, rest);
      assert |[first] + rest| == |s| && forall i | 0 <= i < |s| :: Written(s[i], ([first] + rest)[i]);
      forall pieces: seq<Text> | |pieces| == |s| && forall i | 0 <= i < |s| :: Written(s[i], pieces[i])
        ensures Join(pieces, []) == EncodeSegment(s)
      {
        EncodeByteExact(s[0], pieces[0]);
        assert forall i | 0 <= i < |s[1..]| :: Written(s[1..][i], pieces[1..][i]);
        EncodedExact(s[1..], Join(pieces[1..], []));
        JoinMore(pieces[0], pieces[1..]);
        assert pieces == [pieces[0]] + pieces[1..];
      }
    }
  }

  lemma JoinMore(first: Text, rest: seq<Text>)
    ensures Join([first] + rest, []) == first + Join(rest, [])
  {
    assert ([first] + rest)[1..] == rest;
  }

  method SegmentEncoder(s: Text) returns (out: Text)
    ensures out == EncodeSegment(s) && PercentEncoded(s, out)
  {
    out := [];
    for i := 0 to |s|
      invariant out + EncodeSegment(s[i..]) == EncodeSegment(s)
    {
      var c := s[i];
      ghost var before := out;
      if Unreserved(c) {
        out := out + [c];
      } else {
        out := out + ['%'];
        out := out + [HexDigit(c as int / 16)];
        out := out + [HexDigit(c as int % 16)];
      }
      assert out == before + EncodeByte(c);
      hide EncodeByte;
      assert s[i..][1..] == s[i + 1..];
      Assoc(before, EncodeByte(c), EncodeSegment(s[i + 1..]));
    }
    EncodedExact(s, out);
  }

  function Unhex(c: Byte): Option<int> {
    if '0' <= c <= '9' then Some(c as int - 48)
    else if 'A' <= c <= 'F' then Some(c as int - 55)
    else if 'a' <= c <= 'f' then Some(c as int - 87)
    else None
  }

  /** url.PathUnescape; with `plus`, url.QueryUnescape, which reads '+' as a space. */
  function Unescape(s: Text, plus: bool): Option<Text> {
    if s == [] then Some([])
    else if s[0] == '%' then
      if |s| < 3 || Unhex(s[1]).None? || Unhex(s[2]).None? then None
      else
        var rest := Unescape(s[3..], plus);
        if rest.None? then None else Some([(16 * Unhex(s[1]).value + Unhex(s[2]).value) as char] + rest.value)
    else
      var rest := Unescape(s[1..], plus);
      if rest.None? then None else Some([if plus && s[0] == '+' then ' ' else s[0]] + rest.value)
  }

  const LOWER_HEX: Text := "0123456789abcdef"

  predicate HexOf(c: Byte, i: int) {
    (0 <= i < |UPPER_HEX| && c == UPPER_HEX[i]) || (0 <= i < |LOWER_HEX| && c == LOWER_HEX[i])
  }

  lemma UnhexExact(c: Byte, i: int)
    ensures Unhex(c) == Some(i) <==> HexOf(c, i)
  {
  }

  /** What a piece of encoded text is read as: a percent sign and two hexadecimal digits, of either case, as the byte of that
      code; any other byte as itself, but '+' in a query as a space. */
  ghost predicate Reads(piece: Text, c: Byte, plus: bool) {
    || (|piece| == 1 && piece[0] != '%' && c == if plus && piece[0] == '+' then ' ' else piece[0])
    || (|piece| == 3 && piece[0] == '%'
        && exists i, j :: HexOf(piece[1], i) && HexOf(piece[2], j) && c as int == 16 * i + j)
  }

  ghost predicate ReadAs(pieces: seq<Text>, t: Text, plus: bool) {
    |pieces| == |t| && forall i | 0 <= i < |t| :: Reads(pieces[i], t[i], plus)
  }

  lemma EscapeReads(s: Text, c: Byte, plus: bool)
    requires |s| >= 3 && s[0] == '%'
    ensures Reads(s[..3], c, plus)
        <==> Unhex(s[1]).Some? && Unhex(s[2]).Some? && c as int == 16 * Unhex(s[1]).value + Unhex(s[2]).value
  {
    hide Unhex, HexOf;
    forall k
      ensures Unhex(s[1]) == Some(k) <==> HexOf(s[..3][1], k)
      ensures Unhex(s[2]) == Some(k) <==> HexOf(s[..3][2], k)
    {
      UnhexExact(s[1], k);
      UnhexExact(s[2], k);
    }
  }

  /** The first piece of a text that can be read. */
  function Head(s: Text): nat {
    if s != [] && s[0] == '%' then 3 else 1
  }

  lemma HeadIsFirst(pieces: seq<Text>, t: Text, plus: bool)
    requires ReadAs(pieces, t, plus) && t != []
    ensures var s := Join(pieces, []);
            Head(s) <= |s| && pieces[0] == s[..Head(s)] && Join(pieces[1..], []) == s[Head(s)..] && ReadAs(pieces[1..], t[1..], plus)
  {
    hide HexOf;
    assert Reads(pieces[0], t[0], plus);
    JoinMore(pieces[0], pieces[1..]);
    assert pieces == [pieces[0]] + pieces[1..];
  }

  lemma {:induction false} PiecesOf(s: Text, t: Text, plus: bool) returns (pieces: seq<Text>)
    requires Unescape(s, plus) == Some(t)
    ensures ReadAs(pieces, t, plus) && Join(pieces, []) == s
    decreases |s|
  {
    hide Unhex, Reads, HexOf;
    pieces := [];
    if s != [] {
      UnescapeHead(s, t, plus);
      hide Unescape;
      var n := Head(s);
      var rest := PiecesOf(s[n..], t[1..], plus);
      JoinMore(s[..n], rest);
      pieces := [s[..n]] + rest;
    }
  }

  lemma {:induction false} PiecesAreRead(pieces: seq<Text>, t: Text, plus: bool)
    requires ReadAs(pieces, t, plus)
    ensures Unescape(Join(pieces, []), plus) == Some(t)
    decreases |pieces|
  {
    if t != [] {
      HeadIsFirst(pieces, t, plus);
      hide Unhex, Reads, HexOf, Unescape;
      PiecesAreRead(pieces[1..], t[1..], plus);
      assert Reads(pieces[0], t[0], plus);
      UnescapeOn(Join(pieces, []), t, plus);
    }
  }

  /** A text is read as another exactly if it is its bytes' pieces, one after the other. */
  lemma UnescapeExact(s: Text, t: Text, plus: bool)
    ensures Unescape(s, plus) == Some(t) <==> exists pieces :: ReadAs(pieces, t, plus) && Join(pieces, []) == s
  {
    hide Unescape, ReadAs, Join;
    if Unescape(s, plus) == Some(t) {
      var pieces := PiecesOf(s, t, plus);
    }
    if pieces :| ReadAs(pieces, t, plus) && Join(pieces, []) == s {
      PiecesAreRead(pieces, t, plus);
    }
  }

  lemma UnescapeHead(s: Text, t: Text, plus: bool)
    requires s != [] && Unescape(s, plus) == Some(t)
    ensures Head(s) <= |s| && t != [] && Reads(s[..Head(s)], t[0], plus) && Unescape(s[Head(s)..], plus) == Some(t[1..])
  {
    if s[0] == '%' {
      EscapeReads(s, t[0], plus);
    }
  }

  lemma UnescapeOn(s: Text, t: Text, plus: bool)
    requires s != [] && t != [] && Head(s) <= |s| && Reads(s[..Head(s)], t[0], plus) && Unescape(s[Head(s)..], plus) == Some(t[1..])
    ensures Unescape(s, plus) == Some(t)
  {
    hide HexOf;
    if s[0] == '%' {
      EscapeReads(s, t[0], plus);
    }
    assert t == [t[0]] + t[1..];
  }

  /** A percent sign that does not start an escape. */
  predicate Broken(s: Text, i: int) {
    0 <= i < |s| && s[i] == '%' && !(i + 2 < |s| && Unhex(s[i + 1]).Some? && Unhex(s[i + 2]).Some?)
  }

  /** And it cannot be read at all exactly if it has one. */
  lemma {:induction false} UnescapeFails(s: Text, plus: bool)
    ensures Unescape(s, plus).None? <==> exists i :: Broken(s, i)
    decreases |s|
  {
    if s != [] && !Broken(s, 0) {
      var n := Head(s);
      UnescapeFails(s[n..], plus);
      forall i
        ensures Broken(s[n..], i) <==> i >= 0 && Broken(s, i + n)
      {
        if 0 <= i && i + n + 2 < |s| {
          assert s[n..][i + 1] == s[i + n + 1] && s[n..][i + 2] == s[i + n + 2];
        }
      }
      if i :| Broken(s, i) {
        assert i >= n;
        assert Broken(s[n..], i - n);
      }
      if i :| Broken(s[n..], i) {
        assert Broken(s, i + n);
      }
    } else if s != [] {
      assert Broken(s, 0);
    }
  }

  /** Decoding, as a path or as a query, undoes encoding. */
  lemma {:induction false} UnescapeEncode(s: Text, plus: bool)
    ensures Unescape(EncodeSegment(s), plus) == Some(s)
  {
    if s != [] {
      var c, rest := s[0], EncodeSegment(s[1..]);
      UnescapeEncode(s[1..], plus);
      var t := EncodeByte(c) + rest;
      if Unreserved(c) {
        assert t[1..] == rest;
      } else {
        assert t[3..] == rest;
        assert Unhex(t[1]) == Some(c as int / 16) && Unhex(t[2]) == Some(c as int % 16);
      }
      assert s == [c] + s[1..];
    }
  }

  /** An encoded text consists of unreserved bytes and percent signs. */
  lemma {:induction false} EncodedBytes(s: Text)
    ensures forall c | c in EncodeSegment(s) :: Unreserved(c) || c == '%'
    ensures EncodeSegment(s) == [] <==> s == []
  {
    if s != [] {
      EncodedBytes(s[1..]);
    }
  }

  lemma EncodeInjective(s: Text, t: Text)
    ensures EncodeSegment(s) == EncodeSegment(t) <==> s == t
  {
    UnescapeEncode(s, false);
    UnescapeEncode(t, false);
  }

  // ---------- paths ----------

  function EncodeAll(segments: seq<Text>): (parts: seq<Text>)
    ensures |parts| == |segments| && forall i | 0 <= i < |parts| :: parts[i] == EncodeSegment(segments[i])
  {
    if segments == [] then [] else [EncodeSegment(segments[0])] + EncodeAll(segments[1..])
  }

  function EncodePath(segments: seq<Text>): Text {
    "/" + Join(EncodeAll(segments), "/")
  }

  method PathEncoder(segments: seq<Text>) returns (path: Text)
    ensures path == EncodePath(segments)
  {
    hide EncodeSegment, Join, PercentEncoded;
    var encoded: seq<Text> := [];
    for i := 0 to |segments|
      invariant |encoded| == i && forall j | 0 <= j < i :: encoded[j] == EncodeSegment(segments[j])
    {
      var e := SegmentEncoder(segments[i]);
      encoded := encoded + [e];
    }
    assert encoded == EncodeAll(segments);
    path := "/" + Join(encoded, "/");
  }

  function DecodeAll(parts: seq<Text>): Option<seq<Text>> {
    if parts == [] then Some([])
    else
      var first, rest := Unescape(parts[0], false), DecodeAll(parts[1..]);
      if first.None? || rest.None? then None else Some([first.value] + rest.value)
  }

  /** The segments the server reads out of a raw path. */
  function PathSegments(raw: Text): Option<seq<Text>> {
    var trimmed := if StartsWith(raw, "/") then raw[1..] else raw;
    if trimmed == [] then Some([]) else DecodeAll(Split(trimmed, "/"))
  }

  lemma {:induction false} DecodeEncodeAll(segments: seq<Text>)
    ensures DecodeAll(EncodeAll(segments)) == Some(segments)
  {
    if segments != [] {
      DecodeEncodeAll(segments[1..]);
      UnescapeEncode(segments[0], false);
      assert segments == [segments[0]] + segments[1..];
    }
  }

  lemma EncodedFree(s: Text, c: Byte)
    requires !Unreserved(c) && c != '%'
    ensures c !in EncodeSegment(s) && !Contains(EncodeSegment(s), [c])
  {
    EncodedBytes(s);
    AbsentByte(EncodeSegment(s), [c], 0);
  }

  /** What the server reads back: the same segments, except that one empty segment reads as none. */
  lemma PathRoundTrip(p: seq<Text>)
    ensures PathSegments(EncodePath(p)) == Some(if p == [[]] then [] else p)
  {
    var parts := EncodeAll(p);
    assert EncodePath(p)[1..] == Join(parts, "/");
    if p != [] {
      forall part | part in parts
        ensures !Contains(part, "/")
      {
        var i :| 0 <= i < |parts| && parts[i] == part;
        EncodedFree(p[i], '/');
      }
      SplitJoin(parts, "/");
      DecodeEncodeAll(p);
      EncodedBytes(p[0]);
      if |p| == 1 {
        assert p == [p[0]];
      }
    }
  }

  /** The canonical path is the same on both sides, whatever the path. */
  lemma PathStable(p: seq<Text>)
    ensures PathSegments(EncodePath(p)).Some? && EncodePath(PathSegments(EncodePath(p)).value) == EncodePath(p)
  {
    PathRoundTrip(p);
    assert EncodeAll([[]]) == [[]];
  }

  /** The encoded path determines the path, but for [] and [""]. */
  lemma PathInjective(p: seq<Text>, q: seq<Text>)
    ensures EncodePath(p) == EncodePath(q) <==> p == q || (p in {[], [[]]} && q in {[], [[]]})
  {
    PathRoundTrip(p);
    PathRoundTrip(q);
    assert EncodeAll([[]]) == [[]];
  }

  // ---------- queries ----------

  datatype Param = Param(name: Text, value: Text)

  function EncodeParam(p: Param): Param {
    Param(EncodeSegment(p.name), EncodeSegment(p.value))
  }

  /** The order of two encoded parameters: by name, then by value. */
  predicate ParamLe(a: Param, b: Param) {
    if a.name != b.name then Le(a.name, b.name) else Le(a.value, b.value)
  }

  function EncodeParams(pairs: seq<Param>): (encoded: seq<Param>)
    ensures |encoded| == |pairs| && forall i | 0 <= i < |pairs| :: encoded[i] == EncodeParam(pairs[i])
  {
    if pairs == [] then [] else [EncodeParam(pairs[0])] + EncodeParams(pairs[1..])
  }

  function Print(p: Param): Text {
    p.name + "=" + p.value
  }

  function PrintAll(encoded: seq<Param>): (parts: seq<Text>)
    ensures |parts| == |encoded| && forall i | 0 <= i < |parts| :: parts[i] == Print(encoded[i])
  {
    if encoded == [] then [] else [Print(encoded[0])] + PrintAll(encoded[1..])
  }

  /** The canonical query of a list of parameters. */
  function EncodeQuery(pairs: seq<Param>): Text {
    Join(PrintAll(Sort(ParamLe, EncodeParams(pairs))), "&")
  }

  /** rawQuery: the parameters of a raw query, in order of appearance. */
  function DecodePairs(parts: seq<Text>): Option<seq<Param>> {
    if parts == [] then Some([])
    else if parts[0] == [] then DecodePairs(parts[1..])
    else
      var (name, value, _) := Cut(parts[0], "=");
      var n, v, rest := Unescape(name, false), Unescape(value, false), DecodePairs(parts[1..]);
      if n.None? || v.None? || rest.None? then None else Some([Param(n.value, v.value)] + rest.value)
  }

  function RawQuery(raw: Text): Option<seq<Param>> {
    DecodePairs(Split(raw, "&"))
  }

  /** r.URL.Query(): the same, but '+' is a space and a part that is malformed or has a ';' is dropped. */
  function LenientPairs(parts: seq<Text>): seq<Param> {
    if parts == [] then []
    else
      var (name, value, _) := Cut(parts[0], "=");
      var n, v, rest := Unescape(name, true), Unescape(value, true), LenientPairs(parts[1..]);
      if parts[0] == [] || ';' in parts[0] || n.None? || v.None? then rest else [Param(n.value, v.value)] + rest
  }

  function LenientQuery(raw: Text): seq<Param> {
    LenientPairs(Split(raw, "&"))
  }

  lemma ParamLeIsTotal()
    ensures TotalOrder(ParamLe)
  {
    LeIsTotal();
    assert TotalOrder<Text>(Le);
    hide Le;
    forall a: Param, b: Param
      ensures ParamLe(a, b) || ParamLe(b, a)
      ensures ParamLe(a, b) && ParamLe(b, a) ==> a == b
    {
      assert Le(a.name, b.name) || Le(b.name, a.name);
      assert Le(a.value, b.value) || Le(b.value, a.value);
    }
    forall a: Param, b: Param, c: Param | ParamLe(a, b) && ParamLe(b, c)
      ensures ParamLe(a, c)
    {
      if a.name == b.name == c.name {
        assert Le(a.value, c.value);
      } else {
        assert Le(a.name, b.name) || a.name == b.name;
        assert Le(a.name, c.name) || a.name == c.name;
        assert a.name == c.name ==> Le(a.name, b.name) && Le(b.name, a.name);
      }
    }
  }

  /** The order of two parameters is that of their encodings. */
  predicate PairLe(a: Param, b: Param) {
    ParamLe(EncodeParam(a), EncodeParam(b))
  }

  lemma EncodeParamInjective(a: Param, b: Param)
    ensures EncodeParam(a) == EncodeParam(b) <==> a == b
  {
    EncodeInjective(a.name, b.name);
    EncodeInjective(a.value, b.value);
  }

  lemma PairLeIsTotal()
    ensures TotalOrder(PairLe)
  {
    ParamLeIsTotal();
    hide EncodeParam, ParamLe;
    forall a: Param, b: Param
      ensures PairLe(a, b) || PairLe(b, a)
      ensures PairLe(a, b) && PairLe(b, a) ==> a == b
    {
      EncodeParamInjective(a, b);
    }
  }

  lemma {:induction false} InsertEncoded(x: Param, s: seq<Param>)
    ensures Insert(ParamLe, EncodeParam(x), EncodeParams(s)) == EncodeParams(Insert(PairLe, x, s))
  {
    if s == [] || PairLe(x, s[0]) {
    } else {
      InsertEncoded(x, s[1..]);
      assert EncodeParams(s)[1..] == EncodeParams(s[1..]);
    }
  }

  /** Sorting the encoded parameters is encoding the sorted ones. */
  lemma {:induction false} SortEncoded(s: seq<Param>)
    ensures Sort(ParamLe, EncodeParams(s)) == EncodeParams(Sort(PairLe, s))
  {
    if s != [] {
      SortEncoded(s[1..]);
      InsertEncoded(s[0], Sort(PairLe, s[1..]));
      assert EncodeParams(s)[1..] == EncodeParams(s[1..]);
    }
  }

  /** An encoded parameter is cut at its own '=', and holds none of the bytes that structure a query. */
  lemma PrintedParam(p: Param)
    ensures var s := Print(EncodeParam(p));
            && Cut(s, "=") == (EncodeSegment(p.name), EncodeSegment(p.value), true)
            && s != [] && '&' !in s && ';' !in s && !Contains(s, "&")
  {
    hide EncodeSegment, Cut, Contains;
    EncodedFree(p.name, '=');
    EncodedBytes(p.name);
    EncodedBytes(p.value);
    CutFirst(EncodeSegment(p.name), "=", EncodeSegment(p.value));
    var s := Print(EncodeParam(p));
    assert '=' in s;
    assert '&' !in s && ';' !in s;
    AbsentByte(s, "&", 0);
  }

  lemma {:induction false} DecodePrinted(pairs: seq<Param>)
    ensures DecodePairs(PrintAll(EncodeParams(pairs))) == Some(pairs)
  {
    if pairs != [] {
      hide Cut, Print, EncodeSegment, Unescape;
      DecodePrinted(pairs[1..]);
      PrintedParam(pairs[0]);
      UnescapeEncode(pairs[0].name, false);
      UnescapeEncode(pairs[0].value, false);
      assert PrintAll(EncodeParams(pairs))[1..] == PrintAll(EncodeParams(pairs[1..]));
      assert pairs == [pairs[0]] + pairs[1..];
    }
  }

  lemma {:induction false} LenientPrinted(pairs: seq<Param>)
    ensures LenientPairs(PrintAll(EncodeParams(pairs))) == pairs
  {
    if pairs != [] {
      hide Cut, Print, EncodeSegment, Unescape;
      LenientPrinted(pairs[1..]);
      PrintedParam(pairs[0]);
      UnescapeEncode(pairs[0].name, true);
      UnescapeEncode(pairs[0].value, true);
      assert PrintAll(EncodeParams(pairs))[1..] == PrintAll(EncodeParams(pairs[1..]));
      assert pairs == [pairs[0]] + pairs[1..];
    }
  }

  lemma SplitPrinted(pairs: seq<Param>)
    requires pairs != []
    ensures Split(Join(PrintAll(EncodeParams(pairs)), "&"), "&") == PrintAll(EncodeParams(pairs))
  {
    var parts := PrintAll(EncodeParams(pairs));
    forall part | part in parts
      ensures !Contains(part, "&")
    {
      var i :| 0 <= i < |parts| && parts[i] == part;
      PrintedParam(pairs[i]);
    }
    SplitJoin(parts, "&");
  }

  /** Both readings of an encoded query give its parameters back, in canonical order. */
  lemma QueryRoundTrip(pairs: seq<Param>)
    ensures RawQuery(EncodeQuery(pairs)) == Some(Sort(PairLe, pairs))
    ensures LenientQuery(EncodeQuery(pairs)) == Sort(PairLe, pairs)
    ensures multiset(Sort(PairLe, pairs)) == multiset(pairs)
  {
    SortEncoded(pairs);
    PairLeIsTotal();
    SortSorts(PairLe, pairs);
    DecodePrinted(Sort(PairLe, pairs));
    LenientPrinted(Sort(PairLe, pairs));
    if pairs != [] {
      SplitPrinted(Sort(PairLe, pairs));
    } else {
      assert Split([], "&") == [[]];
    }
  }

  lemma SortedPairs(pairs: seq<Param>)
    ensures multiset(Sort(PairLe, pairs)) == multiset(pairs) && |Sort(PairLe, pairs)| == |pairs|
  {
    PairLeIsTotal();
    SortSorts(PairLe, pairs);
  }

  /** The canonical query depends on the multiset of parameters only, and determines it. */
  lemma QueryInjective(a: seq<Param>, b: seq<Param>)
    ensures EncodeQuery(a) == EncodeQuery(b) <==> multiset(a) == multiset(b)
  {
    SortEncoded(a);
    SortEncoded(b);
    QueryRoundTrip(a);
    QueryRoundTrip(b);
    PairLeIsTotal();
    SortUnique(PairLe, a, b);
  }

  // ---------- what the canonical query is, and what is read of any ----------

  /** Bytewise by encoded name, then by encoded value. */
  ghost predicate InQueryOrder(pairs: seq<Param>) {
    forall i, j | 0 <= i < j < |pairs| ::
      var a, b := EncodeParam(pairs[i]), EncodeParam(pairs[j]);
      Precedes(a.name, b.name) || (a.name == b.name && (a.value == b.value || Precedes(a.value, b.value)))
  }

  lemma QueryOrderIsSorted(pairs: seq<Param>)
    ensures InQueryOrder(pairs) <==> Sorted(PairLe, pairs)
  {
    hide EncodeParam, Precedes, StringLe;
    forall i, j | 0 <= i < j < |pairs|
      ensures var a, b := EncodeParam(pairs[i]), EncodeParam(pairs[j]);
              PairLe(pairs[i], pairs[j])
              <==> Precedes(a.name, b.name) || (a.name == b.name && (a.value == b.value || Precedes(a.value, b.value)))
    {
      var a, b := EncodeParam(pairs[i]), EncodeParam(pairs[j]);
      StringLeExact(a.name, b.name);
      StringLeExact(a.value, b.value);
      Irreflexive(a.name);
    }
  }

  /** The text of parameters in a given order. */
  ghost predicate SpellsQuery(sorted: seq<Param>, s: Text) {
    exists parts: seq<Text> ::
      && |parts| == |sorted| && Join(parts, "&") == s
      && forall i | 0 <= i < |parts| :: parts[i] == EncodeSegment(sorted[i].name) + "=" + EncodeSegment(sorted[i].value)
  }

  lemma SpelledOnce(sorted: seq<Param>, s: Text)
    ensures SpellsQuery(sorted, s) <==> s == Join(PrintAll(EncodeParams(sorted)), "&")
  {
    hide EncodeSegment, Join;
    var printed := PrintAll(EncodeParams(sorted));
    assert forall parts: seq<Text> | |parts| == |sorted|
        && (forall i | 0 <= i < |parts| :: parts[i] == EncodeSegment(sorted[i].name) + "=" + EncodeSegment(sorted[i].value)) ::
          parts == printed;
    assert |printed| == |sorted|
      && forall i | 0 <= i < |printed| :: printed[i] == EncodeSegment(sorted[i].name) + "=" + EncodeSegment(sorted[i].value);
  }

  /** The canonical query is the one text that spells the parameters, each as often as given, in bytewise order. */
  lemma QueryExact(pairs: seq<Param>, s: Text)
    ensures s == EncodeQuery(pairs)
        <==> exists sorted :: multiset(sorted) == multiset(pairs) && InQueryOrder(sorted) && SpellsQuery(sorted, s)
  {
    hide InQueryOrder, SpellsQuery, EncodeParam, Sorted, PrintAll, EncodeParams;
    PairLeIsTotal();
    SortSorts(PairLe, pairs);
    var own := Sort(PairLe, pairs);
    SortEncoded(pairs);
    QueryOrderIsSorted(own);
    SpelledOnce(own, s);
    forall sorted | multiset(sorted) == multiset(pairs) && InQueryOrder(sorted) && SpellsQuery(sorted, s)
      ensures s == EncodeQuery(pairs)
    {
      QueryOrderIsSorted(sorted);
      SortedUnique(PairLe, sorted, own);
      SpelledOnce(sorted, s);
    }
  }

  /** r.URL.Query() on one part of a query: a parameter without a value has the empty one, and an empty part, one with a
      semicolon and one that cannot be decoded are left out. */
  lemma LenientPart(name: Text, value: Text, bare: bool)
    requires '&' !in name && '&' !in value && '=' !in name && (bare ==> value == [])
    ensures var part, n, v := if bare then name else name + "=" + value, Unescape(name, true), Unescape(value, true);
            LenientQuery(part) == if part == [] || ';' in part || n.None? || v.None? then [] else [Param(n.value, v.value)]
  {
    hide Unescape;
    var part: Text := if bare then name else name + "=" + value;
    CutPart(name, value, bare);
    assert '&' !in part;
    AbsentByte(part, "&", 0);
    SplitOne(part, "&");
    hide Split, Cut;
    LenientAlone(part);
  }

  lemma LenientAlone(part: Text)
    ensures var n, v := Unescape(Cut(part, "=").0, true), Unescape(Cut(part, "=").1, true);
            LenientPairs([part]) == if part == [] || ';' in part || n.None? || v.None? then [] else [Param(n.value, v.value)]
  {
    hide Unescape, Cut;
    assert [part][1..] == [];
  }

  lemma CutPart(name: Text, value: Text, bare: bool)
    requires '=' !in name && (bare ==> value == [])
    ensures var part := if bare then name else name + "=" + value;
            Cut(part, "=").0 == name && Cut(part, "=").1 == value
  {
    hide Find;
    AbsentByte(name, "=", 0);
    if bare {
      FoundInside(name, "=");
    } else {
      CutFirst(name, "=", value);
    }
  }

  lemma SplitOne(s: Text, sep: Text)
    requires sep != [] && !Contains(s, sep)
    ensures Split(s, sep) == [s]
  {
  }

  lemma {:induction false} LenientAppend(a: seq<Text>, b: seq<Text>)
    ensures LenientPairs(a + b) == LenientPairs(a) + LenientPairs(b)
  {
    hide Unescape, Cut;
    if a == [] {
      assert a + b == b;
    } else {
      LenientAppend(a[1..], b);
      assert (a + b)[1..] == a[1..] + b;
    }
  }

  /** And of a whole query, what is read of its parts. */
  lemma LenientParts(a: Text, b: Text)
    ensures LenientQuery(a + "&" + b) == LenientQuery(a) + LenientQuery(b)
  {
    hide Split, LenientPairs;
    SplitAt(a, "&", b);
    LenientAppend(Split(a, "&"), Split(b, "&"));
  }

  /** The canonical reading of one part: without a semicolon rule and without '+', and nothing at all if it cannot be
      decoded. */
  lemma RawPart(name: Text, value: Text, bare: bool)
    requires '&' !in name && '&' !in value && '=' !in name && (bare ==> value == [])
    ensures var part, n, v := if bare then name else name + "=" + value, Unescape(name, false), Unescape(value, false);
            RawQuery(part) == if part == [] then Some([]) else if n.None? || v.None? then None else Some([Param(n.value, v.value)])
  {
    hide Unescape;
    var part: Text := if bare then name else name + "=" + value;
    CutPart(name, value, bare);
    assert '&' !in part;
    AbsentByte(part, "&", 0);
    SplitOne(part, "&");
    hide Split, Cut;
    RawAlone(part);
  }

  lemma RawAlone(part: Text)
    ensures var n, v := Unescape(Cut(part, "=").0, false), Unescape(Cut(part, "=").1, false);
            DecodePairs([part])
            == if part == [] then Some([]) else if n.None? || v.None? then None else Some([Param(n.value, v.value)])
  {
    hide Unescape, Cut;
    assert [part][1..] == [] && DecodePairs([]) == Some([]);
    assert forall p: Param :: [p] + [] == [p];
  }

  lemma {:induction false} DecodeAppend(a: seq<Text>, b: seq<Text>)
    ensures DecodePairs(a + b) == if DecodePairs(a).None? || DecodePairs(b).None? then None
                                  else Some(DecodePairs(a).value + DecodePairs(b).value)
  {
    hide Unescape, Cut;
    if a == [] {
      assert a + b == b;
      assert DecodePairs(b).Some? ==> [] + DecodePairs(b).value == DecodePairs(b).value;
    } else {
      DecodeAppend(a[1..], b);
      assert (a + b)[1..] == a[1..] + b && (a + b)[0] == a[0];
      var (name, value, _) := Cut(a[0], "=");
      var n, v, rest := Unescape(name, false), Unescape(value, false), DecodePairs(a[1..]);
      if n.Some? && v.Some? && rest.Some? && DecodePairs(b).Some? {
        Assoc([Param(n.value, v.value)], rest.value, DecodePairs(b).value);
      }
    }
  }

  lemma RawParts(a: Text, b: Text)
    ensures RawQuery(a + "&" + b) == if RawQuery(a).None? || RawQuery(b).None? then None
                                     else Some(RawQuery(a).value + RawQuery(b).value)
  {
    hide Split, DecodePairs;
    SplitAt(a, "&", b);
    DecodeAppend(Split(a, "&"), Split(b, "&"));
  }

  // ---------- url.Values ----------

  /** url.Values.Has. */
  predicate Has(pairs: seq<Param>, name: Text) {
    exists i | 0 <= i < |pairs| :: pairs[i].name == name
  }

  /** url.Values.Get: the first value of a name, or the empty text. */
  function First(pairs: seq<Param>, name: Text): Text {
    if pairs == [] then [] else if pairs[0].name == name then pairs[0].value else First(pairs[1..], name)
  }

  lemma {:induction false} FirstIs(pairs: seq<Param>, p: Param)
    requires p in pairs && forall q | q in pairs && q.name == p.name :: q == p
    ensures First(pairs, p.name) == p.value
  {
    if pairs[0].name == p.name {
      assert pairs[0] in pairs;
    } else {
      FirstIs(pairs[1..], p);
    }
  }

  /** The value of the first parameter of that name. */
  lemma {:induction false} FirstExact(pairs: seq<Param>, name: Text)
    ensures Has(pairs, name) ==> exists i | 0 <= i < |pairs| ::
              pairs[i] == Param(name, First(pairs, name)) && forall j | 0 <= j < i :: pairs[j].name != name
    ensures !Has(pairs, name) ==> First(pairs, name) == []
  {
    if pairs != [] {
      FirstExact(pairs[1..], name);
      if pairs[0].name == name {
        assert pairs[0] == Param(name, First(pairs, name));
      } else if i :| 0 <= i < |pairs| && pairs[i].name == name {
        assert pairs[1..][i - 1].name == name;
        var k :| 0 <= k < |pairs[1..]| && pairs[1..][k] == Param(name, First(pairs, name))
          && forall j | 0 <= j < k :: pairs[1..][j].name != name;
        assert pairs[k + 1] == Param(name, First(pairs, name));
        assert forall j | 0 <= j < k + 1 :: j == 0 || pairs[j] == pairs[1..][j - 1];
      }
    }
  }

  /** A map from each name to its values in order. */
  type Values = map<Text, seq<Text>>

  function Add(q: Values, name: Text, value: Text): Values {
    q[name := (if name in q then q[name] else []) + [value]]
  }

  function Collect(pairs: seq<Param>): Values {
    if pairs == [] then map[] else Add(Collect(pairs[..|pairs| - 1]), pairs[|pairs| - 1].name, pairs[|pairs| - 1].value)
  }

  /** The multiplicity of a parameter in the map. */
  function Times(q: Values, p: Param): nat {
    if p.name in q then multiset(q[p.name])[p.value] else 0
  }

  /** The list holds exactly the parameters of the map, in any order. */
  ghost predicate Lists(q: Values, pairs: seq<Param>) {
    forall p: Param :: multiset(pairs)[p] == Times(q, p)
  }

  lemma ListsAgree(q: Values, a: seq<Param>, b: seq<Param>)
    requires Lists(q, a) && Lists(q, b)
    ensures multiset(a) == multiset(b) && EncodeQuery(a) == EncodeQuery(b)
  {
    assert multiset(a) == multiset(b);
    QueryInjective(a, b);
  }

  lemma AddLists(q: Values, pairs: seq<Param>, p: Param)
    requires Lists(q, pairs)
    ensures Lists(Add(q, p.name, p.value), pairs + [p])
  {
    var values := if p.name in q then q[p.name] else [];
    assert multiset(values + [p.value]) == multiset(values) + multiset{p.value};
  }

  lemma NothingListed()
    ensures Lists(map[], []) && EncodeParams([]) == []
  {
  }

  lemma NoValues(q: Values, pairs: seq<Param>, name: Text)
    requires Lists(q, pairs) && name !in q
    ensures Lists(q[name := []], pairs)
  {
  }

  lemma {:induction false} AppendEncoded(pairs: seq<Param>, p: Param)
    ensures EncodeParams(pairs + [p]) == EncodeParams(pairs) + [EncodeParam(p)]
  {
    if pairs == [] {
      assert pairs + [p] == [p];
    } else {
      AppendEncoded(pairs[1..], p);
      assert (pairs + [p])[1..] == pairs[1..] + [p];
    }
  }

  lemma {:induction false} CollectLists(pairs: seq<Param>)
    ensures Lists(Collect(pairs), pairs)
  {
    if pairs != [] {
      var before := pairs[..|pairs| - 1];
      CollectLists(before);
      AddLists(Collect(before), before, pairs[|pairs| - 1]);
      assert pairs == before + [pairs[|pairs| - 1]];
    }
  }

  /** The map is visited in whatever order; the result is the canonical query of any list of its parameters. */
  method QueryEncoder(params: Values) returns (s: Text)
    ensures forall pairs | Lists(params, pairs) :: s == EncodeQuery(pairs)
  {
    hide Lists, EncodeSegment, EncodeParams, Times, PercentEncoded;
    var encoded: seq<Param> := [];
    ghost var listed: seq<Param>, visited: Values := [], map[];
    NothingListed();
    var names := params.Keys;
    while names != {}
      invariant names !! visited.Keys && names + visited.Keys == params.Keys
      invariant forall n | n in visited :: visited[n] == params[n]
      invariant Lists(visited, listed) && encoded == EncodeParams(listed)
      decreases names
    {
      var name :| name in names;
      var values := params[name];
      ghost var before := visited;
      visited := before[name := []];
      NoValues(before, listed, name);
      for i := 0 to |values|
        invariant visited == before[name := values[..i]]
        invariant Lists(visited, listed) && encoded == EncodeParams(listed)
      {
        var n := SegmentEncoder(name);
        var v := SegmentEncoder(values[i]);
        AddLists(visited, listed, Param(name, values[i]));
        AppendEncoded(listed, Param(name, values[i]));
        assert values[..i + 1] == values[..i] + [values[i]];
        visited := Add(visited, name, values[i]);
        encoded := encoded + [Param(n, v)];
        listed := listed + [Param(name, values[i])];
      }
      assert values[..|values|] == values;
      names := names - {name};
    }
    assert visited == params;
    var sorted := Sort(ParamLe, encoded);
    var parts: seq<Text> := [];
    for i := 0 to |sorted|
      invariant |parts| == i && forall j | 0 <= j < i :: parts[j] == Print(sorted[j])
    {
      parts := parts + [sorted[i].name + "=" + sorted[i].value];
    }
    assert parts == PrintAll(sorted);
    s := Join(parts, "&");
    assert s == EncodeQuery(listed);
    forall pairs | Lists(params, pairs)
      ensures s == EncodeQuery(pairs)
    {
      ListsAgree(params, listed, pairs);
    }
  }

  function Prepend(pairs: seq<Param>, rest: Option<seq<Param>>): Option<seq<Param>> {
    if rest.None? then None else Some(pairs + rest.value)
  }

  /** internal/httpapi/query.go: nil on the first part that does not decode. */
  method QueryParser(raw: Text) returns (query: Option<Values>)
    ensures query == if RawQuery(raw).Some? then Some(Collect(RawQuery(raw).value)) else None
  {
    hide Unescape, Cut, Split, Add;
    var parts := Split(raw, "&");
    var values: Values := map[];
    ghost var pairs: seq<Param> := [];
    assert parts[0..] == parts;
    assert Prepend(pairs, DecodePairs(parts)) == DecodePairs(parts) by {
      PrependMore([], Param([], []), DecodePairs(parts));
    }
    for i := 0 to |parts|
      invariant values == Collect(pairs)
      invariant RawQuery(raw) == Prepend(pairs, DecodePairs(parts[i..]))
    {
      assert parts[i..][1..] == parts[i + 1..] && parts[i..][0] == parts[i];
      if parts[i] != [] {
        var (name, val, _) := Cut(parts[i], "=");
        var n, v := Unescape(name, false), Unescape(val, false);
        if n.None? || v.None? {
          return None;
        }
        ghost var p := Param(n.value, v.value);
        values := Add(values, n.value, v.value);
        assert (pairs + [p])[..|pairs|] == pairs;
        PrependMore(pairs, p, DecodePairs(parts[i + 1..]));
        pairs := pairs + [p];
      }
    }
    assert parts[|parts|..] == [] && pairs + [] == pairs;
    query := Some(values);
  }

  lemma PrependMore(pairs: seq<Param>, p: Param, rest: Option<seq<Param>>)
    ensures Prepend(pairs, Prepend([p], rest)) == Prepend(pairs + [p], rest)
    ensures Prepend([], rest) == rest
  {
    if rest.Some? {
      assert pairs + ([p] + rest.value) == pairs + [p] + rest.value;
      assert [] + rest.value == rest.value;
    }
  }
}
