/** The second implementation of the canonical request, over lists: sdk/typescript/src/wire/encode.ts and sign.ts. */
module WireSign {
  import opened Wrappers
  import opened Text
  import opened Encode
  import opened Signing

  // ---------- encode.ts ----------

  ghost predicate Marks(table: array<bool>)
    reads table
  {
    table.Length == 256 && forall b | 0 <= b < 256 :: table[b] <==> Unreserved(b as char)
  }

  /** The table of unreserved bytes. */
  method UnreservedTable() returns (table: array<bool>)
    ensures fresh(table) && Marks(table)
  {
    table := new bool[256](_ => false);
    for b := 65 to 91
      invariant forall k | 0 <= k < 256 :: table[k] <==> 65 <= k < b
    {
      table[b] := true;
    }
    for b := 97 to 123
      invariant forall k | 0 <= k < 256 :: table[k] <==> 65 <= k < 91 || 97 <= k < b
    {
      table[b] := true;
    }
    for b := 48 to 58
      invariant forall k | 0 <= k < 256 :: table[k] <==> 65 <= k < 91 || 97 <= k < 123 || 48 <= k < b
    {
      table[b] := true;
    }
    table['-' as int] := true;
    table['.' as int] := true;
    table['_' as int] := true;
    table['~' as int] := true;
  }

  /** Number.prototype.toString(16), then toUpperCase. */
  function HexString(n: nat): Text
    requires n < 256
  {
    if n < 16 then [HexDigit(n)] else [HexDigit(n / 16), HexDigit(n % 16)]
  }

  /** "%" and two digits, padded with a zero. */
  function HexEntry(n: nat): Text
    requires n < 256
  {
    var digits := HexString(n);
    "%" + (if |digits| < 2 then "0" + digits else digits)
  }

  method EncodeSegmentByTable(segment: Text, table: array<bool>) returns (out: Text)
    requires Marks(table)
    ensures out == EncodeSegment(segment) && PercentEncoded(segment, out)
  {
    out := [];
    for i := 0 to |segment|
      invariant out + EncodeSegment(segment[i..]) == EncodeSegment(segment)
    {
      var b := segment[i] as int;
      ghost var before := out;
      out := out + if table[b] then [segment[i]] else HexEntry(b);
      assert out == before + EncodeByte(segment[i]);
      hide EncodeByte;
      assert segment[i..][1..] == segment[i + 1..];
      Assoc(before, EncodeByte(segment[i]), EncodeSegment(segment[i + 1..]));
    }
    EncodedExact(segment, out);
  }

  method EncodeQueryList(pairs: seq<Param>, table: array<bool>) returns (s: Text)
    requires Marks(table)
    ensures s == EncodeQuery(pairs)
  {
    hide EncodeSegment, Join, Sort, Marks, PercentEncoded;
    var encoded: seq<Param> := [];
    for i := 0 to |pairs|
      invariant |encoded| == i && forall j | 0 <= j < i :: encoded[j] == EncodeParam(pairs[j])
    {
      var name := EncodeSegmentByTable(pairs[i].name, table);
      var value := EncodeSegmentByTable(pairs[i].value, table);
      encoded := encoded + [Param(name, value)];
    }
    assert encoded == EncodeParams(pairs);
    s := Join(PrintAll(Sort(ParamLe, encoded)), "&");
  }

  // ---------- collapse ----------

  function TrimStart(s: Text): (t: Text)
    ensures |t| <= |s|
    ensures t != [] ==> !Space(t[0]) && s != [] && t[|t| - 1] == s[|s| - 1]
  {
    if s != [] && Space(s[0]) then TrimStart(s[1..]) else s
  }

  function TrimEnd(s: Text): (t: Text)
    ensures t <= s && (t != [] ==> !Space(t[|t| - 1]))
  {
    if s != [] && Space(s[|s| - 1]) then TrimEnd(s[..|s| - 1]) else s
  }

  /** split(/\s+/): the pieces between runs of white space; `piece` is the one being read. */
  function Pieces(piece: Text, s: Text): seq<Text>
    decreases |s|
  {
    if s == [] then [piece]
    else if !Space(s[0]) then Pieces(piece + [s[0]], s[1..])
    else [piece] + Pieces([], TrimStart(s[1..]))
  }

  function WireCollapse(s: Text): Text {
    Join(Pieces([], TrimEnd(TrimStart(s))), " ")
  }

  lemma {:induction false} LeadingSpace(s: Text)
    ensures FieldsFrom([], TrimStart(s)) == FieldsFrom([], s)
  {
    if s != [] && Space(s[0]) {
      LeadingSpace(s[1..]);
    }
  }

  lemma {:induction false} TrailingByte(run: Text, s: Text, c: Byte)
    requires Space(c)
    ensures FieldsFrom(run, s + [c]) == FieldsFrom(run, s)
    decreases |s|
  {
    if s == [] {
      assert s + [c] == [c] && [c][1..] == [];
    } else {
      assert (s + [c])[1..] == s[1..] + [c];
      TrailingByte(if Space(s[0]) then [] else run + [s[0]], s[1..], c);
    }
  }

  lemma {:induction false} TrailingSpace(s: Text)
    ensures FieldsFrom([], TrimEnd(s)) == FieldsFrom([], s)
    decreases |s|
  {
    if s != [] && Space(s[|s| - 1]) {
      TrailingSpace(s[..|s| - 1]);
      TrailingByte([], s[..|s| - 1], s[|s| - 1]);
      assert s == s[..|s| - 1] + [s[|s| - 1]];
    }
  }

  lemma {:induction false} PiecesAreFields(piece: Text, s: Text)
    requires piece + s != [] && (s != [] ==> !Space(s[|s| - 1]) && (piece == [] ==> !Space(s[0])))
    ensures Pieces(piece, s) == FieldsFrom(piece, s)
    decreases |s|
  {
    if s != [] {
      if !Space(s[0]) {
        PiecesAreFields(piece + [s[0]], s[1..]);
      } else {
        var rest := TrimStart(s[1..]);
        EndsSolid(s[1..]);
        PiecesAreFields([], rest);
        LeadingSpace(s[1..]);
      }
    }
  }

  lemma {:induction false} EndsSolid(s: Text)
    requires s != [] && !Space(s[|s| - 1])
    ensures TrimStart(s) != [] && !Space(TrimStart(s)[|TrimStart(s)| - 1])
  {
    if Space(s[0]) {
      EndsSolid(s[1..]);
    }
  }

  /** Both clients sign the same header value. */
  lemma CollapseAgrees(s: Text)
    ensures WireCollapse(s) == Collapse(s)
  {
    var t := TrimEnd(TrimStart(s));
    LeadingSpace(s);
    TrailingSpace(TrimStart(s));
    assert t != [] ==> t[0] == TrimStart(s)[0];
    if t != [] {
      assert [] + t == t;
      PiecesAreFields([], t);
    }
  }

  // ---------- sign.ts ----------

  /** The entries of a headers object: each name once. */
  predicate Entries(headers: seq<(Text, Text)>) {
    forall i, j | 0 <= i < j < |headers| :: headers[i].0 != headers[j].0
  }

  function AsMap(headers: seq<(Text, Text)>): map<Text, Text> {
    if headers == [] then map[] else AsMap(headers[1..])[headers[0].0 := headers[0].1]
  }

  lemma {:induction false} AsMapHas(headers: seq<(Text, Text)>)
    requires Entries(headers)
    ensures forall i | 0 <= i < |headers| :: headers[i].0 in AsMap(headers) && AsMap(headers)[headers[i].0] == headers[i].1
    ensures forall k | k in AsMap(headers) :: exists i | 0 <= i < |headers| :: headers[i].0 == k
  {
    if headers != [] {
      AsMapHas(headers[1..]);
      forall k | k in AsMap(headers)
        ensures exists i | 0 <= i < |headers| :: headers[i].0 == k
      {
        if k != headers[0].0 {
          var i :| 0 <= i < |headers[1..]| && headers[1..][i].0 == k;
          assert headers[i + 1].0 == k;
        }
      }
    }
  }

  /** The first entry whose lower-cased name is the given one. */
  method WireHeaderValue(headers: seq<(Text, Text)>, name: Text) returns (value: Option<Text>)
    requires Entries(headers) && CaseDistinct(AsMap(headers)) && Lower(name) == name
    ensures value == HeaderValue(AsMap(headers), name)
  {
    hide AsMap, HeaderValue, CaseDistinct, Entries, Lower;
    AsMapHas(headers);
    for i := 0 to |headers|
      invariant forall j | 0 <= j < i :: Lower(headers[j].0) != name
    {
      if Lower(headers[i].0) == name {
        SameValue(AsMap(headers), name, headers[i].0);
        return Some(headers[i].1);
      }
    }
    forall k | k in AsMap(headers)
      ensures !SameName(k, name)
    {
      var i :| 0 <= i < |headers| && headers[i].0 == k;
    }
    NoValue(AsMap(headers), name);
    return None;
  }

  method PresignPairsList(req: Request, keyId: Text, expires: int) returns (pairs: seq<Param>)
    ensures pairs == PresignPairs(req, keyId, expires)
  {
    var own := {PARAM_KEY, PARAM_EXPIRES, PARAM_HEADERS};
    pairs := [];
    assert req.query[0..] == req.query;
    for i := 0 to |req.query|
      invariant pairs + Foreign(req.query[i..]) == Foreign(req.query)
    {
      assert req.query[i..][0] == req.query[i] && req.query[i..][1..] == req.query[i + 1..];
      if req.query[i].name !in own {
        Assoc(pairs, [req.query[i]], Foreign(req.query[i + 1..]));
        pairs := pairs + [req.query[i]];
      } else {
        assert [] + Foreign(req.query[i + 1..]) == Foreign(req.query[i + 1..]);
      }
    }
    assert pairs == Foreign(req.query);
    pairs := pairs + [Param(PARAM_KEY, keyId), Param(PARAM_EXPIRES, Decimal(expires)),
                      Param(PARAM_HEADERS, Join(SignedNames(req.signed), ";"))];
  }

  /** The list-of-pairs canonical request is that of sig.Canonical. */
  method WireCanonical(
      verb: Text, path: seq<Text>, query: seq<Param>, headers: seq<(Text, Text)>, signed: seq<Text>,
      keyId: Text, time: int, mode: Mode)
    returns (s: Text)
    requires Entries(headers) && CaseDistinct(AsMap(headers))
    ensures s == Canonical(Request(verb, path, query, AsMap(headers), signed), keyId, time, mode)
  {
    hide Foreign, EncodeQuery, EncodePath, Join, HeaderValue, Entry, CaseDistinct, Entries, Marks, AsMap, SignedNames,
      Decimal, WireCollapse;
    var req := Request(verb, path, query, AsMap(headers), signed);
    var names := SignedNames(signed);
    NamesAreLower(signed);
    var block: seq<Text> := [];
    assert names[0..] == names;
    for i := 0 to |names|
      invariant block + HeaderBlock(req.headers, names[i..]) == HeaderBlock(req.headers, names)
    {
      assert names[i..][0] == names[i] && names[i..][1..] == names[i + 1..] && names[i] in names;
      var value := WireHeaderValue(headers, names[i]);
      if value.Some? {
        WireEntry(names[i], value.value);
        Assoc(block, [Entry(names[i], value.value)], HeaderBlock(req.headers, names[i + 1..]));
        block := block + [names[i] + ":" + WireCollapse(value.value)];
      } else {
        assert [] + HeaderBlock(req.headers, names[i + 1..]) == HeaderBlock(req.headers, names[i + 1..]);
      }
    }
    assert block == HeaderBlock(req.headers, names);
    var table := UnreservedTable();
    var queryLine: Text;
    if mode.Header? {
      queryLine := EncodeQueryList(query, table);
    } else {
      var pairs := PresignPairsList(req, keyId, time);
      queryLine := EncodeQueryList(pairs, table);
    }
    s := Join([SCHEME, verb, EncodePath(path), queryLine, Join(names, ";"), Join(block, "\n"), Decimal(time)], "\n");
  }

  lemma WireEntry(name: Text, value: Text)
    ensures name + ":" + WireCollapse(value) == Entry(name, value)
  {
    CollapseAgrees(value);
  }

  lemma NamesAreLower(signed: seq<Text>)
    ensures forall name | name in SignedNames(signed) :: Lower(name) == name
  {
    hide Lower;
    NamesOf(signed);
    forall name | name in SignedNames(signed)
      ensures Lower(name) == name
    {
      var given :| given in signed && name == Lower(given);
      LowerTwice(given);
    }
  }

  /** Both implementations sign the same string: a map of lists and a list of pairs with the same parameters. */
  lemma QueryOrderIsIrrelevant(req: Request, values: Values, listed: seq<Param>, keyId: Text, time: int, mode: Mode)
    requires Lists(values, listed) && Lists(values, req.query)
    ensures Canonical(req.(query := listed), keyId, time, mode) == Canonical(req, keyId, time, mode)
  {
    hide EncodeQuery, EncodePath, SignedNames, Sort, Decimal, Lists;
    ListsAgree(values, listed, req.query);
    var other, own := req.(query := listed), OwnPairs(req.signed, keyId, time);
    forall p: Param
      ensures multiset(Foreign(listed))[p] == multiset(Foreign(req.query))[p]
    {
      ForeignTimes(listed, p);
      ForeignTimes(req.query, p);
    }
    assert multiset(Foreign(listed)) == multiset(Foreign(req.query));
    assert multiset(Foreign(listed) + own) == multiset(Foreign(req.query) + own);
    QueryInjective(PresignPairs(other, keyId, time), PresignPairs(req, keyId, time));
    SameCanonical(other, keyId, req, keyId, time, mode);
  }
}
