/** The canonical request that is signed: sig/sign.go. */
module Signing {
  import opened Wrappers
  import opened Text
  import opened Encode

  const SCHEME: Text := "TUNNA1"
  const PARAM_KEY: Text := "x-tunna-key"
  const PARAM_EXPIRES: Text := "x-tunna-expires"
  const PARAM_SIG: Text := "x-tunna-sig"
  const PARAM_HEADERS: Text := "x-tunna-headers"

  datatype Mode = Header | Presign

  /** What a signature binds. The query is a list of parameters; where Go has a map of lists, any list of it will do. */
  datatype Request = Request(verb: Text, path: seq<Text>, query: seq<Param>, headers: map<Text, Text>, signed: seq<Text>)

  // ---------- signed headers ----------

  function LowerAll(names: seq<Text>): (lowered: seq<Text>)
    ensures |lowered| == |names| && forall i | 0 <= i < |names| :: lowered[i] == Lower(names[i])
  {
    if names == [] then [] else [Lower(names[0])] + LowerAll(names[1..])
  }

  function SignedNames(signed: seq<Text>): seq<Text> {
    Sort(Le, LowerAll(signed))
  }

  method SignedHeaderNames(signed: seq<Text>) returns (names: seq<Text>)
    ensures names == SignedNames(signed)
  {
    names := [];
    for i := 0 to |signed|
      invariant |names| == i && forall j | 0 <= j < i :: names[j] == Lower(signed[j])
    {
      names := names + [Lower(signed[i])];
    }
    assert names == LowerAll(signed);
    names := Sort(Le, names);
  }

  predicate SameName(a: Text, b: Text) {
    Lower(a) == Lower(b)
  }

  ghost predicate CaseDistinct(headers: map<Text, Text>) {
    forall j, k | j in headers && k in headers && SameName(j, k) :: j == k
  }

  /** The value of a header, its name in any case. */
  ghost function HeaderValue(headers: map<Text, Text>, name: Text): Option<Text> {
    if exists k :: k in headers && SameName(k, name) then
      var k :| k in headers && SameName(k, name);
      Some(headers[k])
    else None
  }

  lemma SameValue(headers: map<Text, Text>, name: Text, k: Text)
    requires CaseDistinct(headers) && k in headers && SameName(k, name)
    ensures HeaderValue(headers, name) == Some(headers[k])
  {
  }

  lemma NoValue(headers: map<Text, Text>, name: Text)
    requires forall k | k in headers :: !SameName(k, name)
    ensures HeaderValue(headers, name) == None
  {
  }

  /** The map is searched in whatever order. */
  method HeaderFinder(headers: map<Text, Text>, name: Text) returns (value: Option<Text>)
    ensures CaseDistinct(headers) ==> value == HeaderValue(headers, name)
    ensures value.None? ==> forall k | k in headers :: !SameName(k, name)
    ensures value.Some? ==> exists k | k in headers :: SameName(k, name) && headers[k] == value.value
  {
    var rest := headers.Keys;
    while rest != {}
      invariant rest <= headers.Keys
      invariant forall k | k in headers && SameName(k, name) :: k in rest
      decreases rest
    {
      var k :| k in rest;
      if SameName(k, name) {
        return Some(headers[k]);
      }
      rest := rest - {k};
    }
    return None;
  }

  function Entry(name: Text, value: Text): Text {
    name + ":" + Collapse(value)
  }

  /** One line for each signed header that the request has. */
  ghost function HeaderBlock(headers: map<Text, Text>, names: seq<Text>): seq<Text> {
    if names == [] then []
    else
      var value := HeaderValue(headers, names[0]);
      (if value.Some? then [Entry(names[0], value.value)] else []) + HeaderBlock(headers, names[1..])
  }

  // ---------- the presigned query ----------

  predicate Own(name: Text) {
    name == PARAM_KEY || name == PARAM_EXPIRES || name == PARAM_HEADERS
  }

  /** The parameters a signer may not bring along. */
  function Foreign(query: seq<Param>): seq<Param> {
    if query == [] then [] else (if Own(query[0].name) then [] else [query[0]]) + Foreign(query[1..])
  }

  function OwnPairs(signed: seq<Text>, keyId: Text, expires: int): seq<Param> {
    [Param(PARAM_KEY, keyId), Param(PARAM_EXPIRES, Decimal(expires)), Param(PARAM_HEADERS, Join(SignedNames(signed), ";"))]
  }

  function PresignPairs(req: Request, keyId: Text, expires: int): seq<Param> {
    Foreign(req.query) + OwnPairs(req.signed, keyId, expires)
  }

  /** url.Values.Set. */
  function Put(q: Values, name: Text, value: Text): Values {
    q[name := [value]]
  }

  lemma {:induction false} ForeignTimes(query: seq<Param>, p: Param)
    ensures multiset(Foreign(query))[p] == if Own(p.name) then 0 else multiset(query)[p]
  {
    if query != [] {
      ForeignTimes(query[1..], p);
      assert query == [query[0]] + query[1..];
    }
  }

  method PresignValues(query: Values, signed: seq<Text>, keyId: Text, expires: int) returns (values: Values)
    ensures forall pairs, verb, path, headers | Lists(query, pairs) ::
              Lists(values, PresignPairs(Request(verb, path, pairs, headers, signed), keyId, expires))
  {
    var names := SignedHeaderNames(signed);
    values := query;
    values := Put(values, PARAM_KEY, keyId);
    values := Put(values, PARAM_EXPIRES, Decimal(expires));
    values := Put(values, PARAM_HEADERS, Join(names, ";"));
    forall pairs, verb, path, headers | Lists(query, pairs)
      ensures Lists(values, PresignPairs(Request(verb, path, pairs, headers, signed), keyId, expires))
    {
      PresignLists(query, pairs, OwnPairs(signed, keyId, expires), values);
    }
  }

  /** The three parameters a presigned query adds. */
  predicate OwnTriple(own: seq<Param>) {
    |own| == 3 && own[0].name == PARAM_KEY && own[1].name == PARAM_EXPIRES && own[2].name == PARAM_HEADERS
  }

  lemma OwnTripleNames(own: seq<Param>)
    requires OwnTriple(own)
    ensures own[0].name != own[1].name && own[0].name != own[2].name && own[1].name != own[2].name
    ensures forall name :: Own(name) <==> name == own[0].name || name == own[1].name || name == own[2].name
  {
    assert |PARAM_KEY| == 11 && |PARAM_EXPIRES| == 15 && |PARAM_HEADERS| == 15;
    assert PARAM_EXPIRES[8] == 'e' && PARAM_HEADERS[8] == 'h';
  }

  lemma TripleTimes(own: seq<Param>, p: Param)
    requires |own| == 3
    ensures multiset(own)[p] == (if own[0] == p then 1 else 0) + (if own[1] == p then 1 else 0) + (if own[2] == p then 1 else 0)
  {
    assert own == [own[0], own[1], own[2]];
  }

  lemma PresignTimes(query: Values, pairs: seq<Param>, own: seq<Param>, values: Values, p: Param)
    requires multiset(pairs)[p] == Times(query, p) && OwnTriple(own)
    requires values == Put(Put(Put(query, own[0].name, own[0].value), own[1].name, own[1].value), own[2].name, own[2].value)
    ensures multiset(Foreign(pairs))[p] + multiset(own)[p] == Times(values, p)
  {
    ForeignTimes(pairs, p);
    OwnTripleNames(own);
    TripleTimes(own, p);
    hide Own, OwnTriple, Foreign;
    if !Own(p.name) {
      assert Times(values, p) == Times(query, p);
    } else if p.name == own[0].name {
      assert values[p.name] == [own[0].value];
    } else if p.name == own[1].name {
      assert values[p.name] == [own[1].value];
    } else {
      assert values[p.name] == [own[2].value];
    }
  }

  /** Setting three names in the map is dropping them from the list and appending them. */
  lemma PresignLists(query: Values, pairs: seq<Param>, own: seq<Param>, values: Values)
    requires Lists(query, pairs) && OwnTriple(own)
    requires values == Put(Put(Put(query, own[0].name, own[0].value), own[1].name, own[1].value), own[2].name, own[2].value)
    ensures Lists(values, Foreign(pairs) + own)
  {
    hide Own, OwnTriple, Foreign, Times;
    forall p: Param
      ensures multiset(Foreign(pairs) + own)[p] == Times(values, p)
    {
      PresignTimes(query, pairs, own, values, p);
      assert multiset(Foreign(pairs) + own) == multiset(Foreign(pairs)) + multiset(own);
    }
  }

  // ---------- the seven lines ----------

  /** The parameters that are signed. */
  function SignedQuery(req: Request, keyId: Text, time: int, mode: Mode): seq<Param> {
    if mode.Header? then req.query else PresignPairs(req, keyId, time)
  }

  ghost function QueryLine(req: Request, keyId: Text, time: int, mode: Mode): Text {
    EncodeQuery(SignedQuery(req, keyId, time, mode))
  }

  ghost function Canonical(req: Request, keyId: Text, time: int, mode: Mode): Text {
    var names := SignedNames(req.signed);
    Join([SCHEME, req.verb, EncodePath(req.path), QueryLine(req, keyId, time, mode), Join(names, ";"),
          Join(HeaderBlock(req.headers, names), "\n"), Decimal(time)], "\n")
  }

  /** sig.Canonical, on a query held as a map. */
  method CanonicalBuilder(
      verb: Text, path: seq<Text>, query: Values, headers: map<Text, Text>, signed: seq<Text>,
      keyId: Text, time: int, mode: Mode)
    returns (s: Text)
    requires CaseDistinct(headers)
    ensures forall pairs | Lists(query, pairs) ::
              s == Canonical(Request(verb, path, pairs, headers, signed), keyId, time, mode)
  {
    hide Lists, Foreign, EncodeQuery, EncodePath, Join, HeaderValue, Entry;
    var names := SignedHeaderNames(signed);
    var block: seq<Text> := [];
    assert names[0..] == names;
    for i := 0 to |names|
      invariant block + HeaderBlock(headers, names[i..]) == HeaderBlock(headers, names)
    {
      assert names[i..][1..] == names[i + 1..];
      var found := HeaderFinder(headers, names[i]);
      if found.Some? {
        Assoc(block, [Entry(names[i], found.value)], HeaderBlock(headers, names[i + 1..]));
        block := block + [Entry(names[i], found.value)];
      } else {
        assert [] + HeaderBlock(headers, names[i + 1..]) == HeaderBlock(headers, names[i + 1..]);
      }
    }
    assert block == HeaderBlock(headers, names);
    var queryLine: Text;
    if mode.Header? {
      queryLine := QueryEncoder(query);
    } else {
      var values := PresignValues(query, signed, keyId, time);
      queryLine := QueryEncoder(values);
    }
    var pathLine := PathEncoder(path);
    s := Join([SCHEME, verb, pathLine, queryLine, Join(names, ";"), Join(block, "\n"), Decimal(time)], "\n");
    forall pairs | Lists(query, pairs)
      ensures s == Canonical(Request(verb, path, pairs, headers, signed), keyId, time, mode)
    {
      var req := Request(verb, path, pairs, headers, signed);
      assert mode.Presign? ==> queryLine == EncodeQuery(PresignPairs(req, keyId, time));
    }
  }

  // ---------- the canonical request determines the request ----------

  /** No line of the canonical request can be mistaken for another. */
  predicate WellFormed(req: Request) {
    && '\n' !in req.verb
    && (forall name | name in req.signed :: name != [] && '\n' !in name && ';' !in name && ':' !in name)
  }

  /** What two requests must share to be signed alike. */
  ghost predicate SameHeaders(a: Request, b: Request) {
    && SignedNames(a.signed) == SignedNames(b.signed)
    && forall name | name in SignedNames(a.signed) ::
         SignedValue(a.headers, name) == SignedValue(b.headers, name)
  }

  ghost function SignedValue(headers: map<Text, Text>, name: Text): Option<Text> {
    var value := HeaderValue(headers, name);
    if value.None? then None else Some(Collapse(value.value))
  }

  predicate SamePath(p: seq<Text>, q: seq<Text>) {
    p == q || (p in {[], [[]]} && q in {[], [[]]})
  }

  /** The signed names, in order, are the given ones in lower case. */
  lemma NamesOf(signed: seq<Text>)
    ensures Sorted<Text>(Le, SignedNames(signed)) && multiset(SignedNames(signed)) == multiset(LowerAll(signed))
    ensures |SignedNames(signed)| == |signed|
    ensures forall name | name in SignedNames(signed) :: exists given | given in signed :: name == Lower(given)
  {
    hide Lower;
    LeIsTotal();
    SortSorts(Le, LowerAll(signed));
    forall name | name in SignedNames(signed)
      ensures exists given | given in signed :: name == Lower(given)
    {
      assert name in multiset(LowerAll(signed));
      var i :| 0 <= i < |signed| && LowerAll(signed)[i] == name;
      assert signed[i] in signed;
    }
  }

  /** Lower-casing puts no structure into a name. */
  lemma NamesAreClean(req: Request)
    requires WellFormed(req)
    ensures forall name | name in SignedNames(req.signed) :: name != [] && '\n' !in name && ';' !in name && ':' !in name
  {
    NamesOf(req.signed);
    forall name | name in SignedNames(req.signed)
      ensures name != [] && '\n' !in name && ';' !in name && ':' !in name
    {
      var given :| given in req.signed && name == Lower(given);
      forall c | c in name
        ensures c != '\n' && c != ';' && c != ':'
      {
        var i :| 0 <= i < |name| && name[i] == c;
        assert c == LowerByte(given[i]) && given[i] in given;
      }
    }
  }

  lemma {:induction false} BlockHas(headers: map<Text, Text>, names: seq<Text>, line: Text)
    ensures line in HeaderBlock(headers, names)
        <==> exists name | name in names :: HeaderValue(headers, name).Some? && line == Entry(name, HeaderValue(headers, name).value)
  {
    hide HeaderValue, Entry;
    if names != [] {
      BlockHas(headers, names[1..], line);
      assert forall name :: name in names <==> name == names[0] || name in names[1..];
    }
  }

  /** A header line is cut at its own colon. */
  lemma EntryCut(name: Text, value: Text)
    requires ':' !in name
    ensures Cut(Entry(name, value), ":") == (name, Collapse(value), true)
  {
    AbsentByte(name, ":", 0);
    CutFirst(name, ":", Collapse(value));
  }

  lemma BlockIncluded(a: Request, b: Request, names: seq<Text>, name: Text)
    requires HeaderBlock(a.headers, names) == HeaderBlock(b.headers, names)
    requires (forall n | n in names :: ':' !in n) && name in names && HeaderValue(a.headers, name).Some?
    ensures SignedValue(b.headers, name) == SignedValue(a.headers, name)
  {
    hide HeaderValue, Entry, Cut, HeaderBlock;
    var line := Entry(name, HeaderValue(a.headers, name).value);
    BlockHas(a.headers, names, line);
    BlockHas(b.headers, names, line);
    var other :| other in names && HeaderValue(b.headers, other).Some? && line == Entry(other, HeaderValue(b.headers, other).value);
    EntryCut(name, HeaderValue(a.headers, name).value);
    EntryCut(other, HeaderValue(b.headers, other).value);
  }

  lemma {:induction false} SameBlock(a: map<Text, Text>, b: map<Text, Text>, names: seq<Text>)
    requires forall name | name in names :: SignedValue(a, name) == SignedValue(b, name)
    ensures HeaderBlock(a, names) == HeaderBlock(b, names)
  {
    hide HeaderValue;
    if names != [] {
      SameBlock(a, b, names[1..]);
      assert names[0] in names;
    }
  }

  lemma BlockExact(a: Request, b: Request)
    requires WellFormed(a) && SignedNames(a.signed) == SignedNames(b.signed)
    ensures SameHeaders(a, b)
        <==> HeaderBlock(a.headers, SignedNames(a.signed)) == HeaderBlock(b.headers, SignedNames(a.signed))
  {
    hide SignedNames, HeaderValue, HeaderBlock, WellFormed;
    var names := SignedNames(a.signed);
    NamesAreClean(a);
    if HeaderBlock(a.headers, names) == HeaderBlock(b.headers, names) {
      forall name | name in names
        ensures SignedValue(a.headers, name) == SignedValue(b.headers, name)
      {
        if HeaderValue(a.headers, name).Some? {
          BlockIncluded(a, b, names, name);
        } else if HeaderValue(b.headers, name).Some? {
          BlockIncluded(b, a, names, name);
        }
      }
    }
    if SameHeaders(a, b) {
      SameBlock(a.headers, b.headers, names);
    }
  }

  /** The lines, with the header block spread over as many as it has. */
  ghost function Lines(req: Request, keyId: Text, time: int, mode: Mode): seq<Text> {
    var names := SignedNames(req.signed);
    var block := HeaderBlock(req.headers, names);
    Five(req, keyId, time, mode) + (if block == [] then [[]] else block) + [Decimal(time)]
  }

  ghost function Five(req: Request, keyId: Text, time: int, mode: Mode): seq<Text> {
    [SCHEME, req.verb, EncodePath(req.path), QueryLine(req, keyId, time, mode), Join(SignedNames(req.signed), ";")]
  }

  lemma CanonicalIsLines(req: Request, keyId: Text, time: int, mode: Mode)
    ensures Canonical(req, keyId, time, mode) == Join(Lines(req, keyId, time, mode), "\n")
  {
    hide HeaderBlock, SignedNames, EncodePath, QueryLine, Decimal, Join;
    var names := SignedNames(req.signed);
    var block := HeaderBlock(req.headers, names);
    var five, lines := Five(req, keyId, time, mode), if block == [] then [[]] else block;
    var time_ := [Decimal(time)];
    JoinPair(five, lines + time_, "\n");
    JoinPair(lines, time_, "\n");
    JoinPair(five, [Join(block, "\n")] + time_, "\n");
    JoinPair([Join(block, "\n")], time_, "\n");
    assert five + (lines + time_) == Lines(req, keyId, time, mode);
    OneLine(block, lines);
    assert five + ([Join(block, "\n")] + time_)
        == [SCHEME, req.verb, EncodePath(req.path), QueryLine(req, keyId, time, mode), Join(names, ";"), Join(block, "\n"), Decimal(time)];
  }

  lemma OneLine(block: seq<Text>, lines: seq<Text>)
    requires lines == if block == [] then [[]] else block
    ensures Join([Join(block, "\n")], "\n") == Join(lines, "\n")
  {
  }

  lemma BlockHasNoBreak(headers: map<Text, Text>, names: seq<Text>)
    requires forall name | name in names :: '\n' !in name
    ensures forall line | line in HeaderBlock(headers, names) :: '\n' !in line && line != []
  {
    hide HeaderBlock, HeaderValue, Collapse;
    forall line | line in HeaderBlock(headers, names)
      ensures '\n' !in line && line != []
    {
      BlockHas(headers, names, line);
      var name :| name in names && HeaderValue(headers, name).Some? && line == Entry(name, HeaderValue(headers, name).value);
      CollapsedHasNoBreak(HeaderValue(headers, name).value);
    }
  }

  lemma EncodedHasNoBreak(req: Request, keyId: Text, time: int, mode: Mode)
    ensures '\n' !in EncodePath(req.path) && '\n' !in QueryLine(req, keyId, time, mode)
  {
    hide EncodeSegment, EncodeParam;
    var segments := EncodeAll(req.path);
    forall part | part in segments
      ensures '\n' !in part
    {
      var i :| 0 <= i < |segments| && segments[i] == part;
      EncodedFree(req.path[i], '\n');
    }
    AbsentFromJoin(segments, "/", '\n');
    QueryHasNoBreak(if mode.Header? then req.query else PresignPairs(req, keyId, time));
  }

  lemma QueryHasNoBreak(pairs: seq<Param>)
    ensures '\n' !in EncodeQuery(pairs)
  {
    hide EncodeSegment, ParamLe;
    SortEncoded(pairs);
    var sorted := Sort(PairLe, pairs);
    var parts := PrintAll(EncodeParams(sorted));
    forall part | part in parts
      ensures '\n' !in part
    {
      var i :| 0 <= i < |parts| && parts[i] == part;
      EncodedFree(sorted[i].name, '\n');
      EncodedFree(sorted[i].value, '\n');
    }
    AbsentFromJoin(parts, "&", '\n');
  }

  lemma LinesHaveNoBreak(req: Request, keyId: Text, time: int, mode: Mode)
    requires WellFormed(req)
    ensures forall line | line in Lines(req, keyId, time, mode) :: !Contains(line, "\n")
  {
    hide HeaderBlock, SignedNames, EncodePath, QueryLine, Decimal, Join, Contains;
    var names := SignedNames(req.signed);
    NamesAreClean(req);
    BlockHasNoBreak(req.headers, names);
    EncodedHasNoBreak(req, keyId, time, mode);
    AbsentFromJoin(names, ";", '\n');
    DecimalHasNoBreak(time);
    forall line | line in Lines(req, keyId, time, mode)
      ensures !Contains(line, "\n")
    {
      assert '\n' !in line;
      AbsentByte(line, "\n", 0);
    }
  }

  /** Equal canonical requests have equal lines. */
  lemma EqualLines(a: Request, keyA: Text, timeA: int, b: Request, keyB: Text, timeB: int, mode: Mode)
    requires WellFormed(a) && WellFormed(b) && Canonical(a, keyA, timeA, mode) == Canonical(b, keyB, timeB, mode)
    ensures Five(a, keyA, timeA, mode) == Five(b, keyB, timeB, mode) && Decimal(timeA) == Decimal(timeB)
    ensures var linesA, linesB := HeaderBlock(a.headers, SignedNames(a.signed)), HeaderBlock(b.headers, SignedNames(b.signed));
            (if linesA == [] then [[]] else linesA) == if linesB == [] then [[]] else linesB
  {
    hide HeaderBlock, SignedNames, EncodePath, QueryLine, Decimal, Join, Contains, Canonical, WellFormed;
    CanonicalIsLines(a, keyA, timeA, mode);
    CanonicalIsLines(b, keyB, timeB, mode);
    LinesHaveNoBreak(a, keyA, timeA, mode);
    LinesHaveNoBreak(b, keyB, timeB, mode);
    var la, lb := Lines(a, keyA, timeA, mode), Lines(b, keyB, timeB, mode);
    JoinInjective(la, lb, "\n");
    assert la[..5] == Five(a, keyA, timeA, mode) && lb[..5] == Five(b, keyB, timeB, mode);
    assert la[|la| - 1] == Decimal(timeA) && lb[|lb| - 1] == Decimal(timeB);
    assert la[5..|la| - 1] == lb[5..|lb| - 1];
  }

  lemma NamesDetermined(a: Request, b: Request)
    requires WellFormed(a) && WellFormed(b) && Join(SignedNames(a.signed), ";") == Join(SignedNames(b.signed), ";")
    ensures SignedNames(a.signed) == SignedNames(b.signed)
  {
    hide SignedNames, WellFormed, Contains;
    NamesAreClean(a);
    NamesAreClean(b);
    var x, y := SignedNames(a.signed), SignedNames(b.signed);
    forall name | name in x
      ensures !Contains(name, ";")
    {
      AbsentByte(name, ";", 0);
    }
    forall name | name in y
      ensures !Contains(name, ";")
    {
      AbsentByte(name, ";", 0);
    }
    JoinedNotEmpty(x);
    JoinedNotEmpty(y);
    if x != [] && y != [] {
      JoinInjective(x, y, ";");
    }
  }

  lemma JoinedNotEmpty(names: seq<Text>)
    requires forall name | name in names :: name != []
    ensures Join(names, ";") == [] <==> names == []
  {
    if |names| == 1 {
      assert names[0] in names;
    }
  }

  /** A query that leaves the three presign names alone. */
  predicate NoOwn(query: seq<Param>) {
    forall p | p in query :: !Own(p.name)
  }

  /** Presigning leaves exactly such queries as they are; what it leaves of any query is such a query. */
  lemma {:induction false} ForeignExact(query: seq<Param>)
    ensures Foreign(query) == query <==> NoOwn(query)
    ensures NoOwn(Foreign(query)) && |Foreign(query)| <= |query|
  {
    hide Own;
    if query != [] {
      assert query == [query[0]] + query[1..];
      ForeignExact(query[1..]);
      assert NoOwn(query) <==> !Own(query[0].name) && NoOwn(query[1..]);
      if !Own(query[0].name) {
        assert Foreign(query)[1..] == Foreign(query[1..]);
      }
    }
  }

  /** The caller's parameters that the signature binds. */
  function BoundQuery(req: Request, mode: Mode): seq<Param> {
    if mode.Header? then req.query else Foreign(req.query)
  }

  lemma OwnApart(query: seq<Param>, own: seq<Param>, p: Param)
    requires NoOwn(query) && OwnTriple(own)
    ensures multiset(query + own)[p] == if Own(p.name) then multiset(own)[p] else multiset(query)[p]
  {
    OwnTripleNames(own);
    TripleTimes(own, p);
    hide Own, OwnTriple;
    assert multiset(query + own) == multiset(query) + multiset(own);
    assert p in multiset(query) ==> p in query;
  }

  lemma SameTriple(a: seq<Param>, b: seq<Param>, i: int)
    requires OwnTriple(a) && OwnTriple(b) && 0 <= i < 3 && multiset(a)[a[i]] == multiset(b)[a[i]]
    ensures a[i] == b[i]
  {
    OwnTripleNames(a);
    TripleTimes(a, a[i]);
    TripleTimes(b, a[i]);
    assert a[0].name == b[0].name && a[1].name == b[1].name && a[2].name == b[2].name;
    hide Own, OwnTriple;
  }

  /** The presigned query determines the caller's query, the key, the expiry and the names. */
  lemma PresignDetermines(a: seq<Param>, ownA: seq<Param>, b: seq<Param>, ownB: seq<Param>)
    requires NoOwn(a) && NoOwn(b) && OwnTriple(ownA) && OwnTriple(ownB)
    ensures multiset(a + ownA) == multiset(b + ownB) <==> multiset(a) == multiset(b) && ownA == ownB
  {
    OwnTripleNames(ownA);
    OwnTripleNames(ownB);
    assert |ownA| == 3 && |ownB| == 3;
    hide Own, OwnTriple;
    if multiset(a + ownA) == multiset(b + ownB) {
      forall i | 0 <= i < 3
        ensures ownA[i] == ownB[i]
      {
        OwnApart(a, ownA, ownA[i]);
        OwnApart(b, ownB, ownA[i]);
        SameTriple(ownA, ownB, i);
      }
      forall p: Param
        ensures multiset(a)[p] == multiset(b)[p]
      {
        OwnApart(a, ownA, p);
        OwnApart(b, ownB, p);
        NotAmong(a, p);
        NotAmong(b, p);
      }
    } else if ownA == ownB {
      assert multiset(a + ownA) == multiset(a) + multiset(ownA) && multiset(b + ownB) == multiset(b) + multiset(ownB);
    }
  }

  lemma NotAmong(query: seq<Param>, p: Param)
    requires NoOwn(query)
    ensures Own(p.name) ==> multiset(query)[p] == 0
  {
    hide Own;
    assert p in multiset(query) ==> p in query;
  }

  predicate Int64(n: int) {
    -INT64_MAX - 1 <= n <= INT64_MAX
  }

  /** Two requests signed in the same form have the same canonical string exactly when they agree on method, path,
      headers, time, the caller's parameters that form binds and, in presigned form, the key. */
  lemma SameFormExact(a: Request, keyA: Text, timeA: int, b: Request, keyB: Text, timeB: int, mode: Mode)
    requires WellFormed(a) && WellFormed(b) && Int64(timeA) && Int64(timeB)
    ensures Canonical(a, keyA, timeA, mode) == Canonical(b, keyB, timeB, mode)
        <==> && a.verb == b.verb && SamePath(a.path, b.path) && multiset(BoundQuery(a, mode)) == multiset(BoundQuery(b, mode))
             && SameHeaders(a, b) && timeA == timeB && (mode.Presign? ==> keyA == keyB)
  {
    hide HeaderBlock, SignedNames, EncodePath, EncodeQuery, Decimal, Join, WellFormed, SameHeaders, Canonical;
    PathInjective(a.path, b.path);
    QueryLinesExact(a, keyA, timeA, b, keyB, timeB, mode);
    ParseDecimal(timeA);
    ParseDecimal(timeB);
    if Canonical(a, keyA, timeA, mode) == Canonical(b, keyB, timeB, mode) {
      EqualLines(a, keyA, timeA, b, keyB, timeB, mode);
      var fa, fb := Five(a, keyA, timeA, mode), Five(b, keyB, timeB, mode);
      assert fa[1] == fb[1] && fa[2] == fb[2] && fa[3] == fb[3] && fa[4] == fb[4];
      NamesDetermined(a, b);
      NamesAreClean(a);
      BlockHasNoBreak(a.headers, SignedNames(a.signed));
      BlockHasNoBreak(b.headers, SignedNames(b.signed));
      SpreadInjective(HeaderBlock(a.headers, SignedNames(a.signed)), HeaderBlock(b.headers, SignedNames(b.signed)));
      BlockExact(a, b);
    }
    if a.verb == b.verb && SamePath(a.path, b.path) && multiset(BoundQuery(a, mode)) == multiset(BoundQuery(b, mode))
       && SameHeaders(a, b) && timeA == timeB && (mode.Presign? ==> keyA == keyB) {
      SameNames(a, b);
      BlockExact(a, b);
      SameCanonical(a, keyA, b, keyB, timeA, mode);
    }
  }

  /** The form is no part of the canonical string: a presigned request has the string of the one, signed in the header,
      whose own query holds the presigned parameters. */
  lemma FormsShareTheString(req: Request, keyId: Text, time: int, other: Text)
    ensures Canonical(req.(query := PresignPairs(req, keyId, time)), other, time, Header) == Canonical(req, keyId, time, Presign)
  {
    hide SignedNames, HeaderBlock, EncodePath, EncodeQuery, Decimal, Join, PresignPairs;
  }

  /** Two requests, each signed in either form, have the same canonical string exactly when they agree on method, path,
      signed query, headers and time. Nothing else is bound, and neither is the form. */
  lemma CanonicalExact(a: Request, keyA: Text, timeA: int, formA: Mode, b: Request, keyB: Text, timeB: int, formB: Mode)
    requires WellFormed(a) && WellFormed(b) && Int64(timeA) && Int64(timeB)
    ensures Canonical(a, keyA, timeA, formA) == Canonical(b, keyB, timeB, formB)
        <==> && a.verb == b.verb && SamePath(a.path, b.path) && SameHeaders(a, b) && timeA == timeB
             && multiset(SignedQuery(a, keyA, timeA, formA)) == multiset(SignedQuery(b, keyB, timeB, formB))
  {
    hide HeaderBlock, EncodePath, EncodeQuery, Decimal, Join, Canonical, PresignPairs, SignedNames, SignedValue;
    var asA, asB := a.(query := SignedQuery(a, keyA, timeA, formA)), b.(query := SignedQuery(b, keyB, timeB, formB));
    InHeaderForm(a, keyA, timeA, formA);
    InHeaderForm(b, keyB, timeB, formB);
    SameFormExact(asA, keyA, timeA, asB, keyB, timeB, Header);
  }

  lemma InHeaderForm(req: Request, keyId: Text, time: int, form: Mode)
    ensures Canonical(req.(query := SignedQuery(req, keyId, time, form)), keyId, time, Header) == Canonical(req, keyId, time, form)
  {
    hide Canonical, PresignPairs;
    if form.Presign? {
      FormsShareTheString(req, keyId, time, keyId);
    } else {
      assert req.(query := req.query) == req;
    }
  }

  lemma SameNames(a: Request, b: Request)
    requires SameHeaders(a, b)
    ensures SignedNames(a.signed) == SignedNames(b.signed)
  {
  }

  lemma SameCanonical(a: Request, keyA: Text, b: Request, keyB: Text, time: int, mode: Mode)
    requires a.verb == b.verb && EncodePath(a.path) == EncodePath(b.path)
    requires QueryLine(a, keyA, time, mode) == QueryLine(b, keyB, time, mode)
    requires SignedNames(a.signed) == SignedNames(b.signed)
    requires HeaderBlock(a.headers, SignedNames(a.signed)) == HeaderBlock(b.headers, SignedNames(b.signed))
    ensures Canonical(a, keyA, time, mode) == Canonical(b, keyB, time, mode)
  {
  }

  lemma SpreadInjective(a: seq<Text>, b: seq<Text>)
    requires (if a == [] then [[]] else a) == if b == [] then [[]] else b
    requires forall line | line in a :: line != []
    requires forall line | line in b :: line != []
    ensures a == b
  {
    assert a != [] ==> a[0] in a;
    assert b != [] ==> b[0] in b;
  }

  lemma QueryLinesExact(a: Request, keyA: Text, timeA: int, b: Request, keyB: Text, timeB: int, mode: Mode)
    requires Int64(timeA) && Int64(timeB)
    ensures mode.Header? ==>
              (QueryLine(a, keyA, timeA, mode) == QueryLine(b, keyB, timeB, mode) <==> multiset(a.query) == multiset(b.query))
    ensures mode.Presign? ==>
              (QueryLine(a, keyA, timeA, mode) == QueryLine(b, keyB, timeB, mode)
               <==> && multiset(Foreign(a.query)) == multiset(Foreign(b.query)) && keyA == keyB && Decimal(timeA) == Decimal(timeB)
                    && Join(SignedNames(a.signed), ";") == Join(SignedNames(b.signed), ";"))
  {
    hide EncodeQuery, Decimal, Join, SignedNames;
    if mode.Header? {
      QueryInjective(a.query, b.query);
    } else {
      QueryInjective(PresignPairs(a, keyA, timeA), PresignPairs(b, keyB, timeB));
      PresignPairsExact(a, keyA, timeA, b, keyB, timeB);
    }
  }

  lemma PresignPairsExact(a: Request, keyA: Text, timeA: int, b: Request, keyB: Text, timeB: int)
    ensures multiset(PresignPairs(a, keyA, timeA)) == multiset(PresignPairs(b, keyB, timeB))
        <==> && multiset(Foreign(a.query)) == multiset(Foreign(b.query)) && keyA == keyB && Decimal(timeA) == Decimal(timeB)
             && Join(SignedNames(a.signed), ";") == Join(SignedNames(b.signed), ";")
  {
    OwnPairsExact(a.signed, keyA, timeA, b.signed, keyB, timeB);
    hide Decimal, Join, SignedNames, Foreign, NoOwn, OwnTriple, OwnPairs;
    ForeignExact(a.query);
    ForeignExact(b.query);
    PresignDetermines(Foreign(a.query), OwnPairs(a.signed, keyA, timeA), Foreign(b.query), OwnPairs(b.signed, keyB, timeB));
  }

  lemma OwnPairsExact(signedA: seq<Text>, keyA: Text, timeA: int, signedB: seq<Text>, keyB: Text, timeB: int)
    ensures OwnPairs(signedA, keyA, timeA) == OwnPairs(signedB, keyB, timeB)
        <==> && keyA == keyB && Decimal(timeA) == Decimal(timeB)
             && Join(SignedNames(signedA), ";") == Join(SignedNames(signedB), ";")
    ensures OwnTriple(OwnPairs(signedA, keyA, timeA)) && OwnTriple(OwnPairs(signedB, keyB, timeB))
  {
    hide Decimal, Join, SignedNames;
    var a, b := OwnPairs(signedA, keyA, timeA), OwnPairs(signedB, keyB, timeB);
    assert a == b <==> a[0] == b[0] && a[1] == b[1] && a[2] == b[2];
  }
}
