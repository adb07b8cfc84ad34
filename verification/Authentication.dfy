/** Stage 2 of the request pipeline, internal/httpapi/auth.go `authenticate`, in both forms: what a client signs is
    accepted, and what is accepted is what a client signed. */
module Authentication {
  import opened Wrappers
  import opened Text
  import opened Encode
  import opened Signing
  import opened Auth

  // ---------- the presigned form ----------

  function ParsePresign(query: seq<Param>): Option<Credentials> {
    var keyId, signature := First(query, PARAM_KEY), First(query, PARAM_SIG);
    if keyId == [] || signature == [] then None
    else Some(Credentials(keyId, NamesIn(First(query, PARAM_HEADERS)), signature))
  }

  /** A MAC in hexadecimal. */
  predicate Hex(s: Text) {
    s != [] && forall c | c in s :: '0' <= c <= '9' || 'a' <= c <= 'f'
  }

  lemma {:induction false} UnreservedStays(s: Text)
    requires forall c | c in s :: Unreserved(c)
    ensures EncodeSegment(s) == s
  {
    if s != [] {
      assert s[0] in s;
      UnreservedStays(s[1..]);
      assert s == [s[0]] + s[1..];
    }
  }

  lemma SignatureParam(signature: Text)
    requires Hex(signature)
    ensures EncodeParam(Param(PARAM_SIG, signature)) == Param(PARAM_SIG, signature)
  {
    hide EncodeSegment;
    SigNameStays();
    HexStays(signature);
  }

  lemma SigNameStays()
    ensures EncodeSegment(PARAM_SIG) == PARAM_SIG
  {
    hide EncodeSegment;
    forall i | 0 <= i < |PARAM_SIG|
      ensures Unreserved(PARAM_SIG[i])
    {
    }
    UnreservedStays(PARAM_SIG);
  }

  lemma HexStays(signature: Text)
    requires Hex(signature)
    ensures EncodeSegment(signature) == signature
  {
    hide EncodeSegment;
    UnreservedStays(signature);
  }

  lemma {:induction false} PrintAppend(encoded: seq<Param>, p: Param)
    ensures PrintAll(encoded + [p]) == PrintAll(encoded) + [Print(p)]
  {
    if encoded == [] {
      assert encoded + [p] == [p];
    } else {
      PrintAppend(encoded[1..], p);
      assert (encoded + [p])[1..] == encoded[1..] + [p];
    }
  }

  /** The parameters of a presigned URL: the canonical ones in order, then the signature. */
  function Presented(req: Request, keyId: Text, expires: int, signature: Text): seq<Param> {
    Sort(PairLe, PresignPairs(req, keyId, expires)) + [Param(PARAM_SIG, signature)]
  }

  lemma PresignRoundTrip(req: Request, keyId: Text, expires: int, signature: Text)
    requires Hex(signature)
    ensures RawQuery(PresignQuery(req, keyId, expires, signature)) == Some(Presented(req, keyId, expires, signature))
    ensures LenientQuery(PresignQuery(req, keyId, expires, signature)) == Presented(req, keyId, expires, signature)
  {
    hide Split, Contains, EncodeSegment, PresignPairs, Sort, Hex, EncodeParam;
    var pairs := PresignPairs(req, keyId, expires);
    var sorted, last := Sort(PairLe, pairs), Param(PARAM_SIG, signature);
    SortEncoded(pairs);
    SortedPairs(pairs);
    PresignNotEmpty(req, keyId, expires);
    SplitPrinted(sorted);
    SignatureParam(signature);
    PrintedParam(last);
    SplitSingle(Print(last), "&");
    SplitAt(EncodeQuery(pairs), "&", Print(last));
    AppendEncoded(sorted, last);
    PrintAppend(EncodeParams(sorted), last);
    DecodePrinted(sorted + [last]);
    LenientPrinted(sorted + [last]);
  }

  lemma PresignNotEmpty(req: Request, keyId: Text, expires: int)
    ensures PresignPairs(req, keyId, expires) != []
  {
  }

  /** A query without a parameter of the signature's name. */
  predicate NoSig(query: seq<Param>) {
    forall p | p in query :: p.name != PARAM_SIG
  }

  lemma SigApart()
    ensures !Own(PARAM_SIG)
  {
    assert |PARAM_SIG| == 11 && PARAM_SIG[8] == 's' && PARAM_KEY[8] == 'k';
    assert |PARAM_EXPIRES| == 15 && |PARAM_HEADERS| == 15;
  }

  lemma {:induction false} ForeignMember(query: seq<Param>, p: Param)
    ensures p in Foreign(query) ==> p in query && !Own(p.name)
  {
    hide Own;
    if query != [] {
      ForeignMember(query[1..], p);
    }
  }

  lemma OwnAmong(foreign: seq<Param>, own: seq<Param>, sorted: seq<Param>, last: Param, p: Param)
    requires NoOwn(foreign) && |own| == 3 && !Own(last.name) && multiset(sorted) == multiset(foreign + own)
    requires own[0].name != own[1].name && own[0].name != own[2].name && own[1].name != own[2].name
    requires p in own && Own(p.name)
    ensures First(sorted + [last], p.name) == p.value
  {
    hide Own;
    MembersOf(sorted, foreign + own);
    forall q | q in sorted + [last] && q.name == p.name
      ensures q == p
    {
      assert q in foreign + own;
    }
    assert p in foreign + own;
    FirstIs(sorted + [last], p);
  }

  lemma OwnTripleMember(own: seq<Param>, p: Param)
    requires OwnTriple(own) && p in own
    ensures |own| == 3 && Own(p.name)
  {
  }

  /** Each parameter the signer set is found in the presigned query, and only once. */
  lemma OwnFound(req: Request, keyId: Text, expires: int, signature: Text, p: Param)
    requires p in OwnPairs(req.signed, keyId, expires)
    ensures First(Presented(req, keyId, expires, signature), p.name) == p.value
  {
    hide Own, NoOwn, Foreign, Sort, First, OwnPairs, OwnTriple, PARAM_KEY, PARAM_EXPIRES, PARAM_HEADERS, PARAM_SIG;
    var own, pairs := OwnPairs(req.signed, keyId, expires), PresignPairs(req, keyId, expires);
    OwnPairsExact(req.signed, keyId, expires, req.signed, keyId, expires);
    OwnTripleNames(own);
    OwnTripleMember(own, p);
    SigApart();
    SortedPairs(pairs);
    ForeignExact(req.query);
    OwnAmong(Foreign(req.query), own, Sort(PairLe, pairs), Param(PARAM_SIG, signature), p);
  }

  lemma MembersOf(a: seq<Param>, b: seq<Param>)
    requires multiset(a) == multiset(b)
    ensures forall p :: p in a <==> p in b
  {
    assert forall p :: p in multiset(a) <==> p in a;
    assert forall p :: p in multiset(b) <==> p in b;
  }

  // ---------- the signature the server reads ----------

  /** The signature as the server reads it: the first parameter of that name. */
  function SigRead(req: Request, keyId: Text, expires: int, signature: Text): Text {
    First(Presented(req, keyId, expires, signature), PARAM_SIG)
  }

  lemma SigAmong(foreign: seq<Param>, own: seq<Param>, sorted: seq<Param>, last: Param)
    requires NoSig(foreign) && NoSig(own) && last.name == PARAM_SIG && multiset(sorted) == multiset(foreign + own)
    ensures First(sorted + [last], PARAM_SIG) == last.value
  {
    hide PARAM_SIG;
    MembersOf(sorted, foreign + own);
    forall q | q in sorted
      ensures q.name != PARAM_SIG
    {
      assert q in foreign + own;
    }
    assert last in sorted + [last];
    FirstIs(sorted + [last], last);
  }

  lemma PairLeReflexive(p: Param)
    ensures PairLe(p, p)
  {
    LeTotal(EncodeParam(p).value, EncodeParam(p).value);
  }

  /** In a sorted list the first value of a name is the least of that name. */
  lemma {:induction false} FirstIsLeast(sorted: seq<Param>, rest: seq<Param>, name: Text)
    requires Sorted(PairLe, sorted) && exists q | q in sorted :: q.name == name
    ensures var least := Param(name, First(sorted + rest, name));
            least in sorted && forall p | p in sorted && p.name == name :: PairLe(least, p)
  {
    hide PairLe;
    assert (sorted + rest)[0] == sorted[0];
    if sorted[0].name == name {
      forall p | p in sorted
        ensures PairLe(sorted[0], p)
      {
        var i :| 0 <= i < |sorted| && sorted[i] == p;
        assert i > 0 ==> PairLe(sorted[0], sorted[i]);
        PairLeReflexive(sorted[0]);
      }
      assert Param(name, sorted[0].value) == sorted[0];
    } else {
      var q :| q in sorted && q.name == name;
      assert sorted == [sorted[0]] + sorted[1..];
      assert q in sorted[1..];
      assert (sorted + rest)[1..] == sorted[1..] + rest;
      FirstIsLeast(sorted[1..], rest, name);
    }
  }

  lemma OwnIsNotSig(own: seq<Param>)
    requires OwnTriple(own)
    ensures NoSig(own)
  {
    OwnTripleNames(own);
    SigApart();
  }

  /** Presigning keeps the caller's parameters of the signature's name. */
  lemma ForeignSig(query: seq<Param>, p: Param)
    requires p.name == PARAM_SIG
    ensures p in Foreign(query) <==> p in query
  {
    SigApart();
    hide Own, Foreign, PARAM_SIG;
    ForeignTimes(query, p);
    assert p in multiset(Foreign(query)) <==> p in Foreign(query);
    assert p in multiset(query) <==> p in query;
  }

  /** The server reads the signature that was appended, unless the caller's query brought parameters of that name: then
      it reads the least of those. */
  lemma SigReadExact(req: Request, keyId: Text, expires: int, signature: Text)
    ensures NoSig(req.query) ==> SigRead(req, keyId, expires, signature) == signature
    ensures !NoSig(req.query) ==>
              var read := Param(PARAM_SIG, SigRead(req, keyId, expires, signature));
              read in req.query && forall p | p in req.query && p.name == PARAM_SIG :: PairLe(read, p)
  {
    var own, pairs := OwnPairs(req.signed, keyId, expires), PresignPairs(req, keyId, expires);
    var sorted, last := Sort(PairLe, pairs), Param(PARAM_SIG, signature);
    PairLeIsTotal();
    SortSorts(PairLe, pairs);
    OwnIsNotSig(own);
    MembersOf(sorted, pairs);
    hide Own, PairLe, Foreign, Sort, First, OwnPairs, PARAM_KEY, PARAM_EXPIRES, PARAM_HEADERS, PARAM_SIG;
    forall p: Param | p.name == PARAM_SIG
      ensures p in sorted <==> p in req.query
    {
      ForeignSig(req.query, p);
      assert p in own ==> p.name != PARAM_SIG;
    }
    if NoSig(req.query) {
      assert NoSig(Foreign(req.query)) by {
        hide *;
        ForeignNoSig(req.query);
      }
      SigAmong(Foreign(req.query), own, sorted, last);
    } else {
      var q :| q in req.query && q.name == PARAM_SIG;
      assert q in sorted;
      FirstIsLeast(sorted, [last], PARAM_SIG);
    }
  }

  lemma ForeignNoSig(query: seq<Param>)
    requires NoSig(query)
    ensures NoSig(Foreign(query))
  {
    hide Own, Foreign, PARAM_SIG;
    forall q | q in Foreign(query)
      ensures q.name != PARAM_SIG
    {
      ForeignMember(query, q);
    }
  }

  /** The server reads key, names, expiry and that signature back out of a presigned URL. */
  lemma PresignParsed(req: Request, keyId: Text, expires: int, signature: Text)
    requires Hex(signature) && Int64(expires)
    ensures var query := LenientQuery(PresignQuery(req, keyId, expires, signature));
            var read := SigRead(req, keyId, expires, signature);
            && ParsePresign(query) == (if keyId != [] && read != []
                                       then Some(Credentials(keyId, NamesIn(SignedList(req.signed)), read)) else None)
            && ParseInt(First(query, PARAM_EXPIRES)) == Some(expires)
            && !NoSig(query)
  {
    PresignRoundTrip(req, keyId, expires, signature);
    var own := OwnPairs(req.signed, keyId, expires);
    assert Param(PARAM_SIG, signature) in Presented(req, keyId, expires, signature);
    hide LenientQuery, Presented, PresignQuery, First, Decimal, ParseInt, SignedNames, Join, Split;
    assert own[0] in own && own[1] in own && own[2] in own;
    OwnFound(req, keyId, expires, signature, own[0]);
    OwnFound(req, keyId, expires, signature, own[1]);
    OwnFound(req, keyId, expires, signature, own[2]);
    ParseDecimal(expires);
  }

  // ---------- the string the server rebuilds ----------

  /** The request without the caller's parameters of the signature's name. */
  function Stripped(req: Request): Request {
    req.(query := Without(req.query, PARAM_SIG))
  }

  lemma StrippedTimes(query: seq<Param>, own: seq<Param>, sorted: seq<Param>, last: Param, p: Param)
    requires OwnTriple(own) && multiset(sorted) == multiset(Foreign(query) + own) && last.name == PARAM_SIG
    ensures multiset(Foreign(Without(sorted + [last], PARAM_SIG)))[p] == multiset(Foreign(Without(query, PARAM_SIG)))[p]
  {
    ForeignTimes(Without(sorted + [last], PARAM_SIG), p);
    ForeignTimes(Without(query, PARAM_SIG), p);
    hide Own, OwnTriple, Foreign, Without, PARAM_SIG;
    WithoutTimes(sorted + [last], PARAM_SIG, p);
    WithoutTimes(query, PARAM_SIG, p);
    ForeignTimes(query, p);
    OwnSplit(query, own, p);
    assert multiset(sorted + [last])[p] == multiset(sorted)[p] + if p == last then 1 else 0;
  }

  /** The server drops every parameter of the signature's name and sets the three presign parameters once more. */
  lemma RebuiltQuery(req: Request, keyId: Text, expires: int, signature: Text, rebuilt: Request)
    requires rebuilt.query == Without(Presented(req, keyId, expires, signature), PARAM_SIG)
    requires SignedNames(rebuilt.signed) == SignedNames(req.signed)
    ensures QueryLine(rebuilt, keyId, expires, Presign) == QueryLine(Stripped(req), keyId, expires, Presign)
  {
    OwnPairsExact(req.signed, keyId, expires, rebuilt.signed, keyId, expires);
    hide EncodeQuery, SignedNames, Decimal, Sort, Own, OwnTriple, Foreign, Without, PARAM_KEY, PARAM_EXPIRES, PARAM_HEADERS, PARAM_SIG;
    var own, pairs := OwnPairs(req.signed, keyId, expires), PresignPairs(req, keyId, expires);
    var sorted, last := Sort(PairLe, pairs), Param(PARAM_SIG, signature);
    assert OwnPairs(rebuilt.signed, keyId, expires) == own;
    SortedPairs(pairs);
    forall p: Param
      ensures multiset(Foreign(rebuilt.query))[p] == multiset(Foreign(Stripped(req).query))[p]
    {
      StrippedTimes(req.query, own, sorted, last, p);
    }
    assert multiset(Foreign(rebuilt.query)) == multiset(Foreign(Stripped(req).query));
    assert multiset(Foreign(rebuilt.query) + own) == multiset(Foreign(Stripped(req).query) + own);
    QueryInjective(PresignPairs(rebuilt, keyId, expires), PresignPairs(Stripped(req), keyId, expires));
  }

  /** What the server rebuilds of a presigned request is the string of the request without the caller's parameters of
      the signature's name. */
  lemma RebuiltIsStripped(req: Request, keyId: Text, expires: int, signature: Text, raw: Raw)
    requires Delivered(req, raw.headers) && Hex(signature)
    requires raw.verb == req.verb && raw.path == EncodePath(req.path)
    requires raw.query == PresignQuery(req, keyId, expires, signature)
    ensures var rebuilt := SigRequest(raw, SignedNames(req.signed));
            rebuilt.Some? && Canonical(rebuilt.value, keyId, expires, Presign) == Canonical(Stripped(req), keyId, expires, Presign)
  {
    hide EncodePath, RawQuery, PathSegments, Canonical, SignedNames, HeaderBlock, HeaderValue, JoinedHeaders, Hex, PresignQuery,
      Presented, Without, PARAM_SIG;
    PathRoundTrip(req.path);
    PathStable(req.path);
    PresignRoundTrip(req, keyId, expires, signature);
    var rebuilt := SigRequest(raw, SignedNames(req.signed)).value;
    SortedStays(req.signed);
    SameBlock(req.headers, rebuilt.headers, SignedNames(req.signed));
    RebuiltQuery(req, keyId, expires, signature, rebuilt);
    SameCanonical(rebuilt, keyId, Stripped(req), keyId, expires, Presign);
  }

  /** Dropping them leaves the canonical string as it is exactly if there are none. */
  lemma StrippedExact(req: Request, keyId: Text, expires: int)
    requires WellFormed(req) && Int64(expires)
    ensures Canonical(Stripped(req), keyId, expires, Presign) == Canonical(req, keyId, expires, Presign) <==> NoSig(req.query)
  {
    hide Canonical, Foreign, Own, Without, PARAM_SIG, SignedNames;
    SameFormExact(Stripped(req), keyId, expires, req, keyId, expires, Presign);
    WithoutExact(req.query, PARAM_SIG);
    if !NoSig(req.query) {
      var q :| q in req.query && q.name == PARAM_SIG;
      SigApart();
      ForeignTimes(req.query, q);
      ForeignTimes(Without(req.query, PARAM_SIG), q);
      WithoutTimes(req.query, PARAM_SIG, q);
      assert q in multiset(req.query);
    }
  }

  /** Presigned form: the server rebuilds the string the client signed, exactly when the caller's query has no parameter
      of the signature's name. */
  lemma PresignFormRebuilt(req: Request, keyId: Text, expires: int, signature: Text, raw: Raw)
    requires WellFormed(req) && Int64(expires) && Delivered(req, raw.headers) && Hex(signature)
    requires raw.verb == req.verb && raw.path == EncodePath(req.path)
    requires raw.query == PresignQuery(req, keyId, expires, signature)
    ensures var rebuilt := SigRequest(raw, SignedNames(req.signed));
            && rebuilt.Some?
            && (Canonical(rebuilt.value, keyId, expires, Presign) == Canonical(req, keyId, expires, Presign) <==> NoSig(req.query))
  {
    hide EncodePath, PresignQuery, Canonical, SignedNames, Hex, SigRequest, WellFormed, Delivered, NoSig, Stripped;
    RebuiltIsStripped(req, keyId, expires, signature, raw);
    StrippedExact(req, keyId, expires);
  }

  lemma OwnSplit(query: seq<Param>, own: seq<Param>, p: Param)
    requires OwnTriple(own)
    ensures multiset(Foreign(query))[p] == if Own(p.name) then 0 else multiset(Foreign(query) + own)[p]
  {
    ForeignExact(query);
    ForeignTimes(query, p);
    OwnApart(Foreign(query), own, p);
  }

  // ---------- the pipeline ----------

  datatype KeyRow = KeyRow(secret: Text, disabled: bool)

  /** The keys, whether the key store answers, the clock in nanoseconds, and the configured windows. */
  datatype Server = Server(keys: map<Text, KeyRow>, lookup: bool, now: int, skew: int, maxPresign: int)

  datatype Rejection =
    | MalformedRequest | ClockSkew | PresignExpired | PresignTooLong | UnknownKey | LookupFailed
    | MissingSignedHeader(name: Text) | BadSignature

  datatype Outcome = Anonymous | Rejected(why: Rejection) | Caller(keyId: Text)

  type Mac = (Text, Text) -> Text

  const AUTHORIZATION: Text := "Authorization"
  const DATE: Text := "X-Tunna-Date"

  ghost predicate HasHeader(headers: map<Text, seq<Text>>, name: Text) {
    exists k :: k in headers && SameName(k, name)
  }

  /** http.Header.Get: the first value, or the empty text. */
  ghost function HeaderText(headers: map<Text, seq<Text>>, name: Text): Text {
    if HasHeader(headers, name) then
      var k :| k in headers && SameName(k, name);
      if headers[k] == [] then [] else headers[k][0]
    else []
  }

  ghost function FirstMissing(headers: map<Text, seq<Text>>, names: seq<Text>): Option<Text> {
    if names == [] then None
    else if HasHeader(headers, names[0]) then FirstMissing(headers, names[1..])
    else Some(names[0])
  }

  ghost function Check(raw: Raw, mac: Mac, server: Server, c: Credentials, time: int, mode: Mode): Outcome {
    if !server.lookup then Rejected(LookupFailed)
    else if c.keyId !in server.keys || server.keys[c.keyId].disabled then Rejected(UnknownKey)
    else if FirstMissing(raw.headers, c.signed).Some? then Rejected(MissingSignedHeader(FirstMissing(raw.headers, c.signed).value))
    else
      var req := SigRequest(raw, c.signed);
      if req.None? then Rejected(MalformedRequest)
      else if mac(server.keys[c.keyId].secret, Canonical(req.value, c.keyId, time, mode)) != c.signature then Rejected(BadSignature)
      else Caller(c.keyId)
  }

  ghost function CheckHeader(raw: Raw, mac: Mac, server: Server): Outcome {
    var time := ParseInt(HeaderText(raw.headers, DATE));
    var c := ParseAuthorization(HeaderText(raw.headers, AUTHORIZATION));
    if time.None? || c.None? then Rejected(MalformedRequest)
    else if time.value * SECOND - server.now > server.skew || time.value * SECOND - server.now < -server.skew then Rejected(ClockSkew)
    else Check(raw, mac, server, c.value, time.value, Header)
  }

  ghost function CheckPresign(raw: Raw, mac: Mac, server: Server): Outcome {
    var query := LenientQuery(raw.query);
    var time, c := ParseInt(First(query, PARAM_EXPIRES)), ParsePresign(query);
    if c.None? || time.None? then Rejected(MalformedRequest)
    else if time.value < server.now / SECOND then Rejected(PresignExpired)
    else if time.value - server.now / SECOND > server.maxPresign then Rejected(PresignTooLong)
    else Check(raw, mac, server, c.value, time.value, Presign)
  }

  ghost function Authenticate(raw: Raw, mac: Mac, server: Server): Outcome {
    var inHeader, inQuery := HasHeader(raw.headers, AUTHORIZATION), !NoSig(LenientQuery(raw.query));
    if !inHeader && !inQuery then Anonymous
    else if inHeader && inQuery then Rejected(MalformedRequest)
    else if inHeader then CheckHeader(raw, mac, server)
    else CheckPresign(raw, mac, server)
  }

  // ---------- what a client signs is accepted ----------

  lemma {:induction false} NoneMissing(headers: map<Text, seq<Text>>, names: seq<Text>)
    ensures FirstMissing(headers, names).None? <==> forall name | name in names :: HasHeader(headers, name)
  {
    if names != [] {
      NoneMissing(headers, names[1..]);
      assert names[0] in names;
    }
  }

  lemma DeliveredIsPresent(req: Request, headers: map<Text, seq<Text>>)
    requires Delivered(req, headers)
    ensures FirstMissing(headers, SignedNames(req.signed)).None?
  {
    hide SignedNames, Collapse;
    forall name | name in SignedNames(req.signed)
      ensures HasHeader(headers, name)
    {
      assert HeaderValue(JoinedHeaders(headers), name).Some?;
    }
    NoneMissing(headers, SignedNames(req.signed));
  }

  /** The key is known and enabled and its MAC of the canonical request is the signature, printed in hexadecimal. */
  ghost predicate Signs(server: Server, mac: Mac, keyId: Text, canonical: Text, signature: Text) {
    && server.lookup && keyId in server.keys && !server.keys[keyId].disabled && keyId != []
    && signature == mac(server.keys[keyId].secret, canonical) && Hex(signature)
  }

  /** What arrives when a client sends a request signed in the header. */
  ghost predicate SentInHeader(req: Request, keyId: Text, time: int, signature: Text, raw: Raw) {
    && raw.verb == req.verb && raw.path == EncodePath(req.path) && raw.query == EncodeQuery(req.query)
    && Delivered(req, raw.headers) && HasHeader(raw.headers, AUTHORIZATION)
    && HeaderText(raw.headers, DATE) == Decimal(time)
    && HeaderText(raw.headers, AUTHORIZATION) == Authorization(keyId, req.signed, signature)
  }

  /** What arrives when a client follows a presigned URL. */
  ghost predicate SentPresigned(req: Request, keyId: Text, expires: int, signature: Text, raw: Raw) {
    && raw.verb == req.verb && raw.path == EncodePath(req.path) && raw.query == PresignQuery(req, keyId, expires, signature)
    && Delivered(req, raw.headers) && !HasHeader(raw.headers, AUTHORIZATION)
  }

  lemma CheckPasses(raw: Raw, mac: Mac, server: Server, req: Request, keyId: Text, time: int, mode: Mode, signature: Text)
    requires Signs(server, mac, keyId, Canonical(req, keyId, time, mode), signature) && Delivered(req, raw.headers)
    requires var rebuilt := SigRequest(raw, SignedNames(req.signed));
             rebuilt.Some? && Canonical(rebuilt.value, keyId, time, mode) == Canonical(req, keyId, time, mode)
    ensures Check(raw, mac, server, Credentials(keyId, SignedNames(req.signed), signature), time, mode) == Caller(keyId)
  {
    hide Canonical, SigRequest, Delivered, FirstMissing, SignedNames;
    DeliveredIsPresent(req, raw.headers);
  }

  /** A request signed in the header is authenticated as its key, unless its key id or a name holds the
      field separator or its query a parameter of the signature's name: then it is malformed. */
  lemma SignedRequestAccepted(req: Request, keyId: Text, time: int, signature: Text, mac: Mac, server: Server, raw: Raw)
    requires WellFormed(req) && Int64(time)
    requires Signs(server, mac, keyId, Canonical(req, keyId, time, Header), signature)
    requires -server.skew <= time * SECOND - server.now <= server.skew
    requires SentInHeader(req, keyId, time, signature, raw)
    ensures Authenticate(raw, mac, server)
            == if !NoSig(req.query) || Contains(keyId, COMMA) || Contains(SignedList(req.signed), COMMA) then Rejected(MalformedRequest)
               else Caller(keyId)
  {
    hide WellFormed, Canonical, SignedNames, Authenticate, SigRequest, Delivered, EncodePath, EncodeQuery, Check, NoSig, Hex, HasHeader,
      HeaderText, Authorization, Decimal, SignedList, Contains, SentInHeader, COMMA;
    HeaderFormParsed(req, keyId, time, signature, raw, mac, server);
    if NoSig(req.query) && !Contains(keyId, COMMA) && !Contains(SignedList(req.signed), COMMA) {
      SentParts(req, keyId, time, signature, raw);
      HeaderFormRebuilt(req, keyId, time, raw);
      RebuiltNoSig(req, keyId, time, raw);
      CheckPasses(raw, mac, server, req, keyId, time, Header, signature);
    }
  }

  lemma SentParts(req: Request, keyId: Text, time: int, signature: Text, raw: Raw)
    requires SentInHeader(req, keyId, time, signature, raw)
    ensures raw.verb == req.verb && raw.path == EncodePath(req.path) && raw.query == EncodeQuery(req.query)
    ensures Delivered(req, raw.headers)
  {
  }

  lemma RebuiltNoSig(req: Request, keyId: Text, time: int, raw: Raw)
    requires NoSig(req.query)
    ensures forall p | p in req.query :: p.name != PARAM_SIG
  {
  }

  lemma QueryHasSig(query: seq<Param>)
    ensures NoSig(LenientQuery(EncodeQuery(query))) <==> NoSig(query)
  {
    hide LenientQuery, EncodeQuery, Sort, PARAM_SIG;
    QueryRoundTrip(query);
    MembersOf(Sort(PairLe, query), query);
  }

  lemma HeaderCredentials(req: Request, keyId: Text, signature: Text)
    requires WellFormed(req) && keyId != [] && Hex(signature)
    ensures ParseAuthorization(Authorization(keyId, req.signed, signature))
            == if Contains(keyId, COMMA) || Contains(SignedList(req.signed), COMMA) then None
               else Some(Credentials(keyId, SignedNames(req.signed), signature))
  {
    hide WellFormed, Contains, SignedNames, Authorization, ParseAuthorization, NamesIn, Hex, SignedList, COMMA;
    HexIsOneField(signature);
    AuthorizationExact(keyId, req.signed, signature);
    NamesAreClean(req);
    NamesSurvive(req.signed);
  }

  lemma HeaderFormParsed(req: Request, keyId: Text, time: int, signature: Text, raw: Raw, mac: Mac, server: Server)
    requires WellFormed(req) && Int64(time) && keyId != [] && Hex(signature)
    requires -server.skew <= time * SECOND - server.now <= server.skew
    requires SentInHeader(req, keyId, time, signature, raw)
    ensures Authenticate(raw, mac, server)
            == if !NoSig(req.query) || Contains(keyId, COMMA) || Contains(SignedList(req.signed), COMMA) then Rejected(MalformedRequest)
               else Check(raw, mac, server, Credentials(keyId, SignedNames(req.signed), signature), time, Header)
  {
    hide WellFormed, Contains, SignedNames, Authorization, ParseAuthorization, HeaderText, HasHeader, LenientQuery, NoSig,
      EncodePath, EncodeQuery, Decimal, ParseInt, Delivered, Check, Hex, SignedList, COMMA, CheckPresign;
    ParseDecimal(time);
    QueryHasSig(req.query);
    HeaderCredentials(req, keyId, signature);
  }

  lemma HexIsOneField(signature: Text)
    requires Hex(signature)
    ensures !Contains(signature, COMMA) && signature != []
  {
    AbsentByte(signature, COMMA, 0);
  }

  /** A presigned URL within its window is authenticated as its key, exactly if the signature the server reads is the MAC
      of the request without the caller's parameters of the signature's name. If there are none, that is so. */
  lemma PresignedRequestAccepted(req: Request, keyId: Text, expires: int, signature: Text, mac: Mac, server: Server, raw: Raw)
    requires WellFormed(req) && Int64(expires)
    requires Signs(server, mac, keyId, Canonical(req, keyId, expires, Presign), signature)
    requires SentPresigned(req, keyId, expires, signature, raw)
    ensures var read := SigRead(req, keyId, expires, signature);
            Authenticate(raw, mac, server)
            == if read == [] then Rejected(MalformedRequest)
               else if expires < server.now / SECOND then Rejected(PresignExpired)
               else if expires > server.now / SECOND + server.maxPresign then Rejected(PresignTooLong)
               else if read == mac(server.keys[keyId].secret, Canonical(Stripped(req), keyId, expires, Presign)) then Caller(keyId)
               else Rejected(BadSignature)
    ensures NoSig(req.query) ==>
              && SigRead(req, keyId, expires, signature) != []
              && SigRead(req, keyId, expires, signature)
                 == mac(server.keys[keyId].secret, Canonical(Stripped(req), keyId, expires, Presign))
  {
    hide WellFormed, Canonical, SignedNames, Authenticate, SigRequest, Delivered, PresignQuery, EncodePath, Check, NoSig, Hex, HasHeader,
      SigRead, Stripped;
    PresignFormParsed(req, keyId, expires, signature, raw, mac, server);
    RebuiltIsStripped(req, keyId, expires, signature, raw);
    StrippedExact(req, keyId, expires);
    SigReadExact(req, keyId, expires, signature);
    HexIsOneField(signature);
    PresignChecked(raw, mac, server, req, keyId, expires, SigRead(req, keyId, expires, signature));
  }

  lemma PresignChecked(raw: Raw, mac: Mac, server: Server, req: Request, keyId: Text, expires: int, read: Text)
    requires server.lookup && keyId in server.keys && !server.keys[keyId].disabled && Delivered(req, raw.headers)
    requires var rebuilt := SigRequest(raw, SignedNames(req.signed));
             rebuilt.Some? && Canonical(rebuilt.value, keyId, expires, Presign) == Canonical(Stripped(req), keyId, expires, Presign)
    ensures Check(raw, mac, server, Credentials(keyId, SignedNames(req.signed), read), expires, Presign)
            == if read == mac(server.keys[keyId].secret, Canonical(Stripped(req), keyId, expires, Presign)) then Caller(keyId)
               else Rejected(BadSignature)
  {
    hide Canonical, SigRequest, Delivered, FirstMissing, SignedNames;
    DeliveredIsPresent(req, raw.headers);
  }

  lemma PresignFormParsed(req: Request, keyId: Text, expires: int, signature: Text, raw: Raw, mac: Mac, server: Server)
    requires WellFormed(req) && Int64(expires) && keyId != [] && Hex(signature)
    requires SentPresigned(req, keyId, expires, signature, raw)
    ensures var read := SigRead(req, keyId, expires, signature);
            Authenticate(raw, mac, server)
            == if read == [] then Rejected(MalformedRequest)
               else if expires < server.now / SECOND then Rejected(PresignExpired)
               else if expires > server.now / SECOND + server.maxPresign then Rejected(PresignTooLong)
               else Check(raw, mac, server, Credentials(keyId, SignedNames(req.signed), read), expires, Presign)
  {
    hide WellFormed, SignedNames, HasHeader, LenientQuery, RawQuery, PresignQuery, ParsePresign, First, PARAM_EXPIRES, PARAM_SIG,
      EncodePath, ParseInt, Delivered, Sort, NamesIn, Hex, PresignPairs, Check, SigRead, NoSig;
    PresignParsed(req, keyId, expires, signature);
    NamesAreClean(req);
    NamesSurvive(req.signed);
  }

  // ---------- how a client sends it ----------

  function OneEach(headers: map<Text, Text>): map<Text, seq<Text>> {
    map name | name in headers :: [headers[name]]
  }

  /** The request with the two headers the signer adds. */
  function SendInHeader(req: Request, keyId: Text, time: int, signature: Text): Raw {
    Raw(req.verb, EncodePath(req.path), EncodeQuery(req.query),
        OneEach(req.headers)[AUTHORIZATION := [Authorization(keyId, req.signed, signature)]][DATE := [Decimal(time)]])
  }

  function FollowUrl(req: Request, keyId: Text, expires: int, signature: Text): Raw {
    Raw(req.verb, EncodePath(req.path), PresignQuery(req, keyId, expires, signature), OneEach(req.headers))
  }

  /** Header names are distinct ignoring case, every signed header has a value, and the signer's own are not among them. */
  ghost predicate Sendable(req: Request) {
    && CaseDistinct(req.headers)
    && (forall name | name in SignedNames(req.signed) :: HeaderValue(req.headers, name).Some?)
    && forall k | k in req.headers :: !SameName(k, AUTHORIZATION) && !SameName(k, DATE)
  }

  lemma OwnNamesDiffer()
    ensures !SameName(AUTHORIZATION, DATE)
  {
    assert |Lower(AUTHORIZATION)| == 13 && |Lower(DATE)| == 12;
  }

  /** Adding headers of other names leaves the signed ones as they are. */
  lemma DeliveredAmong(req: Request, headers: map<Text, seq<Text>>)
    requires Sendable(req) && CaseDistinct(JoinedHeaders(headers))
    requires forall k | k in req.headers :: k in headers && headers[k] == [req.headers[k]]
    ensures Delivered(req, headers)
  {
    hide SignedNames, Lower, Collapse, SameName;
    forall name | name in SignedNames(req.signed)
      ensures HeaderValue(req.headers, name).Some?
      ensures SignedValue(JoinedHeaders(headers), name) == SignedValue(req.headers, name)
    {
      var k :| k in req.headers && SameName(k, name);
      SameValue(req.headers, name, k);
      SameValue(JoinedHeaders(headers), name, k);
      assert JoinedHeaders(headers)[k] == req.headers[k];
    }
  }

  /** What a client sends is what the theorems above ask to arrive. */
  lemma RequestArrives(req: Request, keyId: Text, time: int, signature: Text)
    requires Sendable(req)
    ensures SentInHeader(req, keyId, time, signature, SendInHeader(req, keyId, time, signature))
    ensures CaseDistinct(JoinedHeaders(SendInHeader(req, keyId, time, signature).headers))
  {
    hide SignedNames, Lower, Collapse, EncodePath, EncodeQuery, Authorization, Decimal, AUTHORIZATION, DATE;
    var raw := SendInHeader(req, keyId, time, signature);
    OwnNamesDiffer();
    assert AUTHORIZATION in raw.headers && DATE in raw.headers && SameName(AUTHORIZATION, AUTHORIZATION) && SameName(DATE, DATE);
    assert AUTHORIZATION != DATE;
    hide SameName;
    forall j, k | j in JoinedHeaders(raw.headers) && k in JoinedHeaders(raw.headers) && SameName(j, k)
      ensures j == k
    {
      NameIsSymmetric(j, k);
    }
    DeliveredAmong(req, raw.headers);
    UniqueText(raw.headers, AUTHORIZATION);
    UniqueText(raw.headers, DATE);
  }

  lemma NameIsSymmetric(j: Text, k: Text)
    ensures SameName(j, k) <==> SameName(k, j)
  {
  }

  lemma UniqueText(headers: map<Text, seq<Text>>, name: Text)
    requires CaseDistinct(JoinedHeaders(headers)) && name in headers && SameName(name, name) && headers[name] != []
    ensures HasHeader(headers, name) && HeaderText(headers, name) == headers[name][0]
  {
    hide SameName;
    forall k | k in headers && SameName(k, name)
      ensures k == name
    {
      assert k in JoinedHeaders(headers) && name in JoinedHeaders(headers);
    }
  }

  lemma UrlArrives(req: Request, keyId: Text, expires: int, signature: Text)
    requires Sendable(req)
    ensures SentPresigned(req, keyId, expires, signature, FollowUrl(req, keyId, expires, signature))
    ensures CaseDistinct(JoinedHeaders(FollowUrl(req, keyId, expires, signature).headers))
  {
    hide SignedNames, SameName, Collapse, EncodePath, PresignQuery, AUTHORIZATION, DATE;
    var raw := FollowUrl(req, keyId, expires, signature);
    forall j, k | j in JoinedHeaders(raw.headers) && k in JoinedHeaders(raw.headers) && SameName(j, k)
      ensures j == k
    {
      assert j in req.headers && k in req.headers;
    }
    DeliveredAmong(req, raw.headers);
  }

  // ---------- what is accepted is what a client signed ----------

  /** HTTP lets no header name be empty or hold a separator. */
  predicate Tokens(headers: map<Text, seq<Text>>) {
    forall name | name in headers :: name != [] && '\n' !in name && ';' !in name && ':' !in name
  }

  lemma SignedAreTokens(headers: map<Text, seq<Text>>, signed: seq<Text>)
    requires Tokens(headers) && FirstMissing(headers, signed).None?
    ensures forall name | name in signed :: name != [] && '\n' !in name && ';' !in name && ':' !in name
  {
    NoneMissing(headers, signed);
    forall name | name in signed
      ensures name != [] && '\n' !in name && ';' !in name && ':' !in name
    {
      var k :| k in headers && SameName(k, name);
      assert |Lower(k)| == |Lower(name)|;
      forall i | 0 <= i < |name|
        ensures name[i] != '\n' && name[i] != ';' && name[i] != ':'
      {
        assert Lower(k)[i] == Lower(name)[i] && k[i] in k;
      }
    }
  }

  /** Whoever is let through named an enabled key, was within the window of its form, and presented the MAC of the very
      request the server rebuilt. */
  lemma CallerIsChecked(raw: Raw, mac: Mac, server: Server, keyId: Text) returns (c: Credentials, time: int, mode: Mode)
    requires Authenticate(raw, mac, server) == Caller(keyId)
    ensures Check(raw, mac, server, c, time, mode) == Caller(keyId) && c.keyId == keyId
    ensures keyId in server.keys && !server.keys[keyId].disabled && FirstMissing(raw.headers, c.signed).None?
    ensures SigRequest(raw, c.signed).Some?
    ensures c.signature == mac(server.keys[keyId].secret, Canonical(SigRequest(raw, c.signed).value, keyId, time, mode))
    ensures mode == if HasHeader(raw.headers, AUTHORIZATION) then Header else Presign
    ensures mode.Header? ==> -server.skew <= time * SECOND - server.now <= server.skew
    ensures mode.Presign? ==> server.now / SECOND <= time <= server.now / SECOND + server.maxPresign
  {
    hide Canonical, SigRequest, FirstMissing, HasHeader, HeaderText, LenientQuery, ParseAuthorization, ParsePresign, ParseInt, First, NoSig;
    if HasHeader(raw.headers, AUTHORIZATION) {
      mode, time := Header, ParseInt(HeaderText(raw.headers, DATE)).value;
      c := ParseAuthorization(HeaderText(raw.headers, AUTHORIZATION)).value;
    } else {
      mode, time := Presign, ParseInt(First(LenientQuery(raw.query), PARAM_EXPIRES)).value;
      c := ParsePresign(LenientQuery(raw.query)).value;
    }
  }

  /** A request that is let through with a signature some client made is the one that was signed, in method, path,
      signed query, signed headers and time, or the MAC takes two different canonical strings to the same text. The form
      need not be the one it was signed in. */
  lemma AcceptedIsSigned(
      req: Request, keyId: Text, time: int, form: Mode, mac: Mac, server: Server, raw: Raw, c: Credentials, seen: int, mode: Mode)
    requires WellFormed(req) && Int64(time) && Int64(seen) && '\n' !in raw.verb && Tokens(raw.headers)
    requires Check(raw, mac, server, c, seen, mode) == Caller(c.keyId)
    requires c.signature == mac(server.keys[c.keyId].secret, Canonical(req, keyId, time, form))
    ensures SigRequest(raw, c.signed).Some?
    ensures var got, secret := SigRequest(raw, c.signed).value, server.keys[c.keyId].secret;
            var rebuilt, signed := Canonical(got, c.keyId, seen, mode), Canonical(req, keyId, time, form);
            || (&& got.verb == req.verb && SamePath(got.path, req.path) && SameHeaders(got, req) && seen == time
                && multiset(SignedQuery(got, c.keyId, seen, mode)) == multiset(SignedQuery(req, keyId, time, form)))
            || (rebuilt != signed && mac(secret, rebuilt) == mac(secret, signed))
  {
    hide Canonical, SignedNames, FirstMissing, RawQuery, PathSegments, JoinedHeaders, SameHeaders, SignedQuery;
    var got := SigRequest(raw, c.signed).value;
    SignedAreTokens(raw.headers, c.signed);
    CanonicalExact(got, c.keyId, seen, mode, req, keyId, time, form);
  }

  /** And it need not: the signature of a presigned URL is, for as long as its expiry is within the skew of the clock,
      also that of the request signed in the header whose query holds the presigned parameters, before and after the
      URL itself expired. */
  lemma SignatureServesBothForms(
      req: Request, keyId: Text, expires: int, signature: Text, mac: Mac, server: Server)
    requires WellFormed(req) && Sendable(req) && NoSig(req.query) && Int64(expires)
    requires Signs(server, mac, keyId, Canonical(req, keyId, expires, Presign), signature)
    requires !Contains(keyId, COMMA) && !Contains(SignedList(req.signed), COMMA)
    requires -server.skew <= expires * SECOND - server.now <= server.skew
    ensures var asHeader := req.(query := PresignPairs(req, keyId, expires));
            Authenticate(SendInHeader(asHeader, keyId, expires, signature), mac, server) == Caller(keyId)
    ensures expires < server.now / SECOND ==>
              Authenticate(FollowUrl(req, keyId, expires, signature), mac, server) == Rejected(PresignExpired)
  {
    hide WellFormed, Canonical, Authenticate, Contains, COMMA, SignedList, SentInHeader, SentPresigned, PresignPairs, NoSig,
      Hex, SendInHeader, FollowUrl, SigRead;
    var asHeader := req.(query := PresignPairs(req, keyId, expires));
    FormsShareTheString(req, keyId, expires, keyId);
    HeaderVersion(req, keyId, expires);
    RequestArrives(asHeader, keyId, expires, signature);
    SignedRequestAccepted(asHeader, keyId, expires, signature, mac, server, SendInHeader(asHeader, keyId, expires, signature));
    if expires < server.now / SECOND {
      UrlArrives(req, keyId, expires, signature);
      PresignedRequestAccepted(req, keyId, expires, signature, mac, server, FollowUrl(req, keyId, expires, signature));
    }
  }

  lemma HeaderVersion(req: Request, keyId: Text, expires: int)
    requires WellFormed(req) && Sendable(req) && NoSig(req.query)
    ensures var asHeader := req.(query := PresignPairs(req, keyId, expires));
            WellFormed(asHeader) && Sendable(asHeader) && NoSig(asHeader.query)
  {
    hide SignedNames, CaseDistinct, HeaderValue, SameName, Foreign, OwnPairs, PARAM_SIG;
    OwnPairsExact(req.signed, keyId, expires, req.signed, keyId, expires);
    OwnIsNotSig(OwnPairs(req.signed, keyId, expires));
    ForeignNoSig(req.query);
  }

  // ---------- every outcome ----------

  /** The credentials of a presigned request, from its query. */
  ghost predicate PresignReads(query: seq<Param>, c: Credentials) {
    && c.keyId != [] && c.keyId == First(query, PARAM_KEY)
    && c.signature != [] && c.signature == First(query, PARAM_SIG)
    && c.signed == if First(query, PARAM_HEADERS) == [] then [] else Split(First(query, PARAM_HEADERS), ";")
  }

  /** The request carries the credentials and the time in that form, and none in the other. */
  ghost predicate Presents(raw: Raw, form: Mode, c: Credentials, time: int) {
    var query := LenientQuery(raw.query);
    match form
    case Header =>
      && HasHeader(raw.headers, AUTHORIZATION) && !Has(query, PARAM_SIG)
      && ParseAuthorization(HeaderText(raw.headers, AUTHORIZATION)) == Some(c)
      && ParseInt(HeaderText(raw.headers, DATE)) == Some(time)
    case Presign =>
      && !HasHeader(raw.headers, AUTHORIZATION) && Has(query, PARAM_SIG)
      && PresignReads(query, c) && ParseInt(First(query, PARAM_EXPIRES)) == Some(time)
  }

  /** A request's date is within the skew of the clock; an expiry is not past, and not too far ahead. Clock and windows of
      the header form are in nanoseconds. */
  predicate InWindow(server: Server, form: Mode, time: int) {
    match form
    case Header => -server.skew <= time * 1_000_000_000 - server.now <= server.skew
    case Presign => server.now / 1_000_000_000 <= time <= server.now / 1_000_000_000 + server.maxPresign
  }

  /** A signed name, the first in the list for which the request has no header. */
  ghost predicate MissingAt(raw: Raw, signed: seq<Text>, name: Text, i: int) {
    0 <= i < |signed| && signed[i] == name && !HasHeader(raw.headers, name) && forall j | 0 <= j < i :: HasHeader(raw.headers, signed[j])
  }

  predicate Enabled(server: Server, keyId: Text) {
    keyId in server.keys && !server.keys[keyId].disabled
  }

  /** Credentials in their window of an enabled key, with every signed header there: what is left is the signature. */
  ghost predicate Identified(raw: Raw, server: Server, form: Mode, c: Credentials, time: int) {
    && Presents(raw, form, c, time) && InWindow(server, form, time) && server.lookup && Enabled(server, c.keyId)
    && forall name | name in c.signed :: HasHeader(raw.headers, name)
  }

  ghost predicate Unreadable(raw: Raw) {
    forall form, c, time :: !Presents(raw, form, c, time)
  }

  /** When each outcome is due. */
  ghost predicate Due(raw: Raw, mac: Mac, server: Server, o: Outcome) {
    var inHeader, inQuery := HasHeader(raw.headers, AUTHORIZATION), Has(LenientQuery(raw.query), PARAM_SIG);
    match o
    case Anonymous => !inHeader && !inQuery
    case Rejected(MalformedRequest) =>
      || ((inHeader || inQuery) && Unreadable(raw))
      || (exists form, c, time :: Identified(raw, server, form, c, time) && SigRequest(raw, c.signed).None?)
    case Rejected(ClockSkew) => exists c, time :: Presents(raw, Header, c, time) && !InWindow(server, Header, time)
    case Rejected(PresignExpired) => exists c, time :: Presents(raw, Presign, c, time) && time < server.now / 1_000_000_000
    case Rejected(PresignTooLong) =>
      exists c, time :: Presents(raw, Presign, c, time) && time > server.now / 1_000_000_000 + server.maxPresign
                        && time >= server.now / 1_000_000_000
    case Rejected(LookupFailed) => !server.lookup && exists form, c, time :: Presents(raw, form, c, time) && InWindow(server, form, time)
    case Rejected(UnknownKey) =>
      server.lookup
      && exists form, c, time :: Presents(raw, form, c, time) && InWindow(server, form, time) && !Enabled(server, c.keyId)
    case Rejected(MissingSignedHeader(name)) =>
      server.lookup
      && exists form, c, time :: Presents(raw, form, c, time) && InWindow(server, form, time) && Enabled(server, c.keyId)
                                 && exists i :: MissingAt(raw, c.signed, name, i)
    case Rejected(BadSignature) =>
      exists form, c, time :: Identified(raw, server, form, c, time) && SigRequest(raw, c.signed).Some?
        && c.signature != mac(server.keys[c.keyId].secret, Canonical(SigRequest(raw, c.signed).value, c.keyId, time, form))
    case Caller(keyId) =>
      exists form, c, time :: Identified(raw, server, form, c, time) && SigRequest(raw, c.signed).Some? && c.keyId == keyId
        && c.signature == mac(server.keys[keyId].secret, Canonical(SigRequest(raw, c.signed).value, keyId, time, form))
  }

  lemma PresignReadsExact(query: seq<Param>, c: Credentials)
    ensures ParsePresign(query) == Some(c) <==> PresignReads(query, c)
  {
    hide First, Split;
  }

  /** A request presents at most one form, one set of credentials and one time. */
  lemma PresentsOnce(raw: Raw, form: Mode, c: Credentials, time: int, form': Mode, c': Credentials, time': int)
    requires Presents(raw, form, c, time) && Presents(raw, form', c', time')
    ensures form == form' && c == c' && time == time'
  {
    hide HasHeader, HeaderText, LenientQuery, Has, First, ParseAuthorization, ParseInt, Split;
  }

  lemma {:induction false} FirstMissingExact(raw: Raw, signed: seq<Text>, name: Text)
    ensures FirstMissing(raw.headers, signed) == Some(name) <==> exists i :: MissingAt(raw, signed, name, i)
  {
    hide HasHeader;
    if signed != [] {
      FirstMissingExact(raw, signed[1..], name);
      if HasHeader(raw.headers, signed[0]) {
        if i :| MissingAt(raw, signed, name, i) {
          assert MissingAt(raw, signed[1..], name, i - 1);
        }
        if i :| MissingAt(raw, signed[1..], name, i) {
          assert forall j | 0 <= j < i + 1 :: j == 0 || signed[j] == signed[1..][j - 1];
          assert MissingAt(raw, signed, name, i + 1);
        }
      } else {
        assert MissingAt(raw, signed, signed[0], 0);
      }
    }
  }

  /** What is due to a request that presents these credentials. */
  ghost predicate DueTo(raw: Raw, mac: Mac, server: Server, form: Mode, c: Credentials, time: int, o: Outcome) {
    var known := InWindow(server, form, time) && server.lookup && Enabled(server, c.keyId);
    var identified := known && forall name | name in c.signed :: HasHeader(raw.headers, name);
    var rebuilt := SigRequest(raw, c.signed);
    match o
    case Anonymous => false
    case Rejected(MalformedRequest) => identified && rebuilt.None?
    case Rejected(ClockSkew) => form.Header? && !InWindow(server, form, time)
    case Rejected(PresignExpired) => form.Presign? && time < server.now / 1_000_000_000
    case Rejected(PresignTooLong) =>
      form.Presign? && time > server.now / 1_000_000_000 + server.maxPresign && time >= server.now / 1_000_000_000
    case Rejected(LookupFailed) => InWindow(server, form, time) && !server.lookup
    case Rejected(UnknownKey) => InWindow(server, form, time) && server.lookup && !Enabled(server, c.keyId)
    case Rejected(MissingSignedHeader(name)) => known && exists i :: MissingAt(raw, c.signed, name, i)
    case Rejected(BadSignature) =>
      identified && rebuilt.Some? && c.signature != mac(server.keys[c.keyId].secret, Canonical(rebuilt.value, c.keyId, time, form))
    case Caller(keyId) =>
      identified && rebuilt.Some? && c.keyId == keyId
      && c.signature == mac(server.keys[keyId].secret, Canonical(rebuilt.value, keyId, time, form))
  }

  lemma DueToPresented(raw: Raw, mac: Mac, server: Server, form: Mode, c: Credentials, time: int, o: Outcome)
    requires Presents(raw, form, c, time)
    ensures Due(raw, mac, server, o) <==> DueTo(raw, mac, server, form, c, time, o)
  {
    hide Presents, InWindow, Enabled, SigRequest, Canonical, HasHeader, LenientQuery, Has;
    CarriesOne(raw, form, c, time);
    forall form', c', time' | Presents(raw, form', c', time')
      ensures form' == form && c' == c && time' == time
    {
      PresentsOnce(raw, form, c, time, form', c', time');
    }
    assert form == Header || form == Presign;
    assert Identified(raw, server, form, c, time)
      <==> && InWindow(server, form, time) && server.lookup && Enabled(server, c.keyId)
           && forall name | name in c.signed :: HasHeader(raw.headers, name);
    assert !Unreadable(raw);
  }

  lemma CarriesOne(raw: Raw, form: Mode, c: Credentials, time: int)
    requires Presents(raw, form, c, time)
    ensures HasHeader(raw.headers, AUTHORIZATION) || Has(LenientQuery(raw.query), PARAM_SIG)
  {
    hide HasHeader, HeaderText, LenientQuery, Has, First, ParseAuthorization, ParseInt, Split;
  }

  /** The middleware on presented credentials. */
  ghost function CheckInWindow(raw: Raw, mac: Mac, server: Server, form: Mode, c: Credentials, time: int): Outcome {
    if form.Header? && (time * SECOND - server.now > server.skew || time * SECOND - server.now < -server.skew) then Rejected(ClockSkew)
    else if form.Presign? && time < server.now / SECOND then Rejected(PresignExpired)
    else if form.Presign? && time - server.now / SECOND > server.maxPresign then Rejected(PresignTooLong)
    else Check(raw, mac, server, c, time, form)
  }

  lemma CheckedIsDue(raw: Raw, mac: Mac, server: Server, form: Mode, c: Credentials, time: int, o: Outcome)
    ensures CheckInWindow(raw, mac, server, form, c, time) == o <==> DueTo(raw, mac, server, form, c, time, o)
  {
    hide SigRequest, Canonical, HasHeader, FirstMissing, MissingAt;
    NoneMissing(raw.headers, c.signed);
    if o.Rejected? && o.why.MissingSignedHeader? {
      FirstMissingExact(raw, c.signed, o.why.name);
    }
  }

  lemma HasIsNoSig(query: seq<Param>)
    ensures Has(query, PARAM_SIG) <==> !NoSig(query)
  {
    hide PARAM_SIG;
    if i :| 0 <= i < |query| && query[i].name == PARAM_SIG {
      assert query[i] in query;
    }
    if p :| p in query && p.name == PARAM_SIG {
      var i :| 0 <= i < |query| && query[i] == p;
    }
  }

  lemma AuthenticatePresented(raw: Raw, mac: Mac, server: Server, form: Mode, c: Credentials, time: int)
    requires Presents(raw, form, c, time)
    ensures Authenticate(raw, mac, server) == CheckInWindow(raw, mac, server, form, c, time)
  {
    hide HasHeader, HeaderText, LenientQuery, Has, First, ParseAuthorization, ParsePresign, ParseInt, Split, NoSig, Check, PresignReads;
    HasIsNoSig(LenientQuery(raw.query));
    if form.Presign? {
      PresignReadsExact(LenientQuery(raw.query), c);
    }
  }

  lemma AuthenticateUnread(raw: Raw, mac: Mac, server: Server)
    requires Unreadable(raw)
    ensures Authenticate(raw, mac, server)
            == if HasHeader(raw.headers, AUTHORIZATION) || Has(LenientQuery(raw.query), PARAM_SIG) then Rejected(MalformedRequest)
               else Anonymous
  {
    hide HasHeader, HeaderText, LenientQuery, Has, First, ParseAuthorization, ParsePresign, ParseInt, Split, NoSig, Check, PresignReads;
    var query := LenientQuery(raw.query);
    HasIsNoSig(query);
    var h, time := ParseAuthorization(HeaderText(raw.headers, AUTHORIZATION)), ParseInt(HeaderText(raw.headers, DATE));
    var p, expires := ParsePresign(query), ParseInt(First(query, PARAM_EXPIRES));
    if h.Some? && time.Some? {
      assert !Presents(raw, Header, h.value, time.value);
    }
    if p.Some? && expires.Some? {
      PresignReadsExact(query, p.value);
      assert !Presents(raw, Presign, p.value, expires.value);
    }
  }

  lemma UnreadIsDue(raw: Raw, mac: Mac, server: Server, o: Outcome)
    requires Unreadable(raw)
    ensures Authenticate(raw, mac, server) == o <==> Due(raw, mac, server, o)
  {
    hide Presents, Authenticate, HasHeader, LenientQuery, Has, InWindow, Enabled, SigRequest, Canonical, AUTHORIZATION, PARAM_SIG;
    AuthenticateUnread(raw, mac, server);
    NoneIdentified(raw, server);
  }

  lemma NoneIdentified(raw: Raw, server: Server)
    requires Unreadable(raw)
    ensures forall form, c, time :: !Identified(raw, server, form, c, time)
  {
    hide Presents;
  }

  lemma PresentedIsDue(raw: Raw, mac: Mac, server: Server, form: Mode, c: Credentials, time: int, o: Outcome)
    requires Presents(raw, form, c, time)
    ensures Authenticate(raw, mac, server) == o <==> Due(raw, mac, server, o)
  {
    hide Presents, Authenticate, DueTo, CheckInWindow, Due;
    AuthenticatePresented(raw, mac, server, form, c, time);
    CheckedIsDue(raw, mac, server, form, c, time, o);
    DueToPresented(raw, mac, server, form, c, time, o);
  }

  /** Every outcome of authentication, of every request: each is the one given exactly when it is due. */
  lemma OutcomeExact(raw: Raw, mac: Mac, server: Server, o: Outcome)
    ensures Authenticate(raw, mac, server) == o <==> Due(raw, mac, server, o)
    ensures AUTHORIZATION == "Authorization" && DATE == "X-Tunna-Date"
  {
    hide Presents, Authenticate, Due;
    if form, c, time :| Presents(raw, form, c, time) {
      PresentedIsDue(raw, mac, server, form, c, time, o);
    } else {
      UnreadIsDue(raw, mac, server, o);
    }
  }

  // ---------- the middleware itself ----------

  method HeaderReader(headers: map<Text, seq<Text>>, name: Text) returns (found: bool, text: Text)
    requires CaseDistinct(JoinedHeaders(headers))
    ensures found == HasHeader(headers, name) && text == HeaderText(headers, name)
  {
    var rest := headers.Keys;
    while rest != {}
      invariant rest <= headers.Keys
      invariant forall k | k in headers && SameName(k, name) :: k in rest
      decreases rest
    {
      var k :| k in rest;
      if SameName(k, name) {
        forall j | j in headers && SameName(j, name)
          ensures j == k
        {
          assert j in JoinedHeaders(headers) && k in JoinedHeaders(headers);
        }
        return true, if headers[k] == [] then [] else headers[k][0];
      }
      rest := rest - {k};
    }
    return false, [];
  }

  method Checker(raw: Raw, mac: Mac, server: Server, c: Credentials, time: int, mode: Mode) returns (o: Outcome)
    requires CaseDistinct(JoinedHeaders(raw.headers))
    ensures o == Check(raw, mac, server, c, time, mode)
  {
    hide SigRequest, Canonical, HeaderText, HasHeader, Lists;
    if !server.lookup {
      return Rejected(LookupFailed);
    }
    if c.keyId !in server.keys || server.keys[c.keyId].disabled {
      return Rejected(UnknownKey);
    }
    assert c.signed[0..] == c.signed;
    for i := 0 to |c.signed|
      invariant FirstMissing(raw.headers, c.signed) == FirstMissing(raw.headers, c.signed[i..])
    {
      assert c.signed[i..][0] == c.signed[i] && c.signed[i..][1..] == c.signed[i + 1..];
      var found, text := HeaderReader(raw.headers, c.signed[i]);
      if !found {
        return Rejected(MissingSignedHeader(c.signed[i]));
      }
    }
    var ok, path, query, headers := SigRequestBuilder(raw, c.signed);
    if !ok {
      return Rejected(MalformedRequest);
    }
    RebuiltFields(raw, c.signed);
    var canonical := CanonicalBuilder(raw.verb, path, query, headers, c.signed, c.keyId, time, mode);
    if mac(server.keys[c.keyId].secret, canonical) != c.signature {
      return Rejected(BadSignature);
    }
    return Caller(c.keyId);
  }

  lemma RebuiltFields(raw: Raw, signed: seq<Text>)
    requires SigRequest(raw, signed).Some?
    ensures var req := SigRequest(raw, signed).value;
            && req == Request(raw.verb, req.path, req.query, req.headers, signed)
            && req.headers == JoinedHeaders(raw.headers)
  {
  }

  method Authenticator(raw: Raw, mac: Mac, server: Server) returns (o: Outcome)
    requires CaseDistinct(JoinedHeaders(raw.headers))
    ensures o == Authenticate(raw, mac, server)
  {
    hide Check, HeaderText, HasHeader, LenientQuery, CaseDistinct, ParseAuthorization, ParseInt, First, ParsePresign;
    var query := LenientQuery(raw.query);
    var inHeader, authorization := HeaderReader(raw.headers, AUTHORIZATION);
    var inQuery := !NoSig(query);
    if !inHeader && !inQuery {
      return Anonymous;
    }
    if inHeader && inQuery {
      return Rejected(MalformedRequest);
    }
    if inHeader {
      var _, date := HeaderReader(raw.headers, DATE);
      var time := ParseInt(date);
      if time.None? {
        return Rejected(MalformedRequest);
      }
      var c := AuthorizationParser(authorization);
      if c.None? {
        return Rejected(MalformedRequest);
      }
      var d := time.value * SECOND - server.now;
      if d > server.skew || d < -server.skew {
        return Rejected(ClockSkew);
      }
      o := Checker(raw, mac, server, c.value, time.value, Header);
    } else {
      var c := ParsePresign(query);
      if c.None? {
        return Rejected(MalformedRequest);
      }
      var time := ParseInt(First(query, PARAM_EXPIRES));
      if time.None? {
        return Rejected(MalformedRequest);
      }
      if time.value < server.now / SECOND {
        return Rejected(PresignExpired);
      }
      if time.value - server.now / SECOND > server.maxPresign {
        return Rejected(PresignTooLong);
      }
      o := Checker(raw, mac, server, c.value, time.value, Presign);
    }
  }
}
