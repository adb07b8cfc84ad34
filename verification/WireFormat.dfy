/** The signed text and what carries the signature, in the terms of sections 3.2 to 3.4 of spec/wire.md. */
module WireFormat {
  import opened Wrappers
  import opened Text
  import opened Encode
  import opened Signing
  import opened Auth
  import opened Authentication

  /** Bytewise, with repetitions. */
  ghost predicate InOrder(names: seq<Text>) {
    forall i, j | 0 <= i < j < |names| :: !Precedes(names[j], names[i])
  }

  /** The signed names are the given ones in lower case, in bytewise order. */
  lemma SignedNamesExact(signed: seq<Text>, names: seq<Text>)
    ensures names == SignedNames(signed) <==> multiset(names) == multiset(LowerAll(signed)) && InOrder(names)
  {
    hide Lower, StringLe, Precedes;
    NamesOf(signed);
    OrderIsSorted(SignedNames(signed));
    OrderIsSorted(names);
    LeIsTotal();
    if multiset(names) == multiset(LowerAll(signed)) && InOrder(names) {
      SortedUnique(Le, names, SignedNames(signed));
    }
  }

  lemma OrderIsSorted(names: seq<Text>)
    ensures InOrder(names) <==> Sorted<Text>(Le, names)
  {
    hide StringLe, Precedes;
    forall i, j | 0 <= i < j < |names|
      ensures !Precedes(names[j], names[i]) <==> Le(names[i], names[j])
    {
      PrecedesExact(names[j], names[i]);
    }
  }

  /** The header block's lines: one for each signed header the request has, in the order of the names. */
  ghost predicate IsBlock(headers: map<Text, Text>, names: seq<Text>, lines: seq<Text>) {
    if names == [] then lines == []
    else
      var value := HeaderValue(headers, names[0]);
      if value.None? then IsBlock(headers, names[1..], lines)
      else lines != [] && lines[0] == names[0] + ":" + Join(Fields(value.value), " ") && IsBlock(headers, names[1..], lines[1..])
  }

  lemma {:induction false} BlockLines(headers: map<Text, Text>, names: seq<Text>)
    ensures IsBlock(headers, names, HeaderBlock(headers, names))
  {
    hide HeaderValue, Fields;
    if names != [] {
      BlockLines(headers, names[1..]);
      var value := HeaderValue(headers, names[0]);
      if value.Some? {
        assert HeaderBlock(headers, names)[1..] == HeaderBlock(headers, names[1..]);
      } else {
        assert [] + HeaderBlock(headers, names[1..]) == HeaderBlock(headers, names[1..]);
      }
    }
  }

  /** The parameters a presigned request signs: the caller's but those of the three names, and the three. */
  lemma PresignedParameters(req: Request, keyId: Text, expires: int, p: Param)
    ensures multiset(PresignPairs(req, keyId, expires))[p] ==
            if p.name == "x-tunna-key" then if p.value == keyId then 1 else 0
            else if p.name == "x-tunna-expires" then if p.value == Decimal(expires) then 1 else 0
            else if p.name == "x-tunna-headers" then if p.value == Join(SignedNames(req.signed), ";") then 1 else 0
            else multiset(req.query)[p]
  {
    hide Decimal, SignedNames, Foreign, Join;
    var own := OwnPairs(req.signed, keyId, expires);
    ForeignTimes(req.query, p);
    OwnTripleNames(own);
    TripleTimes(own, p);
    assert multiset(Foreign(req.query) + own) == multiset(Foreign(req.query)) + multiset(own);
  }

  /** The seven lines of the signed text. */
  lemma CanonicalText(req: Request, keyId: Text, time: int, mode: Mode)
    ensures var names := SignedNames(req.signed);
            var params := if mode.Header? then req.query else PresignPairs(req, keyId, time);
            exists block :: IsBlock(req.headers, names, block)
              && Canonical(req, keyId, time, mode)
                 == "TUNNA1" + "\n" + (req.verb + "\n" + ("/" + Join(EncodeAll(req.path), "/") + "\n" + (EncodeQuery(params) + "\n"
                    + (Join(names, ";") + "\n" + (Join(block, "\n") + "\n" + Decimal(time))))))
  {
    hide SignedNames, EncodeAll, EncodeQuery, Decimal, HeaderBlock, PresignPairs, IsBlock;
    var names := SignedNames(req.signed);
    var block := HeaderBlock(req.headers, names);
    BlockLines(req.headers, names);
    var lines: seq<Text> := [SCHEME, req.verb, EncodePath(req.path), QueryLine(req, keyId, time, mode), Join(names, ";"),
                             Join(block, "\n"), Decimal(time)];
    JoinSeven(lines);
  }

  lemma JoinSeven(l: seq<Text>)
    requires |l| == 7
    ensures Join(l, "\n") == l[0] + "\n" + (l[1] + "\n" + (l[2] + "\n" + (l[3] + "\n" + (l[4] + "\n" + (l[5] + "\n" + l[6])))))
  {
    assert l[1..][1..] == l[2..] && l[2..][1..] == l[3..] && l[3..][1..] == l[4..] && l[4..][1..] == l[5..] && l[5..][1..] == l[6..];
    assert Join(l[6..], "\n") == l[6];
    assert Join(l[5..], "\n") == l[5] + "\n" + Join(l[6..], "\n");
    assert Join(l[4..], "\n") == l[4] + "\n" + Join(l[5..], "\n");
    assert Join(l[3..], "\n") == l[3] + "\n" + Join(l[4..], "\n");
    assert Join(l[2..], "\n") == l[2] + "\n" + Join(l[3..], "\n");
    assert Join(l[1..], "\n") == l[1] + "\n" + Join(l[2..], "\n");
  }

  /** What the two forms send: the Authorization header, and the query of a presigned URL. */
  lemma SentTexts(req: Request, keyId: Text, time: int, signature: Text)
    ensures Authorization(keyId, req.signed, signature)
            == "TUNNA1-HMAC-SHA256 key=" + keyId + ", headers=" + Join(SignedNames(req.signed), ";") + ", sig=" + signature
    ensures PresignQuery(req, keyId, time, signature)
            == EncodeQuery(PresignPairs(req, keyId, time)) + "&x-tunna-sig=" + signature
  {
    hide SignedNames, EncodeQuery, PresignPairs, Join;
  }

  // ---------- what the server rebuilds ----------

  /** A header is found by its name in any case. */
  lemma HeaderFound(headers: map<Text, Text>, name: Text, value: Text)
    requires CaseDistinct(headers)
    ensures HeaderValue(headers, name) == Some(value) <==> exists k :: k in headers && Lower(k) == Lower(name) && headers[k] == value
    ensures HeaderValue(headers, name) == None <==> forall k | k in headers :: Lower(k) != Lower(name)
  {
    hide Lower;
  }

  /** So is one of a request as it arrives, and its first value is read. */
  lemma HeaderRead(headers: map<Text, seq<Text>>, name: Text)
    requires CaseDistinct(JoinedHeaders(headers))
    ensures HasHeader(headers, name) <==> exists k :: k in headers && Lower(k) == Lower(name)
    ensures forall k | k in headers && Lower(k) == Lower(name) ::
              HeaderText(headers, name) == if headers[k] == [] then [] else headers[k][0]
  {
    hide Lower, Join;
    forall j, k | j in headers && k in headers && Lower(j) == Lower(k)
      ensures j == k
    {
      assert j in JoinedHeaders(headers) && k in JoinedHeaders(headers);
    }
  }

  /** Each part of a path, decoded. */
  ghost predicate Decodes(parts: seq<Text>, segments: seq<Text>) {
    |segments| == |parts| && forall i | 0 <= i < |parts| :: Unescape(parts[i], false) == Some(segments[i])
  }

  lemma {:induction false} DecodeAllExact(parts: seq<Text>, segments: seq<Text>)
    ensures DecodeAll(parts) == Some(segments) <==> Decodes(parts, segments)
  {
    hide Unescape;
    if parts != [] {
      if segments != [] {
        DecodeAllExact(parts[1..], segments[1..]);
        assert segments == [segments[0]] + segments[1..];
        assert Decodes(parts, segments) ==> Decodes(parts[1..], segments[1..]);
      }
    }
  }

  /** A path is read as the segments between its slashes, decoded one by one; the root has none. */
  lemma PathReads(rest: Text, segments: seq<Text>)
    ensures PathSegments("/" + rest) == Some(segments)
        <==> if rest == [] then segments == []
             else exists parts: seq<Text> ::
                    Join(parts, "/") == rest && parts != [] && (forall p | p in parts :: '/' !in p) && Decodes(parts, segments)
  {
    hide Unescape, Split, Join, Decodes, DecodeAll;
    assert ("/" + rest)[1..] == rest && ("/" + rest)[..1] == "/";
    var own := Split(rest, "/");
    SplitUnique(rest, "/", own);
    DecodeAllExact(own, segments);
    forall p: Text
      ensures Contains(p, "/") <==> '/' in p
    {
      PresentByte(p, '/');
    }
    forall parts: seq<Text> | Join(parts, "/") == rest && parts != [] && (forall p | p in parts :: '/' !in p)
      ensures parts == own
    {
      SplitUnique(rest, "/", parts);
    }
  }

  /** The request the server checks: the path's segments, the parameters but the signature's in their order, each header's
      values joined by a comma and a space, and the names as presented. */
  lemma RebuiltExact(raw: Raw, signed: seq<Text>)
    ensures SigRequest(raw, signed).Some? <==> PathSegments(raw.path).Some? && RawQuery(raw.query).Some?
    ensures SigRequest(raw, signed).Some? ==>
              var req := SigRequest(raw, signed).value;
              && req.verb == raw.verb && req.signed == signed && PathSegments(raw.path) == Some(req.path)
              && IsWithout(RawQuery(raw.query).value, "x-tunna-sig", req.query)
              && req.headers.Keys == raw.headers.Keys
              && forall name | name in raw.headers :: req.headers[name] == Join(raw.headers[name], ", ")
  {
    hide PathSegments, RawQuery, Join;
    if RawQuery(raw.query).Some? {
      WithoutIs(RawQuery(raw.query).value, PARAM_SIG);
    }
  }

  /** The list without the parameters of that name. */
  predicate IsWithout(pairs: seq<Param>, name: Text, rest: seq<Param>) {
    if pairs == [] then rest == []
    else if pairs[0].name == name then IsWithout(pairs[1..], name, rest)
    else rest != [] && rest[0] == pairs[0] && IsWithout(pairs[1..], name, rest[1..])
  }

  lemma {:induction false} WithoutIs(pairs: seq<Param>, name: Text)
    ensures IsWithout(pairs, name, Without(pairs, name))
  {
    if pairs != [] {
      WithoutIs(pairs[1..], name);
      if pairs[0].name == name {
        assert [] + Without(pairs[1..], name) == Without(pairs[1..], name);
      } else {
        assert Without(pairs, name)[1..] == Without(pairs[1..], name);
      }
    }
  }
}
