/** Credentials on the wire and the request the server rebuilds to check them: internal/httpapi/auth.go against
    sig/sign.go. The MAC is a parameter: any function from a secret and a canonical request to hex digits. */
module Auth {
  import opened Wrappers
  import opened Text
  import opened Encode
  import opened Signing

  const ALGORITHM: Text := "TUNNA1-HMAC-SHA256"
  const COMMA: Text := ", "
  const SECOND: int := 1_000_000_000

  /** A request as it arrives: the raw path and query, and the values of each header. */
  datatype Raw = Raw(verb: Text, path: Text, query: Text, headers: map<Text, seq<Text>>)

  datatype Credentials = Credentials(keyId: Text, signed: seq<Text>, signature: Text)

  // ---------- what the client sends ----------

  function SignedList(signed: seq<Text>): Text {
    Join(SignedNames(signed), ";")
  }

  function Authorization(keyId: Text, signed: seq<Text>, signature: Text): Text {
    var space: Text, key: Text, headers: Text, sig: Text := " ", "key=", "headers=", "sig=";
    ALGORITHM + space + (key + keyId + COMMA + (headers + SignedList(signed) + COMMA + (sig + signature)))
  }

  function PresignQuery(req: Request, keyId: Text, expires: int, signature: Text): Text {
    var sep: Text := "&";
    EncodeQuery(PresignPairs(req, keyId, expires)) + sep + Print(Param(PARAM_SIG, signature))
  }

  // ---------- what the server reads: the header form ----------

  function NamesIn(list: Text): seq<Text> {
    if list == [] then [] else Split(list, ";")
  }

  /** One field after another: each known, each once. */
  function ParseFields(fields: seq<Text>, seen: set<Text>, c: Credentials): Option<Credentials> {
    if fields == [] then Some(c)
    else
      var (name, val, ok) := Cut(fields[0], "=");
      if !ok || name in seen then None
      else if name == "key" then ParseFields(fields[1..], seen + {name}, c.(keyId := val))
      else if name == "headers" then ParseFields(fields[1..], seen + {name}, c.(signed := if val != [] then Split(val, ";") else c.signed))
      else if name == "sig" then ParseFields(fields[1..], seen + {name}, c.(signature := val))
      else None
  }

  const NO_CREDENTIALS: Credentials := Credentials([], [], [])

  function ParseAuthorization(value: Text): Option<Credentials> {
    if !StartsWith(value, ALGORITHM + " ") then None
    else
      var c := ParseFields(Split(value[|ALGORITHM| + 1..], COMMA), {}, NO_CREDENTIALS);
      if c.None? || c.value.keyId == [] || c.value.signature == [] then None else c
  }

  /** The field is `name=value`. */
  predicate IsField(field: Text, name: Text, value: Text) {
    '=' !in name && field == name + "=" + value
  }

  lemma CutExact(field: Text, name: Text, value: Text)
    ensures Cut(field, "=") == (name, value, true) <==> IsField(field, name, value)
  {
    hide Find;
    if IsField(field, name, value) {
      AbsentByte(name, "=", 0);
      CutFirst(name, "=", value);
    }
    if Cut(field, "=") == (name, value, true) {
      FoundAt(field, "=");
      FindExact(field, "=");
      var i := Find(field, "=");
      forall j | 0 <= j < |name|
        ensures name[j] != '='
      {
        assert !Occurs(field, "=", j);
        assert field[j..j + 1] == [field[j]];
      }
    }
  }

  method AuthorizationParser(value: Text) returns (parsed: Option<Credentials>)
    ensures parsed == ParseAuthorization(value)
  {
    if !StartsWith(value, ALGORITHM + " ") {
      return None;
    }
    hide Split, Cut;
    var fields := Split(value[|ALGORITHM| + 1..], COMMA);
    var c, seen: set<Text> := NO_CREDENTIALS, {};
    assert fields[0..] == fields;
    for i := 0 to |fields|
      invariant ParseFields(fields[i..], seen, c) == ParseFields(fields, {}, NO_CREDENTIALS)
    {
      assert fields[i..][0] == fields[i] && fields[i..][1..] == fields[i + 1..];
      var (name, val, ok) := Cut(fields[i], "=");
      if !ok || name in seen {
        return None;
      }
      seen := seen + {name};
      if name == "key" {
        c := c.(keyId := val);
      } else if name == "headers" {
        if val != [] {
          c := c.(signed := Split(val, ";"));
        }
      } else if name == "sig" {
        c := c.(signature := val);
      } else {
        return None;
      }
    }
    assert fields[|fields|..] == [];
    if c.keyId == [] || c.signature == [] {
      return None;
    }
    return Some(c);
  }

  /** A field after its tag holds a separator only if its value does. */
  lemma LabelledField(tag: Text, value: Text)
    requires ',' !in tag && '=' !in tag
    ensures Contains(tag + "=" + value, COMMA) <==> Contains(value, COMMA)
    ensures Cut(tag + "=" + value, "=") == (tag, value, true)
  {
    AbsentByte(tag, "=", 0);
    CutFirst(tag, "=", value);
    var prefix: Text := tag + "=";
    assert ',' !in prefix;
    PrefixContains(prefix, value);
  }

  lemma {:induction false} PrefixContains(prefix: Text, value: Text)
    requires ',' !in prefix
    ensures Contains(prefix + value, COMMA) <==> Contains(value, COMMA)
    decreases |prefix|
  {
    if prefix == [] {
      assert prefix + value == value;
    } else {
      PrefixContains(prefix[1..], value);
      assert (prefix + value)[1..] == prefix[1..] + value;
      assert COMMA[0] == ',';
      assert (prefix + value)[0] != ',';
      assert |prefix + value| >= 2 ==> (prefix + value)[..2][0] == prefix[0];
    }
  }

  lemma SplitSingle(s: Text, sep: Text)
    requires Separator(sep)
    ensures |Split(s, sep)| == 1 <==> !Contains(s, sep)
    ensures !Contains(s, sep) ==> Split(s, sep) == [s]
  {
  }

  /** Only three fields are known, and none may come twice. */
  lemma {:induction false} AtMostThree(fields: seq<Text>, seen: set<Text>, c: Credentials)
    requires seen <= {"key", "headers", "sig"} && ParseFields(fields, seen, c).Some?
    ensures |fields| + |seen| <= 3
    decreases |fields|
  {
    hide Cut, Split;
    var known: set<Text> := {"key", "headers", "sig"};
    if fields == [] {
      SubsetSize(seen, known);
      ThreeNames();
    } else {
      var (name, val, ok) := Cut(fields[0], "=");
      var c' := if name == "key" then c.(keyId := val)
                else if name == "headers" then c.(signed := if val != [] then Split(val, ";") else c.signed)
                else c.(signature := val);
      AtMostThree(fields[1..], seen + {name}, c');
    }
  }

  lemma ThreeNames()
    ensures |{"key", "headers", "sig"}| <= 3
  {
  }

  lemma {:induction false} SubsetSize<T>(a: set<T>, b: set<T>)
    requires a <= b
    ensures |a| <= |b|
    decreases |a|
  {
    if a != {} {
      var x :| x in a;
      SubsetSize(a - {x}, b - {x});
    }
  }

  /** The three fields of a printed header, split at the separator. */
  function Fields3(keyId: Text, list: Text, signature: Text): seq<Text> {
    Split("key=" + keyId, COMMA) + (Split("headers=" + list, COMMA) + Split("sig=" + signature, COMMA))
  }

  lemma ParseThree(keyId: Text, list: Text, signature: Text)
    requires !Contains(keyId, COMMA) && !Contains(list, COMMA) && !Contains(signature, COMMA)
    ensures Fields3(keyId, list, signature) == ["key=" + keyId, "headers=" + list, "sig=" + signature]
    ensures ParseFields(Fields3(keyId, list, signature), {}, NO_CREDENTIALS) == Some(Credentials(keyId, NamesIn(list), signature))
  {
    hide Split, Cut, Contains;
    var key: Text, headers: Text, sig: Text := "key", "headers", "sig";
    LabelledField(key, keyId);
    LabelledField(headers, list);
    LabelledField(sig, signature);
    SplitSingle(key + "=" + keyId, COMMA);
    SplitSingle(headers + "=" + list, COMMA);
    SplitSingle(sig + "=" + signature, COMMA);
    assert key + "=" + keyId == "key=" + keyId;
    assert headers + "=" + list == "headers=" + list;
    assert sig + "=" + signature == "sig=" + signature;
    var f := Fields3(keyId, list, signature);
    assert f == ["key=" + keyId, "headers=" + list, "sig=" + signature];
    ThreeSteps(f, keyId, list, signature);
  }

  lemma ThreeSteps(f: seq<Text>, keyId: Text, list: Text, signature: Text)
    requires |f| == 3 && Cut(f[0], "=") == ("key", keyId, true)
    requires Cut(f[1], "=") == ("headers", list, true) && Cut(f[2], "=") == ("sig", signature, true)
    ensures ParseFields(f, {}, NO_CREDENTIALS) == Some(Credentials(keyId, NamesIn(list), signature))
  {
    hide Split, Cut;
    var key: Text, headers: Text, sig: Text := "key", "headers", "sig";
    var c1 := NO_CREDENTIALS.(keyId := keyId);
    var c2 := c1.(signed := if list != [] then Split(list, ";") else c1.signed);
    var c3 := c2.(signature := signature);
    assert ParseFields(f[3..], {key, headers, sig}, c3) == Some(c3);
    assert f[2..][0] == f[2] && f[2..][1..] == f[3..] && {key, headers} + {sig} == {key, headers, sig};
    assert |sig| == 3 && sig[0] == 's' && |key| == 3 && key[0] == 'k' && |headers| == 7;
    assert ParseFields(f[2..], {key, headers}, c2) == Some(c3);
    assert f[1..][0] == f[1] && f[1..][1..] == f[2..] && {key} + {headers} == {key, headers};
    assert ParseFields(f[1..], {key}, c1) == Some(c3);
    assert {} + {key} == {key};
  }

  // What any header is read as.

  predicate Known(name: Text) {
    name == "key" || name == "headers" || name == "sig"
  }

  /** Each field is one of the three, and none comes twice. */
  predicate Fits(fields: seq<Text>, seen: set<Text>) {
    fields == [] ||
    var (name, _, ok) := Cut(fields[0], "=");
    ok && Known(name) && name !in seen && Fits(fields[1..], seen + {name})
  }

  /** The value of the field of that name, or the given one. */
  function Lookup(fields: seq<Text>, name: Text, default: Text): Text {
    if fields == [] then default
    else if Cut(fields[0], "=").0 == name then Cut(fields[0], "=").1
    else Lookup(fields[1..], name, default)
  }

  lemma {:induction false} SeenIsAbsent(fields: seq<Text>, seen: set<Text>, name: Text, default: Text)
    requires Fits(fields, seen) && name in seen
    ensures Lookup(fields, name, default) == default
    decreases |fields|
  {
    hide Cut;
    if fields != [] {
      SeenIsAbsent(fields[1..], seen + {Cut(fields[0], "=").0}, name, default);
    }
  }

  function NamesOr(list: Text, signed: seq<Text>): seq<Text> {
    if list != [] then Split(list, ";") else signed
  }

  lemma {:induction false} FoldFits(fields: seq<Text>, seen: set<Text>, c: Credentials)
    ensures ParseFields(fields, seen, c).Some? <==> Fits(fields, seen)
    ensures Fits(fields, seen) ==>
              ParseFields(fields, seen, c).value ==
              Credentials(Lookup(fields, "key", c.keyId), NamesOr(Lookup(fields, "headers", []), c.signed),
                          Lookup(fields, "sig", c.signature))
    decreases |fields|
  {
    hide Cut, Split;
    if fields != [] {
      var (name, val, ok) := Cut(fields[0], "=");
      NamesDiffer();
      if ok && Known(name) && name !in seen {
        var c' := if name == "key" then c.(keyId := val)
                  else if name == "headers" then c.(signed := NamesOr(val, c.signed))
                  else c.(signature := val);
        FoldFits(fields[1..], seen + {name}, c');
        if Fits(fields, seen) {
          SeenIsAbsent(fields[1..], seen + {name}, name, []);
          SeenIsAbsent(fields[1..], seen + {name}, name, val);
        }
      }
    }
  }

  lemma NamesDiffer()
    ensures var key: Text, headers: Text, sig: Text := "key", "headers", "sig"; key != headers && key != sig && headers != sig
  {
    var key: Text, headers: Text, sig: Text := "key", "headers", "sig";
    assert key[0] == 'k' && headers[0] == 'h' && sig[0] == 's';
  }

  /** The fields are the key and the signature, and perhaps the signed names, in any order. */
  ghost predicate AreFields(fields: seq<Text>, c: Credentials) {
    var key, sig := "key=" + c.keyId, "sig=" + c.signature;
    || (multiset(fields) == multiset{key, sig} && c.signed == [])
    || (exists list: Text :: multiset(fields) == multiset{key, sig, "headers=" + list} && c.signed == NamesIn(list))
  }

  lemma Perm2<T>(s: seq<T>, x: T, y: T)
    requires x != y
    ensures multiset(s) == multiset{x, y} <==> s == [x, y] || s == [y, x]
  {
    if multiset(s) == multiset{x, y} {
      assert |multiset(s)| == 2;
      assert s == [s[0], s[1]];
      assert s[0] in multiset(s) && s[1] in multiset(s);
      assert multiset(s) == multiset{s[0], s[1]};
      assert multiset(s)[x] == 1 && multiset(s)[y] == 1;
    }
  }

  lemma FirstOfThree<T>(s: seq<T>, x: T, y: T, z: T)
    requires x != y && x != z && y != z && s != [] && s[0] == x && multiset(s) == multiset{x, y, z}
    ensures s == [x, y, z] || s == [x, z, y]
  {
    var rest := s[1..];
    assert s == [s[0]] + rest;
    assert multiset(rest) == multiset(s) - multiset{x};
    assert multiset(rest) == multiset{y, z};
    Perm2(rest, y, z);
  }

  lemma Perm3<T>(s: seq<T>, x: T, y: T, z: T)
    requires x != y && x != z && y != z && multiset(s) == multiset{x, y, z}
    ensures s == [x, y, z] || s == [x, z, y] || s == [y, x, z] || s == [y, z, x] || s == [z, x, y] || s == [z, y, x]
  {
    assert |multiset(s)| == 3;
    assert s[0] in multiset(s);
    if s[0] == x {
      FirstOfThree(s, x, y, z);
    } else if s[0] == y {
      assert multiset(s) == multiset{y, x, z};
      FirstOfThree(s, y, x, z);
    } else {
      assert multiset(s) == multiset{z, x, y};
      FirstOfThree(s, z, x, y);
    }
  }

  /** The three fields are told apart by their first byte. */
  lemma FieldsDiffer(k: Text, h: Text, s: Text)
    ensures "key=" + k != "sig=" + s && "key=" + k != "headers=" + h && "sig=" + s != "headers=" + h
    ensures Cut("key=" + k, "=") == ("key", k, true)
    ensures Cut("headers=" + h, "=") == ("headers", h, true)
    ensures Cut("sig=" + s, "=") == ("sig", s, true)
  {
    var key: Text, headers: Text, sig: Text := "key", "headers", "sig";
    assert ("key=" + k)[0] == 'k' && ("sig=" + s)[0] == 's' && ("headers=" + h)[0] == 'h';
    assert "key=" + k == key + "=" + k && "headers=" + h == headers + "=" + h && "sig=" + s == sig + "=" + s;
    CutExact("key=" + k, key, k);
    CutExact("headers=" + h, headers, h);
    CutExact("sig=" + s, sig, s);
  }

  lemma UnrollFits(f: seq<Text>)
    requires |f| <= 3
    ensures Fits(f, {}) <==>
              && (forall i | 0 <= i < |f| :: Cut(f[i], "=").2 && Known(Cut(f[i], "=").0))
              && (forall i, j | 0 <= i < j < |f| :: Cut(f[i], "=").0 != Cut(f[j], "=").0)
    ensures forall name, default :: Lookup(f, name, default) ==
              if |f| > 0 && Cut(f[0], "=").0 == name then Cut(f[0], "=").1
              else if |f| > 1 && Cut(f[1], "=").0 == name then Cut(f[1], "=").1
              else if |f| > 2 && Cut(f[2], "=").0 == name then Cut(f[2], "=").1
              else default
  {
    hide Cut, Known;
    if |f| > 0 {
      var a := Cut(f[0], "=").0;
      assert Fits(f, {}) <==> Cut(f[0], "=").2 && Known(a) && Fits(f[1..], {} + {a});
      if |f| > 1 {
        var b := Cut(f[1], "=").0;
        assert f[1..][1..] == f[2..];
        assert Fits(f[1..], {} + {a}) <==> Cut(f[1], "=").2 && Known(b) && b != a && Fits(f[2..], {} + {a} + {b});
        if |f| > 2 {
          var c := Cut(f[2], "=").0;
          assert f[2..][1..] == [];
          assert Fits(f[2..], {} + {a} + {b}) <==> Cut(f[2], "=").2 && Known(c) && c != a && c != b;
        }
      }
    }
  }

  lemma {:induction false} FoundField(fields: seq<Text>, name: Text) returns (i: nat)
    requires Lookup(fields, name, []) != []
    ensures i < |fields| && Cut(fields[i], "=").0 == name && Cut(fields[i], "=").1 == Lookup(fields, name, [])
  {
    hide Cut;
    if Cut(fields[0], "=").0 == name {
      i := 0;
    } else {
      var j := FoundField(fields[1..], name);
      i := j + 1;
    }
  }

  lemma {:induction false} LookupAt(fields: seq<Text>, seen: set<Text>, i: nat)
    requires Fits(fields, seen) && i < |fields|
    ensures Cut(fields[i], "=").0 !in seen && Lookup(fields, Cut(fields[i], "=").0, []) == Cut(fields[i], "=").1
    ensures IsField(fields[i], Cut(fields[i], "=").0, Cut(fields[i], "=").1) && Known(Cut(fields[i], "=").0)
  {
    hide Cut, Known;
    if i == 0 {
      CutExact(fields[0], Cut(fields[0], "=").0, Cut(fields[0], "=").1);
    } else {
      LookupAt(fields[1..], seen + {Cut(fields[0], "=").0}, i - 1);
    }
  }

  lemma ThreeAt<T>(s: seq<T>, a: nat, b: nat, c: nat)
    requires |s| == 3 && a < 3 && b < 3 && c < 3 && a != b && a != c && b != c
    ensures multiset(s) == multiset{s[a], s[b], s[c]}
  {
    assert s == [s[0], s[1], s[2]];
  }

  lemma TwoAt<T>(s: seq<T>, a: nat, b: nat)
    requires |s| == 2 && a < 2 && b < 2 && a != b
    ensures multiset(s) == multiset{s[a], s[b]}
  {
    assert s == [s[0], s[1]];
  }

  lemma Labelled(field: Text, name: Text, value: Text)
    requires IsField(field, name, value)
    ensures name == "key" ==> field == "key=" + value
    ensures name == "sig" ==> field == "sig=" + value
    ensures name == "headers" ==> field == "headers=" + value
  {
  }

  lemma NamedOnce(f: seq<Text>, i: nat, j: nat)
    requires Fits(f, {}) && i < |f| && j < |f| && Cut(f[i], "=").0 == Cut(f[j], "=").0 && |f| <= 3
    ensures i == j
  {
    hide Cut, Known;
    UnrollFits(f);
  }

  /** What fields that fit are made of. */
  lemma FitsAreFields(f: seq<Text>, c: Credentials)
    requires Fits(f, {}) && |f| <= 3 && c.keyId != [] && c.signature != []
    requires Lookup(f, "key", []) == c.keyId && Lookup(f, "sig", []) == c.signature
    requires c.signed == NamesOr(Lookup(f, "headers", []), [])
    ensures AreFields(f, c)
  {
    hide Cut, Fits, Split, Lookup, IsField;
    NamesDiffer();
    var a := FoundField(f, "key");
    var b := FoundField(f, "sig");
    LookupAt(f, {}, a);
    LookupAt(f, {}, b);
    Labelled(f[a], "key", c.keyId);
    Labelled(f[b], "sig", c.signature);
    if |f| == 2 {
      TwoAt(f, a, b);
      NoHeaders(f, a, b);
    } else {
      var i := 3 - a - b;
      LookupAt(f, {}, i);
      if Cut(f[i], "=").0 == "key" {
        NamedOnce(f, i, a);
      } else if Cut(f[i], "=").0 == "sig" {
        NamedOnce(f, i, b);
      }
      var list := Cut(f[i], "=").1;
      Labelled(f[i], "headers", list);
      ThreeAt(f, a, b, i);
    }
  }

  lemma NoHeaders(f: seq<Text>, a: nat, b: nat)
    requires |f| == 2 && a < 2 && b < 2 && a != b && Cut(f[a], "=").0 == "key" && Cut(f[b], "=").0 == "sig"
    ensures Lookup(f, "headers", []) == []
  {
    hide Cut, Lookup;
    NamesDiffer();
    UnrollFits(f);
  }

  /** Two fields of different known names fit, in either order, and so do three. */
  lemma TwoFit(f: seq<Text>, a: Text, b: Text)
    requires f == [a, b] || f == [b, a]
    requires Cut(a, "=").2 && Cut(b, "=").2 && Known(Cut(a, "=").0) && Known(Cut(b, "=").0) && Cut(a, "=").0 != Cut(b, "=").0
    ensures Fits(f, {}) && Lookup(f, Cut(a, "=").0, []) == Cut(a, "=").1 && Lookup(f, Cut(b, "=").0, []) == Cut(b, "=").1
    ensures forall name | name != Cut(a, "=").0 && name != Cut(b, "=").0 :: Lookup(f, name, []) == []
  {
    hide Cut, Known, Fits, Lookup;
    UnrollFits(f);
  }

  lemma ThreeFit(f: seq<Text>, a: Text, b: Text, c: Text)
    requires f == [a, b, c] || f == [a, c, b] || f == [b, a, c] || f == [b, c, a] || f == [c, a, b] || f == [c, b, a]
    requires Cut(a, "=").2 && Cut(b, "=").2 && Cut(c, "=").2
    requires Known(Cut(a, "=").0) && Known(Cut(b, "=").0) && Known(Cut(c, "=").0)
    requires Cut(a, "=").0 != Cut(b, "=").0 && Cut(a, "=").0 != Cut(c, "=").0 && Cut(b, "=").0 != Cut(c, "=").0
    ensures Fits(f, {}) && Lookup(f, Cut(a, "=").0, []) == Cut(a, "=").1
    ensures Lookup(f, Cut(b, "=").0, []) == Cut(b, "=").1 && Lookup(f, Cut(c, "=").0, []) == Cut(c, "=").1
  {
    hide Cut, Known, Fits, Lookup;
    UnrollFits(f);
  }

  lemma FieldsFit(f: seq<Text>, c: Credentials)
    requires AreFields(f, c)
    ensures Fits(f, {}) && Lookup(f, "key", []) == c.keyId && Lookup(f, "sig", []) == c.signature
    ensures NamesOr(Lookup(f, "headers", []), []) == c.signed
  {
    hide Cut, Fits, Lookup, Split;
    var key, sig := "key=" + c.keyId, "sig=" + c.signature;
    NamesDiffer();
    if multiset(f) == multiset{key, sig} && c.signed == [] {
      FieldsDiffer(c.keyId, [], c.signature);
      Perm2(f, key, sig);
      TwoFit(f, key, sig);
    } else {
      var list: Text :| multiset(f) == multiset{key, sig, "headers=" + list} && c.signed == NamesIn(list);
      FieldsDiffer(c.keyId, list, c.signature);
      Perm3(f, key, sig, "headers=" + list);
      ThreeFit(f, key, sig, "headers=" + list);
    }
  }

  /** Which headers are read, and as which credentials: the algorithm, a space and the key, the signature and perhaps the
      signed names, in any order and each at most once, separated by a comma and a space. */
  lemma AuthorizationReads(value: Text, c: Credentials)
    ensures ParseAuthorization(value) == Some(c)
        <==> c.keyId != [] && c.signature != []
             && exists fields :: fields != [] && AreFields(fields, c) && value == ALGORITHM + " " + Join(fields, COMMA)
                                 && forall f | f in fields :: !Contains(f, COMMA)
  {
    hide Split, Contains, Join, AreFields, Lookup, ParseFields, Fits, ALGORITHM;
    var start: Text := ALGORITHM + " ";
    assert Separator(COMMA);
    if StartsWith(value, start) {
      var rest := value[|ALGORITHM| + 1..];
      assert value == start + rest;
      var own := Split(rest, COMMA);
      SplitUnique(rest, COMMA, own);
      FoldFits(own, {}, NO_CREDENTIALS);
      if Fits(own, {}) {
        AtMostThree(own, {}, NO_CREDENTIALS);
      }
      if ParseAuthorization(value) == Some(c) {
        FitsAreFields(own, c);
      }
    }
    forall fields | fields != [] && AreFields(fields, c) && value == start + Join(fields, COMMA)
        && c.keyId != [] && c.signature != [] && forall f | f in fields :: !Contains(f, COMMA)
      ensures ParseAuthorization(value) == Some(c)
    {
      assert value[..|start|] == start && value[|start|..] == Join(fields, COMMA);
      SplitUnique(Join(fields, COMMA), COMMA, fields);
      FieldsFit(fields, c);
      FoldFits(fields, {}, NO_CREDENTIALS);
    }
  }

  /** The server reads an Authorization header back exactly when it names a key and neither the key id nor a signed
      name holds the field separator. */
  lemma AuthorizationExact(keyId: Text, signed: seq<Text>, signature: Text)
    requires signature != [] && !Contains(signature, COMMA)
    ensures ParseAuthorization(Authorization(keyId, signed, signature))
            == if keyId != [] && !Contains(keyId, COMMA) && !Contains(SignedList(signed), COMMA)
               then Some(Credentials(keyId, NamesIn(SignedList(signed)), signature)) else None
  {
    hide Split, Contains, SignedList, ParseFields, NamesIn;
    var list := SignedList(signed);
    var value := Authorization(keyId, signed, signature);
    var rest: Text := "key=" + keyId + COMMA + ("headers=" + list + COMMA + ("sig=" + signature));
    assert value == (ALGORITHM + " ") + rest;
    assert value[..|ALGORITHM| + 1] == ALGORITHM + " " && value[|ALGORITHM| + 1..] == rest;
    assert Separator(COMMA);
    SplitAt("key=" + keyId, COMMA, "headers=" + list + COMMA + ("sig=" + signature));
    SplitAt("headers=" + list, COMMA, "sig=" + signature);
    var fields := Split(rest, COMMA);
    assert fields == Fields3(keyId, list, signature);
    if !Contains(keyId, COMMA) && !Contains(list, COMMA) {
      ParseThree(keyId, list, signature);
    } else {
      TooManyFields(keyId, list, signature);
      if ParseFields(fields, {}, NO_CREDENTIALS).Some? {
        AtMostThree(fields, {}, NO_CREDENTIALS);
      }
    }
  }

  lemma TooManyFields(keyId: Text, list: Text, signature: Text)
    requires Contains(keyId, COMMA) || Contains(list, COMMA)
    ensures |Fields3(keyId, list, signature)| > 3
  {
    hide Split, Contains, Cut;
    var key: Text, headers: Text, sig: Text := "key", "headers", "sig";
    LabelledField(key, keyId);
    LabelledField(headers, list);
    SplitSingle(key + "=" + keyId, COMMA);
    SplitSingle(headers + "=" + list, COMMA);
    assert key + "=" + keyId == "key=" + keyId;
    assert headers + "=" + list == "headers=" + list;
  }

  /** The signed names survive the list they travel in. */
  lemma NamesSurvive(signed: seq<Text>)
    requires forall name | name in SignedNames(signed) :: name != [] && ';' !in name
    ensures NamesIn(SignedList(signed)) == SignedNames(signed)
    ensures SignedNames(SignedNames(signed)) == SignedNames(signed)
  {
    hide Contains;
    var names := SignedNames(signed);
    JoinedNotEmpty(names);
    forall name | name in names
      ensures !Contains(name, ";")
    {
      AbsentByte(name, ";", 0);
    }
    if names != [] {
      SplitJoin(names, ";");
    }
    SortedStays(signed);
  }

  lemma SortedStays(signed: seq<Text>)
    ensures SignedNames(SignedNames(signed)) == SignedNames(signed)
  {
    hide Lower;
    var names := SignedNames(signed);
    NamesOf(signed);
    forall i | 0 <= i < |names|
      ensures Lower(names[i]) == names[i]
    {
      assert names[i] in names;
      var given :| given in signed && names[i] == Lower(given);
      LowerTwice(given);
    }
    assert LowerAll(names) == names;
    LeIsTotal();
    SortSorts(Le, names);
    SortedUnique(Le, Sort(Le, names), names);
  }

  // ---------- what the server rebuilds ----------

  /** Every parameter but those of one name. */
  function Without(pairs: seq<Param>, name: Text): seq<Param> {
    if pairs == [] then [] else (if pairs[0].name == name then [] else [pairs[0]]) + Without(pairs[1..], name)
  }

  function JoinedHeaders(headers: map<Text, seq<Text>>): map<Text, Text> {
    map name | name in headers :: Join(headers[name], COMMA)
  }

  function SigRequest(raw: Raw, signed: seq<Text>): Option<Request> {
    var path, query := PathSegments(raw.path), RawQuery(raw.query);
    if path.None? || query.None? then None
    else Some(Request(raw.verb, path.value, Without(query.value, PARAM_SIG), JoinedHeaders(raw.headers), signed))
  }

  lemma {:induction false} WithoutTimes(pairs: seq<Param>, name: Text, p: Param)
    ensures multiset(Without(pairs, name))[p] == if p.name == name then 0 else multiset(pairs)[p]
  {
    if pairs != [] {
      WithoutTimes(pairs[1..], name, p);
      assert pairs == [pairs[0]] + pairs[1..];
    }
  }

  lemma {:induction false} WithoutLength(pairs: seq<Param>, name: Text)
    ensures |Without(pairs, name)| <= |pairs|
    ensures |Without(pairs, name)| == |pairs| <==> forall p | p in pairs :: p.name != name
    ensures |Without(pairs, name)| == |pairs| ==> Without(pairs, name) == pairs
  {
    if pairs != [] {
      WithoutLength(pairs[1..], name);
      assert pairs == [pairs[0]] + pairs[1..];
      assert pairs[0] in pairs;
    }
  }

  lemma WithoutExact(pairs: seq<Param>, name: Text)
    ensures multiset(Without(pairs, name)) == multiset(pairs) <==> forall p | p in pairs :: p.name != name
    ensures (forall p | p in pairs :: p.name != name) ==> Without(pairs, name) == pairs
  {
    hide Without;
    WithoutLength(pairs, name);
    assert |multiset(Without(pairs, name))| == |Without(pairs, name)| && |multiset(pairs)| == |pairs|;
  }

  /** The path and the query loops of sigRequest. */
  method SigRequestBuilder(raw: Raw, signed: seq<Text>)
    returns (ok: bool, path: seq<Text>, query: Values, headers: map<Text, Text>)
    ensures ok == SigRequest(raw, signed).Some?
    ensures ok ==> var req := SigRequest(raw, signed).value;
                   path == req.path && Lists(query, req.query) && headers == req.headers
  {
    hide Split, Unescape, RawQuery, Join, Lists;
    path, query, headers, ok := [], map[], map[], false;
    var trimmed := if StartsWith(raw.path, "/") then raw.path[1..] else raw.path;
    if trimmed != [] {
      var parts := Split(trimmed, "/");
      assert parts[0..] == parts;
      Continued([], DecodeAll(parts));
      for i := 0 to |parts|
        invariant PathSegments(raw.path) == Continue(path, DecodeAll(parts[i..]))
      {
        assert parts[i..][0] == parts[i] && parts[i..][1..] == parts[i + 1..];
        var segment := Unescape(parts[i], false);
        if segment.None? {
          return;
        }
        ContinueMore(path, segment.value, DecodeAll(parts[i + 1..]));
        path := path + [segment.value];
      }
      assert parts[|parts|..] == [];
      Continued(path, Some([]));
    }
    assert PathSegments(raw.path) == Some(path);
    var values := QueryParser(raw.query);
    if values.None? {
      return;
    }
    query := values.value - {PARAM_SIG};
    DelLists(RawQuery(raw.query).value, PARAM_SIG);
    var names := raw.headers.Keys;
    while names != {}
      invariant names <= raw.headers.Keys
      invariant headers == map name | name in raw.headers && name !in names :: Join(raw.headers[name], COMMA)
      decreases names
    {
      var name :| name in names;
      headers := headers[name := Join(raw.headers[name], COMMA)];
      names := names - {name};
    }
    assert headers == JoinedHeaders(raw.headers);
    ok := true;
  }

  function Continue(path: seq<Text>, rest: Option<seq<Text>>): Option<seq<Text>> {
    if rest.None? then None else Some(path + rest.value)
  }

  lemma ContinueMore(path: seq<Text>, segment: Text, rest: Option<seq<Text>>)
    ensures Continue(path, Continue([segment], rest)) == Continue(path + [segment], rest)
  {
    if rest.Some? {
      Assoc(path, [segment], rest.value);
    }
  }

  lemma Continued(path: seq<Text>, rest: Option<seq<Text>>)
    ensures Continue([], rest) == rest && Continue(path, Some([])) == Some(path)
  {
    assert path + [] == path;
    if rest.Some? {
      assert [] + rest.value == rest.value;
    }
  }

  lemma DelLists(pairs: seq<Param>, name: Text)
    ensures Lists(Collect(pairs) - {name}, Without(pairs, name))
  {
    CollectLists(pairs);
    forall p: Param
      ensures multiset(Without(pairs, name))[p] == Times(Collect(pairs) - {name}, p)
    {
      WithoutTimes(pairs, name, p);
    }
  }

  /** What transport keeps of the signed headers: each arrives once, its value as it was but for white space. */
  ghost predicate Delivered(req: Request, headers: map<Text, seq<Text>>) {
    forall name | name in SignedNames(req.signed) ::
      && HeaderValue(req.headers, name).Some?
      && SignedValue(JoinedHeaders(headers), name) == SignedValue(req.headers, name)
  }

  /** Header form: the server rebuilds the string the client signed, exactly when the caller's query has no
      parameter of the signature's name. */
  lemma HeaderFormRebuilt(req: Request, keyId: Text, time: int, raw: Raw)
    requires WellFormed(req) && Delivered(req, raw.headers)
    requires raw.verb == req.verb && raw.path == EncodePath(req.path) && raw.query == EncodeQuery(req.query)
    ensures var rebuilt := SigRequest(raw, SignedNames(req.signed));
            && rebuilt.Some?
            && (Canonical(rebuilt.value, keyId, time, Header) == Canonical(req, keyId, time, Header)
                <==> forall p | p in req.query :: p.name != PARAM_SIG)
  {
    hide EncodePath, EncodeQuery, RawQuery, PathSegments, Canonical, SignedNames, HeaderBlock, HeaderValue, WellFormed, JoinedHeaders;
    PathRoundTrip(req.path);
    PathStable(req.path);
    QueryRoundTrip(req.query);
    var sorted := Sort(PairLe, req.query);
    var rebuilt := SigRequest(raw, SignedNames(req.signed)).value;
    SortedStays(req.signed);
    SameBlock(req.headers, rebuilt.headers, SignedNames(req.signed));
    WithoutExact(sorted, PARAM_SIG);
    SameMembers(sorted, req.query);
    QueryInjective(rebuilt.query, req.query);
    if Canonical(rebuilt, keyId, time, Header) == Canonical(req, keyId, time, Header) {
      RebuiltWellFormed(req, rebuilt);
      EqualLines(rebuilt, keyId, time, req, keyId, time, Header);
      assert Five(rebuilt, keyId, time, Header)[3] == Five(req, keyId, time, Header)[3];
    }
    if forall p | p in req.query :: p.name != PARAM_SIG {
      SameCanonical(rebuilt, keyId, req, keyId, time, Header);
    }
  }

  lemma RebuiltWellFormed(req: Request, rebuilt: Request)
    requires WellFormed(req) && rebuilt.verb == req.verb && rebuilt.signed == SignedNames(req.signed)
    ensures WellFormed(rebuilt)
  {
    hide SignedNames;
    NamesAreClean(req);
  }

  lemma SameMembers(a: seq<Param>, b: seq<Param>)
    requires multiset(a) == multiset(b)
    ensures (forall p | p in a :: p.name != PARAM_SIG) <==> (forall p | p in b :: p.name != PARAM_SIG)
  {
    assert forall p :: p in multiset(a) <==> p in a;
    assert forall p :: p in multiset(b) <==> p in b;
  }
}
