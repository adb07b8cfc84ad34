/** Byte strings and what the Go and TypeScript standard libraries do with them: strings.Split, Join, Cut, Fields,
    ToLower, bytewise comparison and sorting. */
module Text {
  import opened Wrappers

  /** One byte of a UTF-8 text, written as the character of that code. */
  type Byte = c: char | c as int < 256 witness 'a'
  type Text = seq<Byte>

  // ---------- searching, splitting, joining ----------

  predicate StartsWith(s: Text, prefix: Text) {
    |prefix| <= |s| && s[..|prefix|] == prefix
  }

  /** The first position at which `sep` occurs, or the length of `s` if it does not. */
  function Find(s: Text, sep: Text): (i: nat)
    ensures i <= |s|
    ensures i == |s| || StartsWith(s[i..], sep)
    decreases |s|
  {
    if s == [] || StartsWith(s, sep) then 0 else 1 + Find(s[1..], sep)
  }

  predicate Contains(s: Text, sep: Text) {
    Find(s, sep) < |s|
  }

  /** strings.Cut: what stands before and after the first separator. */
  function Cut(s: Text, sep: Text): (Text, Text, bool) {
    var i := Find(s, sep);
    if i == |s| then (s, [], false) else (s[..i], s[i + |sep|..], true)
  }

  function Split(s: Text, sep: Text): (parts: seq<Text>)
    requires sep != []
    ensures parts != []
    decreases |s|
  {
    var i := Find(s, sep);
    if i == |s| then [s] else [s[..i]] + Split(s[i + |sep|..], sep)
  }

  /** `sep` stands in the text at position i. */
  predicate Occurs(s: Text, sep: Text, i: int) {
    0 <= i && i + |sep| <= |s| && s[i..i + |sep|] == sep
  }

  lemma StartsIsOccurs(s: Text, sep: Text, i: nat)
    requires i <= |s|
    ensures StartsWith(s[i..], sep) <==> Occurs(s, sep, i)
  {
    if |sep| <= |s| - i {
      assert s[i..][..|sep|] == s[i..i + |sep|];
    }
  }

  /** The search finds the first occurrence, if there is one. */
  lemma {:induction false} FindExact(s: Text, sep: Text)
    requires sep != []
    ensures Contains(s, sep) <==> exists i :: Occurs(s, sep, i)
    ensures Contains(s, sep) ==> Occurs(s, sep, Find(s, sep)) && forall i | 0 <= i < Find(s, sep) :: !Occurs(s, sep, i)
    decreases |s|
  {
    StartsIsOccurs(s, sep, 0);
    assert s[0..] == s;
    if s != [] && !StartsWith(s, sep) {
      FindExact(s[1..], sep);
      forall i | 0 <= i
        ensures Occurs(s, sep, i + 1) <==> Occurs(s[1..], sep, i)
      {
        if i + 1 + |sep| <= |s| {
          assert s[1..][i..i + |sep|] == s[i + 1..i + 1 + |sep|];
        }
      }
      if i :| Occurs(s, sep, i) {
        assert i > 0;
        assert Occurs(s[1..], sep, i - 1);
      }
      if i :| Occurs(s[1..], sep, i) {
        assert Occurs(s, sep, i + 1);
      }
      forall i | 0 <= i < Find(s, sep)
        ensures !Occurs(s, sep, i)
      {
        if i > 0 {
          assert Occurs(s, sep, i) <==> Occurs(s[1..], sep, i - 1);
        }
      }
    }
  }

  function Join(parts: seq<Text>, sep: Text): Text {
    if parts == [] then [] else if |parts| == 1 then parts[0] else parts[0] + sep + Join(parts[1..], sep)
  }

  /** One byte, or two different ones: such a separator does not overlap itself. */
  predicate Separator(sep: Text) {
    |sep| == 1 || (|sep| == 2 && sep[0] != sep[1])
  }

  lemma FoundInside(s: Text, sep: Text)
    ensures Contains(s, sep) <==> Find(s, sep) < |s|
  {
  }

  lemma {:induction false} FindFirst(s: Text, sep: Text, rest: Text)
    requires Separator(sep) && !Contains(s, sep)
    ensures Find(s + sep + rest, sep) == |s|
    decreases |s|
  {
    var t := s + sep + rest;
    if s == [] {
      assert t == sep + rest;
      assert t[..|sep|] == sep;
    } else {
      assert t[1..] == s[1..] + sep + rest;
      FindFirst(s[1..], sep, rest);
      assert |s| >= |sep| ==> t[..|sep|] == s[..|sep|];
      assert |s| < |sep| ==> t[..|sep|][1] == sep[0];
    }
  }

  lemma CutFirst(s: Text, sep: Text, rest: Text)
    requires Separator(sep) && !Contains(s, sep)
    ensures Cut(s + sep + rest, sep) == (s, rest, true)
  {
    FindFirst(s, sep, rest);
    var t := s + sep + rest;
    assert t[..|s|] == s;
    assert t[|s| + |sep|..] == rest;
  }

  /** Splitting undoes joining when no part contains the separator. */
  lemma {:induction false} SplitJoin(parts: seq<Text>, sep: Text)
    requires Separator(sep) && parts != [] && forall p | p in parts :: !Contains(p, sep)
    ensures Split(Join(parts, sep), sep) == parts
    decreases |parts|
  {
    hide Find, Contains, StartsWith;
    if |parts| == 1 {
      assert parts == [parts[0]];
      FoundInside(parts[0], sep);
    } else {
      var s, rest := parts[0], Join(parts[1..], sep);
      FindFirst(s, sep, rest);
      var t := s + sep + rest;
      assert t[..|s|] == s;
      assert t[|s| + |sep|..] == rest;
      SplitJoin(parts[1..], sep);
      assert parts == [s] + parts[1..];
    }
  }

  /** Joining undoes splitting, always. */
  lemma {:induction false} JoinSplit(s: Text, sep: Text)
    requires sep != []
    ensures Join(Split(s, sep), sep) == s
    decreases |s|
  {
    hide Find;
    var i := Find(s, sep);
    if i < |s| {
      JoinSplit(s[i + |sep|..], sep);
      assert s == s[..i] + (s[i..][..|sep|] + s[i + |sep|..]);
    }
  }

  lemma {:induction false} SplitParts(s: Text, sep: Text)
    requires sep != []
    ensures forall p | p in Split(s, sep) :: !Contains(p, sep)
    decreases |s|
  {
    hide Find, Contains, StartsWith;
    var i := Find(s, sep);
    FindExact(s, sep);
    FoundInside(s, sep);
    if i < |s| {
      SplitParts(s[i + |sep|..], sep);
      FindExact(s[..i], sep);
      forall j | Occurs(s[..i], sep, j)
        ensures Occurs(s, sep, j)
      {
        assert s[..i][j..j + |sep|] == s[j..j + |sep|];
      }
    }
  }

  /** Splitting is the one way to write a text as parts without the separator, joined by it. */
  lemma SplitUnique(s: Text, sep: Text, parts: seq<Text>)
    requires Separator(sep)
    ensures parts == Split(s, sep) <==> parts != [] && Join(parts, sep) == s && forall p | p in parts :: !Contains(p, sep)
  {
    hide Split, Contains, Join;
    JoinSplit(s, sep);
    SplitParts(s, sep);
    if parts != [] && forall p | p in parts :: !Contains(p, sep) {
      SplitJoin(parts, sep);
    }
  }

  /** Joining puts the parts one after the other, the separator in between. */
  lemma {:induction false} JoinPair(a: seq<Text>, b: seq<Text>, sep: Text)
    requires a != [] && b != []
    ensures Join(a + b, sep) == Join(a, sep) + sep + Join(b, sep)
  {
    if |a| == 1 {
      assert (a + b)[1..] == b;
    } else {
      JoinPair(a[1..], b, sep);
      assert (a + b)[1..] == a[1..] + b;
      assert a[0] + sep + (Join(a[1..], sep) + sep + Join(b, sep)) == a[0] + sep + Join(a[1..], sep) + sep + Join(b, sep);
    }
  }

  /** Splitting a text around one of its separators splits both sides. */
  lemma {:induction false} SplitAt(a: Text, sep: Text, b: Text)
    requires Separator(sep)
    ensures Split(a + sep + b, sep) == Split(a, sep) + Split(b, sep)
    decreases |a|
  {
    hide Find, Contains, StartsWith;
    var i := Find(a, sep);
    if i == |a| {
      FoundInside(a, sep);
      FindFirst(a, sep, b);
      assert (a + sep + b)[..|a|] == a && (a + sep + b)[|a| + |sep|..] == b;
    } else {
      FoundAt(a, sep);
      NoneBefore(a, sep);
      var rest := a[i + |sep|..];
      SplitAt(rest, sep, b);
      FoundInside(a[..i], sep);
      FindFirst(a[..i], sep, rest + sep + b);
      var t := a + sep + b;
      assert t == a[..i] + sep + (rest + sep + b);
      assert t[..i] == a[..i] && t[i + |sep|..] == rest + sep + b;
      Assoc([a[..i]], Split(rest, sep), Split(b, sep));
    }
  }

  lemma FoundAt(s: Text, sep: Text)
    requires Find(s, sep) < |s|
    ensures var i := Find(s, sep);
            i + |sep| <= |s| && s == s[..i] + sep + s[i + |sep|..]
  {
    hide Find;
    var i := Find(s, sep);
    assert StartsWith(s[i..], sep);
    Around(s, i, sep);
  }

  lemma Around(s: Text, i: nat, sep: Text)
    requires i <= |s| && |sep| <= |s| - i && s[i..][..|sep|] == sep
    ensures s == s[..i] + sep + s[i + |sep|..]
  {
    forall k | 0 <= k < |sep|
      ensures s[i + k] == sep[k]
    {
      assert s[i..][..|sep|][k] == sep[k];
    }
  }

  /** Before the first separator there is none. */
  lemma {:induction false} NoneBefore(s: Text, sep: Text)
    requires sep != [] && Find(s, sep) < |s|
    ensures Find(s[..Find(s, sep)], sep) == Find(s, sep)
    decreases |s|
  {
    var i := Find(s, sep);
    if i > 0 {
      assert !StartsWith(s, sep);
      NoneBefore(s[1..], sep);
      assert s[..i][1..] == s[1..][..i - 1];
      assert |sep| <= i ==> s[..i][..|sep|] == s[..|sep|];
    } else {
      assert s[..0] == [];
    }
  }

  lemma JoinInjective(a: seq<Text>, b: seq<Text>, sep: Text)
    requires Separator(sep) && a != [] && b != [] && Join(a, sep) == Join(b, sep)
    requires forall p | p in a :: !Contains(p, sep)
    requires forall p | p in b :: !Contains(p, sep)
    ensures a == b
  {
    SplitJoin(a, sep);
    SplitJoin(b, sep);
  }

  /** A byte that does not occur in a text: then no separator with that byte does. */
  lemma {:induction false} AbsentByte(s: Text, sep: Text, i: nat)
    requires i < |sep| && sep[i] !in s
    ensures !Contains(s, sep)
    decreases |s|
  {
    if s != [] {
      AbsentByte(s[1..], sep, i);
      assert |sep| <= |s| ==> s[..|sep|][i] == s[i];
    }
  }

  lemma {:induction false} PresentByte(s: Text, c: Byte)
    ensures Contains(s, [c]) <==> c in s
    decreases |s|
  {
    if s != [] {
      PresentByte(s[1..], c);
      assert s[..1] == [s[0]];
    }
  }

  lemma {:induction false} AbsentFromJoin(parts: seq<Text>, sep: Text, c: Byte)
    requires c !in sep && forall p | p in parts :: c !in p
    ensures c !in Join(parts, sep)
  {
    if |parts| > 1 {
      AbsentFromJoin(parts[1..], sep, c);
    }
  }

  lemma Assoc<T>(a: seq<T>, b: seq<T>, c: seq<T>)
    ensures (a + b) + c == a + (b + c)
  {
  }

  // ---------- case ----------

  function LowerByte(c: Byte): Byte {
    if 'A' <= c <= 'Z' then (c as int + 32) as char else c
  }

  /** strings.ToLower on ASCII. */
  function Lower(s: Text): (t: Text)
    ensures |t| == |s| && forall i | 0 <= i < |s| :: t[i] == LowerByte(s[i])
  {
    if s == [] then [] else [LowerByte(s[0])] + Lower(s[1..])
  }

  const UPPER_CASE: Text := "ABCDEFGHIJKLMNOPQRSTUVWXYZ"
  const LOWER_CASE: Text := "abcdefghijklmnopqrstuvwxyz"

  const DIGITS: Text := "0123456789"

  lemma CapitalExact(c: Byte)
    ensures 'A' <= c <= 'Z' <==> c in UPPER_CASE
  {
    if 'A' <= c <= 'Z' {
      assert c == UPPER_CASE[c as int - 65];
    }
  }

  lemma SmallExact(c: Byte)
    ensures 'a' <= c <= 'z' <==> c in LOWER_CASE
  {
    if 'a' <= c <= 'z' {
      assert c == LOWER_CASE[c as int - 97];
    }
  }

  lemma DigitExact(c: Byte)
    ensures '0' <= c <= '9' <==> c in DIGITS
  {
    if '0' <= c <= '9' {
      assert c == DIGITS[c as int - 48];
    }
  }

  /** A capital becomes the small letter at its place in the alphabet, every other byte stays. */
  lemma LowerExact(c: Byte)
    ensures forall i | 0 <= i < 26 && c == UPPER_CASE[i] :: LowerByte(c) == LOWER_CASE[i]
    ensures c !in UPPER_CASE ==> LowerByte(c) == c
  {
    if 'A' <= c <= 'Z' {
      assert c == UPPER_CASE[c as int - 65];
    }
  }

  lemma LowerTwice(s: Text)
    ensures Lower(Lower(s)) == Lower(s)
  {
  }

  // ---------- white space ----------

  predicate Space(c: Byte) {
    c == ' ' || '\t' <= c <= '\r'
  }

  const WHITE_SPACE: Text := " \t\n\U{B}\U{C}\r"

  lemma SpaceExact(c: Byte)
    ensures Space(c) <==> c in WHITE_SPACE
  {
  }

  /** strings.Fields on ASCII: the maximal runs of bytes that are not white space; `run` is the one being read. */
  function FieldsFrom(run: Text, s: Text): seq<Text>
    decreases |s|
  {
    if s == [] then if run == [] then [] else [run]
    else if !Space(s[0]) then FieldsFrom(run + [s[0]], s[1..])
    else if run == [] then FieldsFrom([], s[1..])
    else [run] + FieldsFrom([], s[1..])
  }

  function Fields(s: Text): seq<Text> {
    FieldsFrom([], s)
  }

  /** A header value as it is signed: no white space at the ends, one space for every run inside. */
  function Collapse(s: Text): Text {
    Join(Fields(s), " ")
  }

  predicate Solid(s: Text) {
    forall c | c in s :: !Space(c)
  }

  lemma {:induction false} FieldsAcross(run: Text, a: Text, c: Byte, b: Text)
    requires Space(c)
    ensures FieldsFrom(run, a + [c] + b) == FieldsFrom(run, a) + FieldsFrom([], b)
    decreases |a|
  {
    if a == [] {
      assert a + [c] + b == [c] + b && ([c] + b)[1..] == b;
    } else {
      assert (a + [c] + b)[1..] == a[1..] + [c] + b && (a + [c] + b)[0] == a[0];
      FieldsAcross(if Space(a[0]) then [] else run + [a[0]], a[1..], c, b);
    }
  }

  lemma {:induction false} FieldsOfSolid(run: Text, s: Text)
    requires Solid(s)
    ensures FieldsFrom(run, s) == if run + s == [] then [] else [run + s]
    decreases |s|
  {
    if s != [] {
      assert s[0] in s;
      FieldsOfSolid(run + [s[0]], s[1..]);
      assert run + [s[0]] + s[1..] == run + s;
    } else {
      assert run + s == run;
    }
  }

  /** The fields of a text: white space separates what stands on its two sides, and a text without it is one field, or
      none if it is empty. No other function does both. */
  lemma FieldsExact(a: Text, c: Byte, b: Text)
    ensures Space(c) ==> Fields(a + [c] + b) == Fields(a) + Fields(b)
    ensures Solid(a) ==> Fields(a) == if a == [] then [] else [a]
  {
    hide Space;
    if Space(c) {
      FieldsAcross([], a, c, b);
    }
    if Solid(a) {
      FieldsOfSolid([], a);
      assert [] + a == a;
    }
  }

  lemma {:induction false} FieldsHaveNoSpace(run: Text, s: Text)
    requires forall c | c in run :: !Space(c)
    ensures forall f | f in FieldsFrom(run, s) :: f != [] && forall c | c in f :: !Space(c)
    decreases |s|
  {
    if s != [] {
      FieldsHaveNoSpace(if Space(s[0]) then [] else run + [s[0]], s[1..]);
    }
  }

  /** A collapsed value fits on one line. */
  lemma CollapsedHasNoBreak(s: Text)
    ensures '\n' !in Collapse(s)
  {
    FieldsHaveNoSpace([], s);
    forall f | f in Fields(s)
      ensures '\n' !in f
    {
      assert forall c | c in f :: !Space(c);
    }
    AbsentFromJoin(Fields(s), " ", '\n');
  }

  // ---------- order ----------

  /** strings.Compare(a, b) <= 0. */
  predicate StringLe(a: string, b: string) {
    a == [] || (b != [] && (a[0] < b[0] || (a[0] == b[0] && StringLe(a[1..], b[1..]))))
  }

  predicate Le(a: Text, b: Text) {
    StringLe(a, b)
  }

  /** Bytewise order: a ends where b goes on, or at the first position where they differ a has the smaller byte. */
  ghost predicate Precedes(a: string, b: string) {
    || (a <= b && a != b)
    || exists i | 0 <= i < |a| && i < |b| :: a[..i] == b[..i] && a[i] < b[i]
  }

  /** The comparison the code sorts by is that order. */
  lemma {:induction false} StringLeExact(a: string, b: string)
    ensures StringLe(a, b) <==> a == b || Precedes(a, b)
  {
    if a != [] && b != [] {
      if a[0] == b[0] {
        StringLeExact(a[1..], b[1..]);
        assert a == [a[0]] + a[1..] && b == [b[0]] + b[1..];
        if i :| 0 <= i < |a| && i < |b| && a[..i] == b[..i] && a[i] < b[i] {
          assert a[1..][..i - 1] == a[..i][1..] && b[1..][..i - 1] == b[..i][1..];
        }
        if i :| 0 <= i < |a[1..]| && i < |b[1..]| && a[1..][..i] == b[1..][..i] && a[1..][i] < b[1..][i] {
          assert a[..i + 1] == [a[0]] + a[1..][..i] && b[..i + 1] == [b[0]] + b[1..][..i];
          assert a[..i + 1] == b[..i + 1] && a[i + 1] < b[i + 1];
        }
      } else {
        assert a[..0] == b[..0];
        forall i | 0 < i < |a| && i < |b|
          ensures a[..i] != b[..i]
        {
          assert a[..i][0] == a[0] && b[..i][0] == b[0];
        }
      }
    }
  }

  lemma PrecedesExact(a: string, b: string)
    ensures Precedes(a, b) <==> !StringLe(b, a)
    ensures !Precedes(a, a)
  {
    StringLeExact(a, b);
    StringLeExact(b, a);
    StringLeExact(a, a);
    LeTotal(a, b);
    hide StringLe, Precedes;
    Irreflexive(a);
  }

  lemma Irreflexive(a: string)
    ensures !Precedes(a, a)
  {
  }

  lemma {:induction false} LeTotal(a: string, b: string)
    ensures StringLe(a, b) || StringLe(b, a)
    ensures StringLe(a, b) && StringLe(b, a) ==> a == b
  {
    if a != [] && b != [] {
      LeTotal(a[1..], b[1..]);
      assert a == [a[0]] + a[1..] && b == [b[0]] + b[1..];
    }
  }

  lemma {:induction false} LeTransitive(a: string, b: string, c: string)
    requires StringLe(a, b) && StringLe(b, c)
    ensures StringLe(a, c)
  {
    if a != [] && a[0] == b[0] && b[0] == c[0] {
      LeTransitive(a[1..], b[1..], c[1..]);
    }
  }

  // ---------- sorting ----------

  ghost predicate Comparison<T(!new)>(le: (T, T) -> bool) {
    && (forall a, b :: le(a, b) || le(b, a))
    && (forall a, b, c :: le(a, b) && le(b, c) ==> le(a, c))
  }

  ghost predicate TotalOrder<T(!new)>(le: (T, T) -> bool) {
    Comparison(le) && forall a, b :: le(a, b) && le(b, a) ==> a == b
  }

  function Insert<T>(le: (T, T) -> bool, x: T, s: seq<T>): seq<T> {
    if s == [] || le(x, s[0]) then [x] + s else [s[0]] + Insert(le, x, s[1..])
  }

  /** What the library's sort returns: see SortSorts and SortUnique. */
  function Sort<T>(le: (T, T) -> bool, s: seq<T>): seq<T> {
    if s == [] then [] else Insert(le, s[0], Sort(le, s[1..]))
  }

  ghost predicate Sorted<T>(le: (T, T) -> bool, s: seq<T>) {
    forall i, j | 0 <= i < j < |s| :: le(s[i], s[j])
  }

  lemma {:induction false} InsertAdds<T>(le: (T, T) -> bool, x: T, s: seq<T>)
    ensures multiset(Insert(le, x, s)) == multiset(s) + multiset{x}
  {
    if s == [] || le(x, s[0]) {
    } else {
      InsertAdds(le, x, s[1..]);
      assert s == [s[0]] + s[1..];
    }
  }

  lemma {:induction false} InsertSorts<T(!new)>(le: (T, T) -> bool, x: T, s: seq<T>)
    requires Comparison(le) && Sorted(le, s)
    ensures Sorted(le, Insert(le, x, s))
  {
    if s == [] || le(x, s[0]) {
    } else {
      InsertSorts(le, x, s[1..]);
      var t := Insert(le, x, s[1..]);
      forall i | 0 <= i < |t|
        ensures le(s[0], t[i])
      {
        InsertAdds(le, x, s[1..]);
        assert t[i] in multiset(t);
        assert t[i] == x || t[i] in s[1..];
      }
    }
  }

  lemma {:induction false} SortSorts<T(!new)>(le: (T, T) -> bool, s: seq<T>)
    requires Comparison(le)
    ensures Sorted(le, Sort(le, s)) && multiset(Sort(le, s)) == multiset(s) && |Sort(le, s)| == |s|
  {
    hide Insert, Sorted, Comparison;
    if s != [] {
      SortSorts(le, s[1..]);
      InsertSorts(le, s[0], Sort(le, s[1..]));
      InsertAdds(le, s[0], Sort(le, s[1..]));
      assert s == [s[0]] + s[1..];
    } else {
      assert Sorted(le, s) by {
        NothingToSort(le);
      }
    }
    assert |multiset(Sort(le, s))| == |multiset(s)|;
  }

  lemma NothingToSort<T>(le: (T, T) -> bool)
    ensures Sorted(le, [])
  {
  }

  /** Only one list of given elements is sorted, so any sorting algorithm returns this one. */
  lemma {:induction false} SortedUnique<T(!new)>(le: (T, T) -> bool, a: seq<T>, b: seq<T>)
    requires TotalOrder(le) && Sorted(le, a) && Sorted(le, b) && multiset(a) == multiset(b)
    ensures a == b
  {
    assert |multiset(a)| == |multiset(b)|;
    if a != [] {
      assert a[0] in multiset(b) && b[0] in multiset(a);
      assert le(a[0], b[0]) && le(b[0], a[0]);
      assert a == [a[0]] + a[1..] && b == [b[0]] + b[1..];
      assert multiset(a[1..]) == multiset(a) - multiset{a[0]};
      SortedUnique(le, a[1..], b[1..]);
    }
  }

  lemma SortUnique<T(!new)>(le: (T, T) -> bool, a: seq<T>, b: seq<T>)
    requires TotalOrder(le)
    ensures Sort(le, a) == Sort(le, b) <==> multiset(a) == multiset(b)
  {
    SortSorts(le, a);
    SortSorts(le, b);
    if multiset(a) == multiset(b) {
      SortedUnique(le, Sort(le, a), Sort(le, b));
    }
  }

  lemma LeIsTotal()
    ensures TotalOrder<Text>(Le)
  {
    hide StringLe;
    forall a: Text, b: Text
      ensures Le(a, b) || Le(b, a)
      ensures Le(a, b) && Le(b, a) ==> a == b
    {
      LeTotal(a, b);
    }
    forall a: Text, b: Text, c: Text | Le(a, b) && Le(b, c)
      ensures Le(a, c)
    {
      LeTransitive(a, b, c);
    }
  }

  // ---------- decimal numbers ----------

  const INT64_MAX: int := 0x7fff_ffff_ffff_ffff

  predicate Digit(c: Byte) {
    '0' <= c <= '9'
  }

  function Digits(n: nat): Text {
    if n < 10 then [(n + 48) as char] else Digits(n / 10) + [(n % 10 + 48) as char]
  }

  /** strconv.FormatInt(n, 10). */
  function Decimal(n: int): Text {
    if n < 0 then "-" + Digits(-n) else Digits(n)
  }

  function Value(s: Text): Option<int> {
    if s == [] then Some(0)
    else
      var before := Value(s[..|s| - 1]);
      if before.None? || !Digit(s[|s| - 1]) then None else Some(10 * before.value + (s[|s| - 1] as int - 48))
  }

  /** strconv.ParseInt(s, 10, 64). */
  function ParseInt(s: Text): Option<int> {
    var signed := s != [] && (s[0] == '-' || s[0] == '+');
    var digits := if signed then s[1..] else s;
    if digits == [] || Value(digits).None? then None
    else
      var n := if signed && s[0] == '-' then -Value(digits).value else Value(digits).value;
      if -INT64_MAX - 1 <= n <= INT64_MAX then Some(n) else None
  }

  function Pow10(k: nat): nat {
    if k == 0 then 1 else 10 * Pow10(k - 1)
  }

  predicate AllDigits(s: Text) {
    s != [] && forall c | c in s :: Digit(c)
  }

  /** The number a text of decimal digits stands for: each digit by its place. */
  function Positional(s: Text): int {
    if s == [] then 0 else (s[0] as int - '0' as int) * Pow10(|s| - 1) + Positional(s[1..])
  }

  lemma {:induction false} PositionalLast(s: Text)
    requires s != []
    ensures Positional(s) == 10 * Positional(s[..|s| - 1]) + (s[|s| - 1] as int - '0' as int)
    decreases |s|
  {
    if |s| == 1 {
      assert s[..0] == [];
    } else {
      PositionalLast(s[1..]);
      var init := s[..|s| - 1];
      assert s[1..][..|s| - 2] == init[1..];
      var d, p := s[0] as int - '0' as int, Pow10(|s| - 2);
      assert Positional(init) == d * p + Positional(init[1..]);
      assert d * (10 * p) == 10 * (d * p);
    }
  }

  lemma {:induction false} ValueExact(s: Text)
    ensures Value(s).Some? <==> forall c | c in s :: Digit(c)
    ensures Value(s).Some? ==> Value(s).value == Positional(s)
    decreases |s|
  {
    if s != [] {
      var init, last := s[..|s| - 1], s[|s| - 1];
      ValueExact(init);
      PositionalLast(s);
      assert s == init + [last];
    }
  }

  /** The texts of a number: decimal digits, perhaps behind a sign. */
  ghost predicate Writes(s: Text, n: int) {
    exists digits: Text :: AllDigits(digits) &&
      ((s == digits && n == Positional(digits)) || (s == "+" + digits && n == Positional(digits))
       || (s == "-" + digits && n == -Positional(digits)))
  }

  /** A text is read as a number exactly if it writes one of 64 bits. */
  lemma ParseIntExact(s: Text, n: int)
    ensures ParseInt(s) == Some(n) <==> Writes(s, n) && -9_223_372_036_854_775_808 <= n <= 9_223_372_036_854_775_807
  {
    hide Positional, Value;
    var signed := s != [] && (s[0] == '-' || s[0] == '+');
    var digits := if signed then s[1..] else s;
    ValueExact(digits);
    if digits != [] && Value(digits).Some? {
      assert AllDigits(digits);
      assert signed ==> s == [s[0]] + digits;
    }
    forall other: Text | AllDigits(other) && (s == other || s == "+" + other || s == "-" + other)
      ensures other == digits && (signed <==> s != other) && (s == "-" + other <==> signed && s[0] == '-')
    {
      assert other[0] in other;
    }
  }

  lemma {:induction false} DigitsExact(n: nat)
    ensures AllDigits(Digits(n)) && Positional(Digits(n)) == n && (Digits(n)[0] == '0' ==> n == 0 && |Digits(n)| == 1)
  {
    if n >= 10 {
      DigitsExact(n / 10);
      var last: Text := [(n % 10 + 48) as char];
      PositionalLast(Digits(n));
      assert (Digits(n / 10) + last)[..|Digits(n)| - 1] == Digits(n / 10);
      assert (Digits(n / 10) + last)[0] == Digits(n / 10)[0];
    } else {
      PositionalLast(Digits(n));
    }
  }

  /** A number is written in decimal digits without a leading zero, behind a minus if it is negative. */
  lemma DecimalExact(n: int)
    ensures exists digits: Text ::
              && AllDigits(digits) && (digits[0] == '0' ==> |digits| == 1)
              && Positional(digits) == (if n < 0 then -n else n)
              && Decimal(n) == (if n < 0 then "-" + digits else digits)
  {
    DigitsExact(if n < 0 then -n else n);
    assert AllDigits(Digits(if n < 0 then -n else n));
  }

  lemma {:induction false} DigitsValue(n: nat)
    ensures Value(Digits(n)) == Some(n) && Digits(n) != [] && forall c | c in Digits(n) :: Digit(c)
  {
    var last: Text := [(n % 10 + 48) as char];
    if n < 10 {
      assert last[..0] == [];
    } else {
      DigitsValue(n / 10);
      assert (Digits(n / 10) + last)[..|Digits(n)| - 1] == Digits(n / 10);
    }
  }

  /** Every number of 64 bits survives printing and parsing. */
  lemma ParseDecimal(n: int)
    requires -INT64_MAX - 1 <= n <= INT64_MAX
    ensures ParseInt(Decimal(n)) == Some(n)
  {
    hide Digits, Value;
    DigitsValue(if n < 0 then -n else n);
    if n < 0 {
      assert Decimal(n)[1..] == Digits(-n);
    } else {
      assert Digit(Digits(n)[0]);
    }
  }

  lemma DecimalHasNoBreak(n: int)
    ensures '\n' !in Decimal(n)
  {
    DigitsValue(if n < 0 then -n else n);
  }
}
