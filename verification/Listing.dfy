/** Listing a bucket page by page: internal/memory/objectstore.go `ListObjects`, internal/httpapi/objects.go
    `listObjects` and the loop of sdk/typescript/src/api/objects.ts `list`. */
module Listing {
  import opened Wrappers
  import opened Stores
  import opened MemoryStores
  import opened Text
  import E = Encode

  const MAX_LIST_LIMIT: int := 1000
  const PREFIX: Text := "prefix"
  const LIMIT: Text := "limit"
  const AFTER: Text := "after"
  const DELIMITER: Text := "delimiter"

  // ---------- one page ----------

  /** A page: the keys listed, and the cursor of the next one when this one is full. */
  datatype Answer = InvalidParameter | Listed(keys: seq<string>, next: Option<string>)

  /** The limit a query asks for; None when it is malformed. */
  function LimitOf(q: seq<E.Param>): Option<int> {
    if !E.Has(q, LIMIT) then Some(MAX_LIST_LIMIT)
    else
      var l := ParseInt(E.First(q, LIMIT));
      if l.None? || l.value <= 0 then None else Some(if l.value < MAX_LIST_LIMIT then l.value else MAX_LIST_LIMIT)
  }

  ghost function PageOf(rows: map<string, Object>, prefix: string, after: string, limit: int): (answer: Answer)
    requires limit >= 1
    ensures answer.Listed?
  {
    var keys := Page(rows, prefix, after, limit);
    Listed(keys, if |keys| == limit then Some(keys[limit - 1]) else None)
  }

  /** listObjects, on the query as r.URL.Query() reads it. */
  ghost function ServePage(rows: map<string, Object>, q: seq<E.Param>): Answer {
    if E.Has(q, DELIMITER) || LimitOf(q).None? then InvalidParameter
    else PageOf(rows, E.First(q, PREFIX), E.First(q, AFTER), LimitOf(q).value)
  }

  method ListObjectsHandler(store: ObjectStore, bucket: string, q: seq<E.Param>)
    returns (answer: Answer, list: seq<Object>)
    requires store.Valid()
    ensures answer == ServePage(RowsOf(store.objects, bucket), q)
    ensures answer.Listed? ==> Keys(list) == answer.keys
    ensures forall o | o in list :: o.key in RowsOf(store.objects, bucket) && RowsOf(store.objects, bucket)[o.key] == o
  {
    hide Page, ParseInt, E.Has, E.First;
    if E.Has(q, DELIMITER) {
      return InvalidParameter, [];
    }
    var limit := MAX_LIST_LIMIT;
    if E.Has(q, LIMIT) {
      var l := ParseInt(E.First(q, LIMIT));
      if l.None? || l.value <= 0 {
        return InvalidParameter, [];
      }
      limit := if l.value < MAX_LIST_LIMIT then l.value else MAX_LIST_LIMIT;
    }
    list := store.ListObjects(bucket, E.First(q, PREFIX), E.First(q, AFTER), limit);
    var next: Option<string> := None;
    if |list| == limit {
      next := Some(list[|list| - 1].key);
    }
    var keys: seq<string> := [];
    for i := 0 to |list|
      invariant |keys| == i && forall j | 0 <= j < i :: keys[j] == list[j].key
    {
      keys := keys + [list[i].key];
    }
    assert keys == Keys(list);
    answer := Listed(keys, next);
  }

  /** The limit a query asks for, if it is malformed in that. */
  ghost predicate AsksFor(q: seq<E.Param>, limit: int) {
    if E.Has(q, "limit") then exists n :: Writes(E.First(q, "limit"), n) && 1 <= n <= INT64_MAX && limit == if n <= 1000 then n else 1000
    else limit == 1000
  }

  lemma LimitExact(q: seq<E.Param>, limit: int)
    ensures LimitOf(q) == Some(limit) <==> AsksFor(q, limit)
  {
    hide E.Has, E.First, ParseInt, Writes;
    if E.Has(q, LIMIT) {
      var text := E.First(q, LIMIT);
      if ParseInt(text).Some? {
        ParseIntExact(text, ParseInt(text).value);
      }
      forall n | Writes(text, n) && 1 <= n <= INT64_MAX
        ensures ParseInt(text) == Some(n)
      {
        ParseIntExact(text, n);
      }
    }
  }

  /** What a listing is, from its query: refused exactly if it names a delimiter or a limit that is no number from 1 up;
      else the first keys in bytewise order, at most the limit and never more than 1000, of those that start with the
      prefix and stand after the cursor; the last key of a full page is the next cursor. */
  lemma ListAnswers(rows: map<string, Object>, q: seq<E.Param>)
    ensures var answer := ServePage(rows, q);
            if answer.InvalidParameter? then E.Has(q, "delimiter") || forall limit :: !AsksFor(q, limit)
            else
              && !E.Has(q, "delimiter")
              && exists limit :: AsksFor(q, limit) && IsPage(rows, E.First(q, "prefix"), E.First(q, "after"), limit, answer)
  {
    hide E.Has, E.First, LimitOf, AsksFor, PageOf;
    forall limit
      ensures LimitOf(q) == Some(limit) <==> AsksFor(q, limit)
    {
      LimitExact(q, limit);
    }
    if !ServePage(rows, q).InvalidParameter? {
      LimitPositive(q);
      PageExact(rows, E.First(q, PREFIX), E.First(q, AFTER), LimitOf(q).value);
    }
  }

  lemma LimitPositive(q: seq<E.Param>)
    ensures LimitOf(q).Some? ==> 1 <= LimitOf(q).value <= 1000
  {
    hide E.Has, E.First, ParseInt;
  }

  ghost predicate IsPage(rows: map<string, Object>, prefix: string, after: string, limit: int, answer: Answer) {
    && answer.Listed? && |answer.keys| <= limit && Ascending(answer.keys)
    && (forall k | k in answer.keys :: k in rows && prefix <= k && Precedes(after, k))
    && (forall k | k in rows && prefix <= k && Precedes(after, k) && k !in answer.keys ::
          |answer.keys| == limit && forall j | j in answer.keys :: Precedes(j, k))
    && answer.next == if |answer.keys| == limit && limit > 0 then Some(answer.keys[limit - 1]) else None
  }

  lemma PageExact(rows: map<string, Object>, prefix: string, after: string, limit: int)
    requires limit >= 1
    ensures IsPage(rows, prefix, after, limit, PageOf(rows, prefix, after, limit))
  {
    hide Precedes;
    PageIs(rows, prefix, after, limit);
    var page, all := PageOf(rows, prefix, after, limit), InOrder(Matching(rows, prefix, after));
    InOrderHas(Matching(rows, prefix, after));
    assert forall x | 0 <= x < |page.keys| :: page.keys[x] == all[x] && all[x] in page.keys;
    forall k | k in Matching(rows, prefix, after) && k !in page.keys
      ensures |page.keys| == limit && forall j | j in page.keys :: Precedes(j, k)
    {
      var i :| 0 <= i < |all| && all[i] == k;
      assert i >= |page.keys|;
      forall j | j in page.keys
        ensures Precedes(j, k)
      {
        var x :| 0 <= x < |page.keys| && page.keys[x] == j;
        assert all[x] == j;
      }
    }
  }

  // ---------- what the client asks for ----------

  /** The query of Objects.page; an absent option is not sent. */
  function PageQuery(prefix: Option<Text>, limit: Option<int>, after: Option<Text>): seq<E.Param> {
    (if prefix.Some? then [E.Param(PREFIX, prefix.value)] else [])
    + (if limit.Some? then [E.Param(LIMIT, Decimal(limit.value))] else [])
    + (if after.Some? then [E.Param(AFTER, after.value)] else [])
  }

  function OrEmpty(s: Option<Text>): Text {
    if s.Some? then s.value else []
  }

  lemma NamesApart()
    ensures PREFIX != LIMIT && PREFIX != AFTER && LIMIT != AFTER
    ensures DELIMITER != PREFIX && DELIMITER != LIMIT && DELIMITER != AFTER
  {
    assert |PREFIX| == 6 && |LIMIT| == 5 && |AFTER| == 5 && |DELIMITER| == 9;
    assert LIMIT[0] == 'l' && AFTER[0] == 'a';
  }

  lemma PageQueryHas(prefix: Option<Text>, limit: Option<int>, after: Option<Text>, p: E.Param)
    ensures p in PageQuery(prefix, limit, after)
        <==> || (prefix.Some? && p == E.Param(PREFIX, prefix.value))
             || (limit.Some? && p == E.Param(LIMIT, Decimal(limit.value)))
             || (after.Some? && p == E.Param(AFTER, after.value))
  {
    hide Decimal;
  }

  lemma HasMember(q: seq<E.Param>, name: Text)
    ensures E.Has(q, name) <==> exists p | p in q :: p.name == name
  {
    if E.Has(q, name) {
      var i :| 0 <= i < |q| && q[i].name == name;
      assert q[i] in q;
    }
  }

  lemma {:induction false} FirstOfNone(q: seq<E.Param>, name: Text)
    requires forall p | p in q :: p.name != name
    ensures E.First(q, name) == []
  {
    if q != [] {
      assert q[0] in q;
      FirstOfNone(q[1..], name);
    }
  }

  /** What the server reads of one optional parameter. */
  lemma ReadBack(q: seq<E.Param>, name: Text, value: Option<Text>)
    requires forall p | p in q && p.name == name :: value.Some? && p.value == value.value
    requires value.Some? ==> E.Param(name, value.value) in q
    ensures E.First(q, name) == OrEmpty(value) && (E.Has(q, name) <==> value.Some?)
  {
    HasMember(q, name);
    if value.Some? {
      E.FirstIs(q, E.Param(name, value.value));
    } else {
      FirstOfNone(q, name);
    }
  }

  /** The server lists from the very prefix and cursor the client passed, whatever bytes they hold. */
  lemma PageRequestArrives(rows: map<string, Object>, prefix: Option<Text>, limit: Option<int>, after: Option<Text>)
    requires limit.Some? ==> -INT64_MAX - 1 <= limit.value <= INT64_MAX
    ensures ServePage(rows, E.LenientQuery(E.EncodeQuery(PageQuery(prefix, limit, after))))
            == if limit.Some? && limit.value <= 0 then InvalidParameter
               else PageOf(rows, OrEmpty(prefix), OrEmpty(after),
                           if limit.Some? && limit.value < MAX_LIST_LIMIT then limit.value else MAX_LIST_LIMIT)
  {
    hide Decimal, ParseInt, Page, E.EncodeQuery, E.LenientQuery, Sort, PageQuery, OrEmpty, PREFIX, LIMIT, AFTER, DELIMITER, E.First, E.Has;
    var sent := PageQuery(prefix, limit, after);
    E.QueryRoundTrip(sent);
    var q := Sort(E.PairLe, sent);
    NamesApart();
    forall p: E.Param
      ensures p in q <==> || (prefix.Some? && p == E.Param(PREFIX, prefix.value))
                          || (limit.Some? && p == E.Param(LIMIT, Decimal(limit.value)))
                          || (after.Some? && p == E.Param(AFTER, after.value))
    {
      assert p in multiset(q) <==> p in multiset(sent);
      PageQueryHas(prefix, limit, after, p);
    }
    ReadBack(q, PREFIX, prefix);
    ReadBack(q, AFTER, after);
    ReadBack(q, LIMIT, if limit.Some? then Some(Decimal(limit.value)) else None);
    ReadBack(q, DELIMITER, None);
    if limit.Some? {
      ParseDecimal(limit.value);
      SomeValue(Decimal(limit.value));
    }
  }

  lemma SomeValue(s: Text)
    ensures OrEmpty(Some(s)) == s
  {
  }

  // ---------- following the cursor ----------

  /** What iterating yields: the keys of all pages, the cursor the last page left, and whether the end was reached. */
  datatype Walk = Walk(keys: seq<string>, finished: bool)

  /** Page after page; `contents[i]` is the bucket when page i is read, so puts and deletes may happen in between.
      The walk ends at a page without a cursor, or unfinished when `contents` ends. */
  ghost function Follow(contents: seq<map<string, Object>>, prefix: string, after: string, limit: int): Walk
    requires limit >= 1
    decreases |contents|
  {
    if contents == [] then Walk([], false)
    else
      var page := PageOf(contents[0], prefix, after, limit);
      if page.next.None? || page.next.value == "" then Walk(page.keys, true)
      else
        Resume(page.keys, Follow(contents[1..], prefix, page.next.value, limit))
  }

  /** Rows filed under their own key and bucket. */
  predicate Filed(rows: map<string, Object>, bucket: string) {
    forall k | k in rows :: rows[k].key == k && rows[k].bucket == bucket
  }

  /** The do-while loop of Objects.list; before each page is read the other clients bring the bucket to its next
      contents. */
  method List(store: ObjectStore, bucket: string, prefix: string, limit: int, contents: seq<map<string, Object>>)
    returns (keys: seq<string>, finished: bool)
    requires limit >= 1 && store.Valid() && forall i | 0 <= i < |contents| :: Filed(contents[i], bucket)
    modifies store
    ensures Walk(keys, finished) == Follow(contents, prefix, "", limit)
  {
    hide Page, HasPrefix, Filed, Precedes, InOrder, Matching, Follow, Resume;
    keys, finished := [], false;
    var after := "";
    var i := 0;
    assert contents[0..] == contents;
    WalkOn([], Follow(contents, prefix, "", limit));
    while i < |contents|
      invariant 0 <= i <= |contents| && !finished && store.Valid()
      invariant Follow(contents, prefix, "", limit) == Resume(keys, Follow(contents[i..], prefix, after, limit))
    {
      assert contents[i..][0] == contents[i] && contents[i..][1..] == contents[i + 1..];
      Bring(store, bucket, contents[i]);
      var list := store.ListObjects(bucket, prefix, after, limit);
      var next := if |list| == limit then list[limit - 1].key else "";
      FollowOnce(contents[i..], prefix, after, limit);
      WalkOver(keys, Keys(list), Follow(contents[i + 1..], prefix, next, limit));
      keys := keys + Keys(list);
      if next == "" {
        finished := true;
        return;
      }
      after := next;
      i := i + 1;
    }
    assert contents[|contents|..] == [];
    FollowNothing(prefix, after, limit);
    WalkOn(keys, Walk([], false));
  }

  lemma FollowNothing(prefix: string, after: string, limit: int)
    requires limit >= 1
    ensures Follow([], prefix, after, limit) == Walk([], false)
  {
  }

  lemma FollowOnce(contents: seq<map<string, Object>>, prefix: string, after: string, limit: int)
    requires limit >= 1 && contents != []
    ensures var keys := Page(contents[0], prefix, after, limit);
            var next := if |keys| == limit then keys[limit - 1] else "";
            Follow(contents, prefix, after, limit)
            == if next == "" then Walk(keys, true) else Resume(keys, Follow(contents[1..], prefix, next, limit))
  {
    hide Page;
  }

  method Bring(store: ObjectStore, bucket: string, rows: map<string, Object>)
    requires store.Valid() && Filed(rows, bucket)
    modifies store
    ensures store.Valid() && RowsOf(store.objects, bucket) == rows
  {
    store.objects := if rows == map[] then store.objects - {bucket} else store.objects[bucket := rows];
  }

  /** A walk continued after some keys. */
  function Resume(keys: seq<string>, rest: Walk): Walk {
    Walk(keys + rest.keys, rest.finished)
  }

  lemma WalkOn(keys: seq<string>, rest: Walk)
    ensures Resume([], rest) == rest && Resume(keys, Walk([], false)) == Walk(keys, false)
  {
    assert [] + rest.keys == rest.keys && keys + [] == keys;
  }

  lemma WalkOver(keys: seq<string>, page: seq<string>, rest: Walk)
    ensures Resume(keys, Resume(page, rest)) == Resume(keys + page, rest)
    ensures Resume(keys, Walk(page, true)) == Walk(keys + page, true)
  {
    Assoc(keys, page, rest.keys);
  }

  lemma PageIs(rows: map<string, Object>, prefix: string, after: string, limit: int)
    requires limit >= 1
    ensures var page := PageOf(rows, prefix, after, limit); var all := InOrder(Matching(rows, prefix, after));
            && Ascending(page.keys) && page.keys <= all && |page.keys| <= limit
            && (forall k | k in page.keys :: k in Matching(rows, prefix, after))
            && (page.next.None? ==> page.keys == all)
            && (page.next.Some? ==> page.keys != [] && page.next.value == page.keys[|page.keys| - 1])
  {
    hide Precedes;
    InOrderHas(Matching(rows, prefix, after));
    var page, all := PageOf(rows, prefix, after, limit), InOrder(Matching(rows, prefix, after));
    forall k | k in page.keys
      ensures k in Matching(rows, prefix, after)
    {
      assert k in all;
    }
  }

  /** No key after the cursor is empty, so the loop's test for a cursor never mistakes one for none. */
  lemma CursorNotEmpty(rows: map<string, Object>, prefix: string, after: string, limit: int)
    requires limit >= 1 && PageOf(rows, prefix, after, limit).next.Some?
    ensures PageOf(rows, prefix, after, limit).next.value != ""
  {
    hide Page;
    PageIs(rows, prefix, after, limit);
    var page := PageOf(rows, prefix, after, limit);
    assert page.next.value in page.keys;
  }

  /** Whatever is put and deleted between pages: keys come strictly ascending, so never one twice, each after the
      cursor and with the prefix. */
  lemma {:induction false} WalkAscends(contents: seq<map<string, Object>>, prefix: string, after: string, limit: int)
    requires limit >= 1
    ensures var walk := Follow(contents, prefix, after, limit);
            && Ascending(walk.keys)
            && forall k | k in walk.keys :: prefix <= k && Precedes(after, k)
    decreases |contents|
  {
    hide Precedes, PageOf;
    if contents != [] {
      PageIs(contents[0], prefix, after, limit);
      var page := PageOf(contents[0], prefix, after, limit);
      if page.next.Some? && page.next.value != "" {
        WalkAscends(contents[1..], prefix, page.next.value, limit);
        Appended(page.keys, Follow(contents[1..], prefix, page.next.value, limit).keys, after);
      }
    }
  }

  /** Ascending keys, then ascending keys all beyond the last of them. */
  lemma Appended(a: seq<string>, b: seq<string>, after: string)
    requires Ascending(a) && Ascending(b) && a != []
    requires forall k | k in b :: Precedes(a[|a| - 1], k)
    requires forall k | k in a :: Precedes(after, k)
    ensures Ascending(a + b)
    ensures forall k | k in b :: Precedes(after, k)
  {
    hide Precedes;
    Ordered();
    var last := a[|a| - 1];
    assert last in a;
    forall k | k in b
      ensures Precedes(after, k)
    {
      assert Precedes(last, k) && Precedes(after, last);
    }
    forall i, j | 0 <= i < j < |a + b|
      ensures Precedes((a + b)[i], (a + b)[j])
    {
      if i < |a| <= j {
        assert b[j - |a|] in b;
        assert i == |a| - 1 || Precedes(a[i], last);
      } else if i >= |a| {
        assert Precedes(b[i - |a|], b[j - |a|]);
      }
    }
  }

  /** A walk that reached its end lists every matching key that was there all the while. */
  lemma {:induction false} WalkFindsAll(contents: seq<map<string, Object>>, prefix: string, after: string, limit: int, k: string)
    requires limit >= 1 && Follow(contents, prefix, after, limit).finished
    requires forall i | 0 <= i < |contents| :: k in contents[i]
    requires prefix <= k && Precedes(after, k)
    ensures k in Follow(contents, prefix, after, limit).keys
    decreases |contents|
  {
    hide Precedes, PageOf;
    PageIs(contents[0], prefix, after, limit);
    var page := PageOf(contents[0], prefix, after, limit);
    if page.next.None? {
      InOrderHas(Matching(contents[0], prefix, after));
      assert k in Matching(contents[0], prefix, after);
    } else {
      CursorNotEmpty(contents[0], prefix, after, limit);
      InPageOrBeyond(contents[0], prefix, after, limit, k);
      if k !in page.keys {
        assert forall i | 0 <= i < |contents[1..]| :: contents[1..][i] == contents[i + 1];
        WalkFindsAll(contents[1..], prefix, page.next.value, limit, k);
      }
    }
  }

  /** A matching key is on a full page or beyond its cursor. */
  lemma InPageOrBeyond(rows: map<string, Object>, prefix: string, after: string, limit: int, k: string)
    requires limit >= 1 && k in Matching(rows, prefix, after) && PageOf(rows, prefix, after, limit).next.Some?
    ensures var page := PageOf(rows, prefix, after, limit); k in page.keys || Precedes(page.next.value, k)
  {
    hide Precedes, PageOf;
    PageIs(rows, prefix, after, limit);
    InOrderHas(Matching(rows, prefix, after));
    var page, all := PageOf(rows, prefix, after, limit), InOrder(Matching(rows, prefix, after));
    var i :| 0 <= i < |all| && all[i] == k;
    if i < |page.keys| {
      assert page.keys[i] == k;
    } else {
      assert all[|page.keys| - 1] == page.next.value;
    }
  }

  // ---------- a bucket that does not change ----------

  lemma BeyondExact(rows: map<string, Object>, prefix: string, after: string, cursor: string, k: string)
    requires Precedes(after, cursor)
    ensures k in Matching(rows, prefix, cursor) <==> k in Matching(rows, prefix, after) && Precedes(cursor, k)
  {
    hide Precedes;
    Ordered();
  }

  /** After a full page exactly the keys not on it are left, and they are fewer. */
  lemma Remaining(rows: map<string, Object>, prefix: string, after: string, limit: int)
    requires limit >= 1 && PageOf(rows, prefix, after, limit).next.Some?
    ensures var page := PageOf(rows, prefix, after, limit);
            && InOrder(Matching(rows, prefix, after)) == page.keys + InOrder(Matching(rows, prefix, page.next.value))
            && |Matching(rows, prefix, page.next.value)| < |Matching(rows, prefix, after)|
  {
    hide Precedes, PageOf;
    PageIs(rows, prefix, after, limit);
    var page := PageOf(rows, prefix, after, limit);
    var all, rest := InOrder(Matching(rows, prefix, after)), InOrder(Matching(rows, prefix, page.next.value));
    InOrderHas(Matching(rows, prefix, after));
    InOrderHas(Matching(rows, prefix, page.next.value));
    assert page.next.value in page.keys;
    Appended(page.keys, rest, after);
    forall k
      ensures k in all <==> k in page.keys + rest
    {
      BeyondExact(rows, prefix, after, page.next.value, k);
      if k in all {
        InPageOrBeyond(rows, prefix, after, limit, k);
      }
    }
    hide Matching, Comparison;
    AscendingUnique(all, page.keys + rest);
    assert |all| == |page.keys| + |rest|;
  }

  /** On a bucket that does not change the walk ends, and its pages together are the sorted, filtered listing. */
  lemma {:induction false} WalkIsListing(
      contents: seq<map<string, Object>>, rows: map<string, Object>, prefix: string, after: string, limit: int)
    requires limit >= 1 && forall i | 0 <= i < |contents| :: contents[i] == rows
    requires |contents| > |Matching(rows, prefix, after)|
    ensures Follow(contents, prefix, after, limit) == Walk(InOrder(Matching(rows, prefix, after)), true)
    decreases |contents|
  {
    hide Precedes, PageOf, InOrder;
    PageIs(rows, prefix, after, limit);
    var page := PageOf(rows, prefix, after, limit);
    assert contents[0] == rows;
    if page.next.Some? {
      CursorNotEmpty(rows, prefix, after, limit);
      Remaining(rows, prefix, after, limit);
      assert forall i | 0 <= i < |contents[1..]| :: contents[1..][i] == contents[i + 1];
      WalkIsListing(contents[1..], rows, prefix, page.next.value, limit);
    }
  }
}
