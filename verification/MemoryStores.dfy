/** The in-memory stores: internal/memory/objectstore.go and uploadstore.go. */
module MemoryStores {
  import opened Wrappers
  import opened Stores
  import Text

  // ---------- keys in order ----------

  /** Strictly ascending, bytewise. */
  ghost predicate Ascending(keys: seq<string>) {
    forall i, j | 0 <= i < j < |keys| :: Text.Precedes(keys[i], keys[j])
  }

  /** The bytewise order is total and strict, and what the sort compares by. */
  lemma Ordered()
    ensures Text.Comparison<string>(Text.StringLe)
    ensures forall a, b :: Text.StringLe(a, b) <==> !Text.Precedes(b, a)
    ensures forall a, b :: a == b || Text.Precedes(a, b) || Text.Precedes(b, a)
    ensures forall a, b :: Text.Precedes(a, b) ==> !Text.Precedes(b, a)
    ensures forall a, b, c :: Text.Precedes(a, b) && Text.Precedes(b, c) ==> Text.Precedes(a, c)
  {
    hide Text.StringLe, Text.Precedes;
    forall a: string, b: string
      ensures Text.StringLe(a, b) || Text.StringLe(b, a)
      ensures Text.StringLe(a, b) <==> !Text.Precedes(b, a)
      ensures a == b || Text.Precedes(a, b) || Text.Precedes(b, a)
      ensures Text.Precedes(a, b) ==> !Text.Precedes(b, a)
    {
      Text.LeTotal(a, b);
      Text.PrecedesExact(a, b);
      Text.PrecedesExact(b, a);
    }
    forall a: string, b: string, c: string | Text.StringLe(a, b) && Text.StringLe(b, c)
      ensures Text.StringLe(a, c)
    {
      Text.LeTransitive(a, b, c);
    }
    forall a: string, b: string, c: string | Text.Precedes(a, b) && Text.Precedes(b, c)
      ensures Text.Precedes(a, c)
    {
      assert Text.StringLe(c, a) ==> Text.StringLe(c, b);
    }
  }

  ghost predicate IsLeast(keys: set<string>, k: string) {
    k in keys && forall j | j in keys :: j == k || Text.Precedes(k, j)
  }

  lemma {:induction false} LeastExists(keys: set<string>)
    requires keys != {}
    ensures exists k :: IsLeast(keys, k)
    decreases keys
  {
    hide Text.Precedes;
    Ordered();
    var k :| k in keys;
    if keys != {k} {
      var rest := keys - {k};
      assert rest == {} ==> keys == {k};
      LeastExists(rest);
      var l :| IsLeast(rest, l);
      assert IsLeast(keys, if Text.Precedes(k, l) then k else l);
    } else {
      assert IsLeast(keys, k);
    }
  }

  /** The elements of a set in ascending order. */
  ghost function InOrder(keys: set<string>): seq<string>
    decreases keys
  {
    if keys == {} then []
    else
      LeastExists(keys);
      var k :| IsLeast(keys, k);
      [k] + InOrder(keys - {k})
  }

  lemma {:induction false} InOrderHas(keys: set<string>)
    ensures forall k :: k in InOrder(keys) <==> k in keys
    ensures Ascending(InOrder(keys)) && |InOrder(keys)| == |keys|
    decreases keys
  {
    hide Text.Precedes, Ascending;
    if keys != {} {
      LeastExists(keys);
      var k :| IsLeast(keys, k) && InOrder(keys) == [k] + InOrder(keys - {k});
      InOrderHas(keys - {k});
      LeastFirst(keys, k, InOrder(keys - {k}));
    } else {
      NothingAscends();
    }
  }

  lemma NothingAscends()
    ensures Ascending([])
  {
  }

  lemma LeastFirst(keys: set<string>, k: string, rest: seq<string>)
    requires IsLeast(keys, k) && Ascending(rest) && forall j :: j in rest <==> j in keys - {k}
    ensures Ascending([k] + rest) && forall j :: j in [k] + rest <==> j in keys
  {
    hide Text.Precedes;
    Ordered();
    forall i | 0 <= i < |rest|
      ensures Text.Precedes(k, rest[i])
    {
      assert rest[i] in rest;
    }
  }

  /** Only one ascending list has given elements. */
  lemma {:induction false} AscendingUnique(a: seq<string>, b: seq<string>)
    requires Ascending(a) && Ascending(b) && forall k :: k in a <==> k in b
    ensures a == b
    decreases |a|
  {
    hide Text.Precedes;
    Ordered();
    assert b != [] ==> b[0] in b;
    if a != [] {
      assert a[0] in b;
      assert b[0] in b && b[0] in a;
      assert a[0] == b[0] by {
        var i :| 0 <= i < |b| && b[i] == a[0];
        var j :| 0 <= j < |a| && a[j] == b[0];
      }
      forall k
        ensures k in a[1..] <==> k in b[1..]
      {
        TailHas(a, k);
        TailHas(b, k);
      }
      AscendingUnique(a[1..], b[1..]);
      assert a == [a[0]] + a[1..] && b == [b[0]] + b[1..];
    }
  }

  lemma TailHas(a: seq<string>, k: string)
    requires Ascending(a) && a != []
    ensures k in a[1..] <==> k in a && k != a[0]
  {
    hide Text.Precedes;
    Ordered();
    assert a == [a[0]] + a[1..];
    if k in a[1..] {
      var i :| 0 <= i < |a[1..]| && a[1..][i] == k;
      assert a[i + 1] == k;
    }
  }

  // ---------- what ListObjects returns ----------

  /** strings.HasPrefix. */
  predicate HasPrefix(key: string, prefix: string) {
    |key| >= |prefix| && key[..|prefix|] == prefix
  }

  lemma HasPrefixExact(key: string, prefix: string)
    ensures HasPrefix(key, prefix) <==> exists rest :: key == prefix + rest
  {
    if HasPrefix(key, prefix) {
      assert key == prefix + key[|prefix|..];
    }
  }

  /** The keys of a listing: with the prefix, strictly after the cursor. */
  ghost function Matching(rows: map<string, Object>, prefix: string, after: string): set<string> {
    set k | k in rows && prefix <= k && Text.Precedes(after, k)
  }

  /** The first `limit` of them in order; all of them when the limit is not positive. */
  ghost function Page(rows: map<string, Object>, prefix: string, after: string, limit: int): seq<string> {
    var all := InOrder(Matching(rows, prefix, after));
    if limit > 0 && |all| > limit then all[..limit] else all
  }

  predicate KeyLe(a: Object, b: Object) {
    Text.StringLe(a.key, b.key)
  }

  function Keys(list: seq<Object>): (keys: seq<string>)
    ensures |keys| == |list| && forall i | 0 <= i < |list| :: keys[i] == list[i].key
  {
    seq(|list|, i requires 0 <= i < |list| => list[i].key)
  }

  lemma SortedByKey(matched: seq<Object>)
    requires forall i, j | 0 <= i < j < |matched| :: matched[i].key != matched[j].key
    ensures var sorted := Text.Sort(KeyLe, matched);
            && Ascending(Keys(sorted)) && |sorted| == |matched| && forall o :: o in sorted <==> o in matched
  {
    hide Text.StringLe, Text.Precedes, Text.Sort;
    Ordered();
    assert Text.Comparison(KeyLe);
    Text.SortSorts(KeyLe, matched);
    var sorted := Text.Sort(KeyLe, matched);
    assert forall o :: o in sorted <==> o in multiset(sorted);
    assert forall o :: o in matched <==> o in multiset(matched);
    forall i, j | 0 <= i < j < |sorted|
      ensures Text.Precedes(Keys(sorted)[i], Keys(sorted)[j])
    {
      KeysStayDistinct(matched, sorted, i, j);
      assert KeyLe(sorted[i], sorted[j]);
    }
  }

  /** A permutation of a list without repeated keys repeats none. */
  lemma KeysStayDistinct(matched: seq<Object>, sorted: seq<Object>, i: int, j: int)
    requires forall i, j | 0 <= i < j < |matched| :: matched[i].key != matched[j].key
    requires multiset(sorted) == multiset(matched) && 0 <= i < j < |sorted|
    ensures sorted[i].key != sorted[j].key
  {
    assert sorted[i] in multiset(matched) && sorted[j] in multiset(matched);
    assert sorted[i] in matched && sorted[j] in matched;
    Twice(sorted, i, j);
    NoRepeats(matched, sorted[i]);
  }

  lemma Twice(sorted: seq<Object>, i: int, j: int)
    requires 0 <= i < j < |sorted|
    ensures sorted[i] == sorted[j] ==> multiset(sorted)[sorted[i]] >= 2
  {
    assert sorted == sorted[..i] + [sorted[i]] + sorted[i + 1..j] + [sorted[j]] + sorted[j + 1..];
  }

  lemma {:induction false} NoRepeats(matched: seq<Object>, o: Object)
    requires forall i, j | 0 <= i < j < |matched| :: matched[i].key != matched[j].key
    ensures multiset(matched)[o] <= 1
    decreases |matched|
  {
    if matched != [] {
      NoRepeats(matched[1..], o);
      assert matched == [matched[0]] + matched[1..];
      assert forall i | 0 <= i < |matched[1..]| :: matched[1..][i] == matched[i + 1];
    }
  }

  // ---------- the object store ----------

  /** Rows of one bucket, by key. */
  function RowsOf(objects: map<string, map<string, Object>>, bucket: string): map<string, Object> {
    if bucket in objects then objects[bucket] else map[]
  }

  /** The nested maps as one table. */
  ghost predicate SameRows(objects: map<string, map<string, Object>>, table: map<(string, string), Object>) {
    forall b, k :: ((b, k) in table <==> k in RowsOf(objects, b))
                   && ((b, k) in table ==> table[(b, k)] == RowsOf(objects, b)[k])
  }

  lemma PutRows(objects: map<string, map<string, Object>>, table: map<(string, string), Object>, o: Object)
    requires SameRows(objects, table)
    ensures (o.bucket, o.key) in table <==> o.key in RowsOf(objects, o.bucket)
    ensures (o.bucket, o.key) in table ==> table[(o.bucket, o.key)] == RowsOf(objects, o.bucket)[o.key]
    ensures SameRows(objects[o.bucket := RowsOf(objects, o.bucket)[o.key := o]], table[(o.bucket, o.key) := o])
  {
    var objects', table' := objects[o.bucket := RowsOf(objects, o.bucket)[o.key := o]], table[(o.bucket, o.key) := o];
    forall b, k
      ensures (b, k) in table' <==> k in RowsOf(objects', b)
      ensures (b, k) in table' ==> table'[(b, k)] == RowsOf(objects', b)[k]
    {
      assert (b, k) in table <==> k in RowsOf(objects, b);
    }
  }

  lemma DeleteRows(
      objects: map<string, map<string, Object>>, table: map<(string, string), Object>, bucket: string, key: string,
      objects': map<string, map<string, Object>>)
    requires SameRows(objects, table) && bucket in objects && key in objects[bucket]
    requires objects' == if objects[bucket] - {key} == map[] then objects - {bucket} else objects[bucket := objects[bucket] - {key}]
    ensures (bucket, key) in table && table[(bucket, key)] == objects[bucket][key]
    ensures SameRows(objects', table - {(bucket, key)})
  {
    var table' := table - {(bucket, key)};
    assert RowsOf(objects', bucket) == objects[bucket] - {key};
    forall b, k
      ensures (b, k) in table' <==> k in RowsOf(objects', b)
      ensures (b, k) in table' ==> table'[(b, k)] == RowsOf(objects', b)[k]
    {
      assert (b, k) in table <==> k in RowsOf(objects, b);
      assert b != bucket ==> RowsOf(objects', b) == RowsOf(objects, b);
    }
  }

  class ObjectStore {
    var objects: map<string, map<string, Object>>

    /** Rows are filed under their own key; a bucket without objects has no map. */
    ghost predicate Valid()
      reads this
    {
      forall b | b in objects ::
        objects[b] != map[] && forall k | k in objects[b] :: objects[b][k].key == k && objects[b][k].bucket == b
    }

    constructor ()
      ensures Valid() && objects == map[]
    {
      objects := map[];
    }

    /** Does what the SQLite store does, but checks no foreign key. */
    method PutObject(o: Object) returns (prev: Id)
      requires Valid()
      modifies this
      ensures Valid()
      ensures forall db: Db | SameRows(old(objects), db.objects) && o.bucket in db.buckets ::
                SameRows(objects, UpsertObject(db, o).0.objects) && UpsertObject(db, o).1 == Ok(prev)
    {
      var b := if o.bucket in objects then objects[o.bucket] else map[];
      prev := if o.key in b then b[o.key].blob else "";
      assert o.key in b[o.key := o];
      objects := objects[o.bucket := b[o.key := o]];
      hide SameRows;
      forall db: Db | SameRows(old(objects), db.objects) && o.bucket in db.buckets
        ensures SameRows(objects, UpsertObject(db, o).0.objects) && UpsertObject(db, o).1 == Ok(prev)
      {
        PutRows(old(objects), db.objects, o);
      }
    }

    method GetObject(bucket: string, key: string) returns (r: Result<Object>)
      requires Valid()
      ensures forall db: Db | SameRows(objects, db.objects) :: r == GetObjectRow(db, bucket, key, true)
    {
      if bucket in objects && key in objects[bucket] {
        return Ok(objects[bucket][key]);
      }
      return Err(NotFound);
    }

    method DeleteObject(bucket: string, key: string) returns (r: Result<Id>)
      requires Valid()
      modifies this
      ensures Valid()
      ensures forall db: Db | SameRows(old(objects), db.objects) ::
                SameRows(objects, DeleteObjectRow(db, bucket, key, true).0.objects) && DeleteObjectRow(db, bucket, key, true).1 == r
    {
      if bucket !in objects || key !in objects[bucket] {
        return Err(NotFound);
      }
      var o := objects[bucket][key];
      var rest := objects[bucket] - {key};
      objects := if rest == map[] then objects - {bucket} else objects[bucket := rest];
      hide SameRows;
      forall db: Db | SameRows(old(objects), db.objects)
        ensures SameRows(objects, DeleteObjectRow(db, bucket, key, true).0.objects)
        ensures DeleteObjectRow(db, bucket, key, true).1 == Ok(o.blob)
      {
        DeleteRows(old(objects), db.objects, bucket, key, objects);
      }
      return Ok(o.blob);
    }

    method ListObjects(bucket: string, prefix: string, after: string, limit: int) returns (list: seq<Object>)
      requires Valid()
      ensures Keys(list) == Page(RowsOf(objects, bucket), prefix, after, limit)
      ensures forall o | o in list :: o.key in RowsOf(objects, bucket) && RowsOf(objects, bucket)[o.key] == o
    {
      hide Text.StringLe, Text.Precedes, Text.Sort, InOrder, Ascending;
      var rows := RowsOf(objects, bucket);
      var matched: seq<Object> := [];
      var keys := rows.Keys;
      while keys != {}
        invariant keys <= rows.Keys
        invariant forall o | o in matched :: o.key in Matching(rows, prefix, after) && rows[o.key] == o && o.key !in keys
        invariant forall k | k in Matching(rows, prefix, after) && k !in keys :: rows[k] in matched
        invariant forall i, j | 0 <= i < j < |matched| :: matched[i].key != matched[j].key
        decreases keys
      {
        var key :| key in keys;
        keys := keys - {key};
        Text.PrecedesExact(after, key);
        if !HasPrefix(key, prefix) || Text.StringLe(key, after) {
          continue;
        }
        ghost var before := matched;
        matched := matched + [rows[key]];
        assert forall o :: o in matched <==> o in before || o == rows[key];
      }
      forall k | k in Matching(rows, prefix, after)
        ensures exists o | o in matched :: o.key == k
      {
        assert rows[k].key == k;
      }
      ListingSorted(Matching(rows, prefix, after), matched);
      list := Text.Sort(KeyLe, matched);
      if limit > 0 && |list| > limit {
        ghost var all := list;
        list := list[..limit];
        assert Keys(list) == Keys(all)[..limit];
        assert forall o :: o in list ==> o in all;
      }
    }
  }

  lemma ListingSorted(keys: set<string>, matched: seq<Object>)
    requires forall o | o in matched :: o.key in keys
    requires forall k | k in keys :: exists o | o in matched :: o.key == k
    requires forall i, j | 0 <= i < j < |matched| :: matched[i].key != matched[j].key
    ensures Keys(Text.Sort(KeyLe, matched)) == InOrder(keys)
    ensures forall o :: o in Text.Sort(KeyLe, matched) <==> o in matched
  {
    hide Text.StringLe, Text.Precedes, Text.Sort, InOrder, Ascending, KeyLe;
    SortedByKey(matched);
    var list := Text.Sort(KeyLe, matched);
    InOrderHas(keys);
    forall k
      ensures k in Keys(list) <==> k in InOrder(keys)
    {
      KeysHave(list, k);
    }
    AscendingUnique(Keys(list), InOrder(keys));
  }

  lemma KeysHave(list: seq<Object>, k: string)
    ensures k in Keys(list) <==> exists o | o in list :: o.key == k
  {
    if k in Keys(list) {
      var i :| 0 <= i < |list| && Keys(list)[i] == k;
      assert list[i] in list;
    }
    if exists o | o in list :: o.key == k {
      var o :| o in list && o.key == k;
      var i :| 0 <= i < |list| && list[i] == o;
      assert Keys(list)[i] == k;
    }
  }

  // ---------- the upload store ----------

  class UploadStore {
    const store: ObjectStore
    var sessions: map<Id, Session>

    ghost predicate Valid()
      reads this, store
    {
      store.Valid()
    }

    constructor (objects: ObjectStore)
      requires objects.Valid()
      ensures store == objects && sessions == map[]
    {
      store := objects;
      sessions := map[];
    }

    /** What both stores hold, as the tables they stand for. */
    ghost predicate Holds(db: Db)
      reads this, store
    {
      sessions == db.uploads && SameRows(store.objects, db.objects)
    }

    method CreateUpload(s: Session) returns (r: Result<()>)
      modifies this
      ensures forall db: Db | old(Holds(db)) && s.bucket in db.buckets ::
                Holds(InsertUpload(db, s, true).0) && InsertUpload(db, s, true).1 == r
    {
      if s.id in sessions {
        return Err(Conflict);
      }
      sessions := sessions[s.id := s];
      return Ok(());
    }

    method GetUpload(id: Id) returns (r: Result<Session>)
      ensures forall db: Db | Holds(db) :: r == GetUploadRow(db, id, true)
    {
      if id !in sessions {
        return Err(NotFound);
      }
      return Ok(sessions[id]);
    }

    method PutPart(id: Id, n: int, p: Part) returns (r: Result<()>)
      modifies this
      ensures forall db: Db | old(Holds(db)) :: Holds(PutPartRow(db, id, n, p, true).0) && PutPartRow(db, id, n, p, true).1 == r
    {
      if id !in sessions {
        return Err(NotFound);
      }
      var s := sessions[id];
      sessions := sessions[id := s.(parts := s.parts[n := p])];
      return Ok(());
    }

    /** The check, the put and the delete, each under its own lock; here nothing comes between them, and the result
        is that of the transaction. */
    method CompleteUpload(id: Id, o: Object) returns (prev: Result<Id>)
      requires Valid()
      modifies this, store
      ensures Valid()
      ensures forall db: Db | old(Holds(db)) && o.bucket in db.buckets ::
                Holds(CompleteUploadRow(db, id, o, true).0) && CompleteUploadRow(db, id, o, true).1 == prev
    {
      if id !in sessions {
        return Err(NotFound);
      }
      var prevId := store.PutObject(o);
      sessions := sessions - {id};
      return Ok(prevId);
    }

    method DeleteUpload(id: Id) returns (r: Result<Session>)
      modifies this
      ensures forall db: Db | old(Holds(db)) :: Holds(DeleteUploadRow(db, id, true).0) && DeleteUploadRow(db, id, true).1 == r
    {
      if id !in sessions {
        return Err(NotFound);
      }
      var s := sessions[id];
      sessions := sessions - {id};
      return Ok(s);
    }

    method CountUploads(bucket: string) returns (count: nat)
      ensures count == |set id | id in sessions && sessions[id].bucket == bucket|
    {
      count := 0;
      var rest := sessions.Keys;
      ghost var counted: set<Id> := {};
      while rest != {}
        invariant rest <= sessions.Keys && count == |counted|
        invariant counted == set id | id in sessions && id !in rest && sessions[id].bucket == bucket
        decreases rest
      {
        var id :| id in rest;
        rest := rest - {id};
        if sessions[id].bucket != bucket {
          continue;
        }
        count := count + 1;
        counted := counted + {id};
      }
      assert counted == set id | id in sessions && sessions[id].bucket == bucket;
    }
  }

  // ---------- completes that interleave ----------

  /** A complete against the in-memory stores, between its critical sections, with the blob id it was told it displaced.
      Finished(None): it found no session. The last step is the handler's: remove the displaced file. */
  datatype Completer = Begin | Checked | Stored(prev: Id) | Dropped(prev: Id) | Finished(told: Option<Id>)

  datatype Two = Two(db: Db, files: Files, first: Completer, second: Completer)

  function Proceed(db: Db, files: Files, id: Id, o: Object, c: Completer): (Db, Files, Completer) {
    match c
    case Begin => (db, files, if id in db.uploads then Checked else Finished(None))
    case Checked =>
      var at := (o.bucket, o.key);
      (db.(objects := db.objects[at := o]), files, Stored(if at in db.objects then db.objects[at].blob else ""))
    case Stored(prev) => (db.(uploads := db.uploads - {id}), files, Dropped(prev))
    case Dropped(prev) => (db, if prev != "" then files - {prev} else files, Finished(Some(prev)))
    case Finished(_) => (db, files, c)
  }

  /** Two completes of one session, in any order of their steps: true is a step of the first. */
  function Interleave(t: Two, id: Id, o1: Object, o2: Object, schedule: seq<bool>): Two
    decreases |schedule|
  {
    if schedule == [] then t
    else if schedule[0] then
      var (db, files, c) := Proceed(t.db, t.files, id, o1, t.first);
      Interleave(Two(db, files, c, t.second), id, o1, o2, schedule[1..])
    else
      var (db, files, c) := Proceed(t.db, t.files, id, o2, t.second);
      Interleave(Two(db, files, t.first, c), id, o1, o2, schedule[1..])
  }

  /** What a completer was told it displaced, once it stored the row. */
  function Displaced(c: Completer): Option<Id> {
    match c
    case Stored(prev) => Some(prev)
    case Dropped(prev) => Some(prev)
    case Finished(told) => told
    case _ => None
  }

  /** Both completes record the session's own file under its own name; `before` is the file displaced by the first of
      them to store its row, if any. */
  ghost predicate Racing(t: Two, id: Id, o1: Object, o2: Object, before: Id) {
    && o1.blob == o2.blob && (o1.bucket, o1.key) == (o2.bucket, o2.key)
    && var at, blob, d1, d2 := (o1.bucket, o1.key), o1.blob, Displaced(t.first), Displaced(t.second);
       && blob != "" && before != blob
       && (if d1.Some? && d2.Some? then (d1.value, d2.value) in {(before, blob), (blob, before)}
           else (d1.Some? ==> d1.value == before) && (d2.Some? ==> d2.value == before))
       && (if d1.Some? || d2.Some? then at in t.db.objects && t.db.objects[at].blob == blob
           else before == if at in t.db.objects then t.db.objects[at].blob else "")
       && (blob in t.files <==> t.first != Finished(Some(blob)) && t.second != Finished(Some(blob)))
       && (id !in t.db.uploads ==> d1.Some? || d2.Some?)
  }

  lemma {:induction false} RaceKeeps(t: Two, id: Id, o1: Object, o2: Object, before: Id, schedule: seq<bool>)
    requires Racing(t, id, o1, o2, before)
    ensures Racing(Interleave(t, id, o1, o2, schedule), id, o1, o2, before)
    decreases |schedule|
  {
    if schedule != [] {
      if schedule[0] {
        var (db, files, c) := Proceed(t.db, t.files, id, o1, t.first);
        RaceKeeps(Two(db, files, c, t.second), id, o1, o2, before, schedule[1..]);
      } else {
        var (db, files, c) := Proceed(t.db, t.files, id, o2, t.second);
        RaceKeeps(Two(db, files, t.first, c), id, o1, o2, before, schedule[1..]);
      }
    }
  }

  /** One complete's third step, the delete, comes before the other's first, the check; a and b steps of the two were
      taken before. */
  predicate DeletesFirst(schedule: seq<bool>, a: nat, b: nat)
    decreases |schedule|
  {
    schedule != [] &&
    if schedule[0] then (a == 0 && b >= 3) || DeletesFirst(schedule[1..], a + 1, b)
    else (b == 0 && a >= 3) || DeletesFirst(schedule[1..], a, b + 1)
  }

  /** Where a complete stands after k steps, unless it was turned away. */
  predicate Stands(c: Completer, k: nat) {
    match c
    case Begin => k == 0
    case Checked => k == 1
    case Stored(_) => k == 2
    case Dropped(_) => k == 3
    case Finished(told) => if told.Some? then k >= 4 else k >= 1
  }

  predicate TurnedAway(c: Completer) {
    c == Finished(None)
  }

  /** The session is there until one of the two deleted it. */
  predicate Deleted(c: Completer) {
    c.Dropped? || (c.Finished? && c.told.Some?)
  }

  lemma {:induction false} TurnedAwayExact(t: Two, id: Id, o1: Object, o2: Object, schedule: seq<bool>, a: nat, b: nat)
    requires Stands(t.first, a) && Stands(t.second, b)
    requires id !in t.db.uploads <==> Deleted(t.first) || Deleted(t.second)
    requires TurnedAway(t.first) ==> Deleted(t.second)
    requires TurnedAway(t.second) ==> Deleted(t.first)
    ensures var t' := Interleave(t, id, o1, o2, schedule);
            (TurnedAway(t'.first) || TurnedAway(t'.second))
            <==> TurnedAway(t.first) || TurnedAway(t.second) || DeletesFirst(schedule, a, b)
    decreases |schedule|
  {
    if schedule != [] {
      if schedule[0] {
        var (db, files, c) := Proceed(t.db, t.files, id, o1, t.first);
        TurnedAwayExact(Two(db, files, c, t.second), id, o1, o2, schedule[1..], a + 1, b);
        if TurnedAway(t.first) || TurnedAway(t.second) {
          TurnedAwayStays(Two(db, files, c, t.second), id, o1, o2, schedule[1..]);
        }
      } else {
        var (db, files, c) := Proceed(t.db, t.files, id, o2, t.second);
        TurnedAwayExact(Two(db, files, t.first, c), id, o1, o2, schedule[1..], a, b + 1);
        if TurnedAway(t.first) || TurnedAway(t.second) {
          TurnedAwayStays(Two(db, files, t.first, c), id, o1, o2, schedule[1..]);
        }
      }
    }
  }

  lemma {:induction false} TurnedAwayStays(t: Two, id: Id, o1: Object, o2: Object, schedule: seq<bool>)
    requires TurnedAway(t.first) || TurnedAway(t.second)
    ensures var t' := Interleave(t, id, o1, o2, schedule); TurnedAway(t'.first) || TurnedAway(t'.second)
    decreases |schedule|
  {
    if schedule != [] {
      if schedule[0] {
        var (db, files, c) := Proceed(t.db, t.files, id, o1, t.first);
        TurnedAwayStays(Two(db, files, c, t.second), id, o1, o2, schedule[1..]);
      } else {
        var (db, files, c) := Proceed(t.db, t.files, id, o2, t.second);
        TurnedAwayStays(Two(db, files, t.first, c), id, o1, o2, schedule[1..]);
      }
    }
  }

  /** Two completes of one live session against the in-memory stores: the row stands in every order of their steps, and
      its file survives exactly if one complete's delete came before the other's check. When both checked before either
      deleted, the later row displaces the session's own file and its handler removes it. */
  lemma RacingCompletes(db: Db, files: Files, id: Id, o1: Object, o2: Object, schedule: seq<bool>)
    requires id in db.uploads && db.uploads[id].blob in files && db.uploads[id].blob != ""
    requires o1.blob == o2.blob == db.uploads[id].blob
    requires (o1.bucket, o1.key) == (o2.bucket, o2.key) == (db.uploads[id].bucket, db.uploads[id].key)
    requires (o1.bucket, o1.key) in db.objects ==> db.objects[(o1.bucket, o1.key)].blob != o1.blob
    requires var t := Interleave(Two(db, files, Begin, Begin), id, o1, o2, schedule); t.first.Finished? && t.second.Finished?
    ensures var t := Interleave(Two(db, files, Begin, Begin), id, o1, o2, schedule);
            && (o1.bucket, o1.key) in t.db.objects && t.db.objects[(o1.bucket, o1.key)].blob == o1.blob
            && (o1.blob in t.files <==> DeletesFirst(schedule, 0, 0))
  {
    var at, t0 := (o1.bucket, o1.key), Two(db, files, Begin, Begin);
    RaceKeeps(t0, id, o1, o2, if at in db.objects then db.objects[at].blob else "", schedule);
    OneStored(t0, id, o1, o2, schedule);
    TurnedAwayExact(t0, id, o1, o2, schedule, 0, 0);
    hide Interleave, DeletesFirst;
  }

  /** A complete is turned away only after another one stored its row. */
  ghost predicate TurnedAwayLate(t: Two, id: Id) {
    && (id !in t.db.uploads ==> Displaced(t.first).Some? || Displaced(t.second).Some?)
    && (t.first == Finished(None) ==> Displaced(t.second).Some?)
    && (t.second == Finished(None) ==> Displaced(t.first).Some?)
  }

  lemma {:induction false} OneStored(t: Two, id: Id, o1: Object, o2: Object, schedule: seq<bool>)
    requires TurnedAwayLate(t, id)
    ensures TurnedAwayLate(Interleave(t, id, o1, o2, schedule), id)
    decreases |schedule|
  {
    if schedule != [] {
      if schedule[0] {
        var (db, files, c) := Proceed(t.db, t.files, id, o1, t.first);
        OneStored(Two(db, files, c, t.second), id, o1, o2, schedule[1..]);
      } else {
        var (db, files, c) := Proceed(t.db, t.files, id, o2, t.second);
        OneStored(Two(db, files, t.first, c), id, o1, o2, schedule[1..]);
      }
    }
  }

  /** Both completes checked before either deleted: the file is lost. Under the transaction of the SQLite store the
      second complete finds no session and removes nothing. */
  lemma RaceIsPossible(db: Db, files: Files, id: Id, o1: Object, o2: Object)
    requires id in db.uploads && db.uploads[id].blob in files && db.uploads[id].blob != "" && o1.bucket in db.buckets
    requires o1.blob == o2.blob == db.uploads[id].blob
    requires (o1.bucket, o1.key) == (o2.bucket, o2.key) == (db.uploads[id].bucket, db.uploads[id].key)
    ensures var t := Interleave(Two(db, files, Begin, Begin), id, o1, o2, [true, false, true, true, true, false, false, false]);
            && t.first.Finished? && t.second == Finished(Some(o1.blob)) && o1.blob !in t.files
            && (o1.bucket, o1.key) in t.db.objects && t.db.objects[(o1.bucket, o1.key)].blob == o1.blob
    ensures CompleteUploadRow(CompleteUploadRow(db, id, o1, true).0, id, o2, true).1 == Err(NotFound)
  {
    var t0 := Two(db, files, Begin, Begin);
    var t3 := Interleave(t0, id, o1, o2, [true, false, true]);
    BothCheck(db, files, id, o1, o2);
    var t6 := Interleave(t3, id, o1, o2, [true, true, false]);
    SecondStores(t3, id, o1, o2);
    SecondEnds(t6, id, o1, o2);
    hide Interleave;
    InterleaveMore(t0, id, o1, o2, [true, false, true], [true, true, false]);
    InterleaveMore(t0, id, o1, o2, [true, false, true] + [true, true, false], [false, false]);
    assert [true, false, true] + [true, true, false] + [false, false] == [true, false, true, true, true, false, false, false];
  }

  lemma BothCheck(db: Db, files: Files, id: Id, o1: Object, o2: Object)
    requires id in db.uploads
    ensures var t := Interleave(Two(db, files, Begin, Begin), id, o1, o2, [true, false, true]);
            && t.first.Stored? && t.second == Checked
            && t.db == db.(objects := db.objects[(o1.bucket, o1.key) := o1])
  {
    assert [true, false, true][1..] == [false, true] && [false, true][1..] == [true] && [true][1..] == [];
  }

  lemma SecondStores(t: Two, id: Id, o1: Object, o2: Object)
    requires t.first.Stored? && t.second == Checked && (o1.bucket, o1.key) == (o2.bucket, o2.key)
    requires (o2.bucket, o2.key) in t.db.objects && t.db.objects[(o2.bucket, o2.key)].blob == o1.blob
    ensures var t' := Interleave(t, id, o1, o2, [true, true, false]);
            && t'.first.Finished? && t'.second == Stored(o1.blob)
            && (o2.bucket, o2.key) in t'.db.objects && t'.db.objects[(o2.bucket, o2.key)] == o2
  {
    assert [true, true, false][1..] == [true, false] && [true, false][1..] == [false] && [false][1..] == [];
  }

  lemma SecondEnds(t: Two, id: Id, o1: Object, o2: Object)
    requires t.second.Stored? && t.second.prev != ""
    ensures var t' := Interleave(t, id, o1, o2, [false, false]);
            t'.first == t.first && t'.second == Finished(Some(t.second.prev)) && t'.files == t.files - {t.second.prev}
            && t'.db.objects == t.db.objects
  {
    assert [false, false][1..] == [false] && [false][1..] == [];
  }

  lemma {:induction false} InterleaveMore(t: Two, id: Id, o1: Object, o2: Object, schedule: seq<bool>, more: seq<bool>)
    ensures Interleave(t, id, o1, o2, schedule + more) == Interleave(Interleave(t, id, o1, o2, schedule), id, o1, o2, more)
    decreases |schedule|
  {
    if schedule == [] {
      assert schedule + more == more;
    } else {
      assert (schedule + more)[1..] == schedule[1..] + more;
      if schedule[0] {
        var (db, files, c) := Proceed(t.db, t.files, id, o1, t.first);
        InterleaveMore(Two(db, files, c, t.second), id, o1, o2, schedule[1..], more);
      } else {
        var (db, files, c) := Proceed(t.db, t.files, id, o2, t.second);
        InterleaveMore(Two(db, files, t.first, c), id, o1, o2, schedule[1..], more);
      }
    }
  }
}
