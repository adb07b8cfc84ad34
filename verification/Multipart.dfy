/** What every run of the server keeps, with each handler an atomic step: who owns which file, which buckets rows
    name, and that records and object rows describe the bytes on disk. */
module Multipart {
  import opened Wrappers
  import opened Stores
  import opened Crc32c
  import opened Combine
  import opened Checksum
  import opened Handlers

  /** What an observer of the requests remembers.
      bodies: per file, the last accepted body of each part.
      slots: per file, what all bodies sent for a part, accepted or refused, left in its slot.
      length: per file, the furthest byte any request wrote.
      content: per file, what the object row over it was recorded from.
      tainted: files completed while the slot of a completed part did not start with its accepted body. */
  datatype History = History(
    blobs: set<Id>, sessions: set<Id>,
    bodies: map<Id, map<int, Bytes>>, slots: map<Id, map<int, Bytes>>, length: map<Id, nat>,
    content: map<Id, Bytes>, tainted: set<Id>)

  const NO_HISTORY: History := History({}, {}, map[], map[], map[], map[], {})

  function BodiesOf(h: History, blob: Id): map<int, Bytes> {
    if blob in h.bodies then h.bodies[blob] else map[]
  }

  function SlotsOf(h: History, blob: Id): map<int, Bytes> {
    if blob in h.slots then h.slots[blob] else map[]
  }

  function LengthOf(h: History, blob: Id): nat {
    if blob in h.length then h.length[blob] else 0
  }

  /** The bodies of parts 1 to `count`, in part order. */
  function Concat(bodies: map<int, Bytes>, count: nat): Bytes
    decreases count
  {
    if count == 0 then [] else Concat(bodies, count - 1) + if count in bodies then bodies[count] else []
  }

  /** The two byte strings agree as far as both go. */
  predicate Agree(a: Bytes, b: Bytes) {
    a <= b || b <= a
  }

  // ---------- admissible requests ----------

  /** net/http reports an absent length as -1, ends a stream normally only after Content-Length bytes, never yields more. */
  predicate Framed(contentLength: int, body: Stream) {
    contentLength >= -1 && (contentLength >= 0 ==> |body.bytes| <= contentLength && (body.ending.Done? ==> |body.bytes| == contentLength))
  }

  predicate Admissible(h: History, r: Request) {
    match r
    case PutObject(_, _, length, _, _, _, body, blob) => blob != "" && blob !in h.blobs && Framed(length, body)
    case CreateUpload(_, blob, session) => blob != "" && blob !in h.blobs && session !in h.sessions
    case PutPart(_, _, length, _, body) => Framed(length, body)
    case _ => true
  }

  ghost function Observe(w: World, h: History, env: Env, limits: Limits, r: Request): History {
    var resp := Serve(w, env, limits, r).1;
    match r
    case PutObject(_, _, _, _, _, _, body, blob) =>
      var h1 := h.(blobs := h.blobs + {blob});
      if resp.ObjectRecord? then
        h1.(content := h.content[blob := body.bytes], length := h.length[blob := |body.bytes|], tainted := h.tainted - {blob})
      else h1
    case CreateUpload(_, blob, session) =>
      var h1 := h.(blobs := h.blobs + {blob}, sessions := h.sessions + {session});
      if resp.SessionRecord? then
        h1.(bodies := h.bodies[blob := map[]], slots := h.slots[blob := map[]], length := h.length[blob := 0])
      else h1
    case PutPart(id, _, _, _, body) =>
      if PartFault(w.db, env, limits, r).Some? then h
      else ObservePart(h, w.db.uploads[id], r.number.value, body.bytes, resp.PartRecord?)
    case CompleteUpload(id, completion) =>
      if resp.ObjectRecord? then ObserveComplete(h, resp.o.blob, completion.value.parts) else h
    case _ => h
  }

  function SlotAfter(slots: map<int, Bytes>, n: int, body: Bytes): map<int, Bytes> {
    if body == [] then slots else slots[n := Overlay(if n in slots then slots[n] else [], 0, body)]
  }

  function LengthAfter(length: nat, offset: int, body: Bytes): nat {
    if body == [] || offset + |body| <= length then length else offset + |body|
  }

  /** A part's bytes reached the file; the part was then accepted or not. */
  function ObservePart(h: History, s: Session, n: int, body: Bytes, accepted: bool): History {
    h.(bodies := if accepted then h.bodies[s.blob := BodiesOf(h, s.blob)[n := body]] else h.bodies,
       slots := h.slots[s.blob := SlotAfter(SlotsOf(h, s.blob), n, body)],
       length := h.length[s.blob := LengthAfter(LengthOf(h, s.blob), PartOffset(n, s.partSize), body)])
  }

  /** The slot of an accepted part no longer starts with its body. */
  predicate Stale(bodies: map<int, Bytes>, slots: map<int, Bytes>, n: int) {
    n in bodies && !(n in slots && bodies[n] <= slots[n])
  }

  ghost predicate AnyStale(bodies: map<int, Bytes>, slots: map<int, Bytes>, count: int) {
    exists n :: 1 <= n <= count && Stale(bodies, slots, n)
  }

  ghost function ObserveComplete(h: History, blob: Id, count: nat): History {
    h.(content := h.content[blob := Concat(BodiesOf(h, blob), count)],
       tainted := if AnyStale(BodiesOf(h, blob), SlotsOf(h, blob), count) then h.tainted + {blob} else h.tainted - {blob})
  }

  // ---------- the invariant ----------

  /** The file holds `body` at `offset`. */
  predicate Holds(file: Bytes, offset: int, body: Bytes) {
    0 <= offset && offset + |body| <= |file| && file[offset..offset + |body|] == body
  }

  /** The record of a part is the length and the checksum of its last accepted body. */
  predicate Describes(p: Part, body: Bytes, partSize: int) {
    && 1 <= |body| <= partSize
    && p == Part(|body|, EncodeCRC32C(Crc(body)))
  }

  /** The session's records describe its accepted bodies, and its file is what the requests wrote, slot by slot. */
  ghost predicate PartsOk(file: Bytes, s: Session, bodies: map<int, Bytes>, slots: map<int, Bytes>, length: nat) {
    && s.parts.Keys == bodies.Keys && |file| == length
    && (forall n | n in s.parts :: n in slots && Describes(s.parts[n], bodies[n], s.partSize) && |bodies[n]| <= |slots[n]|)
    && (forall n | n in slots :: n >= 1 && |slots[n]| <= s.partSize && Holds(file, PartOffset(n, s.partSize), slots[n]))
  }

  ghost predicate SessionOk(w: World, h: History, id: Id) {
    id in w.db.uploads &&
    var s := w.db.uploads[id];
    && s.id == id && id in h.sessions && s.partSize >= 1
    && s.bucket in w.db.buckets
    && s.blob in w.files && s.blob in h.blobs && s.blob in h.bodies && s.blob in h.slots && s.blob in h.length
    && PartsOk(w.files[s.blob], s, h.bodies[s.blob], h.slots[s.blob], h.length[s.blob])
  }

  ghost predicate ObjectOk(w: World, h: History, at: (string, string)) {
    at in w.db.objects &&
    var o := w.db.objects[at];
    && (o.bucket, o.key) == at && o.bucket in w.db.buckets
    && o.blob in w.files && o.blob in h.blobs && o.blob in h.content
    && o.size == |h.content[o.blob]|
    && o.checksum == EncodeCRC32C(Crc(h.content[o.blob]))
    && o.blob in h.length && |w.files[o.blob]| == h.length[o.blob]
    && (o.blob !in h.tainted <==> h.content[o.blob] <= w.files[o.blob])
  }

  ghost predicate Inv(w: World, h: History) {
    && (forall name | name in w.db.buckets :: w.db.buckets[name].name == name)
    && w.files.Keys <= h.blobs && "" !in h.blobs
    && Distinct(w.db)
    && (forall id | id in w.db.uploads :: SessionOk(w, h, id))
    && (forall at | at in w.db.objects :: ObjectOk(w, h, at))
  }

  // ---------- bytes ----------

  lemma OverlayHolds(file: Bytes, offset: nat, data: Bytes)
    requires data != []
    ensures Holds(Overlay(file, offset, data), offset, data)
  {
    OverlayBytes(file, offset, data);
  }

  lemma OverlayElsewhere(file: Bytes, offset: nat, data: Bytes, at: nat, body: Bytes)
    requires Holds(file, at, body)
    requires at + |body| <= offset || offset + |data| <= at
    ensures Holds(Overlay(file, offset, data), at, body)
  {
    if data != [] {
      OverlayBytes(file, offset, data);
    }
  }

  /** Slots of different parts do not overlap, however short their bodies. */
  lemma SlotsDisjoint(m: int, n: int, partSize: int)
    requires 1 <= m < n && partSize >= 1
    ensures 0 <= PartOffset(m, partSize)
    ensures PartOffset(m, partSize) + partSize <= PartOffset(n, partSize)
  {
    var gap := n - m - 1;
    ProductNonNegative(m - 1, partSize);
    ProductNonNegative(gap, partSize);
    assert (n - 1) * partSize == (m - 1) * partSize + partSize + gap * partSize;
  }

  lemma ProductNonNegative(a: int, b: int)
    requires a >= 0 && b >= 0
    ensures a * b >= 0
  {
  }

  lemma SlotStart(n: int, partSize: int)
    requires 1 <= n && partSize >= 1
    ensures 0 <= PartOffset(n, partSize)
  {
    ProductNonNegative(n - 1, partSize);
  }

  lemma FirstOffset(partSize: int)
    ensures PartOffset(1, partSize) == 0
  {
  }

  lemma NextOffset(n: int, partSize: int)
    ensures PartOffset(n + 1, partSize) == PartOffset(n, partSize) + partSize
  {
  }

  /** A body written over an accepted one and then rejected leaves it in place exactly when the two agree. */
  lemma RejectedBody(file: Bytes, offset: nat, accepted: Bytes, rejected: Bytes)
    requires Holds(file, offset, accepted)
    ensures Holds(Overlay(file, offset, rejected), offset, accepted) <==> Agree(rejected, accepted)
  {
    if rejected != [] {
      OverlayBytes(file, offset, rejected);
      var after := Overlay(file, offset, rejected);
      var slot := after[offset..offset + |accepted|];
      if |rejected| <= |accepted| {
        assert slot[..|rejected|] == rejected;
        assert slot[|rejected|..] == accepted[|rejected|..] by {
          assert accepted == file[offset..offset + |accepted|];
        }
        if Agree(rejected, accepted) {
          assert rejected == accepted[..|rejected|];
          assert slot == rejected + accepted[|rejected|..];
        }
      } else {
        assert slot == rejected[..|accepted|];
      }
    }
  }

  // ---------- every request keeps the invariant ----------

  /** A session whose row, file and history are as before is as sound as before. */
  lemma FrameSession(w: World, h: History, w': World, h': History, id: Id)
    requires SessionOk(w, h, id)
    requires id in w'.db.uploads && w'.db.uploads[id] == w.db.uploads[id]
    requires w.db.uploads[id].bucket in w.db.buckets ==> w.db.uploads[id].bucket in w'.db.buckets
    requires var b := w.db.uploads[id].blob;
             && (b in w.files ==> b in w'.files && w'.files[b] == w.files[b])
             && (b in h.bodies ==> b in h'.bodies && h'.bodies[b] == h.bodies[b])
             && (b in h.slots ==> b in h'.slots && h'.slots[b] == h.slots[b])
             && (b in h.length ==> b in h'.length && h'.length[b] == h.length[b])
    requires h.blobs <= h'.blobs && h.sessions <= h'.sessions
    ensures SessionOk(w', h', id)
  {
  }

  lemma FrameObject(w: World, h: History, w': World, h': History, at: (string, string))
    requires ObjectOk(w, h, at)
    requires at in w'.db.objects && w'.db.objects[at] == w.db.objects[at]
    requires w.db.objects[at].bucket in w.db.buckets ==> w.db.objects[at].bucket in w'.db.buckets
    requires var b := w.db.objects[at].blob;
             && (b in w.files ==> b in w'.files && w'.files[b] == w.files[b])
             && (b in h.content ==> b in h'.content && h'.content[b] == h.content[b])
             && (b in h.length ==> b in h'.length && h'.length[b] == h.length[b])
             && (b in h.tainted <==> b in h'.tainted)
    requires h.blobs <= h'.blobs
    ensures ObjectOk(w', h', at)
  {
  }

  /** A change to the buckets that keeps every bucket a row names. */
  lemma BucketsChanged(w: World, h: History, buckets: map<string, Bucket>)
    requires Inv(w, h)
    requires forall name | name in buckets :: buckets[name].name == name
    requires forall id | id in w.db.uploads :: w.db.uploads[id].bucket in buckets
    requires forall at | at in w.db.objects :: at.0 in buckets
    ensures Inv(w.(db := w.db.(buckets := buckets)), h)
  {
    hide PartsOk, Crc, EncodeCRC32C;
    var w' := w.(db := w.db.(buckets := buckets));
    forall id | id in w'.db.uploads
      ensures SessionOk(w', h, id)
    {
      assert SessionOk(w, h, id);
    }
    forall at | at in w'.db.objects
      ensures ObjectOk(w', h, at)
    {
      assert ObjectOk(w, h, at);
    }
  }

  lemma RowsNameBuckets(w: World, h: History)
    requires Inv(w, h)
    ensures forall id | id in w.db.uploads :: w.db.uploads[id].bucket in w.db.buckets
    ensures forall at | at in w.db.objects :: at.0 in w.db.buckets
  {
    hide PartsOk, Crc, EncodeCRC32C;
    forall id | id in w.db.uploads
      ensures w.db.uploads[id].bucket in w.db.buckets
    {
      assert SessionOk(w, h, id);
    }
    forall at | at in w.db.objects
      ensures at.0 in w.db.buckets
    {
      assert ObjectOk(w, h, at);
    }
  }

  lemma BucketsKeep(w: World, h: History, env: Env, limits: Limits, r: Request)
    requires Inv(w, h) && (r.CreateBucket? || r.DeleteBucket?)
    ensures Inv(Serve(w, env, limits, r).0, h)
  {
    hide SessionOk, ObjectOk, Distinct, ValidBucketName;
    var w' := Serve(w, env, limits, r).0;
    RowsNameBuckets(w, h);
    if w' != w {
      BucketsChanged(w, h, w'.db.buckets);
    }
  }

  /** Files no row names may come, change and go. */
  lemma UnownedFile(w: World, h: History, files: Files, h': History, blob: Id)
    requires Inv(w, h) && Unowned(w.db, blob)
    requires blob != "" && blob in h'.blobs && h' == h.(blobs := h'.blobs, sessions := h'.sessions)
    requires h.blobs <= h'.blobs && "" !in h'.blobs && h.sessions <= h'.sessions
    requires files.Keys <= w.files.Keys + {blob} && w.files.Keys - {blob} <= files.Keys
    requires forall b | b in w.files && b != blob :: files[b] == w.files[b]
    ensures Inv(w.(files := files), h')
  {
    hide SessionOk, ObjectOk;
    var w' := w.(files := files);
    forall id | id in w'.db.uploads
      ensures SessionOk(w', h', id)
    {
      FrameSession(w, h, w', h', id);
    }
    forall at | at in w'.db.objects
      ensures ObjectOk(w', h', at)
    {
      FrameObject(w, h, w', h', at);
    }
  }

  lemma FreshUnowned(w: World, h: History, blob: Id)
    requires Inv(w, h) && blob !in h.blobs
    ensures Unowned(w.db, blob)
  {
    hide PartsOk, Holds, Describes, Crc, EncodeCRC32C, Declare, Overlay, Concat, ValidBucketName, ValidObjectKey;
    forall id | id in w.db.uploads
      ensures w.db.uploads[id].blob != blob
    {
      assert SessionOk(w, h, id);
    }
    forall at | at in w.db.objects
      ensures w.db.objects[at].blob != blob
    {
      assert ObjectOk(w, h, at);
    }
  }

  /** The object row a handler is about to write describes the file it names. */
  ghost predicate NewObjectOk(w: World, h: History, o: Object) {
    && o.bucket in w.db.buckets && o.blob in w.files && o.blob in h.blobs && o.blob in h.content
    && o.size == |h.content[o.blob]|
    && o.checksum == EncodeCRC32C(Crc(h.content[o.blob]))
    && o.blob in h.length && |w.files[o.blob]| == h.length[o.blob]
    && (o.blob !in h.tainted <==> h.content[o.blob] <= w.files[o.blob])
  }

  /** Recording an object over a file no row names, and dropping the file it displaced. */
  lemma UpsertKeeps(w: World, h: History, o: Object, env: Env)
    requires Inv(w, h) && Unowned(w.db, o.blob) && NewObjectOk(w, h, o)
    ensures var (db, prev) := UpsertObject(w.db, o);
            && prev.Ok?
            && Inv(World(w.files, db), h)
            && (prev.value != "" ==> Inv(World(Discard(w.files, prev.value, env), db), h))
  {
    hide Inv, Unowned;
    UpsertRow(w, h, o);
    var (db, prev) := UpsertObject(w.db, o);
    if prev.value != "" {
      UnownedRemoved(World(w.files, db), h, prev.value, env);
    }
  }

  lemma UnownedRemoved(w: World, h: History, blob: Id, env: Env)
    requires Inv(w, h) && Unowned(w.db, blob) && blob != "" && blob in h.blobs
    ensures Inv(w.(files := Discard(w.files, blob, env)), h)
  {
    hide SessionOk, ObjectOk, Unowned;
    UnownedFile(w, h, Discard(w.files, blob, env), h, blob);
  }

  /** The row is recorded, and the file it displaced has lost its only owner. */
  lemma UpsertRow(w: World, h: History, o: Object)
    requires Inv(w, h) && Unowned(w.db, o.blob) && NewObjectOk(w, h, o)
    ensures var (db, prev) := UpsertObject(w.db, o);
            && prev.Ok? && Inv(World(w.files, db), h)
            && (prev.value != "" ==> Unowned(db, prev.value) && prev.value in h.blobs)
  {
    hide PartsOk, Holds, Describes, Crc, EncodeCRC32C, Overlay, Concat;
    var (db, prev) := UpsertObject(w.db, o);
    var at := (o.bucket, o.key);
    var w1 := World(w.files, db);
    forall id | id in db.uploads
      ensures SessionOk(w1, h, id)
    {
      FrameSession(w, h, w1, h, id);
    }
    forall k | k in db.objects
      ensures ObjectOk(w1, h, k)
    {
      if k != at {
        FrameObject(w, h, w1, h, k);
      }
    }
    hide SessionOk, ObjectOk;
    assert Distinct(db);
    if prev.value != "" {
      DisplacedIsUnowned(w, h, o);
    }
  }

  lemma DisplacedIsUnowned(w: World, h: History, o: Object)
    requires Inv(w, h) && Unowned(w.db, o.blob) && (o.bucket, o.key) in w.db.objects
    ensures var p := w.db.objects[(o.bucket, o.key)].blob;
            p in h.blobs && Unowned(w.db.(objects := w.db.objects[(o.bucket, o.key) := o]), p)
  {
    hide PartsOk, Crc, EncodeCRC32C, SessionOk;
    assert ObjectOk(w, h, (o.bucket, o.key));
  }

  /** What a PUT leaves behind: at most its own new file, or the new row over it. */
  lemma PutObjectShape(w: World, env: Env, r: Request)
    requires r.PutObject? && Framed(r.contentLength, r.body)
    requires forall name | name in w.db.buckets :: w.db.buckets[name].name == name
    ensures var (w', resp) := PutObjectStep(w, env, r);
            var files := w.files[r.newBlob := Overlay([], 0, r.body.bytes)];
            if resp.ObjectRecord? then
              && resp.o.bucket == r.bucket && resp.o.key == r.key && resp.o.blob == r.newBlob
              && r.bucket in w.db.buckets && resp.o.size == |r.body.bytes|
              && resp.o.checksum == EncodeCRC32C(Crc(r.body.bytes))
              && w'.db == UpsertObject(w.db, resp.o).0
              && var prev := UpsertObject(w.db, resp.o).1.value;
              && w'.files == (if prev != "" then Discard(files, prev, env) else files)
            else
              w'.db == w.db && (w'.files == w.files || w'.files == files || w'.files == w.files - {r.newBlob}
                                || w'.files == w.files[r.newBlob := []])
  {
    hide Crc, EncodeCRC32C, Declare, Overlay, ValidBucketName, ValidObjectKey;
    var data := Overlay([], 0, r.body.bytes);
    assert w.files[r.newBlob := []][r.newBlob := data] == w.files[r.newBlob := data];
    assert w.files[r.newBlob := data] - {r.newBlob} == w.files - {r.newBlob};
  }

  lemma PutObjectKeeps(w: World, h: History, env: Env, limits: Limits, r: Request)
    requires Inv(w, h) && r.PutObject? && Admissible(h, r)
    ensures Inv(Serve(w, env, limits, r).0, Observe(w, h, env, limits, r))
  {
    hide PutObjectStep, PartsOk, Crc, EncodeCRC32C, Overlay, SessionOk, ObjectOk, Distinct, Unowned;
    var id := r.newBlob;
    var (w', resp) := Serve(w, env, limits, r);
    var h1 := h.(blobs := h.blobs + {id});
    FreshUnowned(w, h, id);
    PutObjectShape(w, env, r);
    if !resp.ObjectRecord? {
      UnownedFile(w, h, w'.files, h1, id);
    } else {
      WriteFromStart(r.body.bytes);
      PutRecorded(w, h, id, r.body.bytes, resp.o, env);
    }
  }

  /** A body in a file of its own, and the row over it. */
  lemma PutRecorded(w: World, h: History, id: Id, body: Bytes, o: Object, env: Env)
    requires Inv(w, h) && Unowned(w.db, id) && id != "" && o.blob == id && o.bucket in w.db.buckets
    requires o.size == |body| && o.checksum == EncodeCRC32C(Crc(body))
    ensures var h' := h.(blobs := h.blobs + {id}, content := h.content[id := body], length := h.length[id := |body|],
                         tainted := h.tainted - {id});
            var files, (db, prev) := w.files[id := body], UpsertObject(w.db, o);
            && prev.Ok? && Inv(World(files, db), h')
            && (prev.value != "" ==> Inv(World(Discard(files, prev.value, env), db), h'))
  {
    hide Inv, Unowned, Crc, EncodeCRC32C, UpsertObject;
    var w2, h1 := w.(files := w.files[id := body]), h.(blobs := h.blobs + {id});
    var h2 := h1.(content := h.content[id := body], length := h.length[id := |body|], tainted := h.tainted - {id});
    KnownFiles(w, h);
    UnownedFile(w, h, w2.files, h1, id);
    ContentOfUnowned(w2, h1, id, h2);
    UpsertKeeps(w2, h2, o, env);
  }

  lemma KnownFiles(w: World, h: History)
    requires Inv(w, h)
    ensures "" !in h.blobs
  {
  }

  lemma WriteFromStart(data: Bytes)
    ensures Overlay([], 0, data) == data
  {
  }

  /** What is remembered about a file no object row names is free. */
  lemma ContentOfUnowned(w: World, h: History, blob: Id, h': History)
    requires Inv(w, h) && Unowned(w.db, blob) && h'.tainted - {blob} == h.tainted - {blob}
    requires h' == h.(content := h'.content, length := h'.length, tainted := h'.tainted)
    requires h'.content - {blob} == h.content - {blob} && h'.length - {blob} == h.length - {blob}
    ensures Inv(w, h')
  {
    hide SessionOk, ObjectOk;
    assert forall b | b in h.length && b != blob :: b in h.length - {blob};
    assert forall b | b in h.content && b != blob :: b in h.content - {blob};
    forall id | id in w.db.uploads
      ensures SessionOk(w, h', id)
    {
      FrameSession(w, h, w, h', id);
    }
    forall at | at in w.db.objects
      ensures ObjectOk(w, h', at)
    {
      var b := w.db.objects[at].blob;
      assert b in h.tainted <==> b in h.tainted - {blob};
      assert b in h'.tainted <==> b in h'.tainted - {blob};
      FrameObject(w, h, w, h', at);
    }
  }

  lemma DeleteObjectKeeps(w: World, h: History, env: Env, limits: Limits, r: Request)
    requires Inv(w, h) && r.DeleteObject?
    ensures Inv(Serve(w, env, limits, r).0, h)
  {
    hide PartsOk, Holds, Describes, Crc, EncodeCRC32C, Declare, Overlay, Concat, ValidBucketName, ValidObjectKey;
    var w' := Serve(w, env, limits, r).0;
    var at := (r.bucket, r.key);
    if w' != w {
      var w1 := w.(db := w'.db);
      RowsRemoved(w, h, w'.db);
      assert ObjectOk(w, h, at);
      UnownedFile(w1, h, w'.files, h, w.db.objects[at].blob);
    }
  }

  /** Dropping rows breaks nothing. */
  lemma RowsRemoved(w: World, h: History, db: Db)
    requires Inv(w, h) && db.buckets == w.db.buckets
    requires forall id | id in db.uploads :: id in w.db.uploads && db.uploads[id] == w.db.uploads[id]
    requires forall at | at in db.objects :: at in w.db.objects && db.objects[at] == w.db.objects[at]
    ensures Inv(w.(db := db), h)
  {
    hide SessionOk, ObjectOk;
    forall id | id in db.uploads
      ensures SessionOk(w.(db := db), h, id)
    {
      FrameSession(w, h, w.(db := db), h, id);
    }
    forall at | at in db.objects
      ensures ObjectOk(w.(db := db), h, at)
    {
      FrameObject(w, h, w.(db := db), h, at);
    }
  }

  lemma DeleteUploadKeeps(w: World, h: History, env: Env, limits: Limits, r: Request)
    requires Inv(w, h) && r.DeleteUpload?
    ensures Inv(Serve(w, env, limits, r).0, h)
  {
    hide PartsOk, Holds, Describes, Crc, EncodeCRC32C, Declare, Overlay, Concat, ValidBucketName, ValidObjectKey;
    var w' := Serve(w, env, limits, r).0;
    if w' != w {
      assert SessionOk(w, h, r.id);
      RowsRemoved(w, h, w'.db);
      UnownedFile(w.(db := w'.db), h, w'.files, h, w.db.uploads[r.id].blob);
    }
  }

  lemma NoPartsOk(file: Bytes, s: Session)
    requires s.parts == map[]
    ensures PartsOk(file, s, map[], map[], |file|)
  {
  }

  lemma NewSessionOk(w: World, h: History, s: Session)
    requires s.parts == map[] && s.partSize >= 1 && s.bucket in w.db.buckets
    requires s.id in w.db.uploads && w.db.uploads[s.id] == s && s.id in h.sessions
    requires s.blob in w.files && s.blob in h.blobs
    requires s.blob in h.bodies && h.bodies[s.blob] == map[] && s.blob in h.slots && h.slots[s.blob] == map[]
    requires s.blob in h.length && h.length[s.blob] == |w.files[s.blob]|
    ensures SessionOk(w, h, s.id)
  {
    hide PartsOk;
    NoPartsOk(w.files[s.blob], s);
  }

  /** A new session over a new, empty file. */
  lemma InsertKeeps(w: World, h: History, s: Session)
    requires Inv(w, h) && s.parts == map[] && s.partSize >= 1 && s.bucket in w.db.buckets
    requires s.id !in w.db.uploads && s.id in h.sessions
    requires Unowned(w.db, s.blob) && s.blob in w.files && w.files[s.blob] == [] && s.blob in h.blobs
    ensures Inv(w.(db := w.db.(uploads := w.db.uploads[s.id := s])),
                h.(bodies := h.bodies[s.blob := map[]], slots := h.slots[s.blob := map[]], length := h.length[s.blob := 0]))
  {
    hide SessionOk, ObjectOk, Distinct;
    InsertExchanges(w.db, s);
    var w' := w.(db := w.db.(uploads := w.db.uploads[s.id := s]));
    var h' := h.(bodies := h.bodies[s.blob := map[]], slots := h.slots[s.blob := map[]], length := h.length[s.blob := 0]);
    NewSessionOk(w', h', s);
    forall u | u in w'.db.uploads && u != s.id
      ensures SessionOk(w', h', u)
    {
      FrameSession(w, h, w', h', u);
    }
    forall at | at in w'.db.objects
      ensures ObjectOk(w', h', at)
    {
      FrameObject(w, h, w', h', at);
    }
  }

  lemma CreateUploadShape(w: World, env: Env, limits: Limits, r: Request)
    requires r.CreateUpload? && limits.partSizeMin >= 1
    ensures var (w', resp) := CreateUploadStep(w, env, limits, r);
            if resp.SessionRecord? then
              && resp.s.id == r.newSession && resp.s.blob == r.newBlob && resp.s.parts == map[] && resp.s.partSize >= 1
              && resp.s.bucket in w.db.buckets && r.newSession !in w.db.uploads
              && w'.files == w.files[r.newBlob := []]
              && w'.db == w.db.(uploads := w.db.uploads[r.newSession := resp.s])
            else
              w'.db == w.db && (w'.files == w.files || w'.files == w.files[r.newBlob := []]
                                || w'.files == w.files[r.newBlob := []] - {r.newBlob})
  {
    hide ValidBucketName, ValidObjectKey;
  }

  lemma CreateUploadKeeps(w: World, h: History, env: Env, limits: Limits, r: Request)
    requires Inv(w, h) && r.CreateUpload? && Admissible(h, r) && limits.partSizeMin >= 1
    ensures Inv(Serve(w, env, limits, r).0, Observe(w, h, env, limits, r))
  {
    hide CreateUploadStep, PartsOk, SessionOk, ObjectOk, Distinct, Unowned;
    var id := r.newBlob;
    var (w', resp) := Serve(w, env, limits, r);
    var h1 := h.(blobs := h.blobs + {id}, sessions := h.sessions + {r.newSession});
    FreshUnowned(w, h, id);
    CreateUploadShape(w, env, limits, r);
    UnownedFile(w, h, w'.files, h1, id);
    if resp.SessionRecord? {
      InsertKeeps(w.(files := w'.files), h1, resp.s);
    }
  }

  // ---------- parts ----------

  lemma OtherSlot(file: Bytes, partSize: int, n: int, data: Bytes, m: int, body: Bytes)
    requires 1 <= n && 1 <= m && m != n && partSize >= 1 && |data| <= partSize && |body| <= partSize
    requires Holds(file, PartOffset(m, partSize), body)
    ensures 0 <= PartOffset(n, partSize) && Holds(Overlay(file, PartOffset(n, partSize), data), PartOffset(m, partSize), body)
  {
    hide Overlay;
    SlotStart(n, partSize);
    if m < n {
      SlotsDisjoint(m, n, partSize);
    } else {
      SlotsDisjoint(n, m, partSize);
    }
    OverlayElsewhere(file, PartOffset(n, partSize), data, PartOffset(m, partSize), body);
  }

  lemma HoldsByByte(file: Bytes, offset: nat, body: Bytes)
    ensures Holds(file, offset, body) <==> offset + |body| <= |file| && forall i | 0 <= i < |body| :: file[offset + i] == body[i]
  {
    if offset + |body| <= |file| && forall i | 0 <= i < |body| :: file[offset + i] == body[i] {
      assert file[offset..offset + |body|] == body;
    }
    if Holds(file, offset, body) {
      forall i | 0 <= i < |body|
        ensures file[offset + i] == body[i]
      {
        assert file[offset..offset + |body|][i] == body[i];
      }
    }
  }

  /** What a body leaves in its slot is what it leaves of the file there; it starts with the body. */
  lemma SlotWritten(file: Bytes, offset: nat, slot: Bytes, body: Bytes)
    requires body != [] && (slot != [] ==> Holds(file, offset, slot))
    ensures Holds(Overlay(file, offset, body), offset, Overlay(slot, 0, body))
    ensures body <= Overlay(slot, 0, body) && |Overlay(slot, 0, body)| == if |slot| < |body| then |body| else |slot|
  {
    OverlayBytes(file, offset, body);
    OverlayBytes(slot, 0, body);
    HoldsByByte(file, offset, slot);
    var after, left := Overlay(file, offset, body), Overlay(slot, 0, body);
    HoldsByByte(after, offset, left);
    hide Overlay, Holds;
    forall i | 0 <= i < |left|
      ensures left[i] == after[offset + i]
    {
      if i < |body| {
        assert left[0 + i] == body[i];
      } else {
        assert left[i] == slot[i] == file[offset + i];
      }
    }
    forall i | 0 <= i < |body|
      ensures left[i] == body[i]
    {
      assert left[0 + i] == body[i];
    }
  }

  lemma SlotsWritten(file: Bytes, s: Session, slots: map<int, Bytes>, n: int, body: Bytes, offset: nat)
    requires n >= 1 && s.partSize >= 1 && offset == PartOffset(n, s.partSize) && |body| <= s.partSize
    requires forall m | m in slots :: m >= 1 && |slots[m]| <= s.partSize && Holds(file, PartOffset(m, s.partSize), slots[m])
    ensures var file', slots' := Overlay(file, offset, body), SlotAfter(slots, n, body);
            && (forall m | m in slots' :: m >= 1 && |slots'[m]| <= s.partSize && Holds(file', PartOffset(m, s.partSize), slots'[m]))
            && (forall m | m in slots :: m in slots' && |slots[m]| <= |slots'[m]| && (m != n ==> slots'[m] == slots[m]))
            && (body != [] ==> n in slots' && body <= slots'[n])
            && |file'| == LengthAfter(|file|, offset, body)
  {
    hide Overlay, Holds, PartOffset;
    if body != [] {
      var slots' := SlotAfter(slots, n, body);
      SlotWritten(file, offset, if n in slots then slots[n] else [], body);
      OverlayBytes(file, offset, body);
      forall m | m in slots' && m != n
        ensures Holds(Overlay(file, offset, body), PartOffset(m, s.partSize), slots'[m])
      {
        OtherSlot(file, s.partSize, n, body, m, slots[m]);
      }
    } else {
      NothingWritten(file, offset);
    }
  }

  lemma NothingWritten(file: Bytes, offset: nat)
    ensures Overlay(file, offset, []) == file
  {
  }

  lemma PartAccepted(
      file: Bytes, s: Session, bodies: map<int, Bytes>, slots: map<int, Bytes>, length: nat, n: int, body: Bytes, offset: nat)
    requires PartsOk(file, s, bodies, slots, length) && n >= 1 && s.partSize >= 1 && offset == PartOffset(n, s.partSize)
    requires Describes(Part(|body|, EncodeCRC32C(Crc(body))), body, s.partSize)
    ensures PartsOk(Overlay(file, offset, body), s.(parts := s.parts[n := Part(|body|, EncodeCRC32C(Crc(body)))]),
                    bodies[n := body], SlotAfter(slots, n, body), LengthAfter(length, offset, body))
  {
    hide Overlay, Holds, EncodeCRC32C, Crc, PartOffset, SlotAfter, LengthAfter;
    SlotsWritten(file, s, slots, n, body, offset);
  }

  lemma PartRejected(
      file: Bytes, s: Session, bodies: map<int, Bytes>, slots: map<int, Bytes>, length: nat, n: int, body: Bytes, offset: nat)
    requires PartsOk(file, s, bodies, slots, length) && n >= 1 && s.partSize >= 1 && offset == PartOffset(n, s.partSize)
    requires |body| <= s.partSize
    ensures PartsOk(Overlay(file, offset, body), s, bodies, SlotAfter(slots, n, body), LengthAfter(length, offset, body))
  {
    hide Overlay, Holds, EncodeCRC32C, Crc, PartOffset, SlotAfter, LengthAfter;
    SlotsWritten(file, s, slots, n, body, offset);
  }

  lemma PutPartShape(w: World, env: Env, limits: Limits, r: Request)
    requires r.PutPart? && Framed(r.contentLength, r.body)
    requires PartFault(w.db, env, limits, r).None? && w.db.uploads[r.id].id == r.id && w.db.uploads[r.id].blob in w.files
    ensures var (w', resp) := PutPartStep(w, env, limits, r);
            var s, n, body := w.db.uploads[r.id], r.number.value, r.body.bytes;
            && n >= 1 && |body| <= s.partSize && PartOffset(n, s.partSize) >= 0
            && w'.files == w.files[s.blob := Overlay(w.files[s.blob], PartOffset(n, s.partSize), body)]
            && if resp.PartRecord? then
                 && |body| >= 1 && |body| == r.contentLength
                 && resp == PartRecord(n, |body|, EncodeCRC32C(Crc(body)))
                 && w'.db == w.db.(uploads := w.db.uploads[r.id := s.(parts := s.parts[n := Part(|body|, EncodeCRC32C(Crc(body)))])])
               else w'.db == w.db
  {
    hide Overlay, EncodeCRC32C, Crc, Declare, PartOffset;
  }

  /** The history of one file replaced. */
  function Rewritten(h: History, blob: Id, bodies: map<int, Bytes>, slots: map<int, Bytes>, length: nat): History {
    h.(bodies := h.bodies[blob := bodies], slots := h.slots[blob := slots], length := h.length[blob := length])
  }

  lemma ChangedSessionOk(
      w: World, h: History, s: Session, file: Bytes, bodies: map<int, Bytes>, slots: map<int, Bytes>, length: nat)
    requires s.id in w.db.uploads && s == w.db.uploads[s.id].(parts := s.parts) && SessionOk(w, h, s.id)
    requires PartsOk(file, s, bodies, slots, length)
    ensures s.blob in w.files && s.blob in h.blobs
    ensures SessionOk(World(w.files[s.blob := file], w.db.(uploads := w.db.uploads[s.id := s])),
                      Rewritten(h, s.blob, bodies, slots, length), s.id)
  {
    hide PartsOk;
  }

  lemma DistinctAfter(db: Db, s: Session)
    requires Distinct(db) && s.id in db.uploads && s.blob == db.uploads[s.id].blob
    ensures Distinct(db.(uploads := db.uploads[s.id := s]))
    ensures forall u | u in db.uploads && u != s.id :: db.uploads[u].blob != s.blob
    ensures forall at | at in db.objects :: db.objects[at].blob != s.blob
  {
  }

  /** One session's file and parts change; its blob and everything else stay. */
  lemma SessionChanged(
      w: World, h: History, s: Session, file: Bytes, bodies: map<int, Bytes>, slots: map<int, Bytes>, length: nat)
    requires Inv(w, h) && s.id in w.db.uploads
    requires s == w.db.uploads[s.id].(parts := s.parts)
    requires PartsOk(file, s, bodies, slots, length)
    ensures Inv(World(w.files[s.blob := file], w.db.(uploads := w.db.uploads[s.id := s])),
                Rewritten(h, s.blob, bodies, slots, length))
  {
    hide SessionOk, ObjectOk, PartsOk, Distinct;
    DistinctAfter(w.db, s);
    var w' := World(w.files[s.blob := file], w.db.(uploads := w.db.uploads[s.id := s]));
    var h' := Rewritten(h, s.blob, bodies, slots, length);
    ChangedSessionOk(w, h, s, file, bodies, slots, length);
    forall u | u in w'.db.uploads
      ensures SessionOk(w', h', u)
    {
      if u != s.id {
        FrameSession(w, h, w', h', u);
      }
    }
    forall at | at in w'.db.objects
      ensures ObjectOk(w', h', at)
    {
      FrameObject(w, h, w', h', at);
    }
  }

  lemma PutPartKeeps(w: World, h: History, env: Env, limits: Limits, r: Request)
    requires Inv(w, h) && r.PutPart? && Admissible(h, r)
    ensures Inv(Serve(w, env, limits, r).0, Observe(w, h, env, limits, r))
  {
    hide PutPartStep, PartsOk, EncodeCRC32C, Crc, ObjectOk, Overlay, PartOffset, SlotAfter, LengthAfter, Distinct;
    if PartFault(w.db, env, limits, r).None? {
      assert SessionOk(w, h, r.id);
      PutPartShape(w, env, limits, r);
      var resp := Serve(w, env, limits, r).1;
      var s, n, body := w.db.uploads[r.id], r.number.value, r.body.bytes;
      var file, offset := w.files[s.blob], PartOffset(n, s.partSize);
      var bodies, slots, length := h.bodies[s.blob], h.slots[s.blob], h.length[s.blob];
      var file', slots', length' := Overlay(file, offset, body), SlotAfter(slots, n, body), LengthAfter(length, offset, body);
      if resp.PartRecord? {
        PartAccepted(file, s, bodies, slots, length, n, body, offset);
        SessionChanged(w, h, s.(parts := s.parts[n := Part(|body|, EncodeCRC32C(Crc(body)))]),
                       file', bodies[n := body], slots', length');
      } else {
        PartRejected(file, s, bodies, slots, length, n, body, offset);
        SessionChanged(w, h, s, file', bodies, slots', length');
        assert w.db.uploads[s.id := s] == w.db.uploads;
        assert h.bodies[s.blob := bodies] == h.bodies;
      }
    } else {
      RefusedPart(w, env, limits, r);
    }
  }

  lemma RefusedPart(w: World, env: Env, limits: Limits, r: Request)
    requires r.PutPart? && PartFault(w.db, env, limits, r).Some?
    ensures PutPartStep(w, env, limits, r).0 == w
  {
  }

  // ---------- complete ----------

  /** Parts 1 to `count` are recorded, and all but the last are full. */
  ghost predicate Complete(s: Session, count: nat) {
    && count >= 1
    && (forall n | 1 <= n <= count :: n in s.parts)
    && (forall n | 1 <= n < count :: s.parts[n].size == s.partSize)
  }

  /** The fold of the recorded checksums is the checksum of the concatenated bodies. */
  lemma {:induction false} FoldIsConcat(parts: map<int, Part>, bodies: map<int, Bytes>, partSize: int, count: nat)
    requires count >= 1
    requires forall n | 1 <= n <= count :: n in parts && n in bodies && Describes(parts[n], bodies[n], partSize)
    ensures Fold(parts, count) == Some((Crc(Concat(bodies, count)), |Concat(bodies, count)|))
    decreases count
  {
    hide Crc, Combined, EncodeCRC32C, ParseChecksum;
    ParseEncode(Crc(bodies[count]));
    if count == 1 {
      assert Concat(bodies, 1) == bodies[1];
    } else {
      FoldIsConcat(parts, bodies, partSize, count - 1);
      CombinedIsConcatenation(Concat(bodies, count - 1), bodies[count]);
    }
  }

  /** Slots tile: the bodies of a complete session, all in place, are a prefix of its file, in order and without gaps. */
  lemma {:induction false} SlotsTile(file: Bytes, bodies: map<int, Bytes>, partSize: int, count: nat)
    requires count >= 1 && partSize >= 1
    requires forall n | 1 <= n <= count :: n in bodies && Holds(file, PartOffset(n, partSize), bodies[n])
    requires forall n | 1 <= n < count :: |bodies[n]| == partSize
    ensures |Concat(bodies, count)| == PartOffset(count, partSize) + |bodies[count]|
    ensures Concat(bodies, count) <= file
    decreases count
  {
    hide PartOffset;
    var last := bodies[count];
    if count == 1 {
      FirstOffset(partSize);
      assert Concat(bodies, 1) == Concat(bodies, 0) + last == last;
    } else {
      NextOffset(count - 1, partSize);
      SlotsTile(file, bodies, partSize, count - 1);
      var before := Concat(bodies, count - 1);
      assert |before| == PartOffset(count, partSize);
      assert file[..|before|] == before && file[|before|..|before| + |last|] == last;
    }
  }

  lemma CompleteShape(w: World, env: Env, limits: Limits, r: Request)
    requires r.CompleteUpload?
    ensures var (w', resp) := Serve(w, env, limits, r);
            if resp.ObjectRecord? then
              && r.id in w.db.uploads && r.completion.Some? && r.completion.value.parts >= 1
              && var s, count := w.db.uploads[r.id], r.completion.value.parts;
              && Complete(s, count)
              && Fold(s.parts, count).Some?
              && var (acc, size) := Fold(s.parts, count).value;
              && resp.o == Object(s.bucket, s.key, s.blob, size, s.contentType, EncodeCRC32C(acc), s.metadata, env.now)
              && var (db, prev) := UpsertObject(w.db, resp.o);
              && prev.Ok?
              && w'.db == db.(uploads := db.uploads - {s.id})
              && w'.files == (if prev.value != "" then Discard(w.files, prev.value, env) else w.files)
            else w' == w
  {
    hide Fold, EncodeCRC32C, UpsertObject;
    if SessionFault(w.db, env, r.id).None? && r.completion.Some? && r.completion.value.parts >= 1
       && (r.completion.value.checksums.Some? ==> |r.completion.value.checksums.value| == r.completion.value.parts) {
      CompletionAccepted(w.db.uploads[r.id], r.completion.value);
    }
  }

  /** A file that starts with the concatenation holds every body in its slot. */
  lemma {:induction false} PrefixHolds(file: Bytes, bodies: map<int, Bytes>, partSize: int, count: nat, n: int)
    requires 1 <= n <= count && partSize >= 1
    requires forall m | 1 <= m <= count :: m in bodies
    requires forall m | 1 <= m < count :: |bodies[m]| == partSize
    requires Concat(bodies, count) <= file
    ensures Holds(file, PartOffset(n, partSize), bodies[n])
    decreases count
  {
    ConcatLength(bodies, partSize, count);
    var before := Concat(bodies, count - 1);
    if n == count {
      SlotStart(n, partSize);
      assert Concat(bodies, count)[|before|..] == bodies[n];
      assert file[|before|..|before| + |bodies[n]|] == bodies[n];
    } else {
      assert before <= file;
      PrefixHolds(file, bodies, partSize, count - 1, n);
    }
  }

  lemma {:induction false} ConcatLength(bodies: map<int, Bytes>, partSize: int, count: nat)
    requires count >= 1 && partSize >= 1
    requires forall m | 1 <= m <= count :: m in bodies
    requires forall m | 1 <= m < count :: |bodies[m]| == partSize
    ensures |Concat(bodies, count - 1)| == PartOffset(count, partSize)
    decreases count
  {
    if count > 1 {
      ConcatLength(bodies, partSize, count - 1);
    }
  }

  /** A slot starts with a body no longer than itself exactly if the file holds that body there. */
  lemma SlotStarts(file: Bytes, offset: int, slot: Bytes, body: Bytes)
    requires Holds(file, offset, slot) && |body| <= |slot|
    ensures body <= slot <==> Holds(file, offset, body)
  {
    assert slot[..|body|] == file[offset..offset + |body|];
  }

  /** The accepted bodies are in place exactly if no slot is stale. */
  lemma ContentInPlace(file: Bytes, s: Session, bodies: map<int, Bytes>, slots: map<int, Bytes>, length: nat, count: nat)
    requires PartsOk(file, s, bodies, slots, length) && Complete(s, count) && s.partSize >= 1
    ensures Concat(bodies, count) <= file <==> !AnyStale(bodies, slots, count)
  {
    hide Holds, PartOffset, Crc, EncodeCRC32C;
    forall n | 1 <= n <= count
      ensures Holds(file, PartOffset(n, s.partSize), bodies[n]) <==> !Stale(bodies, slots, n)
    {
      SlotStarts(file, PartOffset(n, s.partSize), slots[n], bodies[n]);
    }
    if !AnyStale(bodies, slots, count) {
      SlotsTile(file, bodies, s.partSize, count);
    }
    if Concat(bodies, count) <= file {
      forall n | 1 <= n <= count
        ensures !Stale(bodies, slots, n)
      {
        PrefixHolds(file, bodies, s.partSize, count, n);
      }
    }
  }

  /** A completed object's size and checksum are those of the accepted bodies; its bytes are, exactly if no completed
      part's slot is stale. */
  lemma CompletedContent(w: World, h: History, id: Id, count: nat)
    requires Inv(w, h) && id in w.db.uploads && Complete(w.db.uploads[id], count)
    ensures var s := w.db.uploads[id];
            var content := Concat(h.bodies[s.blob], count);
            && Fold(s.parts, count) == Some((Crc(content), |content|))
            && (content <= w.files[s.blob] <==> !AnyStale(h.bodies[s.blob], h.slots[s.blob], count))
  {
    hide Crc, EncodeCRC32C, Fold, Holds, PartOffset, AnyStale;
    assert SessionOk(w, h, id);
    var s := w.db.uploads[id];
    FoldIsConcat(s.parts, h.bodies[s.blob], s.partSize, count);
    ContentInPlace(w.files[s.blob], s, h.bodies[s.blob], h.slots[s.blob], h.length[s.blob], count);
  }

  /** What complete records describes the session's file. */
  lemma CompletedRowOk(w: World, h: History, env: Env, limits: Limits, r: Request)
    requires Inv(w, h) && r.CompleteUpload? && Serve(w, env, limits, r).1.ObjectRecord?
    ensures var resp := Serve(w, env, limits, r).1;
            var h' := Observe(w, h, env, limits, r);
            && r.id in w.db.uploads && w.db.uploads[r.id].id == r.id && resp.o.blob == w.db.uploads[r.id].blob
            && NewObjectOk(w, h', resp.o)
            && h' == ObserveComplete(h, resp.o.blob, r.completion.value.parts)
  {
    hide EncodeCRC32C, Crc, Fold, Concat, CompleteUploadStep, ObjectOk, AnyStale, SessionFault, Distinct, Describes, Holds, Complete;
    CompleteShape(w, env, limits, r);
    assert SessionOk(w, h, r.id);
    CompletedContent(w, h, r.id, r.completion.value.parts);
  }

  lemma CompletionFrame(h: History, blob: Id, count: nat)
    ensures var h' := ObserveComplete(h, blob, count);
            && h' == h.(content := h'.content, length := h'.length, tainted := h'.tainted)
            && h'.content - {blob} == h.content - {blob} && h'.length == h.length
            && h'.tainted - {blob} == h.tainted - {blob}
  {
    hide Concat, AnyStale;
  }

  lemma SessionDropped(w: World, h: History, id: Id)
    requires Inv(w, h) && id in w.db.uploads
    ensures var w1 := w.(db := w.db.(uploads := w.db.uploads - {id}));
            Inv(w1, h) && Unowned(w1.db, w.db.uploads[id].blob)
  {
    hide SessionOk, ObjectOk;
    RowsRemoved(w, h, w.db.(uploads := w.db.uploads - {id}));
  }

  lemma CompleteKeeps(w: World, h: History, env: Env, limits: Limits, r: Request)
    requires Inv(w, h) && r.CompleteUpload?
    ensures Inv(Serve(w, env, limits, r).0, Observe(w, h, env, limits, r))
  {
    hide Inv, Unowned, NewObjectOk, CompleteUploadStep, ObserveComplete, Complete, Fold, EncodeCRC32C;
    CompleteShape(w, env, limits, r);
    var resp := Serve(w, env, limits, r).1;
    if resp.ObjectRecord? {
      CompletedRowOk(w, h, env, limits, r);
      CompletionFrame(h, resp.o.blob, r.completion.value.parts);
      SessionDropped(w, h, r.id);
      var w1, h' := w.(db := w.db.(uploads := w.db.uploads - {r.id})), Observe(w, h, env, limits, r);
      ContentOfUnowned(w1, h, resp.o.blob, h');
      NewRowFrame(w, w1, h', resp.o);
      UpsertKeeps(w1, h', resp.o, env);
    }
  }

  lemma NewRowFrame(w: World, w1: World, h: History, o: Object)
    requires NewObjectOk(w, h, o) && w1.files == w.files && w1.db.buckets == w.db.buckets
    ensures NewObjectOk(w1, h, o)
  {
  }

  /** Every admissible request keeps the invariant. */
  lemma ServeKeeps(w: World, h: History, env: Env, limits: Limits, r: Request)
    requires Inv(w, h) && Admissible(h, r) && limits.partSizeMin >= 1
    ensures Inv(Serve(w, env, limits, r).0, Observe(w, h, env, limits, r))
  {
    hide Inv;
    match r {
      case CreateBucket(_, _) => BucketsKeep(w, h, env, limits, r);
      case DeleteBucket(_) => BucketsKeep(w, h, env, limits, r);
      case PutObject(_, _, _, _, _, _, _, _) => PutObjectKeeps(w, h, env, limits, r);
      case GetObject(_, _) =>
      case DeleteObject(_, _) => DeleteObjectKeeps(w, h, env, limits, r);
      case CreateUpload(_, _, _) => CreateUploadKeeps(w, h, env, limits, r);
      case PutPart(_, _, _, _, _) => PutPartKeeps(w, h, env, limits, r);
      case DeleteUpload(_) => DeleteUploadKeeps(w, h, env, limits, r);
      case CompleteUpload(_, _) => CompleteKeeps(w, h, env, limits, r);
    }
  }
}
