/** Theorems about whole runs of the server, each request an atomic step: what a stored object is made of, that
    the tables never refuse a handler, and that a multipart upload stores what a single PUT would have stored. */
module Runs {
  import opened Wrappers
  import opened Stores
  import opened Crc32c
  import opened Checksum
  import opened Handlers
  import opened Multipart

  datatype Event = Event(env: Env, request: Request)

  ghost function After(w: World, h: History, limits: Limits, run: seq<Event>): (World, History)
    decreases |run|
  {
    if run == [] then (w, h)
    else
      var e := run[0];
      After(Serve(w, e.env, limits, e.request).0, Observe(w, h, e.env, limits, e.request), limits, run[1..])
  }

  ghost predicate AdmissibleRun(w: World, h: History, limits: Limits, run: seq<Event>)
    decreases |run|
  {
    run == [] ||
    (var e := run[0];
     && Admissible(h, e.request)
     && AdmissibleRun(Serve(w, e.env, limits, e.request).0, Observe(w, h, e.env, limits, e.request), limits, run[1..]))
  }

  lemma {:induction false} RunKeeps(w: World, h: History, limits: Limits, run: seq<Event>)
    requires Inv(w, h) && AdmissibleRun(w, h, limits, run) && limits.partSizeMin >= 1
    ensures var (w', h') := After(w, h, limits, run); Inv(w', h')
    decreases |run|
  {
    hide Inv, Serve, Observe;
    if run != [] {
      var e := run[0];
      ServeKeeps(w, h, e.env, limits, e.request);
      RunKeeps(Serve(w, e.env, limits, e.request).0, Observe(w, h, e.env, limits, e.request), limits, run[1..]);
    }
  }

  /** The states a server can reach from an empty disk and empty tables. */
  ghost predicate Reachable(limits: Limits, w: World, h: History) {
    exists run :: AdmissibleRun(World(map[], EMPTY_DB), NO_HISTORY, limits, run)
                  && After(World(map[], EMPTY_DB), NO_HISTORY, limits, run) == (w, h)
  }

  lemma ReachableInv(limits: Limits, w: World, h: History)
    requires Reachable(limits, w, h) && limits.partSizeMin >= 1
    ensures Inv(w, h)
  {
    var w0 := World(map[], EMPTY_DB);
    var run :| AdmissibleRun(w0, NO_HISTORY, limits, run) && After(w0, NO_HISTORY, limits, run) == (w, h);
    RunKeeps(w0, NO_HISTORY, limits, run);
  }

  // ---------- objects ----------

  /** In every reachable state every object row names an existing bucket and a file of its own, and its size and
      checksum are those of what was accepted for it. The first `size` bytes of that file are those bytes exactly if no
      completed part's slot was stale. */
  lemma ObjectDescribesItsBytes(limits: Limits, w: World, h: History, at: (string, string))
    requires Reachable(limits, w, h) && limits.partSizeMin >= 1 && at in w.db.objects
    ensures var o := w.db.objects[at];
            && (o.bucket, o.key) == at && o.bucket in w.db.buckets
            && o.blob in w.files && o.blob in h.content && o.size == |h.content[o.blob]|
            && o.checksum == EncodeCRC32C(Crc(h.content[o.blob]))
            && (forall k | k in w.db.objects && k != at :: w.db.objects[k].blob != o.blob)
            && (forall id | id in w.db.uploads :: w.db.uploads[id].blob != o.blob)
            && (o.blob !in h.tainted
               <==> o.size <= |w.files[o.blob]| && w.files[o.blob][..o.size] == h.content[o.blob])
            && o.blob in h.length && |w.files[o.blob]| == h.length[o.blob]
  {
    hide Crc, EncodeCRC32C;
    ReachableInv(limits, w, h);
    assert ObjectOk(w, h, at);
  }

  /** A GET in any reachable state finds the file. It serves exactly what was accepted for the object if and only if no
      completed part's slot was stale and no request, accepted or refused, wrote a byte beyond the object's size. */
  lemma ServedContent(limits: Limits, w: World, h: History, env: Env, bucket: string, key: string)
    requires Reachable(limits, w, h) && limits.partSizeMin >= 1
    requires env.lookup && bucket !in env.forbidden && ValidBucketName(bucket) && ValidObjectKey(key)
    ensures var resp := GetObjectStep(w, env, bucket, key);
            && (resp.Content? <==> (bucket, key) in w.db.objects)
            && (resp.Content? ==>
                  && resp.o.blob in h.content && resp.o.blob in h.length
                  && resp.o.checksum == EncodeCRC32C(Crc(h.content[resp.o.blob]))
                  && (resp.bytes == h.content[resp.o.blob]
                     <==> resp.o.blob !in h.tainted && h.length[resp.o.blob] == resp.o.size))
  {
    hide Crc, EncodeCRC32C, ValidBucketName, ValidObjectKey, Reachable;
    if (bucket, key) in w.db.objects {
      ObjectDescribesItsBytes(limits, w, h, (bucket, key));
    }
  }

  // ---------- the tables never refuse ----------

  lemma RecordsParse(w: World, h: History, id: Id)
    requires Inv(w, h) && id in w.db.uploads
    ensures forall n | n in w.db.uploads[id].parts :: ParseChecksum(w.db.uploads[id].parts[n].checksum).Ok?
  {
    hide Crc, EncodeCRC32C, ParseChecksum, Holds;
    assert SessionOk(w, h, id);
    var s := w.db.uploads[id];
    forall n | n in s.parts
      ensures ParseChecksum(s.parts[n].checksum).Ok?
    {
      ParseEncode(Crc(h.bodies[s.blob][n]));
    }
  }

  /** Complete never looks the bucket up: when the stores are up, a live session that passes the checks of complete
      is completed, so neither a corrupt record nor a missing bucket is ever met. */
  lemma CompleteSucceeds(limits: Limits, w: World, h: History, env: Env, id: Id, c: Completion)
    requires Reachable(limits, w, h) && limits.partSizeMin >= 1
    requires SessionFault(w.db, env, id).None? && env.commit
    requires c.checksums.Some? ==> |c.checksums.value| == c.parts
    ensures CompleteUploadStep(w, env, id, Some(c)).1.ObjectRecord? <==> Completable(w.db, id, c)
  {
    hide Inv, Completable;
    ReachableInv(limits, w, h);
    CompletesWhenSound(w, h, env, id, c);
  }

  /** Every part is recorded, every part before the last is full, and every supplied checksum is the recorded one. */
  ghost predicate Completable(db: Db, id: Id, c: Completion)
    requires id in db.uploads && (c.checksums.Some? ==> |c.checksums.value| == c.parts)
  {
    && c.parts >= 1 && Complete(db.uploads[id], c.parts)
    && (c.checksums.Some? ==> forall n | 1 <= n <= c.parts :: c.checksums.value[n - 1] == db.uploads[id].parts[n].checksum)
  }

  lemma CompletesWhenSound(w: World, h: History, env: Env, id: Id, c: Completion)
    requires Inv(w, h) && SessionFault(w.db, env, id).None? && env.commit
    requires c.checksums.Some? ==> |c.checksums.value| == c.parts
    ensures CompleteUploadStep(w, env, id, Some(c)).1.ObjectRecord? <==> Completable(w.db, id, c)
  {
    hide Fold, EncodeCRC32C, ParseChecksum, CompletionFault;
    RowsNameBuckets(w, h);
    assert SessionOk(w, h, id);
    RecordsParse(w, h, id);
    if c.parts >= 1 {
      CompletionAccepted(w.db.uploads[id], c);
      AcceptedIsCommitted(w, env, id, c);
    }
  }

  lemma AcceptedIsCommitted(w: World, env: Env, id: Id, c: Completion)
    requires SessionFault(w.db, env, id).None? && env.commit && c.parts >= 1
    requires c.checksums.Some? ==> |c.checksums.value| == c.parts
    requires w.db.uploads[id].id == id && w.db.uploads[id].bucket in w.db.buckets
    ensures CompleteUploadStep(w, env, id, Some(c)).1.ObjectRecord? <==> CompletionFault(w.db.uploads[id], c).None?
  {
    hide Fold, EncodeCRC32C, MissingParts, ShortPart, DisputedPart;
  }

  // ---------- what one request undoes ----------

  /** Aborting a session that was just created leaves disk and tables as they were before it. */
  lemma AbortUndoesInitiate(w: World, h: History, limits: Limits, env: Env, r: Request, later: Env)
    requires Inv(w, h) && r.CreateUpload? && Admissible(h, r) && limits.partSizeMin >= 1
    requires CreateUploadStep(w, env, limits, r).1.SessionRecord?
    requires var w1 := CreateUploadStep(w, env, limits, r).0;
             SessionFault(w1.db, later, r.newSession).None? && later.commit && later.remove
    ensures DeleteUploadStep(CreateUploadStep(w, env, limits, r).0, later, r.newSession) == (w, NoContent)
  {
    hide CreateUploadStep, PartsOk, ObjectOk, Distinct;
    CreateUploadShape(w, env, limits, r);
    assert forall id | id in w.db.uploads :: SessionOk(w, h, id);
    var w1, s := CreateUploadStep(w, env, limits, r).0, CreateUploadStep(w, env, limits, r).1.s;
    assert w.db.uploads[s.id := s] - {s.id} == w.db.uploads;
    assert w.files[s.blob := []] - {s.blob} == w.files;
  }

  /** Deleting an object that was just put under a new key leaves disk and tables as they were before it. */
  lemma DeleteUndoesPut(w: World, h: History, env: Env, r: Request, later: Env)
    requires Inv(w, h) && r.PutObject? && Admissible(h, r) && (r.bucket, r.key) !in w.db.objects
    requires PutObjectStep(w, env, r).1.ObjectRecord?
    requires r.bucket !in later.forbidden && later.lookup && later.commit && later.remove
    ensures DeleteObjectStep(PutObjectStep(w, env, r).0, later, r.bucket, r.key) == (w, NoContent)
  {
    hide PutObjectStep, ObjectOk, SessionOk, Distinct, Crc, EncodeCRC32C, Overlay;
    PutObjectShape(w, env, r);
    PutNames(w, env, r);
    var o := PutObjectStep(w, env, r).1.o;
    var written := Overlay([], 0, r.body.bytes);
    assert w.db.objects[(r.bucket, r.key) := o] - {(r.bucket, r.key)} == w.db.objects;
    assert w.files[r.newBlob := written] - {r.newBlob} == w.files;
  }

  lemma PutNames(w: World, env: Env, r: Request)
    requires r.PutObject? && PutObjectStep(w, env, r).1.ObjectRecord?
    ensures ValidBucketName(r.bucket) && ValidObjectKey(r.key)
  {
    hide Crc, EncodeCRC32C, Overlay, Declare, ValidBucketName, ValidObjectKey;
  }

  /** A bucket that was just created can be deleted at once, and then nothing is left of it. */
  lemma DeleteUndoesCreateBucket(w: World, h: History, env: Env, name: string, public: Option<bool>, later: Env)
    requires Inv(w, h) && CreateBucketStep(w, env, name, public).1.BucketRecord?
    requires later.lookup && later.count && later.commit
    ensures DeleteBucketStep(CreateBucketStep(w, env, name, public).0, later, name) == (w, NoContent)
  {
    hide SessionOk, ObjectOk, Distinct, ValidBucketName;
    RowsNameBuckets(w, h);
    var b := CreateBucketStep(w, env, name, public).1.b;
    assert w.db.buckets[name := b] - {name} == w.db.buckets;
  }

  // ---------- rejected bodies ----------

  /** A part body that reached the file and was then refused leaves the content of a complete session, if it is in
      place, where it is exactly when its part is not among those completed or it agrees with the accepted body as far as both go. */
  lemma RejectedPartExact(w: World, h: History, env: Env, limits: Limits, r: Request, count: nat)
    requires Inv(w, h) && r.PutPart? && Admissible(h, r) && PartFault(w.db, env, limits, r).None?
    requires var blob := w.db.uploads[r.id].blob;
             Complete(w.db.uploads[r.id], count) && !AnyStale(BodiesOf(h, blob), SlotsOf(h, blob), count)
    requires PutPartStep(w, env, limits, r).1.Refused?
    ensures var blob := w.db.uploads[r.id].blob;
            && blob in PutPartStep(w, env, limits, r).0.files
            && (Concat(BodiesOf(h, blob), count) <= PutPartStep(w, env, limits, r).0.files[blob]
               <==> (r.number.value <= count ==> Agree(r.body.bytes, BodiesOf(h, blob)[r.number.value])))
  {
    hide Crc, EncodeCRC32C, Overlay, Holds, PartOffset, Agree, PutPartStep;
    assert SessionOk(w, h, r.id);
    PutPartShape(w, env, limits, r);
    var s, n, body := w.db.uploads[r.id], r.number.value, r.body.bytes;
    var file, offset := w.files[s.blob], PartOffset(n, s.partSize);
    var bodies := h.bodies[s.blob];
    var file' := Overlay(file, offset, body);
    forall m | 1 <= m <= count
      ensures Holds(file, PartOffset(m, s.partSize), bodies[m])
    {
      assert !Stale(bodies, h.slots[s.blob], m);
      SlotStarts(file, PartOffset(m, s.partSize), h.slots[s.blob][m], bodies[m]);
    }
    forall m | 1 <= m <= count && m != n
      ensures Holds(file', PartOffset(m, s.partSize), bodies[m])
    {
      OtherSlot(file, s.partSize, n, body, m, bodies[m]);
    }
    if n <= count {
      RejectedBody(file, offset, bodies[n], body);
      if Concat(bodies, count) <= file' {
        PrefixHolds(file', bodies, s.partSize, count, n);
      }
    }
    if n <= count ==> Agree(body, bodies[n]) {
      SlotsTile(file', bodies, s.partSize, count);
    }
  }

  lemma SingleByteChecksums()
    ensures EncodeCRC32C(Crc([0x61])) != EncodeCRC32C(Crc([0x62]))
  {
    assert Crc([0x61]) != Crc([0x62]) by {
      assert Crc([0x61]) == 0xc1d0_4330;
      assert Crc([0x62]) == 0xd280_b0c4;
    }
    hide EncodeCRC32C, Crc;
    if EncodeCRC32C(Crc([0x61])) == EncodeCRC32C(Crc([0x62])) {
      EncodeInjective(Crc([0x61]), Crc([0x62]));
    }
  }

  /** Everything a PUT checks before it creates its file. */
  predicate PutStarts(w: World, env: Env, r: Request)
    requires r.PutObject?
  {
    && r.bucket !in env.forbidden && ValidBucketName(r.bucket) && ValidObjectKey(r.key)
    && 0 <= r.contentLength <= MAX_BODY_LENGTH && DeclarationFault(Declare(r.declared)).None?
    && env.lookup && r.bucket in w.db.buckets && env.create && r.newBlob !in w.files
  }

  /** And before it records the object. */
  predicate PutPasses(w: World, env: Env, r: Request)
    requires r.PutObject?
  {
    && PutStarts(w, env, r) && r.body.ending.Done? && |r.body.bytes| == r.contentLength && env.sync
    && (Declare(r.declared).Want? ==> Declare(r.declared).crc == Crc(r.body.bytes))
  }

  /** A refused PUT leaves the disk as it was exactly if it never got to create its file, or failed a check and the
      removal did not fail. One that passed every check and whose row then failed to commit leaves its file: that
      branch does not remove it, and where the others do, the error of a failed removal is dropped. */
  lemma RefusedPutExact(w: World, env: Env, r: Request)
    requires r.PutObject? && r.newBlob !in w.files && PutObjectStep(w, env, r).1.Refused?
    ensures PutObjectStep(w, env, r).0.db == w.db
    ensures PutObjectStep(w, env, r).0.files == w.files
        <==> !PutStarts(w, env, r) || (env.remove && !PutPasses(w, env, r))
  {
    hide Crc, EncodeCRC32C, Overlay, Declare, ValidBucketName, ValidObjectKey;
    var written := Overlay([], 0, r.body.bytes);
    assert w.files[r.newBlob := []][r.newBlob := written] == w.files[r.newBlob := written];
    assert w.files[r.newBlob := written] - {r.newBlob} == w.files;
    assert r.newBlob in w.files[r.newBlob := written];
    hide *;
    RefusedPutCases(w, env, r);
  }

  lemma RefusedPutCases(w: World, env: Env, r: Request)
    requires r.PutObject? && r.newBlob !in w.files && PutObjectStep(w, env, r).1.Refused?
    ensures var written := w.files[r.newBlob := []][r.newBlob := Overlay([], 0, r.body.bytes)];
            PutObjectStep(w, env, r).0 ==
            if !PutStarts(w, env, r) then w
            else if PutPasses(w, env, r) || !env.remove then w.(files := written)
            else w.(files := written - {r.newBlob})
  {
    hide Crc, EncodeCRC32C, Overlay, Declare, ValidBucketName, ValidObjectKey;
  }

  // ---------- multipart refines a single PUT ----------

  /** The number of parts a source of `length` bytes is cut into. */
  function PartCount(length: nat, partSize: int): nat
    requires partSize >= 1
  {
    (length + partSize - 1) / partSize
  }

  /** Part n of the source. */
  function Slice(data: Bytes, partSize: int, n: int): Bytes
    requires partSize >= 1
  {
    var start, end := PartOffset(n, partSize), PartOffset(n + 1, partSize);
    if n < 1 || start >= |data| || start < 0 || end < start then []
    else data[start..if end < |data| then end else |data|]
  }

  lemma PartCountBounds(length: nat, partSize: int)
    requires partSize >= 1
    ensures PartOffset(PartCount(length, partSize) + 1, partSize) >= length
    ensures length > 0 ==> PartCount(length, partSize) >= 1 && PartOffset(PartCount(length, partSize), partSize) < length
  {
    var count := PartCount(length, partSize);
    var rest := (length + partSize - 1) % partSize;
    assert length + partSize - 1 == count * partSize + rest;
    assert (count - 1) * partSize == count * partSize - partSize;
  }

  lemma OffsetsGrow(m: int, n: int, partSize: int)
    requires 1 <= m <= n && partSize >= 1
    ensures 0 <= PartOffset(m, partSize) <= PartOffset(n, partSize)
    ensures PartOffset(n + 1, partSize) == PartOffset(n, partSize) + partSize
  {
    SlotStart(m, partSize);
    if m < n {
      SlotsDisjoint(m, n, partSize);
    }
  }

  /** Every part but the last is full; the last is not empty; beyond it there is nothing. */
  lemma SliceLength(data: Bytes, partSize: int, n: int)
    requires partSize >= 1 && n >= 1
    ensures var count := PartCount(|data|, partSize);
            && (n < count ==> |Slice(data, partSize, n)| == partSize)
            && (n == count ==> 1 <= |Slice(data, partSize, n)| <= partSize)
            && (n > count ==> Slice(data, partSize, n) == [])
  {
    var count := PartCount(|data|, partSize);
    hide PartCount, PartOffset;
    PartCountBounds(|data|, partSize);
    OffsetsGrow(n, n, partSize);
    if n <= count {
      OffsetsGrow(n, count, partSize);
      if n < count {
        OffsetsGrow(n + 1, count, partSize);
      }
    } else {
      OffsetsGrow(count + 1, n, partSize);
    }
  }

  lemma {:induction false} SlicesConcat(data: Bytes, partSize: int, bodies: map<int, Bytes>, n: nat)
    requires partSize >= 1 && n <= PartCount(|data|, partSize)
    requires forall m | 1 <= m <= n :: m in bodies && bodies[m] == Slice(data, partSize, m)
    ensures var end := PartOffset(n + 1, partSize);
            Concat(bodies, n) == if n == 0 then [] else if end < |data| then data[..end] else data
    decreases n
  {
    hide PartCount, PartOffset;
    if n > 0 {
      SlicesConcat(data, partSize, bodies, n - 1);
      PartCountBounds(|data|, partSize);
      OffsetsGrow(n, PartCount(|data|, partSize), partSize);
      OffsetsGrow(n, n, partSize);
      if n == 1 {
        FirstOffset(partSize);
      }
    }
  }

  /** The session, while it lives, has only received parts of the source, and its file holds nothing else. */
  ghost predicate FromSource(w: World, h: History, id: Id, data: Bytes) {
    id in h.sessions &&
    (id in w.db.uploads ==>
      var s := w.db.uploads[id];
      && s.partSize >= 1 && s.blob in w.files && s.blob in h.bodies && s.blob in h.slots
      && |w.files[s.blob]| <= |data|
      && (forall n | n in h.bodies[s.blob] :: h.bodies[s.blob][n] == Slice(data, s.partSize, n))
      && (forall n | n in h.slots[s.blob] :: h.slots[s.blob][n] <= Slice(data, s.partSize, n)))
  }

  /** A request that sends the session nothing but parts of the source. A part may be cut off, refused, repeated
      or arrive in any order; every other request to the server, also to other sessions, is free. */
  predicate SendsSource(db: Db, r: Request, id: Id, data: Bytes) {
    r.PutPart? && r.id == id && id in db.uploads && r.number.Some? ==>
      var partSize := db.uploads[id].partSize;
      partSize >= 1 ==>
        && r.contentLength == |Slice(data, partSize, r.number.value)|
        && r.body.bytes <= Slice(data, partSize, r.number.value)
  }

  /** A session's row, its file and what is remembered of it are as before. */
  ghost predicate Kept(w: World, h: History, w': World, h': History, id: Id) {
    id in w.db.uploads && id in w'.db.uploads &&
    var s := w.db.uploads[id];
    && w'.db.uploads[id] == s
    && (s.blob in w.files ==> s.blob in w'.files && w'.files[s.blob] == w.files[s.blob])
    && (s.blob in h.bodies ==> s.blob in h'.bodies && h'.bodies[s.blob] == h.bodies[s.blob])
    && (s.blob in h.slots ==> s.blob in h'.slots && h'.slots[s.blob] == h.slots[s.blob])
    && (s.blob in h.length ==> s.blob in h'.length && h'.length[s.blob] == h.length[s.blob])
  }

  /** Recording an object and dropping the file it displaced touches no session's file. */
  lemma UpsertLeavesSessions(w: World, h: History, o: Object, files: Files, env: Env, id: Id)
    requires Inv(w, h) && id in w.db.uploads && UpsertObject(w.db, o).1.Ok?
    requires w.db.uploads[id].blob in w.files ==>
               w.db.uploads[id].blob in files && files[w.db.uploads[id].blob] == w.files[w.db.uploads[id].blob]
    ensures var prev := UpsertObject(w.db, o).1.value;
            var files' := if prev != "" then Discard(files, prev, env) else files;
            w.db.uploads[id].blob in w.files ==>
              w.db.uploads[id].blob in files' && files'[w.db.uploads[id].blob] == w.files[w.db.uploads[id].blob]
  {
    hide SessionOk, ObjectOk;
  }

  lemma KeptByPutObject(w: World, h: History, env: Env, limits: Limits, r: Request, id: Id)
    requires Inv(w, h) && Admissible(h, r) && r.PutObject? && id in PutObjectStep(w, env, r).0.db.uploads
    ensures Kept(w, h, PutObjectStep(w, env, r).0, Observe(w, h, env, limits, r), id)
  {
    hide PutObjectStep, PartsOk, ObjectOk, Crc, EncodeCRC32C, Overlay;
    PutObjectShape(w, env, r);
    assert SessionOk(w, h, id);
    var resp := PutObjectStep(w, env, r).1;
    if resp.ObjectRecord? {
      UpsertLeavesSessions(w, h, resp.o, w.files[r.newBlob := Overlay([], 0, r.body.bytes)], env, id);
    }
  }

  lemma KeptByComplete(w: World, h: History, env: Env, limits: Limits, r: Request, id: Id)
    requires Inv(w, h) && r.CompleteUpload? && id in Serve(w, env, limits, r).0.db.uploads
    ensures Kept(w, h, Serve(w, env, limits, r).0, Observe(w, h, env, limits, r), id)
  {
    hide CompleteUploadStep, SessionOk, ObjectOk, EncodeCRC32C, Fold, Concat, Complete, AnyStale;
    CompleteShape(w, env, limits, r);
    var resp := Serve(w, env, limits, r).1;
    if resp.ObjectRecord? {
      UpsertLeavesSessions(w, h, resp.o, w.files, env, id);
    }
  }

  lemma LoadedSession(db: Db, env: Env, limits: Limits, r: Request)
    requires r.PutPart? && PartFault(db, env, limits, r).None?
    ensures r.id in db.uploads && r.number.Some?
  {
  }

  lemma KeptByWrite(w: World, h: History, env: Env, limits: Limits, r: Request, id: Id)
    requires r.PutPart? && Framed(r.contentLength, r.body) && PartFault(w.db, env, limits, r).None?
    requires r.id in w.db.uploads && w.db.uploads[r.id].id == r.id && w.db.uploads[r.id].blob in w.files
    requires id in w.db.uploads && r.id != id && w.db.uploads[id].blob != w.db.uploads[r.id].blob
    ensures Kept(w, h, PutPartStep(w, env, limits, r).0, Observe(w, h, env, limits, r), id)
  {
    hide PutPartStep, Crc, EncodeCRC32C, Overlay, PartOffset, SlotAfter, LengthAfter, PartFault;
    PutPartShape(w, env, limits, r);
  }

  lemma KeptByPart(w: World, h: History, env: Env, limits: Limits, r: Request, id: Id)
    requires Inv(w, h) && Admissible(h, r) && r.PutPart? && r.id != id && id in PutPartStep(w, env, limits, r).0.db.uploads
    ensures Kept(w, h, PutPartStep(w, env, limits, r).0, Observe(w, h, env, limits, r), id)
  {
    hide PutPartStep, PartsOk, ObjectOk, PartFault, Kept, Observe, Overlay, PartOffset, EncodeCRC32C, Crc;
    if PartFault(w.db, env, limits, r).None? {
      LoadedSession(w.db, env, limits, r);
      assert SessionOk(w, h, r.id);
      PutPartShape(w, env, limits, r);
      KeptByWrite(w, h, env, limits, r, id);
    } else {
      KeptByRefusal(w, h, env, limits, r, id);
    }
  }

  lemma KeptByRefusal(w: World, h: History, env: Env, limits: Limits, r: Request, id: Id)
    requires r.PutPart? && PartFault(w.db, env, limits, r).Some? && id in PutPartStep(w, env, limits, r).0.db.uploads
    ensures Kept(w, h, PutPartStep(w, env, limits, r).0, Observe(w, h, env, limits, r), id)
  {
    hide PutPartStep, PartFault;
    RefusedPart(w, env, limits, r);
  }

  lemma KeptByCreate(w: World, h: History, env: Env, limits: Limits, r: Request, id: Id)
    requires r.CreateUpload? && limits.partSizeMin >= 1 && Unowned(w.db, r.newBlob) && r.newSession != id
    requires id in CreateUploadStep(w, env, limits, r).0.db.uploads
    ensures Kept(w, h, CreateUploadStep(w, env, limits, r).0, Observe(w, h, env, limits, r), id)
  {
    hide CreateUploadStep;
    CreateUploadShape(w, env, limits, r);
  }

  lemma KeptByDeleteObject(w: World, h: History, env: Env, bucket: string, key: string, id: Id)
    requires Inv(w, h) && id in DeleteObjectStep(w, env, bucket, key).0.db.uploads
    ensures Kept(w, h, DeleteObjectStep(w, env, bucket, key).0, h, id)
  {
    hide SessionOk, ObjectOk, ValidBucketName, ValidObjectKey;
  }

  lemma KeptByDeleteUpload(w: World, h: History, env: Env, gone: Id, id: Id)
    requires Inv(w, h) && id in DeleteUploadStep(w, env, gone).0.db.uploads
    ensures Kept(w, h, DeleteUploadStep(w, env, gone).0, h, id)
  {
    hide PartsOk, ObjectOk;
    if gone in w.db.uploads {
      assert SessionOk(w, h, gone);
    }
  }

  /** Requests that are not parts of the session leave its row, its file and what is remembered of it alone. */
  lemma Undisturbed(w: World, h: History, env: Env, limits: Limits, r: Request, id: Id)
    requires Inv(w, h) && Admissible(h, r) && limits.partSizeMin >= 1
    requires id in h.sessions && !(r.PutPart? && r.id == id) && id in Serve(w, env, limits, r).0.db.uploads
    ensures Kept(w, h, Serve(w, env, limits, r).0, Observe(w, h, env, limits, r), id)
  {
    hide Inv, PutObjectStep, CreateUploadStep, PutPartStep, CompleteUploadStep, ValidBucketName;
    match r {
      case PutObject(_, _, _, _, _, _, _, _) => KeptByPutObject(w, h, env, limits, r, id);
      case CreateUpload(_, blob, _) =>
        FreshUnowned(w, h, blob);
        KeptByCreate(w, h, env, limits, r, id);
      case PutPart(_, _, _, _, _) => KeptByPart(w, h, env, limits, r, id);
      case CompleteUpload(_, _) => KeptByComplete(w, h, env, limits, r, id);
      case DeleteObject(bucket, key) => KeptByDeleteObject(w, h, env, bucket, key, id);
      case DeleteUpload(gone) => KeptByDeleteUpload(w, h, env, gone, id);
      case CreateBucket(_, _) =>
      case DeleteBucket(_) =>
      case GetObject(_, _) =>
    }
  }

  // ---------- aborting a session, and one that has expired ----------

  /** An abort succeeds exactly for a known, live session whose bucket the caller may write, with the tables up;
      otherwise nothing changes. */
  lemma AbortExact(w: World, h: History, env: Env, id: Id)
    requires Inv(w, h)
    ensures DeleteUploadStep(w, env, id).1 == NoContent
        <==> && env.lookup && env.commit && id in w.db.uploads
             && w.db.uploads[id].bucket !in env.forbidden && env.now <= w.db.uploads[id].expiresAt
    ensures DeleteUploadStep(w, env, id).1 == NoContent
            ==> DeleteUploadStep(w, env, id).0 ==
                World(Discard(w.files, w.db.uploads[id].blob, env), w.db.(uploads := w.db.uploads - {id}))
    ensures DeleteUploadStep(w, env, id).1 != NoContent ==> DeleteUploadStep(w, env, id).0 == w
  {
    hide PartsOk, ObjectOk, Distinct;
    if id in w.db.uploads {
      assert SessionOk(w, h, id);
    }
  }

  lemma ExpiredFaults(db: Db, env: Env, limits: Limits, r: Request, id: Id)
    requires id in db.uploads && env.now > db.uploads[id].expiresAt
    ensures SessionFault(db, env, id).Some?
    ensures r.PutPart? && r.id == id ==> PartFault(db, env, limits, r).Some?
  {
  }

  /** No request takes an expired session away. */
  lemma ExpiredIsThere(w: World, h: History, env: Env, limits: Limits, r: Request, id: Id)
    requires Inv(w, h) && Admissible(h, r) && limits.partSizeMin >= 1
    requires id in w.db.uploads && env.now > w.db.uploads[id].expiresAt
    ensures id in Serve(w, env, limits, r).0.db.uploads
  {
    hide PutObjectStep, CreateUploadStep, PutPartStep, CompleteUploadStep, SessionOk, ObjectOk, Distinct, ValidBucketName,
      ValidObjectKey, PartFault, Complete, Fold, EncodeCRC32C;
    ExpiredFaults(w.db, env, limits, r, id);
    match r {
      case PutObject(_, _, _, _, _, _, _, _) => PutObjectShape(w, env, r);
      case CreateUpload(_, _, _) => CreateUploadShape(w, env, limits, r);
      case PutPart(_, _, _, _, _) => PartKeepsSessions(w, h, env, limits, r);
      case CompleteUpload(_, _) =>
        CompleteShape(w, env, limits, r);
        KnownSessions(w, h);
        if Serve(w, env, limits, r).1.ObjectRecord? {
          CompletedIsLive(w, env, limits, r);
        }
      case DeleteUpload(_) => KnownSessions(w, h);
      case _ =>
    }
  }

  lemma KnownSessions(w: World, h: History)
    requires Inv(w, h)
    ensures forall id | id in w.db.uploads :: w.db.uploads[id].id == id && id in h.sessions
  {
    hide PartsOk, ObjectOk, Distinct;
    forall id | id in w.db.uploads
      ensures w.db.uploads[id].id == id && id in h.sessions
    {
      assert SessionOk(w, h, id);
    }
  }

  lemma PartKeepsSessions(w: World, h: History, env: Env, limits: Limits, r: Request)
    requires Inv(w, h) && Admissible(h, r) && r.PutPart?
    ensures PutPartStep(w, env, limits, r).0.db.uploads.Keys == w.db.uploads.Keys
  {
    hide PutPartStep, PartsOk, ObjectOk, Distinct, PartFault, Overlay, PartOffset, Crc, EncodeCRC32C;
    if PartFault(w.db, env, limits, r).None? {
      LoadedSession(w.db, env, limits, r);
      assert SessionOk(w, h, r.id);
      PutPartShape(w, env, limits, r);
    } else {
      RefusedPart(w, env, limits, r);
    }
  }

  lemma CompletedIsLive(w: World, env: Env, limits: Limits, r: Request)
    requires r.CompleteUpload? && Serve(w, env, limits, r).1.ObjectRecord?
    ensures SessionFault(w.db, env, r.id).None?
  {
    hide CompletionFault, Fold, EncodeCRC32C, UpsertObject;
  }

  /** Once a session has expired no request changes it: its row, its file and what is remembered of it stay. */
  lemma ExpiredIsKept(w: World, h: History, env: Env, limits: Limits, r: Request, id: Id)
    requires Inv(w, h) && Admissible(h, r) && limits.partSizeMin >= 1
    requires id in w.db.uploads && env.now > w.db.uploads[id].expiresAt
    ensures Kept(w, h, Serve(w, env, limits, r).0, Observe(w, h, env, limits, r), id)
  {
    hide Inv, PutPartStep, PutObjectStep, CreateUploadStep, CompleteUploadStep, DeleteUploadStep, DeleteObjectStep, PartFault;
    ExpiredFaults(w.db, env, limits, r, id);
    if r.PutPart? && r.id == id {
      RefusedPart(w, env, limits, r);
    } else {
      ExpiredIsThere(w, h, env, limits, r, id);
      KnownSessions(w, h);
      Undisturbed(w, h, env, limits, r, id);
    }
  }

  /** An expired session stays for good: over every run whose clock is past its expiry its row and its file remain, no
      one can abort it, and its bucket can never be deleted. */
  lemma {:induction false} ExpiredStays(w: World, h: History, limits: Limits, run: seq<Event>, id: Id, env: Env)
    requires Inv(w, h) && AdmissibleRun(w, h, limits, run) && limits.partSizeMin >= 1 && id in w.db.uploads
    requires forall i | 0 <= i < |run| :: run[i].env.now > w.db.uploads[id].expiresAt
    requires env.now > w.db.uploads[id].expiresAt
    ensures var (w', h') := After(w, h, limits, run);
            var s := w.db.uploads[id];
            && id in w'.db.uploads && w'.db.uploads[id] == s
            && s.blob in w.files && s.blob in w'.files && w'.files[s.blob] == w.files[s.blob]
            && DeleteUploadStep(w', env, id).1 != NoContent
            && s.bucket in w'.db.buckets && DeleteBucketStep(w', env, s.bucket).1 != NoContent
    decreases |run|
  {
    hide Inv, Serve, Observe, Admissible, DeleteUploadStep, DeleteBucketStep;
    if run == [] {
      ExpiredHoldsBucket(w, h, env, id);
      AbortExact(w, h, env, id);
    } else {
      var e := run[0];
      ServeKeeps(w, h, e.env, limits, e.request);
      ExpiredIsKept(w, h, e.env, limits, e.request, id);
      ExpiredHoldsBucket(w, h, env, id);
      assert forall i | 0 <= i < |run[1..]| :: run[1..][i] == run[i + 1];
      ExpiredStays(Serve(w, e.env, limits, e.request).0, Observe(w, h, e.env, limits, e.request), limits, run[1..], id, env);
    }
  }

  lemma ExpiredHoldsBucket(w: World, h: History, env: Env, id: Id)
    requires Inv(w, h) && id in w.db.uploads
    ensures var s := w.db.uploads[id];
            s.blob in w.files && s.bucket in w.db.buckets && DeleteBucketStep(w, env, s.bucket).1 != NoContent
  {
    hide PartsOk, ObjectOk, Distinct, ValidBucketName;
    assert SessionOk(w, h, id);
    assert HoldsUploads(w.db, w.db.uploads[id].bucket);
  }

  lemma SliceInside(data: Bytes, partSize: int, n: int)
    requires partSize >= 1 && Slice(data, partSize, n) != []
    ensures PartOffset(n, partSize) + |Slice(data, partSize, n)| <= |data|
  {
  }

  lemma OverlayInside(file: Bytes, offset: nat, body: Bytes, length: nat)
    requires |file| <= length && (body != [] ==> offset + |body| <= length)
    ensures |Overlay(file, offset, body)| <= length
  {
  }

  lemma OverlayPrefix(slot: Bytes, body: Bytes, slice: Bytes)
    requires slot <= slice && body <= slice
    ensures Overlay(slot, 0, body) <= slice
  {
  }

  lemma SlotOfSource(slots: map<int, Bytes>, n: int, body: Bytes, slice: Bytes)
    requires (n in slots ==> slots[n] <= slice) && body <= slice
    ensures n in SlotAfter(slots, n, body) ==> SlotAfter(slots, n, body)[n] <= slice
    ensures forall m | m != n :: m in SlotAfter(slots, n, body) <==> m in slots
    ensures forall m | m in slots && m != n :: SlotAfter(slots, n, body)[m] == slots[m]
  {
    OverlayPrefix(if n in slots then slots[n] else [], body, slice);
  }

  /** What is remembered of the session's file after a part of the source was sent to it. */
  lemma SourceRemembered(h: History, s: Session, n: int, body: Bytes, accepted: bool, data: Bytes)
    requires s.partSize >= 1 && s.blob in h.bodies && s.blob in h.slots && body <= Slice(data, s.partSize, n)
    requires forall m | m in h.bodies[s.blob] :: h.bodies[s.blob][m] == Slice(data, s.partSize, m)
    requires forall m | m in h.slots[s.blob] :: h.slots[s.blob][m] <= Slice(data, s.partSize, m)
    requires accepted ==> body == Slice(data, s.partSize, n)
    ensures var h' := ObservePart(h, s, n, body, accepted);
            && h'.sessions == h.sessions && s.blob in h'.bodies && s.blob in h'.slots
            && (forall m | m in h'.bodies[s.blob] :: h'.bodies[s.blob][m] == Slice(data, s.partSize, m))
            && (forall m | m in h'.slots[s.blob] :: h'.slots[s.blob][m] <= Slice(data, s.partSize, m))
  {
    hide Slice, SlotAfter, LengthAfter;
    SlotOfSource(h.slots[s.blob], n, body, Slice(data, s.partSize, n));
  }

  lemma PartOfSource(w: World, h: History, env: Env, limits: Limits, r: Request, data: Bytes)
    requires Inv(w, h) && r.PutPart? && Admissible(h, r) && PartFault(w.db, env, limits, r).None?
    requires r.id in w.db.uploads && r.number.Some?
    requires FromSource(w, h, r.id, data) && SendsSource(w.db, r, r.id, data)
    ensures FromSource(PutPartStep(w, env, limits, r).0, Observe(w, h, env, limits, r), r.id, data)
  {
    hide PutPartStep, PartFault, PartsOk, ObjectOk, Distinct, Overlay, PartOffset, Slice, Crc, EncodeCRC32C, ObservePart;
    assert SessionOk(w, h, r.id);
    PutPartShape(w, env, limits, r);
    var s, n, body := w.db.uploads[r.id], r.number.value, r.body.bytes;
    var slice := Slice(data, s.partSize, n);
    if body != [] {
      SliceInside(data, s.partSize, n);
    }
    OverlayInside(w.files[s.blob], PartOffset(n, s.partSize), body, |data|);
    var accepted := PutPartStep(w, env, limits, r).1.PartRecord?;
    assert accepted ==> body == slice;
    SourceRemembered(h, s, n, body, accepted, data);
  }

  lemma FromSourceKeeps(w: World, h: History, env: Env, limits: Limits, r: Request, id: Id, data: Bytes)
    requires Inv(w, h) && Admissible(h, r) && limits.partSizeMin >= 1
    requires FromSource(w, h, id, data) && SendsSource(w.db, r, id, data)
    ensures FromSource(Serve(w, env, limits, r).0, Observe(w, h, env, limits, r), id, data)
  {
    hide Inv, PartFault, PutPartStep, PutObjectStep, CreateUploadStep, CompleteUploadStep, DeleteObjectStep, Slice, SendsSource;
    if r.PutPart? && r.id == id {
      if PartFault(w.db, env, limits, r).None? {
        LoadedSession(w.db, env, limits, r);
        PartOfSource(w, h, env, limits, r, data);
      } else {
        RefusedPart(w, env, limits, r);
      }
    } else {
      if id in Serve(w, env, limits, r).0.db.uploads {
        Undisturbed(w, h, env, limits, r, id);
      }
    }
  }

  ghost predicate SendsOnlySource(w: World, h: History, limits: Limits, run: seq<Event>, id: Id, data: Bytes)
    decreases |run|
  {
    run == [] ||
    (var e := run[0];
     && SendsSource(w.db, e.request, id, data)
     && SendsOnlySource(Serve(w, e.env, limits, e.request).0, Observe(w, h, e.env, limits, e.request), limits, run[1..], id, data))
  }

  lemma {:induction false} FromSourceRun(w: World, h: History, limits: Limits, run: seq<Event>, id: Id, data: Bytes)
    requires Inv(w, h) && AdmissibleRun(w, h, limits, run) && limits.partSizeMin >= 1
    requires FromSource(w, h, id, data) && SendsOnlySource(w, h, limits, run, id, data)
    ensures var (w', h') := After(w, h, limits, run); Inv(w', h') && FromSource(w', h', id, data)
    decreases |run|
  {
    hide Inv, Serve, Observe, FromSource, SendsSource;
    if run != [] {
      var e := run[0];
      ServeKeeps(w, h, e.env, limits, e.request);
      FromSourceKeeps(w, h, e.env, limits, e.request, id, data);
      FromSourceRun(Serve(w, e.env, limits, e.request).0, Observe(w, h, e.env, limits, e.request), limits, run[1..], id, data);
    }
  }

  /** A new session has received nothing that is not of the source, whatever the source. */
  lemma CreatedFromSource(w: World, h: History, env: Env, limits: Limits, r: Request, data: Bytes)
    requires Inv(w, h) && r.CreateUpload? && Admissible(h, r) && limits.partSizeMin >= 1
    requires Serve(w, env, limits, r).1.SessionRecord?
    ensures FromSource(Serve(w, env, limits, r).0, Observe(w, h, env, limits, r), r.newSession, data)
  {
    hide CreateUploadStep, Inv, Slice;
    CreateUploadShape(w, env, limits, r);
  }

  /** All parts of the source recorded: the file is the source. */
  lemma SourceInPlace(w: World, h: History, id: Id, data: Bytes, count: nat)
    requires Inv(w, h) && FromSource(w, h, id, data) && id in w.db.uploads && w.db.uploads[id].partSize >= 1
    requires count == PartCount(|data|, w.db.uploads[id].partSize) && Complete(w.db.uploads[id], count)
    ensures var blob := w.db.uploads[id].blob;
            && blob in w.files && blob in h.bodies && Concat(h.bodies[blob], count) == w.files[blob] == data
            && Fold(w.db.uploads[id].parts, count) == Some((Crc(data), |data|))
  {
    hide PartsOk, ObjectOk, Distinct, Crc, EncodeCRC32C, Fold, Slice, PartOffset, PartCount;
    var s := w.db.uploads[id];
    assert SessionOk(w, h, id);
    CompletedContent(w, h, id, count);
    RecordedBodies(w, h, id);
    hide SessionOk, Inv;
    forall n | 1 <= n <= count
      ensures !Stale(h.bodies[s.blob], h.slots[s.blob], n)
    {
      assert n in s.parts;
    }
    SlicesConcat(data, s.partSize, h.bodies[s.blob], count);
    PartCountBounds(|data|, s.partSize);
  }

  /** And what complete stores is the source. */
  lemma CompleteStoresSource(w: World, h: History, env: Env, limits: Limits, r: Request, data: Bytes)
    requires Inv(w, h) && r.CompleteUpload? && FromSource(w, h, r.id, data) && r.id in w.db.uploads
    requires r.completion.Some? && r.completion.value.parts == PartCount(|data|, w.db.uploads[r.id].partSize)
    requires Serve(w, env, limits, r).1.ObjectRecord?
    ensures var (w', resp) := Serve(w, env, limits, r);
            && resp.o.size == |data| && resp.o.checksum == EncodeCRC32C(Crc(data))
            && resp.o.blob in w'.files && w'.files[resp.o.blob] == data
  {
    hide CompleteUploadStep, PartsOk, ObjectOk, Crc, EncodeCRC32C, Fold, Slice, PartOffset, PartCount, Complete;
    CompleteShape(w, env, limits, r);
    assert SessionOk(w, h, r.id);
    SourceInPlace(w, h, r.id, data, r.completion.value.parts);
  }

  // ---------- an upload can always be carried through ----------

  function SourcePart(id: Id, data: Bytes, partSize: int, n: int): Request
    requires partSize >= 1
  {
    PutPart(id, Some(n), |Slice(data, partSize, n)|, Declared(true, "", ""), Stream(Slice(data, partSize, n), Done))
  }

  /** Sending parts `from` to `count` once each, in order. */
  function SendFrom(id: Id, data: Bytes, partSize: int, env: Env, from: int, count: int): seq<Event>
    requires partSize >= 1
    decreases count - from
  {
    if from > count then []
    else [Event(env, SourcePart(id, data, partSize, from))] + SendFrom(id, data, partSize, env, from + 1, count)
  }

  /** The session is live and every store call it needs succeeds. */
  ghost predicate Ready(w: World, env: Env, id: Id) {
    SessionFault(w.db, env, id).None? && env.sync && env.commit
  }

  ghost predicate SentUpTo(w: World, id: Id, data: Bytes, partSize: int, n: int) {
    && id in w.db.uploads && w.db.uploads[id].partSize == partSize
    && forall m | 1 <= m <= n :: m in w.db.uploads[id].parts
  }

  lemma SendOne(w: World, h: History, limits: Limits, env: Env, id: Id, data: Bytes, partSize: int, n: int)
    requires Inv(w, h) && Ready(w, env, id) && partSize >= 1 && SentUpTo(w, id, data, partSize, n - 1)
    requires 1 <= n <= PartCount(|data|, partSize) <= limits.maxParts
    ensures var w' := PutPartStep(w, env, limits, SourcePart(id, data, partSize, n)).0;
            Ready(w', env, id) && SentUpTo(w', id, data, partSize, n)
  {
    hide Overlay, EncodeCRC32C, Crc, PartOffset, Slice, PartCount, PartsOk, ObjectOk, Distinct;
    var r := SourcePart(id, data, partSize, n);
    SliceLength(data, partSize, n);
    SlotStart(n, partSize);
    assert SessionOk(w, h, id);
    assert PartFault(w.db, env, limits, r).None?;
    PutPartShape(w, env, limits, r);
    PartGoesThrough(w, env, limits, r);
  }

  lemma PartGoesThrough(w: World, env: Env, limits: Limits, r: Request)
    requires r.PutPart? && PartFault(w.db, env, limits, r).None? && r.declared == Declared(true, "", "") && r.body.ending.Done?
    requires env.sync && env.commit && w.db.uploads[r.id].id == r.id && w.db.uploads[r.id].blob in w.files
    ensures PutPartStep(w, env, limits, r).1.PartRecord?
  {
    hide Overlay, EncodeCRC32C, Crc, PartOffset;
  }

  lemma {:induction false} SendAll(
      w: World, h: History, limits: Limits, env: Env, id: Id, data: Bytes, partSize: int, from: int)
    requires Inv(w, h) && id in h.sessions && Ready(w, env, id) && partSize >= 1 && limits.partSizeMin >= 1
    requires SentUpTo(w, id, data, partSize, from - 1)
    requires 1 <= from <= PartCount(|data|, partSize) + 1 && PartCount(|data|, partSize) <= limits.maxParts
    ensures var count := PartCount(|data|, partSize);
            var run := SendFrom(id, data, partSize, env, from, count);
            && AdmissibleRun(w, h, limits, run) && SendsOnlySource(w, h, limits, run, id, data)
            && var (w', h') := After(w, h, limits, run);
               Inv(w', h') && Ready(w', env, id) && SentUpTo(w', id, data, partSize, count)
    decreases PartCount(|data|, partSize) - from
  {
    hide Inv, PutPartStep, Ready, SentUpTo, Slice, PartCount, Observe;
    var count := PartCount(|data|, partSize);
    if from <= count {
      var r := SourcePart(id, data, partSize, from);
      var run := SendFrom(id, data, partSize, env, from, count);
      SendOne(w, h, limits, env, id, data, partSize, from);
      SourcePartFits(w, h, id, data, partSize, from);
      ServeKeeps(w, h, env, limits, r);
      var w1, h1 := Serve(w, env, limits, r).0, Observe(w, h, env, limits, r);
      SessionsGrow(w, h, env, limits, r);
      SendAll(w1, h1, limits, env, id, data, partSize, from + 1);
      assert run[1..] == SendFrom(id, data, partSize, env, from + 1, count);
    }
  }

  lemma SourcePartFits(w: World, h: History, id: Id, data: Bytes, partSize: int, n: int)
    requires partSize >= 1 && SentUpTo(w, id, data, partSize, n - 1)
    ensures Admissible(h, SourcePart(id, data, partSize, n)) && SendsSource(w.db, SourcePart(id, data, partSize, n), id, data)
  {
    hide Slice;
  }

  lemma SessionsGrow(w: World, h: History, env: Env, limits: Limits, r: Request)
    requires r.PutPart?
    ensures h.sessions <= Observe(w, h, env, limits, r).sessions
  {
    hide PutPartStep, PartFault;
  }

  /** Whatever the source and the part size, a live session that holds nothing but parts of the source can be carried
      through: sending each part once leads to a state in which complete stores the object. */
  lemma UploadCanComplete(w: World, h: History, limits: Limits, env: Env, id: Id, data: Bytes, partSize: int)
    requires Inv(w, h) && limits.partSizeMin >= 1 && FromSource(w, h, id, data) && Ready(w, env, id) && data != []
    requires w.db.uploads[id].partSize == partSize && PartCount(|data|, partSize) <= limits.maxParts
    ensures var count := PartCount(|data|, partSize);
            var run := SendFrom(id, data, partSize, env, 1, count);
            && AdmissibleRun(w, h, limits, run) && SendsOnlySource(w, h, limits, run, id, data)
            && CompleteUploadStep(After(w, h, limits, run).0, env, id, Some(Completion(count, None))).1.ObjectRecord?
  {
    hide Inv, FromSource, CompleteUploadStep, AdmissibleRun, SendsOnlySource, PartCount, SendFrom, Completable, Slice;
    PositivePartSize(w, h, id, data);
    var count := PartCount(|data|, partSize);
    PartCountBounds(|data|, partSize);
    SendAll(w, h, limits, env, id, data, partSize, 1);
    var run := SendFrom(id, data, partSize, env, 1, count);
    var (w', h') := After(w, h, limits, run);
    FromSourceRun(w, h, limits, run, id, data);
    AllSlicesComplete(w', h', id, data, partSize);
    CompletesWhenSound(w', h', env, id, Completion(count, None));
  }

  lemma PositivePartSize(w: World, h: History, id: Id, data: Bytes)
    requires FromSource(w, h, id, data) && id in w.db.uploads
    ensures w.db.uploads[id].partSize >= 1 && id in h.sessions
  {
  }

  lemma AllSlicesComplete(w: World, h: History, id: Id, data: Bytes, partSize: int)
    requires Inv(w, h) && FromSource(w, h, id, data) && data != [] && partSize >= 1
    requires SentUpTo(w, id, data, partSize, PartCount(|data|, partSize))
    ensures Completable(w.db, id, Completion(PartCount(|data|, partSize), None))
  {
    hide Crc, EncodeCRC32C, Slice, PartOffset, PartCount, ObjectOk, Distinct;
    assert SessionOk(w, h, id);
    PartCountBounds(|data|, partSize);
    var s, count := w.db.uploads[id], PartCount(|data|, partSize);
    forall n | 1 <= n < count
      ensures s.parts[n].size == s.partSize
    {
      SliceLength(data, partSize, n);
    }
  }

  lemma RecordedBodies(w: World, h: History, id: Id)
    requires Inv(w, h) && id in w.db.uploads
    ensures w.db.uploads[id].blob in h.bodies
    ensures var bodies, slots := h.bodies[w.db.uploads[id].blob], SlotsOf(h, w.db.uploads[id].blob);
            forall n :: (n in w.db.uploads[id].parts <==> n in bodies)
                        && (n in bodies ==> n in slots && |bodies[n]| <= |slots[n]|)
  {
    hide Holds, Describes;
    assert SessionOk(w, h, id);
  }

  /** A multipart upload stores what one PUT of the source stores: same size, same checksum, same bytes. For any part
      size, any order of arrival, any number of resends and refused attempts, and any other traffic on the server,
      also between the creation of the session and its completion. */
  lemma MultipartRefinesPut(
      limits: Limits, w: World, h: History, created: Event, run: seq<Event>, completed: Event, data: Bytes,
      wp: World, envp: Env, put: Request)
    requires Reachable(limits, w, h) && limits.partSizeMin >= 1 && data != []
    requires created.request.CreateUpload? && Admissible(h, created.request)
    requires Serve(w, created.env, limits, created.request).1.SessionRecord?
    requires var w1, h1 := Serve(w, created.env, limits, created.request).0, Observe(w, h, created.env, limits, created.request);
             var id := created.request.newSession;
             && AdmissibleRun(w1, h1, limits, run) && SendsOnlySource(w1, h1, limits, run, id, data)
             && var w2 := After(w1, h1, limits, run).0;
             && completed.request.CompleteUpload? && completed.request.id == id && id in w2.db.uploads
             && completed.request.completion.Some?
             && w2.db.uploads[id].partSize >= 1
             && completed.request.completion.value.parts == PartCount(|data|, w2.db.uploads[id].partSize)
             && Serve(w2, completed.env, limits, completed.request).1.ObjectRecord?
    requires put.PutObject? && put.body == Stream(data, Done) && Framed(put.contentLength, put.body)
    requires forall name | name in wp.db.buckets :: wp.db.buckets[name].name == name
    requires forall at | at in wp.db.objects :: wp.db.objects[at].blob != put.newBlob
    requires PutObjectStep(wp, envp, put).1.ObjectRecord?
    ensures var w1, h1 := Serve(w, created.env, limits, created.request).0, Observe(w, h, created.env, limits, created.request);
            var w2 := After(w1, h1, limits, run).0;
            var (w3, multi) := Serve(w2, completed.env, limits, completed.request);
            var (w4, single) := PutObjectStep(wp, envp, put);
            && multi.o.size == single.o.size == |data|
            && multi.o.checksum == single.o.checksum == EncodeCRC32C(Crc(data))
            && multi.o.blob in w3.files && single.o.blob in w4.files
            && w3.files[multi.o.blob] == w4.files[single.o.blob] == data
  {
    hide Serve, Observe, Inv, FromSource, PutObjectStep, Crc, EncodeCRC32C, AdmissibleRun, SendsOnlySource, PartCount;
    ReachableInv(limits, w, h);
    var w1, h1 := Serve(w, created.env, limits, created.request).0, Observe(w, h, created.env, limits, created.request);
    ServeKeeps(w, h, created.env, limits, created.request);
    CreatedFromSource(w, h, created.env, limits, created.request, data);
    FromSourceRun(w1, h1, limits, run, created.request.newSession, data);
    var (w2, h2) := After(w1, h1, limits, run);
    CompleteStoresSource(w2, h2, completed.env, limits, completed.request, data);
    PutStoresBody(wp, envp, put);
  }

  lemma PutStoresBody(w: World, env: Env, r: Request)
    requires r.PutObject? && Framed(r.contentLength, r.body)
    requires forall name | name in w.db.buckets :: w.db.buckets[name].name == name
    requires forall at | at in w.db.objects :: w.db.objects[at].blob != r.newBlob
    requires PutObjectStep(w, env, r).1.ObjectRecord?
    ensures var (w', resp) := PutObjectStep(w, env, r);
            && resp.o.size == |r.body.bytes| && resp.o.checksum == EncodeCRC32C(Crc(r.body.bytes))
            && resp.o.blob in w'.files && w'.files[resp.o.blob] == r.body.bytes
  {
    hide PutObjectStep, Crc, EncodeCRC32C, Overlay;
    PutObjectShape(w, env, r);
    WriteFromStart(r.body.bytes);
  }
}
