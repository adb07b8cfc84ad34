/** The handlers as they run: each makes its store calls one by one, and reaches the state and response of its atomic
    step. Between requests files, tables and history fit together, so what each response means can be said outright. */
module Server {
  import opened Wrappers
  import opened Stores
  import opened Crc32c
  import opened Combine
  import opened Checksum
  import opened Handlers
  import opened Multipart
  import Runs
  import Ladder
  import Records

  /** The invariant of the server includes what the keys of the tables promise. */
  lemma InvSchema(w: World, h: History)
    requires Inv(w, h)
    ensures Schema(w.db)
  {
    hide PartsOk, Crc, EncodeCRC32C, Distinct;
    forall id | id in w.db.uploads
      ensures w.db.uploads[id].id == id && w.db.uploads[id].bucket in w.db.buckets
    {
      assert SessionOk(w, h, id);
    }
    forall at | at in w.db.objects
      ensures (w.db.objects[at].bucket, w.db.objects[at].key) == at && at.0 in w.db.buckets
    {
      assert ObjectOk(w, h, at);
    }
  }

  lemma StepKeeps(w: World, h: History, env: Env, limits: Limits, r: Request)
    requires Inv(w, h) && Admissible(h, r) && limits.partSizeMin >= 1
    ensures Schema(w.db) && Inv(Serve(w, env, limits, r).0, Observe(w, h, env, limits, r))
    ensures Ladder.Justified(Serve(w, env, limits, r).1, w, env, limits, r)
  {
    hide Inv, Serve, Observe, Schema, Ladder.Holds;
    Ladder.AnswersAreJustified(w, h, env, limits, r);
    InvSchema(w, h);
    ServeKeeps(w, h, env, limits, r);
  }

  lemma PutServes(w: World, env: Env, limits: Limits, r: Request)
    requires r.PutObject?
    ensures Serve(w, env, limits, r) == PutObjectStep(w, env, r)
  {
  }

  lemma InitiateServes(w: World, env: Env, limits: Limits, r: Request)
    requires r.CreateUpload?
    ensures Serve(w, env, limits, r) == CreateUploadStep(w, env, limits, r)
  {
  }

  lemma PartServes(w: World, env: Env, limits: Limits, r: Request)
    requires r.PutPart?
    ensures Serve(w, env, limits, r) == PutPartStep(w, env, limits, r)
  {
  }

  /** With no other request in between, the foreign keys have nothing to refuse once both checks passed. */
  lemma KeysStaySilent(w: World, h: History, env: Env, name: string)
    requires Inv(w, h)
    ensures DeleteBucketStep(w, env, name).1 == Refused(Internal) ==> !env.lookup || !env.count || !env.commit
  {
    hide Inv, ValidBucketName;
  }

  lemma PutRecordsBody(w: World, h: History, env: Env, r: Request)
    requires Inv(w, h) && r.PutObject? && Admissible(h, r)
    ensures var (w', resp) := PutObjectStep(w, env, r);
            resp.ObjectRecord? ==>
              && (r.bucket, r.key) in w'.db.objects && w'.db.objects[(r.bucket, r.key)] == resp.o && resp.o.blob == r.newBlob
              && r.newBlob in w'.files && w'.files[r.newBlob] == r.body.bytes
              && resp.o.size == |r.body.bytes| && resp.o.checksum == EncodeCRC32C(Crc(r.body.bytes))
  {
    hide PutObjectStep, SessionOk, ObjectOk, Distinct, Crc, EncodeCRC32C, Overlay;
    FreshUnowned(w, h, r.newBlob);
    PutObjectShape(w, env, r);
    WriteFromStart(r.body.bytes);
  }

  lemma ServesContent(w: World, h: History, env: Env, bucket: string, key: string)
    requires Inv(w, h)
    ensures var resp := GetObjectStep(w, env, bucket, key);
            && (resp == Refused(Internal) ==> !env.lookup)
            && (resp.Content? ==>
                  && resp.o.blob in h.content && resp.o.blob in h.length && resp.o.size == |h.content[resp.o.blob]|
                  && resp.o.checksum == EncodeCRC32C(Crc(h.content[resp.o.blob]))
                  && (resp.bytes == h.content[resp.o.blob]
                     <==> resp.o.blob !in h.tainted && h.length[resp.o.blob] == resp.o.size))
  {
    hide Crc, EncodeCRC32C, SessionOk, Distinct, ValidBucketName, ValidObjectKey;
    if (bucket, key) in w.db.objects {
      assert ObjectOk(w, h, (bucket, key));
    }
  }

  lemma PartRecordsBody(w: World, h: History, env: Env, limits: Limits, r: Request)
    requires Inv(w, h) && r.PutPart? && Admissible(h, r)
    ensures var (w', resp) := PutPartStep(w, env, limits, r);
            resp.PartRecord? ==>
              && r.id in w'.db.uploads && r.number.Some? && r.number.value in w'.db.uploads[r.id].parts
              && var s := w'.db.uploads[r.id];
              && s.parts[r.number.value] == Part(|r.body.bytes|, EncodeCRC32C(Crc(r.body.bytes))) && s.blob in w'.files
              && Holds(w'.files[s.blob], PartOffset(r.number.value, s.partSize), r.body.bytes)
  {
    hide PutPartStep, PartsOk, ObjectOk, Distinct, Overlay, Holds, PartOffset, Crc, EncodeCRC32C, PartFault;
    if PartFault(w.db, env, limits, r).None? {
      Runs.LoadedSession(w.db, env, limits, r);
      assert SessionOk(w, h, r.id);
      PutPartShape(w, env, limits, r);
      if PutPartStep(w, env, limits, r).1.PartRecord? {
        OverlayHolds(w.files[w.db.uploads[r.id].blob], PartOffset(r.number.value, w.db.uploads[r.id].partSize), r.body.bytes);
      }
    } else {
      FaultRefuses(w, env, limits, r);
    }
  }

  lemma FaultRefuses(w: World, env: Env, limits: Limits, r: Request)
    requires r.PutPart? && PartFault(w.db, env, limits, r).Some?
    ensures PutPartStep(w, env, limits, r).1.Refused?
  {
  }

  lemma CompletionRecordsBodies(w: World, h: History, env: Env, limits: Limits, id: Id, completion: Option<Completion>)
    requires Inv(w, h)
    ensures var (w', resp) := CompleteUploadStep(w, env, id, completion);
            && (resp.ObjectRecord? ==>
                  && id !in w'.db.uploads && completion.Some? && completion.value.parts >= 0 && resp.o.blob in h.bodies
                  && var content := Concat(h.bodies[resp.o.blob], completion.value.parts);
                  && resp.o.size == |content| && resp.o.checksum == EncodeCRC32C(Crc(content))
                  && (resp.o.bucket, resp.o.key) in w'.db.objects && w'.db.objects[(resp.o.bucket, resp.o.key)] == resp.o)
            && (completion.Some? && SessionFault(w.db, env, id).None? && env.commit
                && (completion.value.checksums.Some? ==> |completion.value.checksums.value| == completion.value.parts) ==>
                  (resp.ObjectRecord? <==> Runs.Completable(w.db, id, completion.value)))
  {
    hide CompleteUploadStep, PartsOk, ObjectOk, Distinct, Crc, EncodeCRC32C, Fold, Concat, SessionFault,
      Runs.Completable, Complete, AnyStale;
    var r := Request.CompleteUpload(id, completion);
    CompleteShape(w, env, limits, r);
    if CompleteUploadStep(w, env, id, completion).1.ObjectRecord? {
      assert SessionOk(w, h, id);
      CompletedContent(w, h, id, completion.value.parts);
    }
    if completion.Some? && SessionFault(w.db, env, id).None? && env.commit
       && (completion.value.checksums.Some? ==> |completion.value.checksums.value| == completion.value.parts) {
      Runs.CompletesWhenSound(w, h, env, id, completion.value);
    }
  }

  class Handler {
    const blobs: BlobStore
    const db: Database
    const limits: Limits
    ghost var history: History

    /** Files, tables and what was seen of the requests fit together. */
    ghost predicate Valid()
      reads this, blobs, db
    {
      limits.partSizeMin >= 1 && Inv(State(), history)
    }

    constructor (limits: Limits)
      requires limits.partSizeMin >= 1
      ensures Valid() && this.limits == limits && fresh(blobs) && fresh(db)
      ensures State() == World(map[], EMPTY_DB) && history == NO_HISTORY
    {
      this.limits := limits;
      history := NO_HISTORY;
      blobs := new BlobStore();
      db := new Database();
    }

    function State(): World
      reads this, blobs, db
    {
      World(blobs.files, db.Tables())
    }

    method CreateBucket(env: Env, name: string, public: Option<bool>) returns (resp: Response)
      requires Valid()
      modifies this`history, blobs, db
      ensures Valid()
      ensures (State(), resp) == CreateBucketStep(old(State()), env, name, public)
      ensures history == Observe(old(State()), old(history), env, limits, Request.CreateBucket(name, public))
      ensures Ladder.Justified(resp, old(State()), env, limits, Request.CreateBucket(name, public))
      ensures resp.BucketRecord? ==>
                && old(name !in db.buckets) && name in db.buckets && db.buckets[name] == resp.b
                && public == Some(resp.b.public) && resp.b.name == name && resp.b.createdAt == env.now
      ensures resp == Refused(Internal) ==> !env.commit
    {
      hide Inv, Observe, Ladder.Justified, Schema, Exchanged, Distinct, Unowned, ValidBucketName;
      StepKeeps(State(), history, env, limits, Request.CreateBucket(name, public));
      history := Observe(State(), history, env, limits, Request.CreateBucket(name, public));
      if !ValidBucketName(name) {
        return Refused(InvalidBucketName);
      }
      if public.None? {
        return Refused(InvalidParameter);
      }
      var bucket := Bucket(name, public.value, env.now);
      var err := db.CreateBucket(bucket, env.commit);
      if err == Err(Conflict) {
        return Refused(BucketExists);
      }
      if err.Err? {
        return Refused(Internal);
      }
      return BucketRecord(bucket);
    }

    method DeleteBucket(env: Env, name: string) returns (resp: Response)
      requires Valid()
      modifies this`history, blobs, db
      ensures Valid()
      ensures (State(), resp) == DeleteBucketStep(old(State()), env, name)
      ensures history == Observe(old(State()), old(history), env, limits, Request.DeleteBucket(name))
      ensures Ladder.Justified(resp, old(State()), env, limits, Request.DeleteBucket(name))
      ensures resp == Refused(Internal) ==> !env.lookup || !env.count || !env.commit
    {
      hide Inv, Observe, Ladder.Justified, Schema, Exchanged, Distinct, Unowned, ValidBucketName, HoldsObjects, HoldsUploads;
      StepKeeps(State(), history, env, limits, Request.DeleteBucket(name));
      KeysStaySilent(State(), history, env, name);
      history := Observe(State(), history, env, limits, Request.DeleteBucket(name));
      if !ValidBucketName(name) {
        return Refused(InvalidBucketName);
      }
      if !env.lookup {
        return Refused(Internal);
      }
      if HoldsObjects(db.Tables(), name) {
        return Refused(BucketNotEmpty);
      }
      if !env.count {
        return Refused(Internal);
      }
      var uploads := db.CountUploads(name);
      if uploads > 0 {
        return Refused(BucketNotEmpty);
      }
      var err := db.DeleteBucket(name, env.commit);
      if err == Err(NotFound) {
        return Refused(BucketNotFound);
      }
      if err.Err? {
        return Refused(Internal);
      }
      return NoContent;
    }

    method PutObject(env: Env, r: Request) returns (resp: Response)
      requires Valid() && r.PutObject? && Admissible(history, r)
      modifies this`history, blobs, db
      ensures Valid()
      ensures (State(), resp) == PutObjectStep(old(State()), env, r)
      ensures history == Observe(old(State()), old(history), env, limits, r)
      ensures Ladder.Justified(resp, old(State()), env, limits, r)
      ensures resp.ObjectRecord? ==>
                && (r.bucket, r.key) in db.objects && db.objects[(r.bucket, r.key)] == resp.o && resp.o.blob == r.newBlob
                && r.newBlob in blobs.files && blobs.files[r.newBlob] == r.body.bytes
                && resp.o.size == |r.body.bytes| && resp.o.checksum == EncodeCRC32C(Crc(r.body.bytes))
    {
      hide Inv, Observe, Ladder.Justified, Serve, Admissible, StoreObjectStep, DEFAULT_TYPE, Schema, DeclarationFault,
        ValidBucketName, ValidObjectKey, EncodeCRC32C, Crc, Declare, UpsertObject, Overlay;
      StepKeeps(State(), history, env, limits, r);
      PutServes(State(), env, limits, r);
      PutRecordsBody(State(), history, env, r);
      history := Observe(State(), history, env, limits, r);
      if r.bucket in env.forbidden {
        return Refused(Forbidden);
      }
      if !ValidBucketName(r.bucket) {
        return Refused(InvalidBucketName);
      }
      if !ValidObjectKey(r.key) {
        return Refused(InvalidKey);
      }
      if r.contentLength < 0 {
        return Refused(MalformedRequest);
      }
      if r.contentLength > MAX_BODY_LENGTH {
        return Refused(BodyTooLarge);
      }
      var want := Declare(r.declared);
      if DeclarationFault(want).Some? {
        return Refused(DeclarationFault(want).value);
      }
      var contentType := r.contentType;
      if contentType == "" {
        contentType := DEFAULT_TYPE;
      }
      var b := db.GetBucket(r.bucket, env.lookup);
      if b == Err(NotFound) {
        return Refused(BucketNotFound);
      }
      if b.Err? {
        return Refused(Internal);
      }
      resp := StoreObject(env, r, b.value.name, want, contentType);
    }

    /** The rest of a PUT: its file, its checks, its row. */
    method StoreObject(env: Env, r: Request, bucket: string, want: Declaration, contentType: string) returns (resp: Response)
      requires db.Valid() && r.PutObject? && want == Declare(r.declared)
      requires contentType == if r.contentType == "" then DEFAULT_TYPE else r.contentType
      modifies blobs, db
      ensures (State(), resp) == StoreObjectStep(old(State()), env, r, bucket)
    {
      hide Schema, Exchanged, Distinct, Unowned, WrittenIn, EncodeCRC32C, Crc, Declare, UpsertObject, Overlay, DEFAULT_TYPE;
      var id := blobs.Create(r.newBlob, env.create);
      if id.Err? {
        return Refused(Internal);
      }
      var n := blobs.Write(id.value, 0, r.body);
      var sum := Crc(r.body.bytes);
      if n == Err(UnexpectedEof) {
        var _ := blobs.Remove(id.value, env.remove);
        return Refused(BodyLengthMismatch);
      }
      if n.Err? {
        var _ := blobs.Remove(id.value, env.remove);
        return Refused(Internal);
      }
      if n.value != r.contentLength {
        var _ := blobs.Remove(id.value, env.remove);
        return Refused(BodyLengthMismatch);
      }
      var synced := blobs.Sync(id.value, env.sync);
      if synced.Err? {
        var _ := blobs.Remove(id.value, env.remove);
        return Refused(Internal);
      }
      if want.Want? && sum != want.crc {
        var _ := blobs.Remove(id.value, env.remove);
        return Refused(ChecksumMismatch(None));
      }
      var obj := Object(bucket, r.key, id.value, r.contentLength, contentType, EncodeCRC32C(sum), r.metadata, env.now);
      var prev := db.PutObject(obj, env.commit);
      if prev.Err? {
        return Refused(Internal);
      }
      if prev.value != "" {
        var _ := blobs.Remove(prev.value, env.remove);
      }
      return ObjectRecord(obj);
    }

    method ReadableBucket(env: Env, bucket: string) returns (fault: Option<Fault>)
      requires db.Valid()
      ensures fault == ReadFault(db.Tables(), env, bucket)
    {
      var b := db.GetBucket(bucket, env.lookup);
      if b.Err? && b != Err(NotFound) {
        return Some(Internal);
      }
      if b.Ok? && b.value.public {
        return None;
      }
      if bucket in env.forbidden {
        return Some(Forbidden);
      }
      return if b.Err? then Some(BucketNotFound) else None;
    }

    /** Serves the whole file, not the first `size` bytes of it. */
    method GetObject(env: Env, bucket: string, key: string) returns (resp: Response)
      requires Valid()
      ensures resp == GetObjectStep(State(), env, bucket, key)
      ensures Ladder.Justified(resp, State(), env, limits, Request.GetObject(bucket, key))
      ensures resp == Refused(Internal) ==> !env.lookup
      ensures resp.Content? ==>
                && resp.o.blob in history.content && resp.o.blob in history.length
                && resp.o.size == |history.content[resp.o.blob]|
                && resp.o.checksum == EncodeCRC32C(Crc(history.content[resp.o.blob]))
                && (resp.bytes == history.content[resp.o.blob]
                   <==> resp.o.blob !in history.tainted && history.length[resp.o.blob] == resp.o.size)
    {
      hide Inv, Observe, Ladder.Justified, Schema, EncodeCRC32C, Crc, ValidBucketName, ValidObjectKey;
      StepKeeps(State(), history, env, limits, Request.GetObject(bucket, key));
      ServesContent(State(), history, env, bucket, key);
      var fault := ReadableBucket(env, bucket);
      if fault.Some? {
        return Refused(fault.value);
      }
      if !ValidBucketName(bucket) {
        return Refused(InvalidBucketName);
      }
      if !ValidObjectKey(key) {
        return Refused(InvalidKey);
      }
      var o := db.GetObject(bucket, key, env.lookup);
      if o == Err(NotFound) {
        return Refused(ObjectNotFound);
      }
      if o.Err? {
        return Refused(Internal);
      }
      var content := blobs.Open(o.value.blob);
      if content.Err? {
        return Refused(Internal);
      }
      return Content(o.value, content.value);
    }

    method DeleteObject(env: Env, bucket: string, key: string) returns (resp: Response)
      requires Valid()
      modifies this`history, blobs, db
      ensures Valid()
      ensures (State(), resp) == DeleteObjectStep(old(State()), env, bucket, key)
      ensures history == Observe(old(State()), old(history), env, limits, Request.DeleteObject(bucket, key))
      ensures Ladder.Justified(resp, old(State()), env, limits, Request.DeleteObject(bucket, key))
      ensures resp == NoContent ==> old((bucket, key) in db.objects) && (bucket, key) !in db.objects
      ensures resp == NoContent && env.remove ==> old(db.objects)[(bucket, key)].blob !in blobs.files
    {
      hide Inv, Observe, Ladder.Justified, Schema, Exchanged, Distinct, Unowned, ValidBucketName, ValidObjectKey;
      StepKeeps(State(), history, env, limits, Request.DeleteObject(bucket, key));
      history := Observe(State(), history, env, limits, Request.DeleteObject(bucket, key));
      if bucket in env.forbidden {
        return Refused(Forbidden);
      }
      if !ValidBucketName(bucket) {
        return Refused(InvalidBucketName);
      }
      if !ValidObjectKey(key) {
        return Refused(InvalidKey);
      }
      var b := db.GetBucket(bucket, env.lookup);
      if b == Err(NotFound) {
        return Refused(BucketNotFound);
      }
      if b.Err? {
        return Refused(Internal);
      }
      var blob := db.DeleteObject(bucket, key, env.commit);
      if blob == Err(NotFound) {
        return Refused(ObjectNotFound);
      }
      if blob.Err? {
        return Refused(Internal);
      }
      var _ := blobs.Remove(blob.value, env.remove);
      return NoContent;
    }

    method CreateUpload(env: Env, r: Request) returns (resp: Response)
      requires Valid() && r.CreateUpload? && Admissible(history, r)
      modifies this`history, blobs, db
      ensures Valid()
      ensures (State(), resp) == CreateUploadStep(old(State()), env, limits, r)
      ensures history == Observe(old(State()), old(history), env, limits, r)
      ensures Ladder.Justified(resp, old(State()), env, limits, r)
      ensures resp.SessionRecord? ==>
                && r.newSession in db.uploads && db.uploads[r.newSession] == resp.s && resp.s.parts == map[]
                && r.initiate.Some? && r.initiate.value.partSize == Some(resp.s.partSize)
                && limits.partSizeMin <= resp.s.partSize <= limits.partSizeMax
                && (resp.s.bucket, resp.s.key) == (r.initiate.value.bucket, r.initiate.value.key)
                && (resp.s.contentType, resp.s.metadata) == (Records.TypeOf(r.initiate.value.contentType), r.initiate.value.metadata)
                && (resp.s.createdAt, resp.s.expiresAt) == (env.now, env.now + limits.uploadTTL)
                && resp.s.blob in blobs.files && blobs.files[resp.s.blob] == []
    {
      hide Inv, Observe, Ladder.Justified, Serve, Admissible, DEFAULT_TYPE, Schema, Exchanged, Distinct, Unowned,
        ValidBucketName, ValidObjectKey;
      StepKeeps(State(), history, env, limits, r);
      InitiateServes(State(), env, limits, r);
      CreateUploadShape(State(), env, limits, r);
      Records.SessionRecorded(State(), env, limits, r);
      history := Observe(State(), history, env, limits, r);
      if r.initiate.None? {
        return Refused(InvalidParameter);
      }
      var body := r.initiate.value;
      if body.bucket in env.forbidden {
        return Refused(Forbidden);
      }
      if !ValidBucketName(body.bucket) {
        return Refused(InvalidBucketName);
      }
      if !ValidObjectKey(body.key) {
        return Refused(InvalidKey);
      }
      if body.partSize.None? {
        return Refused(InvalidParameter);
      }
      if body.partSize.value < limits.partSizeMin || body.partSize.value > limits.partSizeMax {
        return Refused(InvalidPartSize);
      }
      var b := db.GetBucket(body.bucket, env.lookup);
      if b == Err(NotFound) {
        return Refused(BucketNotFound);
      }
      if b.Err? {
        return Refused(Internal);
      }
      var id := blobs.Create(r.newBlob, env.create);
      if id.Err? {
        return Refused(Internal);
      }
      var sess := Session(r.newSession, body.bucket, body.key, id.value, body.partSize.value, body.contentType,
                          body.metadata, map[], env.now, env.now + limits.uploadTTL);
      if sess.contentType == "" {
        sess := sess.(contentType := DEFAULT_TYPE);
      }
      var err := db.CreateUpload(sess, env.commit);
      if err.Err? {
        var _ := blobs.Remove(sess.blob, env.remove);
        return Refused(Internal);
      }
      return SessionRecord(sess);
    }

    /** GetUpload and the three checks that follow it on every session route. */
    method LoadSession(env: Env, id: Id) returns (fault: Option<Fault>, sess: Session)
      requires db.Valid()
      ensures fault == SessionFault(db.Tables(), env, id)
      ensures fault.None? ==> id in db.uploads && sess == db.uploads[id] && sess.id == id && sess.bucket in db.buckets
    {
      sess := Session("", "", "", "", 0, "", map[], map[], 0, 0);
      var found := db.GetUpload(id, env.lookup);
      if found == Err(NotFound) {
        return Some(UploadNotFound), sess;
      }
      if found.Err? {
        return Some(Internal), sess;
      }
      sess := found.value;
      if sess.bucket in env.forbidden {
        return Some(Forbidden), sess;
      }
      if env.now > sess.expiresAt {
        return Some(SessionNotActive), sess;
      }
      return None, sess;
    }

    method PutPart(env: Env, r: Request) returns (resp: Response)
      requires Valid() && r.PutPart? && Admissible(history, r)
      modifies this`history, blobs, db
      ensures Valid()
      ensures (State(), resp) == PutPartStep(old(State()), env, limits, r)
      ensures history == Observe(old(State()), old(history), env, limits, r)
      ensures Ladder.Justified(resp, old(State()), env, limits, r)
      ensures resp.PartRecord? ==>
                && r.id in db.uploads && r.number.Some? && r.number.value in db.uploads[r.id].parts
                && db.uploads[r.id].parts[r.number.value] == Part(|r.body.bytes|, EncodeCRC32C(Crc(r.body.bytes)))
                && db.uploads[r.id].blob in blobs.files
                && Holds(blobs.files[db.uploads[r.id].blob], PartOffset(r.number.value, db.uploads[r.id].partSize), r.body.bytes)
    {
      hide Inv, Observe, Ladder.Justified, Serve, Schema, Exchanged, Distinct, Unowned, WrittenIn, DeclarationFault,
        EncodeCRC32C, Crc, Declare, Overlay;
      StepKeeps(State(), history, env, limits, r);
      PartServes(State(), env, limits, r);
      PartRecordsBody(State(), history, env, limits, r);
      history := Observe(State(), history, env, limits, r);
      if r.number.None? {
        return Refused(InvalidPartNumber);
      }
      var n := r.number.value;
      if n < 1 || n > limits.maxParts {
        return Refused(InvalidPartNumber);
      }
      var fault, sess := LoadSession(env, r.id);
      if fault.Some? {
        return Refused(fault.value);
      }
      if r.contentLength == -1 {
        return Refused(MalformedRequest);
      }
      if r.contentLength == 0 {
        return Refused(InvalidParameter);
      }
      if r.contentLength > sess.partSize {
        return Refused(BodyTooLarge);
      }
      var want := Declare(r.declared);
      if DeclarationFault(want).Some? {
        return Refused(DeclarationFault(want).value);
      }
      var offset := (n - 1) * sess.partSize;
      if offset < 0 {
        return Refused(Internal);
      }
      var written := blobs.Write(sess.blob, offset, r.body);
      var sum := Crc(r.body.bytes);
      if written == Err(UnexpectedEof) {
        return Refused(BodyLengthMismatch);
      }
      if written.Err? {
        return Refused(Internal);
      }
      if want.Want? && sum != want.crc {
        return Refused(ChecksumMismatch(None));
      }
      var synced := blobs.Sync(sess.blob, env.sync);
      if synced.Err? {
        return Refused(Internal);
      }
      var err := db.PutPart(sess.id, n, Part(written.value, EncodeCRC32C(sum)), env.commit);
      if err.Err? {
        return Refused(Internal);
      }
      return PartRecord(n, written.value, EncodeCRC32C(sum));
    }

    method DeleteUpload(env: Env, id: Id) returns (resp: Response)
      requires Valid()
      modifies this`history, blobs, db
      ensures Valid()
      ensures (State(), resp) == DeleteUploadStep(old(State()), env, id)
      ensures history == Observe(old(State()), old(history), env, limits, Request.DeleteUpload(id))
      ensures Ladder.Justified(resp, old(State()), env, limits, Request.DeleteUpload(id))
      ensures resp == NoContent <==>
                && env.lookup && env.commit && old(id in db.uploads)
                && old(db.uploads)[id].bucket !in env.forbidden && env.now <= old(db.uploads)[id].expiresAt
      ensures resp == NoContent ==> id !in db.uploads && (env.remove ==> old(db.uploads)[id].blob !in blobs.files)
    {
      hide Inv, Observe, Ladder.Justified, Schema, Exchanged, Distinct, Unowned;
      StepKeeps(State(), history, env, limits, Request.DeleteUpload(id));
      Runs.AbortExact(State(), history, env, id);
      history := Observe(State(), history, env, limits, Request.DeleteUpload(id));
      var fault, sess := LoadSession(env, id);
      if fault.Some? {
        return Refused(fault.value);
      }
      var deleted := db.DeleteUpload(sess.id, env.commit);
      if deleted == Err(NotFound) {
        return Refused(UploadNotFound);
      }
      if deleted.Err? {
        return Refused(Internal);
      }
      var _ := blobs.Remove(deleted.value.blob, env.remove);
      return NoContent;
    }

    /** The three checks of complete, each over every part. */
    method CheckParts(sess: Session, c: Completion) returns (fault: Option<Fault>)
      requires c.parts >= 1 && (c.checksums.Some? ==> |c.checksums.value| == c.parts)
      ensures fault.Some? ==> fault == CompletionFault(sess, c)
      ensures fault.Some? && fault.value.UploadIncomplete? ==> ListsUnrecorded(sess, c, fault.value.missing)
      ensures fault.Some? && fault.value.PartSizeMismatch? ==> FirstShort(sess, c, fault.value.at)
      ensures fault.Some? && fault.value.ChecksumMismatch? ==> fault.value.part.Some? && FirstDisputed(sess, c, fault.value.part.value)
      ensures fault.None? ==> forall n | 1 <= n <= c.parts :: n in sess.parts
      ensures fault.None? ==> CompletionFault(sess, c) == if Fold(sess.parts, c.parts).None? then Some(Internal) else None
    {
      hide ListsUnrecorded, FirstShort, FirstDisputed, AnyUnrecorded, AnyShort, AnyDisputed, AnyCorrupt, ParseChecksum;
      CompletionFaultExact(sess, c);
      var missing := [];
      for i := 1 to c.parts + 1
        invariant missing == MissingParts(sess.parts, i - 1)
      {
        if i !in sess.parts {
          missing := missing + [i];
        }
      }
      MissingPartsEmpty(sess.parts, c.parts);
      if |missing| > 0 {
        return Some(UploadIncomplete(missing));
      }
      for i := 1 to c.parts
        invariant ShortPart(sess.parts, sess.partSize, c.parts, 1) == ShortPart(sess.parts, sess.partSize, c.parts, i)
      {
        if sess.parts[i].size != sess.partSize {
          return Some(PartSizeMismatch(i));
        }
      }
      if c.checksums.Some? {
        for i := 1 to c.parts + 1
          invariant DisputedPart(sess.parts, c.checksums.value, 1) == DisputedPart(sess.parts, c.checksums.value, i)
        {
          if c.checksums.value[i - 1] != sess.parts[i].checksum {
            return Some(ChecksumMismatch(Some(i)));
          }
        }
      }
      return None;
    }

    /** Fold the per-part CRCs in part order, without reading the file. */
    method FoldParts(parts: map<int, Part>, count: int) returns (r: Option<(bv32, int)>)
      requires count >= 1 && forall n | 1 <= n <= count :: n in parts
      ensures r == Fold(parts, count)
    {
      hide Combined, ParseChecksum;
      var first := ParseChecksum(parts[1].checksum);
      if first.Err? {
        CorruptRecord(parts, 1, count);
        return None;
      }
      var acc, size := first.value, parts[1].size;
      for i := 2 to count + 1
        invariant Fold(parts, i - 1) == Some((acc, size))
      {
        var crc := ParseChecksum(parts[i].checksum);
        if crc.Err? {
          CorruptRecord(parts, i, count);
          return None;
        }
        acc := CombineCRC32C(acc, crc.value, parts[i].size);
        size := size + parts[i].size;
      }
      return Some((acc, size));
    }

    method CompleteUpload(env: Env, id: Id, completion: Option<Completion>) returns (resp: Response)
      requires Valid()
      modifies this`history, blobs, db
      ensures Valid()
      ensures (State(), resp) == CompleteUploadStep(old(State()), env, id, completion)
      ensures history == Observe(old(State()), old(history), env, limits, Request.CompleteUpload(id, completion))
      ensures Ladder.Justified(resp, old(State()), env, limits, Request.CompleteUpload(id, completion))
      ensures resp.ObjectRecord? ==>
                && id !in db.uploads && completion.Some? && completion.value.parts >= 0 && resp.o.blob in old(history).bodies
                && var content := Concat(old(history).bodies[resp.o.blob], completion.value.parts);
                && resp.o.size == |content| && resp.o.checksum == EncodeCRC32C(Crc(content))
                && (resp.o.bucket, resp.o.key) in db.objects && db.objects[(resp.o.bucket, resp.o.key)] == resp.o
      ensures completion.Some? && SessionFault(old(State()).db, env, id).None? && env.commit
              && (completion.value.checksums.Some? ==> |completion.value.checksums.value| == completion.value.parts) ==>
                (resp.ObjectRecord? <==> Runs.Completable(old(State()).db, id, completion.value))
    {
      hide Inv, Observe, Ladder.Justified, Schema, Exchanged, Distinct, Unowned, Concat, Crc, Runs.Completable, EncodeCRC32C,
        CompletionFault, Fold, SessionFault, UpsertObject;
      StepKeeps(State(), history, env, limits, Request.CompleteUpload(id, completion));
      CompletionRecordsBodies(State(), history, env, limits, id, completion);
      history := Observe(State(), history, env, limits, Request.CompleteUpload(id, completion));
      if completion.None? {
        return Refused(InvalidParameter);
      }
      var body := completion.value;
      if body.parts < 1 {
        return Refused(InvalidParameter);
      }
      if body.checksums.Some? && |body.checksums.value| != body.parts {
        return Refused(InvalidParameter);
      }
      var fault, sess := LoadSession(env, id);
      if fault.Some? {
        return Refused(fault.value);
      }
      fault := CheckParts(sess, body);
      if fault.Some? {
        return Refused(fault.value);
      }
      var folded := FoldParts(sess.parts, body.parts);
      if folded.None? {
        return Refused(Internal);
      }
      var (acc, size) := folded.value;
      var obj := Object(sess.bucket, sess.key, sess.blob, size, sess.contentType, EncodeCRC32C(acc), sess.metadata, env.now);
      var prev := db.CompleteUpload(sess.id, obj, env.commit);
      if prev == Err(NotFound) {
        return Refused(UploadNotFound);
      }
      if prev.Err? {
        return Refused(Internal);
      }
      if prev.value != "" {
        var _ := blobs.Remove(prev.value, env.remove);
      }
      return ObjectRecord(obj);
    }
  }
}
