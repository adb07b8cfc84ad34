/** What a served request answers and leaves in the tables, field by field; a refused one leaves them alone. */
module Records {
  import opened Wrappers
  import opened Stores
  import opened Crc32c
  import opened Checksum
  import opened Handlers
  import opened Multipart
  import Runs

  /** The content type that is stored: the one given, or the default. */
  function TypeOf(given: string): string {
    if given != "" then given else "application/octet-stream"
  }

  /** Bucket creation records the name, the visibility asked for and the time, and touches no other row. */
  lemma BucketRecorded(w: World, env: Env, name: string, public: Option<bool>)
    ensures var (w', resp) := CreateBucketStep(w, env, name, public);
            if resp.Refused? then w' == w
            else
              && public.Some? && resp == BucketRecord(Bucket(name, public.value, env.now))
              && w' == w.(db := w.db.(buckets := w.db.buckets[name := Bucket(name, public.value, env.now)]))
  {
    hide ValidBucketName;
  }

  lemma BucketGone(w: World, env: Env, name: string)
    ensures var (w', resp) := DeleteBucketStep(w, env, name);
            if resp.Refused? then w' == w
            else resp == NoContent && name in w.db.buckets && w' == w.(db := w.db.(buckets := w.db.buckets - {name}))
  {
    hide ValidBucketName, HoldsObjects, HoldsUploads;
  }

  /** A PUT records what was sent: the key, the length and checksum of the body, the given type or the default, the metadata
      and the time, over its own new file; the displaced file goes. */
  lemma ObjectRecorded(w: World, h: History, env: Env, r: Request)
    requires Inv(w, h) && r.PutObject? && Admissible(h, r)
    ensures var (w', resp) := PutObjectStep(w, env, r);
            if resp.Refused? then w'.db == w.db
            else
              var body, at := r.body.bytes, (r.bucket, r.key);
              var o := Object(r.bucket, r.key, r.newBlob, |body|, TypeOf(r.contentType), EncodeCRC32C(Crc(body)), r.metadata, env.now);
              var files := w.files[r.newBlob := body];
              && resp == ObjectRecord(o) && w'.db == w.db.(objects := w.db.objects[at := o])
              && w'.files == if at in w.db.objects && env.remove then files - {w.db.objects[at].blob} else files
  {
    hide SessionOk, PartsOk, Distinct, Crc, EncodeCRC32C, Overlay, Declare, ValidBucketName, ValidObjectKey;
    WriteFromStart(r.body.bytes);
    var at := (r.bucket, r.key);
    if at in w.db.objects {
      assert ObjectOk(w, h, at);
    }
    hide Inv, ObjectOk;
    PutRecorded(w, env, r);
  }

  lemma PutRecorded(w: World, env: Env, r: Request)
    requires r.PutObject? && Framed(r.contentLength, r.body) && Overlay([], 0, r.body.bytes) == r.body.bytes
    requires forall name | name in w.db.buckets :: w.db.buckets[name].name == name
    requires (r.bucket, r.key) in w.db.objects ==> w.db.objects[(r.bucket, r.key)].blob != ""
    ensures var (w', resp) := PutObjectStep(w, env, r);
            if resp.Refused? then w'.db == w.db
            else
              var body, at := r.body.bytes, (r.bucket, r.key);
              var o := Object(r.bucket, r.key, r.newBlob, |body|, TypeOf(r.contentType), EncodeCRC32C(Crc(body)), r.metadata, env.now);
              var files := w.files[r.newBlob := body];
              && resp == ObjectRecord(o) && w'.db == w.db.(objects := w.db.objects[at := o])
              && w'.files == if at in w.db.objects && env.remove then files - {w.db.objects[at].blob} else files
  {
    hide Crc, EncodeCRC32C, Overlay, Declare, ValidBucketName, ValidObjectKey;
    var body := r.body.bytes;
    assert w.files[r.newBlob := []][r.newBlob := body] == w.files[r.newBlob := body];
  }

  /** GET answers the row under the key and the whole file it names. */
  lemma ObjectServed(w: World, env: Env, bucket: string, key: string)
    ensures var resp := GetObjectStep(w, env, bucket, key);
            !resp.Refused? ==>
              && (bucket, key) in w.db.objects
              && var o := w.db.objects[(bucket, key)]; o.blob in w.files && resp == Content(o, w.files[o.blob])
  {
    hide ValidBucketName, ValidObjectKey;
  }

  lemma ObjectGone(w: World, env: Env, bucket: string, key: string)
    ensures var (w', resp) := DeleteObjectStep(w, env, bucket, key);
            if resp.Refused? then w' == w
            else
              && resp == NoContent && (bucket, key) in w.db.objects
              && w'.db == w.db.(objects := w.db.objects - {(bucket, key)})
              && w'.files == if env.remove then w.files - {w.db.objects[(bucket, key)].blob} else w.files
  {
    hide ValidBucketName, ValidObjectKey;
  }

  /** Initiate records what was asked for: bucket, key and part size, which is within the limits, the given type or the
      default and the metadata; created now, expiring after the configured time, over an empty file of its own. */
  lemma SessionRecorded(w: World, env: Env, limits: Limits, r: Request)
    requires r.CreateUpload?
    ensures var (w', resp) := CreateUploadStep(w, env, limits, r);
            if resp.Refused? then w'.db == w.db
            else
              && r.initiate.Some? && r.initiate.value.partSize.Some?
              && var asked := r.initiate.value;
              && limits.partSizeMin <= asked.partSize.value <= limits.partSizeMax
              && var s := Session(r.newSession, asked.bucket, asked.key, r.newBlob, asked.partSize.value, TypeOf(asked.contentType),
                                  asked.metadata, map[], env.now, env.now + limits.uploadTTL);
              && resp == SessionRecord(s) && w'.files == w.files[r.newBlob := []]
              && w'.db == w.db.(uploads := w.db.uploads[r.newSession := s])
  {
    hide ValidBucketName, ValidObjectKey;
  }

  /** A part's record is its number, length and checksum; nothing else of the session changes. */
  lemma PartRecorded(w: World, h: History, env: Env, limits: Limits, r: Request)
    requires Inv(w, h) && r.PutPart? && Admissible(h, r)
    ensures var (w', resp) := PutPartStep(w, env, limits, r);
            if resp.Refused? then w'.db == w.db
            else
              && r.id in w.db.uploads && r.number.Some?
              && var s, n, body, wire := w.db.uploads[r.id], r.number.value, r.body.bytes, EncodeCRC32C(Crc(r.body.bytes));
              && s.blob in w.files && PartOffset(n, s.partSize) >= 0
              && resp == PartRecord(n, |body|, wire)
              && w'.db == w.db.(uploads := w.db.uploads[r.id := s.(parts := s.parts[n := Part(|body|, wire)])])
              && w'.files == w.files[s.blob := Overlay(w.files[s.blob], PartOffset(n, s.partSize), body)]
  {
    hide PutPartStep, PartsOk, ObjectOk, Distinct, Overlay, PartOffset, Crc, EncodeCRC32C, PartFault;
    if PartFault(w.db, env, limits, r).None? {
      Runs.LoadedSession(w.db, env, limits, r);
      assert SessionOk(w, h, r.id);
      PutPartShape(w, env, limits, r);
      PartAnswers(w, env, limits, r);
    } else {
      PartRefused(w, env, limits, r);
    }
  }

  lemma PartAnswers(w: World, env: Env, limits: Limits, r: Request)
    requires r.PutPart? && PartFault(w.db, env, limits, r).None?
    ensures PutPartStep(w, env, limits, r).1.Refused? || PutPartStep(w, env, limits, r).1.PartRecord?
  {
    hide Overlay, PartOffset, Crc, EncodeCRC32C, PartFault;
  }

  lemma PartRefused(w: World, env: Env, limits: Limits, r: Request)
    requires r.PutPart? && PartFault(w.db, env, limits, r).Some?
    ensures PutPartStep(w, env, limits, r).0 == w && PutPartStep(w, env, limits, r).1.Refused?
  {
    hide Overlay, PartOffset, Crc, EncodeCRC32C, PartFault;
  }

  lemma SessionGone(w: World, h: History, env: Env, id: Id)
    requires Inv(w, h)
    ensures var (w', resp) := DeleteUploadStep(w, env, id);
            if resp.Refused? then w' == w
            else
              && resp == NoContent && id in w.db.uploads && w'.db == w.db.(uploads := w.db.uploads - {id})
              && w'.files == if env.remove then w.files - {w.db.uploads[id].blob} else w.files
  {
    hide PartsOk, ObjectOk, Distinct;
    Runs.AbortExact(w, h, env, id);
    if id in w.db.uploads {
      assert SessionOk(w, h, id);
    }
  }

  /** Complete records the object of the session: its bucket, key, file, type and metadata, the length and checksum of the
      accepted bodies in part order, created now; the session goes, and the displaced file. */
  lemma CompletionRecorded(w: World, h: History, env: Env, id: Id, completion: Option<Completion>)
    requires Inv(w, h)
    ensures var (w', resp) := CompleteUploadStep(w, env, id, completion);
            if resp.Refused? then w' == w
            else
              && id in w.db.uploads && completion.Some? && completion.value.parts >= 0
              && var s := w.db.uploads[id]; var at := (s.bucket, s.key);
              && s.blob in h.bodies
              && var content := Concat(h.bodies[s.blob], completion.value.parts);
              var o := Object(s.bucket, s.key, s.blob, |content|, s.contentType, EncodeCRC32C(Crc(content)), s.metadata, env.now);
              && resp == ObjectRecord(o)
              && w'.db == w.db.(objects := w.db.objects[at := o], uploads := w.db.uploads - {id})
              && w'.files == if at in w.db.objects && env.remove then w.files - {w.db.objects[at].blob} else w.files
  {
    hide CompleteUploadStep, PartsOk, Distinct, Crc, EncodeCRC32C, Fold, Concat, Complete, AnyStale;
    var r := Request.CompleteUpload(id, completion);
    var limits := Limits(1, 1, 1, 0);
    CompleteShape(w, env, limits, r);
    CompleteAnswers(w, env, id, completion);
    if CompleteUploadStep(w, env, id, completion).1.ObjectRecord? {
      assert SessionOk(w, h, id);
      CompletedContent(w, h, id, completion.value.parts);
      var at := (w.db.uploads[id].bucket, w.db.uploads[id].key);
      if at in w.db.objects {
        assert ObjectOk(w, h, at);
      }
    }
  }

  lemma CompleteAnswers(w: World, env: Env, id: Id, completion: Option<Completion>)
    ensures var resp := CompleteUploadStep(w, env, id, completion).1; resp.Refused? || resp.ObjectRecord?
  {
    hide Fold, CompletionFault, EncodeCRC32C, UpsertObject;
  }
}
