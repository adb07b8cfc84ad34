/** The two levels meet: a request whose calls are not interleaved is the atomic handler; and what the atomic level
    cannot see, a part still being written when its session completes. */
module Sequential {
  import opened Wrappers
  import opened Stores
  import opened Crc32c
  import opened Checksum
  import opened Handlers
  import opened Multipart
  import opened Interleaving

  /** `n` calls of one process with nothing in between. */
  function Alone(s: Sys, p: Proc, env: Env, limits: Limits, n: nat): (Sys, Pc)
    decreases n
  {
    if n == 0 then (s, p.pc)
    else
      var (s1, pc) := Call(s, p, env, limits);
      Alone(s1, Proc(p.req, pc), env, limits, n - 1)
  }

  /** The most store calls any handler makes: a PUT that replaces an object. */
  const MOST_CALLS: nat := 6

  ghost predicate SameOutcome(s: Sys, s': Sys, pc: Pc, w: World, resp: Response) {
    pc == Ended(resp) && s'.files == w.files && s'.db == w.db
  }

  lemma {:induction false} EndedStays(s: Sys, r: Request, resp: Response, env: Env, limits: Limits, n: nat)
    ensures Alone(s, Proc(r, Ended(resp)), env, limits, n) == (s, Ended(resp))
    decreases n
  {
    if n > 0 {
      EndedStays(s, r, resp, env, limits, n - 1);
    }
  }

  lemma CallThen(s: Sys, p: Proc, env: Env, limits: Limits, n: nat)
    requires n > 0
    ensures Alone(s, p, env, limits, n) ==
            Alone(Call(s, p, env, limits).0, Proc(p.req, Call(s, p, env, limits).1), env, limits, n - 1)
  {
  }

  lemma RemoveThenEnd(s: Sys, r: Request, blob: Id, resp: Response, env: Env, limits: Limits, n: nat)
    requires n > 0
    ensures Alone(s, Proc(r, Removing(blob, resp)), env, limits, n) == (RemoveCall(s, blob, env), Ended(resp))
  {
    hide RemoveCall;
    CallThen(s, Proc(r, Removing(blob, resp)), env, limits, n);
    EndedStays(RemoveCall(s, blob, env), r, resp, env, limits, n - 1);
  }

  // The dispatch of a call, one handler at a time.

  lemma PutObjectCalls(s: Sys, r: Request, pc: Pc, env: Env, limits: Limits)
    requires r.PutObject? && Live(pc)
    ensures Call(s, Proc(r, pc), env, limits) == PutObjectCall(s, r, pc, env)
  {
    hide PutObjectCall;
  }

  lemma CreateUploadCalls(s: Sys, r: Request, pc: Pc, env: Env, limits: Limits)
    requires r.CreateUpload? && Live(pc)
    ensures Call(s, Proc(r, pc), env, limits) == CreateUploadCall(s, r, pc, env, limits)
  {
    hide CreateUploadCall;
  }

  lemma PutPartCalls(s: Sys, r: Request, pc: Pc, env: Env, limits: Limits)
    requires r.PutPart? && Live(pc)
    ensures Call(s, Proc(r, pc), env, limits) == PutPartCall(s, r, pc, env, limits)
  {
    hide PutPartCall;
  }

  lemma CompleteCalls(s: Sys, r: Request, pc: Pc, env: Env, limits: Limits)
    requires r.CompleteUpload? && Live(pc)
    ensures Call(s, Proc(r, pc), env, limits) == CompleteCall(s, r, pc, env)
  {
    hide CompleteCall;
  }

  // Each handler, from the middle outwards: what is left of a PUT once its file is synced, written, made.

  function PutFromFlushed(files: Files, db: Db, r: Request, env: Env): (Files, Db, Response)
    requires r.PutObject?
  {
    var o := PutRow(r, env);
    var (db1, prev) := PutObjectRow(db, o, env.commit);
    if prev.Err? then (files, db1, Refused(Internal))
    else (if prev.value != "" then Discard(files, prev.value, env) else files, db1, ObjectRecord(o))
  }

  lemma FlushedAlone(s: Sys, r: Request, env: Env, limits: Limits)
    requires r.PutObject?
    ensures var (s', pc) := Alone(s, Proc(r, Flushed), env, limits, 2);
            var (files, db, resp) := PutFromFlushed(s.files, s.db, r, env);
            (s'.files, s'.db, pc) == (files, db, Ended(resp))
  {
    hide Call, Alone, PutObjectRow, EncodeCRC32C, Crc;
    PutObjectCalls(s, r, Flushed, env, limits);
    CallThen(s, Proc(r, Flushed), env, limits, 2);
    var (s1, pc) := PutObjectCall(s, r, Flushed, env);
    if pc.Removing? {
      RemoveThenEnd(s1, r, pc.blob, pc.resp, env, limits, 1);
    } else {
      EndedStays(s1, r, pc.resp, env, limits, 1);
    }
  }

  lemma MadeAlone(s: Sys, r: Request, env: Env, limits: Limits)
    requires r.PutObject?
    ensures var (s', pc) := Alone(s, Proc(r, Made), env, limits, 4);
            var (files, n) := WriteFile(s.files, r.newBlob, 0, r.body);
            var dropped := Discard(files, r.newBlob, env);
            var want := Declare(r.declared);
            var rest := PutFromFlushed(files, s.db, r, env);
            (s'.files, s'.db, pc) ==
              if n == Err(UnexpectedEof) then (dropped, s.db, Ended(Refused(BodyLengthMismatch)))
              else if n.Err? then (dropped, s.db, Ended(Refused(Internal)))
              else if n.value != r.contentLength then (dropped, s.db, Ended(Refused(BodyLengthMismatch)))
              else if SyncFile(files, r.newBlob, env.sync).Err? then (dropped, s.db, Ended(Refused(Internal)))
              else if want.Want? && want.crc != Crc(r.body.bytes) then (dropped, s.db, Ended(Refused(ChecksumMismatch(None))))
              else (rest.0, rest.1, Ended(rest.2))
  {
    hide Call, Alone, EncodeCRC32C, Crc, Declare, Overlay, PutFromFlushed;
    PutObjectCalls(s, r, Made, env, limits);
    CallThen(s, Proc(r, Made), env, limits, 4);
    var (s1, p1) := PutObjectCall(s, r, Made, env);
    if p1.Removing? {
      RemoveThenEnd(s1, r, p1.blob, p1.resp, env, limits, 3);
    } else {
      PutObjectCalls(s1, r, Wrote, env, limits);
      CallThen(s1, Proc(r, Wrote), env, limits, 3);
      var (s2, p2) := PutObjectCall(s1, r, Wrote, env);
      if p2.Removing? {
        RemoveThenEnd(s2, r, p2.blob, p2.resp, env, limits, 2);
      } else {
        FlushedAlone(s2, r, env, limits);
      }
    }
  }

  lemma PutObjectAlone(s: Sys, r: Request, env: Env, limits: Limits)
    requires r.PutObject? && forall name | name in s.db.buckets :: s.db.buckets[name].name == name
    ensures var (s', pc) := Alone(s, Proc(r, Begin), env, limits, MOST_CALLS);
            var (w, resp) := PutObjectStep(World(s.files, s.db), env, r);
            SameOutcome(s, s', pc, w, resp)
  {
    hide Call, Alone, Crc, EncodeCRC32C, Overlay, Declare, ValidBucketName, ValidObjectKey, UpsertObject;
    PutObjectCalls(s, r, Begin, env, limits);
    CallThen(s, Proc(r, Begin), env, limits, MOST_CALLS);
    var (s1, p1) := PutObjectCall(s, r, Begin, env);
    if p1.Ended? {
      EndedStays(s1, r, p1.resp, env, limits, 5);
    } else {
      PutObjectCalls(s1, r, Looked, env, limits);
      CallThen(s1, Proc(r, Looked), env, limits, 5);
      var (s2, p2) := PutObjectCall(s1, r, Looked, env);
      if p2.Ended? {
        EndedStays(s2, r, p2.resp, env, limits, 4);
      } else {
        MadeAlone(s2, r, env, limits);
      }
    }
  }

  lemma CreateUploadAlone(s: Sys, r: Request, env: Env, limits: Limits)
    requires r.CreateUpload?
    ensures var (s', pc) := Alone(s, Proc(r, Begin), env, limits, MOST_CALLS);
            var (w, resp) := CreateUploadStep(World(s.files, s.db), env, limits, r);
            SameOutcome(s, s', pc, w, resp)
  {
    hide Call, Alone, ValidBucketName, ValidObjectKey;
    CreateUploadCalls(s, r, Begin, env, limits);
    CallThen(s, Proc(r, Begin), env, limits, MOST_CALLS);
    var (s1, p1) := CreateUploadCall(s, r, Begin, env, limits);
    if p1.Ended? {
      EndedStays(s1, r, p1.resp, env, limits, 5);
    } else {
      CreateUploadCalls(s1, r, Looked, env, limits);
      CallThen(s1, Proc(r, Looked), env, limits, 5);
      var (s2, p2) := CreateUploadCall(s1, r, Looked, env, limits);
      if p2.Ended? {
        EndedStays(s2, r, p2.resp, env, limits, 4);
      } else {
        CreateUploadCalls(s2, r, Made, env, limits);
        CallThen(s2, Proc(r, Made), env, limits, 4);
        var (s3, p3) := CreateUploadCall(s2, r, Made, env, limits);
        if p3.Removing? {
          RemoveThenEnd(s3, r, p3.blob, p3.resp, env, limits, 3);
        } else {
          EndedStays(s3, r, p3.resp, env, limits, 3);
        }
      }
    }
  }

  lemma PutPartAlone(s: Sys, r: Request, env: Env, limits: Limits)
    requires r.PutPart? && Framed(r.contentLength, r.body)
    requires r.id in s.db.uploads ==> s.db.uploads[r.id].id == r.id
    ensures var (s', pc) := Alone(s, Proc(r, Begin), env, limits, MOST_CALLS);
            var (w, resp) := PutPartStep(World(s.files, s.db), env, limits, r);
            SameOutcome(s, s', pc, w, resp)
  {
    hide Call, Alone, Crc, EncodeCRC32C, Overlay, Declare, PartOffset;
    PutPartCalls(s, r, Begin, env, limits);
    CallThen(s, Proc(r, Begin), env, limits, MOST_CALLS);
    var (s1, p1) := PutPartCall(s, r, Begin, env, limits);
    if p1.Ended? {
      EndedStays(s1, r, p1.resp, env, limits, 5);
    } else {
      PutPartCalls(s1, r, p1, env, limits);
      CallThen(s1, Proc(r, p1), env, limits, 5);
      var (s2, p2) := PutPartCall(s1, r, p1, env, limits);
      if p2.Ended? {
        EndedStays(s2, r, p2.resp, env, limits, 4);
      } else {
        PutPartCalls(s2, r, p2, env, limits);
        CallThen(s2, Proc(r, p2), env, limits, 4);
        var (s3, p3) := PutPartCall(s2, r, p2, env, limits);
        if p3.Ended? {
          EndedStays(s3, r, p3.resp, env, limits, 3);
        } else {
          PutPartCalls(s3, r, p3, env, limits);
          CallThen(s3, Proc(r, p3), env, limits, 3);
          var (s4, p4) := PutPartCall(s3, r, p3, env, limits);
          EndedStays(s4, r, p4.resp, env, limits, 2);
        }
      }
    }
  }

  lemma CompleteUploadAlone(s: Sys, r: Request, env: Env, limits: Limits)
    requires r.CompleteUpload?
    ensures var (s', pc) := Alone(s, Proc(r, Begin), env, limits, MOST_CALLS);
            var (w, resp) := CompleteUploadStep(World(s.files, s.db), env, r.id, r.completion);
            SameOutcome(s, s', pc, w, resp)
  {
    hide Call, Alone, EncodeCRC32C, CompletionFault, Fold, SessionFault, UpsertObject;
    CompleteCalls(s, r, Begin, env, limits);
    CallThen(s, Proc(r, Begin), env, limits, MOST_CALLS);
    var (s1, p1) := CompleteCall(s, r, Begin, env);
    if p1.Ended? {
      EndedStays(s1, r, p1.resp, env, limits, 5);
    } else {
      CompleteCalls(s1, r, p1, env, limits);
      CallThen(s1, Proc(r, p1), env, limits, 5);
      var (s2, p2) := CompleteCall(s1, r, p1, env);
      if p2.Removing? {
        RemoveThenEnd(s2, r, p2.blob, p2.resp, env, limits, 4);
      } else {
        EndedStays(s2, r, p2.resp, env, limits, 4);
      }
    }
  }

  lemma DeleteAlone(s: Sys, r: Request, env: Env, limits: Limits)
    requires r.DeleteUpload? || r.DeleteObject?
    ensures var (s', pc) := Alone(s, Proc(r, Begin), env, limits, MOST_CALLS);
            var (w, resp) := Serve(World(s.files, s.db), env, limits, r);
            SameOutcome(s, s', pc, w, resp)
  {
    hide Alone, ValidBucketName, ValidObjectKey;
    CallThen(s, Proc(r, Begin), env, limits, MOST_CALLS);
    var (s1, p1) := Call(s, Proc(r, Begin), env, limits);
    if p1.Ended? {
      EndedStays(s1, r, p1.resp, env, limits, 5);
    } else {
      CallThen(s1, Proc(r, p1), env, limits, 5);
      var (s2, p2) := Call(s1, Proc(r, p1), env, limits);
      if p2.Removing? {
        RemoveThenEnd(s2, r, p2.blob, p2.resp, env, limits, 4);
      } else {
        EndedStays(s2, r, p2.resp, env, limits, 4);
      }
    }
  }

  lemma OtherAlone(s: Sys, r: Request, env: Env, limits: Limits)
    requires r.GetObject? || r.CreateBucket? || r.DeleteBucket?
    ensures var (s', pc) := Alone(s, Proc(r, Begin), env, limits, MOST_CALLS);
            var (w, resp) := Serve(World(s.files, s.db), env, limits, r);
            SameOutcome(s, s', pc, w, resp)
  {
    hide Alone, ValidBucketName, ValidObjectKey, HoldsObjects, HoldsUploads;
    CallThen(s, Proc(r, Begin), env, limits, MOST_CALLS);
    var (s1, p1) := Call(s, Proc(r, Begin), env, limits);
    if p1.Ended? {
      EndedStays(s1, r, p1.resp, env, limits, 5);
    } else {
      CallThen(s1, Proc(r, p1), env, limits, 5);
      var (s2, p2) := Call(s1, Proc(r, p1), env, limits);
      if p2.Ended? {
        EndedStays(s2, r, p2.resp, env, limits, 4);
      } else {
        CallThen(s2, Proc(r, p2), env, limits, 4);
        var (s3, p3) := Call(s2, Proc(r, p2), env, limits);
        EndedStays(s3, r, p3.resp, env, limits, 3);
      }
    }
  }

  /** Without interleaving, a request made call by call ends in the state and with the response of its atomic handler. */
  lemma AloneIsServe(s: Sys, r: Request, env: Env, limits: Limits)
    requires forall name | name in s.db.buckets :: s.db.buckets[name].name == name
    requires forall id | id in s.db.uploads :: s.db.uploads[id].id == id
    requires r.PutPart? ==> Framed(r.contentLength, r.body)
    ensures var (s', pc) := Alone(s, Proc(r, Begin), env, limits, MOST_CALLS);
            var (w, resp) := Serve(World(s.files, s.db), env, limits, r);
            SameOutcome(s, s', pc, w, resp)
  {
    hide Alone, PutObjectStep, CreateUploadStep, PutPartStep, CompleteUploadStep, DeleteUploadStep, DeleteObjectStep, SameOutcome;
    match r {
      case PutObject(_, _, _, _, _, _, _, _) => PutObjectAlone(s, r, env, limits);
      case CreateUpload(_, _, _) => CreateUploadAlone(s, r, env, limits);
      case PutPart(_, _, _, _, _) => PutPartAlone(s, r, env, limits);
      case CompleteUpload(_, _) => CompleteUploadAlone(s, r, env, limits);
      case DeleteUpload(_) => DeleteAlone(s, r, env, limits);
      case DeleteObject(_, _) => DeleteAlone(s, r, env, limits);
      case GetObject(_, _) => OtherAlone(s, r, env, limits);
      case CreateBucket(_, _) => OtherAlone(s, r, env, limits);
      case DeleteBucket(_) => OtherAlone(s, r, env, limits);
    }
  }

  // ---------- what the atomic level cannot see ----------

  /** A session whose one recorded part is all its file holds, and all stores up. */
  ghost predicate OnePart(s: Sys, id: Id, body: Bytes, env: Env, limits: Limits) {
    && body != [] && id in s.db.uploads && s.db.uploads[id].id == id && limits.maxParts >= 1
    && s.db.uploads[id].parts == map[1 := Part(|body|, EncodeCRC32C(Crc(body)))]
    && s.db.uploads[id].blob in s.files && s.files[s.db.uploads[id].blob] == body && |body| <= s.db.uploads[id].partSize
    && s.db.uploads[id].bucket in s.db.buckets && s.db.uploads[id].bucket !in env.forbidden
    && env.lookup && env.commit && env.now <= s.db.uploads[id].expiresAt
  }

  function LatePart(id: Id, body: Bytes): Request {
    PutPart(id, Some(1), |body|, Declared(true, "", ""), Stream(body, Done))
  }

  function CompleteOne(id: Id): Request {
    CompleteUpload(id, Some(Completion(1, None)))
  }

  /** Where the two requests stand: the resend has read the session, the completion is at `pc`. */
  ghost function Standing(s: Sys, id: Id, late: Bytes, p: nat, q: nat, pc: Pc): Sys
    requires id in s.db.uploads
  {
    s.(procs := s.procs[p := Proc(LatePart(id, late), Loaded(s.db.uploads[id]))][q := Proc(CompleteOne(id), pc)])
  }

  lemma PartReads(s: Sys, id: Id, body: Bytes, late: Bytes, env: Env, limits: Limits)
    requires OnePart(s, id, body, env, limits) && |late| == |body|
    ensures Call(s, Proc(LatePart(id, late), Begin), env, limits) == (s, Loaded(s.db.uploads[id]))
  {
    hide Crc, EncodeCRC32C, ParseChecksum;
    assert PartOffset(1, s.db.uploads[id].partSize) == 0;
  }

  lemma OnePartFolds(sess: Session, size: int, crc: bv32)
    requires sess.parts == map[1 := Part(size, EncodeCRC32C(crc))]
    ensures CompletionFault(sess, Completion(1, None)).None?
    ensures MissingParts(sess.parts, 1) == [] && Fold(sess.parts, 1) == Some((crc, size))
  {
    hide EncodeCRC32C, ParseChecksum;
    ParseEncode(crc);
    CompletionAccepted(sess, Completion(1, None));
    MissingPartsEmpty(sess.parts, 1);
  }

  lemma CompletionReads(s: Sys, id: Id, body: Bytes, env: Env, limits: Limits)
    requires OnePart(s, id, body, env, limits)
    ensures Call(s, Proc(CompleteOne(id), Begin), env, limits) == (s, Loaded(s.db.uploads[id]))
  {
    hide Crc, EncodeCRC32C, ParseChecksum, CompletionFault, Fold;
    OnePartFolds(s.db.uploads[id], |body|, Crc(body));
  }

  lemma CompletionRecords(s: Sys, id: Id, body: Bytes, env: Env, limits: Limits)
    requires OnePart(s, id, body, env, limits)
    ensures var (s', pc) := Call(s, Proc(CompleteOne(id), Loaded(s.db.uploads[id])), env, limits);
            var sess := s.db.uploads[id];
            && s'.files == s.files && (sess.bucket, sess.key) in s'.db.objects
            && var o := s'.db.objects[(sess.bucket, sess.key)];
               o.blob == sess.blob && o.size == |body| && o.checksum == EncodeCRC32C(Crc(body))
  {
    hide Crc, EncodeCRC32C, ParseChecksum, CompletionFault, Fold, MissingParts;
    OnePartFolds(s.db.uploads[id], |body|, Crc(body));
  }

  lemma LateLands(s: Sys, sess: Session, id: Id, late: Bytes, env: Env, limits: Limits)
    requires sess.blob in s.files && |s.files[sess.blob]| == |late|
    ensures var (s', pc) := Call(s, Proc(LatePart(id, late), Loaded(sess)), env, limits);
            s'.db == s.db && sess.blob in s'.files && s'.files[sess.blob] == late
  {
    hide Crc, EncodeCRC32C, ParseChecksum;
    assert PartOffset(1, sess.partSize) == 0;
    assert Overlay(s.files[sess.blob], 0, late) == late;
  }

  lemma Advances(s: Sys, p: nat, env: Env, limits: Limits)
    requires p in s.procs
    ensures var (s', pc) := Call(s, s.procs[p], env, limits);
            Apply(s, Advance(p, env), limits) == s'.(procs := s.procs[p := Proc(s.procs[p].req, pc)])
  {
    hide Call;
  }

  /** A part still on its way when its session completes lands in the object's file: a resend has read the session;
      the session completes; the resend writes. The row still describes the body it was completed with, and the file
      holds the other. So what the bytes of a completed object are is a matter of atomic handlers. */
  lemma LateWrite(s: Sys, limits: Limits, id: Id, body: Bytes, other: Bytes, env: Env, p: nat, q: nat)
    requires OnePart(s, id, body, env, limits) && |other| == |body| && p !in s.procs && q !in s.procs && p != q
    ensures var late := Apply(Apply(s, Start(p, LatePart(id, other)), limits), Advance(p, env), limits);
            var read := Apply(Apply(late, Start(q, CompleteOne(id)), limits), Advance(q, env), limits);
            var completed := Apply(read, Advance(q, env), limits);
            var s' := Apply(completed, Advance(p, env), limits);
            var blob, at := s.db.uploads[id].blob, (s.db.uploads[id].bucket, s.db.uploads[id].key);
            && at in s'.db.objects && s'.db.objects[at].blob == blob && s'.db.objects[at].size == |body|
            && s'.db.objects[at].checksum == EncodeCRC32C(Crc(body))
            && blob in s'.files && s'.files[blob] == other
  {
    hide Crc, EncodeCRC32C, ParseChecksum, Call;
    var sess := s.db.uploads[id];
    var arrived := Apply(s, Start(p, LatePart(id, other)), limits);
    PartReads(arrived, id, body, other, env, limits);
    Advances(arrived, p, env, limits);
    var late := Apply(arrived, Advance(p, env), limits);
    var asked := Apply(late, Start(q, CompleteOne(id)), limits);
    assert asked == Standing(s, id, other, p, q, Begin);
    CompletionReads(asked, id, body, env, limits);
    Advances(asked, q, env, limits);
    var read := Apply(asked, Advance(q, env), limits);
    assert read == Standing(s, id, other, p, q, Loaded(sess));
    CompletionRecords(read, id, body, env, limits);
    Advances(read, q, env, limits);
    var completed := Apply(read, Advance(q, env), limits);
    LateLands(completed, sess, id, other, env, limits);
    Advances(completed, p, env, limits);
  }
}
