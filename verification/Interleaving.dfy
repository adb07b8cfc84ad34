/** The same handlers with every store or blob call an atomic step: requests interleave at any call, and the process
    may crash between any two. The tables are the transactional ones of internal/sqlite. */
module Interleaving {
  import opened Wrappers
  import opened Stores
  import opened Crc32c
  import opened Checksum
  import opened Handlers
  import opened Multipart

  /** Where a request stands between two store calls, with the locals it carries on. */
  datatype Pc =
    | Begin
    | Looked                                     // the bucket exists (PUT, initiate, GET and DELETE of an object)
    | Made                                       // its own file exists
    | Wrote                                      // the body is in the file (PUT, part)
    | Flushed                                    // and synced
    | Loaded(s: Session)                         // the session as it was read
    | PartWrote(s: Session)
    | PartFlushed(s: Session)
    | Found(o: Object)                           // GET: the row, before the file is opened
    | Listed                                     // DELETE of a bucket: no objects seen
    | Counted                                    // and no sessions
    | Removing(blob: Id, resp: Response)         // one last call: remove this file, then answer
    | Ended(resp: Response)

  datatype Proc = Proc(req: Request, pc: Pc)

  /** files: what a read sees. disk: what is on stable storage of it. db: the tables.
      blobs, sessions: ids handed out. inserted: sessions ever inserted. bySession: files ever opened for a session.
      orphans: files given up on, for the sweep. */
  datatype Sys = Sys(
    files: Files, disk: Files, db: Db, procs: map<nat, Proc>,
    blobs: set<Id>, sessions: set<Id>, inserted: set<Id>, bySession: set<Id>, orphans: set<Id>)

  const BOOT: Sys := Sys(map[], map[], EMPTY_DB, map[], {}, {}, {}, {}, {})

  datatype Event =
    | Start(pid: nat, req: Request)
    | Advance(pid: nat, env: Env)
    | Crash(left: Files)

  /** The object a PUT records. */
  function PutRow(r: Request, env: Env): Object
    requires r.PutObject?
  {
    Object(r.bucket, r.key, r.newBlob, r.contentLength, if r.contentType == "" then DEFAULT_TYPE else r.contentType,
           EncodeCRC32C(Crc(r.body.bytes)), r.metadata, env.now)
  }

  function NewSession(r: Request, env: Env, limits: Limits): Session
    requires r.CreateUpload? && r.initiate.Some? && r.initiate.value.partSize.Some?
  {
    var body := r.initiate.value;
    Session(r.newSession, body.bucket, body.key, r.newBlob, body.partSize.value,
            if body.contentType == "" then DEFAULT_TYPE else body.contentType,
            body.metadata, map[], env.now, env.now + limits.uploadTTL)
  }

  /** After a row change that displaced `prev`: remove its file if there was one, then answer. */
  function AfterRow(prev: Id, resp: Response): Pc {
    if prev != "" then Removing(prev, resp) else Ended(resp)
  }

  /** What a bucket lookup leads to. */
  function AfterLookup(b: Result<Bucket>): Pc {
    if b == Err(NotFound) then Ended(Refused(BucketNotFound)) else if b.Err? then Ended(Refused(Internal)) else Looked
  }

  // ---------- stable storage ----------

  /** A file is created on stable storage too. */
  function Make(s: Sys, b: Id, env: Env): Sys {
    var (files, id) := CreateFile(s.files, b, env.create);
    s.(files := files, disk := if id.Ok? then s.disk[b := []] else s.disk)
  }

  /** Only a sync takes what was written there. */
  function Flush(s: Sys, b: Id, env: Env): Sys {
    if SyncFile(s.files, b, env.sync).Ok? then s.(disk := s.disk[b := s.files[b]]) else s
  }

  /** What a crash may leave of a file: where stable storage has the byte that was last written the byte stays, and a file
      that is all there stays as it is; nothing else is certain. */
  predicate Survives(file: Bytes, stable: Bytes, left: Bytes) {
    && (forall i | 0 <= i < |file| && i < |stable| && file[i] == stable[i] :: i < |left| && left[i] == file[i])
    && (file == stable ==> left == file)
  }

  ghost predicate MayBeLeft(s: Sys, left: Files) {
    left.Keys == s.files.Keys && forall b | b in s.files && b in s.disk :: Survives(s.files[b], s.disk[b], left[b])
  }

  // ---------- one call of each handler ----------

  function PutObjectCall(s: Sys, r: Request, pc: Pc, env: Env): (Sys, Pc)
    requires r.PutObject?
  {
    var want := Declare(r.declared);
    match pc
    case Begin =>
      (s,
       if PutFault(env, r).Some? then Ended(Refused(PutFault(env, r).value))
       else AfterLookup(GetBucketRow(s.db, r.bucket, env.lookup)))
    case Looked =>
      (Make(s, r.newBlob, env), if CreateFile(s.files, r.newBlob, env.create).1.Err? then Ended(Refused(Internal)) else Made)
    case Made =>
      var (files, n) := WriteFile(s.files, r.newBlob, 0, r.body);
      (s.(files := files),
       if n == Err(UnexpectedEof) then Removing(r.newBlob, Refused(BodyLengthMismatch))
       else if n.Err? then Removing(r.newBlob, Refused(Internal))
       else if n.value != r.contentLength then Removing(r.newBlob, Refused(BodyLengthMismatch))
       else Wrote)
    case Wrote =>
      (Flush(s, r.newBlob, env),
       if SyncFile(s.files, r.newBlob, env.sync).Err? then Removing(r.newBlob, Refused(Internal))
       else if want.Want? && want.crc != Crc(r.body.bytes) then Removing(r.newBlob, Refused(ChecksumMismatch(None)))
       else Flushed)
    case Flushed =>
      var (db, prev) := PutObjectRow(s.db, PutRow(r, env), env.commit);
      if prev.Err? then (s.(db := db, orphans := s.orphans + {r.newBlob}), Ended(Refused(Internal)))
      else (s.(db := db), AfterRow(prev.value, ObjectRecord(PutRow(r, env))))
    case _ => (s, pc)
  }

  function CreateUploadCall(s: Sys, r: Request, pc: Pc, env: Env, limits: Limits): (Sys, Pc)
    requires r.CreateUpload?
  {
    match pc
    case Begin =>
      (s,
       if r.initiate.None? then Ended(Refused(InvalidParameter))
       else
         var body := r.initiate.value;
         if body.bucket in env.forbidden then Ended(Refused(Forbidden))
         else if !ValidBucketName(body.bucket) then Ended(Refused(InvalidBucketName))
         else if !ValidObjectKey(body.key) then Ended(Refused(InvalidKey))
         else if body.partSize.None? then Ended(Refused(InvalidParameter))
         else if body.partSize.value < limits.partSizeMin || body.partSize.value > limits.partSizeMax then
           Ended(Refused(InvalidPartSize))
         else AfterLookup(GetBucketRow(s.db, body.bucket, env.lookup)))
    case Looked =>
      (Make(s, r.newBlob, env), if CreateFile(s.files, r.newBlob, env.create).1.Err? then Ended(Refused(Internal)) else Made)
    case Made =>
      if r.initiate.None? || r.initiate.value.partSize.None? then (s, pc)
      else
        var sess := NewSession(r, env, limits);
        var (db, done) := InsertUpload(s.db, sess, env.commit);
        if done.Err? then (s.(db := db), Removing(r.newBlob, Refused(Internal)))
        else (s.(db := db, inserted := s.inserted + {r.newSession}, bySession := s.bySession + {r.newBlob}),
              Ended(SessionRecord(sess)))
    case _ => (s, pc)
  }

  function PutPartCall(s: Sys, r: Request, pc: Pc, env: Env, limits: Limits): (Sys, Pc)
    requires r.PutPart?
  {
    match pc
    case Begin =>
      var fault := PartFault(s.db, env, limits, r);
      (s, if fault.Some? then Ended(Refused(fault.value)) else Loaded(s.db.uploads[r.id]))
    case Loaded(sess) =>
      if r.number.None? || PartOffset(r.number.value, sess.partSize) < 0 then (s, pc)
      else
        var want := Declare(r.declared);
        var (files, n) := WriteFile(s.files, sess.blob, PartOffset(r.number.value, sess.partSize), r.body);
        (s.(files := files),
         if n == Err(UnexpectedEof) then Ended(Refused(BodyLengthMismatch))
         else if n.Err? then Ended(Refused(Internal))
         else if want.Want? && want.crc != Crc(r.body.bytes) then Ended(Refused(ChecksumMismatch(None)))
         else PartWrote(sess))
    case PartWrote(sess) =>
      (Flush(s, sess.blob, env), if SyncFile(s.files, sess.blob, env.sync).Err? then Ended(Refused(Internal)) else PartFlushed(sess))
    case PartFlushed(sess) =>
      if r.number.None? then (s, pc)
      else
        var wire := EncodeCRC32C(Crc(r.body.bytes));
        var (db, done) := PutPartRow(s.db, sess.id, r.number.value, Part(|r.body.bytes|, wire), env.commit);
        (s.(db := db),
         Ended(if done.Err? then Refused(Internal) else PartRecord(r.number.value, |r.body.bytes|, wire)))
    case _ => (s, pc)
  }

  /** The object complete records, from the session as it was read. */
  function CompletedRow(sess: Session, c: Completion, env: Env): Object
    requires c.parts >= 1 && (c.checksums.Some? ==> |c.checksums.value| == c.parts) && CompletionFault(sess, c).None?
  {
    MissingPartsEmpty(sess.parts, c.parts);
    var (acc, size) := Fold(sess.parts, c.parts).value;
    Object(sess.bucket, sess.key, sess.blob, size, sess.contentType, EncodeCRC32C(acc), sess.metadata, env.now)
  }

  function CompleteCall(s: Sys, r: Request, pc: Pc, env: Env): (Sys, Pc)
    requires r.CompleteUpload?
  {
    if r.completion.None? || r.completion.value.parts < 1
       || (r.completion.value.checksums.Some? && |r.completion.value.checksums.value| != r.completion.value.parts) then
      (s, Ended(Refused(InvalidParameter)))
    else
      var c := r.completion.value;
      match pc
      case Begin =>
        var fault := SessionFault(s.db, env, r.id);
        (s,
         if fault.Some? then Ended(Refused(fault.value))
         else if CompletionFault(s.db.uploads[r.id], c).Some? then Ended(Refused(CompletionFault(s.db.uploads[r.id], c).value))
         else Loaded(s.db.uploads[r.id]))
      case Loaded(sess) =>
        if CompletionFault(sess, c).Some? then (s, pc)
        else
          var o := CompletedRow(sess, c, env);
          var (db, prev) := CompleteUploadRow(s.db, sess.id, o, env.commit);
          (s.(db := db),
           if prev == Err(NotFound) then Ended(Refused(UploadNotFound))
           else if prev.Err? then Ended(Refused(Internal))
           else AfterRow(prev.value, ObjectRecord(o)))
      case _ => (s, pc)
  }

  function DeleteUploadCall(s: Sys, r: Request, pc: Pc, env: Env): (Sys, Pc)
    requires r.DeleteUpload?
  {
    match pc
    case Begin =>
      var fault := SessionFault(s.db, env, r.id);
      (s, if fault.Some? then Ended(Refused(fault.value)) else Loaded(s.db.uploads[r.id]))
    case Loaded(sess) =>
      var (db, gone) := DeleteUploadRow(s.db, sess.id, env.commit);
      (s.(db := db),
       if gone == Err(NotFound) then Ended(Refused(UploadNotFound))
       else if gone.Err? then Ended(Refused(Internal))
       else Removing(gone.value.blob, NoContent))
    case _ => (s, pc)
  }

  function DeleteObjectCall(s: Sys, r: Request, pc: Pc, env: Env): (Sys, Pc)
    requires r.DeleteObject?
  {
    match pc
    case Begin =>
      (s,
       if r.bucket in env.forbidden then Ended(Refused(Forbidden))
       else if !ValidBucketName(r.bucket) then Ended(Refused(InvalidBucketName))
       else if !ValidObjectKey(r.key) then Ended(Refused(InvalidKey))
       else AfterLookup(GetBucketRow(s.db, r.bucket, env.lookup)))
    case Looked =>
      var (db, blob) := DeleteObjectRow(s.db, r.bucket, r.key, env.commit);
      (s.(db := db),
       if blob == Err(NotFound) then Ended(Refused(ObjectNotFound))
       else if blob.Err? then Ended(Refused(Internal))
       else Removing(blob.value, NoContent))
    case _ => (s, pc)
  }

  function GetObjectCall(s: Sys, r: Request, pc: Pc, env: Env): Pc
    requires r.GetObject?
  {
    match pc
    case Begin =>
      if ReadFault(s.db, env, r.bucket).Some? then Ended(Refused(ReadFault(s.db, env, r.bucket).value))
      else if !ValidBucketName(r.bucket) then Ended(Refused(InvalidBucketName))
      else if !ValidObjectKey(r.key) then Ended(Refused(InvalidKey))
      else Looked
    case Looked =>
      var o := GetObjectRow(s.db, r.bucket, r.key, env.lookup);
      if o == Err(NotFound) then Ended(Refused(ObjectNotFound))
      else if o.Err? then Ended(Refused(Internal))
      else Found(o.value)
    case Found(o) => Ended(if o.blob in s.files then Content(o, s.files[o.blob]) else Refused(Internal))
    case _ => pc
  }

  function BucketCall(s: Sys, r: Request, pc: Pc, env: Env): (Sys, Pc)
    requires r.CreateBucket? || r.DeleteBucket?
  {
    match pc
    case Begin =>
      if r.CreateBucket? then
        var (w, resp) := CreateBucketStep(World(s.files, s.db), env, r.name, r.public);
        (s.(db := w.db), Ended(resp))
      else
        (s,
         if !ValidBucketName(r.name) then Ended(Refused(InvalidBucketName))
         else if !env.lookup then Ended(Refused(Internal))
         else if HoldsObjects(s.db, r.name) then Ended(Refused(BucketNotEmpty))
         else Listed)
    case Listed =>
      (s,
       if !env.count then Ended(Refused(Internal))
       else if HoldsUploads(s.db, r.name) then Ended(Refused(BucketNotEmpty))
       else Counted)
    case Counted =>
      var (db, gone) := DeleteBucketRow(s.db, r.name, env.commit);
      (s.(db := db),
       Ended(if gone == Err(NotFound) then Refused(BucketNotFound) else if gone.Err? then Refused(Internal) else NoContent))
    case _ => (s, pc)
  }

  /** A failed removal is logged and the file left for the sweep. */
  function RemoveCall(s: Sys, blob: Id, env: Env): Sys {
    var (files, done) := RemoveFile(s.files, blob, env.remove);
    s.(files := files, disk := RemoveFile(s.disk, blob, env.remove).0, orphans := if done.Err? then s.orphans + {blob} else s.orphans)
  }

  function Call(s: Sys, p: Proc, env: Env, limits: Limits): (Sys, Pc) {
    match p.pc
    case Ended(_) => (s, p.pc)
    case Removing(blob, resp) => (RemoveCall(s, blob, env), Ended(resp))
    case _ =>
      match p.req
      case PutObject(_, _, _, _, _, _, _, _) => PutObjectCall(s, p.req, p.pc, env)
      case CreateUpload(_, _, _) => CreateUploadCall(s, p.req, p.pc, env, limits)
      case PutPart(_, _, _, _, _) => PutPartCall(s, p.req, p.pc, env, limits)
      case CompleteUpload(_, _) => CompleteCall(s, p.req, p.pc, env)
      case DeleteUpload(_) => DeleteUploadCall(s, p.req, p.pc, env)
      case DeleteObject(_, _) => DeleteObjectCall(s, p.req, p.pc, env)
      case GetObject(_, _) => (s, GetObjectCall(s, p.req, p.pc, env))
      case CreateBucket(_, _) => BucketCall(s, p.req, p.pc, env)
      case DeleteBucket(_) => BucketCall(s, p.req, p.pc, env)
  }

  // ---------- runs ----------

  /** The ids a request will need, chosen at random when it arrives. */
  predicate FreshIds(s: Sys, r: Request) {
    match r
    case PutObject(_, _, _, _, _, _, _, blob) => blob != "" && blob !in s.blobs
    case CreateUpload(_, blob, session) => blob != "" && blob !in s.blobs && session !in s.sessions
    case _ => true
  }

  function NewBlobs(r: Request): set<Id> {
    if r.PutObject? || r.CreateUpload? then {r.newBlob} else {}
  }

  function NewSessions(r: Request): set<Id> {
    if r.CreateUpload? then {r.newSession} else {}
  }

  predicate Live(pc: Pc) {
    !pc.Ended? && !pc.Removing?
  }

  /** The one file a process answers for: the file it was given to create, until a row names it, or the one it is
      about to remove. */
  function Claim(p: Proc): Option<Id> {
    match p.pc
    case Ended(_) => None
    case Removing(blob, _) => Some(blob)
    case _ => if p.req.PutObject? || p.req.CreateUpload? then Some(p.req.newBlob) else None
  }

  function Snapshot(pc: Pc): Option<Session> {
    match pc
    case Loaded(sess) => Some(sess)
    case PartWrote(sess) => Some(sess)
    case PartFlushed(sess) => Some(sess)
    case _ => None
  }

  ghost predicate Claimed(procs: map<nat, Proc>, b: Id) {
    exists q :: q in procs && Claim(procs[q]) == Some(b)
  }

  /** Requests that breach admission (a reused process id or a stale id) do not happen. A crash loses every request
      in flight and what was written and not synced; the files they answered for are left behind. */
  ghost function Apply(s: Sys, e: Event, limits: Limits): Sys {
    match e
    case Start(pid, req) =>
      if pid in s.procs || !FreshIds(s, req) then s
      else s.(procs := s.procs[pid := Proc(req, Begin)],
              blobs := s.blobs + NewBlobs(req), sessions := s.sessions + NewSessions(req))
    case Advance(pid, env) =>
      if pid !in s.procs then s
      else
        var (s1, pc) := Call(s, s.procs[pid], env, limits);
        s1.(procs := s.procs[pid := Proc(s.procs[pid].req, pc)])
    case Crash(left) =>
      if !MayBeLeft(s, left) then s
      else s.(files := left, disk := left, procs := map[], orphans := s.orphans + set b | b in s.files && Claimed(s.procs, b))
  }

  ghost function Exec(s: Sys, limits: Limits, run: seq<Event>): Sys
    decreases |run|
  {
    if run == [] then s else Exec(Apply(s, run[0], limits), limits, run[1..])
  }

  // ---------- the invariant ----------

  ghost predicate ClaimOk(s: Sys, p: Proc) {
    Claim(p).Some? ==>
      var b := Claim(p).value;
      && b != "" && b in s.blobs && b !in s.orphans && Unowned(s.db, b)
      && (b in s.files <==> !p.pc.Begin? && !p.pc.Looked?)
  }

  /** Stable storage has all of the file. */
  predicate Stable(s: Sys, b: Id) {
    b in s.files && b in s.disk && s.disk[b] == s.files[b]
  }

  /** A PUT's own file belongs to no session and, once written, holds the body; once synced, stable storage does. */
  ghost predicate PutOk(s: Sys, p: Proc) {
    p.req.PutObject? && Live(p.pc) ==>
      && p.req.newBlob !in s.bySession
      && (p.pc.Wrote? || p.pc.Flushed? ==>
            p.req.newBlob in s.files && s.files[p.req.newBlob] == p.req.body.bytes
            && |p.req.body.bytes| == p.req.contentLength)
      && (p.pc.Flushed? ==> Stable(s, p.req.newBlob))
      && (p.pc.Made? ==> p.req.newBlob in s.files && s.files[p.req.newBlob] == [])
  }

  ghost predicate InitOk(s: Sys, p: Proc) {
    p.req.CreateUpload? && Live(p.pc) ==>
      p.req.newBlob !in s.bySession && p.req.newSession in s.sessions && p.req.newSession !in s.inserted
  }

  /** What was read of a session still holds for as long as the session exists. */
  ghost predicate SnapshotOk(s: Sys, p: Proc) {
    Snapshot(p.pc).Some? ==>
      var sess := Snapshot(p.pc).value;
      && sess.id in s.inserted && sess.blob in s.bySession
      && (sess.id in s.db.uploads ==>
            s.db.uploads[sess.id].blob == sess.blob && s.db.uploads[sess.id].bucket == sess.bucket)
  }

  ghost predicate ProcOk(s: Sys, p: Proc) {
    ClaimOk(s, p) && PutOk(s, p) && InitOk(s, p) && SnapshotOk(s, p)
  }

  ghost predicate UploadOk(s: Sys, id: Id) {
    id in s.db.uploads &&
    var u := s.db.uploads[id];
    u.id == id && id in s.inserted && u.blob in s.files && u.blob in s.bySession && u.bucket in s.db.buckets
  }

  /** A row's file exists; if no session was ever opened over it, the row describes the whole of it, and stable storage
      has it. */
  ghost predicate RowOk(s: Sys, at: (string, string)) {
    at in s.db.objects &&
    var o := s.db.objects[at];
    && o.blob in s.files && o.bucket in s.db.buckets && o.bucket == at.0
    && (o.blob !in s.bySession ==>
          Stable(s, o.blob) && o.size == |s.files[o.blob]| && o.checksum == EncodeCRC32C(Crc(s.files[o.blob])))
  }

  ghost predicate SharedOk(s: Sys) {
    && s.disk.Keys == s.files.Keys && s.files.Keys <= s.blobs && s.bySession <= s.blobs && s.orphans <= s.files.Keys && "" !in s.blobs
    && s.inserted <= s.sessions
    && Distinct(s.db)
    && (forall id | id in s.db.uploads :: UploadOk(s, id))
    && (forall at | at in s.db.objects :: RowOk(s, at))
    && (forall b | b in s.orphans :: Unowned(s.db, b))
  }

  /** No two processes answer for the same file or open the same session. */
  ghost predicate Apart(p: Proc, q: Proc) {
    && (Claim(p).Some? ==> Claim(q) != Claim(p))
    && (p.req.CreateUpload? && q.req.CreateUpload? && Live(p.pc) && Live(q.pc) ==> p.req.newSession != q.req.newSession)
  }

  /** Every file on disk is named by a row, answered for by a process, or given up on. */
  ghost predicate Accounted(s: Sys, b: Id) {
    b in s.orphans || !Unowned(s.db, b) || Claimed(s.procs, b)
  }

  ghost predicate Inv(s: Sys) {
    && SharedOk(s)
    && (forall q | q in s.procs :: ProcOk(s, s.procs[q]))
    && (forall p, q | p in s.procs && q in s.procs && p != q :: Apart(s.procs[p], s.procs[q]))
    && (forall b | b in s.files :: Accounted(s, b))
  }

  lemma BootOk()
    ensures Inv(BOOT)
  {
  }

  // ---------- what a call may do ----------

  /** Other processes are as sound as before when the files, rows and ids they depend on are. */
  lemma FrameProc(s: Sys, s': Sys, p: Proc)
    requires ProcOk(s, p)
    requires s.blobs <= s'.blobs && s.sessions <= s'.sessions && s.inserted <= s'.inserted && s.bySession <= s'.bySession
    requires Claim(p).Some? ==>
               var b := Claim(p).value;
               && b !in s'.orphans && Unowned(s'.db, b) && (b in s'.files <==> b in s.files)
               && (b in s.files ==> s'.files[b] == s.files[b]) && (Stable(s, b) ==> Stable(s', b))
               && (b in s'.bySession ==> b in s.bySession)
    requires p.req.CreateUpload? && Live(p.pc) ==> p.req.newSession in s'.inserted ==> p.req.newSession in s.inserted
    requires Snapshot(p.pc).Some? ==>
               var id := Snapshot(p.pc).value.id;
               id in s'.db.uploads ==>
                 id in s.db.uploads && s'.db.uploads[id].blob == s.db.uploads[id].blob
                 && s'.db.uploads[id].bucket == s.db.uploads[id].bucket
    ensures ProcOk(s', p)
  {
  }

  /** One call of one process, with its effect checked piece by piece. */
  lemma Advanced(s: Sys, pid: nat, s1: Sys, pc: Pc)
    requires Inv(s) && pid in s.procs && s1.procs == s.procs
    requires SharedOk(s1)
    requires forall q | q in s.procs && q != pid :: ProcOk(s1, s.procs[q])
    requires ProcOk(s1, Proc(s.procs[pid].req, pc))
    requires Live(pc) ==> Live(s.procs[pid].pc)
    requires Claim(Proc(s.procs[pid].req, pc)).Some? ==>
               forall q | q in s.procs && q != pid :: Claim(s.procs[q]) != Claim(Proc(s.procs[pid].req, pc))
    requires forall b | b in s1.files :: Accounted(s1.(procs := s.procs[pid := Proc(s.procs[pid].req, pc)]), b)
    ensures Inv(s1.(procs := s.procs[pid := Proc(s.procs[pid].req, pc)]))
  {
    hide UploadOk, RowOk, ClaimOk, PutOk, InitOk, SnapshotOk, Distinct, Unowned, Accounted;
    var p' := Proc(s.procs[pid].req, pc);
    var s' := s1.(procs := s.procs[pid := p']);
    assert SharedOk(s') by { SharedIgnoresProcs(s1, s'); }
    forall q | q in s'.procs
      ensures ProcOk(s', s'.procs[q])
    {
      assert ProcOk(s1, s'.procs[q]);
      ProcIgnoresProcs(s1, s', s'.procs[q]);
    }
    forall q | q in s.procs && q != pid
      ensures Apart(p', s.procs[q]) && Apart(s.procs[q], p')
    {
      assert Apart(s.procs[pid], s.procs[q]) && Apart(s.procs[q], s.procs[pid]);
    }
  }

  lemma ProcIgnoresProcs(s: Sys, s': Sys, p: Proc)
    requires ProcOk(s, p) && s' == s.(procs := s'.procs)
    ensures ProcOk(s', p)
  {
  }

  lemma SharedIgnoresProcs(s: Sys, s': Sys)
    requires SharedOk(s) && s' == s.(procs := s'.procs)
    ensures SharedOk(s')
  {
    hide Distinct, Unowned, Crc, EncodeCRC32C;
    forall id | id in s'.db.uploads
      ensures UploadOk(s', id)
    {
      assert UploadOk(s, id);
    }
    forall at | at in s'.db.objects
      ensures RowOk(s', at)
    {
      assert RowOk(s, at);
    }
  }

  /** A file accounted for by someone else is still accounted for after process pid moves. */
  lemma StillAccounted(s: Sys, pid: nat, s': Sys, p': Proc, b: Id)
    requires pid in s.procs && s'.procs == s.procs[pid := p'] && Accounted(s, b)
    requires b in s.orphans ==> b in s'.orphans
    requires !Unowned(s.db, b) ==> !Unowned(s'.db, b) || Claim(p') == Some(b)
    requires Claim(s.procs[pid]) == Some(b) ==> Claim(p') == Some(b) || !Unowned(s'.db, b) || b in s'.orphans
    ensures Accounted(s', b)
  {
    hide Unowned;
    if Claim(p') == Some(b) {
      assert s'.procs[pid] == p';
    } else if b !in s.orphans && Unowned(s.db, b) {
      var q :| q in s.procs && Claim(s.procs[q]) == Some(b);
      if q != pid {
        assert s'.procs[q] == s.procs[q];
      }
    }
  }

  lemma ClaimAccounts(s: Sys, pid: nat, b: Id)
    requires pid in s.procs && Claim(s.procs[pid]) == Some(b)
    ensures Accounted(s, b)
  {
  }

  /** A call that changes neither files nor rows. */
  lemma NothingChanged(s: Sys, pid: nat, pc: Pc)
    requires Inv(s) && pid in s.procs
    requires ProcOk(s, Proc(s.procs[pid].req, pc)) && (Live(pc) ==> Live(s.procs[pid].pc))
    requires var was := Claim(s.procs[pid]);
             Claim(Proc(s.procs[pid].req, pc)) == was
             || (Claim(Proc(s.procs[pid].req, pc)).None? && (was.Some? ==> was.value !in s.files))
    ensures Inv(s.(procs := s.procs[pid := Proc(s.procs[pid].req, pc)]))
  {
    hide SharedOk, ProcOk, Unowned, Accounted, Live;
    var p' := Proc(s.procs[pid].req, pc);
    var s' := s.(procs := s.procs[pid := p']);
    forall b | b in s.files
      ensures Accounted(s', b)
    {
      StillAccounted(s, pid, s', p', b);
    }
    forall q | q in s.procs && q != pid && Claim(p').Some?
      ensures Claim(s.procs[q]) != Claim(p')
    {
      assert Apart(s.procs[pid], s.procs[q]);
    }
    Advanced(s, pid, s, pc);
  }

  /** Only the bytes of one existing file change, and no other process or row depends on those bytes. */
  lemma FileChanged(s: Sys, pid: nat, b: Id, bytes: Bytes, pc: Pc)
    requires Inv(s) && pid in s.procs && b in s.files
    requires b in s.bySession || (Claim(s.procs[pid]) == Some(b) && Unowned(s.db, b))
    requires ProcOk(s.(files := s.files[b := bytes]), Proc(s.procs[pid].req, pc)) && (Live(pc) ==> Live(s.procs[pid].pc))
    requires Claim(Proc(s.procs[pid].req, pc)) == Claim(s.procs[pid])
    ensures Inv(s.(files := s.files[b := bytes], procs := s.procs[pid := Proc(s.procs[pid].req, pc)]))
  {
    hide Unowned, Accounted, Distinct, Live, SnapshotOk, UploadOk, RowOk, ProcOk;
    var p' := Proc(s.procs[pid].req, pc);
    var s1 := s.(files := s.files[b := bytes]);
    var s' := s1.(procs := s.procs[pid := p']);
    forall c | c in s1.files
      ensures Accounted(s', c)
    {
      StillAccounted(s, pid, s', p', c);
    }
    forall q | q in s.procs && q != pid
      ensures ProcOk(s1, s.procs[q]) && (Claim(p').Some? ==> Claim(s.procs[q]) != Claim(p'))
    {
      assert ProcOk(s, s.procs[q]) && Apart(s.procs[pid], s.procs[q]);
      BytesLeaveProc(s, b, bytes, s.procs[q]);
    }
    BytesLeaveShared(s, b, bytes);
    Advanced(s, pid, s1, pc);
  }

  lemma BytesLeaveProc(s: Sys, b: Id, bytes: Bytes, q: Proc)
    requires ProcOk(s, q) && b in s.files
    requires b in s.bySession || Claim(q) != Some(b)
    ensures ProcOk(s.(files := s.files[b := bytes]), q)
  {
    hide Unowned;
  }

  lemma BytesLeaveShared(s: Sys, b: Id, bytes: Bytes)
    requires SharedOk(s) && b in s.files && (b in s.bySession || Unowned(s.db, b))
    ensures SharedOk(s.(files := s.files[b := bytes]))
  {
    hide Distinct, Crc, EncodeCRC32C;
    var s1 := s.(files := s.files[b := bytes]);
    forall id | id in s1.db.uploads
      ensures UploadOk(s1, id)
    {
      assert UploadOk(s, id);
    }
    forall at | at in s1.db.objects
      ensures RowOk(s1, at)
    {
      assert RowOk(s, at);
    }
  }

  /** A sync: no file changes, and no process or row depends on stable storage lagging behind. */
  lemma FileSynced(s: Sys, pid: nat, b: Id, pc: Pc)
    requires Inv(s) && pid in s.procs && b in s.files
    requires ProcOk(s.(disk := s.disk[b := s.files[b]]), Proc(s.procs[pid].req, pc)) && (Live(pc) ==> Live(s.procs[pid].pc))
    requires Claim(Proc(s.procs[pid].req, pc)) == Claim(s.procs[pid])
    ensures Inv(s.(disk := s.disk[b := s.files[b]], procs := s.procs[pid := Proc(s.procs[pid].req, pc)]))
  {
    hide Unowned, Accounted, Distinct, Live, ClaimOk, PutOk, InitOk, SnapshotOk, UploadOk, RowOk, ProcOk;
    var p' := Proc(s.procs[pid].req, pc);
    var s1 := s.(disk := s.disk[b := s.files[b]]);
    var s' := s1.(procs := s.procs[pid := p']);
    forall c | c in s1.files
      ensures Accounted(s', c)
    {
      StillAccounted(s, pid, s', p', c);
    }
    forall q | q in s.procs && q != pid
      ensures ProcOk(s1, s.procs[q]) && (Claim(p').Some? ==> Claim(s.procs[q]) != Claim(p'))
    {
      assert ProcOk(s, s.procs[q]) && Apart(s.procs[pid], s.procs[q]);
      SyncLeavesProc(s, b, s.procs[q]);
    }
    SyncLeavesShared(s, b);
    Advanced(s, pid, s1, pc);
  }

  lemma SyncLeavesProc(s: Sys, b: Id, q: Proc)
    requires ProcOk(s, q) && b in s.files
    ensures ProcOk(s.(disk := s.disk[b := s.files[b]]), q)
  {
    hide Unowned;
  }

  lemma SyncLeavesShared(s: Sys, b: Id)
    requires SharedOk(s) && b in s.files
    ensures SharedOk(s.(disk := s.disk[b := s.files[b]]))
  {
    hide Distinct, Unowned, Crc, EncodeCRC32C;
    var s1 := s.(disk := s.disk[b := s.files[b]]);
    forall id | id in s1.db.uploads
      ensures UploadOk(s1, id)
    {
      assert UploadOk(s, id);
    }
    forall at | at in s1.db.objects
      ensures RowOk(s1, at)
    {
      assert RowOk(s, at);
    }
  }

  /** The process creates the file it was given. */
  lemma FileMade(s: Sys, pid: nat, pc: Pc)
    requires Inv(s) && pid in s.procs && pc == Made && Live(s.procs[pid].pc)
    requires Claim(s.procs[pid]).Some? && (s.procs[pid].pc.Begin? || s.procs[pid].pc.Looked?)
    ensures var b := Claim(s.procs[pid]).value;
            Inv(s.(files := s.files[b := []], disk := s.disk[b := []], procs := s.procs[pid := Proc(s.procs[pid].req, pc)]))
  {
    hide Unowned, Accounted, Distinct, UploadOk, RowOk;
    var p, b, p' := s.procs[pid], Claim(s.procs[pid]).value, Proc(s.procs[pid].req, pc);
    var s1 := s.(files := s.files[b := []], disk := s.disk[b := []]);
    var s' := s1.(procs := s.procs[pid := p']);
    assert ProcOk(s, p);
    forall c | c in s1.files
      ensures Accounted(s', c)
    {
      if c == b {
        ClaimAccounts(s', pid, b);
      } else {
        StillAccounted(s, pid, s', p', c);
      }
    }
    forall q | q in s.procs && q != pid
      ensures ProcOk(s1, s.procs[q]) && Claim(s.procs[q]) != Claim(p')
    {
      assert ProcOk(s, s.procs[q]) && Apart(p, s.procs[q]);
      FrameProc(s, s1, s.procs[q]);
    }
    NewFileLeavesShared(s, b);
    Advanced(s, pid, s1, pc);
  }

  lemma NewFileLeavesShared(s: Sys, b: Id)
    requires SharedOk(s) && b !in s.files && b in s.blobs
    ensures SharedOk(s.(files := s.files[b := []], disk := s.disk[b := []]))
  {
    hide Distinct, Crc, EncodeCRC32C, Unowned;
    var s1 := s.(files := s.files[b := []], disk := s.disk[b := []]);
    forall id | id in s1.db.uploads
      ensures UploadOk(s1, id)
    {
      assert UploadOk(s, id);
    }
    forall at | at in s1.db.objects
      ensures RowOk(s1, at)
    {
      assert RowOk(s, at);
    }
  }

  /** The last call of a process: its file goes, or stays behind as an orphan. */
  lemma FileRemoved(s: Sys, pid: nat, env: Env)
    requires Inv(s) && pid in s.procs && s.procs[pid].pc.Removing?
    ensures Inv(RemoveCall(s, s.procs[pid].pc.blob, env).(procs := s.procs[pid := Proc(s.procs[pid].req, Ended(s.procs[pid].pc.resp))]))
  {
    hide Unowned, Accounted, Distinct, UploadOk, RowOk;
    var p, b := s.procs[pid], s.procs[pid].pc.blob;
    var s1 := RemoveCall(s, b, env);
    var p' := Proc(p.req, Ended(p.pc.resp));
    var s' := s1.(procs := s.procs[pid := p']);
    assert ProcOk(s, p);
    forall c | c in s1.files
      ensures Accounted(s', c)
    {
      StillAccounted(s, pid, s', p', c);
    }
    forall q | q in s.procs && q != pid
      ensures ProcOk(s1, s.procs[q])
    {
      assert ProcOk(s, s.procs[q]) && Apart(p, s.procs[q]);
      FrameProc(s, s1, s.procs[q]);
    }
    RemovalLeavesShared(s, b, env);
    Advanced(s, pid, s1, Ended(p.pc.resp));
  }

  lemma RemovalLeavesShared(s: Sys, b: Id, env: Env)
    requires SharedOk(s) && b in s.files && b !in s.orphans && Unowned(s.db, b)
    ensures SharedOk(RemoveCall(s, b, env))
  {
    hide Distinct, Crc, EncodeCRC32C;
    var s1 := RemoveCall(s, b, env);
    forall id | id in s1.db.uploads
      ensures UploadOk(s1, id)
    {
      assert UploadOk(s, id);
    }
    forall at | at in s1.db.objects
      ensures RowOk(s1, at)
    {
      assert RowOk(s, at);
    }
  }

  // ---------- calls on the tables ----------

  /** A row change: what remains is that rows are sound, that no other process answers for a file now named or given
      up, and that what other processes have read still holds. */
  lemma RowsChanged(s: Sys, pid: nat, s1: Sys, pc: Pc)
    requires Inv(s) && pid in s.procs && !Live(pc) && Live(s.procs[pid].pc)
    requires s1.files == s.files && s1.disk == s.disk && s1.procs == s.procs && s1.blobs == s.blobs && s1.sessions == s.sessions
    requires s.inserted <= s1.inserted && s.bySession <= s1.bySession
    requires SharedOk(s1) && ProcOk(s1, Proc(s.procs[pid].req, pc))
    requires forall q | q in s.procs && q != pid && Claim(s.procs[q]).Some? ::
               var b := Claim(s.procs[q]).value;
               Unowned(s1.db, b) && b !in s1.orphans && (b in s1.bySession ==> b in s.bySession)
               && Claim(Proc(s.procs[pid].req, pc)) != Some(b)
    requires forall q | q in s.procs && q != pid && s.procs[q].req.CreateUpload? && Live(s.procs[q].pc) ::
               s.procs[q].req.newSession in s1.inserted ==> s.procs[q].req.newSession in s.inserted
    requires forall id | id in s.inserted && id in s1.db.uploads ::
               id in s.db.uploads && s1.db.uploads[id].blob == s.db.uploads[id].blob
               && s1.db.uploads[id].bucket == s.db.uploads[id].bucket
    requires forall b | b in s.files :: b in s.orphans ==> b in s1.orphans
    requires forall b | b in s.files && !Unowned(s.db, b) ::
               !Unowned(s1.db, b) || Claim(Proc(s.procs[pid].req, pc)) == Some(b)
    requires Claim(s.procs[pid]).Some? && Claim(s.procs[pid]).value in s.files ==>
               var b := Claim(s.procs[pid]).value;
               !Unowned(s1.db, b) || b in s1.orphans || Claim(Proc(s.procs[pid].req, pc)) == Some(b)
    ensures Inv(s1.(procs := s.procs[pid := Proc(s.procs[pid].req, pc)]))
  {
    hide SharedOk, ClaimOk, PutOk, InitOk, Unowned, Accounted, Apart;
    var p' := Proc(s.procs[pid].req, pc);
    var s' := s1.(procs := s.procs[pid := p']);
    forall c | c in s1.files
      ensures Accounted(s', c)
    {
      StillAccounted(s, pid, s', p', c);
    }
    forall q | q in s.procs && q != pid
      ensures ProcOk(s1, s.procs[q])
    {
      assert ProcOk(s, s.procs[q]);
      FrameProc(s, s1, s.procs[q]);
    }
    Advanced(s, pid, s1, pc);
  }

  lemma UpsertFacts(db: Db, o: Object)
    requires Distinct(db) && Unowned(db, o.blob) && Unowned(db, "") && o.bucket in db.buckets
    ensures var (db1, prev) := UpsertObject(db, o);
            && prev.Ok? && Distinct(db1) && !Unowned(db1, o.blob)
            && (prev.value != "" ==> Unowned(db1, prev.value) && !Unowned(db, prev.value))
            && (forall b | !Unowned(db, b) :: !Unowned(db1, b) || b == prev.value != "")
            && (forall b | Unowned(db, b) && b != o.blob :: Unowned(db1, b))
  {
    hide Distinct, Unowned;
    UpsertExchanges(db, o);
  }

  /** The row over `o.blob` replaces what was at its key; sound if the row describes the file or a session wrote it. */
  lemma UpsertLeavesShared(s: Sys, o: Object)
    requires SharedOk(s) && Unowned(s.db, o.blob) && o.blob in s.files && o.blob !in s.orphans && o.bucket in s.db.buckets
    requires o.blob !in s.bySession ==>
               Stable(s, o.blob) && o.size == |s.files[o.blob]| && o.checksum == EncodeCRC32C(Crc(s.files[o.blob]))
    ensures SharedOk(s.(db := UpsertObject(s.db, o).0))
  {
    hide Crc, EncodeCRC32C;
    EmptyIdUnowned(s);
    UpsertFacts(s.db, o);
    var s1 := s.(db := UpsertObject(s.db, o).0);
    hide Distinct, Unowned;
    forall id | id in s1.db.uploads
      ensures UploadOk(s1, id)
    {
      assert UploadOk(s, id);
    }
    forall at | at in s1.db.objects
      ensures RowOk(s1, at)
    {
      assert at != (o.bucket, o.key) ==> RowOk(s, at);
    }
  }

  lemma EmptyIdUnowned(s: Sys)
    requires SharedOk(s)
    ensures Unowned(s.db, "")
  {
    hide Distinct, Crc, EncodeCRC32C;
    forall id | id in s.db.uploads
      ensures s.db.uploads[id].blob != ""
    {
      assert UploadOk(s, id);
    }
    forall at | at in s.db.objects
      ensures s.db.objects[at].blob != ""
    {
      assert RowOk(s, at);
    }
  }

  lemma NamedFile(s: Sys, b: Id)
    requires SharedOk(s) && !Unowned(s.db, b)
    ensures b in s.files && b != "" && b !in s.orphans
  {
    hide Distinct, Crc, EncodeCRC32C;
    if id :| id in s.db.uploads && s.db.uploads[id].blob == b {
      assert UploadOk(s, id);
    } else {
      var at :| at in s.db.objects && s.db.objects[at].blob == b;
      assert RowOk(s, at);
    }
  }

  /** The processes other than pid, seen as the conditions RowsChanged asks of them. */
  lemma OthersClaims(s: Sys, pid: nat)
    requires Inv(s) && pid in s.procs
    ensures forall q | q in s.procs && q != pid && Claim(s.procs[q]).Some? ::
              var b := Claim(s.procs[q]).value;
              Unowned(s.db, b) && b !in s.orphans && b in s.blobs && Claim(s.procs[pid]) != Some(b)
    ensures forall q | q in s.procs && q != pid && s.procs[q].req.CreateUpload? && Live(s.procs[q].pc) ::
              s.procs[q].req.newSession !in s.inserted
              && (s.procs[pid].req.CreateUpload? && Live(s.procs[pid].pc) ==> s.procs[q].req.newSession != s.procs[pid].req.newSession)
  {
    hide SharedOk, Unowned, PutOk, SnapshotOk;
    forall q | q in s.procs && q != pid
      ensures ProcOk(s, s.procs[q]) && Apart(s.procs[pid], s.procs[q])
    {
    }
  }

  /** A PUT commits its row. */
  lemma PutCommits(s: Sys, pid: nat, env: Env)
    requires Inv(s) && pid in s.procs && s.procs[pid].req.PutObject? && s.procs[pid].pc.Flushed?
    requires s.procs[pid].req.bucket in s.db.buckets
    ensures var o := PutRow(s.procs[pid].req, env);
            var (db, prev) := UpsertObject(s.db, o);
            Inv(s.(db := db, procs := s.procs[pid := Proc(s.procs[pid].req, AfterRow(prev.value, ObjectRecord(o)))]))
  {
    hide Crc, EncodeCRC32C, Unowned, Distinct, Accounted, UploadOk, RowOk, Apart;
    var p, o := s.procs[pid], PutRow(s.procs[pid].req, env);
    var (db, prev) := UpsertObject(s.db, o);
    var s1 := s.(db := db);
    assert ProcOk(s, p);
    EmptyIdUnowned(s);
    UpsertFacts(s.db, o);
    UpsertLeavesShared(s, o);
    OthersClaims(s, pid);
    if prev.value != "" {
      NamedFile(s, prev.value);
    }
    RowsChanged(s, pid, s1, AfterRow(prev.value, ObjectRecord(o)));
  }

  /** A PUT whose row fails to commit gives its file up. */
  lemma PutFails(s: Sys, pid: nat, resp: Response)
    requires Inv(s) && pid in s.procs && s.procs[pid].req.PutObject? && s.procs[pid].pc.Flushed?
    ensures Inv(s.(orphans := s.orphans + {s.procs[pid].req.newBlob}, procs := s.procs[pid := Proc(s.procs[pid].req, Ended(resp))]))
  {
    hide Crc, EncodeCRC32C, Unowned, Distinct, Accounted, Apart;
    var s1 := s.(orphans := s.orphans + {s.procs[pid].req.newBlob});
    assert ProcOk(s, s.procs[pid]);
    OthersClaims(s, pid);
    forall id | id in s1.db.uploads
      ensures UploadOk(s1, id)
    {
      assert UploadOk(s, id);
    }
    forall at | at in s1.db.objects
      ensures RowOk(s1, at)
    {
      assert RowOk(s, at);
    }
    RowsChanged(s, pid, s1, Ended(resp));
  }

  /** Initiate commits its session over the file it created. */
  lemma SessionInserted(s: Sys, pid: nat, sess: Session, resp: Response)
    requires Inv(s) && pid in s.procs && s.procs[pid].req.CreateUpload? && s.procs[pid].pc.Made?
    requires sess.id == s.procs[pid].req.newSession && sess.blob == s.procs[pid].req.newBlob && sess.bucket in s.db.buckets
    ensures Inv(s.(db := s.db.(uploads := s.db.uploads[sess.id := sess]),
                   inserted := s.inserted + {sess.id}, bySession := s.bySession + {sess.blob},
                   procs := s.procs[pid := Proc(s.procs[pid].req, Ended(resp))]))
  {
    hide Crc, EncodeCRC32C, Accounted, Apart, PutOk, SnapshotOk;
    var s1 := s.(db := s.db.(uploads := s.db.uploads[sess.id := sess]),
                 inserted := s.inserted + {sess.id}, bySession := s.bySession + {sess.blob});
    assert ProcOk(s, s.procs[pid]);
    OthersClaims(s, pid);
    InsertExchanges(s.db, sess);
    InsertLeavesShared(s, sess);
    EndedOk(s1, s.procs[pid].req, resp);
    hide Unowned, Distinct, SharedOk, ProcOk;
    RowsChanged(s, pid, s1, Ended(resp));
  }

  lemma UploadsInserted(s: Sys)
    requires SharedOk(s)
    ensures s.db.uploads.Keys <= s.inserted
  {
    hide Distinct, Crc, EncodeCRC32C;
    forall id | id in s.db.uploads
      ensures id in s.inserted
    {
      assert UploadOk(s, id);
    }
  }

  lemma InsertLeavesShared(s: Sys, sess: Session)
    requires SharedOk(s) && sess.id !in s.inserted && sess.id in s.sessions && sess.bucket in s.db.buckets
    requires sess.blob in s.files && sess.blob !in s.orphans && Unowned(s.db, sess.blob)
    ensures sess.id !in s.db.uploads
    ensures SharedOk(s.(db := s.db.(uploads := s.db.uploads[sess.id := sess]),
                        inserted := s.inserted + {sess.id}, bySession := s.bySession + {sess.blob}))
  {
    hide Crc, EncodeCRC32C;
    UploadsInserted(s);
    var s1 := s.(db := s.db.(uploads := s.db.uploads[sess.id := sess]),
                 inserted := s.inserted + {sess.id}, bySession := s.bySession + {sess.blob});
    InsertExchanges(s.db, sess);
    forall id | id in s1.db.uploads
      ensures UploadOk(s1, id)
    {
      assert id != sess.id ==> UploadOk(s, id);
    }
    forall at | at in s1.db.objects
      ensures RowOk(s1, at)
    {
      assert RowOk(s, at);
    }
  }

  lemma PartLeavesShared(s: Sys, id: Id, parts: map<int, Part>)
    requires SharedOk(s) && id in s.db.uploads
    ensures SharedOk(s.(db := s.db.(uploads := s.db.uploads[id := s.db.uploads[id].(parts := parts)])))
  {
    hide Crc, EncodeCRC32C;
    var s1 := s.(db := s.db.(uploads := s.db.uploads[id := s.db.uploads[id].(parts := parts)]));
    SameBlobs(s.db, s1.db);
    hide Unowned, Distinct;
    forall u | u in s1.db.uploads
      ensures UploadOk(s1, u)
    {
      assert UploadOk(s, u);
    }
    forall at | at in s1.db.objects
      ensures RowOk(s1, at)
    {
      assert RowOk(s, at);
    }
  }

  /** A part is recorded in its session's row. */
  lemma PartRecorded(s: Sys, pid: nat, id: Id, parts: map<int, Part>, resp: Response)
    requires Inv(s) && pid in s.procs && s.procs[pid].req.PutPart? && Live(s.procs[pid].pc) && id in s.db.uploads
    ensures Inv(s.(db := s.db.(uploads := s.db.uploads[id := s.db.uploads[id].(parts := parts)]),
                   procs := s.procs[pid := Proc(s.procs[pid].req, Ended(resp))]))
  {
    hide Accounted, Apart, ProcOk, Unowned, Distinct, RowOk, UploadOk, Stable, Crc, EncodeCRC32C;
    var s1 := s.(db := s.db.(uploads := s.db.uploads[id := s.db.uploads[id].(parts := parts)]));
    OthersClaims(s, pid);
    SameBlobs(s.db, s1.db);
    PartLeavesShared(s, id, parts);
    EndedOk(s1, s.procs[pid].req, resp);
    hide SharedOk;
    RowsChanged(s, pid, s1, Ended(resp));
  }

  lemma EndedOk(s: Sys, r: Request, resp: Response)
    ensures ProcOk(s, Proc(r, Ended(resp)))
  {
  }

  lemma SameBlobs(db: Db, db1: Db)
    requires db1.objects == db.objects && db1.uploads.Keys == db.uploads.Keys
    requires forall u | u in db.uploads :: db1.uploads[u].blob == db.uploads[u].blob
    ensures Distinct(db) ==> Distinct(db1)
    ensures forall b :: Unowned(db1, b) <==> Unowned(db, b)
  {
  }

  lemma WithoutUpload(db: Db, id: Id)
    requires Distinct(db) && id in db.uploads
    ensures var db0 := db.(uploads := db.uploads - {id});
            && Distinct(db0) && Unowned(db0, db.uploads[id].blob) && !Unowned(db, db.uploads[id].blob)
            && (forall b | !Unowned(db, b) :: !Unowned(db0, b) || b == db.uploads[id].blob)
            && (forall b | Unowned(db, b) :: Unowned(db0, b))
  {
    hide Distinct;
    SessionRemovalExchanges(db, id);
  }

  lemma WithoutUploadShared(s: Sys, id: Id)
    requires SharedOk(s) && id in s.db.uploads
    ensures SharedOk(s.(db := s.db.(uploads := s.db.uploads - {id})))
  {
    hide Crc, EncodeCRC32C;
    WithoutUpload(s.db, id);
    var s1 := s.(db := s.db.(uploads := s.db.uploads - {id}));
    forall u | u in s1.db.uploads
      ensures UploadOk(s1, u)
    {
      assert UploadOk(s, u);
    }
    forall at | at in s1.db.objects
      ensures RowOk(s1, at)
    {
      assert RowOk(s, at);
    }
  }

  /** Complete commits: the session's file passes to the object row, in one transaction. */
  lemma CompleteCommits(s: Sys, pid: nat, o: Object)
    requires Inv(s) && pid in s.procs && s.procs[pid].req.CompleteUpload? && s.procs[pid].pc.Loaded?
    requires var sess := s.procs[pid].pc.s;
             sess.id in s.db.uploads && o.blob == sess.blob && o.bucket == sess.bucket
    ensures var db0 := s.db.(uploads := s.db.uploads - {s.procs[pid].pc.s.id});
            var (db, prev) := UpsertObject(db0, o);
            prev.Ok? && Inv(s.(db := db, procs := s.procs[pid := Proc(s.procs[pid].req, AfterRow(prev.value, ObjectRecord(o)))]))
  {
    hide Crc, EncodeCRC32C, Unowned, Distinct, Accounted, Apart, RowOk;
    var p, sess := s.procs[pid], s.procs[pid].pc.s;
    var s0 := s.(db := s.db.(uploads := s.db.uploads - {sess.id}));
    assert ProcOk(s, p) && UploadOk(s, sess.id);
    EmptyIdUnowned(s);
    WithoutUpload(s.db, sess.id);
    WithoutUploadShared(s, sess.id);
    EmptyIdUnowned(s0);
    assert o.blob !in s.orphans by { OwnedIsNoOrphan(s, sess.id); }
    UpsertFacts(s0.db, o);
    UpsertLeavesShared(s0, o);
    OthersClaims(s, pid);
    var (db, prev) := UpsertObject(s0.db, o);
    if prev.value != "" {
      NamedFile(s0, prev.value);
    }
    RowsChanged(s, pid, s.(db := db), AfterRow(prev.value, ObjectRecord(o)));
  }

  lemma OwnedIsNoOrphan(s: Sys, id: Id)
    requires SharedOk(s) && id in s.db.uploads
    ensures s.db.uploads[id].blob !in s.orphans && s.db.uploads[id].blob in s.files
  {
    hide Distinct, Crc, EncodeCRC32C;
    assert UploadOk(s, id);
  }

  /** Abort drops the session; its file is this process's to remove. */
  lemma SessionDeleted(s: Sys, pid: nat, id: Id, resp: Response)
    requires Inv(s) && pid in s.procs && s.procs[pid].req.DeleteUpload? && Live(s.procs[pid].pc) && id in s.db.uploads
    ensures Inv(s.(db := s.db.(uploads := s.db.uploads - {id}),
                   procs := s.procs[pid := Proc(s.procs[pid].req, Removing(s.db.uploads[id].blob, resp))]))
  {
    hide Accounted, Apart, ProcOk, Unowned, Distinct;
    var s1 := s.(db := s.db.(uploads := s.db.uploads - {id}));
    OthersClaims(s, pid);
    WithoutUpload(s.db, id);
    WithoutUploadShared(s, id);
    RemovingOk(s, s1, s.procs[pid].req, s.db.uploads[id].blob, resp);
    hide SharedOk;
    RowsChanged(s, pid, s1, Removing(s.db.uploads[id].blob, resp));
  }

  /** A file a row named until now may be claimed for removal. */
  lemma RemovingOk(s: Sys, s1: Sys, r: Request, b: Id, resp: Response)
    requires SharedOk(s) && !Unowned(s.db, b) && Unowned(s1.db, b)
    requires s1.files == s.files && s1.blobs == s.blobs && s1.orphans == s.orphans
    ensures ProcOk(s1, Proc(r, Removing(b, resp)))
  {
    NamedFile(s, b);
  }

  lemma WithoutObject(db: Db, at: (string, string))
    requires Distinct(db) && at in db.objects
    ensures var db0 := db.(objects := db.objects - {at});
            && Distinct(db0) && Unowned(db0, db.objects[at].blob) && !Unowned(db, db.objects[at].blob)
            && (forall b | !Unowned(db, b) :: !Unowned(db0, b) || b == db.objects[at].blob)
            && (forall b | Unowned(db, b) :: Unowned(db0, b))
  {
    hide Distinct;
    ObjectRemovalExchanges(db, at);
  }

  lemma WithoutObjectShared(s: Sys, at: (string, string))
    requires SharedOk(s) && at in s.db.objects
    ensures SharedOk(s.(db := s.db.(objects := s.db.objects - {at})))
  {
    hide Crc, EncodeCRC32C;
    WithoutObject(s.db, at);
    var s1 := s.(db := s.db.(objects := s.db.objects - {at}));
    hide Unowned, Distinct;
    forall u | u in s1.db.uploads
      ensures UploadOk(s1, u)
    {
      assert UploadOk(s, u);
    }
    forall k | k in s1.db.objects
      ensures RowOk(s1, k)
    {
      assert RowOk(s, k);
    }
  }

  /** DELETE drops the row; its file is this process's to remove. */
  lemma RowDeleted(s: Sys, pid: nat, at: (string, string), resp: Response)
    requires Inv(s) && pid in s.procs && s.procs[pid].req.DeleteObject? && Live(s.procs[pid].pc) && at in s.db.objects
    ensures Inv(s.(db := s.db.(objects := s.db.objects - {at}),
                   procs := s.procs[pid := Proc(s.procs[pid].req, Removing(s.db.objects[at].blob, resp))]))
  {
    hide Accounted, Apart, ProcOk, Unowned, Distinct;
    var s1 := s.(db := s.db.(objects := s.db.objects - {at}));
    OthersClaims(s, pid);
    WithoutObject(s.db, at);
    WithoutObjectShared(s, at);
    RemovingOk(s, s1, s.procs[pid].req, s.db.objects[at].blob, resp);
    hide SharedOk;
    RowsChanged(s, pid, s1, Removing(s.db.objects[at].blob, resp));
  }

  /** Buckets come, and go when no row names them. */
  lemma BucketsMoved(s: Sys, pid: nat, buckets: map<string, Bucket>, resp: Response)
    requires Inv(s) && pid in s.procs && (s.procs[pid].req.CreateBucket? || s.procs[pid].req.DeleteBucket?) && Live(s.procs[pid].pc)
    requires forall id | id in s.db.uploads :: s.db.uploads[id].bucket in buckets
    requires forall at | at in s.db.objects :: at.0 in buckets
    ensures Inv(s.(db := s.db.(buckets := buckets), procs := s.procs[pid := Proc(s.procs[pid].req, Ended(resp))]))
  {
    hide Accounted, Apart, ProcOk, Crc, EncodeCRC32C;
    var s1 := s.(db := s.db.(buckets := buckets));
    OthersClaims(s, pid);
    SameBlobs(s.db, s1.db);
    EndedOk(s1, s.procs[pid].req, resp);
    forall u | u in s1.db.uploads
      ensures UploadOk(s1, u)
    {
      assert UploadOk(s, u);
    }
    forall at | at in s1.db.objects
      ensures RowOk(s1, at)
    {
      assert RowOk(s, at);
    }
    hide Unowned, Distinct;
    RowsChanged(s, pid, s1, Ended(resp));
  }

  lemma RowBuckets(s: Sys)
    requires SharedOk(s)
    ensures forall id | id in s.db.uploads :: s.db.uploads[id].bucket in s.db.buckets
    ensures forall at | at in s.db.objects :: at.0 in s.db.buckets
  {
    hide Distinct, Crc, EncodeCRC32C;
    forall id | id in s.db.uploads
      ensures s.db.uploads[id].bucket in s.db.buckets
    {
      assert UploadOk(s, id);
    }
    forall at | at in s.db.objects
      ensures at.0 in s.db.buckets
    {
      assert RowOk(s, at);
    }
  }

  // ---------- every event keeps the invariant ----------

  ghost function Moved(s: Sys, pid: nat, env: Env, limits: Limits): Sys
    requires pid in s.procs
  {
    var (s1, pc) := Call(s, s.procs[pid], env, limits);
    s1.(procs := s.procs[pid := Proc(s.procs[pid].req, pc)])
  }

  lemma PutMoves(s: Sys, pid: nat, env: Env, limits: Limits)
    requires Inv(s) && pid in s.procs && s.procs[pid].req.PutObject? && Live(s.procs[pid].pc)
    ensures Inv(Moved(s, pid, env, limits))
  {
    hide Crc, EncodeCRC32C, Overlay, Declare, SharedOk, Unowned, Accounted, Apart, ValidBucketName, ValidObjectKey;
    var p, r := s.procs[pid], s.procs[pid].req;
    var (s1, pc) := PutObjectCall(s, r, p.pc, env);
    assert ProcOk(s, p);
    assert s.procs[pid := p] == s.procs;
    match p.pc {
      case Begin => NothingChanged(s, pid, pc);
      case Looked =>
        if pc.Made? {
          FileMade(s, pid, pc);
        } else {
          NothingChanged(s, pid, pc);
        }
      case Made =>
        WriteFromStart(r.body.bytes);
        assert s1.files == s.files[r.newBlob := r.body.bytes];
        FileChanged(s, pid, r.newBlob, r.body.bytes, pc);
      case Wrote =>
        if s1 == s {
          NothingChanged(s, pid, pc);
        } else {
          FileSynced(s, pid, r.newBlob, pc);
        }
      case Flushed =>
        if pc == Ended(Refused(Internal)) {
          PutFails(s, pid, Refused(Internal));
        } else {
          PutCommits(s, pid, env);
        }
      case _ =>
    }
  }

  lemma InitiateMoves(s: Sys, pid: nat, env: Env, limits: Limits)
    requires Inv(s) && pid in s.procs && s.procs[pid].req.CreateUpload? && Live(s.procs[pid].pc)
    ensures Inv(Moved(s, pid, env, limits))
  {
    hide SharedOk, Unowned, Accounted, Apart, ValidBucketName, ValidObjectKey;
    var p, r := s.procs[pid], s.procs[pid].req;
    var (s1, pc) := CreateUploadCall(s, r, p.pc, env, limits);
    assert ProcOk(s, p);
    assert s.procs[pid := p] == s.procs;
    match p.pc {
      case Begin => NothingChanged(s, pid, pc);
      case Looked =>
        if pc.Made? {
          FileMade(s, pid, pc);
        } else {
          NothingChanged(s, pid, pc);
        }
      case Made =>
        if pc.Ended? {
          SessionInserted(s, pid, NewSession(r, env, limits), pc.resp);
        } else if pc.Removing? {
          NothingChanged(s, pid, pc);
        }
      case _ =>
    }
  }

  lemma PartMoves(s: Sys, pid: nat, env: Env, limits: Limits)
    requires Inv(s) && pid in s.procs && s.procs[pid].req.PutPart? && Live(s.procs[pid].pc)
    ensures Inv(Moved(s, pid, env, limits))
  {
    hide Crc, EncodeCRC32C, Overlay, Declare, SharedOk, Unowned, Accounted, Apart, PartOffset, PartFault;
    var p, r := s.procs[pid], s.procs[pid].req;
    var (s1, pc) := PutPartCall(s, r, p.pc, env, limits);
    assert ProcOk(s, p);
    assert s.procs[pid := p] == s.procs;
    match p.pc {
      case Begin =>
        if pc.Loaded? {
          LoadedSessionOk(s, r, env, limits);
        }
        NothingChanged(s, pid, pc);
      case Loaded(sess) =>
        if r.number.Some? && PartOffset(r.number.value, sess.partSize) >= 0 {
          if sess.blob in s.files {
            FileChanged(s, pid, sess.blob, s1.files[sess.blob], pc);
          } else {
            NothingChanged(s, pid, pc);
          }
        }
      case PartWrote(sess) =>
        if s1 == s {
          NothingChanged(s, pid, pc);
        } else {
          FileSynced(s, pid, sess.blob, pc);
        }
      case PartFlushed(sess) =>
        if r.number.Some? {
          if s1.db != s.db {
            PartRecorded(s, pid, sess.id, s1.db.uploads[sess.id].parts, pc.resp);
          } else {
            NothingChanged(s, pid, pc);
          }
        }
      case _ =>
    }
  }

  lemma LoadedSessionOk(s: Sys, r: Request, env: Env, limits: Limits)
    requires SharedOk(s) && r.PutPart? && PartFault(s.db, env, limits, r).None?
    ensures r.id in s.db.uploads && UploadOk(s, r.id)
  {
    hide Distinct;
  }

  lemma CompleteRowShape(db: Db, id: Id, o: Object)
    requires id in db.uploads && o.bucket in db.buckets
    ensures CompleteUploadRow(db, id, o, true) == UpsertObject(db.(uploads := db.uploads - {id}), o)
  {
  }

  lemma CompleteMoves(s: Sys, pid: nat, env: Env, limits: Limits)
    requires Inv(s) && pid in s.procs && s.procs[pid].req.CompleteUpload? && Live(s.procs[pid].pc)
    ensures Inv(Moved(s, pid, env, limits))
  {
    hide EncodeCRC32C, Fold, CompletionFault, Unowned, Distinct, Accounted, Apart, RowOk, Stable, UpsertObject;
    var p, r := s.procs[pid], s.procs[pid].req;
    var (s1, pc) := CompleteCall(s, r, p.pc, env);
    assert ProcOk(s, p);
    assert s.procs[pid := p] == s.procs;
    match p.pc {
      case Loaded(sess) =>
        if s1.db == s.db {
          NothingChanged(s, pid, pc);
        } else {
          assert UploadOk(s, sess.id);
          var o := CompletedRow(sess, r.completion.value, env);
          CompleteRowShape(s.db, sess.id, o);
          CompleteCommits(s, pid, o);
        }
      case Begin =>
        if pc.Loaded? {
          assert UploadOk(s, r.id);
        }
        NothingChanged(s, pid, pc);
      case _ => NothingChanged(s, pid, pc);
    }
  }

  lemma DeleteMoves(s: Sys, pid: nat, env: Env, limits: Limits)
    requires Inv(s) && pid in s.procs && (s.procs[pid].req.DeleteUpload? || s.procs[pid].req.DeleteObject?) && Live(s.procs[pid].pc)
    ensures Inv(Moved(s, pid, env, limits))
  {
    hide Unowned, Distinct, Accounted, Apart, RowOk, ValidBucketName, ValidObjectKey;
    var p, r := s.procs[pid], s.procs[pid].req;
    var (s1, pc) := Call(s, p, env, limits);
    assert ProcOk(s, p);
    assert s.procs[pid := p] == s.procs;
    if r.DeleteUpload? {
      if p.pc.Begin? && pc.Loaded? {
        assert UploadOk(s, r.id);
      }
      if p.pc.Loaded? && pc.Removing? {
        SessionDeleted(s, pid, p.pc.s.id, NoContent);
      } else {
        NothingChanged(s, pid, pc);
      }
    } else {
      if p.pc.Looked? && pc.Removing? {
        RowDeleted(s, pid, (r.bucket, r.key), NoContent);
      } else {
        NothingChanged(s, pid, pc);
      }
    }
  }

  lemma OtherMoves(s: Sys, pid: nat, env: Env, limits: Limits)
    requires Inv(s) && pid in s.procs && Live(s.procs[pid].pc)
    requires s.procs[pid].req.GetObject? || s.procs[pid].req.CreateBucket? || s.procs[pid].req.DeleteBucket?
    ensures Inv(Moved(s, pid, env, limits))
  {
    hide Unowned, Distinct, Accounted, Apart, RowOk, UploadOk, ValidBucketName, ValidObjectKey, Stable, ReadFault, PutObjectCall,
      CreateUploadCall, PutPartCall, CompleteCall, DeleteUploadCall, DeleteObjectCall;
    var p, r := s.procs[pid], s.procs[pid].req;
    var (s1, pc) := Call(s, p, env, limits);
    assert ProcOk(s, p);
    assert s.procs[pid := p] == s.procs;
    RowBuckets(s);
    if s1.db == s.db {
      NothingChanged(s, pid, pc);
    } else {
      BucketsMoved(s, pid, s1.db.buckets, pc.resp);
    }
  }

  lemma AdvanceKeeps(s: Sys, pid: nat, env: Env, limits: Limits)
    requires Inv(s) && pid in s.procs
    ensures Inv(Moved(s, pid, env, limits))
  {
    hide Inv, PutObjectCall, CreateUploadCall, PutPartCall, CompleteCall, DeleteUploadCall, DeleteObjectCall, GetObjectCall, BucketCall;
    var p := s.procs[pid];
    assert s.procs[pid := p] == s.procs;
    if p.pc.Removing? {
      FileRemoved(s, pid, env);
    } else if p.pc.Ended? {
    } else {
      match p.req {
        case PutObject(_, _, _, _, _, _, _, _) => PutMoves(s, pid, env, limits);
        case CreateUpload(_, _, _) => InitiateMoves(s, pid, env, limits);
        case PutPart(_, _, _, _, _) => PartMoves(s, pid, env, limits);
        case CompleteUpload(_, _) => CompleteMoves(s, pid, env, limits);
        case DeleteUpload(_) => DeleteMoves(s, pid, env, limits);
        case DeleteObject(_, _) => DeleteMoves(s, pid, env, limits);
        case GetObject(_, _) => OtherMoves(s, pid, env, limits);
        case CreateBucket(_, _) => OtherMoves(s, pid, env, limits);
        case DeleteBucket(_) => OtherMoves(s, pid, env, limits);
      }
    }
  }

  /** A request arrives with fresh ids. */
  lemma StartKeeps(s: Sys, pid: nat, req: Request)
    requires Inv(s) && pid !in s.procs && FreshIds(s, req)
    ensures Inv(s.(procs := s.procs[pid := Proc(req, Begin)], blobs := s.blobs + NewBlobs(req), sessions := s.sessions + NewSessions(req)))
  {
    hide Accounted, Distinct, Unowned, Crc, EncodeCRC32C;
    var s' := s.(procs := s.procs[pid := Proc(req, Begin)], blobs := s.blobs + NewBlobs(req), sessions := s.sessions + NewSessions(req));
    ArrivalLeavesShared(s, s');
    hide SharedOk;
    forall q | q in s'.procs
      ensures ProcOk(s', s'.procs[q])
    {
      if q == pid {
        ArrivedOk(s, s', req);
      } else {
        assert ProcOk(s, s.procs[q]);
        FrameProc(s, s', s.procs[q]);
      }
    }
    forall q | q in s.procs
      ensures Apart(s'.procs[pid], s.procs[q]) && Apart(s.procs[q], s'.procs[pid])
    {
      assert ProcOk(s, s.procs[q]);
    }
    forall b | b in s'.files
      ensures Accounted(s', b)
    {
      ArrivalAccounts(s, s', pid, b);
    }
  }

  lemma ArrivalAccounts(s: Sys, s': Sys, pid: nat, b: Id)
    requires Accounted(s, b) && pid !in s.procs && pid in s'.procs && s'.procs == s.procs[pid := s'.procs[pid]]
    requires s'.db == s.db && s'.orphans == s.orphans
    ensures Accounted(s', b)
  {
    hide Unowned;
    if b !in s.orphans && Unowned(s.db, b) {
      var q :| q in s.procs && Claim(s.procs[q]) == Some(b);
      assert s'.procs[q] == s.procs[q];
    }
  }

  lemma ArrivedOk(s: Sys, s': Sys, req: Request)
    requires SharedOk(s) && FreshIds(s, req)
    requires s' == s.(procs := s'.procs, blobs := s.blobs + NewBlobs(req), sessions := s.sessions + NewSessions(req))
    ensures ProcOk(s', Proc(req, Begin))
  {
    hide Distinct, Crc, EncodeCRC32C;
    if req.PutObject? || req.CreateUpload? {
      if !Unowned(s.db, req.newBlob) {
        NamedFile(s, req.newBlob);
      }
    }
  }

  lemma ArrivalLeavesShared(s: Sys, s': Sys)
    requires SharedOk(s) && s' == s.(procs := s'.procs, blobs := s'.blobs, sessions := s'.sessions)
    requires s.blobs <= s'.blobs && s.sessions <= s'.sessions && "" !in s'.blobs
    ensures SharedOk(s')
  {
    hide Distinct, Unowned, Crc, EncodeCRC32C;
    forall u | u in s'.db.uploads
      ensures UploadOk(s', u)
    {
      assert UploadOk(s, u);
    }
    forall k | k in s'.db.objects
      ensures RowOk(s', k)
    {
      assert RowOk(s, k);
    }
  }

  /** A crash between any two calls leaves every row sound; what was in flight becomes orphans. */
  lemma CrashKeeps(s: Sys, left: Files, limits: Limits)
    requires Inv(s) && MayBeLeft(s, left)
    ensures Inv(Apply(s, Crash(left), limits))
  {
    hide Distinct, Unowned, Crc, EncodeCRC32C;
    var s' := Apply(s, Crash(left), limits);
    forall u | u in s'.db.uploads
      ensures UploadOk(s', u)
    {
      assert UploadOk(s, u);
    }
    forall k | k in s'.db.objects
      ensures RowOk(s', k)
    {
      assert RowOk(s, k);
    }
    forall b | b in s'.orphans
      ensures Unowned(s'.db, b) && b in s.files
    {
      if b !in s.orphans {
        var q :| q in s.procs && Claim(s.procs[q]) == Some(b);
        assert ProcOk(s, s.procs[q]);
      }
    }
    forall b | b in s'.files
      ensures Accounted(s', b)
    {
      assert Accounted(s, b);
    }
  }

  lemma ApplyKeeps(s: Sys, e: Event, limits: Limits)
    requires Inv(s)
    ensures Inv(Apply(s, e, limits))
  {
    hide Inv, Call;
    match e {
      case Start(pid, req) =>
        if pid !in s.procs && FreshIds(s, req) {
          StartKeeps(s, pid, req);
        }
      case Advance(pid, env) =>
        if pid in s.procs {
          AdvanceKeeps(s, pid, env, limits);
        }
      case Crash(left) =>
        if MayBeLeft(s, left) {
          CrashKeeps(s, left, limits);
        }
    }
  }

  lemma {:induction false} ExecKeeps(s: Sys, limits: Limits, run: seq<Event>)
    requires Inv(s)
    ensures Inv(Exec(s, limits, run))
    decreases |run|
  {
    hide Inv, Apply;
    if run != [] {
      ApplyKeeps(s, run[0], limits);
      ExecKeeps(Apply(s, run[0], limits), limits, run[1..]);
    }
  }
}
