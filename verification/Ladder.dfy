/** The error table and the ladder: spec/errors.json gives every code a condition and a stage, section 2 of spec/wire.md
    promises that the first stage that fails answers. Here: a request is refused exactly if one of the conditions holds,
    with a code whose condition does; and for which requests an earlier stage's code was due. */
module Ladder {
  import opened Wrappers
  import opened Stores
  import opened Crc32c
  import opened Checksum
  import opened Handlers
  import opened Multipart
  import Runs

  // ---------- the conditions ----------

  predicate BadKey(key: string) {
    key == "" || |key| > 1024 || '\0' in key
  }

  /** The declared checksum, wherever it stands. */
  function Given(d: Declared): string {
    if d.header != "" then d.header else d.param
  }

  predicate GivenTwice(d: Declared) {
    d.queryOk && d.header != "" && d.param != ""
  }

  predicate GivenBadly(d: Declared) {
    d.queryOk && !(d.header != "" && d.param != "") && Given(d) != "" && ParseChecksum(Given(d)).Err?
  }

  /** The body arrived whole and its checksum is not the one declared. */
  predicate GivenOther(d: Declared, body: Stream) {
    && d.queryOk && !(d.header != "" && d.param != "") && Given(d) != "" && body.ending.Done?
    && ParseChecksum(Given(d)).Ok? && ParseChecksum(Given(d)).value != Crc(body.bytes)
  }

  ghost predicate CreateBucketHolds(f: Fault, w: World, env: Env, name: string, public: Option<bool>) {
    match f
    case InvalidBucketName => !NamingRule(name)
    case InvalidParameter => public.None?
    case BucketExists => name in w.db.buckets
    case Internal => !env.commit
    case _ => false
  }

  ghost predicate DeleteBucketHolds(f: Fault, w: World, env: Env, name: string) {
    match f
    case InvalidBucketName => !NamingRule(name)
    case BucketNotEmpty => HoldsObjects(w.db, name) || HoldsUploads(w.db, name)
    case BucketNotFound => name !in w.db.buckets
    case Internal => !env.lookup || !env.count || !env.commit
    case _ => false
  }

  ghost predicate PutObjectHolds(f: Fault, w: World, env: Env, r: Request)
    requires r.PutObject?
  {
    match f
    case Forbidden => r.bucket in env.forbidden
    case InvalidBucketName => !NamingRule(r.bucket)
    case InvalidKey => BadKey(r.key)
    case MalformedRequest => r.contentLength < 0 || GivenTwice(r.declared)
    case InvalidParameter => GivenBadly(r.declared)
    case BodyTooLarge => r.contentLength > 100 * 1024 * 1024
    case BodyLengthMismatch => r.body.ending.Truncated?
    case ChecksumMismatch(part) => part.None? && GivenOther(r.declared, r.body)
    case BucketNotFound => r.bucket !in w.db.buckets
    case Internal => !r.declared.queryOk || !env.lookup || !env.create || r.body.ending.Broken? || !env.sync || !env.commit
    case _ => false
  }

  /** No access to the bucket, and it is not one that anyone may read. */
  predicate NoRead(w: World, env: Env, bucket: string) {
    bucket in env.forbidden && !(bucket in w.db.buckets && w.db.buckets[bucket].public)
  }

  ghost predicate GetObjectHolds(f: Fault, w: World, env: Env, bucket: string, key: string) {
    match f
    case Forbidden => NoRead(w, env, bucket)
    case InvalidBucketName => !NamingRule(bucket)
    case InvalidKey => BadKey(key)
    case BucketNotFound => bucket !in w.db.buckets
    case ObjectNotFound => (bucket, key) !in w.db.objects
    case Internal => !env.lookup
    case _ => false
  }

  ghost predicate DeleteObjectHolds(f: Fault, w: World, env: Env, bucket: string, key: string) {
    match f
    case Forbidden => bucket in env.forbidden
    case InvalidBucketName => !NamingRule(bucket)
    case InvalidKey => BadKey(key)
    case BucketNotFound => bucket !in w.db.buckets
    case ObjectNotFound => (bucket, key) !in w.db.objects
    case Internal => !env.lookup || !env.commit
    case _ => false
  }

  ghost predicate CreateUploadHolds(f: Fault, w: World, env: Env, limits: Limits, initiate: Option<Initiate>) {
    match f
    case InvalidParameter => initiate.None? || initiate.value.partSize.None?
    case Forbidden => initiate.Some? && initiate.value.bucket in env.forbidden
    case InvalidBucketName => initiate.Some? && !NamingRule(initiate.value.bucket)
    case InvalidKey => initiate.Some? && BadKey(initiate.value.key)
    case InvalidPartSize =>
      initiate.Some? && initiate.value.partSize.Some?
      && !(limits.partSizeMin <= initiate.value.partSize.value <= limits.partSizeMax)
    case BucketNotFound => initiate.Some? && initiate.value.bucket !in w.db.buckets
    case Internal => !env.lookup || !env.create || !env.commit
    case _ => false
  }

  predicate SessionForbidden(w: World, env: Env, id: Id) {
    id in w.db.uploads && w.db.uploads[id].bucket in env.forbidden
  }

  predicate SessionExpired(w: World, env: Env, id: Id) {
    id in w.db.uploads && env.now > w.db.uploads[id].expiresAt
  }

  predicate BadNumber(limits: Limits, number: Option<int>) {
    number.None? || !(1 <= number.value <= limits.maxParts)
  }

  ghost predicate PutPartHolds(f: Fault, w: World, env: Env, limits: Limits, r: Request)
    requires r.PutPart?
  {
    match f
    case InvalidPartNumber => BadNumber(limits, r.number)
    case Forbidden => SessionForbidden(w, env, r.id)
    case SessionNotActive => SessionExpired(w, env, r.id)
    case MalformedRequest => r.contentLength == -1 || GivenTwice(r.declared)
    case InvalidParameter => r.contentLength == 0 || GivenBadly(r.declared)
    case BodyTooLarge => r.id in w.db.uploads && r.contentLength > w.db.uploads[r.id].partSize
    case BodyLengthMismatch => r.body.ending.Truncated?
    case ChecksumMismatch(part) => part.None? && GivenOther(r.declared, r.body)
    case UploadNotFound => r.id !in w.db.uploads
    case Internal => !r.declared.queryOk || !env.lookup || r.body.ending.Broken? || !env.sync || !env.commit
    case _ => false
  }

  ghost predicate DeleteUploadHolds(f: Fault, w: World, env: Env, id: Id) {
    match f
    case Forbidden => SessionForbidden(w, env, id)
    case SessionNotActive => SessionExpired(w, env, id)
    case UploadNotFound => id !in w.db.uploads
    case Internal => !env.lookup || !env.commit
    case _ => false
  }

  predicate BadCompletion(completion: Option<Completion>) {
    completion.None? || completion.value.parts < 1
    || (completion.value.checksums.Some? && |completion.value.checksums.value| != completion.value.parts)
  }

  ghost predicate CompleteHolds(f: Fault, w: World, env: Env, id: Id, completion: Option<Completion>) {
    match f
    case InvalidParameter => BadCompletion(completion)
    case Forbidden => SessionForbidden(w, env, id)
    case SessionNotActive => SessionExpired(w, env, id)
    case UploadNotFound => id !in w.db.uploads
    case UploadIncomplete(missing) =>
      !BadCompletion(completion) && id in w.db.uploads && missing != []
      && ListsUnrecorded(w.db.uploads[id], completion.value, missing)
    case PartSizeMismatch(at) =>
      !BadCompletion(completion) && id in w.db.uploads && FirstShort(w.db.uploads[id], completion.value, at)
    case ChecksumMismatch(part) =>
      !BadCompletion(completion) && id in w.db.uploads && part.Some?
      && FirstDisputed(w.db.uploads[id], completion.value, part.value)
    case Internal => !env.lookup || !env.commit
    case _ => false
  }

  /** The condition the error table gives for a code, of a request in a state. */
  ghost predicate Holds(f: Fault, w: World, env: Env, limits: Limits, r: Request) {
    match r
    case CreateBucket(name, public) => CreateBucketHolds(f, w, env, name, public)
    case DeleteBucket(name) => DeleteBucketHolds(f, w, env, name)
    case PutObject(_, _, _, _, _, _, _, _) => PutObjectHolds(f, w, env, r)
    case GetObject(bucket, key) => GetObjectHolds(f, w, env, bucket, key)
    case DeleteObject(bucket, key) => DeleteObjectHolds(f, w, env, bucket, key)
    case CreateUpload(initiate, _, _) => CreateUploadHolds(f, w, env, limits, initiate)
    case PutPart(_, _, _, _, _) => PutPartHolds(f, w, env, limits, r)
    case DeleteUpload(id) => DeleteUploadHolds(f, w, env, id)
    case CompleteUpload(id, completion) => CompleteHolds(f, w, env, id, completion)
  }

  // ---------- what is answered ----------

  /** A code is answered only where its condition holds, and where none holds the request is served. */
  ghost predicate Justified(resp: Response, w: World, env: Env, limits: Limits, r: Request) {
    if resp.Refused? then Holds(resp.fault, w, env, limits, r) else forall f :: !Holds(f, w, env, limits, r)
  }

  lemma KeyRule(key: string)
    ensures ValidObjectKey(key) <==> !BadKey(key)
  {
  }

  lemma DeclaredRule(d: Declared, body: Stream)
    ensures DeclarationFault(Declare(d)).Some? <==> !d.queryOk || GivenTwice(d) || GivenBadly(d)
    ensures DeclarationFault(Declare(d)) == Some(Internal) <==> !d.queryOk
    ensures DeclarationFault(Declare(d)) == Some(MalformedRequest) <==> GivenTwice(d)
    ensures DeclarationFault(Declare(d)) == Some(InvalidParameter) <==> GivenBadly(d)
    ensures GivenOther(d, body) ==> body.ending.Done?
    ensures body.ending.Done? ==> (Declare(d).Want? && Declare(d).crc != Crc(body.bytes) <==> GivenOther(d, body))
  {
    hide ParseChecksum, Crc;
  }

  lemma BucketAnswers(w: World, h: History, env: Env, limits: Limits, r: Request)
    requires Inv(w, h) && (r.CreateBucket? || r.DeleteBucket?)
    ensures Justified(Serve(w, env, limits, r).1, w, env, limits, r)
  {
    hide SessionOk, ObjectOk, Distinct, NamingRule, ValidBucketName, HoldsObjects, HoldsUploads;
    ValidBucketNameExact(r.name);
  }

  lemma PutObjectAnswers(w: World, h: History, env: Env, limits: Limits, r: Request)
    requires Inv(w, h) && r.PutObject? && Admissible(h, r)
    ensures Justified(PutObjectStep(w, env, r).1, w, env, limits, r)
  {
    hide SessionOk, ObjectOk, Distinct, NamingRule, ValidBucketName, ValidObjectKey, BadKey, Declare, DeclarationFault, GivenTwice,
      GivenBadly, GivenOther, Crc, EncodeCRC32C, Overlay;
    ValidBucketNameExact(r.bucket);
    KeyRule(r.key);
    DeclaredRule(r.declared, r.body);
  }

  lemma ObjectAnswers(w: World, h: History, env: Env, limits: Limits, r: Request)
    requires Inv(w, h) && (r.GetObject? || r.DeleteObject?)
    ensures Justified(Serve(w, env, limits, r).1, w, env, limits, r)
  {
    hide SessionOk, Distinct, NamingRule, ValidBucketName, ValidObjectKey, BadKey, Crc, EncodeCRC32C;
    ValidBucketNameExact(r.bucket);
    KeyRule(r.key);
    if (r.bucket, r.key) in w.db.objects {
      assert ObjectOk(w, h, (r.bucket, r.key));
    }
  }

  lemma CreateUploadAnswers(w: World, h: History, env: Env, limits: Limits, r: Request)
    requires Inv(w, h) && r.CreateUpload? && Admissible(h, r)
    ensures Justified(CreateUploadStep(w, env, limits, r).1, w, env, limits, r)
  {
    hide PartsOk, ObjectOk, Distinct, NamingRule, ValidBucketName, ValidObjectKey, BadKey;
    if r.initiate.Some? {
      ValidBucketNameExact(r.initiate.value.bucket);
      KeyRule(r.initiate.value.key);
    }
    Runs.KnownSessions(w, h);
  }

  /** The conditions that are checked before a byte is written. */
  ghost predicate Early(f: Fault, w: World, env: Env, limits: Limits, r: Request)
    requires r.PutPart?
  {
    match f
    case InvalidPartNumber => true
    case Forbidden => true
    case SessionNotActive => true
    case MalformedRequest => true
    case InvalidParameter => true
    case BodyTooLarge => true
    case UploadNotFound => true
    case Internal => !r.declared.queryOk || !env.lookup
    case _ => false
  }

  lemma PartRefusedEarly(w: World, h: History, env: Env, limits: Limits, r: Request)
    requires Inv(w, h) && r.PutPart? && Admissible(h, r)
    ensures var fault := PartFault(w.db, env, limits, r);
            if fault.Some? then PutPartHolds(fault.value, w, env, limits, r)
            else forall f :: Early(f, w, env, limits, r) ==> f.Internal? || !PutPartHolds(f, w, env, limits, r)
    ensures PartFault(w.db, env, limits, r).None? ==> r.declared.queryOk && env.lookup
  {
    hide PartsOk, ObjectOk, Distinct, Declare, DeclarationFault, GivenTwice, GivenBadly, GivenOther, Crc, EncodeCRC32C, PartOffset;
    DeclaredRule(r.declared, r.body);
    if r.id in w.db.uploads {
      assert SessionOk(w, h, r.id);
      if r.number.Some? && r.number.value >= 1 {
        SlotStart(r.number.value, w.db.uploads[r.id].partSize);
      }
    }
  }

  lemma PartRefusedLate(w: World, h: History, env: Env, limits: Limits, r: Request)
    requires Inv(w, h) && r.PutPart? && Admissible(h, r) && PartFault(w.db, env, limits, r).None?
    requires r.declared.queryOk && env.lookup
    ensures var resp := PutPartStep(w, env, limits, r).1;
            if resp.Refused? then PutPartHolds(resp.fault, w, env, limits, r)
            else forall f :: PutPartHolds(f, w, env, limits, r) ==> Early(f, w, env, limits, r) && !f.Internal?
  {
    hide PartsOk, ObjectOk, Distinct, Declare, GivenTwice, GivenBadly, GivenOther, Crc, EncodeCRC32C, Overlay, PartOffset, PartFault;
    DeclaredRule(r.declared, r.body);
    Runs.LoadedSession(w.db, env, limits, r);
    assert SessionOk(w, h, r.id);
    PartIsInside(w, h, env, limits, r);
  }

  lemma PartIsInside(w: World, h: History, env: Env, limits: Limits, r: Request)
    requires r.PutPart? && PartFault(w.db, env, limits, r).None?
    ensures PartOffset(r.number.value, w.db.uploads[r.id].partSize) >= 0
  {
    hide PartOffset;
  }

  lemma PutPartAnswers(w: World, h: History, env: Env, limits: Limits, r: Request)
    requires Inv(w, h) && r.PutPart? && Admissible(h, r)
    ensures Justified(PutPartStep(w, env, limits, r).1, w, env, limits, r)
  {
    hide Inv, PartFault, PutPartHolds, Early;
    PartRefusedEarly(w, h, env, limits, r);
    if PartFault(w.db, env, limits, r).None? {
      PartRefusedLate(w, h, env, limits, r);
      hide PutPartStep;
    }
  }

  lemma DeleteUploadAnswers(w: World, h: History, env: Env, limits: Limits, r: Request)
    requires Inv(w, h) && r.DeleteUpload?
    ensures Justified(Serve(w, env, limits, r).1, w, env, limits, r)
  {
    hide PartsOk, ObjectOk, Distinct;
    if r.id in w.db.uploads {
      assert SessionOk(w, h, r.id);
    }
  }

  lemma CompleteCases(w: World, env: Env, id: Id, completion: Option<Completion>)
    requires id in w.db.uploads ==> w.db.uploads[id].id == id && w.db.uploads[id].bucket in w.db.buckets
    ensures var resp := CompleteUploadStep(w, env, id, completion).1;
            if BadCompletion(completion) then resp == Refused(InvalidParameter)
            else if SessionFault(w.db, env, id).Some? then resp == Refused(SessionFault(w.db, env, id).value)
            else
              && id in w.db.uploads
              && var fault := CompletionFault(w.db.uploads[id], completion.value);
                 if fault.Some? then resp == Refused(fault.value)
                 else if env.commit then resp.ObjectRecord? else resp == Refused(Internal)
  {
    hide Fold, CompletionFault, EncodeCRC32C, UpsertObject;
    UpsertSucceeds(w.db);
  }

  lemma CompleteAnswers(w: World, h: History, env: Env, limits: Limits, r: Request)
    requires Inv(w, h) && r.CompleteUpload?
    ensures Justified(CompleteUploadStep(w, env, r.id, r.completion).1, w, env, limits, r)
  {
    hide PartsOk, ObjectOk, Distinct, CompleteHolds, CompleteUploadStep;
    if r.id in w.db.uploads {
      assert SessionOk(w, h, r.id);
    }
    hide Inv;
    CompleteJustified(w, h, env, r.id, r.completion);
  }

  lemma CompleteJustified(w: World, h: History, env: Env, id: Id, completion: Option<Completion>)
    requires Inv(w, h)
    requires id in w.db.uploads ==> w.db.uploads[id].id == id && w.db.uploads[id].bucket in w.db.buckets
    ensures var resp := CompleteUploadStep(w, env, id, completion).1;
            if resp.Refused? then CompleteHolds(resp.fault, w, env, id, completion)
            else forall f :: !CompleteHolds(f, w, env, id, completion)
  {
    hide Inv, CompletionFault, ListsUnrecorded, FirstShort, FirstDisputed, BadCompletion, CompleteUploadStep;
    CompleteCases(w, env, id, completion);
    if id in w.db.uploads && !BadCompletion(completion) {
      CompletionShape(completion);
      CompletionJustified(w, h, id, completion.value);
    }
  }

  lemma CompletionShape(completion: Option<Completion>)
    requires !BadCompletion(completion)
    ensures completion.Some?
    ensures var c := completion.value; c.parts >= 1 && (c.checksums.Some? ==> |c.checksums.value| == c.parts)
  {
  }

  lemma UpsertSucceeds(db: Db)
    ensures forall o: Object | o.bucket in db.buckets :: UpsertObject(db, o).1.Ok?
  {
  }

  /** The checks of complete on the session and the completion. */
  lemma CompletionJustified(w: World, h: History, id: Id, c: Completion)
    requires Inv(w, h) && id in w.db.uploads && c.parts >= 1 && (c.checksums.Some? ==> |c.checksums.value| == c.parts)
    ensures var s := w.db.uploads[id];
            var fault := CompletionFault(s, c);
            && (fault.None? ==> && (forall missing :: missing == [] || !ListsUnrecorded(s, c, missing))
                                && (forall n :: !FirstShort(s, c, n) && !FirstDisputed(s, c, n)))
            && (fault.Some? ==>
                  || (fault.value.UploadIncomplete? && fault.value.missing != [] && ListsUnrecorded(s, c, fault.value.missing))
                  || (fault.value.PartSizeMismatch? && FirstShort(s, c, fault.value.at))
                  || (fault.value.ChecksumMismatch? && fault.value.part.Some? && FirstDisputed(s, c, fault.value.part.value)))
  {
    hide Inv, CompletionFault, ParseChecksum;
    var s := w.db.uploads[id];
    CompletionFaultExact(s, c);
    Runs.RecordsParse(w, h, id);
    assert !AnyCorrupt(s, c);
    forall missing | ListsUnrecorded(s, c, missing)
      ensures missing != [] <==> AnyUnrecorded(s, c)
    {
      if missing != [] {
        assert missing[0] in missing;
        assert Unrecorded(s, c, missing[0]);
      }
    }
  }

  /** Every answer of the server, uninterrupted: refused exactly if the table has a condition that holds, with a code whose
      condition does. */
  lemma AnswersAreJustified(w: World, h: History, env: Env, limits: Limits, r: Request)
    requires Inv(w, h) && Admissible(h, r)
    ensures var resp := Serve(w, env, limits, r).1;
            && (resp.Refused? ==> Holds(resp.fault, w, env, limits, r))
            && (!resp.Refused? <==> forall f :: !Holds(f, w, env, limits, r))
  {
    hide Inv, Admissible, Holds, PutObjectStep, CreateUploadStep, PutPartStep, CompleteUploadStep, DeleteUploadStep, DeleteObjectStep,
      GetObjectStep, CreateBucketStep, DeleteBucketStep;
    match r {
      case CreateBucket(_, _) => BucketAnswers(w, h, env, limits, r);
      case DeleteBucket(_) => BucketAnswers(w, h, env, limits, r);
      case PutObject(_, _, _, _, _, _, _, _) => PutObjectAnswers(w, h, env, limits, r);
      case GetObject(_, _) => ObjectAnswers(w, h, env, limits, r);
      case DeleteObject(_, _) => ObjectAnswers(w, h, env, limits, r);
      case CreateUpload(_, _, _) => CreateUploadAnswers(w, h, env, limits, r);
      case PutPart(_, _, _, _, _) => PutPartAnswers(w, h, env, limits, r);
      case DeleteUpload(_) => DeleteUploadAnswers(w, h, env, limits, r);
      case CompleteUpload(_, _) => CompleteAnswers(w, h, env, limits, r);
    }
  }

  // ---------- the first stage that fails ----------

  /** Twice the stage of the error table; a fault in how the body is declared, the only malformed request here, is found
      between the stages 4 and 5. */
  function Rung(f: Fault): int {
    match f
    case Forbidden => 6
    case InvalidBucketName => 8
    case InvalidKey => 8
    case InvalidParameter => 8
    case InvalidPartSize => 8
    case InvalidPartNumber => 8
    case SessionNotActive => 8
    case MalformedRequest => 9
    case BodyTooLarge => 10
    case BodyLengthMismatch => 10
    case ChecksumMismatch(_) => 10
    case BucketNotFound => 12
    case ObjectNotFound => 12
    case UploadNotFound => 12
    case BucketExists => 12
    case BucketNotEmpty => 12
    case UploadIncomplete(_) => 12
    case PartSizeMismatch(_) => 12
    case Internal => 12
  }

  /** The request is refused although a code of an earlier stage is due. */
  ghost predicate Broken(w: World, env: Env, limits: Limits, r: Request) {
    var resp := Serve(w, env, limits, r).1;
    resp.Refused? && exists g :: Holds(g, w, env, limits, r) && Rung(g) < Rung(resp.fault)
  }

  /** PUT looks up its bucket and makes its file before it reads the body, checks the length before the checksum's form, and
      syncs before it compares the checksum. */
  ghost predicate PutObjectOvertakes(w: World, env: Env, r: Request)
    requires r.PutObject?
  {
    var d := r.declared;
    var badBody := r.body.ending.Truncated? || GivenOther(d, r.body);
    && r.bucket !in env.forbidden && NamingRule(r.bucket) && !BadKey(r.key)
    && if r.contentLength < 0 then GivenBadly(d)
       else if r.contentLength > 100 * 1024 * 1024 then GivenTwice(d) || GivenBadly(d)
       else
         && !GivenTwice(d) && !GivenBadly(d) && badBody
         && (!d.queryOk || !env.lookup || r.bucket !in w.db.buckets || !env.create || (r.body.ending.Done? && !env.sync))
  }

  /** GET looks up the bucket before it looks at the names. */
  ghost predicate GetObjectOvertakes(w: World, env: Env, bucket: string, key: string) {
    var badNames := !NamingRule(bucket) || BadKey(key);
    if !env.lookup then NoRead(w, env, bucket) || badNames
    else !NoRead(w, env, bucket) && bucket !in w.db.buckets && badNames
  }

  /** A part's number is checked before its session is loaded, and the session before anything else. */
  ghost predicate PutPartOvertakes(w: World, env: Env, limits: Limits, r: Request)
    requires r.PutPart?
  {
    var d := r.declared;
    if BadNumber(limits, r.number) then SessionForbidden(w, env, r.id)
    else if !env.lookup || r.id !in w.db.uploads then
      || SessionForbidden(w, env, r.id) || SessionExpired(w, env, r.id)
      || r.contentLength <= 0 || GivenTwice(d) || GivenBadly(d)
      || (r.id in w.db.uploads && r.contentLength > w.db.uploads[r.id].partSize)
      || r.body.ending.Truncated? || GivenOther(d, r.body)
    else
      && !SessionForbidden(w, env, r.id) && !SessionExpired(w, env, r.id)
      && if r.contentLength == -1 then GivenBadly(d)
         else if r.contentLength == 0 then false
         else if r.contentLength > w.db.uploads[r.id].partSize then GivenTwice(d) || GivenBadly(d)
         else !d.queryOk && r.body.ending.Truncated?
  }

  ghost predicate AnyDispute(w: World, id: Id, completion: Option<Completion>) {
    !BadCompletion(completion) && id in w.db.uploads && AnyDisputed(w.db.uploads[id], completion.value)
  }

  /** Complete reads its body before it loads the session, and looks for missing and short parts before it compares
      checksums, as section 6.4 of the contract has it. */
  ghost predicate CompleteOvertakes(w: World, env: Env, id: Id, completion: Option<Completion>) {
    if BadCompletion(completion) then SessionForbidden(w, env, id)
    else if !env.lookup then SessionForbidden(w, env, id) || SessionExpired(w, env, id) || AnyDispute(w, id, completion)
    else
      && id in w.db.uploads && !SessionForbidden(w, env, id) && !SessionExpired(w, env, id) && AnyDispute(w, id, completion)
      && (AnyUnrecorded(w.db.uploads[id], completion.value) || AnyShort(w.db.uploads[id], completion.value))
  }

  ghost predicate Overtakes(w: World, env: Env, limits: Limits, r: Request) {
    match r
    case PutObject(_, _, _, _, _, _, _, _) => PutObjectOvertakes(w, env, r)
    case GetObject(bucket, key) => GetObjectOvertakes(w, env, bucket, key)
    case PutPart(_, _, _, _, _) => PutPartOvertakes(w, env, limits, r)
    case DeleteUpload(id) => !env.lookup && (SessionForbidden(w, env, id) || SessionExpired(w, env, id))
    case CompleteUpload(id, completion) => CompleteOvertakes(w, env, id, completion)
    case _ => false
  }

  lemma BucketLadder(w: World, env: Env, limits: Limits, r: Request)
    requires r.CreateBucket? || r.DeleteBucket?
    ensures !Broken(w, env, limits, r)
  {
    hide NamingRule, ValidBucketName, HoldsObjects, HoldsUploads;
    ValidBucketNameExact(r.name);
  }

  lemma DeleteObjectLadder(w: World, env: Env, limits: Limits, r: Request)
    requires r.DeleteObject?
    ensures !Broken(w, env, limits, r)
  {
    hide NamingRule, ValidBucketName, ValidObjectKey, BadKey;
    ValidBucketNameExact(r.bucket);
    KeyRule(r.key);
  }

  lemma GetObjectLadder(w: World, env: Env, limits: Limits, r: Request)
    requires r.GetObject?
    ensures Broken(w, env, limits, r) <==> Overtakes(w, env, limits, r)
  {
    hide NamingRule, ValidBucketName, ValidObjectKey, BadKey;
    ValidBucketNameExact(r.bucket);
    KeyRule(r.key);
    assert Holds(Forbidden, w, env, limits, r) <==> NoRead(w, env, r.bucket);
    assert Holds(InvalidBucketName, w, env, limits, r) <==> !NamingRule(r.bucket);
    assert Holds(InvalidKey, w, env, limits, r) <==> BadKey(r.key);
  }

  lemma CreateUploadLadder(w: World, env: Env, limits: Limits, r: Request)
    requires r.CreateUpload?
    ensures !Broken(w, env, limits, r)
  {
    hide NamingRule, ValidBucketName, ValidObjectKey, BadKey;
    if r.initiate.Some? {
      ValidBucketNameExact(r.initiate.value.bucket);
      KeyRule(r.initiate.value.key);
    }
  }

  lemma DeleteUploadLadder(w: World, env: Env, limits: Limits, r: Request)
    requires r.DeleteUpload?
    ensures Broken(w, env, limits, r) <==> Overtakes(w, env, limits, r)
  {
    assert Holds(Forbidden, w, env, limits, r) <==> SessionForbidden(w, env, r.id);
    assert Holds(SessionNotActive, w, env, limits, r) <==> SessionExpired(w, env, r.id);
  }

  lemma PutObjectLadder(w: World, h: History, env: Env, limits: Limits, r: Request)
    requires Inv(w, h) && r.PutObject? && Admissible(h, r)
    ensures Broken(w, env, limits, r) <==> Overtakes(w, env, limits, r)
  {
    hide SessionOk, ObjectOk, Distinct, NamingRule, ValidBucketName, ValidObjectKey, BadKey, Declare, DeclarationFault,
      Crc, EncodeCRC32C, Overlay, ParseChecksum;
    ValidBucketNameExact(r.bucket);
    KeyRule(r.key);
    DeclaredRule(r.declared, r.body);
    assert Holds(InvalidParameter, w, env, limits, r) <==> GivenBadly(r.declared);
    assert Holds(MalformedRequest, w, env, limits, r) <==> r.contentLength < 0 || GivenTwice(r.declared);
    assert Holds(BodyLengthMismatch, w, env, limits, r) <==> r.body.ending.Truncated?;
    assert Holds(ChecksumMismatch(None), w, env, limits, r) <==> GivenOther(r.declared, r.body);
  }

  /** Some code of an earlier stage is due. */
  ghost predicate DueBefore(f: Fault, w: World, env: Env, limits: Limits, r: Request)
    requires r.PutPart?
  {
    exists g :: PutPartHolds(g, w, env, limits, r) && Rung(g) < Rung(f)
  }

  lemma PartFaultCases(w: World, env: Env, limits: Limits, r: Request)
    requires r.PutPart?
    requires r.id in w.db.uploads && r.number.Some? && r.number.value >= 1 ==>
               PartOffset(r.number.value, w.db.uploads[r.id].partSize) >= 0
    ensures PartFault(w.db, env, limits, r) ==
            if BadNumber(limits, r.number) then Some(InvalidPartNumber)
            else if !env.lookup then Some(Internal)
            else if r.id !in w.db.uploads then Some(UploadNotFound)
            else if SessionForbidden(w, env, r.id) then Some(Forbidden)
            else if SessionExpired(w, env, r.id) then Some(SessionNotActive)
            else if r.contentLength == -1 then Some(MalformedRequest)
            else if r.contentLength == 0 then Some(InvalidParameter)
            else if r.contentLength > w.db.uploads[r.id].partSize then Some(BodyTooLarge)
            else if !r.declared.queryOk then Some(Internal)
            else if GivenTwice(r.declared) then Some(MalformedRequest)
            else if GivenBadly(r.declared) then Some(InvalidParameter)
            else None
  {
    hide Declare, DeclarationFault, GivenTwice, GivenBadly, PartOffset;
    DeclaredRule(r.declared, r.body);
    DeclaredApart(r.declared);
  }

  lemma DeclaredApart(d: Declared)
    ensures GivenTwice(d) || GivenBadly(d) ==> d.queryOk
    ensures !(GivenTwice(d) && GivenBadly(d))
    ensures DeclarationFault(Declare(d)) in {None, Some(Internal), Some(MalformedRequest), Some(InvalidParameter)}
  {
    hide ParseChecksum;
  }

  lemma PartLadderEarly(w: World, h: History, env: Env, limits: Limits, r: Request)
    requires Inv(w, h) && r.PutPart? && Admissible(h, r)
    ensures var fault := PartFault(w.db, env, limits, r);
            if fault.Some? then DueBefore(fault.value, w, env, limits, r) <==> PutPartOvertakes(w, env, limits, r)
            else !PutPartOvertakes(w, env, limits, r)
  {
    hide PartsOk, ObjectOk, Distinct, GivenTwice, GivenBadly, GivenOther, PartOffset, PartFault, DueBefore, PutPartOvertakes;
    if r.id in w.db.uploads {
      assert SessionOk(w, h, r.id);
      if r.number.Some? && r.number.value >= 1 {
        SlotStart(r.number.value, w.db.uploads[r.id].partSize);
      }
    }
    PartFaultCases(w, env, limits, r);
    hide Inv, SessionOk;
    PartCasesLadder(w, env, limits, r);
  }

  lemma PartCasesLadder(w: World, env: Env, limits: Limits, r: Request)
    requires r.PutPart? && Framed(r.contentLength, r.body)
    ensures var f := if BadNumber(limits, r.number) then Some(InvalidPartNumber)
                     else if !env.lookup then Some(Internal)
                     else if r.id !in w.db.uploads then Some(UploadNotFound)
                     else if SessionForbidden(w, env, r.id) then Some(Forbidden)
                     else if SessionExpired(w, env, r.id) then Some(SessionNotActive)
                     else if r.contentLength == -1 then Some(MalformedRequest)
                     else if r.contentLength == 0 then Some(InvalidParameter)
                     else if r.contentLength > w.db.uploads[r.id].partSize then Some(BodyTooLarge)
                     else if !r.declared.queryOk then Some(Internal)
                     else if GivenTwice(r.declared) then Some(MalformedRequest)
                     else if GivenBadly(r.declared) then Some(InvalidParameter)
                     else None;
            if f.Some? then DueBefore(f.value, w, env, limits, r) <==> PutPartOvertakes(w, env, limits, r)
            else !PutPartOvertakes(w, env, limits, r)
  {
    DeclaredApart(r.declared);
    OtherIsRead(r.declared, r.body);
    forall f
      ensures DueBefore(f, w, env, limits, r) <==> Below(Rung(f), w, env, limits, r)
    {
      DueIsBelow(f, w, env, limits, r);
    }
    hide GivenTwice, GivenBadly, GivenOther, SessionForbidden, SessionExpired, BadNumber, DueBefore;
  }

  /** Some code of a stage below is due, stage by stage. */
  ghost predicate Below(rung: int, w: World, env: Env, limits: Limits, r: Request)
    requires r.PutPart?
  {
    || (rung > 6 && SessionForbidden(w, env, r.id))
    || (rung > 8 && (BadNumber(limits, r.number) || SessionExpired(w, env, r.id) || r.contentLength == 0 || GivenBadly(r.declared)))
    || (rung > 9 && (r.contentLength == -1 || GivenTwice(r.declared)))
    || (rung > 10 && ((r.id in w.db.uploads && r.contentLength > w.db.uploads[r.id].partSize)
                      || r.body.ending.Truncated? || GivenOther(r.declared, r.body)))
  }

  lemma DueIsBelow(f: Fault, w: World, env: Env, limits: Limits, r: Request)
    requires r.PutPart?
    ensures DueBefore(f, w, env, limits, r) <==> Below(Rung(f), w, env, limits, r)
  {
    hide GivenTwice, GivenBadly, GivenOther, SessionForbidden, SessionExpired, BadNumber;
    assert PutPartHolds(Forbidden, w, env, limits, r) <==> SessionForbidden(w, env, r.id);
    assert PutPartHolds(InvalidPartNumber, w, env, limits, r) <==> BadNumber(limits, r.number);
    assert PutPartHolds(SessionNotActive, w, env, limits, r) <==> SessionExpired(w, env, r.id);
    assert PutPartHolds(InvalidParameter, w, env, limits, r) <==> r.contentLength == 0 || GivenBadly(r.declared);
    assert PutPartHolds(MalformedRequest, w, env, limits, r) <==> r.contentLength == -1 || GivenTwice(r.declared);
    assert PutPartHolds(BodyLengthMismatch, w, env, limits, r) <==> r.body.ending.Truncated?;
    assert PutPartHolds(BodyTooLarge, w, env, limits, r)
      <==> r.id in w.db.uploads && r.contentLength > w.db.uploads[r.id].partSize;
    assert PutPartHolds(ChecksumMismatch(None), w, env, limits, r) <==> GivenOther(r.declared, r.body);
  }

  lemma OtherIsRead(d: Declared, body: Stream)
    ensures GivenOther(d, body) ==> d.queryOk
  {
  }

  lemma PartLadderLate(w: World, h: History, env: Env, limits: Limits, r: Request)
    requires Inv(w, h) && r.PutPart? && Admissible(h, r) && PartFault(w.db, env, limits, r).None?
    requires forall f :: Early(f, w, env, limits, r) ==> f.Internal? || !PutPartHolds(f, w, env, limits, r)
    requires r.declared.queryOk && env.lookup
    ensures var resp := PutPartStep(w, env, limits, r).1; resp.Refused? ==> !DueBefore(resp.fault, w, env, limits, r)
  {
    hide PartsOk, ObjectOk, Distinct, Declare, GivenTwice, GivenBadly, GivenOther, Crc, EncodeCRC32C, Overlay, PartOffset, PartFault;
    DeclaredRule(r.declared, r.body);
    Runs.LoadedSession(w.db, env, limits, r);
    assert SessionOk(w, h, r.id);
    PartIsInside(w, h, env, limits, r);
  }

  lemma PutPartLadder(w: World, h: History, env: Env, limits: Limits, r: Request)
    requires Inv(w, h) && r.PutPart? && Admissible(h, r)
    ensures Broken(w, env, limits, r) <==> Overtakes(w, env, limits, r)
  {
    hide Inv, PartFault, PutPartHolds, Early, PutPartOvertakes;
    PartLadderEarly(w, h, env, limits, r);
    PartRefusedEarly(w, h, env, limits, r);
    if PartFault(w.db, env, limits, r).None? {
      PartLadderLate(w, h, env, limits, r);
      hide PutPartStep;
    }
  }

  lemma CompleteLadder(w: World, h: History, env: Env, limits: Limits, r: Request)
    requires Inv(w, h) && r.CompleteUpload?
    ensures Broken(w, env, limits, r) <==> Overtakes(w, env, limits, r)
  {
    hide PartsOk, ObjectOk, Distinct, CompleteUploadStep, CompleteHolds, CompleteOvertakes;
    if r.id in w.db.uploads {
      assert SessionOk(w, h, r.id);
    }
    hide Inv, SessionOk;
    CompletionLadder(w, env, r.id, r.completion);
  }

  lemma CompletionLadder(w: World, env: Env, id: Id, completion: Option<Completion>)
    requires id in w.db.uploads ==> w.db.uploads[id].id == id && w.db.uploads[id].bucket in w.db.buckets
    ensures var resp := CompleteUploadStep(w, env, id, completion).1;
            (resp.Refused? && exists g :: CompleteHolds(g, w, env, id, completion) && Rung(g) < Rung(resp.fault))
            <==> CompleteOvertakes(w, env, id, completion)
  {
    hide CompletionFault, CompleteUploadStep, ListsUnrecorded, FirstShort, FirstDisputed, AnyUnrecorded, AnyShort, AnyDisputed,
      BadCompletion, AnyCorrupt;
    CompleteCases(w, env, id, completion);
    if id in w.db.uploads && !BadCompletion(completion) {
      CompletionShape(completion);
      CompletionFaultExact(w.db.uploads[id], completion.value);
      SomeDispute(w.db.uploads[id], completion.value);
    }
    assert CompleteHolds(Forbidden, w, env, id, completion) <==> SessionForbidden(w, env, id);
    assert CompleteHolds(SessionNotActive, w, env, id, completion) <==> SessionExpired(w, env, id);
    assert AnyDispute(w, id, completion) <==> exists n :: CompleteHolds(ChecksumMismatch(Some(n)), w, env, id, completion) by {
      hide CompleteUploadStep;
      DisputeIsDue(w, env, id, completion);
    }
  }

  lemma DisputeIsDue(w: World, env: Env, id: Id, completion: Option<Completion>)
    ensures AnyDispute(w, id, completion) <==> exists n :: CompleteHolds(ChecksumMismatch(Some(n)), w, env, id, completion)
  {
    hide FirstDisputed, AnyDisputed, BadCompletion, ListsUnrecorded, FirstShort;
    if id in w.db.uploads && !BadCompletion(completion) {
      CompletionShape(completion);
      SomeDispute(w.db.uploads[id], completion.value);
      if n :| FirstDisputed(w.db.uploads[id], completion.value, n) {
        assert CompleteHolds(ChecksumMismatch(Some(n)), w, env, id, completion);
      }
    }
  }

  lemma SomeDispute(s: Session, c: Completion)
    ensures AnyDisputed(s, c) <==> exists n :: FirstDisputed(s, c, n)
  {
    if k :| Disputed(s, c, k) {
      var n := FirstFrom(s, c, 1, k);
    }
  }

  lemma {:induction false} FirstFrom(s: Session, c: Completion, from: int, k: int) returns (n: int)
    requires 1 <= from <= k && Disputed(s, c, k) && forall j | j < from :: !Disputed(s, c, j)
    ensures FirstDisputed(s, c, n)
    decreases k - from
  {
    if Disputed(s, c, from) {
      n := from;
    } else {
      n := FirstFrom(s, c, from + 1, k);
    }
  }

  /** The ladder, for every request in every state of the server, uninterrupted: a code of an earlier stage is due exactly in
      the cases named above; in all others the first stage that fails answers. */
  lemma LadderExact(w: World, h: History, env: Env, limits: Limits, r: Request)
    requires Inv(w, h) && Admissible(h, r)
    ensures var resp := Serve(w, env, limits, r).1;
            (resp.Refused? && exists g :: Holds(g, w, env, limits, r) && Rung(g) < Rung(resp.fault)) <==> Overtakes(w, env, limits, r)
  {
    hide Inv, Admissible, Holds, PutObjectOvertakes, GetObjectOvertakes, PutPartOvertakes, CompleteOvertakes, Rung,
      PutObjectStep, CreateUploadStep, PutPartStep, CompleteUploadStep, DeleteUploadStep, DeleteObjectStep, GetObjectStep,
      CreateBucketStep, DeleteBucketStep, Serve;
    match r {
      case CreateBucket(_, _) => BucketLadder(w, env, limits, r);
      case DeleteBucket(_) => BucketLadder(w, env, limits, r);
      case PutObject(_, _, _, _, _, _, _, _) => PutObjectLadder(w, h, env, limits, r);
      case GetObject(_, _) => GetObjectLadder(w, env, limits, r);
      case DeleteObject(_, _) => DeleteObjectLadder(w, env, limits, r);
      case CreateUpload(_, _, _) => CreateUploadLadder(w, env, limits, r);
      case PutPart(_, _, _, _, _) => PutPartLadder(w, h, env, limits, r);
      case DeleteUpload(_) => DeleteUploadLadder(w, env, limits, r);
      case CompleteUpload(_, _) => CompleteLadder(w, h, env, limits, r);
    }
  }
}
