/** The HTTP handlers that change state: internal/httpapi/objects.go, uploads.go and buckets.go.
    Each handler is a function from the state before to the state and response after; Server has the methods that reach
    that state call by call. */
module Handlers {
  import opened Wrappers
  import opened Stores
  import opened Crc32c
  import opened Combine
  import opened Checksum
  import Text

  /** The server's configured limits. */
  datatype Limits = Limits(partSizeMin: int, partSizeMax: int, maxParts: int, uploadTTL: int)

  const MAX_BODY_LENGTH: int := 104857600
  const DEFAULT_TYPE: string := "application/octet-stream"

  /** What the machine and the caller's key decide while one request runs: the clock, the buckets the key has not the
      access for that the request needs, and which store calls succeed. */
  datatype Env = Env(
    now: int, forbidden: set<string>,
    lookup: bool, count: bool, create: bool, sync: bool, commit: bool, remove: bool)

  /** The checksum a request declares, in the header or in the query. */
  datatype Declared = Declared(queryOk: bool, header: string, param: string)

  datatype Initiate = Initiate(
    bucket: string, key: string, partSize: Option<int>, contentType: string, metadata: map<string, string>)

  datatype Completion = Completion(parts: int, checksums: Option<seq<string>>)

  datatype Request =
    | CreateBucket(name: string, public: Option<bool>)
    | DeleteBucket(name: string)
    | PutObject(bucket: string, key: string, contentLength: int, declared: Declared, contentType: string,
                metadata: map<string, string>, body: Stream, newBlob: Id)
    | GetObject(bucket: string, key: string)
    | DeleteObject(bucket: string, key: string)
    | CreateUpload(initiate: Option<Initiate>, newBlob: Id, newSession: Id)
    | PutPart(id: Id, number: Option<int>, contentLength: int, declared: Declared, body: Stream)
    | DeleteUpload(id: Id)
    | CompleteUpload(id: Id, completion: Option<Completion>)

  datatype Fault =
    | MalformedRequest | Forbidden
    | InvalidBucketName | InvalidKey | InvalidParameter | InvalidPartSize | InvalidPartNumber | SessionNotActive
    | BodyTooLarge | BodyLengthMismatch | ChecksumMismatch(part: Option<int>)
    | BucketNotFound | ObjectNotFound | UploadNotFound | BucketExists | BucketNotEmpty
    | UploadIncomplete(missing: seq<int>) | PartSizeMismatch(at: int)
    | Internal

  datatype Response =
    | Refused(fault: Fault)
    | NoContent
    | BucketRecord(b: Bucket)
    | ObjectRecord(o: Object)
    | Content(o: Object, bytes: Bytes)
    | SessionRecord(s: Session)
    | PartRecord(part: int, size: int, checksum: string)

  datatype World = World(files: Files, db: Db)

  // ---------- rules on names ----------

  predicate NameByte(c: char) {
    'a' <= c <= 'z' || '0' <= c <= '9'
  }

  predicate ValidBucketName(name: string) {
    && 3 <= |name| <= 63
    && (forall i | 0 <= i < |name| :: NameByte(name[i]) || name[i] == '-')
    && name[0] != '-' && name[|name| - 1] != '-'
  }

  predicate ValidObjectKey(key: string) {
    1 <= |key| <= 1024 && '\0' !in key
  }

  predicate LetterOrDigit(c: char) {
    c in Text.LOWER_CASE || c in Text.DIGITS
  }

  /** The naming rule as it is documented: 3 to 63 small letters, digits and hyphens, with no hyphen at either end. */
  ghost predicate NamingRule(name: string) {
    exists first: char, middle: string, last: char ::
      && name == [first] + middle + [last] && 1 <= |middle| <= 61
      && LetterOrDigit(first) && LetterOrDigit(last) && forall c | c in middle :: LetterOrDigit(c) || c == '-'
  }

  lemma NameByteExact(c: char)
    ensures NameByte(c) <==> LetterOrDigit(c)
  {
    hide Text.LOWER_CASE, Text.DIGITS;
    if c as int < 256 {
      Text.SmallExact(c);
      Text.DigitExact(c);
    }
  }

  lemma ValidBucketNameExact(name: string)
    ensures ValidBucketName(name) <==> NamingRule(name)
  {
    hide NameByte, LetterOrDigit;
    forall c: char
      ensures NameByte(c) <==> LetterOrDigit(c)
    {
      NameByteExact(c);
    }
    NoHyphen();
    if ValidBucketName(name) {
      var middle := name[1..|name| - 1];
      assert name == [name[0]] + middle + [name[|name| - 1]];
    }
  }

  lemma NoHyphen()
    ensures !LetterOrDigit('-')
  {
  }

  /** The loop over the bytes of a name. */
  method BucketNameValidator(name: string) returns (ok: bool)
    ensures ok == ValidBucketName(name)
  {
    if |name| < 3 || |name| > 63 {
      return false;
    }
    for i := 0 to |name|
      invariant forall j | 0 <= j < i :: NameByte(name[j]) || (name[j] == '-' && j != 0 && j != |name| - 1)
    {
      var c := name[i];
      if 'a' <= c <= 'z' || '0' <= c <= '9' {
        continue;
      }
      if c != '-' || i == 0 || i == |name| - 1 {
        return false;
      }
    }
    return true;
  }

  // ---------- the declared checksum ----------

  datatype Declaration = Unreadable | Both | Malformed | Absent | Want(crc: bv32)

  function Declare(d: Declared): Declaration {
    if !d.queryOk then Unreadable
    else if d.header != "" && d.param != "" then Both
    else
      var value := if d.header != "" then d.header else d.param;
      if value == "" then Absent
      else match ParseChecksum(value) case Ok(crc) => Want(crc) case Err(_) => Malformed
  }

  function DeclarationFault(d: Declaration): Option<Fault> {
    match d
    case Unreadable => Some(Internal)
    case Both => Some(MalformedRequest)
    case Malformed => Some(InvalidParameter)
    case Absent => None
    case Want(_) => None
  }

  // ---------- buckets ----------

  function CreateBucketStep(w: World, env: Env, name: string, public: Option<bool>): (World, Response) {
    if !ValidBucketName(name) then (w, Refused(InvalidBucketName))
    else if public.None? then (w, Refused(InvalidParameter))
    else
      var b := Bucket(name, public.value, env.now);
      var (db, r) := CreateBucketRow(w.db, b, env.commit);
      (w.(db := db),
       if r == Err(Conflict) then Refused(BucketExists) else if r.Err? then Refused(Internal) else BucketRecord(b))
  }

  function DeleteBucketStep(w: World, env: Env, name: string): (World, Response) {
    if !ValidBucketName(name) then (w, Refused(InvalidBucketName))
    else if !env.lookup then (w, Refused(Internal))
    else if HoldsObjects(w.db, name) then (w, Refused(BucketNotEmpty))
    else if !env.count then (w, Refused(Internal))
    else if HoldsUploads(w.db, name) then (w, Refused(BucketNotEmpty))
    else
      var (db, r) := DeleteBucketRow(w.db, name, env.commit);
      (w.(db := db),
       if r == Err(NotFound) then Refused(BucketNotFound) else if r.Err? then Refused(Internal) else NoContent)
  }

  // ---------- objects ----------

  /** The file after a handler dropped it. */
  function Discard(f: Files, id: Id, env: Env): Files {
    RemoveFile(f, id, env.remove).0
  }

  /** What is checked of a PUT before its bucket is looked up. */
  function PutFault(env: Env, r: Request): Option<Fault>
    requires r.PutObject?
  {
    if r.bucket in env.forbidden then Some(Forbidden)
    else if !ValidBucketName(r.bucket) then Some(InvalidBucketName)
    else if !ValidObjectKey(r.key) then Some(InvalidKey)
    else if r.contentLength < 0 then Some(MalformedRequest)
    else if r.contentLength > MAX_BODY_LENGTH then Some(BodyTooLarge)
    else DeclarationFault(Declare(r.declared))
  }

  /** The rest of a PUT, from the creation of its file. */
  function StoreObjectStep(w: World, env: Env, r: Request, bucket: string): (World, Response)
    requires r.PutObject?
  {
    var want := Declare(r.declared);
    var (f1, id) := CreateFile(w.files, r.newBlob, env.create);
    if id.Err? then (w.(files := f1), Refused(Internal))
    else
      var (f2, n) := WriteFile(f1, id.value, 0, r.body);
      var dropped := w.(files := Discard(f2, id.value, env));
      if n == Err(UnexpectedEof) then (dropped, Refused(BodyLengthMismatch))
      else if n.Err? then (dropped, Refused(Internal))
      else if n.value != r.contentLength then (dropped, Refused(BodyLengthMismatch))
      else if SyncFile(f2, id.value, env.sync).Err? then (dropped, Refused(Internal))
      else if want.Want? && want.crc != Crc(r.body.bytes) then (dropped, Refused(ChecksumMismatch(None)))
      else
        var o := Object(bucket, r.key, id.value, r.contentLength,
                        if r.contentType == "" then DEFAULT_TYPE else r.contentType,
                        EncodeCRC32C(Crc(r.body.bytes)), r.metadata, env.now);
        var (db, prev) := PutObjectRow(w.db, o, env.commit);
        if prev.Err? then (World(f2, db), Refused(Internal))
        else (World(if prev.value != "" then Discard(f2, prev.value, env) else f2, db), ObjectRecord(o))
  }

  function PutObjectStep(w: World, env: Env, r: Request): (World, Response)
    requires r.PutObject?
  {
    if PutFault(env, r).Some? then (w, Refused(PutFault(env, r).value))
    else
      var b := GetBucketRow(w.db, r.bucket, env.lookup);
      if b == Err(NotFound) then (w, Refused(BucketNotFound))
      else if b.Err? then (w, Refused(Internal))
      else StoreObjectStep(w, env, r, b.value.name)
  }

  /** Who may read a bucket: anyone if it is public, else whoever has access, who alone learns whether it exists. */
  function ReadFault(db: Db, env: Env, bucket: string): Option<Fault> {
    var b := GetBucketRow(db, bucket, env.lookup);
    if b.Err? && b != Err(NotFound) then Some(Internal)
    else if b.Ok? && b.value.public then None
    else if bucket in env.forbidden then Some(Forbidden)
    else if b.Err? then Some(BucketNotFound)
    else None
  }

  /** The row, then the whole file its blob id names. */
  function GetObjectStep(w: World, env: Env, bucket: string, key: string): Response {
    if ReadFault(w.db, env, bucket).Some? then Refused(ReadFault(w.db, env, bucket).value)
    else if !ValidBucketName(bucket) then Refused(InvalidBucketName)
    else if !ValidObjectKey(key) then Refused(InvalidKey)
    else
      var o := GetObjectRow(w.db, bucket, key, env.lookup);
      if o == Err(NotFound) then Refused(ObjectNotFound)
      else if o.Err? || o.value.blob !in w.files then Refused(Internal)
      else Content(o.value, w.files[o.value.blob])
  }

  function DeleteObjectStep(w: World, env: Env, bucket: string, key: string): (World, Response) {
    if bucket in env.forbidden then (w, Refused(Forbidden))
    else if !ValidBucketName(bucket) then (w, Refused(InvalidBucketName))
    else if !ValidObjectKey(key) then (w, Refused(InvalidKey))
    else
      var b := GetBucketRow(w.db, bucket, env.lookup);
      if b == Err(NotFound) then (w, Refused(BucketNotFound))
      else if b.Err? then (w, Refused(Internal))
      else
        var (db, blob) := DeleteObjectRow(w.db, bucket, key, env.commit);
        if blob == Err(NotFound) then (w.(db := db), Refused(ObjectNotFound))
        else if blob.Err? then (w.(db := db), Refused(Internal))
        else (World(Discard(w.files, blob.value, env), db), NoContent)
  }

  // ---------- upload sessions ----------

  function CreateUploadStep(w: World, env: Env, limits: Limits, r: Request): (World, Response)
    requires r.CreateUpload?
  {
    if r.initiate.None? then (w, Refused(InvalidParameter))
    else
      var body := r.initiate.value;
      if body.bucket in env.forbidden then (w, Refused(Forbidden))
      else if !ValidBucketName(body.bucket) then (w, Refused(InvalidBucketName))
      else if !ValidObjectKey(body.key) then (w, Refused(InvalidKey))
      else if body.partSize.None? then (w, Refused(InvalidParameter))
      else if body.partSize.value < limits.partSizeMin || body.partSize.value > limits.partSizeMax then
        (w, Refused(InvalidPartSize))
      else
        var b := GetBucketRow(w.db, body.bucket, env.lookup);
        if b == Err(NotFound) then (w, Refused(BucketNotFound))
        else if b.Err? then (w, Refused(Internal))
        else
          var (f1, id) := CreateFile(w.files, r.newBlob, env.create);
          if id.Err? then (w.(files := f1), Refused(Internal))
          else
            var s := Session(r.newSession, body.bucket, body.key, id.value, body.partSize.value,
                             if body.contentType == "" then DEFAULT_TYPE else body.contentType,
                             body.metadata, map[], env.now, env.now + limits.uploadTTL);
            var (db, done) := InsertUpload(w.db, s, env.commit);
            if done.Err? then (World(Discard(f1, id.value, env), db), Refused(Internal))
            else (World(f1, db), SessionRecord(s))
  }

  /** What every route of a session checks first: it exists, the caller may write its bucket, it is live. */
  function SessionFault(db: Db, env: Env, id: Id): Option<Fault> {
    var s := GetUploadRow(db, id, env.lookup);
    if s == Err(NotFound) then Some(UploadNotFound)
    else if s.Err? then Some(Internal)
    else if s.value.bucket in env.forbidden then Some(Forbidden)
    else if env.now > s.value.expiresAt then Some(SessionNotActive)
    else None
  }

  function LengthFault(contentLength: int, partSize: int): Option<Fault> {
    if contentLength == -1 then Some(MalformedRequest)
    else if contentLength == 0 then Some(InvalidParameter)
    else if contentLength > partSize then Some(BodyTooLarge)
    else None
  }

  /** Part n's place in the file. */
  function PartOffset(n: int, partSize: int): int {
    (n - 1) * partSize
  }

  /** What can refuse a part before any of its bytes is written. */
  function PartFault(db: Db, env: Env, limits: Limits, r: Request): Option<Fault>
    requires r.PutPart?
  {
    if r.number.None? || r.number.value < 1 || r.number.value > limits.maxParts then Some(InvalidPartNumber)
    else if SessionFault(db, env, r.id).Some? then SessionFault(db, env, r.id)
    else
      var s := db.uploads[r.id];
      if LengthFault(r.contentLength, s.partSize).Some? then LengthFault(r.contentLength, s.partSize)
      else if DeclarationFault(Declare(r.declared)).Some? then DeclarationFault(Declare(r.declared))
      else if PartOffset(r.number.value, s.partSize) < 0 then Some(Internal) // the offset writer refuses it
      else None
  }

  function PutPartStep(w: World, env: Env, limits: Limits, r: Request): (World, Response)
    requires r.PutPart?
  {
    var fault := PartFault(w.db, env, limits, r);
    if fault.Some? then (w, Refused(fault.value))
    else
      var want, n, s := Declare(r.declared), r.number.value, w.db.uploads[r.id];
      var (files, written) := WriteFile(w.files, s.blob, PartOffset(n, s.partSize), r.body);
      var w1 := w.(files := files);
      var wire := EncodeCRC32C(Crc(r.body.bytes));
      if written == Err(UnexpectedEof) then (w1, Refused(BodyLengthMismatch))
      else if written.Err? then (w1, Refused(Internal))
      else if want.Want? && want.crc != Crc(r.body.bytes) then (w1, Refused(ChecksumMismatch(None)))
      else if SyncFile(files, s.blob, env.sync).Err? then (w1, Refused(Internal))
      else
        var (db, done) := PutPartRow(w.db, s.id, n, Part(written.value, wire), env.commit);
        if done.Err? then (w1.(db := db), Refused(Internal))
        else (World(files, db), PartRecord(n, written.value, wire))
  }

  function DeleteUploadStep(w: World, env: Env, id: Id): (World, Response) {
    if SessionFault(w.db, env, id).Some? then (w, Refused(SessionFault(w.db, env, id).value))
    else
      var (db, s) := DeleteUploadRow(w.db, w.db.uploads[id].id, env.commit);
      if s == Err(NotFound) then (w.(db := db), Refused(UploadNotFound))
      else if s.Err? then (w.(db := db), Refused(Internal))
      else (World(Discard(w.files, s.value.blob, env), db), NoContent)
  }

  // ---------- complete ----------

  /** The part numbers up to `count` that have no record, ascending. */
  function MissingParts(parts: map<int, Part>, count: nat): seq<int>
    decreases count
  {
    if count == 0 then []
    else MissingParts(parts, count - 1) + if count in parts then [] else [count]
  }

  function ShortPart(parts: map<int, Part>, partSize: int, count: int, from: int): Option<int>
    requires 1 <= from && forall j | from <= j < count :: j in parts
    decreases count - from
  {
    if from >= count then None
    else if parts[from].size != partSize then Some(from)
    else ShortPart(parts, partSize, count, from + 1)
  }

  function DisputedPart(parts: map<int, Part>, checksums: seq<string>, from: int): Option<int>
    requires 1 <= from && forall j | from <= j <= |checksums| :: j in parts
    decreases |checksums| - from
  {
    if from > |checksums| then None
    else if checksums[from - 1] != parts[from].checksum then Some(from)
    else DisputedPart(parts, checksums, from + 1)
  }

  /** The running checksum and size after folding parts 1 to `count`; None if a record does not parse. */
  function Fold(parts: map<int, Part>, count: nat): Option<(bv32, int)>
    requires count > 0 && forall j | 1 <= j <= count :: j in parts
    decreases count
  {
    var crc := ParseChecksum(parts[count].checksum);
    if count == 1 then
      if crc.Err? then None else Some((crc.value, parts[1].size))
    else
      match Fold(parts, count - 1)
      case None => None
      case Some(acc) =>
        if crc.Err? then None
        else Some((Combined(acc.0, crc.value, parts[count].size), acc.1 + parts[count].size))
  }

  function CompletionFault(s: Session, c: Completion): Option<Fault>
    requires c.parts >= 1 && (c.checksums.Some? ==> |c.checksums.value| == c.parts)
  {
    var missing := MissingParts(s.parts, c.parts);
    if missing != [] then Some(UploadIncomplete(missing))
    else
      MissingPartsEmpty(s.parts, c.parts);
      var short := ShortPart(s.parts, s.partSize, c.parts, 1);
      if short.Some? then Some(PartSizeMismatch(short.value))
      else
        var disputed := if c.checksums.Some? then DisputedPart(s.parts, c.checksums.value, 1) else None;
        if disputed.Some? then Some(ChecksumMismatch(disputed))
        else if Fold(s.parts, c.parts).None? then Some(Internal)
        else None
  }

  function CompleteUploadStep(w: World, env: Env, id: Id, completion: Option<Completion>): (World, Response) {
    if completion.None? || completion.value.parts < 1 then (w, Refused(InvalidParameter))
    else
      var c := completion.value;
      if c.checksums.Some? && |c.checksums.value| != c.parts then (w, Refused(InvalidParameter))
      else if SessionFault(w.db, env, id).Some? then (w, Refused(SessionFault(w.db, env, id).value))
      else
        var s := w.db.uploads[id];
        var fault := CompletionFault(s, c);
        if fault.Some? then (w, Refused(fault.value))
        else
          MissingPartsEmpty(s.parts, c.parts);
          var (acc, size) := Fold(s.parts, c.parts).value;
          var o := Object(s.bucket, s.key, s.blob, size, s.contentType, EncodeCRC32C(acc), s.metadata, env.now);
          var (db, prev) := CompleteUploadRow(w.db, s.id, o, env.commit);
          if prev == Err(NotFound) then (w.(db := db), Refused(UploadNotFound))
          else if prev.Err? then (w.(db := db), Refused(Internal))
          else (World(if prev.value != "" then Discard(w.files, prev.value, env) else w.files, db), ObjectRecord(o))
  }

  /** The missing list holds exactly the numbers without a record, in ascending order. */
  lemma {:induction false} MissingPartsExact(parts: map<int, Part>, count: nat)
    ensures forall n :: n in MissingParts(parts, count) <==> 1 <= n <= count && n !in parts
    ensures forall i, j | 0 <= i < j < |MissingParts(parts, count)| :: MissingParts(parts, count)[i] < MissingParts(parts, count)[j]
    decreases count
  {
    if count > 0 {
      MissingPartsExact(parts, count - 1);
      var before := MissingParts(parts, count - 1);
      assert forall i | 0 <= i < |before| :: before[i] in before;
    }
  }

  lemma MissingPartsEmpty(parts: map<int, Part>, count: nat)
    ensures MissingParts(parts, count) == [] <==> forall n | 1 <= n <= count :: n in parts
  {
    MissingPartsExact(parts, count);
    if MissingParts(parts, count) != [] {
      var n := MissingParts(parts, count)[0];
      assert n in MissingParts(parts, count);
    }
  }

  lemma {:induction false} ShortPartExact(parts: map<int, Part>, partSize: int, count: int, from: int)
    requires 1 <= from && forall j | from <= j < count :: j in parts
    ensures var short := ShortPart(parts, partSize, count, from);
            && (short.None? <==> forall j | from <= j < count :: parts[j].size == partSize)
            && (short.Some? ==> from <= short.value < count && parts[short.value].size != partSize
                                && forall j | from <= j < short.value :: parts[j].size == partSize)
    decreases count - from
  {
    if from < count && parts[from].size == partSize {
      ShortPartExact(parts, partSize, count, from + 1);
    }
  }

  lemma {:induction false} DisputedPartExact(parts: map<int, Part>, checksums: seq<string>, from: int)
    requires 1 <= from && forall j | from <= j <= |checksums| :: j in parts
    ensures var disputed := DisputedPart(parts, checksums, from);
            && (disputed.None? <==> forall j | from <= j <= |checksums| :: checksums[j - 1] == parts[j].checksum)
            && (disputed.Some? ==> from <= disputed.value <= |checksums|
                                   && checksums[disputed.value - 1] != parts[disputed.value].checksum
                                   && forall j | from <= j < disputed.value :: checksums[j - 1] == parts[j].checksum)
    decreases |checksums| - from
  {
    if from <= |checksums| && checksums[from - 1] == parts[from].checksum {
      DisputedPartExact(parts, checksums, from + 1);
    }
  }

  lemma {:induction false} FoldExact(parts: map<int, Part>, count: nat)
    requires count > 0 && forall j | 1 <= j <= count :: j in parts
    ensures Fold(parts, count).Some? <==> forall j | 1 <= j <= count :: ParseChecksum(parts[j].checksum).Ok?
    decreases count
  {
    hide Combined, ParseChecksum;
    if count > 1 {
      FoldExact(parts, count - 1);
    }
  }

  /** What is wrong with a completion: `n` is not recorded, is short although not the last, or is disputed. */
  predicate Unrecorded(s: Session, c: Completion, n: int) {
    1 <= n <= c.parts && n !in s.parts
  }

  predicate Short(s: Session, c: Completion, n: int) {
    1 <= n < c.parts && n in s.parts && s.parts[n].size != s.partSize
  }

  predicate Disputed(s: Session, c: Completion, n: int) {
    1 <= n <= c.parts && n in s.parts && c.checksums.Some? && n <= |c.checksums.value|
    && c.checksums.value[n - 1] != s.parts[n].checksum
  }

  ghost predicate AnyUnrecorded(s: Session, c: Completion) {
    exists k :: Unrecorded(s, c, k)
  }

  ghost predicate AnyShort(s: Session, c: Completion) {
    exists k :: Short(s, c, k)
  }

  ghost predicate AnyDisputed(s: Session, c: Completion) {
    exists k :: Disputed(s, c, k)
  }

  /** All unrecorded parts, in ascending order. */
  ghost predicate ListsUnrecorded(s: Session, c: Completion, missing: seq<int>) {
    && (forall i, j | 0 <= i < j < |missing| :: missing[i] < missing[j])
    && forall n :: n in missing <==> Unrecorded(s, c, n)
  }

  ghost predicate FirstShort(s: Session, c: Completion, n: int) {
    Short(s, c, n) && forall k | k < n :: !Short(s, c, k)
  }

  ghost predicate FirstDisputed(s: Session, c: Completion, n: int) {
    Disputed(s, c, n) && forall k | k < n :: !Disputed(s, c, k)
  }

  ghost predicate AnyCorrupt(s: Session, c: Completion) {
    exists k | k in s.parts :: 1 <= k <= c.parts && ParseChecksum(s.parts[k].checksum).Err?
  }

  lemma Unlisted(s: Session, c: Completion)
    requires c.parts >= 1
    ensures forall missing :: ListsUnrecorded(s, c, missing) <==> missing == MissingParts(s.parts, c.parts)
    ensures AnyUnrecorded(s, c) <==> MissingParts(s.parts, c.parts) != []
  {
    hide MissingParts;
    var missing := MissingParts(s.parts, c.parts);
    MissingPartsExact(s.parts, c.parts);
    assert ListsUnrecorded(s, c, missing);
    forall other | ListsUnrecorded(s, c, other)
      ensures other == missing
    {
      AscendingOnce(other, missing);
    }
    if missing != [] {
      assert missing[0] in missing;
      assert Unrecorded(s, c, missing[0]);
    }
  }

  lemma ShortIsFirst(s: Session, c: Completion)
    requires c.parts >= 1 && forall j | 1 <= j <= c.parts :: j in s.parts
    ensures var short := ShortPart(s.parts, s.partSize, c.parts, 1);
            && (short.Some? <==> AnyShort(s, c)) && forall n :: FirstShort(s, c, n) <==> short == Some(n)
  {
    hide ShortPart;
    ShortPartExact(s.parts, s.partSize, c.parts, 1);
    var short := ShortPart(s.parts, s.partSize, c.parts, 1);
    if short.Some? {
      assert Short(s, c, short.value);
    }
  }

  lemma DisputedIsFirst(s: Session, c: Completion)
    requires c.parts >= 1 && c.checksums.Some? && |c.checksums.value| == c.parts && forall j | 1 <= j <= c.parts :: j in s.parts
    ensures var disputed := DisputedPart(s.parts, c.checksums.value, 1);
            && (disputed.Some? <==> AnyDisputed(s, c)) && forall n :: FirstDisputed(s, c, n) <==> disputed == Some(n)
  {
    hide DisputedPart;
    DisputedPartExact(s.parts, c.checksums.value, 1);
    var disputed := DisputedPart(s.parts, c.checksums.value, 1);
    if disputed.Some? {
      assert Disputed(s, c, disputed.value);
    }
  }

  lemma NothingDisputed(s: Session, c: Completion)
    requires c.checksums.None?
    ensures !AnyDisputed(s, c) && forall n :: !FirstDisputed(s, c, n)
  {
  }

  /** Which fault complete reports, and with which details: all unrecorded parts; if there is none the first short part; if
      there is none the first disputed one; and if there is none a record that cannot be read. */
  lemma CompletionFaultExact(s: Session, c: Completion)
    requires c.parts >= 1 && (c.checksums.Some? ==> |c.checksums.value| == c.parts)
    ensures var fault := CompletionFault(s, c);
            if AnyUnrecorded(s, c) then
              fault.Some? && fault.value.UploadIncomplete? && ListsUnrecorded(s, c, fault.value.missing)
            else if AnyShort(s, c) then
              fault.Some? && fault.value.PartSizeMismatch? && FirstShort(s, c, fault.value.at)
            else if AnyDisputed(s, c) then
              fault.Some? && fault.value.ChecksumMismatch? && fault.value.part.Some? && FirstDisputed(s, c, fault.value.part.value)
            else
              fault == if AnyCorrupt(s, c) then Some(Internal) else None
  {
    hide ParseChecksum, Fold, MissingParts, ShortPart, DisputedPart, AnyUnrecorded, AnyShort, AnyDisputed, ListsUnrecorded, FirstShort,
      FirstDisputed, Short, Disputed, Unrecorded;
    Unlisted(s, c);
    MissingPartsEmpty(s.parts, c.parts);
    if MissingParts(s.parts, c.parts) == [] {
      ShortIsFirst(s, c);
      if c.checksums.Some? {
        DisputedIsFirst(s, c);
      } else {
        NothingDisputed(s, c);
      }
      FoldExact(s.parts, c.parts);
    }
  }

  /** Only one ascending list has given members. */
  lemma {:induction false} AscendingOnce(a: seq<int>, b: seq<int>)
    requires forall i, j | 0 <= i < j < |a| :: a[i] < a[j]
    requires forall i, j | 0 <= i < j < |b| :: b[i] < b[j]
    requires forall n :: n in a <==> n in b
    ensures a == b
    decreases |a|
  {
    assert (forall i | 0 <= i < |a| :: a[i] in a) && forall i | 0 <= i < |b| :: b[i] in b;
    if a != [] && b != [] {
      assert a[0] == b[0];
      forall n
        ensures n in a[1..] <==> n in b[1..]
      {
        assert n in a[1..] <==> n in a && n != a[0];
        assert n in b[1..] <==> n in b && n != b[0];
      }
      AscendingOnce(a[1..], b[1..]);
    }
  }

  /** Complete accepts a session exactly when every part is recorded, every part before the last is full,
      and every supplied checksum is the recorded one. */
  lemma CompletionAccepted(s: Session, c: Completion)
    requires c.parts >= 1 && (c.checksums.Some? ==> |c.checksums.value| == c.parts)
    ensures CompletionFault(s, c) == None
        <==> && (forall n | 1 <= n <= c.parts :: n in s.parts)
             && (forall n | 1 <= n < c.parts :: s.parts[n].size == s.partSize)
             && (c.checksums.Some? ==> forall n | 1 <= n <= c.parts :: c.checksums.value[n - 1] == s.parts[n].checksum)
             && (forall n | 1 <= n <= c.parts :: ParseChecksum(s.parts[n].checksum).Ok?)
  {
    hide ParseChecksum, Fold;
    MissingPartsEmpty(s.parts, c.parts);
    if MissingParts(s.parts, c.parts) == [] {
      ShortPartExact(s.parts, s.partSize, c.parts, 1);
      if c.checksums.Some? {
        DisputedPartExact(s.parts, c.checksums.value, 1);
      }
      FoldExact(s.parts, c.parts);
    }
  }

  /** To a caller without access a bucket that is not there and one that is private are the same. */
  lemma NothingDisclosed(w: World, w': World, env: Env, bucket: string, key: string)
    requires bucket in env.forbidden
    requires bucket in w.db.buckets ==> !w.db.buckets[bucket].public
    requires bucket in w'.db.buckets ==> !w'.db.buckets[bucket].public
    ensures GetObjectStep(w, env, bucket, key) == GetObjectStep(w', env, bucket, key)
  {
  }

  // ---------- one step of the server ----------

  /** Every state-changing request, run without interleaving. */
  function Serve(w: World, env: Env, limits: Limits, r: Request): (World, Response) {
    match r
    case CreateBucket(name, public) => CreateBucketStep(w, env, name, public)
    case DeleteBucket(name) => DeleteBucketStep(w, env, name)
    case PutObject(_, _, _, _, _, _, _, _) => PutObjectStep(w, env, r)
    case GetObject(bucket, key) => (w, GetObjectStep(w, env, bucket, key))
    case DeleteObject(bucket, key) => DeleteObjectStep(w, env, bucket, key)
    case CreateUpload(_, _, _) => CreateUploadStep(w, env, limits, r)
    case PutPart(_, _, _, _, _) => PutPartStep(w, env, limits, r)
    case DeleteUpload(id) => DeleteUploadStep(w, env, id)
    case CompleteUpload(id, completion) => CompleteUploadStep(w, env, id, completion)
  }

  lemma {:induction false} CorruptRecord(parts: map<int, Part>, i: nat, count: nat)
    requires 1 <= i <= count && forall n | 1 <= n <= count :: n in parts
    requires ParseChecksum(parts[i].checksum).Err?
    ensures Fold(parts, count) == None
    decreases count
  {
    hide Combined, ParseChecksum;
    if i < count {
      CorruptRecord(parts, i, count - 1);
    }
  }
}
