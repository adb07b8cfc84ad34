/** The blob store on disk (internal/disk/disk.go) and the metadata store (internal/sqlite): what one call does
    to the files and to the tables. Every store call is one of these functions, at both levels of the model. */
module Stores {
  import opened Wrappers
  import Crc32c

  type Bytes = Crc32c.Bytes

  /** Blob and session ids are 128 random bits in hex; here only that they are not "" and never handed out twice. */
  type Id = string

  datatype Part = Part(size: int, checksum: string)

  datatype Session = Session(
    id: Id, bucket: string, key: string, blob: Id, partSize: int, contentType: string,
    metadata: map<string, string>, parts: map<int, Part>, createdAt: int, expiresAt: int)

  datatype Object = Object(
    bucket: string, key: string, blob: Id, size: int, contentType: string, checksum: string,
    metadata: map<string, string>, createdAt: int)

  datatype Bucket = Bucket(name: string, public: bool, createdAt: int)

  // ---------- files ----------

  type Files = map<Id, Bytes>

  /** A body as it reached the file: the bytes, and how the stream ended. */
  datatype Ending = Done | Truncated | Broken
  datatype Stream = Stream(bytes: Bytes, ending: Ending)

  function Zeros(n: nat): (z: Bytes)
    ensures |z| == n
  {
    seq(n, _ => 0)
  }

  /** The file after `data` is written at `offset`; a gap before it reads as zeros. */
  function Overlay(file: Bytes, offset: nat, data: Bytes): Bytes {
    if data == [] then file
    else
      var padded := if |file| < offset then file + Zeros(offset - |file|) else file;
      padded[..offset] + data + (if |padded| <= offset + |data| then [] else padded[offset + |data|..])
  }

  /** What a write at an offset means, byte by byte. */
  lemma OverlayBytes(file: Bytes, offset: nat, data: Bytes)
    ensures data != [] ==> |Overlay(file, offset, data)| == if |file| < offset + |data| then offset + |data| else |file|
    ensures forall i | 0 <= i < |data| :: Overlay(file, offset, data)[offset + i] == data[i]
    ensures forall i | 0 <= i < |file| && !(offset <= i < offset + |data|) :: Overlay(file, offset, data)[i] == file[i]
    ensures forall i | |file| <= i < offset && data != [] :: Overlay(file, offset, data)[i] == 0
  {
  }

  /** The same said without building the file: the data is at the offset, the rest is as it was, a gap is zeros, and
      there is nothing more. */
  predicate Written(before: Bytes, after: Bytes, offset: nat, data: Bytes) {
    && |after| == (if data == [] || offset + |data| <= |before| then |before| else offset + |data|)
    && (forall i | 0 <= i < |data| :: after[offset + i] == data[i])
    && (forall i | 0 <= i < |before| && !(offset <= i < offset + |data|) :: after[i] == before[i])
    && (forall i | |before| <= i < offset && data != [] :: after[i] == 0)
  }

  /** Of a store: one file was written, the others are as they were. */
  predicate WrittenIn(before: Files, after: Files, id: Id, offset: nat, data: Bytes) {
    && after.Keys == before.Keys
    && forall b | b in before :: if b == id then Written(before[b], after[b], offset, data) else after[b] == before[b]
  }

  lemma WrittenExact(before: Bytes, after: Bytes, offset: nat, data: Bytes)
    ensures Written(before, after, offset, data) <==> after == Overlay(before, offset, data)
  {
    OverlayBytes(before, offset, data);
    var overlaid := Overlay(before, offset, data);
    if Written(before, after, offset, data) {
      assert |after| == |overlaid|;
      forall i | 0 <= i < |after|
        ensures after[i] == overlaid[i]
      {
        if offset <= i < offset + |data| {
          assert after[offset + (i - offset)] == data[i - offset];
          assert overlaid[offset + (i - offset)] == data[i - offset];
        }
      }
    }
  }

  function CreateFile(f: Files, id: Id, up: bool): (Files, Result<Id>) {
    if !up || id in f then (f, Err(Other)) else (f[id := []], Ok(id))
  }

  function WriteFile(f: Files, id: Id, offset: nat, r: Stream): (Files, Result<int>) {
    if id !in f then (f, Err(NotFound))
    else
      (f[id := Overlay(f[id], offset, r.bytes)],
       match r.ending
       case Done => Ok(|r.bytes|)
       case Truncated => Err(UnexpectedEof)
       case Broken => Err(Other))
  }

  function SyncFile(f: Files, id: Id, up: bool): Result<()> {
    if id !in f then Err(NotFound) else if up then Ok(()) else Err(Other)
  }

  function RemoveFile(f: Files, id: Id, up: bool): (Files, Result<()>) {
    if up then (f - {id}, Ok(())) else (f, Err(Other))
  }

  /** A file that is created and written from the start holds what arrived, also when the stream then failed; while it is
      there no other file differs, it is not created again, and removing it leaves the store as it was; a file that is not
      there is neither written nor synced. */
  lemma FileLife(f: Files, id: Id, r: Stream)
    requires id !in f
    ensures var created := CreateFile(f, id, true);
            var (files, n) := WriteFile(created.0, id, 0, r);
            && created.1 == Ok(id)
            && (n.Ok? <==> r.ending.Done?) && (n.Ok? ==> n.value == |r.bytes|)
            && id in files && files[id] == r.bytes && files - {id} == f
            && SyncFile(files, id, true).Ok? && CreateFile(files, id, true) == (files, Err(Other))
            && WriteFile(f, id, 0, r) == (f, Err(NotFound)) && SyncFile(f, id, true) == Err(NotFound)
            && RemoveFile(files, id, true) == (f, Ok(())) && RemoveFile(f, id, true).0 == f
  {
    WrittenExact([], r.bytes, 0, r.bytes);
  }

  // ---------- tables ----------

  datatype Db = Db(
    buckets: map<string, Bucket>,
    objects: map<(string, string), Object>,
    uploads: map<Id, Session>)

  const EMPTY_DB: Db := Db(map[], map[], map[])

  /** Read the row's blob id, then upsert; the bucket is a foreign key. "" is no previous blob. */
  function UpsertObject(db: Db, o: Object): (Db, Result<Id>) {
    if o.bucket !in db.buckets then (db, Err(Other))
    else
      var at := (o.bucket, o.key);
      (db.(objects := db.objects[at := o]), Ok(if at in db.objects then db.objects[at].blob else ""))
  }

  function PutObjectRow(db: Db, o: Object, up: bool): (Db, Result<Id>) {
    if !up then (db, Err(Other)) else UpsertObject(db, o)
  }

  function GetObjectRow(db: Db, bucket: string, key: string, up: bool): Result<Object> {
    if !up then Err(Other)
    else if (bucket, key) in db.objects then Ok(db.objects[(bucket, key)])
    else Err(NotFound)
  }

  function DeleteObjectRow(db: Db, bucket: string, key: string, up: bool): (Db, Result<Id>) {
    if !up then (db, Err(Other))
    else if (bucket, key) !in db.objects then (db, Err(NotFound))
    else (db.(objects := db.objects - {(bucket, key)}), Ok(db.objects[(bucket, key)].blob))
  }

  function InsertUpload(db: Db, s: Session, up: bool): (Db, Result<()>) {
    if !up then (db, Err(Other))
    else if s.id in db.uploads then (db, Err(Conflict))
    else if s.bucket !in db.buckets then (db, Err(Other))
    else (db.(uploads := db.uploads[s.id := s]), Ok(()))
  }

  function GetUploadRow(db: Db, id: Id, up: bool): Result<Session> {
    if !up then Err(Other) else if id in db.uploads then Ok(db.uploads[id]) else Err(NotFound)
  }

  function PutPartRow(db: Db, id: Id, n: int, p: Part, up: bool): (Db, Result<()>) {
    if !up then (db, Err(Other))
    else if id !in db.uploads then (db, Err(NotFound))
    else
      var s := db.uploads[id];
      (db.(uploads := db.uploads[id := s.(parts := s.parts[n := p])]), Ok(()))
  }

  /** One transaction: the session must exist, the object is upserted, the session is deleted. */
  function CompleteUploadRow(db: Db, id: Id, o: Object, up: bool): (Db, Result<Id>) {
    if !up then (db, Err(Other))
    else if id !in db.uploads then (db, Err(NotFound))
    else
      var (put, prev) := UpsertObject(db, o);
      if prev.Err? then (db, prev) else (put.(uploads := put.uploads - {id}), prev)
  }

  function DeleteUploadRow(db: Db, id: Id, up: bool): (Db, Result<Session>) {
    if !up then (db, Err(Other))
    else if id !in db.uploads then (db, Err(NotFound))
    else (db.(uploads := db.uploads - {id}), Ok(db.uploads[id]))
  }

  function CreateBucketRow(db: Db, b: Bucket, up: bool): (Db, Result<()>) {
    if !up then (db, Err(Other))
    else if b.name in db.buckets then (db, Err(Conflict))
    else (db.(buckets := db.buckets[b.name := b]), Ok(()))
  }

  function GetBucketRow(db: Db, name: string, up: bool): Result<Bucket> {
    if !up then Err(Other) else if name in db.buckets then Ok(db.buckets[name]) else Err(NotFound)
  }

  predicate HoldsObjects(db: Db, bucket: string) {
    exists at | at in db.objects :: at.0 == bucket
  }

  predicate HoldsUploads(db: Db, bucket: string) {
    exists id | id in db.uploads :: db.uploads[id].bucket == bucket
  }

  /** Rows that reference the bucket make the foreign key refuse the delete. */
  function DeleteBucketRow(db: Db, name: string, up: bool): (Db, Result<()>) {
    if !up then (db, Err(Other))
    else if name !in db.buckets then (db, Err(NotFound))
    else if HoldsObjects(db, name) || HoldsUploads(db, name) then (db, Err(Other))
    else (db.(buckets := db.buckets - {name}), Ok(()))
  }

  // ---------- what the tables promise ----------

  /** Primary and foreign keys. */
  ghost predicate Schema(db: Db) {
    && (forall name | name in db.buckets :: db.buckets[name].name == name)
    && (forall at | at in db.objects :: (db.objects[at].bucket, db.objects[at].key) == at && at.0 in db.buckets)
    && (forall id | id in db.uploads :: db.uploads[id].id == id && db.uploads[id].bucket in db.buckets)
  }

  /** No two rows name the same file. */
  ghost predicate Distinct(db: Db) {
    && (forall i, j | i in db.uploads && j in db.uploads && i != j :: db.uploads[i].blob != db.uploads[j].blob)
    && (forall i, j | i in db.objects && j in db.objects && i != j :: db.objects[i].blob != db.objects[j].blob)
    && (forall i, j | i in db.uploads && j in db.objects :: db.uploads[i].blob != db.objects[j].blob)
  }

  /** No row names a file under a given id. */
  ghost predicate Unowned(db: Db, blob: Id) {
    && (forall id | id in db.uploads :: db.uploads[id].blob != blob)
    && (forall at | at in db.objects :: db.objects[at].blob != blob)
  }

  /** Which calls the tables serve when they are up: keys must be free or taken as the call needs, and no row may be left
      without its bucket. A call that is not served changes nothing. */
  lemma CallsExact(db: Db, o: Object, s: Session, id: Id, n: int, p: Part, at: (string, string), b: Bucket, up: bool)
    ensures var (db1, r) := PutObjectRow(db, o, up);
            (r.Ok? <==> up && o.bucket in db.buckets) && (r.Err? ==> db1 == db)
    ensures var (db1, r) := DeleteObjectRow(db, at.0, at.1, up);
            (r.Ok? <==> up && at in db.objects) && (r.Err? ==> db1 == db)
    ensures var (db1, r) := InsertUpload(db, s, up);
            (r.Ok? <==> up && s.id !in db.uploads && s.bucket in db.buckets) && (r.Err? ==> db1 == db)
    ensures var (db1, r) := PutPartRow(db, id, n, p, up);
            (r.Ok? <==> up && id in db.uploads) && (r.Err? ==> db1 == db)
    ensures var (db1, r) := CompleteUploadRow(db, id, o, up);
            (r.Ok? <==> up && id in db.uploads && o.bucket in db.buckets) && (r.Err? ==> db1 == db)
    ensures var (db1, r) := DeleteUploadRow(db, id, up);
            (r.Ok? <==> up && id in db.uploads) && (r.Err? ==> db1 == db)
    ensures var (db1, r) := CreateBucketRow(db, b, up);
            (r.Ok? <==> up && b.name !in db.buckets) && (r.Err? ==> db1 == db)
    ensures var (db1, r) := DeleteBucketRow(db, b.name, up);
            && (r.Ok? <==> && up && b.name in db.buckets && (forall k | k in db.objects :: k.0 != b.name)
                           && forall u | u in db.uploads :: db.uploads[u].bucket != b.name)
            && (r.Err? ==> db1 == db)
  {
  }

  /** Conservation: the rows still name no file twice, and of the files they named exactly those handed back are no longer
      named and those taken over are. */
  ghost predicate Exchanged(db: Db, db': Db, taken: set<Id>, given: set<Id>) {
    Distinct(db') && forall b :: !Unowned(db', b) <==> b in taken || (!Unowned(db, b) && b !in given)
  }

  /** An upsert takes the new row's file over and hands back the one it displaces. */
  lemma UpsertExchanges(db: Db, o: Object)
    requires Distinct(db) && Unowned(db, o.blob) && Unowned(db, "") && o.bucket in db.buckets
    ensures var (db1, prev) := UpsertObject(db, o);
            prev.Ok? && Exchanged(db, db1, {o.blob}, {prev.value}) && (prev.value != "" ==> !Unowned(db, prev.value))
  {
    var (db1, prev) := UpsertObject(db, o);
    var at := (o.bucket, o.key);
    assert db1.objects[at] == o;
    forall b | !Unowned(db, b) && b != prev.value
      ensures !Unowned(db1, b)
    {
      if id :| id in db.uploads && db.uploads[id].blob == b {
        assert id in db1.uploads;
      } else {
        var k :| k in db.objects && db.objects[k].blob == b;
        assert k in db1.objects && db1.objects[k].blob == b;
      }
    }
  }

  lemma ObjectRemovalExchanges(db: Db, at: (string, string))
    requires Distinct(db) && at in db.objects
    ensures Exchanged(db, db.(objects := db.objects - {at}), {}, {db.objects[at].blob}) && !Unowned(db, db.objects[at].blob)
  {
    var db0 := db.(objects := db.objects - {at});
    forall b | !Unowned(db, b) && b != db.objects[at].blob
      ensures !Unowned(db0, b)
    {
      if k :| k in db.objects && db.objects[k].blob == b {
        assert k in db0.objects && db0.objects[k].blob == b;
      }
    }
  }

  lemma SessionRemovalExchanges(db: Db, id: Id)
    requires Distinct(db) && id in db.uploads
    ensures Exchanged(db, db.(uploads := db.uploads - {id}), {}, {db.uploads[id].blob}) && !Unowned(db, db.uploads[id].blob)
  {
    var db0 := db.(uploads := db.uploads - {id});
    forall b | !Unowned(db, b) && b != db.uploads[id].blob
      ensures !Unowned(db0, b)
    {
      if u :| u in db.uploads && db.uploads[u].blob == b {
        assert u in db0.uploads && db0.uploads[u].blob == b;
      }
    }
  }

  lemma InsertExchanges(db: Db, s: Session)
    requires Distinct(db) && s.id !in db.uploads && Unowned(db, s.blob)
    ensures Exchanged(db, db.(uploads := db.uploads[s.id := s]), {s.blob}, {})
  {
    var db1 := db.(uploads := db.uploads[s.id := s]);
    assert db1.uploads[s.id].blob == s.blob;
    forall b | !Unowned(db, b)
      ensures !Unowned(db1, b)
    {
      if id :| id in db.uploads && db.uploads[id].blob == b {
        assert db1.uploads[id].blob == b;
      }
    }
  }

  lemma PartExchanges(db: Db, id: Id, n: int, p: Part)
    requires Distinct(db) && id in db.uploads
    ensures Exchanged(db, PutPartRow(db, id, n, p, true).0, {}, {})
  {
    var db1 := PutPartRow(db, id, n, p, true).0;
    forall b | !Unowned(db, b)
      ensures !Unowned(db1, b)
    {
      if u :| u in db.uploads && db.uploads[u].blob == b {
        assert db1.uploads[u].blob == b;
      }
    }
  }

  /** The session's file passes to the object row; only the one that row displaces is handed back. */
  lemma CompletionExchanges(db: Db, id: Id, o: Object)
    requires Distinct(db) && id in db.uploads && db.uploads[id].blob == o.blob && Unowned(db, "") && o.bucket in db.buckets
    ensures var (db1, prev) := CompleteUploadRow(db, id, o, true);
            prev.Ok? && Exchanged(db, db1, {}, {prev.value}) && prev.value != o.blob
  {
    hide Unowned, Distinct;
    var db0 := db.(uploads := db.uploads - {id});
    SessionRemovalExchanges(db, id);
    UpsertExchanges(db0, o);
    var (db1, prev) := CompleteUploadRow(db, id, o, true);
    assert db1 == UpsertObject(db0, o).0;
  }

  // ---------- the adapters ----------

  /** internal/disk: one file per blob. */
  class BlobStore {
    var files: Files

    constructor ()
      ensures files == map[]
    {
      files := map[];
    }

    method Create(id: Id, up: bool) returns (r: Result<Id>)
      modifies this
      ensures (files, r) == CreateFile(old(files), id, up)
    {
      if !up || id in files {
        return Err(Other);
      }
      files := files[id := []];
      return Ok(id);
    }

    /** Copies the stream through an offset writer; a failed stream leaves what it had written. */
    method Write(id: Id, offset: nat, r: Stream) returns (n: Result<int>)
      modifies this
      ensures (files, n) == WriteFile(old(files), id, offset, r)
      ensures WrittenIn(old(files), files, id, offset, r.bytes)
    {
      if id !in files {
        return Err(NotFound);
      }
      WrittenExact(files[id], Overlay(files[id], offset, r.bytes), offset, r.bytes);
      assert forall b | b in files && b != id :: files[id := Overlay(files[id], offset, r.bytes)][b] == files[b];
      files := files[id := Overlay(files[id], offset, r.bytes)];
      match r.ending {
        case Done => n := Ok(|r.bytes|);
        case Truncated => n := Err(UnexpectedEof);
        case Broken => n := Err(Other);
      }
    }

    method Sync(id: Id, up: bool) returns (r: Result<()>)
      ensures r == SyncFile(files, id, up)
    {
      if id !in files {
        return Err(NotFound);
      }
      r := if up then Ok(()) else Err(Other);
    }

    method Open(id: Id) returns (r: Result<Bytes>)
      ensures r == if id in files then Ok(files[id]) else Err(NotFound)
    {
      if id !in files {
        return Err(NotFound);
      }
      return Ok(files[id]);
    }

    /** Removing an absent blob is not an error. */
    method Remove(id: Id, up: bool) returns (r: Result<()>)
      modifies this
      ensures (files, r) == RemoveFile(old(files), id, up)
    {
      if !up {
        return Err(Other);
      }
      files := files - {id};
      return Ok(());
    }
  }

  /** internal/sqlite: each method is one statement or one immediate transaction. */
  class Database {
    var buckets: map<string, Bucket>
    var objects: map<(string, string), Object>
    var uploads: map<Id, Session>

    ghost predicate Valid()
      reads this
    {
      Schema(Tables())
    }

    constructor ()
      ensures Valid() && Tables() == EMPTY_DB
    {
      buckets, objects, uploads := map[], map[], map[];
    }

    function Tables(): Db
      reads this
    {
      Db(buckets, objects, uploads)
    }

    method CreateBucket(b: Bucket, up: bool) returns (r: Result<()>)
      requires Valid()
      modifies this
      ensures Valid()
      ensures (Tables(), r) == CreateBucketRow(old(Tables()), b, up)
      ensures b.name in buckets || !up
    {
      if !up {
        return Err(Other);
      }
      if b.name in buckets {
        return Err(Conflict);
      }
      buckets := buckets[b.name := b];
      return Ok(());
    }

    method GetBucket(name: string, up: bool) returns (r: Result<Bucket>)
      requires Valid()
      ensures r == GetBucketRow(Tables(), name, up)
      ensures r.Ok? ==> r.value.name == name
    {
      if !up {
        return Err(Other);
      }
      r := if name in buckets then Ok(buckets[name]) else Err(NotFound);
    }

    method DeleteBucket(name: string, up: bool) returns (r: Result<()>)
      requires Valid()
      modifies this
      ensures Valid()
      ensures (Tables(), r) == DeleteBucketRow(old(Tables()), name, up)
      ensures r.Ok? ==> name !in buckets && forall at | at in objects :: at.0 != name
    {
      if !up {
        return Err(Other);
      }
      if name !in buckets {
        return Err(NotFound);
      }
      if HoldsObjects(Tables(), name) || HoldsUploads(Tables(), name) {
        return Err(Other);
      }
      buckets := buckets - {name};
      return Ok(());
    }

    /** The select-then-upsert that PutObject and CompleteUpload share. */
    method PutObjectTx(o: Object) returns (prev: Result<Id>)
      requires Valid()
      modifies this`objects
      ensures Valid()
      ensures (Tables(), prev) == UpsertObject(old(Tables()), o)
      ensures Distinct(old(Tables())) && Unowned(old(Tables()), o.blob) && Unowned(old(Tables()), "") && prev.Ok? ==>
                Exchanged(old(Tables()), Tables(), {o.blob}, {prev.value})
    {
      if Distinct(Tables()) && Unowned(Tables(), o.blob) && Unowned(Tables(), "") && o.bucket in buckets {
        UpsertExchanges(Tables(), o);
      }
      var previous := "";
      if (o.bucket, o.key) in objects {
        previous := objects[(o.bucket, o.key)].blob;
      }
      if o.bucket !in buckets {
        return Err(Other);
      }
      objects := objects[(o.bucket, o.key) := o];
      return Ok(previous);
    }

    method PutObject(o: Object, up: bool) returns (prev: Result<Id>)
      requires Valid()
      modifies this
      ensures Valid()
      ensures (Tables(), prev) == PutObjectRow(old(Tables()), o, up)
      ensures Distinct(old(Tables())) && Unowned(old(Tables()), o.blob) && Unowned(old(Tables()), "") && prev.Ok? ==>
                Exchanged(old(Tables()), Tables(), {o.blob}, {prev.value})
    {
      if !up {
        return Err(Other);
      }
      prev := PutObjectTx(o);
    }

    method GetObject(bucket: string, key: string, up: bool) returns (r: Result<Object>)
      requires Valid()
      ensures r == GetObjectRow(Tables(), bucket, key, up)
      ensures r.Ok? ==> (r.value.bucket, r.value.key) == (bucket, key) && bucket in buckets
    {
      if !up {
        return Err(Other);
      }
      r := if (bucket, key) in objects then Ok(objects[(bucket, key)]) else Err(NotFound);
    }

    method DeleteObject(bucket: string, key: string, up: bool) returns (r: Result<Id>)
      requires Valid()
      modifies this
      ensures Valid()
      ensures (Tables(), r) == DeleteObjectRow(old(Tables()), bucket, key, up)
      ensures Distinct(old(Tables())) && r.Ok? ==> Exchanged(old(Tables()), Tables(), {}, {r.value})
    {
      if Distinct(Tables()) && (bucket, key) in objects {
        ObjectRemovalExchanges(Tables(), (bucket, key));
      }
      if !up {
        return Err(Other);
      }
      if (bucket, key) !in objects {
        return Err(NotFound);
      }
      var blob := objects[(bucket, key)].blob;
      objects := objects - {(bucket, key)};
      return Ok(blob);
    }

    method CreateUpload(s: Session, up: bool) returns (r: Result<()>)
      requires Valid()
      modifies this
      ensures Valid()
      ensures (Tables(), r) == InsertUpload(old(Tables()), s, up)
      ensures Distinct(old(Tables())) && Unowned(old(Tables()), s.blob) && r.Ok? ==>
                Exchanged(old(Tables()), Tables(), {s.blob}, {})
    {
      if Distinct(Tables()) && Unowned(Tables(), s.blob) && s.id !in uploads {
        InsertExchanges(Tables(), s);
      }
      if !up {
        return Err(Other);
      }
      if s.id in uploads {
        return Err(Conflict);
      }
      if s.bucket !in buckets {
        return Err(Other);
      }
      uploads := uploads[s.id := s];
      return Ok(());
    }

    method GetUpload(id: Id, up: bool) returns (r: Result<Session>)
      requires Valid()
      ensures r == GetUploadRow(Tables(), id, up)
      ensures r.Ok? ==> r.value.id == id && r.value.bucket in buckets
    {
      if !up {
        return Err(Other);
      }
      r := if id in uploads then Ok(uploads[id]) else Err(NotFound);
    }

    method PutPart(id: Id, n: int, p: Part, up: bool) returns (r: Result<()>)
      requires Valid()
      modifies this
      ensures Valid()
      ensures (Tables(), r) == PutPartRow(old(Tables()), id, n, p, up)
      ensures Distinct(old(Tables())) ==> Exchanged(old(Tables()), Tables(), {}, {})
    {
      if Distinct(Tables()) && id in uploads {
        PartExchanges(Tables(), id, n, p);
      }
      if !up {
        return Err(Other);
      }
      if id !in uploads {
        return Err(NotFound);
      }
      uploads := uploads[id := uploads[id].(parts := uploads[id].parts[n := p])];
      return Ok(());
    }

    /** All three changes commit together or not at all. */
    method CompleteUpload(id: Id, o: Object, up: bool) returns (prev: Result<Id>)
      requires Valid()
      modifies this
      ensures Valid()
      ensures (Tables(), prev) == CompleteUploadRow(old(Tables()), id, o, up)
      ensures Distinct(old(Tables())) && Unowned(old(Tables()), "") && prev.Ok? && old(uploads)[id].blob == o.blob ==>
                Exchanged(old(Tables()), Tables(), {}, {prev.value})
    {
      if Distinct(Tables()) && Unowned(Tables(), "") && o.bucket in buckets && id in uploads && uploads[id].blob == o.blob {
        CompletionExchanges(Tables(), id, o);
      }
      if !up {
        return Err(Other);
      }
      if id !in uploads {
        return Err(NotFound);
      }
      prev := PutObjectTx(o);
      if prev.Err? {
        return;
      }
      uploads := uploads - {id};
    }

    method DeleteUpload(id: Id, up: bool) returns (r: Result<Session>)
      requires Valid()
      modifies this
      ensures Valid()
      ensures (Tables(), r) == DeleteUploadRow(old(Tables()), id, up)
      ensures Distinct(old(Tables())) && r.Ok? ==> Exchanged(old(Tables()), Tables(), {}, {r.value.blob})
    {
      if Distinct(Tables()) && id in uploads {
        SessionRemovalExchanges(Tables(), id);
      }
      if !up {
        return Err(Other);
      }
      if id !in uploads {
        return Err(NotFound);
      }
      var s := uploads[id];
      uploads := uploads - {id};
      return Ok(s);
    }

    method CountUploads(bucket: string) returns (count: nat)
      ensures count > 0 <==> HoldsUploads(Tables(), bucket)
      ensures count == |set id | id in uploads && uploads[id].bucket == bucket|
    {
      var live := set id | id in uploads && uploads[id].bucket == bucket;
      count := |live|;
      if HoldsUploads(Tables(), bucket) {
        var id :| id in uploads && uploads[id].bucket == bucket;
        assert id in live;
      } else {
        assert live == {};
      }
    }
  }
}
