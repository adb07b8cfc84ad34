/** Runs from an empty server that show what the theorems leave open does happen. In each a bucket and a session are
    created, parts are sent, and part 1 alone is completed. */
module Scenarios {
  import opened Wrappers
  import opened Stores
  import opened Crc32c
  import opened Checksum
  import opened Handlers
  import opened Multipart
  import opened Runs

  const BUCKET: string := "abc"
  const KEY: string := "k"
  const SESSION: Id := "up_1"
  const BLOB: Id := "f1"

  /** Every store call succeeds and the caller may do anything. */
  predicate AllUp(env: Env) {
    env.forbidden == {} && env.lookup && env.count && env.create && env.sync && env.commit && env.remove
  }

  predicate Roomy(limits: Limits) {
    1 <= limits.partSizeMin <= limits.partSizeMax && limits.maxParts >= 2 && limits.uploadTTL >= 0
  }

  const NO_CHECKSUM: Declared := Declared(true, "", "")

  function NewBucket(): Request {
    CreateBucket(BUCKET, Some(false))
  }

  function NewSession(limits: Limits): Request {
    CreateUpload(Some(Initiate(BUCKET, KEY, Some(limits.partSizeMin), "", map[])), BLOB, SESSION)
  }

  /** A part of one byte. */
  function Byte(n: int, b: bv8, declared: Declared): Request {
    PutPart(SESSION, Some(n), 1, declared, Stream([b], Done))
  }

  function CompleteFirst(): Request {
    CompleteUpload(SESSION, Some(Completion(1, None)))
  }

  function SessionRow(limits: Limits, env: Env, parts: map<int, Part>): Session {
    Session(SESSION, BUCKET, KEY, BLOB, limits.partSizeMin, DEFAULT_TYPE, map[], parts, env.now, env.now + limits.uploadTTL)
  }

  /** The server with the one session in it. */
  function Serving(limits: Limits, env: Env, parts: map<int, Part>, file: Bytes): World {
    World(map[BLOB := file],
          Db(map[BUCKET := Bucket(BUCKET, false, env.now)], map[], map[SESSION := SessionRow(limits, env, parts)]))
  }

  function Record(b: bv8): Part {
    Part(1, EncodeCRC32C(Crc([b])))
  }

  lemma NamesAreValid()
    ensures ValidBucketName(BUCKET) && ValidObjectKey(KEY)
  {
  }

  lemma BucketOpens(limits: Limits, env: Env)
    requires AllUp(env)
    ensures Serve(World(map[], EMPTY_DB), env, limits, NewBucket()).0
            == World(map[], EMPTY_DB.(buckets := map[BUCKET := Bucket(BUCKET, false, env.now)]))
  {
    NamesAreValid();
    hide ValidBucketName;
  }

  lemma Opens(limits: Limits, env: Env)
    requires AllUp(env) && Roomy(limits)
    ensures var w1 := Serve(World(map[], EMPTY_DB), env, limits, NewBucket()).0;
            && Serve(w1, env, limits, NewSession(limits)).0 == Serving(limits, env, map[], [])
  {
    NamesAreValid();
    hide ValidBucketName, ValidObjectKey;
  }

  lemma DeclaresNothing()
    ensures Declare(NO_CHECKSUM) == Absent
  {
  }

  /** A byte sent as part 1 or 2 is accepted. */
  lemma Accepts(limits: Limits, env: Env, parts: map<int, Part>, file: Bytes, n: int, b: bv8)
    requires AllUp(env) && Roomy(limits) && 1 <= n <= 2
    ensures var offset := PartOffset(n, limits.partSizeMin);
            && offset >= 0
            && Serve(Serving(limits, env, parts, file), env, limits, Byte(n, b, NO_CHECKSUM))
               == (Serving(limits, env, parts[n := Record(b)], Overlay(file, offset, [b])), PartRecord(n, 1, Record(b).checksum))
  {
    hide Crc, EncodeCRC32C, Overlay, PartOffset, Declare;
    DeclaresNothing();
    SlotStart(n, limits.partSizeMin);
    var w := Serving(limits, env, parts, file);
    assert PartFault(w.db, env, limits, Byte(n, b, NO_CHECKSUM)).None?;
    var row := SessionRow(limits, env, parts[n := Record(b)]);
    assert w.db.uploads[SESSION := row] == map[SESSION := row];
    var written := Overlay(file, PartOffset(n, limits.partSizeMin), [b]);
    assert w.files[BLOB := written] == map[BLOB := written];
  }

  /** The declared checksum of a body that is another one's. */
  function Wrongly(other: bv8): Declared {
    Declared(true, EncodeCRC32C(Crc([other])), "")
  }

  lemma WronglyDeclares(other: bv8)
    ensures Declare(Wrongly(other)) == Want(Crc([other]))
  {
    hide Crc;
    ParseEncode(Crc([other]));
    EncodedNotEmpty(Crc([other]));
  }

  lemma EncodedNotEmpty(crc: bv32)
    ensures EncodeCRC32C(crc) != ""
  {
  }

  /** A byte sent as part 1 under the checksum of another is refused, and is in the file. */
  lemma Refuses(limits: Limits, env: Env, parts: map<int, Part>, file: Bytes, b: bv8, other: bv8)
    requires AllUp(env) && Roomy(limits) && Crc([b]) != Crc([other])
    ensures Serve(Serving(limits, env, parts, file), env, limits, Byte(1, b, Wrongly(other)))
            == (Serving(limits, env, parts, Overlay(file, 0, [b])), Refused(ChecksumMismatch(None)))
  {
    hide Crc, EncodeCRC32C, Overlay, PartOffset, Declare, Wrongly;
    WronglyDeclares(other);
    FirstOffset(limits.partSizeMin);
    var w := Serving(limits, env, parts, file);
    assert PartFault(w.db, env, limits, Byte(1, b, Wrongly(other))).None?;
    assert w.files[BLOB := Overlay(file, 0, [b])] == map[BLOB := Overlay(file, 0, [b])];
  }

  function StoredObject(env: Env, b: bv8): Object {
    Object(BUCKET, KEY, BLOB, 1, DEFAULT_TYPE, EncodeCRC32C(Crc([b])), map[], env.now)
  }

  /** Part 1 completed: the object of its record, over the file as it is. */
  lemma Completes(limits: Limits, env: Env, parts: map<int, Part>, file: Bytes, b: bv8)
    requires AllUp(env) && Roomy(limits) && 1 in parts && parts[1] == Record(b)
    ensures Serve(Serving(limits, env, parts, file), env, limits, CompleteFirst())
            == (World(map[BLOB := file],
                      Db(map[BUCKET := Bucket(BUCKET, false, env.now)], map[(BUCKET, KEY) := StoredObject(env, b)], map[])),
                ObjectRecord(StoredObject(env, b)))
  {
    hide Crc, EncodeCRC32C, ParseChecksum, CompletionFault, Fold;
    var w := Serving(limits, env, parts, file);
    FoldsAlone(SessionRow(limits, env, parts), b);
    assert w.db.uploads - {SESSION} == map[];
  }

  lemma FoldsAlone(s: Session, b: bv8)
    requires 1 in s.parts && s.parts[1] == Record(b)
    ensures CompletionFault(s, Completion(1, None)).None?
    ensures (forall j | 1 <= j <= 1 :: j in s.parts) && Fold(s.parts, 1) == Some((Crc([b]), 1))
  {
    hide Crc, EncodeCRC32C, ParseChecksum;
    ParseEncode(Crc([b]));
    CompletionAccepted(s, Completion(1, None));
  }

  // ---------- the runs ----------

  function Run(env: Env, requests: seq<Request>): seq<Event> {
    seq(|requests|, i requires 0 <= i < |requests| => Event(env, requests[i]))
  }

  /** Requests served one after another; the states and nothing else. */
  function Served(w: World, env: Env, limits: Limits, requests: seq<Request>): World
    decreases |requests|
  {
    if requests == [] then w else Served(Serve(w, env, limits, requests[0]).0, env, limits, requests[1..])
  }

  lemma {:induction false} RunServes(w: World, h: History, env: Env, limits: Limits, requests: seq<Request>)
    ensures After(w, h, limits, Run(env, requests)).0 == Served(w, env, limits, requests)
    decreases |requests|
  {
    hide Serve, Observe;
    if requests != [] {
      var r := requests[0];
      RunServes(Serve(w, env, limits, r).0, Observe(w, h, env, limits, r), env, limits, requests[1..]);
      assert Run(env, requests)[1..] == Run(env, requests[1..]);
    }
  }

  /** A run that starts by opening the session, and from then on only sends to it, is admissible. */
  lemma {:induction false} PartsAreAdmissible(w: World, h: History, env: Env, limits: Limits, requests: seq<Request>)
    requires forall r | r in requests :: (r.PutPart? && Framed(r.contentLength, r.body)) || r.CompleteUpload?
    ensures AdmissibleRun(w, h, limits, Run(env, requests))
    decreases |requests|
  {
    hide Serve, Observe;
    if requests != [] {
      var r := requests[0];
      assert r in requests;
      PartsAreAdmissible(Serve(w, env, limits, r).0, Observe(w, h, env, limits, r), env, limits, requests[1..]);
      assert Run(env, requests)[1..] == Run(env, requests[1..]);
    }
  }

  lemma FromEmpty(env: Env, limits: Limits, parts: seq<Request>)
    requires AllUp(env) && Roomy(limits)
    requires forall r | r in parts :: (r.PutPart? && Framed(r.contentLength, r.body)) || r.CompleteUpload?
    ensures var run := Run(env, [NewBucket(), NewSession(limits)] + parts);
            && AdmissibleRun(World(map[], EMPTY_DB), NO_HISTORY, limits, run)
            && After(World(map[], EMPTY_DB), NO_HISTORY, limits, run).0 == Served(Serving(limits, env, map[], []), env, limits, parts)
  {
    hide Serve, Observe, Serving;
    var w0, all := World(map[], EMPTY_DB), [NewBucket(), NewSession(limits)] + parts;
    Opens(limits, env);
    RunServes(w0, NO_HISTORY, env, limits, all);
    assert all[1..] == [NewSession(limits)] + parts && all[1..][1..] == parts;
    var w1, h1 := Serve(w0, env, limits, NewBucket()).0, Observe(w0, NO_HISTORY, env, limits, NewBucket());
    var w2, h2 := Serve(w1, env, limits, NewSession(limits)).0, Observe(w1, h1, env, limits, NewSession(limits));
    PartsAreAdmissible(w2, h2, env, limits, parts);
    assert Run(env, all)[1..] == Run(env, all[1..]) && Run(env, all[1..])[1..] == Run(env, parts);
    BucketsAreNotRemembered(w0, env, limits);
  }

  lemma BucketsAreNotRemembered(w: World, env: Env, limits: Limits)
    ensures Observe(w, NO_HISTORY, env, limits, NewBucket()) == NO_HISTORY
  {
  }

  /** "a" is accepted as part 1, "b" is refused for its declared checksum, and part 1 is completed: the stored row
      describes "a", and its file holds "b". */
  lemma StaleChecksum(env: Env, limits: Limits)
    requires AllUp(env) && Roomy(limits)
    ensures var run := Run(env, [NewBucket(), NewSession(limits), Byte(1, 0x61, NO_CHECKSUM), Byte(1, 0x62, Wrongly(0x61)),
                                 CompleteFirst()]);
            && AdmissibleRun(World(map[], EMPTY_DB), NO_HISTORY, limits, run)
            && var w := After(World(map[], EMPTY_DB), NO_HISTORY, limits, run).0;
               && (BUCKET, KEY) in w.db.objects && BLOB in w.files
               && var o := w.db.objects[(BUCKET, KEY)];
                  && o.blob == BLOB && o.size == 1 && w.files[BLOB] == [0x62]
                  && o.checksum == EncodeCRC32C(Crc([0x61])) && o.checksum != EncodeCRC32C(Crc(w.files[BLOB][..o.size]))
  {
    SingleByteChecksums();
    hide Crc, EncodeCRC32C, Serve, Served, Serving, Wrongly;
    var parts := [Byte(1, 0x61, NO_CHECKSUM), Byte(1, 0x62, Wrongly(0x61)), CompleteFirst()];
    FromEmpty(env, limits, parts);
    assert [NewBucket(), NewSession(limits)] + parts ==
      [NewBucket(), NewSession(limits), Byte(1, 0x61, NO_CHECKSUM), Byte(1, 0x62, Wrongly(0x61)), CompleteFirst()];
    FirstOffset(limits.partSizeMin);
    WrittenOver();
    Accepts(limits, env, map[], [], 1, 0x61);
    Refuses(limits, env, map[1 := Record(0x61)], [0x61], 0x62, 0x61);
    Completes(limits, env, map[1 := Record(0x61)], [0x62], 0x61);
    ServedThree(Serving(limits, env, map[], []), env, limits, parts);
    assert [0x62][..1] == [0x62 as bv8];
  }

  lemma WrittenOver()
    ensures Overlay([], 0, [0x61]) == [0x61] && Overlay([0x61], 0, [0x62]) == [0x62]
  {
  }

  lemma ServedThree(w: World, env: Env, limits: Limits, requests: seq<Request>)
    requires |requests| == 3
    ensures Served(w, env, limits, requests) ==
            Serve(Serve(Serve(w, env, limits, requests[0]).0, env, limits, requests[1]).0, env, limits, requests[2]).0
  {
    hide Serve;
    var w1 := Serve(w, env, limits, requests[0]).0;
    var w2 := Serve(w1, env, limits, requests[1]).0;
    ServedFirst(w, env, limits, requests);
    ServedFirst(w1, env, limits, requests[1..]);
    assert requests[1..][1..] == requests[2..];
    ServedFirst(w2, env, limits, requests[2..]);
    assert requests[2..][1..] == [];
  }

  lemma ServedFirst(w: World, env: Env, limits: Limits, requests: seq<Request>)
    requires requests != []
    ensures Served(w, env, limits, requests) == Served(Serve(w, env, limits, requests[0]).0, env, limits, requests[1..])
    ensures forall v: World :: Served(v, env, limits, []) == v
  {
    hide Serve;
  }

  /** "a" is accepted as part 1 and "b" as part 2, and part 1 alone is completed: a GET serves more than the object. */
  lemma LongerFile(env: Env, limits: Limits)
    requires AllUp(env) && Roomy(limits)
    ensures var run := Run(env, [NewBucket(), NewSession(limits), Byte(1, 0x61, NO_CHECKSUM), Byte(2, 0x62, NO_CHECKSUM),
                                 CompleteFirst()]);
            && AdmissibleRun(World(map[], EMPTY_DB), NO_HISTORY, limits, run)
            && var w := After(World(map[], EMPTY_DB), NO_HISTORY, limits, run).0;
               var resp := GetObjectStep(w, env, BUCKET, KEY);
               && resp.Content? && resp.o.size == 1 && resp.o.checksum == EncodeCRC32C(Crc([0x61]))
               && [0x61] <= resp.bytes && |resp.bytes| == limits.partSizeMin + 1
  {
    NamesAreValid();
    hide Crc, EncodeCRC32C, Serve, Served, ValidBucketName, ValidObjectKey;
    var parts := [Byte(1, 0x61, NO_CHECKSUM), Byte(2, 0x62, NO_CHECKSUM), CompleteFirst()];
    FromEmpty(env, limits, parts);
    assert [NewBucket(), NewSession(limits)] + parts ==
      [NewBucket(), NewSession(limits), Byte(1, 0x61, NO_CHECKSUM), Byte(2, 0x62, NO_CHECKSUM), CompleteFirst()];
    FirstOffset(limits.partSizeMin);
    NextOffset(1, limits.partSizeMin);
    WrittenOver();
    var file := Overlay([0x61], limits.partSizeMin, [0x62]);
    OverlayBytes([0x61], limits.partSizeMin, [0x62]);
    hide Overlay, PartOffset;
    Accepts(limits, env, map[], [], 1, 0x61);
    Accepts(limits, env, map[1 := Record(0x61)], [0x61], 2, 0x62);
    Completes(limits, env, map[1 := Record(0x61)][2 := Record(0x62)], file, 0x61);
    ServedThree(Serving(limits, env, map[], []), env, limits, parts);
    assert file[..1] == [0x61];
  }
}
