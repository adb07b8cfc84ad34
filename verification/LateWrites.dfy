/** The bytes of a completed object under any interleaving: they stay as they are exactly if whatever is still on its way
    to its file is there already, and stable storage has all of the file. */
module LateWrites {
  import opened Stores
  import opened Crc32c
  import opened Checksum
  import opened Handlers
  import opened Interleaving
  import Multipart
  import Ownership
  import Sequential
  import Runs
  import Scenarios

  /** A part that has read a session over file b and not yet written: its next call writes to b, whatever has become of
      the session. */
  predicate Late(p: Proc, b: Id) {
    && p.req.PutPart? && p.pc.Loaded? && p.pc.s.blob == b
    && p.req.number.Some? && PartOffset(p.req.number.value, p.pc.s.partSize) >= 0
  }

  /** The file once it has. */
  function Landed(p: Proc, b: Id, file: Bytes): Bytes
    requires Late(p, b)
  {
    Overlay(file, PartOffset(p.req.number.value, p.pc.s.partSize), p.req.body.bytes)
  }

  /** Whatever is on its way to b is there already. */
  ghost predicate Harmless(s: Sys, b: Id) {
    b in s.files && forall q | q in s.procs && Late(s.procs[q], b) :: Landed(s.procs[q], b, s.files[b]) == s.files[b]
  }

  predicate Names(db: Db, at: (string, string), b: Id) {
    at in db.objects && db.objects[at].blob == b
  }

  /** The row is over b from the first to the last state of the run. */
  ghost predicate RowStays(s: Sys, limits: Limits, run: seq<Event>, at: (string, string), b: Id)
    decreases |run|
  {
    Names(s.db, at, b) && (run == [] || RowStays(Apply(s, run[0], limits), limits, run[1..], at, b))
  }

  ghost predicate BytesStay(s: Sys, limits: Limits, at: (string, string), b: Id) {
    b in s.files
    && forall run | RowStays(s, limits, run, at, b) :: b in Exec(s, limits, run).files && Exec(s, limits, run).files[b] == s.files[b]
  }

  // ---------- one call ----------

  /** A file a row names is written by no call but that of a late part, and what stable storage has of it stays. */
  ghost predicate FileKept(s: Sys, p: Proc, env: Env, limits: Limits, b: Id)
    requires b in s.files
  {
    var s1 := Call(s, p, env, limits).0;
    && b in s1.files && s1.files[b] == (if Late(p, b) then Landed(p, b, s.files[b]) else s.files[b])
    && (Stable(s, b) ==> b in s1.disk && s1.disk[b] == s.disk[b])
  }

  lemma CallKeepsFile(s: Sys, pid: nat, env: Env, limits: Limits, b: Id)
    requires Inv(s) && pid in s.procs && b in s.files && !Unowned(s.db, b)
    ensures FileKept(s, s.procs[pid], env, limits, b)
  {
    hide FileKept, SharedOk, Unowned, PutOk, InitOk, SnapshotOk, Call, Apart, Accounted;
    var p := s.procs[pid];
    assert ProcOk(s, p);
    if p.req.PutPart? && Live(p.pc) {
      PartKeepsFile(s, p, env, limits, b);
    } else if (p.req.PutObject? || p.req.CreateUpload?) && Live(p.pc) {
      MakerKeepsFile(s, p, env, limits, b);
    } else {
      OtherKeepsFile(s, p, env, limits, b);
    }
  }

  lemma PartKeepsFile(s: Sys, p: Proc, env: Env, limits: Limits, b: Id)
    requires p.req.PutPart? && Live(p.pc) && b in s.files
    ensures FileKept(s, p, env, limits, b)
  {
    hide Crc, EncodeCRC32C, Declare, Overlay, PartOffset, PartFault;
  }

  lemma MakerKeepsFile(s: Sys, p: Proc, env: Env, limits: Limits, b: Id)
    requires (p.req.PutObject? || p.req.CreateUpload?) && Live(p.pc) && b in s.files && p.req.newBlob != b
    ensures FileKept(s, p, env, limits, b)
  {
    hide Crc, EncodeCRC32C, PutFault, Declare, Overlay, ValidBucketName, ValidObjectKey;
  }

  lemma OtherKeepsFile(s: Sys, p: Proc, env: Env, limits: Limits, b: Id)
    requires b in s.files && (p.pc.Removing? ==> p.pc.blob != b)
    requires Live(p.pc) ==> !p.req.PutPart? && !p.req.PutObject? && !p.req.CreateUpload?
    ensures FileKept(s, p, env, limits, b)
  {
    hide CompleteCall, DeleteUploadCall, DeleteObjectCall, BucketCall, Crc, EncodeCRC32C;
    RowCallsKeepFiles(s, p, env, limits);
  }

  lemma RowCallsKeepFiles(s: Sys, p: Proc, env: Env, limits: Limits)
    ensures p.req.CompleteUpload? ==> CompleteCall(s, p.req, p.pc, env).0 == s.(db := CompleteCall(s, p.req, p.pc, env).0.db)
    ensures p.req.DeleteUpload? ==> DeleteUploadCall(s, p.req, p.pc, env).0 == s.(db := DeleteUploadCall(s, p.req, p.pc, env).0.db)
    ensures p.req.DeleteObject? ==> DeleteObjectCall(s, p.req, p.pc, env).0 == s.(db := DeleteObjectCall(s, p.req, p.pc, env).0.db)
    ensures p.req.CreateBucket? || p.req.DeleteBucket? ==>
              BucketCall(s, p.req, p.pc, env).0 == s.(db := BucketCall(s, p.req, p.pc, env).0.db)
  {
    hide Crc, EncodeCRC32C, CompletionFault, Fold, SessionFault, UpsertObject, ValidBucketName, ValidObjectKey;
  }

  /** No part reads a session over an object's file. */
  lemma NoneBecomesLate(s: Sys, p: Proc, env: Env, limits: Limits, at: (string, string), b: Id)
    requires Distinct(s.db) && Names(s.db, at, b)
    ensures !Late(Proc(p.req, Call(s, p, env, limits).1), b)
  {
    hide Crc, EncodeCRC32C, Declare, Overlay, PartOffset;
  }

  /** What a late part's own call does: the bytes land and the rows stay. */
  lemma LateLands(s: Sys, pid: nat, env: Env, limits: Limits, b: Id)
    requires pid in s.procs && Late(s.procs[pid], b) && b in s.files
    ensures var s' := Apply(s, Advance(pid, env), limits);
            s'.db == s.db && b in s'.files && s'.files[b] == Landed(s.procs[pid], b, s.files[b])
  {
    hide Crc, EncodeCRC32C, Declare, Overlay, PartOffset;
  }

  lemma EventKeepsBytes(s: Sys, e: Event, limits: Limits, at: (string, string), b: Id)
    requires Inv(s) && Names(s.db, at, b) && Harmless(s, b) && Stable(s, b)
    ensures var s' := Apply(s, e, limits); Harmless(s', b) && Stable(s', b) && s'.files[b] == s.files[b]
  {
    hide Call, Late, Landed, ProcOk, Apart, Accounted;
    if e.Advance? && e.pid in s.procs {
      CallKeepsFile(s, e.pid, e.env, limits, b);
      NoneBecomesLate(s, s.procs[e.pid], e.env, limits, at, b);
    } else if e.Start? {
      NotLateYet(e.req, b);
    }
  }

  lemma NotLateYet(r: Request, b: Id)
    ensures !Late(Proc(r, Begin), b)
  {
  }

  // ---------- every run ----------

  lemma {:induction false} RunKeepsBytes(s: Sys, limits: Limits, run: seq<Event>, at: (string, string), b: Id)
    requires Inv(s) && Harmless(s, b) && Stable(s, b) && RowStays(s, limits, run, at, b)
    ensures b in Exec(s, limits, run).files && Exec(s, limits, run).files[b] == s.files[b]
    decreases |run|
  {
    hide Inv, Apply, Harmless, Stable;
    if run != [] {
      EventKeepsBytes(s, run[0], limits, at, b);
      ApplyKeeps(s, run[0], limits);
      RunKeepsBytes(Apply(s, run[0], limits), limits, run[1..], at, b);
    }
    HarmlessHas(s, b);
  }

  lemma HarmlessHas(s: Sys, b: Id)
    requires Harmless(s, b)
    ensures b in s.files
  {
  }

  /** In every state any run reaches: whatever happens next, crashes included, the file of an object row stays as it is
      for as long as the row does, exactly if every part still on its way to it would leave it as it is and stable storage
      has all of it. */
  lemma ObjectBytesStay(limits: Limits, run: seq<Event>, at: (string, string), b: Id)
    requires Names(Ownership.Reached(limits, run).db, at, b)
    ensures var s := Ownership.Reached(limits, run); BytesStay(s, limits, at, b) <==> Harmless(s, b) && Stable(s, b)
  {
    hide Exec, Apply, Late, Landed, Inv;
    Ownership.NoDanglingRow(limits, run);
    Ownership.ReachedOk(limits, run);
    var s := Ownership.Reached(limits, run);
    DiskHas(s, b);
    if Harmless(s, b) && Stable(s, b) {
      forall next | RowStays(s, limits, next, at, b)
        ensures b in Exec(s, limits, next).files && Exec(s, limits, next).files[b] == s.files[b]
      {
        RunKeepsBytes(s, limits, next, at, b);
      }
    } else if !Stable(s, b) {
      BytesLost(s, limits, at, b);
    } else {
      var q :| q in s.procs && Late(s.procs[q], b) && Landed(s.procs[q], b, s.files[b]) != s.files[b];
      BytesMove(s, q, limits, at, b);
    }
  }

  lemma DiskHas(s: Sys, b: Id)
    requires Inv(s) && b in s.files
    ensures b in s.disk
  {
    hide Distinct, ProcOk, Apart, Accounted, UploadOk, RowOk;
  }

  /** A crash can leave what stable storage has. */
  lemma BytesLost(s: Sys, limits: Limits, at: (string, string), b: Id)
    requires Names(s.db, at, b) && b in s.files && b in s.disk && s.disk[b] != s.files[b]
    ensures !BytesStay(s, limits, at, b)
  {
    hide Claimed;
    var left := s.files[b := s.disk[b]];
    var next := [Crash(left)];
    assert MayBeLeft(s, left);
    assert next[1..] == [];
    assert Exec(s, limits, next) == Apply(s, next[0], limits);
    assert RowStays(s, limits, next, at, b);
  }

  lemma BytesMove(s: Sys, q: nat, limits: Limits, at: (string, string), b: Id)
    requires Names(s.db, at, b) && b in s.files && q in s.procs && Late(s.procs[q], b)
    requires Landed(s.procs[q], b, s.files[b]) != s.files[b]
    ensures !BytesStay(s, limits, at, b)
  {
    hide Apply, Late, Landed;
    var env := Env(0, {}, true, true, true, true, true, true);
    var next := [Advance(q, env)];
    LateLands(s, q, env, limits, b);
    assert next[1..] == [];
    assert Exec(s, limits, next) == Apply(s, next[0], limits);
    assert RowStays(s, limits, next, at, b);
  }

  // ---------- a part that is late, from an empty server ----------

  /** A request and all its calls, with nothing in between. */
  function Whole(pid: nat, r: Request, env: Env): seq<Event> {
    [Start(pid, r)] + Calls(pid, env, Sequential.MOST_CALLS)
  }

  function Calls(pid: nat, env: Env, n: nat): seq<Event> {
    if n == 0 then [] else [Advance(pid, env)] + Calls(pid, env, n - 1)
  }

  lemma {:induction false} ExecThen(s: Sys, limits: Limits, first: seq<Event>, rest: seq<Event>)
    ensures Exec(s, limits, first + rest) == Exec(Exec(s, limits, first), limits, rest)
    decreases |first|
  {
    hide Apply;
    if first == [] {
      assert first + rest == rest;
    } else {
      assert (first + rest)[0] == first[0] && (first + rest)[1..] == first[1..] + rest;
      ExecThen(Apply(s, first[0], limits), limits, first[1..], rest);
    }
  }

  /** A call reads nothing of the other processes and hands out no ids. */
  ghost predicate CallFramed(s: Sys, procs: map<nat, Proc>, p: Proc, env: Env, limits: Limits) {
    var (s1, pc) := Call(s, p, env, limits);
    && s1.procs == s.procs && s1.blobs == s.blobs && s1.sessions == s.sessions
    && Call(s.(procs := procs), p, env, limits) == (s1.(procs := procs), pc)
  }

  lemma ObjectCallFrame(s: Sys, procs: map<nat, Proc>, p: Proc, env: Env, limits: Limits)
    requires p.req.PutObject? || p.req.GetObject? || p.req.DeleteObject?
    ensures CallFramed(s, procs, p, env, limits)
  {
    hide Crc, EncodeCRC32C, UpsertObject, PutFault, ReadFault, ValidBucketName, ValidObjectKey, Declare, Overlay;
  }

  lemma SessionCallFrame(s: Sys, procs: map<nat, Proc>, p: Proc, env: Env, limits: Limits)
    requires p.req.CreateUpload? || p.req.DeleteUpload?
    ensures CallFramed(s, procs, p, env, limits)
  {
    hide SessionFault, ValidBucketName, ValidObjectKey;
  }

  lemma PartCallFrame(s: Sys, procs: map<nat, Proc>, p: Proc, env: Env, limits: Limits)
    requires p.req.PutPart? || p.req.CompleteUpload?
    ensures CallFramed(s, procs, p, env, limits)
  {
    hide Crc, EncodeCRC32C, CompletionFault, Fold, SessionFault, PartFault, UpsertObject, Declare, Overlay, PartOffset;
  }

  lemma BucketCallFrame(s: Sys, procs: map<nat, Proc>, p: Proc, env: Env, limits: Limits)
    requires p.req.CreateBucket? || p.req.DeleteBucket?
    ensures CallFramed(s, procs, p, env, limits)
  {
    hide ValidBucketName;
  }

  lemma CallFrame(s: Sys, procs: map<nat, Proc>, p: Proc, env: Env, limits: Limits)
    ensures CallFramed(s, procs, p, env, limits)
  {
    hide CallFramed;
    match p.req {
      case PutObject(_, _, _, _, _, _, _, _) => ObjectCallFrame(s, procs, p, env, limits);
      case GetObject(_, _) => ObjectCallFrame(s, procs, p, env, limits);
      case DeleteObject(_, _) => ObjectCallFrame(s, procs, p, env, limits);
      case CreateUpload(_, _, _) => SessionCallFrame(s, procs, p, env, limits);
      case DeleteUpload(_) => SessionCallFrame(s, procs, p, env, limits);
      case PutPart(_, _, _, _, _) => PartCallFrame(s, procs, p, env, limits);
      case CompleteUpload(_, _) => PartCallFrame(s, procs, p, env, limits);
      case CreateBucket(_, _) => BucketCallFrame(s, procs, p, env, limits);
      case DeleteBucket(_) => BucketCallFrame(s, procs, p, env, limits);
    }
  }

  lemma {:induction false} AloneFrame(s: Sys, procs: map<nat, Proc>, p: Proc, env: Env, limits: Limits, n: nat)
    ensures var (s1, pc) := Sequential.Alone(s, p, env, limits, n);
            && s1.procs == s.procs && s1.blobs == s.blobs && s1.sessions == s.sessions
            && Sequential.Alone(s.(procs := procs), p, env, limits, n) == (s1.(procs := procs), pc)
    decreases n
  {
    hide Call;
    if n > 0 {
      var (s1, pc) := Call(s, p, env, limits);
      CallFrame(s, procs, p, env, limits);
      AloneFrame(s1, procs, Proc(p.req, pc), env, limits, n - 1);
    }
  }

  lemma {:induction false} CallsAreAlone(s: Sys, pid: nat, env: Env, limits: Limits, n: nat)
    requires pid in s.procs
    ensures var (s1, pc) := Sequential.Alone(s, s.procs[pid], env, limits, n);
            Exec(s, limits, Calls(pid, env, n)) == s1.(procs := s.procs[pid := Proc(s.procs[pid].req, pc)])
    decreases n
  {
    hide Call;
    if n == 0 {
      assert s.procs[pid := s.procs[pid]] == s.procs;
    } else {
      var p := s.procs[pid];
      var (s1, pc) := Call(s, p, env, limits);
      var procs := s.procs[pid := Proc(p.req, pc)];
      Sequential.Advances(s, pid, env, limits);
      CallFrame(s, procs, p, env, limits);
      AloneFrame(s1, procs, Proc(p.req, pc), env, limits, n - 1);
      CallsAreAlone(s1.(procs := procs), pid, env, limits, n - 1);
      assert Calls(pid, env, n)[0] == Advance(pid, env) && Calls(pid, env, n)[1..] == Calls(pid, env, n - 1);
      assert forall pc' :: procs[pid := Proc(p.req, pc')] == s.procs[pid := Proc(p.req, pc')];
    }
  }

  /** A request that is not interleaved takes the files and tables where its atomic handler takes them. */
  lemma WholeIsServe(s: Sys, pid: nat, r: Request, env: Env, limits: Limits)
    requires pid !in s.procs && FreshIds(s, r)
    requires forall name | name in s.db.buckets :: s.db.buckets[name].name == name
    requires forall id | id in s.db.uploads :: s.db.uploads[id].id == id
    requires r.PutPart? ==> Multipart.Framed(r.contentLength, r.body)
    ensures var s' := Exec(s, limits, Whole(pid, r, env));
            && World(s'.files, s'.db) == Serve(World(s.files, s.db), env, limits, r).0
            && s'.procs.Keys == s.procs.Keys + {pid}
            && s'.blobs == s.blobs + NewBlobs(r) && s'.sessions == s.sessions + NewSessions(r)
  {
    hide Call, Serve, Sequential.Alone;
    var s0 := Apply(s, Start(pid, r), limits);
    assert Whole(pid, r, env)[0] == Start(pid, r) && Whole(pid, r, env)[1..] == Calls(pid, env, Sequential.MOST_CALLS);
    CallsAreAlone(s0, pid, env, limits, Sequential.MOST_CALLS);
    AloneFrame(s0, s0.procs, Proc(r, Begin), env, limits, Sequential.MOST_CALLS);
    Sequential.AloneIsServe(s0, r, env, limits);
  }

  /** A bucket and a session are created and "a" is accepted as part 1, one request after the other. */
  function Opening(env: Env, limits: Limits): seq<Event> {
    Whole(0, Scenarios.NewBucket(), env) + Whole(1, Scenarios.NewSession(limits), env)
    + Whole(2, Scenarios.Byte(1, 0x61, Scenarios.NO_CHECKSUM), env)
  }

  lemma OpeningServes(env: Env, limits: Limits)
    requires Scenarios.AllUp(env) && Scenarios.Roomy(limits)
    ensures var s := Ownership.Reached(limits, Opening(env, limits));
            World(s.files, s.db) == Scenarios.Serving(limits, env, map[1 := Scenarios.Record(0x61)], [0x61])
            && s.procs.Keys == {0, 1, 2}
  {
    hide Exec, Apply, Call, Serve, Whole, Crc, EncodeCRC32C;
    var bucket, session, part := Scenarios.NewBucket(), Scenarios.NewSession(limits), Scenarios.Byte(1, 0x61, Scenarios.NO_CHECKSUM);
    var s1 := Exec(BOOT, limits, Whole(0, bucket, env));
    var s2 := Exec(s1, limits, Whole(1, session, env));
    ExecThen(BOOT, limits, Whole(0, bucket, env), Whole(1, session, env));
    ExecThen(BOOT, limits, Whole(0, bucket, env) + Whole(1, session, env), Whole(2, part, env));
    WholeIsServe(BOOT, 0, bucket, env, limits);
    Scenarios.BucketOpens(limits, env);
    WholeIsServe(s1, 1, session, env, limits);
    Scenarios.Opens(limits, env);
    WholeIsServe(s2, 2, part, env, limits);
    Scenarios.WrittenOver();
    Multipart.FirstOffset(limits.partSizeMin);
    Scenarios.Accepts(limits, env, map[], [], 1, 0x61);
  }

  /** "a" has been accepted as part 1. A resend with "b" reads the session, the session completes, and then the resend
      writes: the row of the object describes "a" and its file holds "b", in a run from an empty server. */
  lemma LateResend(env: Env, limits: Limits)
    requires Scenarios.AllUp(env) && Scenarios.Roomy(limits)
    ensures var resend, complete := Sequential.LatePart(Scenarios.SESSION, [0x62]), Sequential.CompleteOne(Scenarios.SESSION);
            var run := Opening(env, limits) + [Start(3, resend), Advance(3, env), Start(4, complete), Advance(4, env),
                                               Advance(4, env), Advance(3, env)];
            var s := Ownership.Reached(limits, run);
            && (Scenarios.BUCKET, Scenarios.KEY) in s.db.objects && Scenarios.BLOB in s.files
            && var o := s.db.objects[(Scenarios.BUCKET, Scenarios.KEY)];
               && o.blob == Scenarios.BLOB && o.size == 1 && s.files[o.blob] == [0x62]
               && o.checksum == EncodeCRC32C(Crc([0x61])) && o.checksum != EncodeCRC32C(Crc(s.files[o.blob]))
  {
    Runs.SingleByteChecksums();
    hide Exec, Apply, Call, Opening, Crc, EncodeCRC32C;
    var resend, complete := Sequential.LatePart(Scenarios.SESSION, [0x62]), Sequential.CompleteOne(Scenarios.SESSION);
    var rest := [Start(3, resend), Advance(3, env), Start(4, complete), Advance(4, env), Advance(4, env), Advance(3, env)];
    var s := Ownership.Reached(limits, Opening(env, limits));
    OpeningServes(env, limits);
    ExecThen(BOOT, limits, Opening(env, limits), rest);
    Sequential.LateWrite(s, limits, Scenarios.SESSION, [0x61], [0x62], env, 3, 4);
    ExecSix(s, limits, rest);
  }

  lemma ExecFirst(s: Sys, limits: Limits, run: seq<Event>)
    requires run != []
    ensures Exec(s, limits, run) == Exec(Apply(s, run[0], limits), limits, run[1..])
  {
    hide Apply;
  }

  lemma ExecNone(s: Sys, limits: Limits)
    ensures Exec(s, limits, []) == s
  {
  }

  lemma ExecSix(s: Sys, limits: Limits, run: seq<Event>)
    requires |run| == 6
    ensures var s3 := Apply(Apply(Apply(s, run[0], limits), run[1], limits), run[2], limits);
            Exec(s, limits, run) == Apply(Apply(Apply(s3, run[3], limits), run[4], limits), run[5], limits)
  {
    hide Exec, Apply;
    ExecFirst(s, limits, run);
    var s1 := Apply(s, run[0], limits);
    ExecFirst(s1, limits, run[1..]);
    var s2 := Apply(s1, run[1], limits);
    assert run[1..][1..] == run[2..];
    ExecFirst(s2, limits, run[2..]);
    var s3 := Apply(s2, run[2], limits);
    assert run[2..][1..] == run[3..];
    ExecFirst(s3, limits, run[3..]);
    var s4 := Apply(s3, run[3], limits);
    assert run[3..][1..] == run[4..];
    ExecFirst(s4, limits, run[4..]);
    var s5 := Apply(s4, run[4], limits);
    assert run[4..][1..] == run[5..];
    ExecFirst(s5, limits, run[5..]);
    var s6 := Apply(s5, run[5], limits);
    assert run[5..][1..] == [];
    ExecNone(s6, limits);
  }
}
