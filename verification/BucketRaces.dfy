/** Deleting a bucket under any interleaving: it looks for objects, then for sessions, then deletes, and rows may be
    committed in between. */
module BucketRaces {
  import opened Stores
  import opened Crc32c
  import opened Checksum
  import opened Handlers
  import opened Interleaving
  import Ownership
  import Sequential
  import Scenarios
  import LateWrites

  // ---------- rows that come ----------

  /** The event is the commit of an object row: of a PUT, or of a complete. */
  predicate CommitsObject(s: Sys, e: Event, at: (string, string)) {
    e.Advance? && e.pid in s.procs && e.env.commit &&
    var p := s.procs[e.pid];
    || (p.req.PutObject? && p.pc.Flushed? && (p.req.bucket, p.req.key) == at)
    || (p.req.CompleteUpload? && p.pc.Loaded? && (p.pc.s.bucket, p.pc.s.key) == at)
  }

  /** The event is the commit of a session over the bucket. */
  predicate CommitsSession(s: Sys, e: Event, id: Id, bucket: string) {
    e.Advance? && e.pid in s.procs && e.env.commit &&
    var p := s.procs[e.pid];
    && p.req.CreateUpload? && p.pc.Made? && p.req.newSession == id
    && p.req.initiate.Some? && p.req.initiate.value.bucket == bucket
  }

  predicate HasObject(s: Sys, at: (string, string)) {
    at in s.db.objects
  }

  predicate HasSession(s: Sys, id: Id, bucket: string) {
    id in s.db.uploads && s.db.uploads[id].bucket == bucket
  }

  /** The row is there in every state of the run. */
  ghost predicate ObjectStays(s: Sys, limits: Limits, run: seq<Event>, at: (string, string))
    decreases |run|
  {
    HasObject(s, at) && (run == [] || ObjectStays(Apply(s, run[0], limits), limits, run[1..], at))
  }

  ghost predicate SessionStays(s: Sys, limits: Limits, run: seq<Event>, id: Id, bucket: string)
    decreases |run|
  {
    HasSession(s, id, bucket) && (run == [] || SessionStays(Apply(s, run[0], limits), limits, run[1..], id, bucket))
  }

  /** Some event of the run commits the row, and it is not deleted again. */
  ghost predicate ObjectComes(s: Sys, limits: Limits, run: seq<Event>, at: (string, string))
    decreases |run|
  {
    run != [] &&
    var s' := Apply(s, run[0], limits);
    || (CommitsObject(s, run[0], at) && ObjectStays(s', limits, run[1..], at))
    || ObjectComes(s', limits, run[1..], at)
  }

  ghost predicate SessionComes(s: Sys, limits: Limits, run: seq<Event>, id: Id, bucket: string)
    decreases |run|
  {
    run != [] &&
    var s' := Apply(s, run[0], limits);
    || (CommitsSession(s, run[0], id, bucket) && SessionStays(s', limits, run[1..], id, bucket))
    || SessionComes(s', limits, run[1..], id, bucket)
  }

  /** Nothing else puts a row into the tables. */
  lemma RowsComeByCommit(s: Sys, e: Event, limits: Limits, at: (string, string), id: Id, bucket: string)
    ensures HasObject(Apply(s, e, limits), at) ==> HasObject(s, at) || CommitsObject(s, e, at)
    ensures HasSession(Apply(s, e, limits), id, bucket) ==> HasSession(s, id, bucket) || CommitsSession(s, e, id, bucket)
  {
    hide Call, CommitsObject, CommitsSession;
    if e.Advance? && e.pid in s.procs {
      CallCommits(s, e.pid, e.env, limits, at, id, bucket);
    }
  }

  /** A row that is there after the call was there before, or the call committed it. */
  ghost predicate CommitSeen(s: Sys, pid: nat, env: Env, limits: Limits, at: (string, string), id: Id, bucket: string)
    requires pid in s.procs
  {
    var db := Call(s, s.procs[pid], env, limits).0.db;
    && (at in db.objects ==> HasObject(s, at) || CommitsObject(s, Advance(pid, env), at))
    && (id in db.uploads && db.uploads[id].bucket == bucket ==>
          HasSession(s, id, bucket) || CommitsSession(s, Advance(pid, env), id, bucket))
  }

  lemma CallCommits(s: Sys, pid: nat, env: Env, limits: Limits, at: (string, string), id: Id, bucket: string)
    requires pid in s.procs
    ensures CommitSeen(s, pid, env, limits, at, id, bucket)
  {
    hide CommitSeen;
    var r := s.procs[pid].req;
    if r.PutObject? || r.CompleteUpload? {
      ObjectCallCommits(s, pid, env, limits, at, id, bucket);
    } else if r.CreateUpload? || r.PutPart? {
      SessionCallCommits(s, pid, env, limits, at, id, bucket);
    } else {
      OtherCallCommits(s, pid, env, limits, at, id, bucket);
    }
  }

  lemma ObjectCallCommits(s: Sys, pid: nat, env: Env, limits: Limits, at: (string, string), id: Id, bucket: string)
    requires pid in s.procs && (s.procs[pid].req.PutObject? || s.procs[pid].req.CompleteUpload?)
    ensures CommitSeen(s, pid, env, limits, at, id, bucket)
  {
    hide Crc, EncodeCRC32C, CompletionFault, Fold, SessionFault, PutFault, Overlay;
  }

  lemma SessionCallCommits(s: Sys, pid: nat, env: Env, limits: Limits, at: (string, string), id: Id, bucket: string)
    requires pid in s.procs && (s.procs[pid].req.CreateUpload? || s.procs[pid].req.PutPart?)
    ensures CommitSeen(s, pid, env, limits, at, id, bucket)
  {
    hide Crc, EncodeCRC32C, PartFault, ValidBucketName, ValidObjectKey, Overlay, PartOffset;
  }

  lemma OtherCallCommits(s: Sys, pid: nat, env: Env, limits: Limits, at: (string, string), id: Id, bucket: string)
    requires pid in s.procs && !s.procs[pid].req.PutObject? && !s.procs[pid].req.CompleteUpload?
    requires !s.procs[pid].req.CreateUpload? && !s.procs[pid].req.PutPart?
    ensures CommitSeen(s, pid, env, limits, at, id, bucket)
  {
    hide PutObjectCall, CreateUploadCall, PutPartCall, CompleteCall, SessionFault, ReadFault, ValidBucketName, ValidObjectKey,
      HoldsObjects, HoldsUploads;
  }

  lemma {:induction false} ObjectsAtTheEnd(s: Sys, limits: Limits, run: seq<Event>, at: (string, string))
    ensures HasObject(Exec(s, limits, run), at) <==> ObjectStays(s, limits, run, at) || ObjectComes(s, limits, run, at)
    decreases |run|
  {
    hide Apply, HasObject, CommitsObject;
    if run != [] {
      RowsComeByCommit(s, run[0], limits, at, "", "");
      ObjectsAtTheEnd(Apply(s, run[0], limits), limits, run[1..], at);
    }
  }

  lemma {:induction false} SessionsAtTheEnd(s: Sys, limits: Limits, run: seq<Event>, id: Id, bucket: string)
    ensures HasSession(Exec(s, limits, run), id, bucket)
        <==> SessionStays(s, limits, run, id, bucket) || SessionComes(s, limits, run, id, bucket)
    decreases |run|
  {
    hide Apply, HasSession, CommitsSession;
    if run != [] {
      RowsComeByCommit(s, run[0], limits, ("", ""), id, bucket);
      SessionsAtTheEnd(Apply(s, run[0], limits), limits, run[1..], id, bucket);
    }
  }

  // ---------- the handler among the others ----------

  /** Events of other requests, and no crash. */
  predicate Others(run: seq<Event>, pid: nat) {
    forall e | e in run :: e.Start? || (e.Advance? && e.pid != pid)
  }

  lemma {:induction false} OthersLeave(s: Sys, limits: Limits, run: seq<Event>, pid: nat)
    requires pid in s.procs && Others(run, pid)
    ensures pid in Exec(s, limits, run).procs && Exec(s, limits, run).procs[pid] == s.procs[pid]
    decreases |run|
  {
    hide Call;
    if run != [] {
      assert run[0] in run;
      OthersLeave(Apply(s, run[0], limits), limits, run[1..], pid);
    }
  }

  /** The three calls of a delete, with what the other requests do in between. */
  datatype Delete = Delete(first: Env, between: seq<Event>, second: Env, after: seq<Event>, third: Env)

  ghost function FirstChecked(s: Sys, limits: Limits, pid: nat, d: Delete): Sys {
    Apply(s, Advance(pid, d.first), limits)
  }

  /** The sessions are counted here. */
  ghost function Counting(s: Sys, limits: Limits, pid: nat, d: Delete): Sys {
    Exec(FirstChecked(s, limits, pid, d), limits, d.between)
  }

  ghost function BothChecked(s: Sys, limits: Limits, pid: nat, d: Delete): Sys {
    Apply(Counting(s, limits, pid, d), Advance(pid, d.second), limits)
  }

  /** The bucket is deleted here. */
  ghost function Deleting(s: Sys, limits: Limits, pid: nat, d: Delete): Sys {
    Exec(BothChecked(s, limits, pid, d), limits, d.after)
  }

  ghost function Deleted(s: Sys, limits: Limits, pid: nat, d: Delete): Sys {
    Apply(Deleting(s, limits, pid, d), Advance(pid, d.third), limits)
  }

  ghost predicate Begins(s: Sys, pid: nat, name: string, d: Delete) {
    && pid in s.procs && s.procs[pid] == Proc(DeleteBucket(name), Begin) && ValidBucketName(name)
    && Others(d.between, pid) && Others(d.after, pid)
    && d.first.lookup && d.second.count && d.third.commit
  }

  /** A row that names the bucket was committed after the handler looked for rows of its kind, and was not deleted. */
  ghost predicate SlipsPast(s: Sys, limits: Limits, pid: nat, name: string, d: Delete) {
    || (exists at: (string, string) ::
          at.0 == name
          && ObjectComes(FirstChecked(s, limits, pid, d), limits, d.between + [Advance(pid, d.second)] + d.after, at))
    || (exists id: Id :: SessionComes(BothChecked(s, limits, pid, d), limits, d.after, id, name))
  }

  lemma CheckCalls(s: Sys, pid: nat, name: string, env: Env, limits: Limits)
    requires pid in s.procs && s.procs[pid].req == DeleteBucket(name) && ValidBucketName(name)
    requires var pc := s.procs[pid].pc;
             (pc == Begin || pc == Listed || pc == Counted || pc.Ended?)
             && (pc == Begin ==> env.lookup) && (pc == Listed ==> env.count) && (pc == Counted ==> env.commit)
    ensures var p, s' := s.procs[pid], Apply(s, Advance(pid, env), limits);
            && pid in s'.procs && s'.procs[pid].req == p.req
            && s' == s.(procs := s'.procs, db := s.db.(buckets := s'.db.buckets))
            && (p.pc == Begin ==>
                  s'.procs[pid].pc == if HoldsObjects(s.db, name) then Ended(Refused(BucketNotEmpty)) else Listed)
            && (p.pc == Listed ==>
                  s'.procs[pid].pc == if HoldsUploads(s.db, name) then Ended(Refused(BucketNotEmpty)) else Counted)
            && (p.pc == Counted ==>
                  s'.procs[pid].pc == Ended(if name !in s.db.buckets then Refused(BucketNotFound)
                                            else if HoldsObjects(s.db, name) || HoldsUploads(s.db, name) then Refused(Internal)
                                            else NoContent))
            && (p.pc.Ended? ==> s'.procs[pid].pc == p.pc)
            && s'.db.buckets == (if p.pc == Counted && s'.procs[pid].pc == Ended(NoContent) then s.db.buckets - {name} else s.db.buckets)
  {
    hide ValidBucketName, HoldsObjects, HoldsUploads;
  }

  /** When the bucket is deleted it holds an object or a session exactly if one slipped past the checks. */
  lemma HeldAtTheDelete(s: Sys, limits: Limits, pid: nat, name: string, d: Delete)
    requires !HoldsObjects(FirstChecked(s, limits, pid, d).db, name) && !HoldsUploads(BothChecked(s, limits, pid, d).db, name)
    ensures var db := Deleting(s, limits, pid, d).db;
            HoldsObjects(db, name) || HoldsUploads(db, name) <==> SlipsPast(s, limits, pid, name, d)
  {
    hide Exec, Apply, ObjectStays, SessionStays, ObjectComes, SessionComes;
    var s1, s3, s4 := FirstChecked(s, limits, pid, d), BothChecked(s, limits, pid, d), Deleting(s, limits, pid, d);
    var second := [Advance(pid, d.second)];
    LateWrites.ExecThen(s1, limits, d.between + second, d.after);
    LateWrites.ExecThen(s1, limits, d.between, second);
    ExecOne(Counting(s, limits, pid, d), limits, second[0]);
    assert s4 == Exec(s1, limits, d.between + second + d.after);
    forall at: (string, string) | at.0 == name
      ensures at in s4.db.objects <==> ObjectComes(s1, limits, d.between + second + d.after, at)
    {
      ObjectsAtTheEnd(s1, limits, d.between + second + d.after, at);
      NotThere(s1, limits, d.between + second + d.after, at);
    }
    forall id: Id
      ensures HasSession(s4, id, name) <==> SessionComes(s3, limits, d.after, id, name)
    {
      SessionsAtTheEnd(s3, limits, d.after, id, name);
      NoneThere(s3, limits, d.after, id, name);
    }
    if HoldsUploads(s4.db, name) {
      var id :| id in s4.db.uploads && s4.db.uploads[id].bucket == name;
      assert HasSession(s4, id, name);
    }
    if id :| SessionComes(s3, limits, d.after, id, name) {
      assert HasSession(s4, id, name);
    }
  }

  lemma ExecOne(s: Sys, limits: Limits, e: Event)
    ensures Exec(s, limits, [e]) == Apply(s, e, limits)
  {
    hide Apply;
    assert [e][1..] == [];
  }

  lemma NotThere(s: Sys, limits: Limits, run: seq<Event>, at: (string, string))
    requires !HasObject(s, at)
    ensures !ObjectStays(s, limits, run, at)
  {
  }

  lemma NoneThere(s: Sys, limits: Limits, run: seq<Event>, id: Id, bucket: string)
    requires !HasSession(s, id, bucket)
    ensures !SessionStays(s, limits, run, id, bucket)
  {
  }

  lemma DeletingOk(s: Sys, limits: Limits, pid: nat, d: Delete)
    requires Inv(s)
    ensures Inv(Deleting(s, limits, pid, d))
  {
    hide Inv, Apply, Exec;
    ApplyKeeps(s, Advance(pid, d.first), limits);
    ExecKeeps(FirstChecked(s, limits, pid, d), limits, d.between);
    ApplyKeeps(Counting(s, limits, pid, d), Advance(pid, d.second), limits);
    ExecKeeps(BothChecked(s, limits, pid, d), limits, d.after);
  }

  /** The answer of every delete of a bucket in every run, the stores being up for its own calls. It is refused for what
      it saw. If it saw nothing, it fails as internal exactly if a row slipped past its checks; otherwise it
      has deleted the bucket if there was one. */
  lemma DeleteBucketAnswers(limits: Limits, run: seq<Event>, pid: nat, name: string, d: Delete)
    requires Begins(Ownership.Reached(limits, run), pid, name, d)
    ensures var s := Ownership.Reached(limits, run);
            var last, deleted := Deleting(s, limits, pid, d).db, Deleted(s, limits, pid, d);
            && pid in deleted.procs
            && deleted.procs[pid].pc == Ended(
                 if HoldsObjects(s.db, name) || HoldsUploads(Counting(s, limits, pid, d).db, name) then Refused(BucketNotEmpty)
                 else if SlipsPast(s, limits, pid, name, d) then Refused(Internal)
                 else if name !in last.buckets then Refused(BucketNotFound)
                 else NoContent)
            && deleted.db == last.(buckets := if deleted.procs[pid].pc == Ended(NoContent) then last.buckets - {name} else last.buckets)
  {
    hide Exec, Apply, Inv, SlipsPast, HoldsObjects, HoldsUploads, ValidBucketName, Others;
    var s := Ownership.Reached(limits, run);
    Ownership.ReachedOk(limits, run);
    var s1, s2 := FirstChecked(s, limits, pid, d), Counting(s, limits, pid, d);
    var s3, s4 := BothChecked(s, limits, pid, d), Deleting(s, limits, pid, d);
    CheckCalls(s, pid, name, d.first, limits);
    OthersLeave(s1, limits, d.between, pid);
    CheckCalls(s2, pid, name, d.second, limits);
    OthersLeave(s3, limits, d.after, pid);
    CheckCalls(s4, pid, name, d.third, limits);
    SameRows(s, s1, name);
    SameRows(s2, s3, name);
    if !HoldsObjects(s.db, name) && !HoldsUploads(s2.db, name) {
      HeldAtTheDelete(s, limits, pid, name, d);
      DeletingOk(s, limits, pid, d);
      if SlipsPast(s, limits, pid, name, d) {
        HeldHasBucket(s4, name);
      }
    }
  }

  lemma SameRows(s: Sys, s': Sys, name: string)
    requires s'.db.objects == s.db.objects && s'.db.uploads == s.db.uploads
    ensures HoldsObjects(s'.db, name) <==> HoldsObjects(s.db, name)
    ensures HoldsUploads(s'.db, name) <==> HoldsUploads(s.db, name)
  {
  }

  lemma HeldHasBucket(s: Sys, name: string)
    requires Inv(s) && (HoldsObjects(s.db, name) || HoldsUploads(s.db, name))
    ensures name in s.db.buckets
  {
    hide SharedOk, ProcOk, Apart, Accounted;
    RowBuckets(s);
  }

  // ---------- a row that slips past, from an empty server ----------

  function OneByte(): Request {
    PutObject(Scenarios.BUCKET, Scenarios.KEY, 1, Scenarios.NO_CHECKSUM, "", map[], Stream([0x61], Done), Scenarios.BLOB)
  }

  /** The four calls of a PUT before its row. */
  lemma PutFlushes(s: Sys, env: Env, limits: Limits)
    requires Scenarios.AllUp(env) && Scenarios.BUCKET in s.db.buckets && Scenarios.BLOB !in s.files
    ensures var (s', pc) := Sequential.Alone(s, Proc(OneByte(), Begin), env, limits, 4); pc == Flushed && s'.db == s.db
  {
    Scenarios.NamesAreValid();
    hide Call, Sequential.Alone, Crc, EncodeCRC32C, Declare, Overlay, ValidBucketName, ValidObjectKey;
    Scenarios.DeclaresNothing();
    var r := OneByte();
    Sequential.PutObjectCalls(s, r, Begin, env, limits);
    Sequential.CallThen(s, Proc(r, Begin), env, limits, 4);
    Sequential.PutObjectCalls(s, r, Looked, env, limits);
    Sequential.CallThen(s, Proc(r, Looked), env, limits, 3);
    var made := PutObjectCall(s, r, Looked, env).0;
    Sequential.PutObjectCalls(made, r, Made, env, limits);
    Sequential.CallThen(made, Proc(r, Made), env, limits, 2);
    var wrote := PutObjectCall(made, r, Made, env).0;
    Sequential.PutObjectCalls(wrote, r, Wrote, env, limits);
    Sequential.CallThen(wrote, Proc(r, Wrote), env, limits, 1);
    AloneNone(PutObjectCall(wrote, r, Wrote, env).0, Proc(r, Flushed), env, limits);
  }

  lemma AloneNone(s: Sys, p: Proc, env: Env, limits: Limits)
    ensures Sequential.Alone(s, p, env, limits, 0) == (s, p.pc)
  {
  }

  lemma RowCommits(s: Sys, pid: nat, env: Env, limits: Limits)
    requires pid in s.procs && s.procs[pid] == Proc(OneByte(), Flushed) && env.commit && Scenarios.BUCKET in s.db.buckets
    ensures var s' := Apply(s, Advance(pid, env), limits);
            HoldsObjects(s'.db, Scenarios.BUCKET) && s'.db.buckets == s.db.buckets
            && forall q | q in s.procs && q != pid :: q in s'.procs && s'.procs[q] == s.procs[q]
  {
    hide Crc, EncodeCRC32C;
    var s' := Apply(s, Advance(pid, env), limits);
    assert (Scenarios.BUCKET, Scenarios.KEY) in s'.db.objects;
  }

  /** The run in which a bucket is deleted while a PUT into it is about to record its row. */
  function Delayed(env: Env): seq<Event> {
    LateWrites.Whole(0, Scenarios.NewBucket(), env) + [Start(1, OneByte())] + LateWrites.Calls(1, env, 4)
    + [Start(2, DeleteBucket(Scenarios.BUCKET))]
  }

  lemma DelayedStands(env: Env, limits: Limits)
    requires Scenarios.AllUp(env)
    ensures var s := Ownership.Reached(limits, Delayed(env));
            && 1 in s.procs && s.procs[1] == Proc(OneByte(), Flushed)
            && 2 in s.procs && s.procs[2] == Proc(DeleteBucket(Scenarios.BUCKET), Begin)
            && s.db == EMPTY_DB.(buckets := map[Scenarios.BUCKET := Bucket(Scenarios.BUCKET, false, env.now)])
  {
    hide Exec, Call, Serve, Sequential.Alone, LateWrites.Whole, LateWrites.Calls;
    var made, put := LateWrites.Whole(0, Scenarios.NewBucket(), env), [Start(1, OneByte())];
    var calls, delete := LateWrites.Calls(1, env, 4), [Start(2, DeleteBucket(Scenarios.BUCKET))];
    LateWrites.ExecThen(BOOT, limits, made + put + calls, delete);
    LateWrites.ExecThen(BOOT, limits, made + put, calls);
    LateWrites.ExecThen(BOOT, limits, made, put);
    LateWrites.WholeIsServe(BOOT, 0, Scenarios.NewBucket(), env, limits);
    Scenarios.BucketOpens(limits, env);
    var s0 := Exec(BOOT, limits, made);
    ExecOne(s0, limits, put[0]);
    var s1 := Exec(s0, limits, put);
    LateWrites.CallsAreAlone(s1, 1, env, limits, 4);
    LateWrites.AloneFrame(s1, s1.procs, s1.procs[1], env, limits, 4);
    PutFlushes(s1, env, limits);
    ExecOne(Exec(s1, limits, calls), limits, delete[0]);
  }

  /** A PUT commits its row between the checks of a delete and the delete: the answer is internal. */
  lemma DeleteMeetsPut(env: Env, limits: Limits)
    requires Scenarios.AllUp(env)
    ensures var s, d := Ownership.Reached(limits, Delayed(env)), Delete(env, [], env, [Advance(1, env)], env);
            && Begins(s, 2, Scenarios.BUCKET, d) && SlipsPast(s, limits, 2, Scenarios.BUCKET, d)
            && 2 in Deleted(s, limits, 2, d).procs && Deleted(s, limits, 2, d).procs[2].pc == Ended(Refused(Internal))
  {
    Scenarios.NamesAreValid();
    hide Exec, Apply, SlipsPast, HoldsObjects, HoldsUploads, ValidBucketName, Delayed, OneByte;
    var s, d := Ownership.Reached(limits, Delayed(env)), Delete(env, [], env, [Advance(1, env)], env);
    DelayedStands(env, limits);
    NothingHeld(s.db, Scenarios.BUCKET);
    DeleteBucketAnswers(limits, Delayed(env), 2, Scenarios.BUCKET, d);
    var s1, s3 := FirstChecked(s, limits, 2, d), BothChecked(s, limits, 2, d);
    LateWrites.ExecNone(s1, limits);
    CheckCalls(s, 2, Scenarios.BUCKET, env, limits);
    SameRows(s, s1, Scenarios.BUCKET);
    CheckCalls(s1, 2, Scenarios.BUCKET, env, limits);
    SameRows(s1, s3, Scenarios.BUCKET);
    ExecOne(s3, limits, Advance(1, env));
    OthersWait(s, 2, 1, env, limits);
    OthersWait(s1, 2, 1, env, limits);
    RowCommits(s3, 1, env, limits);
    HeldAtTheDelete(s, limits, 2, Scenarios.BUCKET, d);
  }

  lemma OthersWait(s: Sys, pid: nat, q: nat, env: Env, limits: Limits)
    requires pid in s.procs && q in s.procs && pid != q
    ensures q in Apply(s, Advance(pid, env), limits).procs && Apply(s, Advance(pid, env), limits).procs[q] == s.procs[q]
  {
    hide Call;
  }

  lemma NothingHeld(db: Db, name: string)
    requires db.objects == map[] && db.uploads == map[]
    ensures !HoldsObjects(db, name) && !HoldsUploads(db, name)
  {
  }
}
