/** Who owns which file, under any interleaving of requests at store-call granularity and a crash between any two calls. */
module Ownership {
  import opened Stores
  import opened Crc32c
  import opened Checksum
  import opened Handlers
  import opened Multipart
  import opened Interleaving

  /** The state after any sequence of arrivals, calls and crashes, from an empty disk and empty tables. */
  ghost function Reached(limits: Limits, run: seq<Interleaving.Event>): Sys {
    Exec(BOOT, limits, run)
  }

  lemma ReachedOk(limits: Limits, run: seq<Interleaving.Event>)
    ensures Interleaving.Inv(Reached(limits, run))
  {
    BootOk();
    ExecKeeps(BOOT, limits, run);
  }

  /** No dangling row and no shared file: every object row and every session names a file that exists and a bucket that
      exists, no file is named twice, and a file about to be removed is named by nothing. */
  lemma NoDanglingRow(limits: Limits, run: seq<Interleaving.Event>)
    ensures var s := Reached(limits, run);
            && (forall at | at in s.db.objects :: s.db.objects[at].blob in s.files && s.db.objects[at].bucket in s.db.buckets)
            && (forall id | id in s.db.uploads :: s.db.uploads[id].blob in s.files && s.db.uploads[id].bucket in s.db.buckets)
            && Distinct(s.db)
            && (forall q | q in s.procs && s.procs[q].pc.Removing? :: Unowned(s.db, s.procs[q].pc.blob))
  {
    hide Distinct, Unowned, Crc, EncodeCRC32C, Exec;
    ReachedOk(limits, run);
    var s := Reached(limits, run);
    forall at | at in s.db.objects
      ensures s.db.objects[at].blob in s.files && s.db.objects[at].bucket in s.db.buckets
    {
      assert RowOk(s, at);
    }
    forall id | id in s.db.uploads
      ensures s.db.uploads[id].blob in s.files && s.db.uploads[id].bucket in s.db.buckets
    {
      assert UploadOk(s, id);
    }
    forall q | q in s.procs && s.procs[q].pc.Removing?
      ensures Unowned(s.db, s.procs[q].pc.blob)
    {
      assert ProcOk(s, s.procs[q]);
    }
  }

  /** The content of a single PUT is safe from every interleaving and every crash: a row whose file no session ever wrote
      describes the whole of that file, and stable storage has all of it. */
  lemma PutContentHolds(limits: Limits, run: seq<Interleaving.Event>, at: (string, string))
    requires at in Reached(limits, run).db.objects
    requires Reached(limits, run).db.objects[at].blob !in Reached(limits, run).bySession
    ensures var s := Reached(limits, run);
            var o := s.db.objects[at];
            && Stable(s, o.blob)
            && o.size == |s.files[o.blob]| && o.checksum == EncodeCRC32C(Crc(s.files[o.blob]))
  {
    hide Distinct, Unowned, Crc, EncodeCRC32C, Exec;
    ReachedOk(limits, run);
    assert RowOk(Reached(limits, run), at);
  }

  // ---------- conservation ----------

  ghost predicate Quiescent(s: Sys) {
    forall q | q in s.procs :: s.procs[q].pc.Ended?
  }

  /** Between requests the files on disk are exactly those the rows name and those given up on. */
  lemma FilesAccounted(limits: Limits, run: seq<Interleaving.Event>, b: Id)
    requires Quiescent(Reached(limits, run))
    ensures var s := Reached(limits, run);
            b in s.files <==> !Unowned(s.db, b) || b in s.orphans
  {
    hide Distinct, Crc, EncodeCRC32C, Exec;
    ReachedOk(limits, run);
    var s := Reached(limits, run);
    if b in s.files {
      assert Accounted(s, b);
    }
    if !Unowned(s.db, b) {
      NamedFile(s, b);
    }
  }

  /** The events after which nothing is given up on: no crash, no failed removal, and no PUT whose row fails to commit,
      which is when the tables are down or the bucket was deleted since the PUT looked it up. */
  predicate Faultless(s: Sys, e: Interleaving.Event) {
    match e
    case Start(_, _) => true
    case Advance(pid, env) =>
      pid in s.procs ==>
        && (s.procs[pid].pc.Removing? ==> env.remove)
        && (s.procs[pid].req.PutObject? && s.procs[pid].pc.Flushed? ==>
              env.commit && s.procs[pid].req.bucket in s.db.buckets)
    case Crash(_) => false
  }

  ghost predicate FaultlessRun(s: Sys, limits: Limits, run: seq<Interleaving.Event>)
    decreases |run|
  {
    run == [] || (Faultless(s, run[0]) && FaultlessRun(Apply(s, run[0], limits), limits, run[1..]))
  }

  /** One event gives a file up exactly when it is not faultless and the file was answered for. */
  lemma OrphansGrow(s: Sys, e: Interleaving.Event, limits: Limits)
    requires Interleaving.Inv(s)
    ensures Faultless(s, e) ==> Apply(s, e, limits).orphans == s.orphans
    ensures !Faultless(s, e) && e.Advance? ==> Apply(s, e, limits).orphans > s.orphans
  {
    hide Crc, EncodeCRC32C, CompletionFault, Fold, SharedOk, PartFault, PutFault, SessionFault, ReadFault, ValidBucketName,
      ValidObjectKey, PutOk, InitOk, SnapshotOk, Overlay, Declare, PartOffset;
    if e.Advance? && e.pid in s.procs {
      assert ProcOk(s, s.procs[e.pid]);
    }
  }

  lemma {:induction false} FaultlessKeepsOrphans(s: Sys, limits: Limits, run: seq<Interleaving.Event>)
    requires Interleaving.Inv(s) && FaultlessRun(s, limits, run)
    ensures Exec(s, limits, run).orphans == s.orphans
    decreases |run|
  {
    hide Interleaving.Inv, Apply, Faultless;
    if run != [] {
      OrphansGrow(s, run[0], limits);
      ApplyKeeps(s, run[0], limits);
      FaultlessKeepsOrphans(Apply(s, run[0], limits), limits, run[1..]);
    }
  }

  /** Conservation: after any faultless run, once no request is in progress, the files on disk are exactly those named
      by object rows and live sessions. */
  lemma NoOrphans(limits: Limits, run: seq<Interleaving.Event>, b: Id)
    requires FaultlessRun(BOOT, limits, run) && Quiescent(Reached(limits, run))
    ensures b in Reached(limits, run).files <==> !Unowned(Reached(limits, run).db, b)
  {
    hide Exec, Unowned, FaultlessRun;
    BootOk();
    FaultlessKeepsOrphans(BOOT, limits, run);
    FilesAccounted(limits, run, b);
  }
}
