/** The concurrent uploader and the server together: sdk/typescript/src/client.ts `upload` against
    internal/httpapi/uploads.go. Worker events and whole requests interleave freely; a part request may reach the
    server late, cut off, or without its answer ever reaching the worker, and other clients use the server meanwhile. */
module Transfer {
  import opened Wrappers
  import opened Stores
  import opened Crc32c
  import opened Checksum
  import opened Handlers
  import opened Multipart
  import Runs
  import U = Uploader

  /** acks: the answers to accepted parts of the session, number and checksum. */
  datatype Joint = Joint(client: U.State, w: World, h: History, acks: set<(int, string)>)

  datatype Step = Client(event: U.Event) | Server(request: Runs.Event)

  /** The upload: a source, its plan, the session it goes to. */
  datatype Job = Job(limits: Limits, id: Id, data: Bytes, plan: U.Plan)

  predicate ValidJob(job: Job) {
    && job.limits.partSizeMin >= 1 && U.ValidPlan(job.plan) && job.plan.size == |job.data|
  }

  /** A worker takes an answer only if the server gave it; only this upload sends parts to the session. */
  ghost predicate Can(job: Job, j: Joint, step: Step)
    requires ValidJob(job)
  {
    match step
    case Client(e) =>
      U.Enabled(job.plan, j.client, e) && (e.Accepted? ==> (j.client.workers[e.w].n, e.checksum) in j.acks)
    case Server(e) =>
      Admissible(j.h, e.request) && Runs.SendsSource(j.w.db, e.request, job.id, job.data)
  }

  ghost function Next(job: Job, j: Joint, step: Step): Joint
    requires ValidJob(job) && Can(job, j, step)
  {
    match step
    case Client(e) => j.(client := U.Resume(job.plan, j.client, e))
    case Server(e) =>
      var (w, resp) := Serve(j.w, e.env, job.limits, e.request);
      j.(w := w, h := Observe(j.w, j.h, e.env, job.limits, e.request),
         acks := if e.request.PutPart? && e.request.id == job.id && resp.PartRecord? then j.acks + {(resp.part, resp.checksum)}
                 else j.acks)
  }

  ghost predicate CanRun(job: Job, j: Joint, run: seq<Step>)
    requires ValidJob(job)
    decreases |run|
  {
    run == [] || (Can(job, j, run[0]) && CanRun(job, Next(job, j, run[0]), run[1..]))
  }

  ghost function After(job: Job, j: Joint, run: seq<Step>): Joint
    requires ValidJob(job) && CanRun(job, j, run)
    decreases |run|
  {
    if run == [] then j else After(job, Next(job, j, run[0]), run[1..])
  }

  // ---------- what every joint run keeps ----------

  /** The checksum of part n of the source. */
  function SourceChecksum(job: Job, n: int): string
    requires ValidJob(job)
  {
    EncodeCRC32C(Crc(Runs.Slice(job.data, job.plan.partSize, n)))
  }

  /** An acknowledged part is recorded as long as the session lives, and the answer was the source's checksum. */
  ghost predicate AcksOk(job: Job, w: World, acks: set<(int, string)>)
    requires ValidJob(job)
  {
    && (job.id in w.db.uploads ==> w.db.uploads[job.id].partSize == job.plan.partSize)
    && forall ack | ack in acks ::
         && ack.1 == SourceChecksum(job, ack.0)
         && (job.id in w.db.uploads ==> ack.0 in w.db.uploads[job.id].parts)
  }

  /** A finished part was acknowledged with the checksum the uploader noted. */
  ghost predicate Noted(client: U.State, acks: set<(int, string)>) {
    forall n | U.Finished(client, n) :: (n, client.checksums[n - 1].value) in acks
  }

  ghost predicate Sound(job: Job, j: Joint)
    requires ValidJob(job)
  {
    && Multipart.Inv(j.w, j.h) && Runs.FromSource(j.w, j.h, job.id, job.data)
    && U.Inv(job.plan, j.client) && AcksOk(job, j.w, j.acks) && Noted(j.client, j.acks)
  }

  lemma ClientKeeps(job: Job, j: Joint, e: U.Event)
    requires ValidJob(job) && Sound(job, j) && Can(job, j, Client(e))
    ensures Sound(job, Next(job, j, Client(e)))
  {
    hide Multipart.Inv, Runs.FromSource, U.Inv, AcksOk;
    U.ResumeKeeps(job.plan, j.client, e);
    AnswerNoted(job, j, e);
  }

  lemma AnswerNoted(job: Job, j: Joint, e: U.Event)
    requires ValidJob(job) && Noted(j.client, j.acks) && Can(job, j, Client(e))
    ensures Noted(U.Resume(job.plan, j.client, e), j.acks)
  {
    hide U.Count, U.Length, U.Reported;
    forall n | U.Finished(U.Resume(job.plan, j.client, e), n)
      ensures (n, U.Resume(job.plan, j.client, e).checksums[n - 1].value) in j.acks
    {
      if !(e.Accepted? && n == j.client.workers[e.w].n) {
        assert U.Finished(j.client, n);
      }
    }
  }

  /** A part of this session reaches the server. */
  lemma PartKeepsAcks(job: Job, j: Joint, e: Runs.Event)
    requires ValidJob(job) && Sound(job, j) && Can(job, j, Server(e))
    requires e.request.PutPart? && e.request.id == job.id
    ensures AcksOk(job, Next(job, j, Server(e)).w, Next(job, j, Server(e)).acks)
  {
    hide PutPartStep, PartFault, PartsOk, ObjectOk, Distinct, Overlay, PartOffset, Runs.Slice, Crc, EncodeCRC32C, U.Inv,
      Runs.FromSource, Observe;
    var r := e.request;
    if PartFault(j.w.db, e.env, job.limits, r).Some? {
      RefusedPart(j.w, e.env, job.limits, r);
      PartAnswers(j.w, e.env, job.limits, r);
    } else {
      Runs.LoadedSession(j.w.db, e.env, job.limits, r);
      assert SessionOk(j.w, j.h, job.id);
      PutPartShape(j.w, e.env, job.limits, r);
      if PutPartStep(j.w, e.env, job.limits, r).1.PartRecord? {
        assert r.body.bytes == Runs.Slice(job.data, job.plan.partSize, r.number.value);
      }
    }
  }

  lemma PartAnswers(w: World, env: Env, limits: Limits, r: Request)
    requires r.PutPart? && PartFault(w.db, env, limits, r).Some?
    ensures PutPartStep(w, env, limits, r).1.Refused?
  {
  }

  lemma OtherKeepsAcks(job: Job, j: Joint, e: Runs.Event)
    requires ValidJob(job) && Sound(job, j) && Can(job, j, Server(e))
    requires !(e.request.PutPart? && e.request.id == job.id)
    ensures AcksOk(job, Next(job, j, Server(e)).w, Next(job, j, Server(e)).acks)
  {
    hide Serve, Observe, Multipart.Inv, U.Inv, Runs.SendsSource, SourceChecksum;
    if job.id in Serve(j.w, e.env, job.limits, e.request).0.db.uploads {
      Runs.Undisturbed(j.w, j.h, e.env, job.limits, e.request, job.id);
    }
  }

  lemma ServerKeeps(job: Job, j: Joint, e: Runs.Event)
    requires ValidJob(job) && Sound(job, j) && Can(job, j, Server(e))
    ensures Sound(job, Next(job, j, Server(e)))
  {
    hide Multipart.Inv, Runs.FromSource, U.Inv, AcksOk, Serve, Observe, Admissible, Runs.SendsSource;
    ServeKeeps(j.w, j.h, e.env, job.limits, e.request);
    Runs.FromSourceKeeps(j.w, j.h, e.env, job.limits, e.request, job.id, job.data);
    if e.request.PutPart? && e.request.id == job.id {
      PartKeepsAcks(job, j, e);
    } else {
      OtherKeepsAcks(job, j, e);
    }
  }

  lemma {:induction false} RunKeeps(job: Job, j: Joint, run: seq<Step>)
    requires ValidJob(job) && Sound(job, j) && CanRun(job, j, run)
    ensures Sound(job, After(job, j, run))
    decreases |run|
  {
    hide Sound, Can, Next;
    if run != [] {
      match run[0] {
        case Client(e) => ClientKeeps(job, j, e);
        case Server(e) => ServerKeeps(job, j, e);
      }
      RunKeeps(job, Next(job, j, run[0]), run[1..]);
    }
  }

  // ---------- the upload, from its session to the object ----------

  function Noting(checksums: seq<Option<string>>): seq<string>
    requires forall c | c in checksums :: c.Some?
    ensures |Noting(checksums)| == |checksums|
    ensures forall i | 0 <= i < |checksums| :: Noting(checksums)[i] == checksums[i].value
  {
    seq(|checksums|, i requires 0 <= i < |checksums| => assert checksums[i] in checksums; checksums[i].value)
  }

  /** The state in which the workers start: the session was just created for this plan. */
  ghost predicate Starts(job: Job, j: Joint, concurrency: nat, created: Runs.Event, w: World, h: History)
    requires ValidJob(job)
  {
    && Runs.Reachable(job.limits, w, h) && Admissible(h, created.request)
    && created.request.CreateUpload? && created.request.newSession == job.id
    && var (w', resp) := Serve(w, created.env, job.limits, created.request);
       && resp.SessionRecord? && resp.s.partSize == job.plan.partSize
       && j == Joint(U.Initial(job.plan, concurrency), w', Observe(w, h, created.env, job.limits, created.request), {})
  }

  lemma StartsSound(job: Job, j: Joint, concurrency: nat, created: Runs.Event, w: World, h: History)
    requires ValidJob(job) && Starts(job, j, concurrency, created, w, h)
    ensures Sound(job, j)
  {
    hide Observe, Multipart.Inv, Runs.FromSource, U.Inv, Runs.Reachable, CreateUploadStep;
    Runs.ReachableInv(job.limits, w, h);
    ServeKeeps(w, h, created.env, job.limits, created.request);
    Runs.CreatedFromSource(w, h, created.env, job.limits, created.request, job.data);
    U.InitialInv(job.plan, concurrency);
    CreateUploadShape(w, created.env, job.limits, created.request);
  }

  /** When all workers returned, every part of the source is recorded as the uploader noted it. */
  lemma PartsRecorded(job: Job, j: Joint)
    requires ValidJob(job) && Sound(job, j) && U.AllFinished(job.plan, j.client) && job.id in j.w.db.uploads
    ensures |j.client.checksums| == U.Count(job.plan)
    ensures forall c | c in j.client.checksums :: c.Some?
    ensures forall n | 1 <= n <= U.Count(job.plan) ::
              && n in j.w.db.uploads[job.id].parts
              && j.client.checksums[n - 1] == Some(j.w.db.uploads[job.id].parts[n].checksum)
              && j.w.db.uploads[job.id].parts[n].size == U.Length(job.plan, n)
  {
    hide Runs.PartCount, Crc, EncodeCRC32C, Runs.Slice, PartOffset, U.Flights, U.Tally, U.Finishing, ObjectOk;
    assert SessionOk(j.w, j.h, job.id);
    var s := j.w.db.uploads[job.id];
    forall c | c in j.client.checksums
      ensures c.Some?
    {
      var i :| 0 <= i < |j.client.checksums| && j.client.checksums[i] == c;
      assert U.Finished(j.client, i + 1);
    }
    forall n | 1 <= n <= U.Count(job.plan)
      ensures n in s.parts && j.client.checksums[n - 1] == Some(s.parts[n].checksum)
      ensures s.parts[n].size == U.Length(job.plan, n)
    {
      assert U.Finished(j.client, n);
      assert (n, j.client.checksums[n - 1].value) in j.acks;
      SliceMeasure(job, n);
    }
  }

  lemma SliceMeasure(job: Job, n: int)
    requires ValidJob(job) && 1 <= n <= U.Count(job.plan)
    ensures |Runs.Slice(job.data, job.plan.partSize, n)| == U.Length(job.plan, n)
  {
    hide Runs.PartCount, PartOffset;
    Runs.PartCountBounds(job.plan.size, job.plan.partSize);
    Runs.OffsetsGrow(n, n, job.plan.partSize);
    Runs.OffsetsGrow(n, U.Count(job.plan), job.plan.partSize);
  }

  /** The completing request of an upload whose workers all returned. */
  ghost predicate Completes(job: Job, j: Joint, r: Request)
    requires ValidJob(job)
  {
    && r.CompleteUpload? && r.id == job.id && (forall c | c in j.client.checksums :: c.Some?)
    && r.completion == Some(Completion(U.Count(job.plan), Some(Noting(j.client.checksums))))
  }

  lemma NotDisputed(job: Job, j: Joint, r: Request)
    requires ValidJob(job) && Sound(job, j) && U.AllFinished(job.plan, j.client) && job.id in j.w.db.uploads
    requires Completes(job, j, r)
    ensures r.completion.value.parts >= 1
    ensures CompletionFault(j.w.db.uploads[job.id], r.completion.value).None?
  {
    hide Runs.FromSource, AcksOk, Noted, Runs.PartCount, CompletionFault, PartsOk, SessionOk, ObjectOk, U.Inv, U.Finished, PartOffset;
    PartsRecorded(job, j);
    U.LastEnd(job.plan);
    Runs.RecordsParse(j.w, j.h, job.id);
    var s, c := j.w.db.uploads[job.id], r.completion.value;
    forall n | 1 <= n < c.parts
      ensures s.parts[n].size == s.partSize
    {
      hide U.Length;
      U.LengthBounds(job.plan, n);
      PlanOfSession(job, j);
    }
    CompletionAccepted(s, c);
  }

  lemma PlanOfSession(job: Job, j: Joint)
    requires ValidJob(job) && Sound(job, j) && job.id in j.w.db.uploads
    ensures j.w.db.uploads[job.id].partSize == job.plan.partSize
  {
  }

  /** The upload stores the source. For every source, part size and concurrency of at least one, every interleaving of
      the workers with each other, with lost, late and repeated part requests and with any other traffic: once all
      workers returned, complete does not find a part missing, short or disputed, and what it stores is the source. */
  lemma UploadStoresSource(
      job: Job, j0: Joint, concurrency: nat, created: Runs.Event, w: World, h: History, run: seq<Step>, completed: Runs.Event)
    requires ValidJob(job) && Starts(job, j0, concurrency, created, w, h) && concurrency >= 1
    requires CanRun(job, j0, run) && U.Fulfilled(After(job, j0, run).client)
    requires Completes(job, After(job, j0, run), completed.request)
    ensures var j := After(job, j0, run);
            var (w', resp) := Serve(j.w, completed.env, job.limits, completed.request);
            && (resp.Refused? ==> !resp.fault.UploadIncomplete? && !resp.fault.PartSizeMismatch? && !resp.fault.ChecksumMismatch?)
            && (SessionFault(j.w.db, completed.env, job.id).None? && completed.env.commit ==> resp.ObjectRecord?)
            && (resp.ObjectRecord? ==>
                  && resp.o.size == |job.data| && resp.o.checksum == EncodeCRC32C(Crc(job.data))
                  && resp.o.blob in w'.files && w'.files[resp.o.blob] == job.data)
            && j.client.reported == |job.data|
  {
    hide Starts, CanRun, Multipart.Inv, Runs.FromSource, AcksOk, Noted, Runs.PartCount, CompletionFault, Crc,
      EncodeCRC32C, Fold, U.Fulfilled, U.Flights, U.Finishing;
    var j := After(job, j0, run);
    StartsSound(job, j0, concurrency, created, w, h);
    RunKeeps(job, j0, run);
    WorkersStay(job, j0, run, concurrency, created, w, h);
    U.AllReturned(job.plan, j.client);
    EverythingReported(job, j);
    if SessionFault(j.w.db, completed.env, job.id).None? {
      NotDisputed(job, j, completed.request);
      CompleteAnswers(job, j, completed.env, completed.request);
      if Serve(j.w, completed.env, job.limits, completed.request).1.ObjectRecord? {
        PlanOfSession(job, j);
        Runs.CompleteStoresSource(j.w, j.h, completed.env, job.limits, completed.request, job.data);
      }
    } else {
      GoneAnswers(j.w, completed.env, job.limits, completed.request);
    }
  }

  lemma EverythingReported(job: Job, j: Joint)
    requires ValidJob(job) && U.Inv(job.plan, j.client) && U.AllFinished(job.plan, j.client)
    ensures j.client.reported == |job.data|
  {
    hide U.Claims, U.Length, U.Flights, U.End;
    U.LastEnd(job.plan);
    U.ProgressBound(job.plan, j.client, U.Count(job.plan));
  }

  lemma CompleteAnswers(job: Job, j: Joint, env: Env, r: Request)
    requires ValidJob(job) && Multipart.Inv(j.w, j.h) && r.CompleteUpload? && r.id == job.id && r.completion.Some?
    requires SessionFault(j.w.db, env, job.id).None?
    requires var c := r.completion.value;
             && c.parts >= 1 && (c.checksums.Some? ==> |c.checksums.value| == c.parts)
             && CompletionFault(j.w.db.uploads[job.id], c).None?
    ensures var resp := Serve(j.w, env, job.limits, r).1;
            && (resp.Refused? ==> resp.fault == Internal)
            && (env.commit ==> resp.ObjectRecord?)
  {
    hide Fold, EncodeCRC32C, MissingParts, ShortPart, DisputedPart, PartsOk, ObjectOk, Distinct;
    assert SessionOk(j.w, j.h, job.id);
    if env.commit {
      Runs.AcceptedIsCommitted(j.w, env, job.id, r.completion.value);
    }
  }

  lemma GoneAnswers(w: World, env: Env, limits: Limits, r: Request)
    requires r.CompleteUpload? && r.completion.Some? && SessionFault(w.db, env, r.id).Some?
    ensures var resp := Serve(w, env, limits, r).1;
            resp.Refused? && !resp.fault.UploadIncomplete? && !resp.fault.PartSizeMismatch? && !resp.fault.ChecksumMismatch?
  {
    hide CompletionFault;
  }

  lemma {:induction false} ClientWorkers(job: Job, j: Joint, run: seq<Step>)
    requires ValidJob(job) && CanRun(job, j, run)
    ensures |After(job, j, run).client.workers| == |j.client.workers|
    decreases |run|
  {
    hide Serve, Observe, Admissible, Runs.SendsSource;
    if run != [] {
      ClientWorkers(job, Next(job, j, run[0]), run[1..]);
    }
  }

  lemma WorkersStay(job: Job, j0: Joint, run: seq<Step>, concurrency: nat, created: Runs.Event, w: World, h: History)
    requires ValidJob(job) && Starts(job, j0, concurrency, created, w, h) && concurrency >= 1 && CanRun(job, j0, run)
    ensures |After(job, j0, run).client.workers| >= 1
  {
    hide Runs.PartCount, Serve, Observe, Runs.Reachable;
    U.LastEnd(job.plan);
    ClientWorkers(job, j0, run);
  }
}
