/** The concurrent uploader of the TypeScript client: sdk/typescript/src/client.ts, `upload`.
    JavaScript runs one worker at a time and switches only where a worker awaits, so a run is a sequence of events,
    each the whole of what one worker does between two awaits (or one progress callback). */
module Uploader {
  import opened Wrappers
  import Handlers
  import Multipart
  import Runs

  /** What is uploaded: `size` bytes in parts of `partSize`. */
  datatype Plan = Plan(size: nat, partSize: int)

  predicate ValidPlan(p: Plan) {
    p.size > 0 && p.partSize >= 1
  }

  function Count(p: Plan): nat
    requires ValidPlan(p)
  {
    Runs.PartCount(p.size, p.partSize)
  }

  function Start(p: Plan, n: int): int {
    Handlers.PartOffset(n, p.partSize)
  }

  function End(p: Plan, n: int): int {
    var end := Handlers.PartOffset(n + 1, p.partSize);
    if end < p.size then end else p.size
  }

  function Length(p: Plan, n: int): int {
    End(p, n) - Start(p, n)
  }

  /** Where a worker is.
      Preparing(n): awaiting the bytes of the number it claimed.
      Sending(n, ahead, tries): part n is on the wire for the tries-th time, `ahead` is claimed and being read.
      Returned(n): ended, because the number it claimed is past the last part.
      Left(n): ended, because another worker aborted the upload; part n was read and is not sent.
      Threw(lost): ended with an error; the numbers in `lost` are not sent. */
  datatype Worker =
    | Preparing(n: int)
    | Sending(n: int, ahead: int, tries: int)
    | Returned(n: int)
    | Left(n: int)
    | Threw(lost: set<int>)

  /** What the workers share. */
  datatype State = State(
    next: int, done: int, inFlight: map<int, int>, reported: int, checksums: seq<Option<string>>,
    aborted: bool, workers: seq<Worker>)

  datatype Event =
    | Prepared(w: nat)
    | ReadFailed(w: nat)
    | Progress(w: nat, loaded: int)
    | Accepted(w: nat, checksum: string)
    | TransportFailed(w: nat)
    | Failed(w: nat)

  function Initial(p: Plan, concurrency: nat): State
    requires ValidPlan(p)
  {
    var k := if concurrency < Count(p) then concurrency else Count(p);
    State(k + 1, 0, map[], 0, seq(Count(p), _ => None), false, seq(k, i => Preparing(i + 1)))
  }

  predicate Finished(s: State, n: int) {
    1 <= n <= |s.checksums| && s.checksums[n - 1].Some?
  }

  /** What the transport promises: a progress callback belongs to a part on the wire and counts bytes of that part. */
  predicate Enabled(p: Plan, s: State, e: Event)
    requires ValidPlan(p)
  {
    && e.w < |s.workers|
    && var worker := s.workers[e.w];
       match e
       case Prepared(_) => worker.Preparing?
       case ReadFailed(_) => worker.Preparing? && worker.n <= Count(p)
       case Progress(_, loaded) => worker.Sending? && 0 <= loaded <= Length(p, worker.n)
       case Accepted(_, _) => worker.Sending? && 1 <= worker.n <= |s.checksums|
       case TransportFailed(_) => worker.Sending?
       case Failed(_) => worker.Sending?
  }

  /** The bytes on the wire, over parts 1 to k. */
  function Loaded(inFlight: map<int, int>, k: nat): int
    decreases k
  {
    if k == 0 then 0 else Loaded(inFlight, k - 1) + if k in inFlight then inFlight[k] else 0
  }

  function Reported(p: Plan, done: int, inFlight: map<int, int>, reported: int): int
    requires ValidPlan(p)
  {
    var current := done + Loaded(inFlight, Count(p));
    if current > reported then current else reported
  }

  function Resume(p: Plan, s: State, e: Event): State
    requires ValidPlan(p) && Enabled(p, s, e)
  {
    var worker := s.workers[e.w];
    match e
    case Prepared(w) =>
      if worker.n > Count(p) then s.(workers := s.workers[w := Returned(worker.n)])
      else if s.aborted then s.(workers := s.workers[w := Left(worker.n)])
      else
        s.(next := s.next + 1, inFlight := s.inFlight[worker.n := 0],
           workers := s.workers[w := Sending(worker.n, s.next, 1)])
    case ReadFailed(w) => s.(workers := s.workers[w := Threw({worker.n})])
    case Progress(w, loaded) =>
      var inFlight := s.inFlight[worker.n := loaded];
      s.(inFlight := inFlight, reported := Reported(p, s.done, inFlight, s.reported))
    case Accepted(w, checksum) =>
      var inFlight, done := s.inFlight - {worker.n}, s.done + Length(p, worker.n);
      s.(inFlight := inFlight, done := done, reported := Reported(p, done, inFlight, s.reported),
         checksums := s.checksums[worker.n - 1 := Some(checksum)],
         workers := s.workers[w := Preparing(worker.ahead)])
    case TransportFailed(w) =>
      if worker.tries <= 2 then
        s.(inFlight := s.inFlight[worker.n := 0],
           workers := s.workers[w := Sending(worker.n, worker.ahead, worker.tries + 1)])
      else s.(aborted := true, workers := s.workers[w := Threw({worker.n, worker.ahead})])
    case Failed(w) => s.(aborted := true, workers := s.workers[w := Threw({worker.n, worker.ahead})])
  }

  // ---------- the shared variables, updated in place ----------

  class Upload {
    const plan: Plan
    var next: int
    var done: int
    var inFlight: map<int, int>
    var reported: int
    var checksums: seq<Option<string>>
    var aborted: bool
    var workers: seq<Worker>

    ghost function Shared(): State
      reads this
    {
      State(next, done, inFlight, reported, checksums, aborted, workers)
    }

    /** Each part claimed is finished or held by one worker, and the counts are those of the parts. */
    ghost predicate Valid()
      reads this
    {
      ValidPlan(plan) && Inv(plan, Shared())
    }

    constructor (p: Plan, concurrency: nat)
      requires ValidPlan(p)
      ensures Valid() && plan == p && Shared() == Initial(p, concurrency)
      ensures |workers| == (if concurrency < Count(p) then concurrency else Count(p))
      ensures forall i | 0 <= i < |workers| :: workers[i] == Preparing(i + 1)
    {
      plan := p;
      next, done, inFlight, reported, aborted := 1, 0, map[], 0, false;
      checksums := seq(Count(p), _ => None);
      workers := [];
      new;
      var k := if concurrency < Count(p) then concurrency else Count(p);
      while |workers| < k
        invariant |workers| <= k && next == |workers| + 1
        invariant workers == seq(|workers|, i => Preparing(i + 1))
        invariant done == 0 && inFlight == map[] && reported == 0 && !aborted && plan == p
        invariant checksums == seq(Count(p), _ => None)
      {
        var n := Claim();
        workers := workers + [Preparing(n)];
      }
      InitialInv(p, concurrency);
    }

    /** The synchronous start of `prepare`. */
    method Claim() returns (n: int)
      modifies this`next
      ensures n == old(next) && next == n + 1
    {
      n := next;
      next := next + 1;
    }

    method Report()
      requires ValidPlan(plan)
      requires forall n | n in inFlight :: 1 <= n <= Count(plan)
      modifies this`reported
      ensures reported == Reported(plan, done, inFlight, old(reported))
    {
      var current, rest := done, inFlight;
      while rest.Keys != {}
        invariant reported == old(reported) && forall n | n in rest :: 1 <= n <= Count(plan)
        invariant current + Loaded(rest, Count(plan)) == done + Loaded(inFlight, Count(plan))
        decreases rest.Keys
      {
        var n :| n in rest.Keys;
        LoadedWithout(rest, n, Count(plan));
        current := current + rest[n];
        rest := rest - {n};
      }
      LoadedNothing(Count(plan));
      assert rest == map[];
      if current > reported {
        reported := current;
      }
    }

    /** A part that goes on the wire was not finished and is sent by no other worker. */
    method OnPrepared(w: nat)
      requires Valid() && Enabled(plan, Shared(), Prepared(w))
      modifies this
      ensures Valid() && Shared() == Resume(plan, old(Shared()), Prepared(w))
      ensures w < |workers| && reported == old(reported)
      ensures workers[w].Sending? ==>
                && 1 <= workers[w].n <= Count(plan) && !Finished(Shared(), workers[w].n)
                && forall v | 0 <= v < |workers| && v != w && workers[v].Sending? :: workers[v].n != workers[w].n
    {
      hide Inv, Count;
      ResumeKeeps(plan, Shared(), Prepared(w));
      var n := workers[w].n;
      if n > Count(plan) {
        workers := workers[w := Returned(n)];
      } else if aborted {
        workers := workers[w := Left(n)];
      } else {
        var ahead := Claim();
        inFlight := inFlight[n := 0];
        workers := workers[w := Sending(n, ahead, 1)];
        SentOnce(plan, Shared(), w);
      }
    }

    /** The part is lost, so the upload will not be fulfilled, but the others are not told. */
    method OnReadFailed(w: nat)
      requires Valid() && Enabled(plan, Shared(), ReadFailed(w))
      modifies this`workers
      ensures Valid() && Shared() == Resume(plan, old(Shared()), ReadFailed(w))
      ensures !Fulfilled(Shared()) && aborted == old(aborted)
    {
      hide Inv, Count;
      ResumeKeeps(plan, Shared(), ReadFailed(w));
      workers := workers[w := Threw({workers[w].n})];
      assert workers[w].Threw?;
    }

    method OnProgress(w: nat, loaded: int)
      requires Valid() && Enabled(plan, Shared(), Progress(w, loaded))
      modifies this`inFlight, this`reported
      ensures Valid() && Shared() == Resume(plan, old(Shared()), Progress(w, loaded))
      ensures old(reported) <= reported <= plan.size
    {
      hide Inv, Count, Length, Loaded;
      ResumeKeeps(plan, Shared(), Progress(w, loaded));
      InRange(plan, Resume(plan, Shared(), Progress(w, loaded)));
      SendingIsInFlight(plan, Shared(), w);
      inFlight := inFlight[workers[w].n := loaded];
      Report();
    }

    method OnAccepted(w: nat, checksum: string)
      requires Valid() && Enabled(plan, Shared(), Accepted(w, checksum))
      modifies this
      ensures Valid() && Shared() == Resume(plan, old(Shared()), Accepted(w, checksum))
      ensures old(reported) <= reported <= plan.size && Finished(Shared(), old(workers[w].n))
    {
      hide Inv, Count, Length, Loaded;
      ResumeKeeps(plan, Shared(), Accepted(w, checksum));
      InRange(plan, Resume(plan, Shared(), Accepted(w, checksum)));
      SendingIsInFlight(plan, Shared(), w);
      var n, ahead := workers[w].n, workers[w].ahead;
      inFlight := inFlight - {n};
      done := done + Length(plan, n);
      Report();
      checksums := checksums[n - 1 := Some(checksum)];
      workers := workers[w := Preparing(ahead)];
    }

    /** The part starts over from zero bytes for the second and the third time; then the upload is aborted. What was reported
        stays. */
    method OnTransportFailed(w: nat)
      requires Valid() && Enabled(plan, Shared(), TransportFailed(w))
      modifies this
      ensures Valid() && Shared() == Resume(plan, old(Shared()), TransportFailed(w))
      ensures reported == old(reported) && (aborted <==> old(aborted) || old(workers[w].tries) == 3)
      ensures old(workers[w].tries) < 3 ==>
                && workers[w] == Sending(old(workers[w].n), old(workers[w].ahead), old(workers[w].tries) + 1)
                && workers[w].n in inFlight && inFlight[workers[w].n] == 0
    {
      hide Inv, Count;
      ResumeKeeps(plan, Shared(), TransportFailed(w));
      TriesAtMostThree(plan, Shared(), TransportFailed(w));
      var n, ahead, tries := workers[w].n, workers[w].ahead, workers[w].tries;
      if tries <= 2 {
        inFlight := inFlight[n := 0];
        workers := workers[w := Sending(n, ahead, tries + 1)];
      } else {
        aborted := true;
        workers := workers[w := Threw({n, ahead})];
      }
    }

    method OnFailed(w: nat)
      requires Valid() && Enabled(plan, Shared(), Failed(w))
      modifies this`aborted, this`workers
      ensures Valid() && Shared() == Resume(plan, old(Shared()), Failed(w))
      ensures aborted && !Fulfilled(Shared())
    {
      hide Inv, Count;
      ResumeKeeps(plan, Shared(), Failed(w));
      aborted := true;
      workers := workers[w := Threw({workers[w].n, workers[w].ahead})];
      assert workers[w].Threw?;
    }
  }

  /** What is on the wire is held by its worker, so it is not finished and no other worker sends it. */
  lemma SentOnce(p: Plan, s: State, w: nat)
    requires ValidPlan(p) && Inv(p, s) && w < |s.workers| && s.workers[w].Sending?
    ensures 1 <= s.workers[w].n <= Count(p) && !Finished(s, s.workers[w].n)
    ensures forall v | 0 <= v < |s.workers| && v != w && s.workers[v].Sending? :: s.workers[v].n != s.workers[w].n
  {
    hide Count, Counted, Loaded, Length;
    assert Finishing(p, s, s.workers[w]) && s.workers[w].n in Held(s.workers[w]);
    forall v | 0 <= v < |s.workers| && v != w && s.workers[v].Sending?
      ensures s.workers[v].n != s.workers[w].n
    {
      assert s.workers[v].n in Held(s.workers[v]);
    }
  }

  lemma SendingIsInFlight(p: Plan, s: State, w: nat)
    requires ValidPlan(p) && Inv(p, s) && w < |s.workers| && s.workers[w].Sending?
    ensures s.workers[w].n in s.inFlight && Flights(p, s)
  {
    hide Count, Counted, Loaded, Length;
    assert Finishing(p, s, s.workers[w]);
  }

  lemma InRange(p: Plan, s: State)
    requires ValidPlan(p) && Inv(p, s)
    ensures s.reported <= p.size
  {
  }

  // ---------- sums over the parts ----------

  lemma {:induction false} LoadedWithout(m: map<int, int>, n: int, k: nat)
    requires n in m && n >= 1
    ensures Loaded(m, k) == Loaded(m - {n}, k) + if n <= k then m[n] else 0
    decreases k
  {
    if k > 0 {
      LoadedWithout(m, n, k - 1);
    }
  }

  lemma {:induction false} LoadedNothing(k: nat)
    ensures Loaded(map[], k) == 0
    decreases k
  {
    if k > 0 {
      LoadedNothing(k - 1);
    }
  }

  /** The bytes of the finished parts among 1 to k. */
  function Counted(p: Plan, s: State, k: nat): int
    decreases k
  {
    if k == 0 then 0 else Counted(p, s, k - 1) + if Finished(s, k) then Length(p, k) else 0
  }

  lemma {:induction false} CountedSame(p: Plan, s: State, s': State, k: nat)
    requires forall n | 1 <= n <= k :: Finished(s, n) <==> Finished(s', n)
    ensures Counted(p, s, k) == Counted(p, s', k)
    decreases k
  {
    if k > 0 {
      CountedSame(p, s, s', k - 1);
    }
  }

  lemma {:induction false} CountedMore(p: Plan, s: State, s': State, n: int, k: nat)
    requires n >= 1 && !Finished(s, n) && Finished(s', n)
    requires forall m | 1 <= m <= k && m != n :: Finished(s, m) <==> Finished(s', m)
    ensures Counted(p, s', k) == Counted(p, s, k) + if n <= k then Length(p, n) else 0
    decreases k
  {
    if k > 0 {
      CountedMore(p, s, s', n, k - 1);
    }
  }

  lemma LengthBounds(p: Plan, n: int)
    requires ValidPlan(p) && 1 <= n <= Count(p)
    ensures 1 <= Length(p, n) <= p.partSize
    ensures n < Count(p) ==> Length(p, n) == p.partSize
  {
    hide Runs.PartCount, Handlers.PartOffset;
    Runs.PartCountBounds(p.size, p.partSize);
    Runs.OffsetsGrow(n, n, p.partSize);
    if n < Count(p) {
      Runs.OffsetsGrow(n + 1, Count(p), p.partSize);
    }
  }

  /** What is finished and what is on the wire are bytes of different parts, so together they are at most the bytes
      of the parts so far. */
  lemma {:induction false} ProgressBound(p: Plan, s: State, k: nat)
    requires ValidPlan(p) && k <= Count(p) && Flights(p, s)
    ensures 0 <= Counted(p, s, k) <= Counted(p, s, k) + Loaded(s.inFlight, k) <= if k == 0 then 0 else End(p, k)
    ensures k >= 1 && (forall n | 1 <= n <= k :: Finished(s, n)) ==> Counted(p, s, k) == End(p, k)
    decreases k
  {
    if k > 0 {
      ProgressBound(p, s, k - 1);
      LengthBounds(p, k);
      hide Runs.PartCount, Handlers.PartOffset;
      Runs.PartCountBounds(p.size, p.partSize);
      if k == 1 {
        Multipart.FirstOffset(p.partSize);
      } else {
        Runs.OffsetsGrow(k, Count(p), p.partSize);
      }
    }
  }

  lemma LastEnd(p: Plan)
    requires ValidPlan(p)
    ensures Count(p) >= 1 && End(p, Count(p)) == p.size
  {
    Runs.PartCountBounds(p.size, p.partSize);
  }

  // ---------- what every interleaving keeps ----------

  /** The numbers a worker is responsible for. */
  function Held(worker: Worker): set<int> {
    match worker
    case Preparing(n) => {n}
    case Sending(n, ahead, _) => {n, ahead}
    case Returned(n) => {n}
    case Left(n) => {n}
    case Threw(lost) => lost
  }

  predicate Finishing(p: Plan, s: State, worker: Worker)
    requires ValidPlan(p)
  {
    match worker
    case Sending(n, ahead, tries) => n <= Count(p) && n != ahead && n in s.inFlight && 1 <= tries <= 3
    case Returned(n) => n > Count(p)
    case Left(n) => n <= Count(p) && s.aborted
    case _ => true
  }

  /** The numbers claimed so far are exactly 1 to next - 1, each finished or held by exactly one worker. */
  ghost predicate Claims(p: Plan, s: State)
    requires ValidPlan(p)
  {
    && |s.checksums| == Count(p) && s.next >= 1
    && (forall n | Finished(s, n) :: n < s.next)
    && (forall w | 0 <= w < |s.workers| ::
          Finishing(p, s, s.workers[w]) && forall n | n in Held(s.workers[w]) :: 1 <= n < s.next && !Finished(s, n))
    && (forall v, w | 0 <= v < w < |s.workers| :: Held(s.workers[v]) !! Held(s.workers[w]))
    && (forall n | 1 <= n < s.next :: Finished(s, n) || HeldBySome(s, n))
  }

  ghost predicate HeldBySome(s: State, n: int) {
    exists w | 0 <= w < |s.workers| :: n in Held(s.workers[w])
  }

  /** An entry of inFlight is a part not yet finished, with at most its length. */
  ghost predicate Flights(p: Plan, s: State)
    requires ValidPlan(p)
  {
    forall n | n in s.inFlight :: 1 <= n <= Count(p) && !Finished(s, n) && 0 <= s.inFlight[n] <= Length(p, n)
  }

  ghost predicate Tally(p: Plan, s: State)
    requires ValidPlan(p)
  {
    s.done == Counted(p, s, Count(p)) && s.done <= s.reported <= p.size
  }

  ghost predicate AbortedByError(s: State) {
    s.aborted ==> exists w | 0 <= w < |s.workers| :: s.workers[w].Threw?
  }

  ghost predicate Inv(p: Plan, s: State)
    requires ValidPlan(p)
  {
    Claims(p, s) && Flights(p, s) && Tally(p, s) && AbortedByError(s)
  }

  lemma InitialInv(p: Plan, concurrency: nat)
    requires ValidPlan(p)
    ensures Inv(p, Initial(p, concurrency))
  {
    hide Runs.PartCount;
    var s := Initial(p, concurrency);
    assert s.next == |s.workers| + 1;
    forall n | 1 <= n < s.next
      ensures HeldBySome(s, n)
    {
      assert n in Held(s.workers[n - 1]);
    }
    CountedNothing(p, s, Count(p));
  }

  lemma {:induction false} CountedNothing(p: Plan, s: State, k: nat)
    requires forall n | 1 <= n <= k :: !Finished(s, n)
    ensures Counted(p, s, k) == 0
    decreases k
  {
    if k > 0 {
      CountedNothing(p, s, k - 1);
    }
  }

  /** One worker moves: it keeps what it held, gives up what it finished, and may claim the next number. */
  lemma WorkerMoves(p: Plan, s: State, s': State, w: nat, worker: Worker, finished: set<int>)
    requires ValidPlan(p) && Claims(p, s) && w < |s.workers|
    requires s'.workers == s.workers[w := worker] && |s'.checksums| == |s.checksums|
    requires s.next <= s'.next <= s.next + 1 && (s.aborted ==> s'.aborted)
    requires finished <= Held(s.workers[w])
    requires forall n :: Finished(s', n) <==> Finished(s, n) || n in finished
    requires Held(worker) == Held(s.workers[w]) - finished + if s'.next > s.next then {s.next} else {}
    requires Finishing(p, s', worker)
    requires forall n | n in s.inFlight && n !in Held(s.workers[w]) :: n in s'.inFlight
    ensures Claims(p, s')
  {
    hide Count;
    forall v | 0 <= v < |s'.workers|
      ensures Finishing(p, s', s'.workers[v])
      ensures forall n | n in Held(s'.workers[v]) :: 1 <= n < s'.next && !Finished(s', n)
    {
      if v < w {
        assert Held(s.workers[v]) !! Held(s.workers[w]);
      } else if v > w {
        assert Held(s.workers[w]) !! Held(s.workers[v]);
      }
      forall n | n in Held(s'.workers[v])
        ensures 1 <= n < s'.next && !Finished(s', n)
      {
      }
    }
    forall u, v | 0 <= u < v < |s'.workers|
      ensures Held(s'.workers[u]) !! Held(s'.workers[v])
    {
      assert Held(s.workers[u]) !! Held(s.workers[v]);
    }
    forall n | 1 <= n < s'.next
      ensures Finished(s', n) || HeldBySome(s', n)
    {
      if n in Held(worker) {
        assert n in Held(s'.workers[w]);
      } else if !Finished(s, n) {
        var v :| 0 <= v < |s.workers| && n in Held(s.workers[v]);
        if v != w {
          assert n in Held(s'.workers[v]);
        }
      }
    }
  }

  /** Nothing is recounted when no part finishes and nothing is reported. */
  lemma SameTally(p: Plan, s: State, s': State)
    requires ValidPlan(p) && Tally(p, s)
    requires s'.checksums == s.checksums && s'.done == s.done && s'.reported == s.reported
    ensures Tally(p, s')
  {
    hide Count, Length;
    CountedSame(p, s, s', Count(p));
  }

  lemma StillThrown(s: State, s': State, w: nat)
    requires AbortedByError(s) && w < |s.workers| && |s'.workers| == |s.workers|
    requires s'.workers == s.workers[w := s'.workers[w]]
    requires (s'.aborted == s.aborted && !s.workers[w].Threw?) || s'.workers[w].Threw?
    ensures AbortedByError(s')
  {
    if s'.aborted {
      if s'.workers[w].Threw? {
      } else {
        var v :| 0 <= v < |s.workers| && s.workers[v].Threw?;
        assert s'.workers[v].Threw?;
      }
    }
  }

  lemma PreparedKeeps(p: Plan, s: State, w: nat)
    requires ValidPlan(p) && Inv(p, s) && Enabled(p, s, Prepared(w))
    ensures Inv(p, Resume(p, s, Prepared(w)))
  {
    hide Count, Counted, Tally;
    var s' := Resume(p, s, Prepared(w));
    SameTally(p, s, s');
    StillThrown(s, s', w);
    assert s.workers[w].n in Held(s.workers[w]);
    if s.workers[w].n <= Count(p) {
      LengthBounds(p, s.workers[w].n);
    }
    WorkerMoves(p, s, s', w, s'.workers[w], {});
  }

  lemma FailureKeeps(p: Plan, s: State, e: Event)
    requires ValidPlan(p) && Inv(p, s) && Enabled(p, s, e)
    requires e.ReadFailed? || e.Failed? || e.TransportFailed?
    ensures Inv(p, Resume(p, s, e))
  {
    hide Count, Counted, Tally;
    var s' := Resume(p, s, e);
    SameTally(p, s, s');
    StillThrown(s, s', e.w);
    assert s.workers[e.w].n in Held(s.workers[e.w]);
    if s.workers[e.w].n <= Count(p) {
      LengthBounds(p, s.workers[e.w].n);
    }
    WorkerMoves(p, s, s', e.w, s'.workers[e.w], {});
  }

  /** A report is at least what is done and at most the whole. */
  lemma ReportInRange(p: Plan, s: State)
    requires ValidPlan(p) && Flights(p, s) && s.done == Counted(p, s, Count(p)) && s.reported <= p.size
    ensures s.done <= Reported(p, s.done, s.inFlight, s.reported) <= p.size
  {
    hide Runs.PartCount, Handlers.PartOffset;
    ProgressBound(p, s, Count(p));
    LastEnd(p);
  }

  lemma ProgressKeeps(p: Plan, s: State, w: nat, loaded: int)
    requires ValidPlan(p) && Inv(p, s) && Enabled(p, s, Progress(w, loaded))
    ensures Inv(p, Resume(p, s, Progress(w, loaded)))
  {
    hide Count, Counted, Loaded, Length;
    var s' := Resume(p, s, Progress(w, loaded));
    assert s.workers[w].n in Held(s.workers[w]);
    var mid := s.(inFlight := s'.inFlight);
    CountedSame(p, s, mid, Count(p));
    CountedSame(p, s, s', Count(p));
    assert s'.workers == s.workers[w := s.workers[w]];
    WorkerMoves(p, s, s', w, s.workers[w], {});
    ReportInRange(p, mid);
  }

  lemma AcceptedKeeps(p: Plan, s: State, w: nat, checksum: string)
    requires ValidPlan(p) && Inv(p, s) && Enabled(p, s, Accepted(w, checksum))
    ensures Inv(p, Resume(p, s, Accepted(w, checksum)))
  {
    hide Count, Counted, Loaded, Length;
    var s' := Resume(p, s, Accepted(w, checksum));
    var n := s.workers[w].n;
    assert n in Held(s.workers[w]);
    var mid := s.(inFlight := s'.inFlight, done := s'.done, checksums := s'.checksums);
    assert forall m | m != n :: Finished(s', m) <==> Finished(s, m);
    CountedMore(p, s, mid, n, Count(p));
    CountedSame(p, mid, s', Count(p));
    ReportInRange(p, mid);
    StillThrown(s, s', w);
    WorkerMoves(p, s, s', w, s'.workers[w], {n});
  }

  lemma ResumeKeeps(p: Plan, s: State, e: Event)
    requires ValidPlan(p) && Inv(p, s) && Enabled(p, s, e)
    ensures Inv(p, Resume(p, s, e))
  {
    hide Inv, Resume;
    match e {
      case Prepared(w) => PreparedKeeps(p, s, w);
      case ReadFailed(_) => FailureKeeps(p, s, e);
      case Progress(w, loaded) => ProgressKeeps(p, s, w, loaded);
      case Accepted(w, checksum) => AcceptedKeeps(p, s, w, checksum);
      case TransportFailed(_) => FailureKeeps(p, s, e);
      case Failed(_) => FailureKeeps(p, s, e);
    }
  }

  // ---------- whole runs ----------

  predicate Possible(p: Plan, s: State, run: seq<Event>)
    requires ValidPlan(p)
    decreases |run|
  {
    run == [] || (Enabled(p, s, run[0]) && Possible(p, Resume(p, s, run[0]), run[1..]))
  }

  function After(p: Plan, s: State, run: seq<Event>): State
    requires ValidPlan(p) && Possible(p, s, run)
    decreases |run|
  {
    if run == [] then s else After(p, Resume(p, s, run[0]), run[1..])
  }

  /** Reported progress never falls. */
  lemma {:induction false} RunKeeps(p: Plan, s: State, run: seq<Event>)
    requires ValidPlan(p) && Inv(p, s) && Possible(p, s, run)
    ensures Inv(p, After(p, s, run))
    ensures s.reported <= After(p, s, run).reported
    decreases |run|
  {
    hide Inv, Enabled;
    if run != [] {
      ResumeKeeps(p, s, run[0]);
      NeverFalls(p, s, run[0]);
      RunKeeps(p, Resume(p, s, run[0]), run[1..]);
    }
  }

  lemma NeverFalls(p: Plan, s: State, e: Event)
    requires ValidPlan(p) && Enabled(p, s, e)
    ensures s.reported <= Resume(p, s, e).reported
  {
  }

  /** Every worker's promise is fulfilled, so Promise.all resolves and the upload is completed. */
  predicate Fulfilled(s: State) {
    forall w | 0 <= w < |s.workers| :: s.workers[w].Returned? || s.workers[w].Left?
  }

  predicate AllFinished(p: Plan, s: State)
    requires ValidPlan(p)
  {
    forall n | 1 <= n <= Count(p) :: Finished(s, n)
  }

  /** When all workers return normally every part was accepted and all bytes are reported, exactly if there was
      a worker to begin with. */
  lemma FulfilledFinishes(p: Plan, concurrency: nat, run: seq<Event>)
    requires ValidPlan(p) && Possible(p, Initial(p, concurrency), run)
    requires Fulfilled(After(p, Initial(p, concurrency), run))
    ensures AllFinished(p, After(p, Initial(p, concurrency), run)) <==> concurrency >= 1
    ensures concurrency >= 1 ==> After(p, Initial(p, concurrency), run).reported == p.size
  {
    hide Runs.PartCount, Handlers.PartOffset;
    var s := After(p, Initial(p, concurrency), run);
    InitialInv(p, concurrency);
    RunKeeps(p, Initial(p, concurrency), run);
    SameWorkers(p, Initial(p, concurrency), run);
    LastEnd(p);
    if concurrency >= 1 {
      AllReturned(p, s);
      ProgressBound(p, s, Count(p));
    } else {
      assert s == Initial(p, concurrency);
      assert !Finished(s, 1);
    }
  }

  /** Nobody who left or threw is among the fulfilled, and a number past the end proves all before it were claimed. */
  lemma AllReturned(p: Plan, s: State)
    requires ValidPlan(p) && Claims(p, s) && AbortedByError(s) && Fulfilled(s) && |s.workers| >= 1
    ensures AllFinished(p, s)
  {
    hide Count;
    forall w | 0 <= w < |s.workers|
      ensures Held(s.workers[w]) == {s.workers[w].n} && s.workers[w].n > Count(p)
    {
      assert Finishing(p, s, s.workers[w]);
    }
    assert s.workers[0].n in Held(s.workers[0]);
    forall n | 1 <= n <= Count(p)
      ensures Finished(s, n)
    {
      assert !HeldBySome(s, n);
    }
  }

  lemma {:induction false} SameWorkers(p: Plan, s: State, run: seq<Event>)
    requires ValidPlan(p) && Possible(p, s, run)
    ensures |After(p, s, run).workers| == |s.workers| && |After(p, s, run).checksums| == |s.checksums|
    decreases |run|
  {
    if run != [] {
      SameWorkers(p, Resume(p, s, run[0]), run[1..]);
    }
  }

  /** Once aborted an upload claims no further part, so nothing is sent that was not claimed by then. */
  lemma {:induction false} AbortedClaimsNothing(p: Plan, s: State, run: seq<Event>)
    requires ValidPlan(p) && Possible(p, s, run) && s.aborted
    ensures After(p, s, run).aborted && After(p, s, run).next == s.next
    decreases |run|
  {
    hide Reported, Length, Count;
    if run != [] {
      AbortedClaimsNothing(p, Resume(p, s, run[0]), run[1..]);
    }
  }

  /** Nor does any worker start to send: one that is sending at the end of a run was sending that very part when the
      upload was aborted. */
  lemma {:induction false} AbortedStartsNothing(p: Plan, s: State, run: seq<Event>, w: nat)
    requires ValidPlan(p) && Possible(p, s, run) && s.aborted
    ensures |After(p, s, run).workers| == |s.workers|
    ensures w < |s.workers| && After(p, s, run).workers[w].Sending? ==>
              s.workers[w].Sending? && s.workers[w].n == After(p, s, run).workers[w].n
    decreases |run|
  {
    hide Reported, Length, Count;
    if run != [] {
      AbortedStartsNothing(p, Resume(p, s, run[0]), run[1..], w);
    }
  }

  // ---------- retries, counted in the run ----------

  /** How often the transport failed a part in a run. */
  ghost function Failures(p: Plan, s: State, run: seq<Event>, n: int): nat
    requires ValidPlan(p) && Possible(p, s, run)
    decreases |run|
  {
    if run == [] then 0
    else (if run[0].TransportFailed? && s.workers[run[0].w].n == n then 1 else 0) + Failures(p, Resume(p, s, run[0]), run[1..], n)
  }

  predicate HasFailed(run: seq<Event>) {
    exists e | e in run :: e.Failed?
  }

  predicate HasReadFailed(run: seq<Event>) {
    exists e | e in run :: e.ReadFailed?
  }

  ghost predicate ThreeFailures(f: int -> nat) {
    exists n :: f(n) >= 3
  }

  /** With `f` the failures so far: a part on the wire is sent once more than it failed, a part not yet sent has not
      failed, and the upload is aborted exactly if some part failed three times or was refused. */
  ghost predicate Tallied(s: State, f: int -> nat, failed: bool, unread: bool) {
    && TriesCount(s, f)
    && (s.aborted <==> failed || ThreeFailures(f))
    && (NoneThrew(s) <==> !s.aborted && !unread)
  }

  function Tally1(f: int -> nat, s: State, e: Event): int -> nat
    requires e.w < |s.workers| && (e.TransportFailed? ==> s.workers[e.w].Sending?)
  {
    k => f(k) + if e.TransportFailed? && s.workers[e.w].n == k then 1 else 0
  }

  /** The other workers hold other parts. */
  lemma OthersHoldOthers(p: Plan, s: State, w: nat)
    requires ValidPlan(p) && Claims(p, s) && w < |s.workers|
    ensures forall v | 0 <= v < |s.workers| && v != w :: Held(s.workers[v]) !! Held(s.workers[w])
    ensures forall n | n in Held(s.workers[w]) :: n < s.next
    ensures Finishing(p, s, s.workers[w])
  {
    hide Count, Held, Finishing;
    forall v | 0 <= v < |s.workers| && v != w
      ensures Held(s.workers[v]) !! Held(s.workers[w])
    {
      if v < w {
        assert Held(s.workers[v]) !! Held(s.workers[w]);
      } else {
        assert Held(s.workers[w]) !! Held(s.workers[v]);
      }
    }
  }

  ghost predicate TriesCount(s: State, f: int -> nat) {
    && (forall w | 0 <= w < |s.workers| && s.workers[w].Sending? ::
          s.workers[w].tries == f(s.workers[w].n) + 1 <= 3 && f(s.workers[w].ahead) == 0)
    && (forall w | 0 <= w < |s.workers| && s.workers[w].Preparing? :: f(s.workers[w].n) == 0)
    && (forall n | n >= s.next :: f(n) == 0)
  }

  lemma TriesStep(p: Plan, s: State, e: Event, f: int -> nat)
    requires ValidPlan(p) && Inv(p, s) && Enabled(p, s, e) && TriesCount(s, f)
    ensures TriesCount(Resume(p, s, e), Tally1(f, s, e))
  {
    hide Count, Counted, Loaded, Length, Reported, Tally, Flights, AbortedByError, Claims;
    var s', f' := Resume(p, s, e), Tally1(f, s, e);
    OthersHoldOthers(p, s, e.w);
    forall v | 0 <= v < |s.workers| && v != e.w
      ensures s'.workers[v] == s.workers[v]
      ensures s'.workers[v].Sending? ==> f'(s'.workers[v].n) == f(s.workers[v].n) && f'(s'.workers[v].ahead) == f(s.workers[v].ahead)
      ensures s'.workers[v].Preparing? ==> f'(s'.workers[v].n) == f(s.workers[v].n)
    {
      assert s.workers[v].Sending? ==> s.workers[v].n in Held(s.workers[v]) && s.workers[v].ahead in Held(s.workers[v]);
      assert s.workers[v].Preparing? ==> s.workers[v].n in Held(s.workers[v]);
      assert s.workers[e.w].Sending? ==> s.workers[e.w].n in Held(s.workers[e.w]);
    }
    assert s.workers[e.w].Sending? ==> s.workers[e.w].n in Held(s.workers[e.w]);
    assert forall n | n >= s'.next :: f(n) == 0;
  }

  lemma ThreeStep(p: Plan, s: State, e: Event, f: int -> nat)
    requires ValidPlan(p) && Enabled(p, s, e) && TriesCount(s, f)
    ensures ThreeFailures(Tally1(f, s, e)) <==> ThreeFailures(f) || (e.TransportFailed? && s.workers[e.w].tries == 3)
  {
    var f' := Tally1(f, s, e);
    if k :| f(k) >= 3 {
      assert f'(k) >= 3;
    }
    if k :| f'(k) >= 3 {
      assert f(k) >= 3 || (e.TransportFailed? && s.workers[e.w].n == k);
    }
    if e.TransportFailed? && s.workers[e.w].tries == 3 {
      assert f'(s.workers[e.w].n) >= 3;
    }
  }

  /** Who throws, and what aborts. */
  lemma ThrownStep(p: Plan, s: State, e: Event)
    requires ValidPlan(p) && Enabled(p, s, e) && (e.TransportFailed? ==> s.workers[e.w].tries <= 3)
    ensures var s' := Resume(p, s, e);
            && (s'.aborted <==> s.aborted || e.Failed? || (e.TransportFailed? && s.workers[e.w].tries == 3))
            && (NoneThrew(s') <==> NoneThrew(s) && !e.Failed? && !e.ReadFailed?
                                   && !(e.TransportFailed? && s.workers[e.w].tries == 3))
  {
    hide Count, Length, Reported;
    var s' := Resume(p, s, e);
    assert s'.workers == s.workers[e.w := s'.workers[e.w]];
    assert s'.workers[e.w].Threw? <==> e.Failed? || e.ReadFailed? || (e.TransportFailed? && s.workers[e.w].tries == 3);
    if !NoneThrew(s) {
      var v :| 0 <= v < |s.workers| && s.workers[v].Threw?;
      assert s'.workers[v].Threw?;
    }
  }

  lemma TallyStep(p: Plan, s: State, e: Event, f: int -> nat, failed: bool, unread: bool)
    requires ValidPlan(p) && Inv(p, s) && Enabled(p, s, e) && Tallied(s, f, failed, unread)
    ensures Tallied(Resume(p, s, e), Tally1(f, s, e), failed || e.Failed?, unread || e.ReadFailed?)
  {
    hide Inv, Resume, Tally1, ThreeFailures, NoneThrew;
    TriesStep(p, s, e, f);
    ThreeStep(p, s, e, f);
    ThrownStep(p, s, e);
  }

  lemma TalliedSame(s: State, f: int -> nat, g: int -> nat, failed: bool, unread: bool)
    requires Tallied(s, f, failed, unread) && forall k :: f(k) == g(k)
    ensures Tallied(s, g, failed, unread)
  {
    if k :| f(k) >= 3 {
      assert g(k) >= 3;
    }
    if k :| g(k) >= 3 {
      assert f(k) >= 3;
    }
  }

  /** The failures after a run. */
  ghost function TallyAfter(p: Plan, s: State, run: seq<Event>, f: int -> nat): int -> nat
    requires ValidPlan(p) && Possible(p, s, run)
  {
    k => f(k) + Failures(p, s, run, k)
  }

  lemma TallyMore(p: Plan, s: State, run: seq<Event>, f: int -> nat)
    requires ValidPlan(p) && Possible(p, s, run) && run != []
    ensures run[0].w < |s.workers| && (run[0].TransportFailed? ==> s.workers[run[0].w].Sending?)
    ensures forall k :: TallyAfter(p, Resume(p, s, run[0]), run[1..], Tally1(f, s, run[0]))(k) == TallyAfter(p, s, run, f)(k)
  {
    hide Resume;
    forall k
      ensures Failures(p, s, run, k)
          == (if run[0].TransportFailed? && s.workers[run[0].w].n == k then 1 else 0) + Failures(p, Resume(p, s, run[0]), run[1..], k)
    {
    }
  }

  lemma {:induction false} TallyRun(p: Plan, s: State, run: seq<Event>, f: int -> nat, failed: bool, unread: bool)
    requires ValidPlan(p) && Inv(p, s) && Possible(p, s, run) && Tallied(s, f, failed, unread)
    ensures Tallied(After(p, s, run), TallyAfter(p, s, run, f), failed || HasFailed(run), unread || HasReadFailed(run))
    decreases |run|
  {
    hide Inv, Tallied, Resume, Tally1;
    if run == [] {
      assert After(p, s, run) == s;
      TalliedSame(s, f, TallyAfter(p, s, run, f), failed, unread);
    } else {
      var e, s1 := run[0], Resume(p, s, run[0]);
      TailHas(run);
      TallyMore(p, s, run, f);
      ResumeKeeps(p, s, e);
      TallyStep(p, s, e, f, failed, unread);
      var f1 := Tally1(f, s, e);
      hide Enabled, HasFailed, HasReadFailed;
      TallyRun(p, s1, run[1..], f1, failed || e.Failed?, unread || e.ReadFailed?);
      assert After(p, s, run) == After(p, s1, run[1..]);
      hide TallyAfter, After;
      TalliedSame(After(p, s1, run[1..]), TallyAfter(p, s1, run[1..], f1), TallyAfter(p, s, run, f),
                  failed || HasFailed(run), unread || HasReadFailed(run));
    }
  }

  lemma TailHas(run: seq<Event>)
    requires run != []
    ensures HasFailed(run) <==> run[0].Failed? || HasFailed(run[1..])
    ensures HasReadFailed(run) <==> run[0].ReadFailed? || HasReadFailed(run[1..])
  {
    assert run == [run[0]] + run[1..];
  }

  /** The retries, over every run: an upload is aborted exactly if a part failed for another reason than the transport or
      the transport failed one part three times; and a worker threw exactly if it was, or a read failed. So two failures
      of every part are survived. */
  lemma AbortedExact(p: Plan, concurrency: nat, run: seq<Event>)
    requires ValidPlan(p) && Possible(p, Initial(p, concurrency), run)
    ensures var s0 := Initial(p, concurrency);
            var s := After(p, s0, run);
            && (s.aborted <==> HasFailed(run) || exists n :: Failures(p, s0, run, n) >= 3)
            && (NoneThrew(s) <==> !s.aborted && !HasReadFailed(run))
  {
    hide Inv, Failures, HasFailed, HasReadFailed, Possible, After, Count;
    var s0 := Initial(p, concurrency);
    InitialInv(p, concurrency);
    var none: int -> nat := k => 0;
    assert Tallied(s0, none, false, false);
    TallyRun(p, s0, run, none, false, false);
    hide Initial, NoneThrew, TriesCount;
    var f := TallyAfter(p, s0, run, none);
    assert forall n :: f(n) == Failures(p, s0, run, n);
    if n :| Failures(p, s0, run, n) >= 3 {
      assert f(n) >= 3;
    }
    if n :| f(n) >= 3 {
      assert Failures(p, s0, run, n) >= 3;
    }
  }

  // ---------- what is reported ----------

  /** The bytes finished and on the wire. */
  function Total(p: Plan, s: State): int
    requires ValidPlan(p)
  {
    s.done + Loaded(s.inFlight, Count(p))
  }

  /** The most there were at any moment of a run. */
  function Highest(p: Plan, s: State, run: seq<Event>): int
    requires ValidPlan(p) && Possible(p, s, run)
    decreases |run|
  {
    if run == [] then Total(p, s)
    else
      var rest := Highest(p, Resume(p, s, run[0]), run[1..]);
      if Total(p, s) > rest then Total(p, s) else rest
  }

  lemma {:induction false} LoadedUpdate(m: map<int, int>, n: int, v: int, k: nat)
    ensures Loaded(m[n := v], k) == Loaded(m, k) + if 1 <= n <= k then v - (if n in m then m[n] else 0) else 0
    decreases k
  {
    if k > 0 {
      LoadedUpdate(m, n, v, k - 1);
    }
  }

  lemma TotalStep(p: Plan, s: State, e: Event)
    requires ValidPlan(p) && Inv(p, s) && Enabled(p, s, e) && Total(p, s) <= s.reported
    ensures var s' := Resume(p, s, e);
            s'.reported == if Total(p, s') > s.reported then Total(p, s') else s.reported
  {
    hide Counted, Loaded, Length, Tally, Claims, AbortedByError, Runs.PartCount;
    var n := if e.Prepared? || e.TransportFailed? then s.workers[e.w].n else 0;
    LoadedUpdate(s.inFlight, n, 0, Count(p));
  }

  lemma {:induction false} ReportedInRun(p: Plan, s: State, run: seq<Event>)
    requires ValidPlan(p) && Inv(p, s) && Possible(p, s, run) && Total(p, s) <= s.reported
    ensures After(p, s, run).reported == if Highest(p, s, run) > s.reported then Highest(p, s, run) else s.reported
    decreases |run|
  {
    hide Inv, Resume, Enabled, Total;
    if run != [] {
      TotalStep(p, s, run[0]);
      ResumeKeeps(p, s, run[0]);
      ReportedInRun(p, Resume(p, s, run[0]), run[1..]);
    }
  }

  /** What is reported is the most bytes that were finished or on the wire at any moment so far: no less although a part
      starts over, and no more. */
  lemma ReportedIsPeak(p: Plan, concurrency: nat, run: seq<Event>)
    requires ValidPlan(p) && Possible(p, Initial(p, concurrency), run)
    ensures After(p, Initial(p, concurrency), run).reported == Highest(p, Initial(p, concurrency), run)
  {
    hide Inv, Possible, After, Runs.PartCount;
    var s := Initial(p, concurrency);
    InitialInv(p, concurrency);
    LoadedNothing(Count(p));
    ReportedInRun(p, s, run);
    HighestFirst(p, s, run);
  }

  lemma HighestFirst(p: Plan, s: State, run: seq<Event>)
    requires ValidPlan(p) && Possible(p, s, run)
    ensures Highest(p, s, run) >= Total(p, s)
  {
  }

  /** The count last heard of part n since it went on the wire, if it is there. */
  ghost function Heard(p: Plan, s: State, run: seq<Event>, n: int, before: Option<int>): Option<int>
    requires ValidPlan(p) && Possible(p, s, run)
    decreases |run|
  {
    if run == [] then before
    else
      var e := run[0];
      var now := if e.ReadFailed? || (s.workers[e.w].Preparing? && (s.workers[e.w].n > Count(p) || s.aborted)) then before
                 else if s.workers[e.w].n != n then before
                 else if e.Progress? then Some(e.loaded)
                 else if e.Accepted? then None
                 else if e.Failed? || (e.TransportFailed? && s.workers[e.w].tries == 3) then before
                 else Some(0);
      Heard(p, Resume(p, s, e), run[1..], n, now)
  }

  lemma {:induction false} HeardInRun(p: Plan, s: State, run: seq<Event>, n: int)
    requires ValidPlan(p) && Inv(p, s) && Possible(p, s, run)
    ensures var s' := After(p, s, run);
            Heard(p, s, run, n, if n in s.inFlight then Some(s.inFlight[n]) else None)
            == if n in s'.inFlight then Some(s'.inFlight[n]) else None
    decreases |run|
  {
    hide Inv, Count;
    if run != [] {
      TriesAtMostThree(p, s, run[0]);
      ResumeKeeps(p, s, run[0]);
      HeardInRun(p, Resume(p, s, run[0]), run[1..], n);
    }
  }

  lemma TriesAtMostThree(p: Plan, s: State, e: Event)
    requires ValidPlan(p) && Inv(p, s) && Enabled(p, s, e)
    ensures s.workers[e.w].Sending? ==> 1 <= s.workers[e.w].tries <= 3
  {
    hide Count, Counted, Loaded, Length;
    assert Finishing(p, s, s.workers[e.w]);
  }

  // ---------- each part is in one place ----------

  datatype Place = Unclaimed | Ready(w: nat) | OnWire(w: nat) | Done | Abandoned(w: nat)

  predicate At(s: State, n: int, place: Place) {
    match place
    case Unclaimed => n >= s.next
    case Ready(w) => w < |s.workers| && (s.workers[w] == Preparing(n) || (s.workers[w].Sending? && s.workers[w].ahead == n))
    case OnWire(w) => w < |s.workers| && s.workers[w].Sending? && s.workers[w].n == n
    case Done => Finished(s, n)
    case Abandoned(w) => w < |s.workers| && (s.workers[w] == Left(n) || (s.workers[w].Threw? && n in s.workers[w].lost))
  }

  /** At every moment of every run each part is in exactly one place. */
  lemma OnePlace(p: Plan, concurrency: nat, run: seq<Event>, n: int)
    requires ValidPlan(p) && Possible(p, Initial(p, concurrency), run) && 1 <= n <= Count(p)
    ensures var s := After(p, Initial(p, concurrency), run);
            exists place :: At(s, n, place) && forall other | At(s, n, other) :: other == place
  {
    hide At, Claims;
    var s := After(p, Initial(p, concurrency), run);
    InitialInv(p, concurrency);
    RunKeeps(p, Initial(p, concurrency), run);
    SomePlace(p, s, n);
    Exclusive(p, s, n);
  }

  lemma SomePlace(p: Plan, s: State, n: int)
    requires ValidPlan(p) && Claims(p, s) && 1 <= n <= Count(p)
    ensures exists place :: At(s, n, place)
  {
    hide Count;
    if n >= s.next {
      assert At(s, n, Unclaimed);
    } else if Finished(s, n) {
      assert At(s, n, Done);
    } else {
      var w :| 0 <= w < |s.workers| && n in Held(s.workers[w]);
      assert Finishing(p, s, s.workers[w]);
      assert At(s, n, Ready(w)) || At(s, n, OnWire(w)) || At(s, n, Abandoned(w));
    }
  }

  ghost predicate AtMostOnePlace(p: Plan, s: State, n: int) {
    forall a, b | At(s, n, a) && At(s, n, b) :: a == b
  }

  lemma Exclusive(p: Plan, s: State, n: int)
    requires ValidPlan(p) && Claims(p, s) && 1 <= n <= Count(p)
    ensures AtMostOnePlace(p, s, n)
  {
    forall a, b | At(s, n, a) && At(s, n, b)
      ensures a == b
    {
      if !a.Unclaimed? && !a.Done? {
        assert n in Held(s.workers[a.w]);
      }
      if !b.Unclaimed? && !b.Done? {
        assert n in Held(s.workers[b.w]);
      }
    }
  }

  // ---------- every upload settles ----------

  /** What is left to happen to a worker, in settled awaits. */
  function Work(p: Plan, worker: Worker): nat
    requires ValidPlan(p)
  {
    match worker
    case Preparing(n) => if n <= Count(p) then 6 else 1
    case Sending(_, ahead, tries) => (if tries <= 3 then 4 - tries else 0) + 1 + if ahead <= Count(p) then 6 else 1
    case _ => 0
  }

  function WorkOf(p: Plan, workers: seq<Worker>): nat
    requires ValidPlan(p)
  {
    if workers == [] then 0 else Work(p, workers[0]) + WorkOf(p, workers[1..])
  }

  function Remaining(p: Plan, s: State): nat
    requires ValidPlan(p)
  {
    WorkOf(p, s.workers) + if s.next <= Count(p) then 6 * (Count(p) + 1 - s.next) else 0
  }

  lemma {:induction false} WorkUpdate(p: Plan, workers: seq<Worker>, w: nat, worker: Worker)
    requires ValidPlan(p) && w < |workers|
    ensures WorkOf(p, workers[w := worker]) + Work(p, workers[w]) == WorkOf(p, workers) + Work(p, worker)
    decreases |workers|
  {
    hide Work;
    if w == 0 {
      assert workers[0 := worker][1..] == workers[1..];
    } else {
      assert workers[w := worker][1..] == workers[1..][w - 1 := worker];
      WorkUpdate(p, workers[1..], w - 1, worker);
    }
  }

  /** The awaits of a run that settled; progress callbacks come on top. */
  function Settlings(run: seq<Event>): nat {
    if run == [] then 0 else (if run[0].Progress? then 0 else 1) + Settlings(run[1..])
  }

  lemma SettlingCosts(p: Plan, s: State, e: Event)
    requires ValidPlan(p) && Enabled(p, s, e) && Inv(p, s)
    ensures Remaining(p, Resume(p, s, e)) + (if e.Progress? then 0 else 1) <= Remaining(p, s)
  {
    hide Runs.PartCount, Counted, Loaded, Length, Tally;
    var s' := Resume(p, s, e);
    WorkUpdate(p, s.workers, e.w, s'.workers[e.w]);
    assert s'.workers == s.workers[e.w := s'.workers[e.w]];
    assert Finishing(p, s, s.workers[e.w]);
  }

  /** An upload settles after finitely many awaits, whatever the order and whatever fails. */
  lemma {:induction false} RunIsBounded(p: Plan, s: State, run: seq<Event>)
    requires ValidPlan(p) && Inv(p, s) && Possible(p, s, run)
    ensures Settlings(run) + Remaining(p, After(p, s, run)) <= Remaining(p, s)
    decreases |run|
  {
    hide Inv, Enabled, Remaining;
    if run != [] {
      SettlingCosts(p, s, run[0]);
      ResumeKeeps(p, s, run[0]);
      RunIsBounded(p, Resume(p, s, run[0]), run[1..]);
    }
  }

  predicate Settled(worker: Worker) {
    worker.Returned? || worker.Left? || worker.Threw?
  }

  predicate NoneThrew(s: State) {
    forall w | 0 <= w < |s.workers| :: !s.workers[w].Threw?
  }

  lemma {:induction false} ThrownStays(p: Plan, s: State, run: seq<Event>)
    requires ValidPlan(p) && Possible(p, s, run) && !NoneThrew(s)
    ensures !NoneThrew(After(p, s, run))
    decreases |run|
  {
    if run != [] {
      var s' := Resume(p, s, run[0]);
      var w :| 0 <= w < |s.workers| && s.workers[w].Threw?;
      assert s'.workers[w] == s.workers[w];
      ThrownStays(p, s', run[1..]);
    }
  }

  /** What a worker that has not settled awaits, going well. */
  function Next(worker: Worker, w: nat): Event
    requires !Settled(worker)
  {
    if worker.Preparing? then Prepared(w) else Accepted(w, "")
  }

  lemma NextIsEnabled(p: Plan, s: State, w: nat)
    requires ValidPlan(p) && Inv(p, s) && w < |s.workers| && !Settled(s.workers[w])
    ensures Enabled(p, s, Next(s.workers[w], w))
    ensures NoneThrew(s) ==> NoneThrew(Resume(p, s, Next(s.workers[w], w)))
  {
    hide Runs.PartCount, Counted, Loaded, Length, Tally;
    assert Finishing(p, s, s.workers[w]);
    if s.workers[w].Sending? {
      assert s.workers[w].n in Held(s.workers[w]);
    }
  }

  /** From any state of an upload the awaits that are left can all settle. */
  lemma {:induction false} CanSettle(p: Plan, s: State) returns (run: seq<Event>)
    requires ValidPlan(p) && Inv(p, s)
    ensures Possible(p, s, run) && Inv(p, After(p, s, run)) && |After(p, s, run).workers| == |s.workers|
    ensures forall w | 0 <= w < |s.workers| :: Settled(After(p, s, run).workers[w])
    ensures NoneThrew(s) ==> NoneThrew(After(p, s, run))
    decreases Remaining(p, s)
  {
    hide Inv, Enabled, Remaining, NoneThrew, Settled, Resume;
    if w :| 0 <= w < |s.workers| && !Settled(s.workers[w]) {
      var e := Next(s.workers[w], w);
      NextIsEnabled(p, s, w);
      SettlingCosts(p, s, e);
      ResumeKeeps(p, s, e);
      SameWorkers(p, s, [e]);
      var rest := CanSettle(p, Resume(p, s, e));
      run := [e] + rest;
      assert run[1..] == rest;
    } else {
      run := [];
    }
  }

  /** An upload is never stuck: from every state it can settle, and it can still be fulfilled exactly if no worker has
      thrown. */
  lemma NeverStuck(p: Plan, s: State)
    requires ValidPlan(p) && Inv(p, s)
    ensures exists run :: Possible(p, s, run)
              && forall w | 0 <= w < |After(p, s, run).workers| :: Settled(After(p, s, run).workers[w])
    ensures (exists run :: Possible(p, s, run) && Fulfilled(After(p, s, run))) <==> NoneThrew(s)
  {
    hide Inv, Possible, After;
    var run := CanSettle(p, s);
    if NoneThrew(s) {
      assert Fulfilled(After(p, s, run));
    } else {
      forall other | Possible(p, s, other)
        ensures !Fulfilled(After(p, s, other))
      {
        ThrownStays(p, s, other);
      }
    }
  }
}
