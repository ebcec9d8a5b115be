/**
 * The worker pool's generation protocol: any number of workers, any number of callers, every critical section atomic.
 * When a call returns, its chunks have covered [0, n) exactly once and nobody runs its function any more.
 */
module WorkerPool {
  import opened Common
  import opened Arithmetic

  // ----- The chunk of each thread, in 64-bit arithmetic

  function StepOf(n: nat, threads: nat): nat
    requires threads > 0
  {
    ((n + threads - 1) % U64_LIMIT) / threads
  }

  function Lo(n: nat, threads: nat, tid: nat): nat
    requires threads > 0
  {
    (tid * StepOf(n, threads)) % U64_LIMIT
  }

  function Hi(n: nat, threads: nat, tid: nat): nat
    requires threads > 0
  {
    Min(n, (Lo(n, threads, tid) + StepOf(n, threads)) % U64_LIMIT)
  }

  predicate NonEmpty(n: nat, threads: nat, tid: nat)
    requires threads > 0
  {
    Lo(n, threads, tid) < Hi(n, threads, tid)
  }

  /** How many of the first k threads' chunks contain x. */
  function Covers(n: nat, threads: nat, k: nat, x: nat): nat
    requires threads > 0
  {
    if k == 0 then 0
    else Covers(n, threads, k - 1, x) + if Lo(n, threads, k - 1) <= x < Hi(n, threads, k - 1) then 1 else 0
  }

  /** threads * ceil(n / threads) lies between n and n + threads - 1. */
  lemma StepBounds(n: nat, threads: nat)
    requires threads > 0 && n + threads - 1 < U64_LIMIT
    ensures n <= SlotOff(threads, StepOf(n, threads)) <= n + threads - 1
  {
    var sum := n + threads - 1;
    var step := StepOf(n, threads);
    DivModIdentity(sum, threads);
    SlotOffIsProduct(threads, step);
    assert step == sum / threads;
    assert sum / threads * threads == threads * step;
  }

  lemma NoWrap(n: nat, threads: nat, tid: nat)
    requires threads > 0 && n + threads - 1 < U64_LIMIT && tid < threads
    ensures Lo(n, threads, tid) == SlotOff(tid, StepOf(n, threads))
    ensures Hi(n, threads, tid) == Min(n, SlotOff(tid + 1, StepOf(n, threads)))
  {
    hide StepOf;
    var step := StepOf(n, threads);
    StepBounds(n, threads);
    SlotOffIsProduct(tid, step);
    SlotInPage(tid, threads, step);
  }

  lemma {:induction false} CoversTo(n: nat, threads: nat, k: nat, x: nat)
    requires threads > 0 && n + threads - 1 < U64_LIMIT && k <= threads && x < n
    ensures Covers(n, threads, k, x) == if x < SlotOff(k, StepOf(n, threads)) then 1 else 0
  {
    if k > 0 {
      CoversTo(n, threads, k - 1, x);
      NoWrap(n, threads, k - 1);
    }
  }

  lemma SmallQuotient(a: nat, b: nat)
    requires a < b
    ensures a / b == 0
  {
    QuotientUnique(a, b, 0, a);
  }

  lemma WrappedStep(n: nat, threads: nat)
    requires 0 < threads <= U64_LIMIT && n < U64_LIMIT && n + threads - 1 >= U64_LIMIT
    ensures StepOf(n, threads) == 0
  {
    var sum := n + threads - 1;
    assert sum % U64_LIMIT == sum - U64_LIMIT;
    SmallQuotient(sum - U64_LIMIT, threads);
  }

  lemma {:induction false} CoversNothing(n: nat, threads: nat, k: nat, x: nat)
    requires 0 < threads && StepOf(n, threads) == 0
    ensures Covers(n, threads, k, x) == 0
  {
    if k > 0 {
      CoversNothing(n, threads, k - 1, x);
      assert (k - 1) * StepOf(n, threads) == 0;
    }
  }

  /**
   * Every index is in exactly one chunk; the exception is a count so near 2^64 that the rounding sum wraps and none
   * runs.
   */
  lemma ChunksPartition(n: nat, threads: nat, x: nat)
    requires 0 < threads < U32_LIMIT && n < U64_LIMIT && x < n
    ensures Covers(n, threads, threads, x) == if n + threads - 1 < U64_LIMIT then 1 else 0
  {
    if n + threads - 1 < U64_LIMIT {
      CoversTo(n, threads, threads, x);
      StepBounds(n, threads);
    } else {
      WrappedStep(n, threads);
      CoversNothing(n, threads, threads, x);
    }
  }

  // ----- The protocol

  /** One run of a chunk: which call, which thread, which indices. */
  datatype Invocation = Invocation(call: nat, tid: nat, lo: nat, hi: nat)

  function ChunkOf(call: nat, n: nat, threads: nat, tid: nat): Invocation
    requires threads > 0
  {
    Invocation(call, tid, Lo(n, threads, tid), Hi(n, threads, tid))
  }

  datatype Stage = Waiting | Sleeping | HasJob | Running | Threw | Finishing | Gone

  /** A worker: where it is, the generation it last saw, and its copy of the job. */
  datatype Worker = Worker(at: Stage, seen: nat, fn: nat, n: nat)

  datatype Caller = Idle | Wants(n: nat) | Inside

  datatype Phase = Holds | Notifying | OwnChunk | OwnRunning | OwnThrew
                 | Checking | DoneSleeping | Returning(threw: bool)

  /** The caller inside call_mu, if any. */
  datatype Call = NoCall | Call(c: nat, n: nat, phase: Phase)

  datatype Owner = Alive | MustNotify | Joining | Joined

  /**
   * The pool. `gen` counts generations without bound; the program sees it modulo 2^64. `calls` numbers the calls and
   * stands for the identity of their functions; log and threw record what ran.
   */
  datatype Pool = Pool(threads: nat, gen: nat, fn: nat, n: nat, finished: nat, error: bool, stop: bool,
                       call: Call, workers: seq<Worker>, callers: seq<Caller>, owner: Owner,
                       calls: nat, log: multiset<Invocation>, threw: set<(nat, nat)>)

  datatype Action =
    | Enter(c: nat, n: nat) | Lock(c: nat) | Publish | Solo | NotifyWorkers | OwnStart | OwnEnd(throws: bool)
    | OwnRecord | Check | SpuriousDone | Return
    | WorkerCheck(w: nat) | WorkerSpurious(w: nat) | WorkerStart(w: nat) | WorkerEnd(w: nat, throws: bool)
    | WorkerRecord(w: nat) | WorkerFinish(w: nat)
    | Destroy | DestroyNotify | DestroyJoin

  predicate SameGeneration(a: nat, b: nat) {
    a % U64_LIMIT == b % U64_LIMIT
  }

  ghost predicate Enabled(s: Pool, a: Action) {
    match a
    case Enter(c, n) => c < |s.callers| && s.callers[c].Idle? && s.owner.Alive? && n < U64_LIMIT
    case Lock(c) => c < |s.callers| && s.callers[c].Wants? && s.call.NoCall?
    case Publish => s.call.Call? && s.call.phase.Holds? && s.threads > 1
    case Solo => s.call.Call? && s.call.phase.Holds? && s.threads <= 1
    case NotifyWorkers => s.call.Call? && s.call.phase.Notifying?
    case OwnStart => s.call.Call? && s.call.phase.OwnChunk?
    case OwnEnd(_) => s.call.Call? && s.call.phase.OwnRunning?
    case OwnRecord => s.call.Call? && s.call.phase.OwnThrew?
    case Check => s.call.Call? && s.call.phase.Checking?
    case SpuriousDone => s.call.Call? && s.call.phase.DoneSleeping?
    case Return => s.call.Call? && s.call.phase.Returning? && s.call.c < |s.callers|
    case WorkerCheck(w) => w < |s.workers| && s.workers[w].at.Waiting?
    case WorkerSpurious(w) => w < |s.workers| && s.workers[w].at.Sleeping?
    case WorkerStart(w) => w < |s.workers| && s.workers[w].at.HasJob?
    case WorkerEnd(w, _) => w < |s.workers| && s.workers[w].at.Running?
    case WorkerRecord(w) => w < |s.workers| && s.workers[w].at.Threw?
    case WorkerFinish(w) => w < |s.workers| && s.workers[w].at.Finishing?
    case Destroy => s.owner.Alive? && s.call.NoCall? && forall c :: 0 <= c < |s.callers| ==> s.callers[c].Idle?
    case DestroyNotify => s.owner.MustNotify?
    case DestroyJoin => s.owner.Joining? && forall w :: 0 <= w < |s.workers| ==> s.workers[w].at.Gone?
  }

  function Wake(w: Worker): Worker {
    if w.at.Sleeping? then w.(at := Waiting) else w
  }

  function AllAwake(ws: seq<Worker>): (r: seq<Worker>)
    ensures |r| == |ws| && forall i :: 0 <= i < |ws| ==> r[i] == Wake(ws[i])
  {
    if |ws| == 0 then [] else AllAwake(ws[..|ws| - 1]) + [Wake(ws[|ws| - 1])]
  }

  function In(s: Pool, phase: Phase): Pool
    requires s.call.Call?
  {
    s.(call := s.call.(phase := phase))
  }

  function At(s: Pool, w: nat, at: Stage): Pool
    requires w < |s.workers|
  {
    s.(workers := s.workers[w := s.workers[w].(at := at)])
  }

  ghost function Next(s: Pool, a: Action): Pool
    requires Enabled(s, a) && s.threads > 0 && |s.workers| == s.threads - 1
  {
    match a
    case Enter(c, n) => if n == 0 then s else s.(callers := s.callers[c := Wants(n)])
    case Lock(c) => s.(call := Call(c, s.callers[c].n, Holds), callers := s.callers[c := Inside], calls := s.calls + 1)
    case Publish =>
      In(s, Notifying).(fn := s.calls, n := s.call.n, finished := 0, error := false, gen := s.gen + 1)
    case Solo => In(s, OwnRunning).(log := s.log + multiset{Invocation(s.calls, 0, 0, s.call.n)})
    case NotifyWorkers => In(s, OwnChunk).(workers := AllAwake(s.workers))
    case OwnStart =>
      var b := Min(s.call.n, StepOf(s.call.n, s.threads));
      if b > 0 then In(s, OwnRunning).(log := s.log + multiset{Invocation(s.calls, 0, 0, b)}) else In(s, Checking)
    case OwnEnd(throws) =>
      In(s, if s.threads <= 1 then Returning(throws) else if throws then OwnThrew else Checking)
        .(threw := if throws then s.threw + {(s.calls, 0)} else s.threw)
    case OwnRecord => In(s, Checking).(error := true)
    case Check => In(s, if s.finished == s.threads - 1 then Returning(s.error) else DoneSleeping)
    case SpuriousDone => In(s, Checking)
    case Return => s.(call := NoCall, callers := s.callers[s.call.c := Idle])
    case WorkerCheck(w) =>
      if s.stop then At(s, w, Gone)
      else if SameGeneration(s.gen, s.workers[w].seen) then At(s, w, Sleeping)
      else s.(workers := s.workers[w := Worker(HasJob, s.gen, s.fn, s.n)])
    case WorkerSpurious(w) => At(s, w, Waiting)
    case WorkerStart(w) =>
      var me := s.workers[w];
      if NonEmpty(me.n, s.threads, w + 1)
      then At(s, w, Running).(log := s.log + multiset{ChunkOf(me.fn, me.n, s.threads, w + 1)})
      else At(s, w, Finishing)
    case WorkerEnd(w, throws) =>
      At(s, w, if throws then Threw else Finishing)
        .(threw := if throws then s.threw + {(s.workers[w].fn, w + 1)} else s.threw)
    case WorkerRecord(w) =>
      At(s, w, Finishing).(error := s.error || SameGeneration(s.workers[w].seen, s.gen))
    case WorkerFinish(w) =>
      if SameGeneration(s.workers[w].seen, s.gen) then
        var f := s.finished + 1;
        At(s, w, Waiting).(finished := f,
          call := if f == s.threads - 1 && s.call.Call? && s.call.phase.DoneSleeping?
                  then s.call.(phase := Checking) else s.call)
      else At(s, w, Waiting)
    case Destroy => s.(stop := true, gen := s.gen + 1, owner := MustNotify)
    case DestroyNotify => s.(owner := Joining, workers := AllAwake(s.workers))
    case DestroyJoin => s.(owner := Joined)
  }

  function Init(threads: nat, callers: nat): Pool
    requires threads > 0
  {
    Pool(threads, 0, 0, 0, 0, false, false, NoCall, seq(threads - 1, _ => Worker(Waiting, 0, 0, 0)),
        seq(callers, _ => Idle),
         Alive, 0, multiset{}, {})
  }

  // ----- The invariant

  predicate Busy(at: Stage) {
    at.HasJob? || at.Running? || at.Threw? || at.Finishing?
  }

  /** A job is published and its caller has not returned. */
  predicate Active(s: Pool) {
    s.call.Call? && !s.call.phase.Holds? && s.threads > 1
  }

  /** A worker either serves the published job, has finished it, or has not seen it yet; without a job it rests. */
  predicate WorkerOk(s: Pool, w: Worker) {
    if Active(s) then
      if w.seen == s.gen then !w.at.Gone? && (Busy(w.at) ==> w.fn == s.fn && w.n == s.n)
      else w.seen + 1 == s.gen && (w.at.Waiting? || w.at.Sleeping?)
    else
      !Busy(w.at) && (if s.stop then w.seen + 1 == s.gen else w.seen == s.gen && !w.at.Gone?)
  }

  predicate Done(w: Worker, gen: nat) {
    w.seen == gen && !Busy(w.at)
  }

  /** How many workers have finished generation gen. */
  function DoneCount(ws: seq<Worker>, gen: nat): (n: nat)
    ensures n <= |ws|
  {
    if |ws| == 0 then 0 else DoneCount(ws[..|ws| - 1], gen) + if Done(ws[|ws| - 1], gen) then 1 else 0
  }

  lemma {:induction false} DoneCountUpdate(ws: seq<Worker>, gen: nat, i: nat, w: Worker)
    requires i < |ws|
    ensures DoneCount(ws[i := w], gen)
         == DoneCount(ws, gen) - (if Done(ws[i], gen) then 1 else 0) + if Done(w, gen) then 1 else 0
  {
    var rest := ws[..|ws| - 1];
    if i < |rest| {
      DoneCountUpdate(rest, gen, i, w);
      assert ws[i := w][..|ws| - 1] == rest[i := w];
    } else {
      assert ws[i := w][..|ws| - 1] == rest;
    }
  }

  /** Everyone has finished exactly when the count says so. */
  lemma {:induction false} AllDone(ws: seq<Worker>, gen: nat)
    ensures DoneCount(ws, gen) == |ws| <==> forall i :: 0 <= i < |ws| ==> Done(ws[i], gen)
  {
    if |ws| > 0 {
      AllDone(ws[..|ws| - 1], gen);
    }
  }

  lemma {:induction false} NoneDone(ws: seq<Worker>, gen: nat)
    requires forall i :: 0 <= i < |ws| ==> !Done(ws[i], gen)
    ensures DoneCount(ws, gen) == 0
  {
    if |ws| > 0 {
      NoneDone(ws[..|ws| - 1], gen);
    }
  }

  lemma {:induction false} SameDone(ws: seq<Worker>, vs: seq<Worker>, gen: nat)
    requires |ws| == |vs| && forall i :: 0 <= i < |ws| ==> Done(ws[i], gen) == Done(vs[i], gen)
    ensures DoneCount(ws, gen) == DoneCount(vs, gen)
  {
    if |ws| > 0 {
      SameDone(ws[..|ws| - 1], vs[..|vs| - 1], gen);
    }
  }

  lemma AwakeCount(ws: seq<Worker>, gen: nat)
    ensures DoneCount(AllAwake(ws), gen) == DoneCount(ws, gen)
  {
    SameDone(AllAwake(ws), ws, gen);
  }

  ghost predicate CallersOk(s: Pool) {
    && (forall c :: 0 <= c < |s.callers| ==> (s.callers[c].Inside? <==> s.call.Call? && s.call.c == c))
    && (s.call.Call? ==> s.call.c < |s.callers| && 0 < s.call.n < U64_LIMIT && !s.stop && s.owner.Alive?)
    && (forall c :: 0 <= c < |s.callers| && s.callers[c].Wants? ==> 0 < s.callers[c].n < U64_LIMIT && s.owner.Alive?)
    && (s.owner.Alive? <==> !s.stop)
    && (s.call.Call? && s.threads <= 1 ==> s.call.phase.Holds? || s.call.phase.OwnRunning? || s.call.phase.Returning?)
  }

  ghost predicate WorkersOk(s: Pool) {
    && (forall w :: 0 <= w < |s.workers| ==> WorkerOk(s, s.workers[w]))
    && (Active(s) ==> s.fn == s.calls && s.n == s.call.n && s.finished == DoneCount(s.workers, s.gen))
    && (Active(s) && s.call.phase.Returning? ==> s.finished == s.threads - 1)
  }

  /** No wake-up is lost, on either condition variable. */
  ghost predicate SleepOk(s: Pool) {
    && (forall w :: 0 <= w < |s.workers| && s.workers[w].at.Sleeping? && (s.stop || s.workers[w].seen != s.gen) ==>
          s.owner.MustNotify? || (s.call.Call? && s.call.phase.Notifying?))
    && (Active(s) && s.call.phase.DoneSleeping? ==> s.finished != s.threads - 1)
  }

  /** Has thread tid begun its chunk of the current call? */
  predicate Begun(s: Pool, tid: nat)
    requires s.call.Call?
  {
    if tid == 0 then !(s.call.phase.Holds? || s.call.phase.Notifying? || s.call.phase.OwnChunk?)
    else Active(s) && tid - 1 < |s.workers| && s.workers[tid - 1].seen == s.gen && !s.workers[tid - 1].at.HasJob?
  }

  /** What has run for the current call is exactly the nonempty chunks of the threads that have begun, once each. */
  ghost predicate LogOk(s: Pool)
    requires s.threads > 0
  {
    && (forall i :: i in s.log ==> i.call <= s.calls)
    && (s.call.Call? ==>
          && (forall i :: i in s.log && i.call == s.calls ==>
                i.tid < s.threads && i == ChunkOf(s.calls, s.call.n, s.threads, i.tid))
          && (forall tid :: 0 <= tid < s.threads ==>
                s.log[ChunkOf(s.calls, s.call.n, s.threads, tid)]
                == if NonEmpty(s.call.n, s.threads, tid) && Begun(s, tid) then 1 else 0))
  }

  /** Has thread tid's exception, if it threw one, been recorded? */
  predicate Recorded(s: Pool, tid: nat)
    requires s.call.Call?
  {
    if tid == 0 then !s.call.phase.OwnThrew? else tid - 1 < |s.workers| && !s.workers[tid - 1].at.Threw?
  }

  ghost predicate ThrowOk(s: Pool) {
    && (forall t :: t in s.threw ==> t.0 <= s.calls)
    && (s.call.Call? ==> forall tid :: (s.calls, tid) in s.threw ==> tid < s.threads && Begun(s, tid))
    && (Active(s) && s.error ==> exists tid :: (s.calls, tid) in s.threw)
    && (Active(s) ==> forall tid :: (s.calls, tid) in s.threw && Recorded(s, tid) ==> s.error)
    && (Active(s) && s.call.phase.OwnThrew? ==> (s.calls, 0) in s.threw)
    && (s.call.Call? && s.call.phase.OwnRunning? ==> (s.calls, 0) !in s.threw)
    && (Active(s) ==> forall w :: 0 <= w < |s.workers| && s.workers[w].at.Threw? ==> (s.calls, w + 1) in s.threw)
    && (s.call.Call? && s.call.phase.Returning? ==> (s.call.phase.threw <==> exists tid :: (s.calls, tid) in s.threw))
  }

  ghost predicate Shape(s: Pool) {
    0 < s.threads < U32_LIMIT && |s.workers| == s.threads - 1
  }

  ghost predicate Inv(s: Pool) {
    Shape(s) && CallersOk(s) && WorkersOk(s) && SleepOk(s) && LogOk(s) && ThrowOk(s)
  }

  lemma InitInv(threads: nat, callers: nat)
    requires 0 < threads < U32_LIMIT
    ensures Inv(Init(threads, callers))
  {
  }

  // ----- Every step keeps it

  /** Generations differ by at most one, so comparing them modulo 2^64 is exact. */
  lemma ComparesExactly(gen: nat, seen: nat)
    requires seen == gen || seen + 1 == gen
    ensures SameGeneration(gen, seen) <==> seen == gen
  {
  }

  lemma QuotientSmaller(a: nat, b: nat)
    requires b > 0
    ensures 0 <= a / b <= a
  {
    DivModIdentity(a, b);
    AtLeastOne(b, a / b);
    assert b * (a / b) == a / b * b;
  }

  lemma StepSmall(n: nat, threads: nat)
    requires threads > 0
    ensures 0 <= StepOf(n, threads) < U64_LIMIT
  {
    QuotientSmaller((n + threads - 1) % U64_LIMIT, threads);
  }

  /** The caller's own chunk is thread 0's. */
  lemma OwnChunkIs(call: nat, n: nat, threads: nat)
    requires threads > 0
    ensures ChunkOf(call, n, threads, 0) == Invocation(call, 0, 0, Min(n, StepOf(n, threads)))
    ensures NonEmpty(n, threads, 0) <==> Min(n, StepOf(n, threads)) > 0
  {
    StepSmall(n, threads);
    assert 0 * StepOf(n, threads) == 0;
  }

  /** A pool without workers runs the whole range as one chunk. */
  lemma SoloChunkIs(call: nat, n: nat, threads: nat)
    requires threads == 1 && n < U64_LIMIT
    ensures ChunkOf(call, n, threads, 0) == Invocation(call, 0, 0, n)
  {
    QuotientUnique(n, threads, n, 0);
    OwnChunkIs(call, n, threads);
  }

  ghost predicate SameCall(s: Pool, t: Pool) {
    s.call.Call? && t.call.Call? && s.calls == t.calls && s.call.n == t.call.n && s.threads == t.threads > 0
  }

  lemma LogGrows(s: Pool, t: Pool, tid: nat)
    requires SameCall(s, t) && LogOk(s) && tid < s.threads && NonEmpty(s.call.n, s.threads, tid) && !Begun(s, tid)
    requires t.log == s.log + multiset{ChunkOf(s.calls, s.call.n, s.threads, tid)}
    requires forall k :: 0 <= k < s.threads ==> (Begun(t, k) <==> k == tid || Begun(s, k))
    ensures LogOk(t)
  {
    hide Lo, Hi, Begun;
  }

  lemma LogStays(s: Pool, t: Pool)
    requires SameCall(s, t) && LogOk(s) && t.log == s.log
    requires forall k :: 0 <= k < s.threads && NonEmpty(s.call.n, s.threads, k) ==> (Begun(t, k) <==> Begun(s, k))
    ensures LogOk(t)
  {
    hide Lo, Hi, Begun;
  }

  /** A step that neither throws nor records, and takes no thread back, keeps the account of exceptions. */
  lemma ThrowStays(s: Pool, t: Pool)
    requires ThrowOk(s) && t.threw == s.threw && t.error == s.error && t.calls == s.calls && t.threads == s.threads
    requires t.call == s.call || (s.call.Call? && s.call.phase.DoneSleeping? && t.call == s.call.(phase := Checking))
    requires |t.workers| == |s.workers|
    requires s.call.Call? ==> forall k :: 0 <= k < s.threads && Begun(s, k) ==> Begun(t, k)
    requires s.call.Call? ==> forall k :: 0 <= k < s.threads && Recorded(t, k) ==> Recorded(s, k)
    requires forall w :: 0 <= w < |s.workers| && t.workers[w].at.Threw? ==> s.workers[w].at.Threw?
    ensures ThrowOk(t)
  {
    hide Begun, Recorded;
  }

  /** Steps that open a call, and those that close the pool. */
  predicate OpeningAction(a: Action) {
    a.Enter? || a.Lock? || a.Publish? || a.Solo? || a.NotifyWorkers? || a.Destroy? || a.DestroyNotify? || a.DestroyJoin?
  }

  lemma OpeningCallersOk(s: Pool, a: Action)
    requires Inv(s) && Enabled(s, a) && OpeningAction(a)
    ensures CallersOk(Next(s, a))
  {
    hide WorkersOk, SleepOk, LogOk, ThrowOk;
  }

  lemma OpeningWorkersOk(s: Pool, a: Action)
    requires Inv(s) && Enabled(s, a) && OpeningAction(a)
    ensures WorkersOk(Next(s, a))
  {
    hide LogOk, ThrowOk, SleepOk, DoneCount;
    if a.Publish? {
      NoneDone(s.workers, s.gen + 1);
    } else if a.NotifyWorkers? {
      AwakeCount(s.workers, s.gen);
    }
  }

  lemma OpeningSleepOk(s: Pool, a: Action)
    requires Inv(s) && Enabled(s, a) && OpeningAction(a)
    ensures SleepOk(Next(s, a))
  {
    hide LogOk, ThrowOk, DoneCount;
  }

  lemma OpeningLogOk(s: Pool, a: Action)
    requires Inv(s) && Enabled(s, a) && OpeningAction(a)
    ensures LogOk(Next(s, a))
  {
    hide SleepOk, ThrowOk, DoneCount, Lo, Hi;
    if a.Solo? {
      SoloChunkIs(s.calls, s.call.n, s.threads);
      LogGrows(s, Next(s, a), 0);
    } else if a.Publish? || a.NotifyWorkers? {
      LogStays(s, Next(s, a));
    }
  }

  lemma OpeningThrowOk(s: Pool, a: Action)
    requires Inv(s) && Enabled(s, a) && OpeningAction(a)
    ensures ThrowOk(Next(s, a))
  {
    hide SleepOk, LogOk, DoneCount;
  }

  /** The caller's own chunk, its wait and its return. */
  predicate CallingAction(a: Action) {
    a.OwnStart? || a.OwnEnd? || a.OwnRecord? || a.Check? || a.SpuriousDone? || a.Return?
  }

  lemma OwnEndThrowOk(s: Pool, a: Action)
    requires Inv(s) && Enabled(s, a) && a.OwnEnd?
    ensures ThrowOk(Next(s, a))
  {
    hide SleepOk, LogOk, DoneCount, WorkersOk;
    if a.throws {
      assert (s.calls, 0) in Next(s, a).threw;
    }
  }

  lemma OwnStartThrowOk(s: Pool, a: Action)
    requires Inv(s) && Enabled(s, a) && (a.OwnStart? || a.OwnRecord?)
    ensures ThrowOk(Next(s, a))
  {
    hide SleepOk, LogOk, DoneCount, WorkersOk;
  }

  lemma WaitThrowOk(s: Pool, a: Action)
    requires Inv(s) && Enabled(s, a) && (a.Check? || a.SpuriousDone? || a.Return?)
    ensures ThrowOk(Next(s, a))
  {
    hide SleepOk, LogOk, DoneCount;
    AllDone(s.workers, s.gen);
  }

  lemma OwnStartLogOk(s: Pool, a: Action)
    requires Inv(s) && Enabled(s, a) && a.OwnStart?
    ensures LogOk(Next(s, a))
  {
    hide SleepOk, ThrowOk, WorkersOk, DoneCount, Lo, Hi;
    OwnChunkIs(s.calls, s.call.n, s.threads);
    var t := Next(s, a);
    if t.call.phase.OwnRunning? {
      LogGrows(s, t, 0);
    } else {
      LogStays(s, t);
    }
  }

  lemma OwnRestLogOk(s: Pool, a: Action)
    requires Inv(s) && Enabled(s, a) && CallingAction(a) && !a.OwnStart?
    ensures LogOk(Next(s, a))
  {
    hide SleepOk, ThrowOk, WorkersOk, DoneCount, Lo, Hi;
    if !a.Return? {
      LogStays(s, Next(s, a));
    }
  }

  lemma CallingCallersOk(s: Pool, a: Action)
    requires Inv(s) && Enabled(s, a) && CallingAction(a)
    ensures CallersOk(Next(s, a))
  {
    hide WorkersOk, SleepOk, LogOk, ThrowOk;
  }

  lemma CallingWorkersOk(s: Pool, a: Action)
    requires Inv(s) && Enabled(s, a) && CallingAction(a)
    ensures WorkersOk(Next(s, a))
  {
    hide LogOk, ThrowOk, SleepOk, DoneCount;
    AllDone(s.workers, s.gen);
  }

  lemma CallingSleepOk(s: Pool, a: Action)
    requires Inv(s) && Enabled(s, a) && CallingAction(a)
    ensures SleepOk(Next(s, a))
  {
    hide LogOk, ThrowOk, DoneCount;
  }

  lemma CallingLogOk(s: Pool, a: Action)
    requires Inv(s) && Enabled(s, a) && CallingAction(a)
    ensures LogOk(Next(s, a))
  {
    hide Inv, LogOk, Enabled, Next;
    if a.OwnStart? {
      OwnStartLogOk(s, a);
    } else {
      OwnRestLogOk(s, a);
    }
  }

  lemma CallingThrowOk(s: Pool, a: Action)
    requires Inv(s) && Enabled(s, a) && CallingAction(a)
    ensures ThrowOk(Next(s, a))
  {
    hide Inv, ThrowOk, Enabled, Next;
    if a.OwnEnd? {
      OwnEndThrowOk(s, a);
    } else if a.OwnStart? || a.OwnRecord? {
      OwnStartThrowOk(s, a);
    } else {
      WaitThrowOk(s, a);
    }
  }

  /** A worker looks for a job or hands one back. */
  predicate TurningAction(a: Action) {
    a.WorkerCheck? || a.WorkerSpurious? || a.WorkerFinish?
  }

  lemma TurningCallersOk(s: Pool, a: Action)
    requires Inv(s) && Enabled(s, a) && TurningAction(a)
    ensures CallersOk(Next(s, a))
  {
    hide WorkersOk, SleepOk, LogOk, ThrowOk;
  }

  lemma TurningWorkersOk(s: Pool, a: Action)
    requires Inv(s) && Enabled(s, a) && TurningAction(a)
    ensures WorkersOk(Next(s, a))
  {
    hide LogOk, ThrowOk, SleepOk, DoneCount;
    ComparesExactly(s.gen, s.workers[a.w].seen);
    DoneCountUpdate(s.workers, s.gen, a.w, Next(s, a).workers[a.w]);
  }

  lemma TurningSleepOk(s: Pool, a: Action)
    requires Inv(s) && Enabled(s, a) && TurningAction(a)
    ensures SleepOk(Next(s, a))
  {
    hide LogOk, ThrowOk, DoneCount;
    ComparesExactly(s.gen, s.workers[a.w].seen);
  }

  lemma TurningLogOk(s: Pool, a: Action)
    requires Inv(s) && Enabled(s, a) && TurningAction(a)
    ensures LogOk(Next(s, a))
  {
    hide SleepOk, ThrowOk, DoneCount, Lo, Hi;
    ComparesExactly(s.gen, s.workers[a.w].seen);
    if s.call.Call? {
      LogStays(s, Next(s, a));
    }
  }

  lemma TurningThrowOk(s: Pool, a: Action)
    requires Inv(s) && Enabled(s, a) && TurningAction(a)
    ensures ThrowOk(Next(s, a))
  {
    hide SleepOk, LogOk, DoneCount;
    ComparesExactly(s.gen, s.workers[a.w].seen);
    ThrowStays(s, Next(s, a));
  }

  /** A worker runs its chunk. */
  predicate ServingAction(a: Action) {
    a.WorkerStart? || a.WorkerEnd? || a.WorkerRecord?
  }

  lemma WorkerEndThrowOk(s: Pool, a: Action)
    requires Inv(s) && Enabled(s, a) && a.WorkerEnd?
    ensures ThrowOk(Next(s, a))
  {
    hide SleepOk, LogOk, DoneCount;
    AllDone(s.workers, s.gen);
    var t := Next(s, a);
    assert WorkerOk(s, s.workers[a.w]) && s.workers[a.w].fn == s.calls && Begun(t, a.w + 1);
    forall tid | (s.calls, tid) in t.threw
      ensures tid < s.threads && Begun(t, tid) && (Recorded(t, tid) ==> t.error)
    {
      assert tid == a.w + 1 || (s.calls, tid) in s.threw;
    }
    if a.throws {
      assert (s.calls, a.w + 1) in Next(s, a).threw;
    }
  }

  lemma WorkerRecordThrowOk(s: Pool, a: Action)
    requires Inv(s) && Enabled(s, a) && a.WorkerRecord?
    ensures ThrowOk(Next(s, a))
  {
    hide SleepOk, LogOk, DoneCount;
    ComparesExactly(s.gen, s.workers[a.w].seen);
  }

  lemma WorkerStartThrowOk(s: Pool, a: Action)
    requires Inv(s) && Enabled(s, a) && a.WorkerStart?
    ensures ThrowOk(Next(s, a))
  {
    hide SleepOk, LogOk, DoneCount;
    ThrowStays(s, Next(s, a));
  }

  lemma WorkerStartLogOk(s: Pool, a: Action)
    requires Inv(s) && Enabled(s, a) && a.WorkerStart?
    ensures LogOk(Next(s, a))
  {
    hide SleepOk, ThrowOk, DoneCount, Lo, Hi;
    var t := Next(s, a);
    if t.workers[a.w].at.Running? {
      LogGrows(s, t, a.w + 1);
    } else {
      LogStays(s, t);
    }
  }

  lemma WorkerEndLogOk(s: Pool, a: Action)
    requires Inv(s) && Enabled(s, a) && (a.WorkerEnd? || a.WorkerRecord?)
    ensures LogOk(Next(s, a))
  {
    hide SleepOk, ThrowOk, DoneCount, Lo, Hi;
    LogStays(s, Next(s, a));
  }

  lemma WorkerStartWorkersOk(s: Pool, a: Action)
    requires Inv(s) && Enabled(s, a) && a.WorkerStart?
    ensures WorkersOk(Next(s, a))
  {
    hide LogOk, ThrowOk, SleepOk, DoneCount, CallersOk, Lo, Hi;
    DoneCountUpdate(s.workers, s.gen, a.w, Next(s, a).workers[a.w]);
  }

  lemma WorkerEndWorkersOk(s: Pool, a: Action)
    requires Inv(s) && Enabled(s, a) && (a.WorkerEnd? || a.WorkerRecord?)
    ensures WorkersOk(Next(s, a))
  {
    hide LogOk, ThrowOk, SleepOk, DoneCount, CallersOk;
    DoneCountUpdate(s.workers, s.gen, a.w, Next(s, a).workers[a.w]);
  }

  lemma ServingCallersOk(s: Pool, a: Action)
    requires Inv(s) && Enabled(s, a) && ServingAction(a)
    ensures CallersOk(Next(s, a))
  {
    hide WorkersOk, SleepOk, LogOk, ThrowOk;
  }

  lemma ServingWorkersOk(s: Pool, a: Action)
    requires Inv(s) && Enabled(s, a) && ServingAction(a)
    ensures WorkersOk(Next(s, a))
  {
    hide Inv, WorkersOk, Enabled, Next;
    if a.WorkerStart? {
      WorkerStartWorkersOk(s, a);
    } else {
      WorkerEndWorkersOk(s, a);
    }
  }

  lemma ServingSleepOk(s: Pool, a: Action)
    requires Inv(s) && Enabled(s, a) && ServingAction(a)
    ensures SleepOk(Next(s, a))
  {
    hide LogOk, ThrowOk, DoneCount;
  }

  lemma ServingLogOk(s: Pool, a: Action)
    requires Inv(s) && Enabled(s, a) && ServingAction(a)
    ensures LogOk(Next(s, a))
  {
    hide Inv, LogOk, Enabled, Next;
    if a.WorkerStart? {
      WorkerStartLogOk(s, a);
    } else {
      WorkerEndLogOk(s, a);
    }
  }

  lemma ServingThrowOk(s: Pool, a: Action)
    requires Inv(s) && Enabled(s, a) && ServingAction(a)
    ensures ThrowOk(Next(s, a))
  {
    hide Inv, ThrowOk, Enabled, Next;
    if a.WorkerStart? {
      WorkerStartThrowOk(s, a);
    } else if a.WorkerEnd? {
      WorkerEndThrowOk(s, a);
    } else {
      WorkerRecordThrowOk(s, a);
    }
  }

  lemma StepInv(s: Pool, a: Action)
    requires Inv(s) && Enabled(s, a)
    ensures Inv(Next(s, a))
  {
    hide CallersOk, WorkersOk, SleepOk, LogOk, ThrowOk;
    if OpeningAction(a) {
      OpeningCallersOk(s, a);
      OpeningWorkersOk(s, a);
      OpeningSleepOk(s, a);
      OpeningLogOk(s, a);
      OpeningThrowOk(s, a);
    } else if CallingAction(a) {
      CallingCallersOk(s, a);
      CallingWorkersOk(s, a);
      CallingSleepOk(s, a);
      CallingLogOk(s, a);
      CallingThrowOk(s, a);
    } else if TurningAction(a) {
      TurningCallersOk(s, a);
      TurningWorkersOk(s, a);
      TurningSleepOk(s, a);
      TurningLogOk(s, a);
      TurningThrowOk(s, a);
    } else {
      ServingCallersOk(s, a);
      ServingWorkersOk(s, a);
      ServingSleepOk(s, a);
      ServingLogOk(s, a);
      ServingThrowOk(s, a);
    }
  }

  // ----- What holds over every run

  /** The pool after any sequence of attempted steps; a step that is not enabled does nothing. */
  ghost function After(threads: nat, callers: nat, run: seq<Action>): (s: Pool)
    requires 0 < threads < U32_LIMIT
    ensures Inv(s) && s.threads == threads
  {
    if |run| == 0 then InitInv(threads, callers); Init(threads, callers)
    else
      var s, a := After(threads, callers, run[..|run| - 1]), run[|run| - 1];
      if Enabled(s, a) then StepInv(s, a); Next(s, a) else s
  }

  lemma EveryoneBegan(s: Pool)
    requires Inv(s) && s.call.Call? && s.call.phase.Returning?
    ensures forall tid :: 0 <= tid < s.threads ==> Begun(s, tid)
    ensures forall w :: 0 <= w < |s.workers| ==> !Busy(s.workers[w].at)
  {
    hide SleepOk, LogOk, ThrowOk, DoneCount;
    AllDone(s.workers, s.gen);
  }

  /**
   * When a call is about to return or throw: every nonempty chunk ran exactly once and nothing else ran for this call,
   * no worker is still busy with its function or an earlier one, and it throws exactly when one of its chunks threw.
   */
  lemma CallIsComplete(threads: nat, callers: nat, run: seq<Action>)
    requires 0 < threads < U32_LIMIT && After(threads, callers, run).call.Call?
             && After(threads, callers, run).call.phase.Returning?
    ensures var s := After(threads, callers, run);
            && (forall tid :: 0 <= tid < s.threads ==>
                  s.log[ChunkOf(s.calls, s.call.n, s.threads, tid)]
                  == if NonEmpty(s.call.n, s.threads, tid) then 1 else 0)
            && (forall i :: i in s.log && i.call == s.calls ==>
                  i.tid < s.threads && i == ChunkOf(s.calls, s.call.n, s.threads, i.tid))
            && (forall w :: 0 <= w < |s.workers| ==> !Busy(s.workers[w].at))
            && (s.call.phase.threw <==> exists tid :: (s.calls, tid) in s.threw)
  {
    var s := After(threads, callers, run);
    AllDone(s.workers, s.gen);
    EveryoneBegan(s);
  }

  /** How many of the logged runs of threads below k, for the call inside, contain x. */
  ghost function RunsAt(s: Pool, k: nat, x: nat): nat
    requires s.call.Call? && s.threads > 0
  {
    if k == 0 then 0
    else
      var chunk := ChunkOf(s.calls, s.call.n, s.threads, k - 1);
      RunsAt(s, k - 1, x) + if chunk.lo <= x < chunk.hi then s.log[chunk] else 0
  }

  lemma {:induction false} RunsAreCovers(s: Pool, k: nat, x: nat)
    requires s.call.Call? && k <= s.threads && s.threads > 0
    requires forall tid :: 0 <= tid < s.threads ==>
               s.log[ChunkOf(s.calls, s.call.n, s.threads, tid)] == if NonEmpty(s.call.n, s.threads, tid) then 1 else 0
    ensures RunsAt(s, k, x) == Covers(s.call.n, s.threads, k, x)
  {
    hide Lo, Hi;
    if k > 0 {
      RunsAreCovers(s, k - 1, x);
      var chunk := ChunkOf(s.calls, s.call.n, s.threads, k - 1);
      assert s.log[chunk] == if NonEmpty(s.call.n, s.threads, k - 1) then 1 else 0;
    }
  }

  lemma SizedCall(s: Pool)
    requires Inv(s) && s.call.Call?
    ensures s.call.n < U64_LIMIT
  {
  }

  /**
   * What ran for a call that is about to return or throw stayed inside [0, n) and contained every index exactly once;
   * if rounding up the count wrapped past 2^64, nothing ran.
   */
  lemma CallCoversRange(threads: nat, callers: nat, run: seq<Action>, x: nat)
    requires 0 < threads < U32_LIMIT && After(threads, callers, run).call.Call?
    requires After(threads, callers, run).call.phase.Returning? && x < After(threads, callers, run).call.n
    ensures var s := After(threads, callers, run);
            && RunsAt(s, s.threads, x) == (if s.call.n + s.threads - 1 < U64_LIMIT then 1 else 0)
            && (forall i :: i in s.log && i.call == s.calls ==> i.hi <= s.call.n)
  {
    hide After, NonEmpty, Begun;
    var s := After(threads, callers, run);
    CallIsComplete(threads, callers, run);
    RunsAreCovers(s, s.threads, x);
    SizedCall(s);
    ChunksPartition(s.call.n, s.threads, x);
  }

  /** A caller that sleeps until its call is done is waiting for a worker that is awake: no deadlock. */
  lemma SomeWorkerIsAwake(threads: nat, callers: nat, run: seq<Action>) returns (w: nat)
    requires 0 < threads < U32_LIMIT
    requires After(threads, callers, run).call.Call? && After(threads, callers, run).call.phase.DoneSleeping?
    ensures var s := After(threads, callers, run);
            w < |s.workers| && !Done(s.workers[w], s.gen) && !s.workers[w].at.Sleeping? && !s.workers[w].at.Gone?
  {
    var s := After(threads, callers, run);
    AllDone(s.workers, s.gen);
    w :| w < |s.workers| && !Done(s.workers[w], s.gen);
    assert WorkerOk(s, s.workers[w]);
  }

  // ----- Nobody waits for ever

  lemma AfterEnabled(threads: nat, callers: nat, run: seq<Action>, a: Action)
    requires 0 < threads < U32_LIMIT && Enabled(After(threads, callers, run), a)
    ensures After(threads, callers, run + [a]) == Next(After(threads, callers, run), a)
  {
    hide Inv, Enabled, Next;
    assert (run + [a])[..|run|] == run;
  }

  /** How many steps a worker may still need to finish generation gen. */
  function Left(w: Worker, gen: nat): nat {
    match w.at
    case Gone => 0
    case Finishing => 1
    case Threw => 2
    case Running => 3
    case HasJob => 4
    case Waiting => if w.seen == gen then 0 else 5
    case Sleeping => if w.seen == gen then 0 else 6
  }

  function AllLeft(ws: seq<Worker>, gen: nat): nat {
    if |ws| == 0 then 0 else AllLeft(ws[..|ws| - 1], gen) + Left(ws[|ws| - 1], gen)
  }

  lemma {:induction false} AllLeftUpdate(ws: seq<Worker>, gen: nat, i: nat, w: Worker)
    requires i < |ws|
    ensures AllLeft(ws[i := w], gen) == AllLeft(ws, gen) - Left(ws[i], gen) + Left(w, gen)
  {
    var rest := ws[..|ws| - 1];
    if i < |rest| {
      AllLeftUpdate(rest, gen, i, w);
      assert ws[i := w][..|ws| - 1] == rest[i := w];
    } else {
      assert ws[i := w][..|ws| - 1] == rest;
    }
  }

  predicate WorkerAction(a: Action) {
    TurningAction(a) || ServingAction(a)
  }

  /** While a call is open no worker step adds work, and every step of an unfinished worker takes some away. */
  lemma WorkerStepLeft(s: Pool, a: Action)
    requires Inv(s) && Enabled(s, a) && WorkerAction(a) && Active(s)
    ensures AllLeft(Next(s, a).workers, s.gen) <= AllLeft(s.workers, s.gen)
    ensures !Done(s.workers[a.w], s.gen) ==> AllLeft(Next(s, a).workers, s.gen) < AllLeft(s.workers, s.gen)
  {
    hide LogOk, ThrowOk, SleepOk, DoneCount, AllLeft, NonEmpty;
    var w := s.workers[a.w];
    assert WorkerOk(s, w);
    ComparesExactly(s.gen, w.seen);
    AllLeftUpdate(s.workers, s.gen, a.w, Next(s, a).workers[a.w]);
  }

  /** The step an awake worker takes next. */
  function WorkerTurn(w: nat, at: Stage): Action
    requires !at.Sleeping? && !at.Gone?
  {
    match at
    case Waiting => WorkerCheck(w)
    case HasJob => WorkerStart(w)
    case Running => WorkerEnd(w, false)
    case Threw => WorkerRecord(w)
    case Finishing => WorkerFinish(w)
  }

  /** A caller asleep until its call is done always has a worker that can take a step towards finishing it. */
  lemma CallIsNotStuck(threads: nat, callers: nat, run: seq<Action>) returns (a: Action)
    requires 0 < threads < U32_LIMIT
    requires After(threads, callers, run).call.Call? && After(threads, callers, run).call.phase.DoneSleeping?
    ensures var s := After(threads, callers, run);
            && Enabled(s, a) && WorkerAction(a)
            && AllLeft(After(threads, callers, run + [a]).workers, s.gen) < AllLeft(s.workers, s.gen)
  {
    hide After, AllLeft, Next, LogOk, ThrowOk, DoneCount;
    var s := After(threads, callers, run);
    var w := SomeWorkerIsAwake(threads, callers, run);
    a := WorkerTurn(w, s.workers[w].at);
    AfterEnabled(threads, callers, run, a);
    WorkerStepLeft(s, a);
  }

  /** A destructor waiting to join is never stuck: every worker still there is awake, and its next step is its last. */
  lemma JoinIsNotStuck(threads: nat, callers: nat, run: seq<Action>, w: nat)
    requires 0 < threads < U32_LIMIT && After(threads, callers, run).owner.Joining?
    requires w < |After(threads, callers, run).workers| && !After(threads, callers, run).workers[w].at.Gone?
    ensures var s := After(threads, callers, run);
            && Enabled(s, WorkerCheck(w))
            && After(threads, callers, run + [WorkerCheck(w)]).workers == s.workers[w := s.workers[w].(at := Gone)]
  {
    hide After, LogOk, ThrowOk, DoneCount;
    var s := After(threads, callers, run);
    assert WorkerOk(s, s.workers[w]);
    AfterEnabled(threads, callers, run, WorkerCheck(w));
  }
}
