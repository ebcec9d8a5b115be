/**
 * The streaming runtime. The consumer walks the slices and asks for a few slices ahead; the prefetch worker copies them
 * into the shared cache. Between any two atomic actions of the consumer the worker takes any number of steps, chosen by
 * a schedule; every statement here holds for every schedule.
 */
module Runtime {
  import opened Common
  import opened StreamBooks
  import L = LruCache
  import P = Prefetcher
  import T = TensorStore
  import C = PrefetchPolicy

  datatype Config = Config(cacheBytes: nat, passes: nat, depth: nat, copyCache: bool, adaptive: bool,
                           minDepth: nat, maxDepth: nat, window: nat, budget: nat, low: real, high: real)

  /** The fields are 32-bit and 64-bit unsigned integers. */
  predicate Typed(c: Config) {
    && c.cacheBytes <= U64_MAX && c.budget <= U64_MAX && c.passes < U32_LIMIT && c.depth < U32_LIMIT
    && c.minDepth < U32_LIMIT && c.maxDepth < U32_LIMIT && c.window < U32_LIMIT
  }

  /** The constructor's corrections. */
  function Sane(c: Config): Config {
    var budget := if c.copyCache && c.budget > c.cacheBytes then c.cacheBytes else c.budget;
    var low := C.ClampReal(c.low, 0.0, 1.0);
    var d := c.(budget := budget, low := low, high := C.ClampReal(c.high, low, 1.0));
    if !c.adaptive then d
    else
      var min := if c.minDepth == 0 then 1 else c.minDepth;
      var max := if c.maxDepth < min then min else c.maxDepth;
      d.(minDepth := min, maxDepth := max, window := if c.window == 0 then 1 else c.window,
         depth := C.ClampNat(c.depth, min, max))
  }

  function ConfiguredBudget(c: Config): nat {
    if c.budget > 0 then c.budget else if c.copyCache then c.cacheBytes else UNLIMITED
  }

  /** How many bytes look-ahead may reserve. */
  function InflightLimit(c: Config): nat {
    if c.adaptive then Min(ConfiguredBudget(c), if c.copyCache then Max(1, c.cacheBytes / 2) else ConfiguredBudget(c))
    else ConfiguredBudget(c)
  }

  /** The corrections give a sound configuration. */
  lemma SaneIs(c: Config)
    ensures var r := Sane(c);
            && 0.0 <= r.low <= r.high <= 1.0 && (c.copyCache ==> r.budget <= c.cacheBytes)
            && r.budget <= c.budget && (c.budget <= c.cacheBytes ==> r.budget == c.budget)
            && (c.adaptive ==> 0 < r.minDepth <= r.depth <= r.maxDepth && r.window == Max(1, c.window))
            && (c.adaptive ==> r.minDepth == Max(1, c.minDepth) && r.maxDepth == Max(r.minDepth, c.maxDepth))
            && (c.adaptive && 0 < c.minDepth <= c.depth <= c.maxDepth ==> r.depth == c.depth)
            && (c.adaptive && c.depth < r.minDepth ==> r.depth == r.minDepth)
            && (c.adaptive && c.depth > r.maxDepth ==> r.depth == r.maxDepth)
            && (!c.adaptive ==> r.depth == c.depth)
  {
  }

  /** A sound configuration is left as it is. */
  lemma SoundIsKept(c: Config)
    requires 0.0 <= c.low <= c.high <= 1.0 && (c.copyCache ==> c.budget <= c.cacheBytes)
    requires c.adaptive ==> 0 < c.minDepth <= c.depth <= c.maxDepth && c.window > 0
    ensures Sane(c) == c
  {
  }

  /**
   * A reservation of n bytes is within the limit exactly when it is within the caller's budget if there is one, within
   * the copy cache if there is one, and, when the depth adapts, within half of that cache unless it is a single byte.
   */
  lemma LimitIs(c: Config, n: nat)
    ensures n <= InflightLimit(Sane(c)) <==>
            && (c.budget > 0 ==> n <= c.budget)
            && (c.copyCache ==> n <= c.cacheBytes)
            && (c.copyCache && c.adaptive ==> n <= 1 || 2 * n <= c.cacheBytes)
            && (!c.copyCache && c.budget == 0 ==> n <= U64_MAX)
  {
  }

  // ----- The two threads

  ghost predicate WorkerAction(a: P.Action) {
    a.WorkerCheck? || a.SpuriousWake? || a.Copy? || a.WorkerFinish? || a.WorkerFail? || a.WorkerNotifyAll?
  }

  class Runtime {
    const store: T.TensorStore
    const cfg: Config
    const cache: L.TensorCache
    const pre: P.PrefetchState
    /** The worker steps that fall between two consumer actions, by index of the gap. */
    const schedule: nat -> seq<P.Action>
    /** How long each item took, in milliseconds. */
    const latency: nat -> real
    var worker: P.Worker
    var gap: nat
    var started: bool
    /** The consumer's glances so far, each of them true when it was taken. */
    ghost var seen: seq<Glance>
    /** The statistics when the current observation window was opened. */
    ghost var windowStart: Stats
    /** How many observation windows have been closed. */
    ghost var closings: nat
    ghost const src: nat -> Bytes
    ghost const size: nat -> nat

    ghost predicate Described() {
      && store.Valid()
      && (forall id: nat :: src(id) == T.SliceBytes(store.file, store.slices, id))
      && (forall id: nat :: size(id) == |src(id)|)
      && (forall k: nat :: latency(k) >= 0.0)
      && cache.capacity == cfg.cacheBytes && Typed(cfg)
      && (cfg.adaptive ==> 0 < cfg.minDepth <= cfg.depth <= cfg.maxDepth && cfg.window > 0)
    }

    /** The shared state is sound: resident copies equal their slices and the prefetch books are exact. */
    ghost predicate Good()
      reads this`worker, cache, pre
    {
      && Described()
      && L.Valid(cache.Value()) && L.Holds(cache.Value(), src)
      && P.Books(pre.Value(), size, P.Held(worker))
      && (forall id :: id in pre.pending ==> id < store.Count() && id in pre.asked)
    }

    /** What the consumer may rely on while the worker runs: pending work only shrinks. */
    twostate predicate WorkerOnly()
      reads this, cache, pre
    {
      && pre.pendingBytes <= old(pre.pendingBytes) && pre.peak == old(pre.peak)
      && (old(pre.stop) ==> pre.stop) && (old(pre.failed) ==> pre.failed)
      && started == old(started) && seen == old(seen)
      && old(pre.asked) <= pre.asked
      && cache.hits == old(cache.hits) && cache.misses == old(cache.misses)
    }

    /** The consumer has looked, but it has not loaded anything. */
    twostate predicate Onlooker()
      reads this, cache, pre
    {
      && started == old(started) && old(seen) <= seen && old(pre.asked) <= pre.asked && (old(pre.stop) ==> pre.stop)
      && cache.hits == old(cache.hits) && cache.misses == old(cache.misses)
    }

    /** The glances taken since. */
    twostate function News(): seq<Glance>
      reads this
    {
      if |old(seen)| <= |seen| then seen[|old(seen)|..] else []
    }

    /** Nothing has failed or stopped, and the worker is not on its way out. */
    ghost predicate Healthy()
      reads this`worker, pre
    {
      !pre.stop && !pre.failed && !worker.Failing? && !worker.Leaving?
    }

    ghost predicate NeverFails() {
      forall k: nat, n: nat :: n < |schedule(k)| ==> schedule(k)[n] != P.Copy(false)
    }

    constructor (store: T.TensorStore, c: Config, schedule: nat -> seq<P.Action>, latency: nat -> real)
      requires store.Valid() && Typed(c) && forall k: nat :: latency(k) >= 0.0
      ensures Good() && !started && !pre.stop && !pre.failed && pre.pendingBytes == 0 && pre.peak == 0
      ensures cache.hits == 0 && cache.misses == 0 && seen == [] && gap == 0
      ensures this.store == store && cfg == Sane(c) && this.schedule == schedule && this.latency == latency
      ensures fresh(cache) && fresh(pre)
    {
      this.store, this.cfg, this.schedule, this.latency := store, Sane(c), schedule, latency;
      var k := new L.TensorCache(c.cacheBytes);
      var p := new P.PrefetchState();
      this.cache, this.pre := k, p;
      worker, gap, started, seen := P.AtWait, 0, false, [];
      this.src := (id: nat) => T.SliceBytes(store.file, store.slices, id);
      this.size := (id: nat) => |T.SliceBytes(store.file, store.slices, id)|;
      new;
      P.NothingPending(pre.Value(), size);
    }

    /** The slice record agrees with the slice's bytes. */
    lemma SliceSize(id: nat)
      requires Described() && id < store.Count()
      ensures id < |store.slices| && store.slices[id].bytes == size(id) && 0 < size(id) <= |store.file|
      ensures T.Cut(store.file, store.slices[id]) == src(id)
    {
      T.SliceAt(store.slices, store.chunk, |store.file|, |store.file|, id);
    }

    // ----- The worker thread

    /** The step that an awake worker takes next. */
    predicate Leads(a: P.Action)
      reads this`worker
    {
      !worker.Asleep? && !worker.Exited? && (if worker.Copying? then a.Copy? else a == P.WorkerAction(worker))
    }

    /** The worker and the shared fields, as a state of the prefetcher's protocol. */
    ghost function Snap(): P.State
      reads this, pre
    {
      P.State(pre.Value(), worker, [], false)
    }

    /** The step a of the protocol has been taken. */
    twostate predicate Stepped(a: P.Action)
      reads this, pre
    {
      P.Enabled(old(Snap()), a)
      && (a.WorkerFinish? && old(worker).id in old(pre.pending) ==>
            old(pre.pending)[old(worker).id] <= old(pre.pendingBytes))
      && Snap() == P.Next(old(Snap()), a, store.Count(), size)
    }

    method TakeNext()
      requires Good() && worker.AtWait?
      modifies this`worker, pre
      ensures Stepped(P.WorkerCheck)
      ensures Good() && WorkerOnly() && pre.stop == old(pre.stop) && pre.failed == old(pre.failed)
      ensures !worker.Failing? && !worker.Leaving?
      ensures old(pre.stop) ==> worker.Exited?
    {
      hide L.Valid, L.Holds, P.BooksOf;
      if pre.stop {
        worker := P.Exited;
      } else if |pre.queue| == 0 {
        worker := P.Asleep;
      } else {
        P.PopKeepsBooks(pre.Value(), size);
        var id := pre.TakeFirst();
        worker := P.Copying(id);
      }
    }

    method FinishHeld()
      requires Good() && worker.Copied?
      modifies this`worker, pre
      ensures Good() && WorkerOnly() && pre.stop == old(pre.stop) && pre.failed == old(pre.failed)
      ensures !worker.Failing? && !worker.Leaving?
      ensures worker.AtWait? && Stepped(P.WorkerFinish)
    {
      hide L.Valid, L.Holds, P.BooksOf;
      P.FinishKeepsBooks(pre.Value(), size, worker.id);
      pre.FinishOne(worker.id);
      worker := P.AtWait;
    }

    method FailHeld()
      requires Good() && worker.Failing?
      modifies this`worker, pre
      ensures Good() && WorkerOnly()
      ensures worker.Leaving? && Stepped(P.WorkerFail)
    {
      hide L.Valid, L.Holds, P.Books, Described;
      pre.RecordFailure();
      worker := P.Leaving;
      P.NothingPending(pre.Value(), size);
    }

    /** The slice has been offered to the cache, and nothing else has happened to it. */
    twostate predicate CopiedIn(id: nat)
      reads this, cache
    {
      Described() && L.Valid(old(cache.Value()))
      && cache.Value() == L.Prefetched(old(cache.Value()), id, Some(src(id)), |src(id)|).0
    }

    /** The copy itself: an entry that enters the cache holds its slice's bytes. */
    method CopySlice(id: nat)
      requires Good() && id < store.Count()
      modifies cache
      ensures Good() && CopiedIn(id)
      ensures cache.hits == old(cache.hits) && cache.misses == old(cache.misses)
    {
      hide L.Valid, L.Holds, L.Prefetched, P.Books;
      SliceSize(id);
      L.PrefetchHolds(cache.Value(), src, id);
      L.PrefetchTally(cache.Value(), id, Some(src(id)), |src(id)|);
      var s := store.slices[id];
      var r := cache.InsertPrefetched(id, Some(T.Cut(store.file, s)), s.bytes);
    }

    method CopyHeld(ok: bool)
      requires Good() && worker.Copying?
      modifies this`worker, cache
      ensures Good() && WorkerOnly() && pre.stop == old(pre.stop) && pre.failed == old(pre.failed)
      ensures ok ==> !worker.Failing? && !worker.Leaving?
      ensures worker == if ok then P.Copied(old(worker.id)) else P.Failing(old(worker.id))
      ensures Stepped(P.Copy(ok))
      ensures if ok then CopiedIn(old(worker.id)) else cache.Value() == old(cache.Value())
    {
      hide L.Valid, L.Holds, P.BooksOf, Described;
      if ok {
        P.HeldIsPending(pre.Value(), size, worker.id);
        CopySlice(worker.id);
        worker := P.Copied(worker.id);
      } else {
        worker := P.Failing(worker.id);
      }
    }

    /** One worker step, if it is enabled: the step of the protocol, and a copy brings its slice to the cache. */
    method WorkerStep(a: P.Action)
      requires Good() && WorkerAction(a)
      modifies this`worker, cache, pre
      ensures Good() && WorkerOnly()
      ensures if P.Enabled(old(Snap()), a) then Stepped(a) else Snap() == old(Snap())
      ensures if old(worker).Copying? && a == P.Copy(true) then CopiedIn(old(worker).id)
              else cache.Value() == old(cache.Value())
      ensures a != P.Copy(false) && !old(worker.Failing?) && !old(worker.Leaving?) ==>
                pre.stop == old(pre.stop) && pre.failed == old(pre.failed) && !worker.Failing? && !worker.Leaving?
      ensures old(pre.stop && Leads(a)) ==> !worker.Asleep? && P.StepsToExit(worker) < P.StepsToExit(old(worker))
    {
      hide L.Valid, L.Holds, P.Books, Described, CopiedIn;
      match a {
        case WorkerCheck =>
          if worker.AtWait? {
            TakeNext();
          }
        case SpuriousWake =>
          if worker.Asleep? {
            worker := P.AtWait;
          }
        case Copy(ok) =>
          if worker.Copying? {
            CopyHeld(ok);
          }
        case WorkerFinish =>
          if worker.Copied? {
            FinishHeld();
          }
        case WorkerFail =>
          if worker.Failing? {
            FailHeld();
          }
        case WorkerNotifyAll =>
          if worker.Leaving? {
            worker := P.Exited;
          }
      }
    }

    /** The worker runs until the consumer's next action. */
    method Gap()
      requires Good()
      modifies this`worker, this`gap, cache, pre
      ensures Good() && WorkerOnly() && gap == old(gap) + 1
      ensures NeverFails() && old(Healthy()) ==> Healthy()
    {
      hide L.Valid, L.Holds, P.Books, Described;
      var steps := schedule(gap);
      gap := gap + 1;
      for n := 0 to |steps|
        invariant Good() && WorkerOnly() && gap == old(gap) + 1
        invariant NeverFails() && old(Healthy()) ==> Healthy()
      {
        if steps[n].WorkerCheck? || steps[n].SpuriousWake? || steps[n].Copy? || steps[n].WorkerFinish?
           || steps[n].WorkerFail? || steps[n].WorkerNotifyAll? {
          WorkerStep(steps[n]);
        }
      }
    }

    // ----- The consumer's calls

    lemma PendingOutstanding(id: nat)
      requires Good()
      ensures pre.pendingBytes == Outstanding(pre.pending, store.Count(), true)
    {
      ListedOutstanding(pre.pending, size, P.Held(worker) + pre.queue, store.Count());
    }

    lemma {:induction false} PrefixSizes(slices: seq<T.Slice>, n: nat)
      requires Described() && slices <= store.slices && n <= |slices|
      ensures SumSizes(size, n) <= |T.Joined(store.file, slices)|
      ensures n == |slices| ==> SumSizes(size, n) == |T.Joined(store.file, slices)|
      decreases |slices|, n
    {
      if |slices| > 0 {
        if n == |slices| {
          PrefixSizes(slices[..n - 1], n - 1);
        } else {
          PrefixSizes(slices[..|slices| - 1], n);
        }
      }
    }

    /** The sizes of the slices add up to the file's. */
    lemma SizesFit(n: nat)
      requires Described() && n <= |store.slices|
      ensures SumSizes(size, n) <= |store.file|
      ensures n == |store.slices| ==> SumSizes(size, n) == |store.file|
    {
      T.SlicesJoin(store.file, store.slices, store.chunk, |store.file|);
      PrefixSizes(store.slices, n);
    }

    lemma NoOverflow(id: nat)
      requires Good() && id < store.Count() && id !in pre.pending && |store.file| <= U64_MAX
      ensures size(id) <= U64_MAX - pre.pendingBytes
    {
      var n := store.Count();
      PendingOutstanding(id);
      OutstandingAdd(pre.pending, n, true, id, size(id));
      OutstandingBound(pre.pending[id := size(id)], size, n);
      SizesFit(n);
    }

    lemma DescribedNow()
      requires Good()
      ensures Described()
    {
    }

    /** The consumer asks whether a slice is in the cache. */
    method IsCached(id: nat) returns (yes: bool)
      requires Good()
      modifies this`worker, this`gap, this`seen, cache, pre
      ensures Good() && Onlooker() && pre.pendingBytes <= old(pre.pendingBytes) && pre.peak == old(pre.peak)
      ensures (yes <==> id in cache.entries) && seen == old(seen) + [InCache(id, yes)]
      ensures NeverFails() && old(Healthy()) ==> Healthy()
    {
      hide L.Valid, L.Holds, P.Books, Described, NeverFails;
      Gap();
      yes := cache.Contains(id);
      seen := seen + [InCache(id, yes)];
    }

    /** The consumer asks whether a copy is still queued or running. */
    method IsPending(id: nat) returns (yes: bool)
      requires Good()
      modifies this`worker, this`gap, this`seen, cache, pre
      ensures Good() && Onlooker() && pre.pendingBytes <= old(pre.pendingBytes) && pre.peak == old(pre.peak)
      ensures (yes <==> id in pre.pending) && seen == old(seen) + [InFlight(id, yes)]
      ensures NeverFails() && old(Healthy()) ==> Healthy()
    {
      hide L.Valid, L.Holds, P.Books, Described, NeverFails;
      Gap();
      yes := id in pre.pending;
      seen := seen + [InFlight(id, yes)];
    }

    method Enqueue(id: nat, bytes: nat) returns (added: bool)
      requires Good() && id < store.Count() && bytes == size(id) && |store.file| <= U64_MAX
      modifies pre
      ensures Good() && pre.stop == old(pre.stop) && pre.failed == old(pre.failed)
      ensures pre.pendingBytes <= old(pre.pendingBytes) + size(id)
      ensures pre.peak <= Max(old(pre.peak), old(pre.pendingBytes) + size(id))
      ensures pre.stop || id in pre.asked
      ensures old(pre.asked) <= pre.asked && (added <==> !pre.stop && id !in old(pre.pending))
    {
      hide L.Valid, L.Holds, P.BooksOf, Described;
      if id !in pre.pending {
        NoOverflow(id);
      }
      P.AddKeepsBooks(pre.Value(), size, P.Held(worker), id);
      var a := pre.Request(id, bytes);
      added := a == P.Queued;
    }

    method Notify()
      requires Good()
      modifies this`worker
      ensures Good() && (old(Healthy()) ==> Healthy())
      ensures worker == P.Woken(old(worker))
    {
      if worker.Asleep? {
        worker := P.AtWait;
      }
    }

    /** The last part of a request: under the lock the slice is queued, and then the worker is notified. */
    method QueueAndNotify(id: nat, bytes: nat)
      requires Good() && id < store.Count() && bytes == size(id) && |store.file| <= U64_MAX
      modifies this`worker, this`gap, cache, pre
      ensures Good() && Onlooker() && (pre.stop || id in pre.asked)
      ensures pre.pendingBytes <= old(pre.pendingBytes) + size(id)
      ensures pre.peak <= Max(old(pre.peak), old(pre.pendingBytes) + size(id))
      ensures NeverFails() && old(Healthy()) ==> Healthy()
    {
      hide Good, NeverFails;
      Gap();
      var added := Enqueue(id, bytes);
      Gap();
      if added {
        Notify();
      }
    }

    /**
     * Prefetcher.request: at most one more pending slice; it fails only after the worker has failed. Unless the
     * prefetcher has stopped or the slice is cached already, the slice has been queued, now or before.
     */
    method Request(id: nat) returns (r: Result<()>)
      requires Good() && id < store.Count() && |store.file| <= U64_MAX
      modifies this`worker, this`gap, this`seen, cache, pre
      ensures Good() && Onlooker()
      ensures pre.pendingBytes <= old(pre.pendingBytes) + size(id)
      ensures pre.peak <= Max(old(pre.peak), old(pre.pendingBytes) + size(id))
      ensures NeverFails() && old(Healthy()) ==> Healthy() && r.Ok?
      ensures r.Ok? ==> pre.stop || Told(seen, old(|seen|), InCache(id, true)) || id in pre.asked
    {
      hide Good, Described, NeverFails, SumSizes, Told;
      Gap();
      if pre.failed {
        return Err("prefetch failed");
      }
      Gap();
      if pre.stop || id >= store.Count() {
        return Ok(());
      }
      var cached := IsCached(id);
      if cached {
        LastTold(seen[..|seen| - 1], |old(seen)|, InCache(id, true));
        return Ok(());
      }
      DescribedNow();
      SliceSize(id);
      QueueAndNotify(id, store.slices[id].bytes);
      return Ok(());
    }

    // ----- One item

    ghost function Limit(): nat {
      InflightLimit(cfg)
    }

    /** A finite limit bounds what is pending now, what was ever pending, and every reservation recorded. */
    ghost predicate Limited(k: Look)
      reads pre
    {
      Limit() != UNLIMITED ==>
        && (cfg.copyCache ==> pre.pendingBytes <= Limit() && pre.peak <= Limit())
        && (!cfg.copyCache ==> k.inflight <= Limit())
        && k.stats.maxInflight <= Limit() && k.peak <= Limit()
    }

    lemma LimitedPending(k: Look)
      requires Limited(k)
      ensures Limit() != UNLIMITED && cfg.copyCache ==> pre.pendingBytes <= Limit() && pre.peak <= Limit()
    {
    }

    lemma LimitedLate(k: Look, k': Look)
      requires Limited(k) && k' == k.(latePending := k'.latePending)
      ensures Limited(k')
    {
    }

    /** Late requests that the worker has since finished no longer hold their reservation. */
    method EraseFinished(k: Look) returns (k': Look)
      requires Good() && Limited(k)
      modifies this`worker, this`gap, this`seen, cache, pre
      ensures Good() && Onlooker() && Limited(k') && k' == k.(latePending := k'.latePending)
      ensures NeverFails() && old(Healthy()) ==> Healthy()
      ensures forall id :: id in k.latePending ==> Told(seen, old(|seen|), InFlight(id, id in k'.latePending))
      ensures forall id :: id in k'.latePending ==> id in k.latePending && k'.latePending[id] == k.latePending[id]
    {
      hide Good, InflightLimit, Told, NeverFails, Healthy, Checked;
      var late := k.latePending;
      var unseen := late.Keys;
      CheckNone(late, seen);
      while unseen != {}
        invariant Good() && Onlooker() && Limited(k) && unseen <= k.latePending.Keys && unseen <= late.Keys
        invariant NeverFails() && old(Healthy()) ==> Healthy()
        invariant Checked(k.latePending, late, unseen, seen, old(|seen|))
        invariant forall id :: id in late ==> id in k.latePending && late[id] == k.latePending[id]
        decreases |unseen|
      {
        var id :| id in unseen;
        ghost var before := seen;
        var pending := IsPending(id);
        CheckOne(k.latePending, late, unseen, before, old(|seen|), seen, id, pending);
        unseen := unseen - {id};
        if !pending {
          late := late - {id};
        }
      }
      k' := k.(latePending := late);
      LimitedLate(k, k');
      CheckedAll(k.latePending, late, seen, old(|seen|));
    }

    /**
     * The cursor reaches slice i: a request for it is useful if it arrived, which without a copy cache it always has,
     * and late if not; a late one that is still in flight is remembered.
     */
    method Settle(i: nat, k: Look) returns (k': Look)
      requires Good() && Limited(k) && i < store.Count() && Balanced(k, i, store.Count(), size)
      modifies this`worker, this`gap, this`seen, cache, pre
      ensures Good() && Onlooker() && Limited(k') && Balanced(k', i + 1, store.Count(), size)
      ensures NeverFails() && old(Healthy()) ==> Healthy()
      ensures SameDepths(k, k')
      ensures i !in k.requested ==> k' == k
      ensures i in k.requested && !cfg.copyCache ==> k' == Settled(k, i, true, k.latePending)
      ensures i in k.requested && cfg.copyCache ==> SettledAs(News(), k, i, k')
    {
      hide L.Valid, L.Holds, P.Books, Described, Balanced;
      if i !in k.requested {
        SettleNone(k, i, store.Count(), size);
        return k;
      }
      var bytes := k.requested[i];
      var ready := true;
      if cfg.copyCache {
        ready := IsCached(i);
      }
      var late := k.latePending;
      if !ready {
        var pending := IsPending(i);
        if pending && i !in late {
          late := late[i := bytes];
        }
      }
      SettleOne(k, i, store.Count(), size, ready, late);
      k' := Settled(k, i, ready, late);
    }

    lemma LimitRange()
      requires Described()
      ensures Limit() <= U64_MAX
    {
    }

    /** Is slice id still worth asking for? */
    method Wanted(id: nat, k: Look) returns (wanted: bool)
      requires Good() && Limited(k)
      modifies this`worker, this`gap, this`seen, cache, pre
      ensures Good() && Onlooker() && Limited(k) && pre.pendingBytes <= old(pre.pendingBytes)
      ensures if wanted then Missing(id, k, cfg.copyCache, seen, old(|seen|))
              else Known(id, k, cfg.copyCache, seen, old(|seen|))
      ensures NeverFails() && old(Healthy()) ==> Healthy()
    {
      hide L.Valid, L.Holds, P.Books, Described, InflightLimit, NeverFails;
      wanted := id !in k.requested;
      if wanted && cfg.copyCache {
        var cached := IsCached(id);
        assert seen[|seen| - 1] == InCache(id, cached);
        wanted := !cached && id !in k.latePending;
      }
    }

    /** The running reservation is an upper bound on what is pending, although the worker keeps lowering that. */
    ghost predicate Reserved(reserved: nat, k: Look)
      reads pre
    {
      Limit() != UNLIMITED ==>
        reserved <= Limit() && (if cfg.copyCache then pre.pendingBytes <= reserved else k.inflight == reserved)
    }

    lemma SkippedLimited(k: Look, reserved: nat)
      requires Limited(k) && Reserved(reserved, k)
      ensures Limited(Skipped(k)) && Reserved(reserved, Skipped(k))
    {
    }

    lemma AskedLimited(k: Look, id: nat, bytes: nat, now: nat)
      requires Limit() != UNLIMITED ==>
                 && now <= Limit() && k.stats.maxInflight <= Limit() && k.peak <= Limit()
                 && (if cfg.copyCache then pre.pendingBytes <= now && pre.peak <= Limit()
                     else k.inflight + bytes == now)
      ensures Limited(Asked(k, id, bytes, now)) && Reserved(now, Asked(k, id, bytes, now))
    {
    }

    /** One look-ahead candidate. */
    method LookOne(id: nat, i: nat, reserved: nat, k: Look) returns (r: Result<(Look, nat)>, ghost d: Decision)
      requires Good() && Limited(k) && i < id < store.Count() && Balanced(k, i + 1, store.Count(), size)
               && |store.file| <= U64_MAX
      requires Reserved(reserved, k)
      modifies this`worker, this`gap, this`seen, cache, pre
      ensures Good() && Onlooker()
      ensures Limit() != UNLIMITED && cfg.copyCache ==> pre.pendingBytes <= Limit() && pre.peak <= Limit()
      ensures r.Ok? ==>
                Limited(r.value.0) && Balanced(r.value.0, i + 1, store.Count(), size) && Reserved(r.value.1, r.value.0)
      ensures NeverFails() && old(Healthy()) ==> Healthy() && r.Ok?
      ensures r.Ok? ==> Decided(d, id, size(id), k, reserved, r.value.0, r.value.1, cfg.copyCache, Limit(), seen,
                                old(|seen|))
      ensures r.Ok? && d.Taken? && cfg.copyCache ==> Sent(id, pre.stop, pre.asked, seen, old(|seen|))
    {
      hide Good, Described, Balanced, InflightLimit, NeverFails, Healthy, Told, Known, Skipped, Asked;
      d := PassedOver;
      var wanted := Wanted(id, k);
      if !wanted {
        return Ok((k, reserved)), PassedOver;
      }
      DescribedNow();
      SliceSize(id);
      LimitRange();
      var bytes := store.slices[id].bytes;
      var limit := InflightLimit(cfg);
      if limit != UNLIMITED && (bytes > limit || reserved > limit - bytes) {
        SkipOne(k, i + 1, store.Count(), size);
        SkippedLimited(k, reserved);
        return Ok((Skipped(k), reserved)), OverBudget;
      }
      ghost var looked, from := seen, |old(seen)|;
      if cfg.copyCache {
        var sent := Request(id);
        if sent.Err? {
          return Err(sent.error), d;
        }
        if Told(seen, |looked|, InCache(id, true)) {
          ToldStays(seen, |looked|, seen, from, InCache(id, true));
        }
      }
      KnownStays(id, k, cfg.copyCache, looked, from, seen, from);
      var now := if bytes > U64_MAX - reserved then U64_MAX else reserved + bytes;
      AskOne(k, i + 1, store.Count(), size, id, now);
      AskedLimited(k, id, bytes, now);
      return Ok((Asked(k, id, bytes, now), now)), Taken;
    }

    /** No reservation leaves 64 bits. */
    lemma ReservedFits(k: Look, cursor: nat)
      requires Good() && Balanced(k, cursor, store.Count(), size) && |store.file| <= U64_MAX
      ensures pre.pendingBytes <= U64_MAX && k.inflight <= U64_MAX
    {
      hide L.Valid, L.Holds, Outstanding, SumSizes;
      PendingOutstanding(0);
      OutstandingBound(pre.pending, size, store.Count());
      OutstandingBound(k.requested, size, store.Count());
      SizesFit(store.Count());
    }

    method Snapshot(k: Look) returns (reserved: nat, k': Look)
      requires Good() && Limited(k)
      modifies this`worker, this`gap, cache, pre
      ensures Good() && Limited(k') && WorkerOnly() && Reserved(reserved, k')
      ensures reserved == if cfg.copyCache then pre.pendingBytes else k.inflight
      ensures k' == k.(peak := Max(k.peak, reserved),
                       stats := k.stats.(maxInflight := Max(k.stats.maxInflight, reserved)))
      ensures NeverFails() && old(Healthy()) ==> Healthy()
    {
      hide L.Valid, L.Holds, P.Books, Described, InflightLimit, NeverFails;
      if cfg.copyCache {
        Gap();
        reserved := pre.pendingBytes;
      } else {
        reserved := k.inflight;
      }
      k' := k.(peak := Max(k.peak, reserved), stats := k.stats.(maxInflight := Max(k.stats.maxInflight, reserved)));
    }

    /** Where the look-ahead from slice i ends: depth slices on, or at the end of the file. */
    function LookEnd(i: nat, depth: nat): nat {
      Min(i + depth + 1, store.Count())
    }

    /**
     * The look-ahead loop: every one of the next `depth` slices that the file has is known already, or else it is
     * eligible, and then it is asked for or skipped for budget. The 32-bit sum i + d cannot wrap: the loop ends where
     * it reaches the slice count.
     */
    method LookAhead(i: nat, depth: nat, k: Look) returns (r: Result<Look>, ghost v: Verdicts)
      requires Good() && Limited(k) && i < store.Count() && Balanced(k, i + 1, store.Count(), size)
               && |store.file| <= U64_MAX
      modifies this`worker, this`gap, this`seen, cache, pre
      ensures Good() && Onlooker()
      ensures Limit() != UNLIMITED && cfg.copyCache ==> pre.pendingBytes <= Limit() && pre.peak <= Limit()
      ensures r.Ok? ==> Limited(r.value) && Balanced(r.value, i + 1, store.Count(), size)
      ensures NeverFails() && old(Healthy()) ==> Healthy() && r.Ok?
      ensures r.Ok? ==> Covered(v, i, LookEnd(i, depth), k, cfg.copyCache, Limit(), size, seen, old(|seen|))
      ensures r.Ok? ==> r.value == Booked(v, LookEnd(i, depth), k)
      ensures if cfg.copyCache then v.start <= old(pre.pendingBytes) else v.start == k.inflight
      ensures r.Ok? && cfg.copyCache ==> AllSent(v.taken, pre.stop, pre.asked, seen, old(|seen|))
    {
      hide Good, Balanced, InflightLimit, NeverFails, Healthy, Covered, Booked, ReservedAt, Told, Decided, Decide,
           Sent, AllSent, Limited, Reserved;
      ghost var from, limit := |seen|, Limit();
      ReservedFits(k, i + 1);
      LimitedPending(k);
      var reserved, look := Snapshot(k);
      BalancedPeak(k, look, i + 1, store.Count(), size);
      ghost var start := reserved;
      v := Verdicts({}, {}, map[], start);
      CoverNone(i, k, cfg.copyCache, limit, size, seen, reserved);
      NoneSent(pre.stop, pre.asked, seen, from);
      var d := 1;
      while d <= depth && (i + d) % U32_LIMIT < store.Count()
        invariant 1 <= d <= depth + 1 && i + d <= store.Count()
        invariant Good() && Onlooker() && Limited(look) && Balanced(look, i + 1, store.Count(), size)
                  && Reserved(reserved, look)
        invariant NeverFails() && old(Healthy()) ==> Healthy()
        invariant v.start == start
        invariant limit != UNLIMITED && cfg.copyCache ==> pre.pendingBytes <= limit && pre.peak <= limit
        invariant Covered(v, i, i + d, k, cfg.copyCache, limit, size, seen, from)
        invariant look == Booked(v, i + d, k) && reserved == ReservedAt(v, i + d)
        invariant cfg.copyCache ==> AllSent(v.taken, pre.stop, pre.asked, seen, from)
        decreases depth - d
      {
        var id := (i + d) % U32_LIMIT;
        ghost var before, stopped, asked := seen, pre.stop, pre.asked;
        var one, verdict := LookOne(id, i, reserved, look);
        if one.Err? {
          return Err(one.error), v;
        }
        CoverStep(v, i, id, k, cfg.copyCache, limit, size, before, from, seen, |before|, verdict, one.value.0,
                  one.value.1);
        if cfg.copyCache {
          SentStep(v, verdict, id, size(id), stopped, asked, before, from, pre.stop, pre.asked, seen, |before|);
        }
        v := Decide(v, verdict, id, size(id));
        look, reserved := one.value.0, one.value.1;
        d := d + 1;
      }
      return Ok(look), v;
    }

    /** Slice i's bytes go through the checksum, out of the cache or straight from the file. */
    method Consume(i: nat, h: bv64, ghost k: Look) returns (r: Result<bv64>)
      requires Good() && Limited(k) && i < store.Count()
      modifies this`worker, this`gap, cache, pre
      ensures Good() && Limited(k) && started == old(started)
      ensures r.Ok? ==> r.value == HashFrom(h, src(i), 0)
      ensures NeverFails() && old(Healthy()) ==> Healthy()
      ensures (cfg.copyCache ==> size(i) <= cfg.cacheBytes) ==> r.Ok?
      ensures cache.hits + cache.misses == old(cache.hits + cache.misses) + if cfg.copyCache then 1 else 0
    {
      hide L.Valid, L.Holds, P.Books, HashFrom, Mix;
      SliceSize(i);
      var s := store.slices[i];
      var data := T.Cut(store.file, s);
      if cfg.copyCache {
        Gap();
        L.LoadHolds(cache.Value(), src, i);
        L.LoadTally(cache.Value(), i, Some(data), s.bytes);
        var loaded := cache.GetOrLoad(i, Some(data), s.bytes);
        if loaded.Err? {
          return Err(loaded.error);
        }
        data := loaded.value;
      }
      var mixed := HashSlice(h, data);
      return Ok(mixed);
    }

    /** The depth in use is the controller's; it is the initial depth plus the increases minus the decreases. */
    ghost predicate Tracks(c: Consumer, ctl: C.AdaptivePrefetchController)
      reads ctl
    {
      && C.Sound(ctl.Value()) && ctl.Value().config.minDepth == cfg.minDepth
      && ctl.Value().config.maxDepth == cfg.maxDepth
      && c.depth == ctl.depth
      && c.depth + c.look.stats.downs == cfg.depth + c.look.stats.ups
      && cfg.minDepth <= c.look.stats.minDepth <= c.depth <= c.look.stats.maxDepth <= cfg.maxDepth
    }

    /** What the controller is told at the end of an observation window. */
    ghost function WindowOf(c: Consumer): (w: C.Window)
      requires c.windowItems > 0 && c.windowMs >= 0.0
      reads cache`evictions
      ensures C.Usable(w)
    {
      var average := c.windowMs / c.windowItems as real;
      assert average >= 0.0;
      C.Window(Some(average), c.look.consumed, c.look.useful, c.look.late, c.look.skips, cache.evictions, c.look.peak,
               Limit())
    }

    /** At the end of an observation window the controller sets the depth, and the window's counts start again. */
    method CloseWindow(c: Consumer, ctl: C.AdaptivePrefetchController) returns (c': Consumer)
      requires Tracks(c, ctl) && c.windowItems > 0 && c.windowMs >= 0.0
      modifies ctl, this`windowStart, this`closings
      ensures Tracks(c', ctl) && c'.windowItems == 0 && c'.windowMs == 0.0
      ensures c' == c.(depth := c'.depth, windowMs := 0.0, windowItems := 0, look := c'.look)
      ensures c'.look == c.look.(peak := 0, consumed := 0, useful := 0, late := 0, skips := 0, stats := c'.look.stats)
      ensures var was, now, told := c.look.stats, c'.look.stats, C.Observed(old(ctl.Value()), old(WindowOf(c)));
              && ctl.Value() == told.0
              && now == was.(ups := was.ups + (if told.1 == C.Up then 1 else 0),
                             downs := was.downs + (if told.1 == C.Down then 1 else 0),
                             minDepth := Min(was.minDepth, c'.depth), maxDepth := Max(was.maxDepth, c'.depth))
      ensures windowStart == c'.look.stats && closings == old(closings) + 1
    {
      hide C.Observed;
      var k := c.look;
      var average := c.windowMs / c.windowItems as real;
      var w := C.Window(Some(average), k.consumed, k.useful, k.late, k.skips, cache.evictions, k.peak,
          InflightLimit(cfg));
      assert w == WindowOf(c);
      C.StepSound(ctl.Value(), w);
      var decision := ctl.Observe(w);
      var depth := decision.value.0;
      var st := k.stats;
      if decision.value.1 == C.Up {
        st := st.(ups := st.ups + 1);
      } else if decision.value.1 == C.Down {
        st := st.(downs := st.downs + 1);
      }
      st := st.(minDepth := Min(st.minDepth, depth), maxDepth := Max(st.maxDepth, depth));
      windowStart, closings := st, closings + 1;
      c' := c.(depth := depth, windowMs := 0.0, windowItems := 0,
               look := k.(peak := 0, consumed := 0, useful := 0, late := 0, skips := 0, stats := st));
    }

    /** The finite limit that a run reports, or zero. */
    ghost function HotSet(): nat {
      if Limit() == UNLIMITED then 0 else Limit()
    }

    /** The depth is the controller's, or the configured one; a window is open and counts what has happened in it. */
    ghost predicate Steered(c: Consumer, ctl: C.AdaptivePrefetchController)
      reads ctl, this`windowStart, this`closings
    {
      && WindowBooks(c.look, windowStart)
      && c.windowItems <= c.items && c.windowMs == Elapsed(latency, c.items - c.windowItems, c.windowItems) >= 0.0
      && (if cfg.adaptive then
            Tracks(c, ctl) && c.windowItems < cfg.window && c.items == Rounds(closings, cfg.window) + c.windowItems
          else c.depth == c.look.stats.minDepth == c.look.stats.maxDepth == cfg.depth
               && c.look.stats.ups == 0 && c.look.stats.downs == 0)
      && c.look.stats.hotSet == HotSet()
    }

    /** Between items: the shared state, the ledger, the reservation bound and the depth are all in order. */
    ghost predicate InOrder(c: Consumer, cursor: nat, ctl: C.AdaptivePrefetchController)
      reads this, cache, pre, ctl
    {
      && Good() && Limited(c.look) && Balanced(c.look, cursor, store.Count(), size) && |store.file| <= U64_MAX
      && Steered(c, ctl)
    }

    /** The clock after an item. */
    function Clocked(c: Consumer): Consumer {
      c.(windowMs := c.windowMs + latency(c.items), windowItems := c.windowItems + 1, items := c.items + 1)
    }

    /** The window is closed exactly when it is full, and not at all with a fixed depth. */
    method EndItem(c: Consumer, ctl: C.AdaptivePrefetchController) returns (c': Consumer)
      requires Described() && Steered(c, ctl)
      modifies ctl, this`windowStart, this`closings
      ensures Steered(c', ctl)
      ensures cfg.adaptive && c.windowItems + 1 == cfg.window ==>
                && ctl.Value() == C.Observed(old(ctl.Value()), old(WindowOf(Clocked(c)))).0
                && c'.windowItems == 0 && windowStart == c'.look.stats && closings == old(closings) + 1
                && c' == Clocked(c).(depth := ctl.depth, windowMs := 0.0, windowItems := 0, look := c'.look)
                && c'.look == c.look.(peak := 0, consumed := 0, useful := 0, late := 0, skips := 0,
                                      stats := c'.look.stats)
                && c'.look.stats == c.look.stats.(ups := c'.look.stats.ups, downs := c'.look.stats.downs,
                                                  minDepth := c'.look.stats.minDepth,
                                                  maxDepth := c'.look.stats.maxDepth)
      ensures !cfg.adaptive || c.windowItems + 1 < cfg.window ==>
                && c' == Clocked(c) && ctl.Value() == old(ctl.Value())
                && windowStart == old(windowStart) && closings == old(closings)
    {
      hide C.Observed, C.Sound;
      c' := c.(windowMs := c.windowMs + latency(c.items), windowItems := c.windowItems + 1, items := c.items + 1);
      assert c' == Clocked(c) && c'.windowMs >= 0.0;
      if cfg.adaptive && c'.windowItems >= cfg.window {
        c' := CloseWindow(c', ctl);
      }
    }

    /** The greatest depth that a look-ahead can have. */
    function Reach(): nat {
      if cfg.adaptive then cfg.maxDepth else cfg.depth
    }

    /** In mmap mode, without a limit or with one for all the slices that a look-ahead can ask for at once. */
    ghost predicate Roomy() {
      && !cfg.copyCache && cfg.depth > 0
      && (Limit() == UNLIMITED
          || forall i: nat :: i < store.Count() ==> SizesBetween(size, i + 1, LookEnd(i, Reach())) <= Limit())
    }

    /** The requests at slice i of a pass that began with these totals are on time. */
    ghost predicate Paced(k: Look, i: nat, base: nat, baseBytes: nat) {
      OnTime(k, i, store.Count(), base, baseBytes, cfg.copyCache, Roomy(), Reach(), size)
    }

    /** Neither closing the window nor counting the item touches the ledger. */
    lemma EndKeeps(c: Consumer, c': Consumer, cursor: nat, base: nat, baseBytes: nat)
      requires Good() && Limited(c.look) && Balanced(c.look, cursor, store.Count(), size)
      requires Paced(c.look, cursor, base, baseBytes)
      requires c'.look == c.look
               || (c'.look == c.look.(peak := 0, consumed := 0, useful := 0, late := 0, skips := 0,
                                      stats := c'.look.stats)
                   && c'.look.stats == c.look.stats.(ups := c'.look.stats.ups, downs := c'.look.stats.downs,
                                                     minDepth := c'.look.stats.minDepth,
                                                     maxDepth := c'.look.stats.maxDepth))
      ensures Limited(c'.look) && Balanced(c'.look, cursor, store.Count(), size)
      ensures Paced(c'.look, cursor, base, baseBytes)
    {
      hide L.Valid, L.Holds, P.Books, Described, Outstanding, InflightLimit;
    }

    lemma SteeredBooks(c: Consumer, ctl: C.AdaptivePrefetchController)
      requires Steered(c, ctl)
      ensures WindowBooks(c.look, windowStart)
    {
    }

    lemma DepthInReach(c: Consumer, ctl: C.AdaptivePrefetchController)
      requires Described() && Steered(c, ctl)
      ensures c.depth <= Reach() && (cfg.depth > 0 ==> c.depth > 0)
    {
      hide C.Observed;
    }

    /** The glances of one settlement are those it was decided on. */
    lemma MetSeen(i: nat, k: Look, erased: Look, met: Look, from: nat)
      requires erased == k.(latePending := erased.latePending) && (!cfg.copyCache ==> erased == k) && from <= |seen|
      requires i !in k.requested ==> met == erased
      requires i in k.requested && !cfg.copyCache ==> met == Settled(erased, i, true, erased.latePending)
      requires i in k.requested && cfg.copyCache ==> SettledAs(seen[from..], erased, i, met)
      ensures Met(i, k, met, cfg.copyCache, seen, from)
    {
      if i in k.requested && cfg.copyCache {
        assert seen[from] == seen[from..][0];
      }
    }

    /** The worker's steps leave the steering alone. */
    lemma SteeredOn(c: Consumer, next: Consumer, ctl: C.AdaptivePrefetchController)
      requires Steered(c, ctl) && next == c.(look := next.look, checksum := next.checksum, total := next.total)
      requires WindowBooks(next.look, windowStart) && SameDepths(c.look, next.look)
      ensures Steered(next, ctl)
    {
      hide C.Sound, WindowBooks;
    }

    /** Old requests at slice i: late ones that have ended are dropped, and the slice's own request is met. */
    method MeetRequests(i: nat, look: Look) returns (met: Look)
      requires Good() && Limited(look) && i < store.Count() && Balanced(look, i, store.Count(), size)
      modifies this`worker, this`gap, this`seen, cache, pre
      ensures Good() && Onlooker() && Limited(met) && Balanced(met, i + 1, store.Count(), size)
      ensures NeverFails() && old(Healthy()) ==> Healthy()
      ensures Met(i, look, met, cfg.copyCache, seen, old(|seen|))
      ensures cfg.copyCache ==> Swept(look.latePending, met.latePending, i, seen, old(|seen|))
                                && LateNow(look, met.latePending, i, seen, old(|seen|))
    {
      hide Good, Healthy, Limited, Balanced, InflightLimit, NeverFails, Told, Swept, LateNow, SettledAs, Met, Settled;
      var erased := look;
      if cfg.copyCache {
        erased := EraseFinished(look);
        LateOnly(look, erased, i, store.Count(), size);
        SweptNow(look.latePending, erased.latePending, i, seen, old(|seen|));
      }
      ghost var from, swept := |seen|, seen;
      met := Settle(i, erased);
      MetSeen(i, look, erased, met, from);
      MetStays(i, look, met, cfg.copyCache, seen, from, seen, old(|seen|));
      if cfg.copyCache {
        LateNowIs(i, look, erased, met, seen, from, old(|seen|));
        OthersLate(i, look, erased, met, seen[from..]);
        SweptStays(look.latePending, erased.latePending, met.latePending, i, swept, old(|seen|), seen, old(|seen|));
      }
    }

    /** The cursor arrives at slice i: old requests are met and new ones made. */
    method Arrive(i: nat, depth: nat, look: Look) returns (r: Result<Look>, ghost met: Look, ghost v: Verdicts)
      requires Good() && Limited(look) && i < store.Count() && Balanced(look, i, store.Count(), size)
               && |store.file| <= U64_MAX
      modifies this`worker, this`gap, this`seen, cache, pre
      ensures Good() && Onlooker()
      ensures Limit() != UNLIMITED && cfg.copyCache ==> pre.pendingBytes <= Limit() && pre.peak <= Limit()
      ensures r.Ok? ==> Limited(r.value) && Balanced(r.value, i + 1, store.Count(), size)
      ensures NeverFails() && old(Healthy()) ==> Healthy() && r.Ok?
      ensures Met(i, look, met, cfg.copyCache, seen, old(|seen|)) && Balanced(met, i + 1, store.Count(), size)
      ensures !cfg.copyCache ==> v.start == met.inflight
      ensures cfg.copyCache ==> Swept(look.latePending, met.latePending, i, seen, old(|seen|))
                                && LateNow(look, met.latePending, i, seen, old(|seen|))
      ensures r.Ok? ==> Covered(v, i, LookEnd(i, depth), met, cfg.copyCache, Limit(), size, seen, old(|seen|))
      ensures r.Ok? ==> r.value == Booked(v, LookEnd(i, depth), met)
    {
      hide Good, Healthy, Limited, Balanced, InflightLimit, NeverFails, Covered, Booked, Told, Swept, LateNow, Met;
      var k := MeetRequests(i, look);
      met := k;
      ghost var settled := seen;
      r, v := LookAhead(i, depth, k);
      MetStays(i, look, met, cfg.copyCache, settled, old(|seen|), seen, old(|seen|));
      if cfg.copyCache {
        SweptStays(look.latePending, met.latePending, met.latePending, i, settled, old(|seen|), seen, old(|seen|));
        LateNowStays(look, met.latePending, i, settled, old(|seen|), seen, old(|seen|));
      }
      if r.Ok? {
        CoveredStays(v, i, LookEnd(i, depth), met, cfg.copyCache, Limit(), size, seen, |settled|, seen, old(|seen|));
      }
    }

    ghost predicate Feasible() {
      cfg.copyCache ==> forall id: nat :: id < store.Count() ==> size(id) <= cfg.cacheBytes
    }

    lemma RoomAt(i: nat)
      requires i < store.Count() && Roomy()
      ensures !cfg.copyCache && cfg.depth > 0
      ensures Limit() == UNLIMITED || SizesBetween(size, i + 1, Min(i + Reach() + 1, store.Count())) <= Limit()
    {
      assert LookEnd(i, Reach()) == Min(i + Reach() + 1, store.Count());
    }

    /** The cursor arrives, and the request that the slice before it made for slice i has been met. */
    method Meet(i: nat, c: Consumer, ctl: C.AdaptivePrefetchController, ghost base: nat, ghost baseBytes: nat)
      returns (r: Result<Look>)
      requires InOrder(c, i, ctl) && i < store.Count()
      requires Paced(c.look, i, base, baseBytes)
      modifies this`worker, this`gap, this`seen, cache, pre
      ensures Good() && Onlooker()
      ensures Limit() != UNLIMITED && cfg.copyCache ==> pre.pendingBytes <= Limit() && pre.peak <= Limit()
      ensures r.Ok? ==> Limited(r.value) && Balanced(r.value, i + 1, store.Count(), size)
      ensures r.Ok? ==> Paced(r.value, i + 1, base, baseBytes)
      ensures r.Ok? ==> Steered(c.(look := r.value), ctl)
      ensures NeverFails() && old(Healthy()) ==> Healthy() && r.Ok?
    {
      hide Good, Healthy, Limited, Balanced, InflightLimit, NeverFails, Tracks, OnTime, Met, Covered, Booked,
           WindowBooks, Steered, Roomy, Limit, Described, SameDepths;
      DescribedNow();
      var arrived, met, v := Arrive(i, c.depth, c.look);
      r := arrived;
      if arrived.Ok? {
        SteeredBooks(c, ctl);
        WindowStep(i, c.look, met, v, LookEnd(i, c.depth), cfg.copyCache, seen, old(|seen|), windowStart);
        DepthInReach(c, ctl);
        if Roomy() {
          RoomAt(i);
        }
        OnTimeStep(c.look, i, store.Count(), base, baseBytes, cfg.copyCache, Limit(), Roomy(), Reach(), size, met, v,
                   c.depth, seen, old(|seen|));
        SteeredOn(c, c.(look := arrived.value), ctl);
      }
    }

    /** The clock stops; everything is in order for the next item. */
    method Finish(c: Consumer, ctl: C.AdaptivePrefetchController, cursor: nat, ghost base: nat, ghost baseBytes: nat)
      returns (c': Consumer)
      requires InOrder(c, cursor, ctl)
      requires Paced(c.look, cursor, base, baseBytes)
      modifies ctl, this`windowStart, this`closings
      ensures InOrder(c', cursor, ctl) && c'.checksum == c.checksum && c'.total == c.total
              && c'.items == c.items + 1
      ensures Paced(c'.look, cursor, base, baseBytes)
    {
      hide Good, Limited, Balanced, InflightLimit, Tracks, Paced, WindowBooks, C.Observed;
      DescribedNow();
      c' := EndItem(c, ctl);
      EndKeeps(c, c', cursor, base, baseBytes);
    }

    /** One item of a pass. */
    method Item(i: nat, c: Consumer, ctl: C.AdaptivePrefetchController, ghost base: nat, ghost baseBytes: nat)
      returns (r: Result<Consumer>)
      requires InOrder(c, i, ctl) && i < store.Count()
      requires Paced(c.look, i, base, baseBytes)
      modifies this`worker, this`gap, this`seen, this`windowStart, this`closings, cache, pre, ctl
      ensures Good() && started == old(started)
      ensures Limit() != UNLIMITED && cfg.copyCache ==> pre.pendingBytes <= Limit() && pre.peak <= Limit()
      ensures r.Ok? ==> InOrder(r.value, i + 1, ctl) && r.value.checksum == HashFrom(c.checksum, src(i), 0)
                        && r.value.total == c.total + size(i) && r.value.items == c.items + 1
      ensures r.Ok? ==> Paced(r.value.look, i + 1, base, baseBytes)
      ensures r.Ok? ==> cache.hits + cache.misses == old(cache.hits + cache.misses) + if cfg.copyCache then 1 else 0
      ensures NeverFails() && old(Healthy()) ==> Healthy() && (Feasible() ==> r.Ok?)
    {
      hide Good, Balanced, InflightLimit, HashFrom, Described, NeverFails, Paced, Tracks, WindowBooks;
      var met := Meet(i, c, ctl, base, baseBytes);
      if met.Err? {
        return Err(met.error);
      }
      var mixed := Consume(i, c.checksum, met.value);
      if mixed.Err? {
        return Err(mixed.error);
      }
      DescribedNow();
      SliceSize(i);
      var next := c.(look := met.value, checksum := mixed.value, total := c.total + store.slices[i].bytes);
      Gap();
      SteeredOn(c.(look := met.value), next, ctl);
      next := Finish(next, ctl, i + 1, base, baseBytes);
      return Ok(next);
    }

    /** The end of a pass: whatever was requested and never reached counts as unused. */
    method EndPass(k: Look) returns (k': Look)
      requires Good() && Limited(k) && forall id :: id in k.requested ==> id < store.Count()
      modifies this`worker, this`gap, this`seen, cache, pre
      ensures Good() && Limited(k') && Onlooker()
      ensures k' == k.(requested := map[], inflight := 0, latePending := k'.latePending,
                       stats := k.stats.(unused := k.stats.unused + |k.requested|,
                                         bytesUnused := k.stats.bytesUnused
                                                        + Outstanding(k.requested, store.Count(), true)))
      ensures if cfg.copyCache then LeftPending(k, k'.latePending, {}, seen, old(|seen|))
              else k'.latePending == k.latePending
      ensures k.requested == map[] ==> k'.latePending == k.latePending
      ensures NeverFails() && old(Healthy()) ==> Healthy()
    {
      hide Good, InflightLimit, NeverFails, Healthy, LeftPending, Outstanding;
      k' := k;
      var ids := k.requested.Keys;
      ghost var left := k.requested;
      NoneLeftPending(k, seen);
      while ids != {}
        invariant Good() && Limited(k') && Onlooker() && ids == left.Keys <= k.requested.Keys
        invariant forall id :: id in left ==> left[id] == k.requested[id]
        invariant k' == k.(latePending := k'.latePending, stats := k'.stats)
        invariant k'.stats == k.stats.(unused := k'.stats.unused, bytesUnused := k'.stats.bytesUnused)
        invariant k'.stats.unused + |left| == k.stats.unused + |k.requested|
        invariant k'.stats.bytesUnused + Outstanding(left, store.Count(), true)
                  == k.stats.bytesUnused + Outstanding(k.requested, store.Count(), true)
        invariant if cfg.copyCache then LeftPending(k, k'.latePending, ids, seen, old(|seen|))
                  else k'.latePending == k.latePending
        invariant k.requested == map[] ==> k'.latePending == k.latePending
        invariant NeverFails() && old(Healthy()) ==> Healthy()
        decreases |ids|
      {
        var id :| id in ids;
        var bytes := k.requested[id];
        OutstandingRemove(left, store.Count(), true, id);
        left := left - {id};
        k' := k'.(stats := k'.stats.(unused := k'.stats.unused + 1, bytesUnused := k'.stats.bytesUnused + bytes));
        if cfg.copyCache {
          ghost var before, late := seen, k'.latePending;
          var pending := IsPending(id);
          if pending && id !in k'.latePending {
            k' := k'.(latePending := k'.latePending[id := bytes]);
          }
          OneLeftPending(k, late, ids, before, old(|seen|), id, pending, seen);
        }
        ids := ids - {id};
      }
      OutstandingNone(store.Count(), true);
      k' := k'.(requested := map[], inflight := 0);
    }

    lemma FoldOne(h: bv64, i: nat)
      ensures FoldSlices(h, src, i + 1) == HashFrom(FoldSlices(h, src, i), src(i), 0)
      ensures SumSizes(size, i + 1) == SumSizes(size, i) + size(i)
    {
    }

    lemma FoldNone(h: bv64)
      ensures FoldSlices(h, src, 0) == h && SumSizes(size, 0) == 0
    {
    }

    /** At the end of a pass nothing is left, so its clean-up changes nothing. */
    method EndCleanly(k: Look) returns (k': Look)
      requires Good() && Limited(k) && Balanced(k, store.Count(), store.Count(), size)
      modifies this`worker, this`gap, this`seen, cache, pre
      ensures Good() && Limited(k) && Onlooker() && k' == k && k.requested == map[]
      ensures Balanced(k, 0, store.Count(), size)
      ensures NeverFails() && old(Healthy()) ==> Healthy()
    {
      hide Good, Healthy, InflightLimit, NeverFails, Balanced, Outstanding;
      AllMet(k, store.Count(), size);
      OutstandingNone(store.Count(), true);
      k' := EndPass(k);
    }

    /** One pass over the slices. */
    method Pass(c: Consumer, ctl: C.AdaptivePrefetchController, ghost base: nat, ghost baseBytes: nat)
      returns (r: Result<Consumer>)
      requires InOrder(c, 0, ctl) && c.look.requested == map[]
      requires Paced(c.look, 0, base, baseBytes)
      modifies this`worker, this`gap, this`seen, this`windowStart, this`closings, cache, pre, ctl
      ensures Good() && started == old(started)
      ensures Limit() != UNLIMITED && cfg.copyCache ==> pre.pendingBytes <= Limit() && pre.peak <= Limit()
      ensures r.Ok? ==> InOrder(r.value, 0, ctl) && r.value.look.requested == map[]
                        && r.value.checksum == FoldSlices(c.checksum, src, store.Count())
                        && r.value.total == c.total + SumSizes(size, store.Count())
                        && r.value.items == c.items + store.Count()
      ensures r.Ok? ==> Paced(r.value.look, 0, base + Reached(store.Count()),
                              baseBytes + ReachedBytes(size, store.Count()))
      ensures r.Ok? ==> cache.hits + cache.misses
                        == old(cache.hits + cache.misses) + if cfg.copyCache then store.Count() else 0
      ensures NeverFails() && old(Healthy()) ==> Healthy() && (Feasible() ==> r.Ok?)
    {
      hide Good, Healthy, InflightLimit, HashFrom, Balanced, Steered, OnTime, Roomy, NeverFails,
           Feasible, ReachedBytes, Limited, SumSizes, FoldSlices;
      var now := c.(look := c.look.(requested := map[], inflight := 0));
      StartOfPass(c.look, store.Count(), size);
      assert now == c;
      FoldNone(c.checksum);
      for i := 0 to store.Count()
        invariant InOrder(now, i, ctl) && started == old(started)
        invariant Paced(now.look, i, base, baseBytes)
        invariant cache.hits + cache.misses == old(cache.hits + cache.misses) + if cfg.copyCache then i else 0
        invariant now.checksum == FoldSlices(c.checksum, src, i) && now.total == c.total + SumSizes(size, i)
                  && now.items == c.items + i
        invariant NeverFails() && old(Healthy()) ==> Healthy()
      {
        FoldOne(c.checksum, i);
        var item := Item(i, now, ctl, base, baseBytes);
        if item.Err? {
          return Err(item.error);
        }
        now := item.value;
      }
      var k := EndCleanly(now.look);
      OnTimeAgain(k, store.Count(), base, baseBytes, cfg.copyCache, Roomy(), Reach(), size);
      LimitedPending(k);
      return Ok(now.(look := k));
    }

    /** The worker's last steps, up to its exit. */
    method Leave()
      requires Good() && pre.stop && !worker.Asleep?
      modifies this`worker, cache, pre
      ensures Good() && WorkerOnly() && worker.Exited?
      ensures NeverFails() && !old(pre.failed) && !old(worker.Failing?) && !old(worker.Leaving?) ==> !pre.failed
    {
      hide L.Valid, L.Holds, P.Books, Described;
      var ok := P.Copy(false) !in schedule(gap);
      assert NeverFails() ==> ok;
      while !worker.Exited?
        invariant Good() && WorkerOnly() && !worker.Asleep? && pre.stop
        invariant NeverFails() && !old(pre.failed) && !old(worker.Failing?) && !old(worker.Leaving?) ==>
                    !pre.failed && !worker.Failing? && !worker.Leaving?
        decreases P.StepsToExit(worker)
      {
        var a := if worker.Copying? then P.Copy(ok) else P.WorkerAction(worker);
        WorkerStep(a);
      }
    }

    /** Prefetcher.stop: the worker leaves, and what was still queued is cancelled. */
    method Stop()
      requires Good()
      modifies this`worker, this`gap, cache, pre
      ensures Good() && started == old(started) && pre.peak == old(pre.peak)
      ensures worker.Exited? && pre.stop && pre.queue == [] && pre.pending == map[] && pre.pendingBytes == 0
      ensures cache.hits == old(cache.hits) && cache.misses == old(cache.misses)
      ensures old(pre.failed) ==> pre.failed
      ensures NeverFails() && old(Healthy()) ==> !pre.failed
    {
      hide L.Valid, L.Holds, P.BooksOf, Described;
      Gap();
      P.StopKeepsBooks(pre.Value(), size, P.Held(worker));
      pre.RequestStop();
      Notify();
      Leave();
      pre.Clear();
      P.NothingPending(pre.Value(), size);
    }

    /** Before the first run nothing has been asked for. */
    ghost predicate Unused()
      reads this, cache, pre
    {
      !started && pre.pendingBytes == 0 && pre.peak == 0 && cache.hits == 0 && cache.misses == 0
    }

    /** What a completed run reports. */
    ghost predicate Completed(v: RunStats) {
      && v.checksum == FoldPasses(SEED, src, store.Count(), cfg.passes)
      && v.total == SumPasses(size, store.Count(), cfg.passes)
      && (|store.slices| < U32_LIMIT ==> v.total == cfg.passes * |store.file|)
      && LedgerBalances(v.stats) && v.stats.requests <= cfg.passes * Reached(store.Count())
      && (Roomy() ==> v.stats.requests == v.stats.useful == cfg.passes * Reached(store.Count())
                      && v.stats.skipped == 0
                      && v.stats.bytesUseful == cfg.passes * ReachedBytes(size, store.Count()))
      && (!cfg.copyCache ==> v.stats.late == 0 && v.stats.requests == v.stats.useful)
      && v.hits + v.misses == (if cfg.copyCache then cfg.passes * store.Count() else 0)
      && (Limit() != UNLIMITED ==> v.stats.maxInflight <= Limit() && (cfg.copyCache ==> v.stats.maxPending <= Limit()))
      && v.stats.hotSet == HotSet()
      && (!cfg.adaptive ==> v.stats.minDepth == v.stats.finalDepth == v.stats.maxDepth == cfg.depth
                            && v.stats.ups == 0 && v.stats.downs == 0)
      && (cfg.adaptive ==> v.stats.finalDepth + v.stats.downs == cfg.depth + v.stats.ups)
      && (cfg.adaptive ==> cfg.minDepth <= v.stats.minDepth <= v.stats.finalDepth <= v.stats.maxDepth <= cfg.maxDepth)
    }

    lemma FirstInOrder(c: Consumer, ctl: C.AdaptivePrefetchController)
      requires Good() && |store.file| <= U64_MAX && pre.pendingBytes == 0 && pre.peak == 0
      requires ctl.Value() == C.Start(C.Config(cfg.minDepth, cfg.maxDepth, cfg.low, cfg.high), cfg.depth)
      requires windowStart == NoStats(cfg.depth, HotSet()) && closings == 0
      requires c == Consumer(Look(map[], map[], 0, 0, 0, 0, 0, 0, windowStart), cfg.depth, 0.0, 0, 0, SEED, 0)
      ensures InOrder(c, 0, ctl) && Paced(c.look, 0, 0, 0)
    {
      hide L.Valid, L.Holds, P.Books, InflightLimit;
      OutstandingNone(store.Count(), true);
      OutstandingNone(store.Count(), false);
      if cfg.adaptive {
        C.StartSound(C.Config(cfg.minDepth, cfg.maxDepth, cfg.low, cfg.high), cfg.depth);
      }
    }

    lemma TotalIs()
      requires Described()
      ensures |store.slices| < U32_LIMIT ==> SumPasses(size, store.Count(), cfg.passes) == cfg.passes * |store.file|
    {
      if |store.slices| < U32_LIMIT {
        SizesFit(store.Count());
        SumPassesIs(size, store.Count(), cfg.passes);
      }
    }

    lemma AllOnTime(k: Look, base: nat, baseBytes: nat)
      requires Balanced(k, 0, store.Count(), size) && k.requested == map[]
      requires Paced(k, 0, base, baseBytes)
      ensures LedgerBalances(k.stats) && k.stats.requests <= base
      ensures !cfg.copyCache ==> k.stats.late == 0 && k.stats.requests == k.stats.useful
      ensures Roomy() ==> k.stats.requests == k.stats.useful == base && k.stats.bytesUseful == baseBytes
                          && k.stats.skipped == 0
    {
      LedgerAtEnd(k, store.Count(), size);
    }

    method Passes(ctl: C.AdaptivePrefetchController) returns (r: Result<Consumer>)
      requires Good() && |store.file| <= U64_MAX && pre.pendingBytes == 0 && pre.peak == 0
      requires ctl.Value() == C.Start(C.Config(cfg.minDepth, cfg.maxDepth, cfg.low, cfg.high), cfg.depth)
      modifies this`worker, this`gap, this`seen, this`windowStart, this`closings, cache, pre, ctl
      ensures Good() && started == old(started)
      ensures Limit() != UNLIMITED && cfg.copyCache ==> pre.pendingBytes <= Limit() && pre.peak <= Limit()
      ensures r.Ok? ==> InOrder(r.value, 0, ctl) && r.value.look.requested == map[]
      ensures r.Ok? ==> r.value.checksum == FoldPasses(SEED, src, store.Count(), cfg.passes)
      ensures r.Ok? ==> r.value.total == SumPasses(size, store.Count(), cfg.passes)
      ensures r.Ok? ==> r.value.items == Rounds(cfg.passes, store.Count())
      ensures r.Ok? ==> Paced(r.value.look, 0, Rounds(cfg.passes, Reached(store.Count())),
                              Rounds(cfg.passes, ReachedBytes(size, store.Count())))
      ensures r.Ok? ==> cache.hits + cache.misses
                        == old(cache.hits + cache.misses)
                           + if cfg.copyCache then Rounds(cfg.passes, store.Count()) else 0
      ensures NeverFails() && old(Healthy()) ==> Healthy() && (Feasible() ==> r.Ok?)
    {
      hide Good, Healthy, InflightLimit, FoldSlices, Paced, Balanced, Steered, Limited, NeverFails, Feasible, SumSizes,
           HashFrom, ReachedBytes, Reached;
      var n := store.Count();
      var st := NoStats(cfg.depth, if InflightLimit(cfg) == UNLIMITED then 0 else InflightLimit(cfg));
      windowStart, closings := st, 0;
      var now := Consumer(Look(map[], map[], 0, 0, 0, 0, 0, 0, st), cfg.depth, 0.0, 0, 0, SEED, 0);
      FirstInOrder(now, ctl);
      for p := 0 to cfg.passes
        invariant InOrder(now, 0, ctl) && now.look.requested == map[] && started == old(started)
        invariant now.checksum == FoldPasses(SEED, src, n, p) && now.total == SumPasses(size, n, p)
                  && now.items == Rounds(p, n)
        invariant Paced(now.look, 0, Rounds(p, Reached(n)), Rounds(p, ReachedBytes(size, n)))
        invariant cache.hits + cache.misses
                  == old(cache.hits + cache.misses) + if cfg.copyCache then Rounds(p, n) else 0
        invariant NeverFails() && old(Healthy()) ==> Healthy()
      {
        var pass := Pass(now, ctl, Rounds(p, Reached(n)), Rounds(p, ReachedBytes(size, n)));
        if pass.Err? {
          return Err(pass.error);
        }
        now := pass.value;
      }
      LimitedPending(now.look);
      return Ok(now);
    }

    lemma LimitedStats(k: Look)
      requires Limited(k)
      ensures Limit() != UNLIMITED ==> k.stats.maxInflight <= Limit()
    {
    }

    lemma SteeredDepths(c: Consumer, ctl: C.AdaptivePrefetchController)
      requires Steered(c, ctl)
      ensures c.look.stats.hotSet == HotSet()
      ensures !cfg.adaptive ==> c.look.stats.minDepth == c.depth == c.look.stats.maxDepth == cfg.depth
                                && c.look.stats.ups == 0 && c.look.stats.downs == 0
      ensures cfg.adaptive ==> c.depth + c.look.stats.downs == cfg.depth + c.look.stats.ups
                               && cfg.minDepth <= c.look.stats.minDepth <= c.depth <= c.look.stats.maxDepth
                               && c.look.stats.maxDepth <= cfg.maxDepth
      ensures cfg.adaptive ==> closings * cfg.window <= c.items < (closings + 1) * cfg.window
    {
      hide C.Observed, Rounds;
      RoundsIsProduct(closings, cfg.window);
    }

    /** The reported statistics are what a completed run promises. */
    lemma CompletedBy(c: Consumer, ctl: C.AdaptivePrefetchController, v: RunStats)
      requires Described() && Steered(c, ctl) && Balanced(c.look, 0, store.Count(), size) && c.look.requested == map[]
      requires Paced(c.look, 0, Rounds(cfg.passes, Reached(store.Count())),
                     Rounds(cfg.passes, ReachedBytes(size, store.Count())))
      requires c.checksum == FoldPasses(SEED, src, store.Count(), cfg.passes)
      requires c.total == SumPasses(size, store.Count(), cfg.passes)
      requires Limit() != UNLIMITED ==> c.look.stats.maxInflight <= Limit()
                                        && (cfg.copyCache ==> v.stats.maxPending <= Limit())
      requires v.checksum == c.checksum && v.total == c.total
      requires v.hits + v.misses == if cfg.copyCache then Rounds(cfg.passes, store.Count()) else 0
      requires v.stats == c.look.stats.(maxPending := v.stats.maxPending, maxPrefetched := v.stats.maxPrefetched,
                                        finalDepth := c.depth)
      ensures Completed(v)
    {
      hide Described, Steered, Balanced, Paced, FoldPasses, SumPasses, Limit, Roomy, Rounds, Reached, ReachedBytes,
           HotSet;
      ghost var n, bytes := store.Count(), ReachedBytes(size, store.Count());
      AllOnTime(c.look, Rounds(cfg.passes, Reached(n)), Rounds(cfg.passes, bytes));
      RoundsIsProduct(cfg.passes, Reached(n));
      RoundsIsProduct(cfg.passes, bytes);
      RoundsIsProduct(cfg.passes, n);
      SteeredDepths(c, ctl);
      TotalIs();
    }

    /**
     * run_stream: whatever the interleaving, a run that completes has checksummed every slice in order, once per pass,
     * with a balanced ledger and within its reservation limit; it completes unless the worker fails or a slice exceeds
     * the cache.
     */
    method RunStream() returns (r: Result<RunStats>)
      requires Good() && |store.file| <= U64_MAX && (started || Unused())
      modifies this, cache, pre
      ensures Good() && started
      ensures old(started) ==> r.Err?
      ensures r.Ok? ==> Completed(r.value) && pre.pending == map[] && pre.queue == [] && worker.Exited?
      ensures r.Ok? && cfg.adaptive ==>
                closings * cfg.window <= cfg.passes * store.Count() < (closings + 1) * cfg.window
      ensures r.Ok? ==> r.value.hits == cache.hits && r.value.misses == cache.misses
                        && r.value.evictions == cache.evictions && r.value.bytesCopied == cache.bytesCopied
                        && r.value.stats.maxPending == pre.peak && r.value.stats.maxPrefetched == cache.peakPrefetched
      ensures !old(started) && Limit() != UNLIMITED && cfg.copyCache ==>
                pre.pendingBytes <= Limit() && pre.peak <= Limit()
      ensures !old(started) && NeverFails() && old(Healthy()) && Feasible() ==> r.Ok?
    {
      hide Good, Described, Healthy, Steered, Limited, InflightLimit, Limit, FoldPasses, SumPasses, Balanced, Paced,
           NoStats, C.ClampNat, NeverFails, Feasible, Rounds, Reached, ReachedBytes, Completed, HotSet, Roomy;
      if started {
        return Err("Runtime::run_stream is single-shot; construct a new Runtime for another run");
      }
      started := true;
      var ctl := new C.AdaptivePrefetchController(C.Config(cfg.minDepth, cfg.maxDepth, cfg.low, cfg.high), cfg.depth);
      var done := Passes(ctl);
      if done.Err? {
        return Err(done.error);
      }
      var c := done.value;
      DescribedNow();
      LimitedStats(c.look);
      LimitedPending(c.look);
      SteeredDepths(c, ctl);
      RoundsIsProduct(cfg.passes, store.Count());
      Stop();
      if pre.failed {
        return Err("prefetch failed");
      }
      var st := c.look.stats.(maxPending := pre.peak, maxPrefetched := cache.peakPrefetched, finalDepth := c.depth);
      var v := RunStats(c.checksum, c.total, cache.hits, cache.misses, cache.evictions, cache.bytesCopied, st);
      CompletedBy(c, ctl, v);
      return Ok(v);
    }
  }
}
