/**
 * The worker pool seen from its callers: every call that was made with work to do is served exactly once, in full, or
 * is still waiting or running.
 */
module PoolHistory {
  import opened Common
  import opened WorkerPool

  /** A call that has returned: who made it, its count, and its number. */
  datatype Served = Served(c: nat, n: nat, id: nat)

  /** The counts with which caller c has called parallel_for, in order. */
  ghost function Entered(threads: nat, callers: nat, run: seq<Action>, c: nat): seq<nat>
    requires 0 < threads < U32_LIMIT
  {
    if |run| == 0 then []
    else
      var before, a := run[..|run| - 1], run[|run| - 1];
      Entered(threads, callers, before, c)
      + if a.Enter? && a.c == c && Enabled(After(threads, callers, before), a) && a.n > 0 then [a.n] else []
  }

  /** The call that a step ends. */
  function ReturnOf(s: Pool, a: Action): seq<Served> {
    if a.Return? && s.call.Call? then [Served(s.call.c, s.call.n, s.calls)] else []
  }

  /** The calls that have returned, in order. */
  ghost function History(threads: nat, callers: nat, run: seq<Action>): seq<Served>
    requires 0 < threads < U32_LIMIT
  {
    if |run| == 0 then []
    else
      var before, a := run[..|run| - 1], run[|run| - 1];
      var s := After(threads, callers, before);
      History(threads, callers, before) + if Enabled(s, a) then ReturnOf(s, a) else []
  }

  /** The counts of the calls of c among them. */
  function CountsOf(h: seq<Served>, c: nat): seq<nat> {
    if |h| == 0 then []
    else CountsOf(h[..|h| - 1], c) + if h[|h| - 1].c == c then [h[|h| - 1].n] else []
  }

  lemma CountsAfter(h: seq<Served>, s: Pool, a: Action, c: nat)
    ensures CountsOf(h + ReturnOf(s, a), c) == CountsOf(h, c) + CountsOf(ReturnOf(s, a), c)
    ensures CountsOf(ReturnOf(s, a), c) == if a.Return? && s.call.Call? && s.call.c == c then [s.call.n] else []
  {
    var r := ReturnOf(s, a);
    if |r| == 0 {
      assert h + r == h;
    } else {
      assert (h + r)[..|h|] == h && r[..0] == [];
    }
  }

  /** The call that c has made and that has not returned, if there is one. */
  function Unserved(s: Pool, c: nat): seq<nat> {
    if c >= |s.callers| || s.callers[c].Idle? then []
    else if s.callers[c].Wants? then [s.callers[c].n]
    else if s.call.Call? then [s.call.n] else []
  }

  /** A caller moves only by its own call, its own turn, and its own return. */
  lemma CallerMoves(s: Pool, a: Action, c: nat)
    requires Inv(s) && Enabled(s, a) && c < |s.callers|
    ensures |Next(s, a).callers| == |s.callers|
    ensures var was, now := s.callers[c], Next(s, a).callers[c];
            && (was.Idle? ==> now == if a.Enter? && a.c == c && a.n > 0 then Wants(a.n) else Idle)
            && (was.Wants? ==> now == if a == Lock(c) then Inside else was)
            && (was.Inside? ==> now == if a.Return? && s.call.c == c then Idle else Inside)
  {
    hide WorkersOk, SleepOk, LogOk, ThrowOk, StepOf, NonEmpty, ChunkOf, AllAwake;
  }

  /** The call inside keeps its caller and its count until it returns. */
  lemma CallMoves(s: Pool, a: Action)
    requires Inv(s) && Enabled(s, a)
    ensures a.Lock? ==> Next(s, a).call == Call(a.c, s.callers[a.c].n, Holds)
    ensures s.call.Call? && !a.Return? && !a.Lock? ==>
              Next(s, a).call.Call? && Next(s, a).call.c == s.call.c && Next(s, a).call.n == s.call.n
  {
    hide CallersOk, WorkersOk, SleepOk, LogOk, ThrowOk, StepOf, NonEmpty, ChunkOf, AllAwake;
  }

  lemma CallersAreOk(s: Pool, a: Action)
    requires Inv(s) && Enabled(s, a)
    ensures s.threads > 0 && |s.workers| == s.threads - 1
    ensures CallersOk(s) && CallersOk(Next(s, a)) && |Next(s, a).callers| == |s.callers|
    ensures a.Return? ==> s.call.Call? && s.call.c < |s.callers|
    ensures a.Enter? ==> a.c < |s.callers| && s.callers[a.c].Idle?
    ensures a.Lock? ==> a.c < |s.callers| && s.callers[a.c].Wants?
  {
    hide CallersOk, WorkersOk, SleepOk, LogOk, ThrowOk;
    StepInv(s, a);
  }

  lemma UnservedStep(s: Pool, a: Action, c: nat)
    requires Inv(s) && Enabled(s, a)
    ensures Unserved(s, c) + (if a.Enter? && a.c == c && a.n > 0 then [a.n] else [])
         == CountsOf(ReturnOf(s, a), c) + Unserved(Next(s, a), c)
  {
    hide Inv, Next, Enabled;
    CallersAreOk(s, a);
    CallMoves(s, a);
    CountsAfter([], s, a, c);
    if c < |s.callers| {
      CallerMoves(s, a, c);
    }
  }

  lemma Reassociate(entered: seq<nat>, served: seq<nat>, open: seq<nat>, asked: seq<nat>, ended: seq<nat>,
          left: seq<nat>)
    requires entered == served + open && open + asked == ended + left
    ensures entered + asked == (served + ended) + left
  {
    assert (served + open) + asked == served + (open + asked);
  }

  lemma NobodyCalled(threads: nat, callers: nat, c: nat)
    requires 0 < threads < U32_LIMIT
    ensures Unserved(After(threads, callers, []), c) == [] == CountsOf([], c)
  {
  }

  /** What c has asked for is what it has been served, in the same order, and then at most one call still open. */
  lemma {:induction false} EveryCallIsServed(threads: nat, callers: nat, run: seq<Action>, c: nat)
    requires 0 < threads < U32_LIMIT
    ensures Entered(threads, callers, run, c)
         == CountsOf(History(threads, callers, run), c) + Unserved(After(threads, callers, run), c)
  {
    hide Inv, Next, Enabled, Unserved, CountsOf, ReturnOf;
    if |run| == 0 {
      NobodyCalled(threads, callers, c);
    } else {
      var before, a := run[..|run| - 1], run[|run| - 1];
      var s := After(threads, callers, before);
      EveryCallIsServed(threads, callers, before, c);
      if Enabled(s, a) {
        CallersAreOk(s, a);
        UnservedStep(s, a, c);
        CountsAfter(History(threads, callers, before), s, a, c);
        Reassociate(Entered(threads, callers, before, c), CountsOf(History(threads, callers, before), c),
                    Unserved(s, c),
                    if a.Enter? && a.c == c && a.n > 0 then [a.n] else [], CountsOf(ReturnOf(s, a), c),
                    Unserved(Next(s, a), c));
      } else {
        assert History(threads, callers, before) + [] == History(threads, callers, before);
      }
    }
  }

  // ----- What a served call has done

  /** Every nonempty chunk of the call is in the log once, and nothing else of it is. */
  ghost predicate Complete(s: Pool, v: Served)
    requires s.threads > 0
  {
    && (forall tid :: 0 <= tid < s.threads ==>
          s.log[ChunkOf(v.id, v.n, s.threads, tid)] == if NonEmpty(v.n, s.threads, tid) then 1 else 0)
    && (forall i :: i in s.log && i.call == v.id ==> i.tid < s.threads && i == ChunkOf(v.id, v.n, s.threads, i.tid))
  }

  /** A step logs at most one run, and that for the call inside. */
  lemma LogsForCurrentCall(s: Pool, a: Action)
    requires Inv(s) && Enabled(s, a)
    ensures Next(s, a).threads == s.threads
    ensures Next(s, a).calls == if a.Lock? then s.calls + 1 else s.calls
    ensures Next(s, a).log == s.log
            || (s.call.Call? && exists i: Invocation :: i.call == s.calls && Next(s, a).log == s.log + multiset{i})
  {
    hide SleepOk, LogOk, ThrowOk, DoneCount, Lo, Hi, StepOf, NonEmpty;
    if a.WorkerStart? {
      var me := s.workers[a.w];
      assert WorkerOk(s, me);
      assert ChunkOf(me.fn, me.n, s.threads, a.w + 1).call == s.calls;
    } else if a.OwnStart? {
      assert Invocation(s.calls, 0, 0, Min(s.call.n, StepOf(s.call.n, s.threads))).call == s.calls;
    } else if a.Solo? {
      assert Invocation(s.calls, 0, 0, s.call.n).call == s.calls;
    }
  }

  lemma CompleteStays(s: Pool, a: Action, v: Served)
    requires Inv(s) && Enabled(s, a) && Complete(s, v) && (v.id < s.calls || !s.call.Call?)
    ensures Complete(Next(s, a), v)
  {
    hide Inv, Next, Enabled, Lo, Hi, NonEmpty;
    LogsForCurrentCall(s, a);
  }

  /** Numbers of returned calls are below that of the call inside, and increase. */
  ghost predicate Numbered(s: Pool, h: seq<Served>) {
    && (forall k :: 0 <= k < |h| ==> h[k].id < s.calls || (h[k].id == s.calls && !s.call.Call?))
    && (forall j, k :: 0 <= j < k < |h| ==> h[j].id < h[k].id)
  }

  lemma NumberedStep(s: Pool, a: Action, h: seq<Served>)
    requires Inv(s) && Enabled(s, a) && Numbered(s, h)
    ensures Numbered(Next(s, a), h + ReturnOf(s, a))
  {
    hide WorkersOk, SleepOk, LogOk, ThrowOk;
  }

  lemma ReturnIsComplete(s: Pool, a: Action)
    requires Inv(s) && Enabled(s, a) && a.Return?
    ensures Complete(Next(s, a), Served(s.call.c, s.call.n, s.calls))
  {
    hide SleepOk, ThrowOk, CallersOk, WorkersOk, Lo, Hi, NonEmpty, Begun;
    EveryoneBegan(s);
  }

  ghost predicate AllComplete(s: Pool, h: seq<Served>)
    requires s.threads > 0
  {
    forall k :: 0 <= k < |h| ==> Complete(s, h[k])
  }

  lemma AllCompleteStep(s: Pool, a: Action, h: seq<Served>)
    requires Inv(s) && Enabled(s, a) && AllComplete(s, h) && Numbered(s, h)
    ensures Next(s, a).threads == s.threads > 0
    ensures AllComplete(Next(s, a), h + ReturnOf(s, a))
  {
    hide Complete, SleepOk, LogOk, ThrowOk, WorkersOk, CallersOk, Next, Enabled;
    LogsForCurrentCall(s, a);
    forall k | 0 <= k < |h|
      ensures Complete(Next(s, a), h[k])
    {
      CompleteStays(s, a, h[k]);
    }
    if a.Return? {
      ReturnIsComplete(s, a);
    }
  }

  lemma NothingServed(threads: nat, callers: nat)
    requires 0 < threads < U32_LIMIT
    ensures Numbered(After(threads, callers, []), []) && AllComplete(After(threads, callers, []), [])
  {
  }

  /** Whatever has happened since, the log still shows every returned call complete. */
  lemma {:induction false} ServedCallsAreComplete(threads: nat, callers: nat, run: seq<Action>)
    requires 0 < threads < U32_LIMIT
    ensures Numbered(After(threads, callers, run), History(threads, callers, run))
    ensures AllComplete(After(threads, callers, run), History(threads, callers, run))
  {
    hide Inv, Next, Enabled, AllComplete, Numbered;
    if |run| == 0 {
      NothingServed(threads, callers);
    } else {
      var before, a := run[..|run| - 1], run[|run| - 1];
      var s := After(threads, callers, before);
      ServedCallsAreComplete(threads, callers, before);
      var h := History(threads, callers, before);
      if Enabled(s, a) {
        NumberedStep(s, a, h);
        AllCompleteStep(s, a, h);
      } else {
        assert h + [] == h;
      }
    }
  }

  /** A caller that is idle has been served, completely, every call it ever made with work to do. */
  lemma IdleMeansServed(threads: nat, callers: nat, run: seq<Action>, c: nat)
    requires 0 < threads < U32_LIMIT
    requires c < |After(threads, callers, run).callers| && After(threads, callers, run).callers[c].Idle?
    ensures Entered(threads, callers, run, c) == CountsOf(History(threads, callers, run), c)
    ensures AllComplete(After(threads, callers, run), History(threads, callers, run))
  {
    EveryCallIsServed(threads, callers, run, c);
    ServedCallsAreComplete(threads, callers, run);
  }
}
