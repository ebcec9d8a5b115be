/**
 * The background prefetcher: clients queue ids under a mutex, one worker copies them into the cache. Every critical
 * section is one atomic step; clients, worker and condition variable interleave freely.
 */
module Prefetcher {
  import opened Common

  /** What the mutex protects. */
  datatype Shared = Shared(stop: bool, failed: bool, queue: seq<nat>, pending: map<nat, nat>, pendingBytes: nat,
          peak: nat)

  function Fresh(): Shared {
    Shared(false, false, [], map[], 0, 0)
  }

  // ----- Bookkeeping: pending is the queue plus what the worker holds

  function Total(size: nat -> nat, s: seq<nat>): nat {
    if |s| == 0 then 0 else size(s[0]) + Total(size, s[1..])
  }

  ghost predicate BooksOf(sh: Shared, size: nat -> nat, ids: seq<nat>) {
    && Distinct(ids)
    && (forall id :: id in sh.pending <==> id in ids)
    && (forall id :: id in sh.pending ==> sh.pending[id] == size(id))
    && sh.pendingBytes == Total(size, ids) <= sh.peak
  }

  /** `held` is what the worker has taken off the queue and not yet finished: nothing, or one id. */
  ghost predicate Books(sh: Shared, size: nat -> nat, held: seq<nat>) {
    |held| <= 1 && BooksOf(sh, size, held + sh.queue)
  }

  lemma {:induction false} TotalConcat(size: nat -> nat, a: seq<nat>, b: seq<nat>)
    ensures Total(size, a + b) == Total(size, a) + Total(size, b)
  {
    if |a| == 0 {
      assert a + b == b;
    } else {
      TotalConcat(size, a[1..], b);
      assert (a + b)[1..] == a[1..] + b;
    }
  }

  // ----- The critical sections

  datatype AddResult = Skipped | Overflow | Queued

  /** request, under the lock. */
  function Add(sh: Shared, id: nat, bytes: nat): (Shared, AddResult) {
    if sh.stop || id in sh.pending then (sh, Skipped)
    else if bytes > U64_MAX - sh.pendingBytes then (sh, Overflow)
    else (sh.(pending := sh.pending[id := bytes], pendingBytes := sh.pendingBytes + bytes,
              peak := Max(sh.peak, sh.pendingBytes + bytes), queue := sh.queue + [id]), Queued)
  }

  function Pop(sh: Shared): Shared
    requires |sh.queue| > 0
  {
    sh.(queue := sh.queue[1..])
  }

  function Finish(sh: Shared, id: nat): Shared
    requires id in sh.pending ==> sh.pending[id] <= sh.pendingBytes
  {
    if id in sh.pending then sh.(pending := sh.pending - {id}, pendingBytes := sh.pendingBytes - sh.pending[id]) else sh
  }

  function Cleared(sh: Shared): Shared {
    sh.(queue := [], pending := map[], pendingBytes := 0)
  }

  function Fail(sh: Shared): Shared {
    Cleared(sh).(failed := true, stop := true)
  }

  lemma SnocDistinct(ids: seq<nat>, id: nat)
    requires Distinct(ids) && id !in ids
    ensures Distinct(ids + [id])
  {
  }

  lemma TotalSnoc(size: nat -> nat, ids: seq<nat>, id: nat)
    ensures Total(size, ids + [id]) == Total(size, ids) + size(id)
  {
    TotalConcat(size, ids, [id]);
    assert Total(size, [id]) == size(id);
  }

  lemma AddKeepsBooks(sh: Shared, size: nat -> nat, held: seq<nat>, id: nat)
    requires Books(sh, size, held)
    ensures Books(Add(sh, id, size(id)).0, size, held)
  {
    hide Distinct, Total;
    if Add(sh, id, size(id)).1 == Queued {
      assert held + (sh.queue + [id]) == (held + sh.queue) + [id];
      SnocDistinct(held + sh.queue, id);
      TotalSnoc(size, held + sh.queue, id);
    }
  }

  lemma HeldIsPending(sh: Shared, size: nat -> nat, id: nat)
    requires Books(sh, size, [id])
    ensures id in sh.pending
  {
    assert ([id] + sh.queue)[0] == id;
  }

  lemma PopKeepsBooks(sh: Shared, size: nat -> nat)
    requires Books(sh, size, []) && |sh.queue| > 0
    ensures Books(Pop(sh), size, [sh.queue[0]])
  {
    assert [sh.queue[0]] + sh.queue[1..] == [] + sh.queue;
  }

  lemma FinishBooks(sh: Shared, size: nat -> nat, id: nat, rest: seq<nat>)
    requires BooksOf(sh, size, [id] + rest)
    ensures id in sh.pending && sh.pending[id] <= sh.pendingBytes
    ensures BooksOf(Finish(sh, id), size, rest)
  {
    hide Distinct;
    var all := [id] + rest;
    TailDistinct(all);
    assert all[0] == id && all[1..] == rest && id in all;
  }

  lemma FinishKeepsBooks(sh: Shared, size: nat -> nat, id: nat)
    requires Books(sh, size, [id])
    ensures id in sh.pending && sh.pending[id] <= sh.pendingBytes
    ensures Books(Finish(sh, id), size, [])
  {
    hide BooksOf;
    FinishBooks(sh, size, id, sh.queue);
    assert [] + sh.queue == sh.queue;
  }

  /** The prefetcher's fields; each method is one critical section. */
  class PrefetchState {
    var stop: bool
    var failed: bool
    var queue: seq<nat>
    var pending: map<nat, nat>
    var pendingBytes: nat
    var peak: nat
    /** Every id that was ever queued. */
    ghost var asked: set<nat>

    ghost function Value(): Shared
      reads this
    {
      Shared(stop, failed, queue, pending, pendingBytes, peak)
    }

    constructor ()
      ensures Value() == Fresh() && asked == {}
    {
      stop, failed, queue, pending, pendingBytes, peak, asked := false, false, [], map[], 0, 0, {};
    }

    method Request(id: nat, bytes: nat) returns (r: AddResult)
      modifies this
      ensures (Value(), r) == Add(old(Value()), id, bytes)
      ensures asked == old(asked) + if r == Queued then {id} else {}
    {
      if stop || id in pending {
        return Skipped;
      }
      if bytes > U64_MAX - pendingBytes {
        return Overflow;
      }
      pending := pending[id := bytes];
      pendingBytes := pendingBytes + bytes;
      peak := Max(peak, pendingBytes);
      queue := queue + [id];
      asked := asked + {id};
      return Queued;
    }

    method TakeFirst() returns (id: nat)
      requires |queue| > 0
      modifies this
      ensures asked == old(asked)
      ensures Value() == Pop(old(Value())) && id == old(queue[0])
    {
      id := queue[0];
      queue := queue[1..];
    }

    method FinishOne(id: nat)
      requires id in pending ==> pending[id] <= pendingBytes
      modifies this
      ensures asked == old(asked)
      ensures Value() == Finish(old(Value()), id)
    {
      if id in pending {
        pendingBytes := pendingBytes - pending[id];
        pending := pending - {id};
      }
    }

    method RecordFailure()
      modifies this
      ensures asked == old(asked)
      ensures Value() == Fail(old(Value()))
    {
      failed := true;
      queue := [];
      pending := map[];
      pendingBytes := 0;
      stop := true;
    }

    method RequestStop()
      modifies this
      ensures asked == old(asked)
      ensures Value() == old(Value()).(stop := true)
    {
      stop := true;
    }

    method Clear()
      modifies this
      ensures asked == old(asked)
      ensures Value() == Cleared(old(Value()))
    {
      queue := [];
      pending := map[];
      pendingBytes := 0;
    }
  }

  // ----- Threads

  /** The worker between critical sections. Asleep is inside the condition variable's wait. */
  datatype Worker = AtWait | Asleep | Copying(id: nat) | Copied(id: nat) | Failing(id: nat) | Leaving | Exited

  /** A client between critical sections of request or stop. */
  datatype Client = Idle | Checking(id: nat) | Adding(id: nat) | MustNotify | MustNotifyAll | Joining | Clearing

  datatype State = State(sh: Shared, worker: Worker, clients: seq<Client>, stopReturned: bool)

  datatype Action =
    | StartRequest(c: nat, id: nat) | CheckRequest(c: nat, cached: bool) | AddRequest(c: nat) | NotifyOne(c: nat)
    | StartStop(c: nat) | NotifyAll(c: nat) | Join(c: nat) | FinishStop(c: nat)
    | WorkerCheck | SpuriousWake | Copy(ok: bool) | WorkerFinish | WorkerFail | WorkerNotifyAll

  function Held(w: Worker): seq<nat> {
    if w.Copying? || w.Copied? || w.Failing? then [w.id] else []
  }

  function Woken(w: Worker): Worker {
    if w.Asleep? then AtWait else w
  }

  predicate Enabled(s: State, a: Action) {
    match a
    case StartRequest(c, _) => c < |s.clients| && s.clients[c].Idle?
    case CheckRequest(c, _) => c < |s.clients| && s.clients[c].Checking?
    case AddRequest(c) => c < |s.clients| && s.clients[c].Adding?
    case NotifyOne(c) => c < |s.clients| && s.clients[c].MustNotify?
    case StartStop(c) => c < |s.clients| && s.clients[c].Idle?
    case NotifyAll(c) => c < |s.clients| && s.clients[c].MustNotifyAll?
    case Join(c) => c < |s.clients| && s.clients[c].Joining? && s.worker.Exited?
    case FinishStop(c) => c < |s.clients| && s.clients[c].Clearing?
    case WorkerCheck => s.worker.AtWait?
    case SpuriousWake => s.worker.Asleep?
    case Copy(_) => s.worker.Copying?
    case WorkerFinish => s.worker.Copied?
    case WorkerFail => s.worker.Failing?
    case WorkerNotifyAll => s.worker.Leaving?
  }

  function To(s: State, c: nat, next: Client): State
    requires c < |s.clients|
  {
    s.(clients := s.clients[c := next])
  }

  /** One step. `count` and `size` describe the slices. */
  function Next(s: State, a: Action, count: nat, size: nat -> nat): State
    requires Enabled(s, a)
    requires a.WorkerFinish? && s.worker.id in s.sh.pending ==> s.sh.pending[s.worker.id] <= s.sh.pendingBytes
  {
    match a
    case StartRequest(c, id) => if s.sh.failed then s else To(s, c, Checking(id))
    case CheckRequest(c, cached) =>
      var id := s.clients[c].id;
      To(s, c, if s.sh.stop || id >= count || cached then Idle else Adding(id))
    case AddRequest(c) =>
      var id := s.clients[c].id;
      var r := Add(s.sh, id, size(id));
      To(s, c, if r.1 == Queued then MustNotify else Idle).(sh := r.0)
    case NotifyOne(c) => To(s, c, Idle).(worker := Woken(s.worker))
    case StartStop(c) => To(s, c, MustNotifyAll).(sh := s.sh.(stop := true))
    case NotifyAll(c) => To(s, c, Joining).(worker := Woken(s.worker))
    case Join(c) => To(s, c, Clearing)
    case FinishStop(c) => To(s, c, Idle).(sh := Cleared(s.sh), stopReturned := true)
    case WorkerCheck =>
      if s.sh.stop then s.(worker := Exited)
      else if |s.sh.queue| == 0 then s.(worker := Asleep)
      else s.(worker := Copying(s.sh.queue[0]), sh := Pop(s.sh))
    case SpuriousWake => s.(worker := AtWait)
    case Copy(ok) => s.(worker := if ok then Copied(s.worker.id) else Failing(s.worker.id))
    case WorkerFinish => s.(worker := AtWait, sh := Finish(s.sh, s.worker.id))
    case WorkerFail => s.(worker := Leaving, sh := Fail(s.sh))
    case WorkerNotifyAll => s.(worker := Exited)
  }

  // ----- What every reachable state satisfies

  predicate Notifier(c: Client) {
    c.MustNotify? || c.MustNotifyAll?
  }

  ghost predicate AnyNotifier(clients: seq<Client>) {
    exists c :: 0 <= c < |clients| && Notifier(clients[c])
  }

  ghost predicate SomeoneNotifies(s: State) {
    AnyNotifier(s.clients)
  }

  ghost predicate Stopping(s: State) {
    forall c :: 0 <= c < |s.clients| ==>
      && (s.clients[c].MustNotifyAll? || s.clients[c].Joining? || s.clients[c].Clearing? ==> s.sh.stop)
      && (s.clients[c].Clearing? ==> s.worker.Exited?)
  }

  ghost predicate Inv(s: State, size: nat -> nat) {
    && Books(s.sh, size, Held(s.worker))
    && (s.worker.Asleep? && (s.sh.stop || |s.sh.queue| > 0) ==> SomeoneNotifies(s))
    && Stopping(s)
    && (s.sh.failed || s.worker.Leaving? || s.worker.Exited? || s.stopReturned ==> s.sh.stop)
    && (s.sh.failed ==> s.worker.Leaving? || s.worker.Exited?)
    && (s.sh.failed || s.stopReturned ==> s.sh.queue == [])
    && (s.stopReturned ==> s.worker.Exited?)
  }

  function AllIdle(n: nat): (r: seq<Client>)
    ensures |r| == n && forall c :: 0 <= c < n ==> r[c].Idle?
  {
    seq(n, _ => Idle)
  }

  function Init(clients: nat): State {
    State(Fresh(), AtWait, AllIdle(clients), false)
  }

  lemma InitInv(clients: nat, size: nat -> nat)
    ensures Inv(Init(clients), size)
  {
  }

  /** A client that moves on without having been the one to notify leaves the notifiers as they were. */
  lemma OthersNotify(clients: seq<Client>, c: nat, next: Client)
    requires c < |clients| && (!Notifier(clients[c]) || Notifier(next))
    ensures AnyNotifier(clients) ==> AnyNotifier(clients[c := next])
    ensures Notifier(next) ==> AnyNotifier(clients[c := next])
  {
    var after := clients[c := next];
    if Notifier(next) {
      assert after[c] == next;
    } else if AnyNotifier(clients) {
      var d :| 0 <= d < |clients| && Notifier(clients[d]);
      assert after[d] == clients[d];
    }
  }

  lemma StopKeepsBooks(sh: Shared, size: nat -> nat, held: seq<nat>)
    requires Books(sh, size, held)
    ensures Books(sh.(stop := true), size, held)
  {
  }

  lemma NothingPending(sh: Shared, size: nat -> nat)
    requires sh.queue == [] && sh.pending == map[] && sh.pendingBytes == 0
    ensures Books(sh, size, [])
  {
  }

  lemma ClientStepInv(s: State, a: Action, count: nat, size: nat -> nat)
    requires Inv(s, size) && Enabled(s, a)
    requires a.StartRequest? || a.CheckRequest? || a.AddRequest? || a.NotifyOne? || a.StartStop? || a.NotifyAll?
             || a.Join? || a.FinishStop?
    ensures Inv(Next(s, a, count, size), size)
  {
    hide BooksOf, AnyNotifier;
    var t := Next(s, a, count, size);
    if !(a.StartRequest? && s.sh.failed) && !a.NotifyOne? && !a.NotifyAll? {
      OthersNotify(s.clients, a.c, t.clients[a.c]);
    }
    if a.AddRequest? {
      AddKeepsBooks(s.sh, size, Held(s.worker), s.clients[a.c].id);
    } else if a.StartStop? {
      StopKeepsBooks(s.sh, size, Held(s.worker));
    } else if a.FinishStop? {
      NothingPending(Cleared(s.sh), size);
    }
  }

  lemma CanFinish(s: State, size: nat -> nat)
    requires Inv(s, size) && s.worker.Copied?
    ensures s.worker.id in s.sh.pending && s.sh.pending[s.worker.id] <= s.sh.pendingBytes
  {
    FinishKeepsBooks(s.sh, size, s.worker.id);
  }

  lemma WorkerStepInv(s: State, a: Action, count: nat, size: nat -> nat)
    requires Inv(s, size) && Enabled(s, a)
    requires a.WorkerCheck? || a.SpuriousWake? || a.Copy? || a.WorkerFinish? || a.WorkerFail? || a.WorkerNotifyAll?
    ensures a.WorkerFinish? ==> s.worker.id in s.sh.pending && s.sh.pending[s.worker.id] <= s.sh.pendingBytes
    ensures Inv(Next(s, a, count, size), size)
  {
    hide BooksOf, AnyNotifier;
    if a.WorkerFinish? {
      CanFinish(s, size);
      FinishKeepsBooks(s.sh, size, s.worker.id);
    } else if a.WorkerCheck? && !s.sh.stop && |s.sh.queue| > 0 {
      PopKeepsBooks(s.sh, size);
    } else if a.WorkerFail? {
      NothingPending(Fail(s.sh), size);
    }
  }

  lemma StepInv(s: State, a: Action, count: nat, size: nat -> nat)
    requires Inv(s, size) && Enabled(s, a)
    ensures a.WorkerFinish? && s.worker.id in s.sh.pending ==> s.sh.pending[s.worker.id] <= s.sh.pendingBytes
    ensures Inv(Next(s, a, count, size), size)
  {
    if a.WorkerCheck? || a.SpuriousWake? || a.Copy? || a.WorkerFinish? || a.WorkerFail? || a.WorkerNotifyAll? {
      WorkerStepInv(s, a, count, size);
    } else {
      ClientStepInv(s, a, count, size);
    }
  }

  /** The state after any sequence of attempted steps; a step that is not enabled does nothing. */
  ghost function After(clients: nat, count: nat, size: nat -> nat, run: seq<Action>): (s: State)
    ensures Inv(s, size)
  {
    if |run| == 0 then InitInv(clients, size); Init(clients)
    else
      var s, a := After(clients, count, size, run[..|run| - 1]), run[|run| - 1];
      if Enabled(s, a) then StepInv(s, a, count, size); Next(s, a, count, size) else s
  }

  // ----- The promises

  /** In every reachable state the pending ids are the queued ones and at most one in the worker's hands, each once. */
  lemma PendingIsQueueAndHeld(clients: nat, count: nat, size: nat -> nat, run: seq<Action>)
    ensures var s := After(clients, count, size, run);
            var ids := Held(s.worker) + s.sh.queue;
            && |Held(s.worker)| <= 1
            && Distinct(ids)
            && (forall id :: id in s.sh.pending <==> id in ids)
            && s.sh.pendingBytes == Total(size, ids) <= s.sh.peak
  {
    assert Books(After(clients, count, size, run).sh, size, Held(After(clients, count, size, run).worker));
  }

  /** No wake-up is lost: a worker asleep on a true condition is about to be notified. */
  lemma NoLostWakeup(clients: nat, count: nat, size: nat -> nat, run: seq<Action>)
    ensures var s := After(clients, count, size, run);
            s.worker.Asleep? && (s.sh.stop || |s.sh.queue| > 0) ==> SomeoneNotifies(s)
  {
  }

  lemma NothingListed(sh: Shared, size: nat -> nat)
    requires Books(sh, size, []) && sh.queue == []
    ensures sh.pending == map[] && sh.pendingBytes == 0
  {
    assert [] + sh.queue == [];
  }

  /** When nobody is in a call and the worker sleeps, all requested work is done. */
  lemma QuietMeansDone(clients: nat, count: nat, size: nat -> nat, run: seq<Action>)
    requires var s := After(clients, count, size, run);
             s.worker.Asleep? && forall c :: 0 <= c < |s.clients| ==> s.clients[c].Idle?
    ensures var sh := After(clients, count, size, run).sh;
            sh.queue == [] && sh.pending == map[] && sh.pendingBytes == 0 && !sh.stop
  {
    var s := After(clients, count, size, run);
    assert !SomeoneNotifies(s);
    NothingListed(s.sh, size);
  }

  /** After stop has returned nothing is queued or pending, and nothing ever will be. */
  lemma StoppedIsEmpty(clients: nat, count: nat, size: nat -> nat, run: seq<Action>)
    requires After(clients, count, size, run).stopReturned
    ensures var s := After(clients, count, size, run);
            s.worker.Exited? && s.sh.stop && s.sh.queue == [] && s.sh.pending == map[] && s.sh.pendingBytes == 0
  {
    NothingListed(After(clients, count, size, run).sh, size);
  }

  /** How far the worker is from its exit once stop is set. */
  function StepsToExit(w: Worker): nat {
    match w
    case Exited => 0
    case Leaving => 1
    case AtWait => 1
    case Asleep => 2
    case Copied(_) => 2
    case Failing(_) => 2
    case Copying(_) => 3
  }

  function WorkerAction(w: Worker): Action
    requires !w.Exited? && !w.Asleep?
  {
    match w
    case AtWait => WorkerCheck
    case Copying(_) => Copy(true)
    case Copied(_) => WorkerFinish
    case Failing(_) => WorkerFail
    case Leaving => WorkerNotifyAll
  }

  lemma JoiningMeansStop(s: State, size: nat -> nat, c: nat)
    requires Inv(s, size) && c < |s.clients| && s.clients[c].Joining? && !SomeoneNotifies(s)
    ensures s.sh.stop && !s.worker.Asleep?
  {
  }

  lemma AfterEnabled(clients: nat, count: nat, size: nat -> nat, run: seq<Action>, a: Action)
    requires Enabled(After(clients, count, size, run), a)
    ensures a.WorkerFinish?
            && After(clients, count, size, run).worker.id in After(clients, count, size, run).sh.pending ==>
              After(clients, count, size, run).sh.pending[After(clients, count, size, run).worker.id]
              <= After(clients, count, size, run).sh.pendingBytes
    ensures After(clients, count, size, run + [a]) == Next(After(clients, count, size, run), a, count, size)
  {
    hide Inv, Enabled;
    StepInv(After(clients, count, size, run), a, count, size);
    assert (run + [a])[..|run|] == run;
  }

  /** With stop set, the awake worker's next step brings it closer to its exit. */
  lemma CloserToExit(s: State, count: nat, size: nat -> nat)
    requires Inv(s, size) && s.sh.stop && !s.worker.Asleep? && !s.worker.Exited?
    ensures Enabled(s, WorkerAction(s.worker))
    ensures s.worker.Copied? && s.worker.id in s.sh.pending ==> s.sh.pending[s.worker.id] <= s.sh.pendingBytes
    ensures StepsToExit(Next(s, WorkerAction(s.worker), count, size).worker) < StepsToExit(s.worker)
  {
    hide Books, SomeoneNotifies, Stopping;
    StepInv(s, WorkerAction(s.worker), count, size);
  }

  /**
   * A stop that waits to join is never stuck: the worker, unless a notification is on its way, can step closer to
   * its exit.
   */
  lemma JoinIsNotStuck(clients: nat, count: nat, size: nat -> nat, run: seq<Action>, c: nat)
    requires var s := After(clients, count, size, run);
             c < |s.clients| && s.clients[c].Joining? && !s.worker.Exited? && !SomeoneNotifies(s)
    ensures var s := After(clients, count, size, run);
            && !s.worker.Asleep?
            && Enabled(s, WorkerAction(s.worker))
            && StepsToExit(After(clients, count, size, run + [WorkerAction(s.worker)]).worker) < StepsToExit(s.worker)
  {
    hide Inv, SomeoneNotifies, Next, Enabled, After;
    var s := After(clients, count, size, run);
    JoiningMeansStop(s, size, c);
    CloserToExit(s, count, size);
    AfterEnabled(clients, count, size, run, WorkerAction(s.worker));
  }
}
