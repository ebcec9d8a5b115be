/**
 * The prefetcher seen from its clients: every request gets its answer, what was queued is copied in order, and every
 * stop that was begun returns or is still waiting.
 */
module PrefetchHistory {
  import opened Common
  import opened Prefetcher

  /** What becomes of a request for a slice. */
  datatype Answer = Failed(id: nat) | Stopped(id: nat) | OutOfRange(id: nat) | Cached(id: nat) | AlreadyPending(id: nat)
    | TooLarge(id: nat) | Accepted(id: nat)

  /** The answer that step a gives to client c, if it gives one. */
  function AnswerOf(s: State, a: Action, c: nat, count: nat, size: nat -> nat): seq<Answer>
    requires Enabled(s, a)
  {
    match a
    case StartRequest(d, id) => if d == c && s.sh.failed then [Failed(id)] else []
    case CheckRequest(d, cached) =>
      var id := s.clients[d].id;
      if d != c then []
      else if s.sh.stop then [Stopped(id)]
      else if id >= count then [OutOfRange(id)]
      else if cached then [Cached(id)]
      else []
    case AddRequest(d) =>
      var id := s.clients[d].id;
      if d != c then []
      else if s.sh.stop then [Stopped(id)]
      else if id in s.sh.pending then [AlreadyPending(id)]
      else if s.sh.pendingBytes + size(id) > U64_MAX then [TooLarge(id)]
      else [Accepted(id)]
    case _ => []
  }

  function IdsOf(answers: seq<Answer>): seq<nat> {
    if |answers| == 0 then [] else IdsOf(answers[..|answers| - 1]) + [answers[|answers| - 1].id]
  }

  /** The ids that client c has asked for, in order. */
  ghost function Requested(clients: nat, count: nat, size: nat -> nat, run: seq<Action>, c: nat): seq<nat> {
    if |run| == 0 then []
    else
      var before, a := run[..|run| - 1], run[|run| - 1];
      Requested(clients, count, size, before, c)
      + if a.StartRequest? && a.c == c && Enabled(After(clients, count, size, before), a) then [a.id] else []
  }

  /** The answers that client c has got, in order. */
  ghost function Answers(clients: nat, count: nat, size: nat -> nat, run: seq<Action>, c: nat): seq<Answer> {
    if |run| == 0 then []
    else
      var before, a := run[..|run| - 1], run[|run| - 1];
      var s := After(clients, count, size, before);
      Answers(clients, count, size, before, c) + if Enabled(s, a) then AnswerOf(s, a, c, count, size) else []
  }

  /** The request that client c waits for. */
  function Open(s: State, c: nat): seq<nat> {
    if c < |s.clients| && (s.clients[c].Checking? || s.clients[c].Adding?) then [s.clients[c].id] else []
  }

  lemma SnocIds(answers: seq<Answer>, more: seq<Answer>)
    requires |more| <= 1
    ensures IdsOf(answers + more) == IdsOf(answers) + if more == [] then [] else [more[0].id]
  {
    if more == [] {
      assert answers + more == answers;
    } else {
      assert (answers + more)[..|answers|] == answers;
    }
  }

  /** A step makes a request of c, answers it, or leaves it as it is. */
  lemma OpenStep(s: State, a: Action, c: nat, count: nat, size: nat -> nat)
    requires Enabled(s, a)
    requires a.WorkerFinish? && s.worker.id in s.sh.pending ==> s.sh.pending[s.worker.id] <= s.sh.pendingBytes
    ensures |AnswerOf(s, a, c, count, size)| <= 1
    ensures Open(s, c) + (if a.StartRequest? && a.c == c then [a.id] else [])
         == (if AnswerOf(s, a, c, count, size) == [] then [] else [AnswerOf(s, a, c, count, size)[0].id])
            + Open(Next(s, a, count, size), c)
  {
  }

  lemma Rejoin<T>(asked: seq<T>, got: seq<T>, open: seq<T>, asks: seq<T>, ans: seq<T>, left: seq<T>)
    requires asked == got + open && open + asks == ans + left
    ensures asked + asks == (got + ans) + left
  {
    assert asked + asks == got + (open + asks);
  }

  lemma NothingAsked(clients: nat, c: nat)
    ensures IdsOf([]) + Open(Init(clients), c) == []
  {
  }

  /** The requests of a client, in order, are those that were answered and then at most one that is still open. */
  lemma {:induction false} EveryRequestIsAnswered(clients: nat, count: nat, size: nat -> nat, run: seq<Action>, c: nat)
    ensures Requested(clients, count, size, run, c)
         == IdsOf(Answers(clients, count, size, run, c)) + Open(After(clients, count, size, run), c)
  {
    hide Inv, Next, Enabled, Open, AnswerOf, IdsOf;
    if |run| == 0 {
      NothingAsked(clients, c);
    } else {
      var before, a := run[..|run| - 1], run[|run| - 1];
      var s := After(clients, count, size, before);
      EveryRequestIsAnswered(clients, count, size, before, c);
      var got := Answers(clients, count, size, before, c);
      if Enabled(s, a) {
        StepInv(s, a, count, size);
        OpenStep(s, a, c, count, size);
        var ans := AnswerOf(s, a, c, count, size);
        SnocIds(got, ans);
        Rejoin(Requested(clients, count, size, before, c), IdsOf(got), Open(s, c),
               if a.StartRequest? && a.c == c then [a.id] else [], if ans == [] then [] else [ans[0].id],
               Open(Next(s, a, count, size), c));
      } else {
        SnocIds(got, []);
      }
    }
  }

  // ----- The queue

  function AcceptedIn(answers: seq<Answer>): seq<nat> {
    if |answers| == 1 && answers[0].Accepted? then [answers[0].id] else []
  }

  /** The ids that were accepted, from any client, in order. */
  ghost function AllAccepted(clients: nat, count: nat, size: nat -> nat, run: seq<Action>): seq<nat> {
    if |run| == 0 then []
    else
      var before, a := run[..|run| - 1], run[|run| - 1];
      var s := After(clients, count, size, before);
      AllAccepted(clients, count, size, before)
      + if a.AddRequest? && Enabled(s, a) then AcceptedIn(AnswerOf(s, a, a.c, count, size)) else []
  }

  /** The ids whose copy the worker has ended, well or badly, in order. */
  ghost function Ended(clients: nat, count: nat, size: nat -> nat, run: seq<Action>): seq<nat> {
    if |run| == 0 then []
    else
      var before, a := run[..|run| - 1], run[|run| - 1];
      var s := After(clients, count, size, before);
      Ended(clients, count, size, before)
      + if Enabled(s, a) && (a.WorkerFinish? || a.WorkerFail?) then [s.worker.id] else []
  }

  /** The worker's and the queue's share of what was accepted: all of it, unless the rest was cancelled. */
  ghost predicate Flows(s: State, ended: seq<nat>, accepted: seq<nat>) {
    && ended + Held(s.worker) + s.sh.queue <= accepted
    && (s.sh.failed || s.stopReturned || ended + Held(s.worker) + s.sh.queue == accepted)
  }

  lemma AddFlows(s: State, a: Action, count: nat, size: nat -> nat, ended: seq<nat>, accepted: seq<nat>)
    requires Inv(s, size) && Enabled(s, a) && a.AddRequest? && Flows(s, ended, accepted)
    ensures Flows(Next(s, a, count, size), ended, accepted + AcceptedIn(AnswerOf(s, a, a.c, count, size)))
  {
    hide Books, SomeoneNotifies, Stopping;
    var add := AcceptedIn(AnswerOf(s, a, a.c, count, size));
    assert ended + Held(s.worker) + (s.sh.queue + add) == (ended + Held(s.worker) + s.sh.queue) + add;
  }

  /** What is cancelled was the last part. */
  lemma CancelFlows(s: State, a: Action, count: nat, size: nat -> nat, ended: seq<nat>, accepted: seq<nat>)
    requires Inv(s, size) && Enabled(s, a) && (a.WorkerFail? || a.FinishStop?) && Flows(s, ended, accepted)
    ensures Flows(Next(s, a, count, size), ended + (if a.WorkerFail? then [s.worker.id] else []), accepted)
  {
    hide Books, SomeoneNotifies, Stopping;
    var t, end := Next(s, a, count, size), if a.WorkerFail? then [s.worker.id] else [];
    assert ended + Held(s.worker) <= ended + Held(s.worker) + s.sh.queue;
    assert (ended + end) + Held(t.worker) + t.sh.queue == ended + Held(s.worker);
  }

  lemma TakeFlows(s: State, count: nat, size: nat -> nat, ended: seq<nat>, accepted: seq<nat>)
    requires Inv(s, size) && s.worker.AtWait? && Flows(s, ended, accepted)
    ensures Flows(Next(s, WorkerCheck, count, size), ended, accepted)
  {
    hide Books, SomeoneNotifies, Stopping;
    var t := Next(s, WorkerCheck, count, size);
    if !s.sh.stop && |s.sh.queue| > 0 {
      assert s.sh.queue == [s.sh.queue[0]] + s.sh.queue[1..];
    }
    assert ended + Held(t.worker) + t.sh.queue == ended + Held(s.worker) + s.sh.queue;
  }

  lemma OtherFlows(s: State, a: Action, count: nat, size: nat -> nat, ended: seq<nat>, accepted: seq<nat>)
    requires Enabled(s, a) && Flows(s, ended, accepted)
    requires !a.AddRequest? && !a.WorkerFail? && !a.FinishStop? && !a.WorkerCheck?
    requires a.WorkerFinish? && s.worker.id in s.sh.pending ==> s.sh.pending[s.worker.id] <= s.sh.pendingBytes
    ensures Flows(Next(s, a, count, size), ended + (if a.WorkerFinish? then [s.worker.id] else []), accepted)
  {
    var t, end := Next(s, a, count, size), if a.WorkerFinish? then [s.worker.id] else [];
    assert (ended + end) + Held(t.worker) == ended + Held(s.worker);
  }

  lemma NothingFlows(clients: nat)
    ensures Flows(Init(clients), [], [])
  {
  }

  lemma OnlyWhenWaiting(s: State)
    requires Enabled(s, WorkerCheck)
    ensures s.worker.AtWait?
  {
  }

  /**
   * What was accepted is copied once, in the order in which it was accepted: what the worker has ended, what it holds
   * and what is queued are all of it, or, once the worker has failed or a stop has returned, the first part of it.
   */
  lemma {:induction false} CopiedInOrder(clients: nat, count: nat, size: nat -> nat, run: seq<Action>)
    ensures Flows(After(clients, count, size, run), Ended(clients, count, size, run),
                  AllAccepted(clients, count, size, run))
  {
    hide Inv, Next, Enabled, Flows, AnswerOf, AcceptedIn;
    if |run| == 0 {
      NothingFlows(clients);
    } else {
      var before, a := run[..|run| - 1], run[|run| - 1];
      var s := After(clients, count, size, before);
      CopiedInOrder(clients, count, size, before);
      var ended, accepted := Ended(clients, count, size, before), AllAccepted(clients, count, size, before);
      assert ended + [] == ended && accepted + [] == accepted;
      if Enabled(s, a) {
        StepInv(s, a, count, size);
        if a.AddRequest? {
          AddFlows(s, a, count, size, ended, accepted);
        } else if a.WorkerFail? || a.FinishStop? {
          CancelFlows(s, a, count, size, ended, accepted);
        } else if a.WorkerCheck? {
          OnlyWhenWaiting(s);
          TakeFlows(s, count, size, ended, accepted);
        } else {
          OtherFlows(s, a, count, size, ended, accepted);
        }
      }
    }
  }

  /** With nobody in a call and the worker asleep, every accepted request has been copied. */
  lemma QuietMeansCopied(clients: nat, count: nat, size: nat -> nat, run: seq<Action>)
    requires var s := After(clients, count, size, run);
             s.worker.Asleep? && forall c :: 0 <= c < |s.clients| ==> s.clients[c].Idle?
    ensures Ended(clients, count, size, run) == AllAccepted(clients, count, size, run)
  {
    CopiedInOrder(clients, count, size, run);
    QuietMeansDone(clients, count, size, run);
    var s := After(clients, count, size, run);
    assert Ended(clients, count, size, run) + Held(s.worker) + s.sh.queue == Ended(clients, count, size, run);
  }

  // ----- Failing

  /** A copy of the run has failed. */
  ghost predicate CopyFailed(clients: nat, count: nat, size: nat -> nat, run: seq<Action>) {
    |run| > 0
    && (CopyFailed(clients, count, size, run[..|run| - 1])
        || (run[|run| - 1] == Copy(false)
            && Enabled(After(clients, count, size, run[..|run| - 1]), run[|run| - 1])))
  }

  lemma FailStep(s: State, a: Action, count: nat, size: nat -> nat)
    requires Enabled(s, a)
    requires a.WorkerFinish? && s.worker.id in s.sh.pending ==> s.sh.pending[s.worker.id] <= s.sh.pendingBytes
    ensures var t := Next(s, a, count, size);
            t.sh.failed || t.worker.Failing? <==> s.sh.failed || s.worker.Failing? || a == Copy(false)
  {
  }

  /** The prefetcher fails, for good, exactly if one of its copies failed. */
  lemma {:induction false} FailsExactly(clients: nat, count: nat, size: nat -> nat, run: seq<Action>)
    ensures var s := After(clients, count, size, run);
            s.sh.failed || s.worker.Failing? <==> CopyFailed(clients, count, size, run)
  {
    hide Inv, Next, Enabled;
    if |run| > 0 {
      var before, a := run[..|run| - 1], run[|run| - 1];
      var s := After(clients, count, size, before);
      FailsExactly(clients, count, size, before);
      if Enabled(s, a) {
        StepInv(s, a, count, size);
        FailStep(s, a, count, size);
      }
    }
  }

  // ----- The peak

  /** The most bytes that were ever pending. */
  ghost function MostPending(clients: nat, count: nat, size: nat -> nat, run: seq<Action>): nat {
    if |run| == 0 then 0
    else Max(MostPending(clients, count, size, run[..|run| - 1]), After(clients, count, size, run).sh.pendingBytes)
  }

  lemma PeakStep(s: State, a: Action, count: nat, size: nat -> nat)
    requires Inv(s, size) && Enabled(s, a)
    requires a.WorkerFinish? && s.worker.id in s.sh.pending ==> s.sh.pending[s.worker.id] <= s.sh.pendingBytes
    ensures s.sh.pendingBytes <= s.sh.peak
    ensures Next(s, a, count, size).sh.peak == Max(s.sh.peak, Next(s, a, count, size).sh.pendingBytes)
  {
    hide Distinct, Total, SomeoneNotifies, Stopping;
  }

  lemma PeakCovers(clients: nat, count: nat, size: nat -> nat, run: seq<Action>)
    ensures After(clients, count, size, run).sh.pendingBytes <= After(clients, count, size, run).sh.peak
  {
    PendingIsQueueAndHeld(clients, count, size, run);
  }

  /** The reported peak is the most bytes that were pending at any time. */
  lemma {:induction false} PeakIsMost(clients: nat, count: nat, size: nat -> nat, run: seq<Action>)
    ensures After(clients, count, size, run).sh.peak == MostPending(clients, count, size, run)
  {
    hide Inv, Next, Enabled;
    if |run| > 0 {
      var before, a := run[..|run| - 1], run[|run| - 1];
      var s := After(clients, count, size, before);
      PeakIsMost(clients, count, size, before);
      PeakCovers(clients, count, size, before);
      if Enabled(s, a) {
        StepInv(s, a, count, size);
        PeakStep(s, a, count, size);
      }
    }
  }

  // ----- Stopping

  /** How often client c has begun to stop the prefetcher. */
  ghost function StopsBegun(clients: nat, count: nat, size: nat -> nat, run: seq<Action>, c: nat): nat {
    if |run| == 0 then 0
    else
      var before, a := run[..|run| - 1], run[|run| - 1];
      StopsBegun(clients, count, size, before, c)
      + if a == StartStop(c) && Enabled(After(clients, count, size, before), a) then 1 else 0
  }

  /** How often a stop by client c has returned. */
  ghost function StopsDone(clients: nat, count: nat, size: nat -> nat, run: seq<Action>, c: nat): nat {
    if |run| == 0 then 0
    else
      var before, a := run[..|run| - 1], run[|run| - 1];
      StopsDone(clients, count, size, before, c)
      + if a == FinishStop(c) && Enabled(After(clients, count, size, before), a) then 1 else 0
  }

  function InStop(s: State, c: nat): nat {
    if c < |s.clients| && (s.clients[c].MustNotifyAll? || s.clients[c].Joining? || s.clients[c].Clearing?) then 1 else 0
  }

  lemma StopStep(s: State, a: Action, c: nat, count: nat, size: nat -> nat)
    requires Enabled(s, a)
    requires a.WorkerFinish? && s.worker.id in s.sh.pending ==> s.sh.pending[s.worker.id] <= s.sh.pendingBytes
    ensures InStop(Next(s, a, count, size), c) + (if a == FinishStop(c) then 1 else 0)
         == InStop(s, c) + if a == StartStop(c) then 1 else 0
    ensures s.stopReturned || a.FinishStop? <==> Next(s, a, count, size).stopReturned
  {
  }

  lemma NobodyStops(clients: nat, c: nat)
    ensures InStop(Init(clients), c) == 0
  {
  }

  /** Every stop that was begun has returned or is still under way. */
  lemma {:induction false} EveryStopIsCounted(clients: nat, count: nat, size: nat -> nat, run: seq<Action>, c: nat)
    ensures StopsBegun(clients, count, size, run, c)
         == StopsDone(clients, count, size, run, c) + InStop(After(clients, count, size, run), c)
    ensures StopsDone(clients, count, size, run, c) > 0 ==> After(clients, count, size, run).stopReturned
  {
    hide Inv, Next, Enabled, InStop;
    if |run| == 0 {
      NobodyStops(clients, c);
    } else {
      var before, a := run[..|run| - 1], run[|run| - 1];
      var s := After(clients, count, size, before);
      EveryStopIsCounted(clients, count, size, before, c);
      if Enabled(s, a) {
        StepInv(s, a, count, size);
        StopStep(s, a, c, count, size);
      }
    }
  }

  /** A stop that has returned leaves nothing behind: the worker is gone and nothing is queued or pending any more. */
  lemma StopIsFinal(clients: nat, count: nat, size: nat -> nat, run: seq<Action>, c: nat)
    requires StopsDone(clients, count, size, run, c) > 0
    ensures var s := After(clients, count, size, run);
            s.worker.Exited? && s.sh.stop && s.sh.queue == [] && s.sh.pending == map[] && s.sh.pendingBytes == 0
  {
    hide Inv;
    EveryStopIsCounted(clients, count, size, run, c);
    StoppedIsEmpty(clients, count, size, run);
  }
}
