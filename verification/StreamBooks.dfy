/**
 * The consumer's books of a streaming run: what was asked for, what was met in time, the observation window, and what
 * the look-ahead made of each candidate.
 */
module StreamBooks {
  import opened Common
  import P = Prefetcher

  const UNLIMITED: nat := U64_MAX

  /** Prefetch statistics. */
  datatype Stats = Stats(requests: nat, useful: nat, unused: nat, late: nat, eligible: nat, skipped: nat,
                         bytesRequested: nat, bytesUseful: nat, bytesUnused: nat, maxInflight: nat,
                         maxPending: nat, maxPrefetched: nat, ups: nat, downs: nat,
                         finalDepth: nat, minDepth: nat, maxDepth: nat, hotSet: nat)

  /** The consumer's books: what it has asked for and not yet reached, and the window being observed. */
  datatype Look = Look(requested: map<nat, nat>, latePending: map<nat, nat>, inflight: nat,
                       peak: nat, consumed: nat, useful: nat, late: nat, skips: nat, stats: Stats)

  /** The consumer between two items. */
  datatype Consumer = Consumer(look: Look, depth: nat, windowMs: real, windowItems: nat, items: nat, checksum: bv64,
          total: nat)

  // ----- Sums over outstanding requests

  /** The number of outstanding requests below n, or their bytes. */
  function Outstanding(requested: map<nat, nat>, n: nat, bytes: bool): nat {
    if n == 0 then 0
    else
      var last := if n - 1 in requested then (if bytes then requested[n - 1] else 1) else 0;
      Outstanding(requested, n - 1, bytes) + last
  }

  lemma {:induction false} OutstandingFrame(m1: map<nat, nat>, m2: map<nat, nat>, n: nat, bytes: bool)
    requires forall id :: 0 <= id < n ==> (id in m1 <==> id in m2) && (id in m1 ==> m1[id] == m2[id])
    ensures Outstanding(m1, n, bytes) == Outstanding(m2, n, bytes)
  {
    if n > 0 {
      OutstandingFrame(m1, m2, n - 1, bytes);
    }
  }

  lemma {:induction false} OutstandingAdd(m: map<nat, nat>, n: nat, bytes: bool, id: nat, b: nat)
    requires id < n && id !in m
    ensures Outstanding(m[id := b], n, bytes) == Outstanding(m, n, bytes) + if bytes then b else 1
  {
    if n - 1 == id {
      OutstandingFrame(m[id := b], m, n - 1, bytes);
    } else {
      OutstandingAdd(m, n - 1, bytes, id, b);
    }
  }

  lemma OutstandingRemove(m: map<nat, nat>, n: nat, bytes: bool, id: nat)
    requires id < n && id in m
    ensures Outstanding(m, n, bytes) == Outstanding(m - {id}, n, bytes) + if bytes then m[id] else 1
  {
    OutstandingAdd(m - {id}, n, bytes, id, m[id]);
    assert (m - {id})[id := m[id]] == m;
  }

  lemma {:induction false} OutstandingNone(n: nat, bytes: bool)
    ensures Outstanding(map[], n, bytes) == 0
  {
    if n > 0 {
      OutstandingNone(n - 1, bytes);
    }
  }

  /**
   * The ledger: every eligible id was requested or skipped for budget; every request was useful, late or is still ahead
   * of the cursor; the in-flight counter is exactly the outstanding bytes.
   */
  ghost predicate Balanced(k: Look, cursor: nat, count: nat, size: nat -> nat) {
    && (forall id :: id in k.requested ==> cursor <= id < count && k.requested[id] == size(id))
    && k.inflight == Outstanding(k.requested, count, true)
    && k.stats.eligible == k.stats.requests + k.stats.skipped
    && k.stats.useful + k.stats.unused + Outstanding(k.requested, count, false) == k.stats.requests
    && k.stats.bytesUseful + k.stats.bytesUnused + Outstanding(k.requested, count, true) == k.stats.bytesRequested
    && k.stats.late == k.stats.unused
  }

  lemma SettleNone(k: Look, i: nat, count: nat, size: nat -> nat)
    requires Balanced(k, i, count, size) && i !in k.requested
    ensures Balanced(k, i + 1, count, size)
  {
  }

  /** The books after the request for slice i has been met, in time or late. */
  function Settled(k: Look, i: nat, ready: bool, late: map<nat, nat>): Look
    requires i in k.requested
  {
    var bytes := k.requested[i];
    var st := k.stats;
    k.(requested := k.requested - {i}, latePending := late, inflight := k.inflight - Min(k.inflight, bytes),
       consumed := k.consumed + 1, useful := k.useful + (if ready then 1 else 0), 
       late := k.late + (if ready then 0 else 1),
       stats := if ready then st.(useful := st.useful + 1, bytesUseful := st.bytesUseful + bytes)
                else st.(unused := st.unused + 1, late := st.late + 1, bytesUnused := st.bytesUnused + bytes))
  }

  lemma SettleOne(k: Look, i: nat, count: nat, size: nat -> nat, ready: bool, late: map<nat, nat>)
    requires Balanced(k, i, count, size) && i in k.requested
    ensures Balanced(Settled(k, i, ready, late), i + 1, count, size)
  {
    OutstandingRemove(k.requested, count, true, i);
    OutstandingRemove(k.requested, count, false, i);
  }

  lemma BalancedPeak(k: Look, k': Look, cursor: nat, count: nat, size: nat -> nat)
    requires Balanced(k, cursor, count, size)
             && k' == k.(peak := k'.peak, stats := k.stats.(maxInflight := k'.stats.maxInflight))
    ensures Balanced(k', cursor, count, size)
  {
  }

  lemma LateOnly(k: Look, k': Look, cursor: nat, count: nat, size: nat -> nat)
    requires Balanced(k, cursor, count, size) && k' == k.(latePending := k'.latePending)
    ensures Balanced(k', cursor, count, size)
  {
  }

  /** The depth statistics and the reported budget are as they were. */
  predicate SameDepths(k: Look, k': Look) {
    && k'.stats.ups == k.stats.ups && k'.stats.downs == k.stats.downs
    && k'.stats.minDepth == k.stats.minDepth && k'.stats.maxDepth == k.stats.maxDepth
    && k'.stats.hotSet == k.stats.hotSet
  }

  /** No request is left at the end of a pass: each was met when the cursor reached it. */
  lemma AllMet(k: Look, count: nat, size: nat -> nat)
    requires Balanced(k, count, count, size)
    ensures k.requested == map[] && k.inflight == 0 && Balanced(k, 0, count, size)
  {
    assert forall id :: id !in k.requested;
    OutstandingNone(count, true);
  }

  lemma StartOfPass(k: Look, count: nat, size: nat -> nat)
    requires Balanced(k, 0, count, size) && k.requested == map[]
    ensures k.inflight == 0
  {
    OutstandingNone(count, true);
  }

  function Skipped(k: Look): Look {
    k.(skips := k.skips + 1, stats := k.stats.(eligible := k.stats.eligible + 1, skipped := k.stats.skipped + 1))
  }

  lemma SkipOne(k: Look, cursor: nat, count: nat, size: nat -> nat)
    requires Balanced(k, cursor, count, size)
    ensures Balanced(Skipped(k), cursor, count, size)
  {
  }

  function Asked(k: Look, id: nat, bytes: nat, reserved: nat): Look {
    k.(requested := k.requested[id := bytes], inflight := k.inflight + bytes, peak := Max(k.peak, reserved),
       stats := k.stats.(eligible := k.stats.eligible + 1, requests := k.stats.requests + 1,
                         bytesRequested := k.stats.bytesRequested + bytes,
                         maxInflight := Max(k.stats.maxInflight, reserved)))
  }

  lemma AskOne(k: Look, cursor: nat, count: nat, size: nat -> nat, id: nat, reserved: nat)
    requires Balanced(k, cursor, count, size) && cursor <= id < count && id !in k.requested
    ensures Balanced(Asked(k, id, size(id), reserved), cursor, count, size)
  {
    OutstandingAdd(k.requested, count, true, id, size(id));
    OutstandingAdd(k.requested, count, false, id, size(id));
  }

  // ----- The checksum

  function Mix(h: bv64, b: Byte): bv64 {
    (h ^ (b as bv64)) * 1099511628211
  }

  /** Every 4096th byte from index j on is mixed in. */
  function HashFrom(h: bv64, data: Bytes, j: nat): bv64
    decreases |data| - j
  {
    if j >= |data| then h else HashFrom(Mix(h, data[j]), data, j + 4096)
  }

  /** Slices 0..n-1 in order. */
  function FoldSlices(h: bv64, src: nat -> Bytes, n: nat): bv64 {
    if n == 0 then h else HashFrom(FoldSlices(h, src, n - 1), src(n - 1), 0)
  }

  function FoldPasses(h: bv64, src: nat -> Bytes, count: nat, passes: nat): bv64 {
    if passes == 0 then h else FoldSlices(FoldPasses(h, src, count, passes - 1), src, count)
  }

  lemma MixIs(h: bv64, b: Byte)
    ensures Mix(h, b) == (h ^ (b as bv64)) * ((1 << 40) + (1 << 8) + 0xB3)
  {
  }

  function MixAll(h: bv64, s: Bytes): bv64
    decreases |s|
  {
    if |s| == 0 then h else MixAll(Mix(h, s[0]), s[1..])
  }

  /** The bytes at the multiples of the page size, from page n on. */
  function PageStarts(data: Bytes, n: nat): Bytes
    decreases |data| - 4096 * n
  {
    if 4096 * n < |data| then [data[4096 * n]] + PageStarts(data, n + 1) else []
  }

  /** The checksum of a slice folds the first byte of each of its pages, in order. */
  lemma {:induction false} HashIs(h: bv64, data: Bytes, n: nat)
    ensures HashFrom(h, data, 4096 * n) == MixAll(h, PageStarts(data, n))
    decreases |data| - 4096 * n
  {
    hide Mix;
    if 4096 * n < |data| {
      HashIs(Mix(h, data[4096 * n]), data, n + 1);
    }
  }

  method HashSlice(h: bv64, data: Bytes) returns (r: bv64)
    ensures r == HashFrom(h, data, 0)
  {
    hide Mix;
    r := h;
    var j := 0;
    while j < |data|
      invariant HashFrom(r, data, j) == HashFrom(h, data, 0)
      decreases |data| - j
    {
      r := Mix(r, data[j]);
      j := j + 4096;
    }
  }

  // ----- Totals of a run

  function SumSizes(size: nat -> nat, n: nat): nat {
    if n == 0 then 0 else SumSizes(size, n - 1) + size(n - 1)
  }

  lemma {:induction false} OutstandingBound(m: map<nat, nat>, size: nat -> nat, n: nat)
    requires forall id :: id in m ==> m[id] == size(id)
    ensures Outstanding(m, n, true) <= SumSizes(size, n)
  {
    if n > 0 {
      OutstandingBound(m, size, n - 1);
    }
  }

  /** The bytes of the listed ids are the outstanding bytes of the map they list. */
  lemma {:induction false} ListedOutstanding(m: map<nat, nat>, size: nat -> nat, ids: seq<nat>, n: nat)
    requires Distinct(ids) && (forall id :: id in m <==> id in ids)
             && (forall id :: id in m ==> m[id] == size(id) && id < n)
    ensures P.Total(size, ids) == Outstanding(m, n, true)
    decreases |ids|
  {
    if |ids| == 0 {
      assert m == map[];
      OutstandingNone(n, true);
    } else {
      var id := ids[0];
      assert id in ids && ids == [id] + ids[1..];
      TailDistinct(ids);
      OutstandingRemove(m, n, true, id);
      ListedOutstanding(m - {id}, size, ids[1..], n);
    }
  }

  /** The totals of a finished run. */
  ghost predicate LedgerBalances(st: Stats) {
    && st.eligible == st.requests + st.skipped
    && st.useful + st.unused == st.requests
    && st.bytesUseful + st.bytesUnused == st.bytesRequested
    && st.late == st.unused
  }

  datatype RunStats = RunStats(checksum: bv64, total: nat, hits: nat, misses: nat, evictions: nat, bytesCopied: nat,
          stats: Stats)

  const SEED: bv64 := 1469598103934665603

  /** The bytes of `passes` passes over the first n slices. */
  function SumPasses(size: nat -> nat, n: nat, passes: nat): nat {
    if passes == 0 then 0 else SumPasses(size, n, passes - 1) + SumSizes(size, n)
  }

  lemma {:induction false} SumPassesIs(size: nat -> nat, n: nat, passes: nat)
    ensures SumPasses(size, n, passes) == passes * SumSizes(size, n)
  {
    if passes > 0 {
      SumPassesIs(size, n, passes - 1);
    }
  }

  function NoStats(depth: nat, hotSet: nat): Stats {
    Stats(0, 0, 0, 0, 0, 0, 0, 0, 0, 0, 0, 0, 0, 0, depth, depth, depth, hotSet)
  }

  lemma LedgerAtEnd(k: Look, count: nat, size: nat -> nat)
    requires Balanced(k, 0, count, size) && k.requested == map[]
    ensures LedgerBalances(k.stats)
  {
    OutstandingNone(count, true);
    OutstandingNone(count, false);
  }

  // ----- What the consumer saw

  /** What the consumer was told about an id when it looked. */
  datatype Glance = InCache(id: nat, yes: bool) | InFlight(id: nat, yes: bool)

  /** The glance g has been taken since the from-th one. */
  ghost predicate Told(seen: seq<Glance>, from: nat, g: Glance) {
    exists j :: from <= j < |seen| && seen[j] == g
  }

  lemma ToldStays(seen: seq<Glance>, from: nat, more: seq<Glance>, before: nat, g: Glance)
    requires Told(seen, from, g) && seen <= more && before <= from
    ensures Told(more, before, g)
  {
    var j :| from <= j < |seen| && seen[j] == g;
    assert more[j] == g;
  }

  lemma LastTold(seen: seq<Glance>, from: nat, g: Glance)
    requires from <= |seen|
    ensures Told(seen + [g], from, g)
  {
    assert (seen + [g])[|seen|] == g;
  }

  /** What the glances at slice i make of its request. */
  predicate SettledAs(news: seq<Glance>, k: Look, i: nat, k': Look)
    requires i in k.requested
  {
    (news == [InCache(i, true)] && k' == Settled(k, i, true, k.latePending))
    || (news == [InCache(i, false), InFlight(i, false)] && k' == Settled(k, i, false, k.latePending))
    || (news == [InCache(i, false), InFlight(i, true)]
        && k' == Settled(k, i, false,
                         if i in k.latePending then k.latePending else k.latePending[i := k.requested[i]]))
  }

  /** The books once the cursor has met slice i; in mmap mode every request is in time. */
  ghost predicate Met(i: nat, k: Look, met: Look, copyCache: bool, seen: seq<Glance>, from: nat) {
    if i !in k.requested then met == k.(latePending := met.latePending)
    else if !copyCache then met == Settled(k, i, true, k.latePending)
    else
      (Told(seen, from, InCache(i, true)) && met == Settled(k, i, true, met.latePending))
      || (Told(seen, from, InCache(i, false)) && met == Settled(k, i, false, met.latePending))
  }

  lemma MetStays(i: nat, k: Look, met: Look, copyCache: bool, seen: seq<Glance>, from: nat, more: seq<Glance>,
                 before: nat)
    requires Met(i, k, met, copyCache, seen, from) && seen <= more && before <= from
    ensures Met(i, k, met, copyCache, more, before)
  {
    hide Told, Settled;
    if Told(seen, from, InCache(i, true)) {
      ToldStays(seen, from, more, before, InCache(i, true));
    }
    if Told(seen, from, InCache(i, false)) {
      ToldStays(seen, from, more, before, InCache(i, false));
    }
  }

  /** Of the late requests but i, exactly those seen to be in flight are still remembered. */
  ghost predicate Swept(all: map<nat, nat>, late: map<nat, nat>, i: nat, seen: seq<Glance>, from: nat) {
    && (forall id :: id in late ==> id in all || id == i)
    && (forall id :: id in all && id != i ==> Told(seen, from, InFlight(id, id in late)))
  }

  lemma SweptNow(all: map<nat, nat>, late: map<nat, nat>, i: nat, seen: seq<Glance>, from: nat)
    requires forall id :: id in late ==> id in all
    requires forall id :: id in all ==> Told(seen, from, InFlight(id, id in late))
    ensures Swept(all, late, i, seen, from)
  {
  }

  lemma SweptStays(all: map<nat, nat>, late: map<nat, nat>, late': map<nat, nat>, i: nat, seen: seq<Glance>, from: nat,
                   more: seq<Glance>, before: nat)
    requires Swept(all, late, i, seen, from) && seen <= more && before <= from
    requires forall id :: id != i ==> (id in late' <==> id in late)
    ensures Swept(all, late', i, more, before)
  {
    hide Told;
    forall id | id in all && id != i
      ensures Told(more, before, InFlight(id, id in late'))
    {
      ToldStays(seen, from, more, before, InFlight(id, id in late));
    }
  }

  /** Of the requests but the unseen ones, exactly those seen to be in flight are remembered now if not before. */
  ghost predicate LeftPending(k: Look, late: map<nat, nat>, unseen: set<nat>, seen: seq<Glance>, from: nat) {
    && (forall id :: id in late ==> id in k.latePending || id in k.requested)
    && (forall id :: id in k.latePending ==> id in late)
    && (forall id :: id in k.requested && id !in unseen ==>
          id in k.latePending || Told(seen, from, InFlight(id, id in late)))
    && (forall id :: id in unseen && id in late ==> id in k.latePending)
  }

  lemma NoneLeftPending(k: Look, seen: seq<Glance>)
    ensures LeftPending(k, k.latePending, k.requested.Keys, seen, |seen|)
  {
  }

  lemma OneLeftPending(k: Look, late: map<nat, nat>, unseen: set<nat>, seen: seq<Glance>, from: nat, id: nat,
                       pending: bool, more: seq<Glance>)
    requires LeftPending(k, late, unseen, seen, from) && id in unseen && id in k.requested && from <= |seen|
    requires more == seen + [InFlight(id, pending)]
    ensures var bytes := k.requested[id];
            LeftPending(k, if pending && id !in late then late[id := bytes] else late, unseen - {id}, more, from)
  {
    hide Told;
    var now := if pending && id !in late then late[id := k.requested[id]] else late;
    forall n | n in k.requested && n !in unseen - {id}
      ensures n in k.latePending || Told(more, from, InFlight(n, n in now))
    {
      if n == id {
        LastTold(seen, from, InFlight(id, pending));
      } else if n !in k.latePending {
        ToldStays(seen, from, more, from, InFlight(n, n in late));
      }
    }
  }

  /** Slice i itself is remembered as late if it was before, or was just seen in flight, and else was seen not to be. */
  ghost predicate LateNow(k: Look, late: map<nat, nat>, i: nat, seen: seq<Glance>, from: nat) {
    && (i in late ==> i in k.latePending || Told(seen, from, InFlight(i, true)))
    && (i in k.requested && i !in late ==> Told(seen, from, InCache(i, true)) || Told(seen, from, InFlight(i, false)))
  }

  lemma LateNowIs(i: nat, k: Look, erased: Look, met: Look, seen: seq<Glance>, from: nat, before: nat)
    requires before <= from <= |seen|
    requires erased == k.(latePending := erased.latePending) && (i in erased.latePending ==> i in k.latePending)
    requires i !in k.requested ==> met == erased
    requires i in k.requested ==> SettledAs(seen[from..], erased, i, met)
    ensures LateNow(k, met.latePending, i, seen, before)
  {
    if i in k.requested {
      var news := seen[from..];
      assert news[|news| - 1] == seen[|seen| - 1];
      assert Told(seen, before, news[|news| - 1]);
    }
  }

  lemma LateNowStays(k: Look, late: map<nat, nat>, i: nat, seen: seq<Glance>, from: nat, more: seq<Glance>, before: nat)
    requires LateNow(k, late, i, seen, from) && seen <= more && before <= from
    ensures LateNow(k, late, i, more, before)
  {
    hide Told;
    forall g | Told(seen, from, g)
      ensures Told(more, before, g)
    {
      ToldStays(seen, from, more, before, g);
    }
  }

  /** Meeting the request for slice i leaves the other late ones alone. */
  lemma OthersLate(i: nat, k: Look, erased: Look, met: Look, news: seq<Glance>)
    requires erased == k.(latePending := erased.latePending)
    requires i !in k.requested ==> met == erased
    requires i in k.requested ==> SettledAs(news, erased, i, met)
    ensures forall id :: id != i ==> (id in met.latePending <==> id in erased.latePending)
  {
  }

  // ----- The look-ahead's answers

  datatype Decision = PassedOver | OverBudget | Taken

  /** The candidates of one look-ahead by the answer they got, and the reservation it started from. */
  datatype Verdicts = Verdicts(passed: set<nat>, skipped: set<nat>, taken: map<nat, nat>, start: nat)

  /** The reservation that a candidate would need does not fit. */
  predicate TooMuch(limit: nat, bytes: nat, reserved: nat) {
    limit != UNLIMITED && reserved + bytes > limit
  }

  /** Slice id need not be asked for: it has been, or it is resident, or a late request for it is still in flight. */
  ghost predicate Known(id: nat, k: Look, copyCache: bool, seen: seq<Glance>, from: nat) {
    id in k.requested || (copyCache && (id in k.latePending || Told(seen, from, InCache(id, true))))
  }

  ghost predicate Missing(id: nat, k: Look, copyCache: bool, seen: seq<Glance>, from: nat) {
    id !in k.requested && (copyCache ==> id !in k.latePending && Told(seen, from, InCache(id, false)))
  }

  /** The reservation that candidate id meets: the first one and what the candidates before id have taken. */
  function ReservedAt(v: Verdicts, id: nat): nat {
    Min(U64_MAX, v.start + Outstanding(v.taken, id, true))
  }

  /**
   * Every slice id with i < id < end got its answer: passed over because it is known, or else taken exactly if it fits
   * on top of what was reserved when its turn came.
   */
  ghost predicate Covered(v: Verdicts, i: nat, end: nat, k: Look, copyCache: bool, limit: nat, size: nat -> nat,
                          seen: seq<Glance>, from: nat) {
    && (forall id :: i < id < end ==> id in v.passed || id in v.skipped || id in v.taken)
    && (forall id :: id in v.passed ==> i < id < end && Known(id, k, copyCache, seen, from))
    && (forall id :: id in v.skipped ==>
          i < id < end && id !in v.taken && Missing(id, k, copyCache, seen, from)
          && TooMuch(limit, size(id), ReservedAt(v, id)))
    && (forall id :: id in v.taken ==>
          i < id < end && v.taken[id] == size(id) && Missing(id, k, copyCache, seen, from)
          && !TooMuch(limit, size(id), ReservedAt(v, id)))
  }

  /** The books with these requests, this many candidates skipped and taken, and this reservation. */
  function BookedWith(k: Look, requested: map<nat, nat>, bytes: nat, skips: nat, takes: nat, reserved: nat): Look {
    k.(requested := requested, inflight := k.inflight + bytes, peak := Max(k.peak, reserved), skips := k.skips + skips,
       stats := k.stats.(eligible := k.stats.eligible + skips + takes, requests := k.stats.requests + takes,
                         skipped := k.stats.skipped + skips, bytesRequested := k.stats.bytesRequested + bytes,
                         maxInflight := Max(k.stats.maxInflight, reserved)))
  }

  /** The books after the candidates before end: each one taken or skipped was eligible, and nothing else was. */
  function Booked(v: Verdicts, end: nat, k: Look): Look {
    BookedWith(k, k.requested + v.taken, Outstanding(v.taken, end, true), |v.skipped|, |v.taken|, ReservedAt(v, end))
  }

  /** One candidate's answer, and the books and the reservation after it. */
  ghost predicate Decided(d: Decision, id: nat, bytes: nat, k: Look, reserved: nat, k': Look, reserved': nat,
                          copyCache: bool, limit: nat, seen: seq<Glance>, from: nat) {
    match d
    case PassedOver => Known(id, k, copyCache, seen, from) && k' == k && reserved' == reserved
    case OverBudget =>
      Missing(id, k, copyCache, seen, from) && TooMuch(limit, bytes, reserved) && k' == Skipped(k)
      && reserved' == reserved
    case Taken =>
      Missing(id, k, copyCache, seen, from) && !TooMuch(limit, bytes, reserved)
      && reserved' == Min(U64_MAX, reserved + bytes) && k' == Asked(k, id, bytes, reserved')
  }

  function Decide(v: Verdicts, d: Decision, id: nat, bytes: nat): Verdicts {
    match d
    case PassedOver => v.(passed := v.passed + {id})
    case OverBudget => v.(skipped := v.skipped + {id})
    case Taken => v.(taken := v.taken[id := bytes])
  }

  lemma ReservedBefore(v: Verdicts, d: Decision, id: nat, bytes: nat, n: nat)
    requires n <= id
    ensures ReservedAt(Decide(v, d, id, bytes), n) == ReservedAt(v, n)
  {
    OutstandingFrame(v.taken, Decide(v, d, id, bytes).taken, n, true);
  }

  lemma NoneTaken(requested: map<nat, nat>)
    ensures requested + map[] == requested
  {
  }

  lemma NoneBooked(k: Look, start: nat)
    ensures BookedWith(k, k.requested, 0, 0, 0, start)
         == k.(peak := Max(k.peak, start), stats := k.stats.(maxInflight := Max(k.stats.maxInflight, start)))
  {
    hide Max;
  }

  lemma CoverNone(i: nat, k: Look, copyCache: bool, limit: nat, size: nat -> nat, seen: seq<Glance>, start: nat)
    requires start <= U64_MAX
    ensures var v := Verdicts({}, {}, map[], start);
            && Covered(v, i, i + 1, k, copyCache, limit, size, seen, |seen|)
            && ReservedAt(v, i + 1) == start
            && Booked(v, i + 1, k)
               == k.(peak := Max(k.peak, start), stats := k.stats.(maxInflight := Max(k.stats.maxInflight, start)))
  {
    hide Known, Missing, TooMuch, Outstanding, Max, BookedWith;
    OutstandingNone(i + 1, true);
    NoneTaken(k.requested);
    NoneBooked(k, start);
  }

  lemma KnownStays(id: nat, k: Look, copyCache: bool, seen: seq<Glance>, from: nat, more: seq<Glance>, before: nat)
    requires seen <= more && before <= from
    ensures Known(id, k, copyCache, seen, from) ==> Known(id, k, copyCache, more, before)
    ensures Missing(id, k, copyCache, seen, from) ==> Missing(id, k, copyCache, more, before)
  {
    hide Told;
    if Told(seen, from, InCache(id, true)) {
      ToldStays(seen, from, more, before, InCache(id, true));
    }
    if Told(seen, from, InCache(id, false)) {
      ToldStays(seen, from, more, before, InCache(id, false));
    }
  }

  lemma CoveredStays(v: Verdicts, i: nat, end: nat, k: Look, copyCache: bool, limit: nat, size: nat -> nat,
                     seen: seq<Glance>, from: nat, more: seq<Glance>, before: nat)
    requires Covered(v, i, end, k, copyCache, limit, size, seen, from) && seen <= more && before <= from
    ensures Covered(v, i, end, k, copyCache, limit, size, more, before)
  {
    hide Known, Missing, TooMuch, ReservedAt;
    forall id | i < id < end
      ensures Known(id, k, copyCache, seen, from) ==> Known(id, k, copyCache, more, before)
      ensures Missing(id, k, copyCache, seen, from) ==> Missing(id, k, copyCache, more, before)
    {
      KnownStays(id, k, copyCache, seen, from, more, before);
    }
  }

  lemma TakenSame(taken: map<nat, nat>, id: nat)
    requires id !in taken
    ensures Outstanding(taken, id + 1, true) == Outstanding(taken, id, true)
  {
  }

  lemma OneMoreSkipped(skipped: set<nat>, id: nat)
    requires id !in skipped
    ensures |skipped + {id}| == |skipped| + 1
  {
  }

  lemma BookPass(v: Verdicts, id: nat, k: Look)
    requires id !in v.taken
    ensures var v' := v.(passed := v.passed + {id});
            Booked(v', id + 1, k) == Booked(v, id, k) && ReservedAt(v', id + 1) == ReservedAt(v, id)
  {
    hide Max, Min, Outstanding, BookedWith;
    TakenSame(v.taken, id);
  }

  lemma SkipWith(k: Look, requested: map<nat, nat>, bytes: nat, skips: nat, takes: nat, reserved: nat)
    ensures BookedWith(k, requested, bytes, skips + 1, takes, reserved)
         == Skipped(BookedWith(k, requested, bytes, skips, takes, reserved))
  {
    hide Max;
  }

  lemma TakeWith(k: Look, requested: map<nat, nat>, bytes: nat, skips: nat, takes: nat, reserved: nat, id: nat,
                 more: nat, now: nat)
    requires reserved <= now
    ensures BookedWith(k, requested[id := more], bytes + more, skips, takes + 1, now)
         == Asked(BookedWith(k, requested, bytes, skips, takes, reserved), id, more, now)
  {
  }

  lemma BookSkip(v: Verdicts, id: nat, k: Look)
    requires id !in v.taken && id !in v.skipped
    ensures var v' := v.(skipped := v.skipped + {id});
            Booked(v', id + 1, k) == Skipped(Booked(v, id, k)) && ReservedAt(v', id + 1) == ReservedAt(v, id)
  {
    hide Max, Min, Outstanding, BookedWith, Skipped;
    TakenSame(v.taken, id);
    OneMoreSkipped(v.skipped, id);
    SkipWith(k, k.requested + v.taken, Outstanding(v.taken, id, true), |v.skipped|, |v.taken|, ReservedAt(v, id));
  }

  lemma TakenBytes(taken: map<nat, nat>, id: nat, bytes: nat)
    requires id !in taken
    ensures Outstanding(taken[id := bytes], id + 1, true) == Outstanding(taken, id, true) + bytes
  {
    OutstandingFrame(taken[id := bytes], taken, id, true);
  }

  /** The running reservation saturates, and it only grows. */
  lemma TopUp(start: nat, taken: nat, bytes: nat)
    ensures Min(U64_MAX, start + (taken + bytes)) == Min(U64_MAX, Min(U64_MAX, start + taken) + bytes)
    ensures Min(U64_MAX, start + taken) <= Min(U64_MAX, start + (taken + bytes))
  {
  }

  lemma OneMoreTaken(requested: map<nat, nat>, taken: map<nat, nat>, id: nat, bytes: nat)
    requires id !in taken
    ensures requested + taken[id := bytes] == (requested + taken)[id := bytes]
    ensures |taken[id := bytes]| == |taken| + 1
  {
  }

  lemma BookTake(v: Verdicts, id: nat, k: Look, bytes: nat)
    requires id !in v.taken
    ensures var v' := v.(taken := v.taken[id := bytes]);
            && ReservedAt(v', id + 1) == Min(U64_MAX, ReservedAt(v, id) + bytes)
            && Booked(v', id + 1, k) == Asked(Booked(v, id, k), id, bytes, ReservedAt(v', id + 1))
  {
    hide Outstanding, Min, BookedWith, Asked;
    TakenBytes(v.taken, id, bytes);
    TopUp(v.start, Outstanding(v.taken, id, true), bytes);
    OneMoreTaken(k.requested, v.taken, id, bytes);
    TakeWith(k, k.requested + v.taken, Outstanding(v.taken, id, true), |v.skipped|, |v.taken|, ReservedAt(v, id), id,
             bytes, ReservedAt(v.(taken := v.taken[id := bytes]), id + 1));
  }

  /** The books keep up with one more answer. */
  lemma BookStep(v: Verdicts, id: nat, k: Look, d: Decision, bytes: nat, k': Look, reserved': nat, copyCache: bool,
                 limit: nat, seen: seq<Glance>, from: nat)
    requires id !in v.taken && id !in v.skipped
    requires Decided(d, id, bytes, Booked(v, id, k), ReservedAt(v, id), k', reserved', copyCache, limit, seen, from)
    ensures var v' := Decide(v, d, id, bytes);
            k' == Booked(v', id + 1, k) && reserved' == ReservedAt(v', id + 1)
  {
    hide Known, Missing, TooMuch, Booked, ReservedAt, Skipped, Asked, Min;
    match d {
      case PassedOver => BookPass(v, id, k);
      case OverBudget => BookSkip(v, id, k);
      case Taken => BookTake(v, id, k, bytes);
    }
  }

  /** Apart from what has been taken since, the books show what was known at the start. */
  lemma KnownAtStart(v: Verdicts, id: nat, k: Look, copyCache: bool, seen: seq<Glance>, from: nat)
    requires id !in v.taken
    ensures Known(id, Booked(v, id, k), copyCache, seen, from) == Known(id, k, copyCache, seen, from)
    ensures Missing(id, Booked(v, id, k), copyCache, seen, from) == Missing(id, k, copyCache, seen, from)
  {
    hide Told, ReservedAt, Outstanding;
  }

  lemma CoverStep(v: Verdicts, i: nat, id: nat, k: Look, copyCache: bool, limit: nat, size: nat -> nat,
                  seen: seq<Glance>, from: nat, more: seq<Glance>, later: nat, d: Decision, k': Look, reserved': nat)
    requires Covered(v, i, id, k, copyCache, limit, size, seen, from)
             && i < id && seen <= more && from <= later
    requires Decided(d, id, size(id), Booked(v, id, k), ReservedAt(v, id), k', reserved', copyCache, limit, more, later)
    ensures k' == Booked(Decide(v, d, id, size(id)), id + 1, k)
    ensures reserved' == ReservedAt(Decide(v, d, id, size(id)), id + 1) && Decide(v, d, id, size(id)).start == v.start
    ensures Covered(Decide(v, d, id, size(id)), i, id + 1, k, copyCache, limit, size, more, from)
  {
    hide Known, Missing, TooMuch, ReservedAt, Booked, Skipped, Asked;
    BookStep(v, id, k, d, size(id), k', reserved', copyCache, limit, more, later);
    CoveredStays(v, i, id, k, copyCache, limit, size, seen, from, more, from);
    KnownAtStart(v, id, k, copyCache, more, later);
    KnownStays(id, k, copyCache, more, later, more, from);
    forall n: nat | n <= id
      ensures ReservedAt(Decide(v, d, id, size(id)), n) == ReservedAt(v, n)
    {
      ReservedBefore(v, d, id, size(id), n);
    }
  }

  /** Slice id was handed to the prefetcher, unless that has stopped, or unless the slice is resident by now. */
  ghost predicate Sent(id: nat, stopped: bool, asked: set<nat>, seen: seq<Glance>, from: nat) {
    stopped || id in asked || Told(seen, from, InCache(id, true))
  }

  ghost predicate AllSent(taken: map<nat, nat>, stopped: bool, asked: set<nat>, seen: seq<Glance>, from: nat) {
    forall id :: id in taken ==> Sent(id, stopped, asked, seen, from)
  }

  lemma NoneSent(stopped: bool, asked: set<nat>, seen: seq<Glance>, from: nat)
    ensures AllSent(map[], stopped, asked, seen, from)
  {
  }

  lemma SentStep(v: Verdicts, d: Decision, id: nat, bytes: nat, stopped: bool, asked: set<nat>, seen: seq<Glance>,
                 from: nat, stopped': bool, asked': set<nat>, seen': seq<Glance>, later: nat)
    requires AllSent(v.taken, stopped, asked, seen, from) && (d.Taken? ==> Sent(id, stopped', asked', seen', later))
    requires (stopped ==> stopped') && asked <= asked' && seen <= seen' && from <= later
    ensures AllSent(Decide(v, d, id, bytes).taken, stopped', asked', seen', from)
  {
    hide Told;
    forall n | n in Decide(v, d, id, bytes).taken
      ensures Sent(n, stopped', asked', seen', from)
    {
      if Told(seen, from, InCache(n, true)) {
        ToldStays(seen, from, seen', from, InCache(n, true));
      }
      if Told(seen', later, InCache(n, true)) {
        ToldStays(seen', later, seen', from, InCache(n, true));
      }
    }
  }

  /** The time that n items took from item `from` on. */
  function Elapsed(latency: nat -> real, from: nat, n: nat): real {
    if n == 0 then 0.0 else Elapsed(latency, from, n - 1) + latency(from + n - 1)
  }

  // ----- Requests that are met in time

  /** How many slices other than the first have been reached before slice i, and their bytes. */
  function Reached(i: nat): nat {
    if i == 0 then 0 else i - 1
  }

  function ReachedBytes(size: nat -> nat, i: nat): nat {
    if i < 2 then 0 else ReachedBytes(size, i - 1) + size(i - 1)
  }

  /** The bytes of slices lo..hi-1. */
  function SizesBetween(size: nat -> nat, lo: nat, hi: nat): nat {
    if hi <= lo then 0 else SizesBetween(size, lo, hi - 1) + size(hi - 1)
  }

  lemma {:induction false} OutstandingWithin(m: map<nat, nat>, size: nat -> nat, lo: nat, n: nat)
    requires forall id :: id in m ==> lo <= id && m[id] == size(id)
    ensures Outstanding(m, n, true) <= SizesBetween(size, lo, n)
  {
    if n > 0 {
      OutstandingWithin(m, size, lo, n - 1);
    }
  }

  lemma {:induction false} OutstandingUnion(a: map<nat, nat>, b: map<nat, nat>, n: nat)
    requires forall id :: id in a ==> id !in b
    ensures Outstanding(a + b, n, true) == Outstanding(a, n, true) + Outstanding(b, n, true)
  {
    if n > 0 {
      OutstandingUnion(a, b, n - 1);
    }
  }

  lemma {:induction false} OutstandingGrows(m: map<nat, nat>, lo: nat, hi: nat)
    requires lo <= hi
    ensures Outstanding(m, lo, true) <= Outstanding(m, hi, true)
    ensures (forall id :: id in m ==> id < lo) ==> Outstanding(m, lo, true) == Outstanding(m, hi, true)
  {
    if lo < hi {
      OutstandingGrows(m, lo, hi - 1);
    }
  }

  /** A candidate fits if everything between the cursor and the farthest slice ever looked at fits. */
  lemma CandidateFits(v: Verdicts, i: nat, id: nat, wide: nat, k: Look, count: nat, size: nat -> nat)
    requires Balanced(k, i + 1, count, size) && wide <= count && i < id < wide && id !in k.requested && id !in v.taken
    requires (forall n :: n in k.requested ==> n < wide) && v.start == k.inflight
    requires forall n :: n in v.taken ==> i < n < wide && n !in k.requested && v.taken[n] == size(n)
    ensures ReservedAt(v, id) + size(id) <= SizesBetween(size, i + 1, wide)
  {
    hide Outstanding, SizesBetween;
    var all := k.requested + v.taken;
    OutstandingGrows(k.requested, wide, count);
    OutstandingGrows(v.taken, id, wide);
    OutstandingUnion(k.requested, v.taken, wide);
    OutstandingAdd(all, wide, true, id, size(id));
    OutstandingWithin(all[id := size(id)], size, i + 1, wide);
  }

  /** With a budget for that much, no candidate is skipped. */
  lemma NothingSkipped(v: Verdicts, i: nat, end: nat, wide: nat, k: Look, limit: nat, count: nat, size: nat -> nat,
                       seen: seq<Glance>, from: nat)
    requires Covered(v, i, end, k, false, limit, size, seen, from) && end <= wide <= count
    requires Balanced(k, i + 1, count, size) && v.start == k.inflight
    requires forall id :: id in k.requested ==> id < wide
    requires limit == UNLIMITED || SizesBetween(size, i + 1, wide) <= limit
    ensures v.skipped == {}
  {
    hide Balanced, ReservedAt, Told, SizesBetween;
    if id :| id in v.skipped {
      CandidateFits(v, i, id, wide, k, count, size);
    }
  }

  /**
   * At slice i of a pass, relative to the pass's start: nothing has been asked for that is `reach` or more slices on;
   * at most every slice but the first has been asked for and reached; in mmap mode each request was useful; and with
   * room for every candidate (`roomy`) each slice but the first was asked for.
   */
  ghost predicate OnTime(k: Look, i: nat, count: nat, base: nat, baseBytes: nat, copyCache: bool, roomy: bool,
                         reach: nat, size: nat -> nat) {
    && (i == 0 ==> k.requested == map[])
    && (forall id :: id in k.requested ==> id < i + reach)
    && k.stats.useful + k.stats.unused <= base + Reached(i)
    && (!copyCache ==> k.stats.unused == 0 && k.stats.bytesUnused == 0)
    && (roomy ==> (0 < i < count ==> i in k.requested) && k.stats.useful == base + Reached(i)
                  && k.stats.bytesUseful == baseBytes + ReachedBytes(size, i) && k.stats.skipped == 0)
  }

  lemma OnTimeMet(k: Look, i: nat, count: nat, base: nat, baseBytes: nat, copyCache: bool, roomy: bool, reach: nat,
                  size: nat -> nat, met: Look, seen: seq<Glance>, from: nat)
    requires OnTime(k, i, count, base, baseBytes, copyCache, roomy, reach, size) && Balanced(k, i, count, size)
    requires Met(i, k, met, copyCache, seen, from) && (roomy ==> !copyCache) && i < count
    ensures met.stats.useful + met.stats.unused <= base + i
    ensures !copyCache ==> met.stats.unused == 0 && met.stats.bytesUnused == 0
    ensures forall id :: id in met.requested ==> id < i + reach
    ensures roomy ==> met.stats.useful == base + i && met.stats.bytesUseful == baseBytes + ReachedBytes(size, i + 1)
                      && met.stats.skipped == 0
  {
    hide Told, Outstanding;
  }

  lemma CoveredBelow(v: Verdicts, i: nat, end: nat, k: Look, copyCache: bool, limit: nat, size: nat -> nat,
                     seen: seq<Glance>, from: nat)
    requires Covered(v, i, end, k, copyCache, limit, size, seen, from)
    ensures forall id :: id in v.taken ==> id < end
    ensures !copyCache && v.skipped == {} && i + 1 < end ==> i + 1 in k.requested || i + 1 in v.taken
  {
    hide Told, ReservedAt, TooMuch;
  }

  lemma RequestsAhead(k: Look, cursor: nat, count: nat, size: nat -> nat)
    requires Balanced(k, cursor, count, size)
    ensures forall id :: id in k.requested ==> cursor <= id < count
  {
  }

  lemma BookedKeeps(v: Verdicts, end: nat, k: Look)
    ensures var b := Booked(v, end, k);
            && b.requested == k.requested + v.taken
            && b.stats.useful == k.stats.useful && b.stats.unused == k.stats.unused
            && b.stats.bytesUseful == k.stats.bytesUseful && b.stats.bytesUnused == k.stats.bytesUnused
            && b.stats.skipped == k.stats.skipped + |v.skipped|
  {
  }

  lemma OnTimeStep(k: Look, i: nat, count: nat, base: nat, baseBytes: nat, copyCache: bool, limit: nat, roomy: bool,
                   reach: nat, size: nat -> nat, met: Look, v: Verdicts, depth: nat, seen: seq<Glance>, from: nat)
    requires OnTime(k, i, count, base, baseBytes, copyCache, roomy, reach, size) && Balanced(k, i, count, size)
    requires Met(i, k, met, copyCache, seen, from) && Balanced(met, i + 1, count, size) && i < count && depth <= reach
    requires Covered(v, i, Min(i + depth + 1, count), met, copyCache, limit, size, seen, from)
    requires roomy ==> !copyCache && depth > 0 && v.start == met.inflight
    requires roomy ==> limit == UNLIMITED || SizesBetween(size, i + 1, Min(i + reach + 1, count)) <= limit
    ensures OnTime(Booked(v, Min(i + depth + 1, count), met), i + 1, count, base, baseBytes, copyCache, roomy, reach,
                   size)
  {
    hide Told, Outstanding, Met, ReservedAt, Settled, SizesBetween, ReachedBytes, Covered, Balanced, Booked;
    RequestsAhead(met, i + 1, count, size);
    BookedKeeps(v, Min(i + depth + 1, count), met);
    CoveredBelow(v, i, Min(i + depth + 1, count), met, copyCache, limit, size, seen, from);
    OnTimeMet(k, i, count, base, baseBytes, copyCache, roomy, reach, size, met, seen, from);
    if roomy {
      NothingSkipped(v, i, Min(i + depth + 1, count), Min(i + reach + 1, count), met, limit, count, size, seen, from);
    }
  }

  lemma OnTimeAgain(k: Look, count: nat, base: nat, baseBytes: nat, copyCache: bool, roomy: bool, reach: nat,
                    size: nat -> nat)
    requires OnTime(k, count, count, base, baseBytes, copyCache, roomy, reach, size) && k.requested == map[]
    ensures OnTime(k, 0, count, base + Reached(count), baseBytes + ReachedBytes(size, count), copyCache, roomy, reach,
                   size)
  {
  }

  /** The window being observed counts what happened since it was opened. */
  predicate WindowBooks(k: Look, windowStart: Stats) {
    && k.stats.useful == windowStart.useful + k.useful && k.stats.late == windowStart.late + k.late
    && k.stats.skipped == windowStart.skipped + k.skips && k.consumed == k.useful + k.late
  }

  lemma WindowStep(i: nat, k: Look, met: Look, v: Verdicts, end: nat, copyCache: bool, seen: seq<Glance>, from: nat,
                   windowStart: Stats)
    requires WindowBooks(k, windowStart) && Met(i, k, met, copyCache, seen, from)
    ensures WindowBooks(Booked(v, end, met), windowStart) && SameDepths(k, Booked(v, end, met))
  {
    hide Told, ReservedAt, Outstanding;
  }

  function Rounds(passes: nat, n: nat): nat {
    if passes == 0 then 0 else Rounds(passes - 1, n) + n
  }

  lemma {:induction false} RoundsIsProduct(passes: nat, n: nat)
    ensures Rounds(passes, n) == passes * n
  {
    if passes > 0 {
      RoundsIsProduct(passes - 1, n);
    }
  }

  /** The late requests other than the unseen ones have been asked about, and `late` holds those still in flight. */
  ghost predicate Checked(all: map<nat, nat>, late: map<nat, nat>, unseen: set<nat>, seen: seq<Glance>, from: nat) {
    forall id :: id in all && id !in unseen ==> Told(seen, from, InFlight(id, id in late))
  }

  lemma CheckNone(all: map<nat, nat>, seen: seq<Glance>)
    ensures Checked(all, all, all.Keys, seen, |seen|)
  {
  }

  lemma CheckedAll(all: map<nat, nat>, late: map<nat, nat>, seen: seq<Glance>, from: nat)
    requires Checked(all, late, {}, seen, from)
    ensures forall id :: id in all ==> Told(seen, from, InFlight(id, id in late))
  {
  }

  lemma CheckOne(all: map<nat, nat>, late: map<nat, nat>, unseen: set<nat>, seen: seq<Glance>, from: nat,
                 more: seq<Glance>, id: nat, pending: bool)
    requires Checked(all, late, unseen, seen, from) && id in late && from <= |seen|
    requires more == seen + [InFlight(id, pending)]
    ensures Checked(all, if pending then late else late - {id}, unseen - {id}, more, from)
  {
    hide Told;
    var rest := if pending then late else late - {id};
    forall n | n in all && n !in unseen - {id}
      ensures Told(more, from, InFlight(n, n in rest))
    {
      if n == id {
        LastTold(seen, from, InFlight(id, pending));
      } else {
        ToldStays(seen, from, more, from, InFlight(n, n in late));
      }
    }
  }
}
