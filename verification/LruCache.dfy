/**
 * The byte-budgeted LRU cache that the stream consumer and the prefetch worker share. After any sequence of accesses
 * with a fixed size per id, it holds exactly the longest prefix of the recency order that fits its capacity.
 */
module LruCache {
  import opened Common

  datatype Entry = Entry(data: Bytes, prefetched: bool)

  datatype Stats = Stats(hits: nat, misses: nat, evictions: nat, bytesCopied: nat)

  /** The cache: most recently used id first. */
  datatype CacheState = CacheState(capacity: nat, lru: seq<nat>, entries: map<nat, Entry>,
                                   used: nat, prefetchedUsed: nat, peakPrefetched: nat, stats: Stats)

  /** What one resident id weighs: its bytes, or only the bytes of an entry that still awaits its first use. */
  function Weight(e: map<nat, Entry>, id: nat, onlyPrefetched: bool): nat {
    if id in e && (onlyPrefetched ==> e[id].prefetched) then |e[id].data| else 0
  }

  function Sum(e: map<nat, Entry>, s: seq<nat>, onlyPrefetched: bool): nat {
    if |s| == 0 then 0 else Weight(e, s[0], onlyPrefetched) + Sum(e, s[1..], onlyPrefetched)
  }

  ghost predicate Valid(c: CacheState) {
    && Distinct(c.lru)
    && (forall id :: id in c.lru <==> id in c.entries)
    && c.used == Sum(c.entries, c.lru, false) <= c.capacity
    && c.prefetchedUsed == Sum(c.entries, c.lru, true) <= c.peakPrefetched
  }

  function EmptyCache(capacity: nat): (c: CacheState)
    ensures Valid(c)
  {
    CacheState(capacity, [], map[], 0, 0, 0, Stats(0, 0, 0, 0))
  }

  // ----- The recency list and its byte counts

  function Without(s: seq<nat>, id: nat): (r: seq<nat>)
    ensures forall x :: x in r <==> x in s && x != id
  {
    if |s| == 0 then []
    else if s[0] == id then Without(s[1..], id)
    else [s[0]] + Without(s[1..], id)
  }

  lemma {:induction false} WithoutDistinct(s: seq<nat>, id: nat)
    requires Distinct(s)
    ensures Distinct(Without(s, id))
  {
    if |s| > 0 {
      WithoutDistinct(s[1..], id);
      assert s[0] !in s[1..];
    }
  }

  lemma FrontDistinct(s: seq<nat>, id: nat)
    requires Distinct(s)
    ensures Distinct([id] + Without(s, id))
  {
    WithoutDistinct(s, id);
    var w := Without(s, id);
    forall i, j | 0 <= i < j <= |w|
      ensures ([id] + w)[i] != ([id] + w)[j]
    {
      assert w[j - 1] in w;
    }
  }

  lemma {:induction false} WithoutAbsent(s: seq<nat>, id: nat)
    requires id !in s
    ensures Without(s, id) == s
  {
    if |s| > 0 {
      WithoutAbsent(s[1..], id);
    }
  }

  lemma {:induction false} SumFrame(e1: map<nat, Entry>, e2: map<nat, Entry>, s: seq<nat>, only: bool)
    requires forall id :: id in s ==> Weight(e1, id, only) == Weight(e2, id, only)
    ensures Sum(e1, s, only) == Sum(e2, s, only)
  {
    if |s| > 0 {
      assert s[0] in s;
      SumFrame(e1, e2, s[1..], only);
    }
  }

  lemma {:induction false} SumWithout(e: map<nat, Entry>, s: seq<nat>, id: nat, only: bool)
    requires Distinct(s) && id in s
    ensures Sum(e, s, only) == Sum(e, Without(s, id), only) + Weight(e, id, only)
  {
    if s[0] == id {
      WithoutAbsent(s[1..], id);
    } else {
      SumWithout(e, s[1..], id, only);
    }
  }

  lemma {:induction false} SumLast(e: map<nat, Entry>, s: seq<nat>, only: bool)
    requires |s| > 0
    ensures Sum(e, s, only) == Sum(e, s[..|s| - 1], only) + Weight(e, s[|s| - 1], only)
  {
    if |s| > 1 {
      SumLast(e, s[1..], only);
      assert s[1..][..|s| - 2] == s[..|s| - 1][1..];
    }
  }

  // ----- Eviction

  lemma DropKeeps(e: map<nat, Entry>, s: seq<nat>, only: bool)
    requires Distinct(s) && |s| > 0
    ensures Sum(e - {s[|s| - 1]}, s[..|s| - 1], only) == Sum(e, s[..|s| - 1], only)
  {
    SumFrame(e - {s[|s| - 1]}, e, s[..|s| - 1], only);
  }

  /** The cache without its least recently used entry. */
  ghost function Dropped(c: CacheState): (r: CacheState)
    requires Valid(c) && |c.lru| > 0
    ensures Valid(r) && r.lru == c.lru[..|c.lru| - 1] && r.capacity == c.capacity
    ensures r.used == c.used - Weight(c.entries, c.lru[|c.lru| - 1], false)
  {
    var last := c.lru[|c.lru| - 1];
    var rest := c.lru[..|c.lru| - 1];
    SumLast(c.entries, c.lru, false);
    SumLast(c.entries, c.lru, true);
    DropKeeps(c.entries, c.lru, false);
    DropKeeps(c.entries, c.lru, true);
    c.(lru := rest, entries := c.entries - {last}, used := c.used - Weight(c.entries, last, false),
       prefetchedUsed := c.prefetchedUsed - Weight(c.entries, last, true),
       stats := c.stats.(evictions := c.stats.evictions + 1))
  }

  /** evict_for: drop from the back until the incoming bytes fit or nothing is left. */
  ghost function Evicted(c: CacheState, incoming: nat): (r: CacheState)
    requires Valid(c)
    ensures Valid(r) && r.lru <= c.lru && r.capacity == c.capacity
    ensures incoming <= c.capacity ==> incoming <= r.capacity - r.used
    decreases |c.lru|
  {
    if incoming <= c.capacity - c.used || |c.lru| == 0 then c else Evicted(Dropped(c), incoming)
  }

  // ----- The operations

  ghost function WithEntry(c: CacheState, id: nat, data: Bytes, prefetched: bool): CacheState {
    var pre := c.prefetchedUsed + if prefetched then |data| else 0;
    c.(lru := [id] + c.lru, entries := c.entries[id := Entry(data, prefetched)], used := c.used + |data|,
        prefetchedUsed := pre,
       peakPrefetched := if prefetched then Max(c.peakPrefetched, pre) else c.peakPrefetched,
       stats := c.stats.(bytesCopied := c.stats.bytesCopied + |data|))
  }

  lemma EntryInFront(e: map<nat, Entry>, s: seq<nat>, id: nat, data: Bytes, prefetched: bool, only: bool)
    requires id !in s
    ensures Sum(e[id := Entry(data, prefetched)], [id] + s, only)
         == Sum(e, s, only) + if only && !prefetched then 0 else |data|
  {
    SumFrame(e[id := Entry(data, prefetched)], e, s, only);
    assert ([id] + s)[1..] == s;
  }

  lemma WithEntryValid(c: CacheState, id: nat, data: Bytes, prefetched: bool)
    requires Valid(c) && id !in c.entries && |data| <= c.capacity - c.used
    ensures Valid(WithEntry(c, id, data, prefetched))
  {
    var r := WithEntry(c, id, data, prefetched);
    EntryInFront(c.entries, c.lru, id, data, prefetched, false);
    EntryInFront(c.entries, c.lru, id, data, prefetched, true);
    assert forall x :: x in r.lru <==> x in r.entries;
  }

  ghost function Added(c: CacheState, id: nat, data: Bytes, prefetched: bool): (r: CacheState)
    requires Valid(c) && id !in c.entries && |data| <= c.capacity - c.used
    ensures Valid(r) && r.lru == [id] + c.lru && r.capacity == c.capacity
  {
    WithEntryValid(c, id, data, prefetched);
    WithEntry(c, id, data, prefetched)
  }

  ghost function InFront(c: CacheState, id: nat): CacheState
    requires id in c.entries && c.prefetchedUsed >= Weight(c.entries, id, true)
  {
    c.(lru := [id] + Without(c.lru, id), entries := c.entries[id := c.entries[id].(prefetched := false)],
       prefetchedUsed := c.prefetchedUsed - Weight(c.entries, id, true),
       stats := c.stats.(hits := c.stats.hits + 1))
  }

  lemma MovedInFront(e: map<nat, Entry>, s: seq<nat>, id: nat, only: bool)
    requires Distinct(s) && id in s && id in e
    ensures Sum(e[id := e[id].(prefetched := false)], [id] + Without(s, id), only)
         == Sum(e, s, only) - if only then Weight(e, id, true) else 0
  {
    SumWithout(e, s, id, only);
    SumFrame(e[id := e[id].(prefetched := false)], e, Without(s, id), only);
    assert ([id] + Without(s, id))[1..] == Without(s, id);
  }

  lemma InFrontValid(c: CacheState, id: nat)
    requires Valid(c) && id in c.entries
    ensures c.prefetchedUsed >= Weight(c.entries, id, true) && Valid(InFront(c, id))
  {
    SumWithout(c.entries, c.lru, id, true);
    MovedInFront(c.entries, c.lru, id, false);
    MovedInFront(c.entries, c.lru, id, true);
    WithoutDistinct(c.lru, id);
  }

  ghost function Touched(c: CacheState, id: nat): (r: CacheState)
    requires Valid(c) && id in c.entries
    ensures Valid(r) && r.lru == [id] + Without(c.lru, id) && r.capacity == c.capacity
  {
    InFrontValid(c, id);
    InFront(c, id)
  }

  /** What a caller passes: where the bytes are, and how many. A null source is only legal for no bytes. */
  predicate SourceMatches(src: Option<Bytes>, bytes: nat) {
    src.Some? ==> |src.value| == bytes
  }

  function CopyOf(src: Option<Bytes>): Bytes {
    if src.Some? then src.value else []
  }

  ghost function Missed(c: CacheState): (r: CacheState)
    requires Valid(c)
    ensures Valid(r)
  {
    c.(stats := c.stats.(misses := c.stats.misses + 1))
  }

  ghost function Load(c: CacheState, id: nat, src: Option<Bytes>, bytes: nat): (r: (CacheState, Result<Bytes>))
    requires Valid(c) && SourceMatches(src, bytes)
    ensures Valid(r.0) && r.0.capacity == c.capacity
  {
    if id in c.entries then (Touched(c, id), Ok(c.entries[id].data))
    else
      var missed := Missed(c);
      if bytes > c.capacity then (missed, Err("tensor larger than cache capacity"))
      else if bytes > U64_MAX then (missed, Err("tensor too large for address space"))
      else if bytes > 0 && src.None? then (missed, Err("null tensor source"))
      else (Added(Evicted(missed, bytes), id, CopyOf(src), false), Ok(CopyOf(src)))
  }

  ghost function Prefetched(c: CacheState, id: nat, src: Option<Bytes>, bytes: nat): (r: (CacheState, Result<()>))
    requires Valid(c) && SourceMatches(src, bytes)
    ensures Valid(r.0) && r.0.capacity == c.capacity
  {
    if id in c.entries || bytes > c.capacity || bytes > U64_MAX then (c, Ok(()))
    else if bytes > 0 && src.None? then (c, Err("null tensor source"))
    else (Added(Evicted(c, bytes), id, CopyOf(src), true), Ok(()))
  }

  /** Each eviction counts one, and moves nothing else in the statistics. */
  lemma {:induction false} EvictedTally(c: CacheState, incoming: nat)
    requires Valid(c)
    ensures var r := Evicted(c, incoming);
            && r.stats == c.stats.(evictions := c.stats.evictions + |c.lru| - |r.lru|)
            && r.peakPrefetched == c.peakPrefetched && r.prefetchedUsed <= c.prefetchedUsed
    decreases |c.lru|
  {
    hide Valid, Sum, Without;
    if !(incoming <= c.capacity && c.capacity - c.used >= incoming) && |c.lru| > 0 {
      EvictedTally(Dropped(c), incoming);
    }
  }

  /** A prefetched insertion is neither a hit nor a miss. */
  lemma PrefetchTally(c: CacheState, id: nat, src: Option<Bytes>, bytes: nat)
    requires Valid(c) && SourceMatches(src, bytes)
    ensures Prefetched(c, id, src, bytes).0.stats.hits == c.stats.hits
    ensures Prefetched(c, id, src, bytes).0.stats.misses == c.stats.misses
  {
    hide Valid, Evicted, Sum;
    EvictedTally(c, bytes);
  }

  /** A load is one hit, if the slice was resident, or one miss. */
  lemma LoadTally(c: CacheState, id: nat, src: Option<Bytes>, bytes: nat)
    requires Valid(c) && SourceMatches(src, bytes)
    ensures Load(c, id, src, bytes).0.stats.hits == c.stats.hits + if id in c.entries then 1 else 0
    ensures Load(c, id, src, bytes).0.stats.misses == c.stats.misses + if id in c.entries then 0 else 1
  {
    hide Valid, Evicted, Sum;
    if id !in c.entries {
      EvictedTally(Missed(c), bytes);
    }
  }

  /** A load fails exactly for a missing slice that cannot be cached or has no source; else the slice is in front. */
  lemma LoadOutcome(c: CacheState, id: nat, src: Option<Bytes>, bytes: nat)
    requires Valid(c) && SourceMatches(src, bytes)
    ensures var r := Load(c, id, src, bytes);
            && (r.1.Err? <==>
                  id !in c.entries && (bytes > c.capacity || bytes > U64_MAX || (bytes != 0 && src == None)))
            && (r.1.Err? ==> r.0.lru == c.lru && r.0.entries == c.entries && r.0.used == c.used)
            && (r.1.Ok? ==> |r.0.lru| > 0 && r.0.lru[0] == id && id in r.0.entries
                            && r.0.entries[id] == Entry(r.1.value, false))
            && (r.1.Ok? ==> r.1.value == if id in c.entries then c.entries[id].data
                                          else if bytes == 0 then [] else src.value)
  {
    hide Valid, Evicted, Sum, Without;
  }

  /** A prefetched slice that is missing and fits goes in front, marked; one without a source is refused. */
  lemma PrefetchOutcome(c: CacheState, id: nat, src: Option<Bytes>, bytes: nat)
    requires Valid(c) && SourceMatches(src, bytes)
    ensures var r, fits := Prefetched(c, id, src, bytes), id !in c.entries && bytes <= c.capacity && bytes <= U64_MAX;
            && (r.1.Err? <==> fits && bytes != 0 && src == None)
            && (!fits || r.1.Err? ==> r.0 == c)
            && (fits && r.1.Ok? ==> |r.0.lru| > 0 && r.0.lru[0] == id && id in r.0.entries
                                    && r.0.entries[id] == Entry(if bytes == 0 then [] else src.value, true))
  {
    hide Valid, Evicted, Sum, Without;
  }

  lemma EvictedLacks(c: CacheState, id: nat, incoming: nat)
    requires Valid(c) && id !in c.entries
    ensures id !in Evicted(c, incoming).entries
  {
    assert id !in Evicted(c, incoming).lru;
  }

  /** Clearing the flag of an entry that never had it changes nothing. */
  lemma FlagCleared(e: map<nat, Entry>, id: nat)
    requires id in e
    ensures e[id := e[id].(prefetched := false)] == if e[id].prefetched then e[id := Entry(e[id].data, false)] else e
  {
  }

  // ----- The cache object

  class TensorCache {
    const capacity: nat
    var used: nat
    var prefetchedUsed: nat
    var peakPrefetched: nat
    var lru: seq<nat>
    var entries: map<nat, Entry>
    var hits: nat
    var misses: nat
    var evictions: nat
    var bytesCopied: nat

    ghost function Value(): CacheState
      reads this
    {
      CacheState(capacity, lru, entries, used, prefetchedUsed, peakPrefetched,
          Stats(hits, misses, evictions, bytesCopied))
    }

    constructor (cap: nat)
      ensures Value() == EmptyCache(cap)
    {
      capacity, used, prefetchedUsed, peakPrefetched := cap, 0, 0, 0;
      lru, entries := [], map[];
      hits, misses, evictions, bytesCopied := 0, 0, 0, 0;
    }

    /** One round of eviction: the least recently used entry goes. */
    method DropLast()
      requires Valid(Value()) && |lru| > 0
      modifies this
      ensures Value() == Dropped(old(Value()))
    {
      hide Distinct;
      var id := lru[|lru| - 1];
      SumLast(entries, lru, false);
      SumLast(entries, lru, true);
      var bytes := |entries[id].data|;
      if entries[id].prefetched {
        prefetchedUsed := prefetchedUsed - bytes;
      }
      used := used - bytes;
      lru := lru[..|lru| - 1];
      entries := entries - {id};
      evictions := evictions + 1;
    }

    method EvictFor(incoming: nat)
      requires Valid(Value())
      modifies this
      ensures Value() == Evicted(old(Value()), incoming)
    {
      hide Sum, Distinct, Dropped;
      while incoming > capacity - used && |lru| > 0
        invariant Valid(Value()) && Evicted(Value(), incoming) == Evicted(old(Value()), incoming)
        decreases |lru|
      {
        DropLast();
      }
    }

    /** A hit: the entry's first use ends its prefetched state, and it becomes the most recent. */
    method Promote(id: nat) returns (data: Bytes)
      requires Valid(Value()) && id in entries
      modifies this
      ensures Value() == Touched(old(Value()), id) && data == old(entries)[id].data
    {
      hide Distinct, Without, Sum, Valid;
      FlagCleared(entries, id);
      InFrontValid(Value(), id);
      hits := hits + 1;
      data := entries[id].data;
      if entries[id].prefetched {
        prefetchedUsed := prefetchedUsed - |data|;
        entries := entries[id := Entry(data, false)];
      }
      lru := [id] + Without(lru, id);
    }

    /** A miss that fits: make room, copy, put in front. */
    method Place(id: nat, src: Option<Bytes>, bytes: nat, prefetched: bool)
      requires Valid(Value()) && id !in entries && bytes <= capacity && |CopyOf(src)| == bytes
      modifies this
      ensures id !in Evicted(old(Value()), bytes).entries
      ensures Value() == Added(Evicted(old(Value()), bytes), id, CopyOf(src), prefetched)
    {
      hide Distinct, Evicted, Sum;
      EvictedLacks(Value(), id, bytes);
      EvictFor(bytes);
      var data := CopyOf(src);
      bytesCopied := bytesCopied + bytes;
      lru := [id] + lru;
      entries := entries[id := Entry(data, prefetched)];
      used := used + bytes;
      if prefetched {
        prefetchedUsed := prefetchedUsed + bytes;
        peakPrefetched := Max(peakPrefetched, prefetchedUsed);
      }
    }

    method GetOrLoad(id: nat, src: Option<Bytes>, bytes: nat) returns (r: Result<Bytes>)
      requires Valid(Value()) && SourceMatches(src, bytes)
      modifies this
      ensures (Value(), r) == Load(old(Value()), id, src, bytes)
    {
      hide Evicted, Sum, Distinct, Added, Touched;
      if id in entries {
        var data := Promote(id);
        return Ok(data);
      }
      misses := misses + 1;
      assert Value() == Missed(old(Value()));
      if bytes > capacity {
        return Err("tensor larger than cache capacity");
      }
      if bytes > U64_MAX {
        return Err("tensor too large for address space");
      }
      if bytes > 0 && src.None? {
        return Err("null tensor source");
      }
      Place(id, src, bytes, false);
      return Ok(CopyOf(src));
    }

    method Contains(id: nat) returns (r: bool)
      ensures r <==> id in Value().entries
    {
      r := id in entries;
    }

    method InsertPrefetched(id: nat, src: Option<Bytes>, bytes: nat) returns (r: Result<()>)
      requires Valid(Value()) && SourceMatches(src, bytes)
      modifies this
      ensures (Value(), r) == Prefetched(old(Value()), id, src, bytes)
    {
      hide Evicted, Sum, Distinct, Added;
      if id in entries || bytes > capacity || bytes > U64_MAX {
        return Ok(());
      }
      if bytes > 0 && src.None? {
        return Err("null tensor source");
      }
      Place(id, src, bytes, true);
      return Ok(());
    }
  }

  // ----- The resident list is the longest prefix of the recency order that fits

  /** Every resident entry is a copy of its slice. */
  ghost predicate Holds(c: CacheState, src: nat -> Bytes) {
    forall id :: id in c.entries ==> c.entries[id].data == src(id)
  }

  function Total(src: nat -> Bytes, s: seq<nat>): nat {
    if |s| == 0 then 0 else |src(s[0])| + Total(src, s[1..])
  }

  /** The longest prefix whose total size is at most cap. */
  function Fit(src: nat -> Bytes, order: seq<nat>, cap: nat): (r: seq<nat>)
    ensures r <= order
  {
    if |order| == 0 || |src(order[0])| > cap then [] else [order[0]] + Fit(src, order[1..], cap - |src(order[0])|)
  }

  /** Fit is what its name says: it fits, and one more element would not. */
  lemma {:induction false} FitIsLongest(src: nat -> Bytes, order: seq<nat>, cap: nat)
    ensures Total(src, Fit(src, order, cap)) <= cap
    ensures forall n :: 0 <= n <= |order| && Total(src, order[..n]) <= cap ==> n <= |Fit(src, order, cap)|
  {
    if |order| > 0 {
      if |src(order[0])| <= cap {
        FitIsLongest(src, order[1..], cap - |src(order[0])|);
      }
      forall n | 0 <= n <= |order| && Total(src, order[..n]) <= cap
        ensures n <= |Fit(src, order, cap)|
      {
        if n > 0 {
          assert order[..n][1..] == order[1..][..n - 1];
        }
      }
    }
  }

  lemma {:induction false} FitAll(src: nat -> Bytes, s: seq<nat>, cap: nat)
    requires Total(src, s) <= cap
    ensures Fit(src, s, cap) == s
  {
    if |s| > 0 {
      FitAll(src, s[1..], cap - |src(s[0])|);
    }
  }

  /** An overfull list fits the same prefix with or without its last element. */
  lemma {:induction false} FitDropLast(src: nat -> Bytes, s: seq<nat>, cap: nat)
    requires |s| > 0 && Total(src, s) > cap
    ensures Fit(src, s, cap) == Fit(src, s[..|s| - 1], cap)
  {
    if |s| > 1 && |src(s[0])| <= cap {
      FitDropLast(src, s[1..], cap - |src(s[0])|);
      assert s[1..][..|s| - 2] == s[..|s| - 1][1..];
    }
  }

  /** A smaller budget keeps a prefix of what a larger one keeps. */
  lemma {:induction false} FitOfFit(src: nat -> Bytes, order: seq<nat>, cap: nat, less: nat)
    requires less <= cap
    ensures Fit(src, Fit(src, order, cap), less) == Fit(src, order, less)
    ensures Fit(src, order, less) <= Fit(src, order, cap)
  {
    if |order| > 0 && |src(order[0])| <= cap {
      assert Fit(src, order, cap)[1..] == Fit(src, order[1..], cap - |src(order[0])|);
      if |src(order[0])| <= less {
        FitOfFit(src, order[1..], cap - |src(order[0])|, less - |src(order[0])|);
      }
    }
  }

  lemma WithoutCons(h: nat, rest: seq<nat>, id: nat)
    ensures Without([h] + rest, id) == if h == id then Without(rest, id) else [h] + Without(rest, id)
  {
    assert ([h] + rest)[1..] == rest;
  }

  lemma FitStep(src: nat -> Bytes, order: seq<nat>, cap: nat)
    requires |order| > 0
    ensures Fit(src, order, cap)
         == if |src(order[0])| > cap then [] else [order[0]] + Fit(src, order[1..], cap - |src(order[0])|)
  {
  }

  lemma FitCons(src: nat -> Bytes, id: nat, rest: seq<nat>, cap: nat)
    requires |src(id)| <= cap
    ensures Fit(src, [id] + rest, cap) == [id] + Fit(src, rest, cap - |src(id)|)
  {
    assert ([id] + rest)[1..] == rest;
  }

  /** An id that did not fit, and that the smaller budget makes room for, is not in the way. */
  lemma {:induction false} FitSkips(src: nat -> Bytes, order: seq<nat>, cap: nat, less: nat, id: nat)
    requires id !in Fit(src, order, cap) && less + |src(id)| <= cap
    ensures Fit(src, Without(order, id), less) == Fit(src, order, less)
  {
    hide Fit, Without;
    if |order| > 0 {
      var h, rest := order[0], order[1..];
      assert order == [h] + rest;
      WithoutCons(h, rest, id);
      FitStep(src, order, cap);
      FitStep(src, order, less);
      if |src(h)| <= less {
        FitSkips(src, rest, cap - |src(h)|, less - |src(h)|, id);
        FitCons(src, h, Without(rest, id), less);
      } else {
        FitStep(src, [h] + Without(rest, id), less);
      }
    } else {
      WithoutAbsent(order, id);
    }
  }

  lemma FitHead(src: nat -> Bytes, order: seq<nat>, cap: nat)
    requires |Fit(src, order, cap)| > 0
    ensures |order| > 0 && |src(order[0])| <= cap
    ensures Fit(src, order, cap) == [order[0]] + Fit(src, order[1..], cap - |src(order[0])|)
  {
  }

  /** Taking a resident id out of the list leaves room for exactly its bytes. */
  lemma {:induction false} FitWithout(src: nat -> Bytes, order: seq<nat>, cap: nat, id: nat)
    requires Distinct(order) && id in Fit(src, order, cap)
    ensures |src(id)| <= cap
    ensures Fit(src, Without(order, id), cap - |src(id)|) == Without(Fit(src, order, cap), id)
  {
    hide Distinct, Fit, Without;
    FitHead(src, order, cap);
    TailDistinct(order);
    var h, rest := order[0], order[1..];
    var fit := Fit(src, rest, cap - |src(h)|);
    assert order == [h] + rest;
    WithoutCons(h, rest, id);
    WithoutCons(h, fit, id);
    if h == id {
      WithoutAbsent(rest, id);
      WithoutAbsent(fit, id);
    } else {
      FitWithout(src, rest, cap - |src(h)|, id);
      FitCons(src, h, Without(rest, id), cap - |src(id)|);
    }
  }

  // ----- Runs

  datatype Op = Use(id: nat) | Ahead(id: nat)

  /** One operation, whose source is the id's slice. */
  ghost function Step(c: CacheState, src: nat -> Bytes, op: Op): (r: CacheState)
    requires Valid(c)
    ensures Valid(r) && r.capacity == c.capacity
  {
    match op
    case Use(id) => Load(c, id, Some(src(id)), |src(id)|).0
    case Ahead(id) => Prefetched(c, id, Some(src(id)), |src(id)|).0
  }

  ghost function Run(cap: nat, src: nat -> Bytes, ops: seq<Op>): (r: CacheState)
    ensures Valid(r) && r.capacity == cap
  {
    if |ops| == 0 then EmptyCache(cap) else Step(Run(cap, src, ops[..|ops| - 1]), src, ops[|ops| - 1])
  }

  function Reordered(cap: nat, src: nat -> Bytes, order: seq<nat>, op: Op): seq<nat> {
    if |src(op.id)| > cap || (op.Ahead? && op.id in Fit(src, order, cap)) then order
    else [op.id] + Without(order, op.id)
  }

  /**
   * The recency order: a use moves its id to the front, a prefetch does so only when the id is not resident. Ids larger
   * than the cache never enter it.
   */
  function Order(cap: nat, src: nat -> Bytes, ops: seq<Op>): seq<nat> {
    if |ops| == 0 then []
    else Reordered(cap, src, Order(cap, src, ops[..|ops| - 1]), ops[|ops| - 1])
  }

  lemma {:induction false} SumIsTotal(c: CacheState, src: nat -> Bytes, s: seq<nat>)
    requires Holds(c, src) && forall id :: id in s ==> id in c.entries
    ensures Sum(c.entries, s, false) == Total(src, s)
  {
    if |s| > 0 {
      assert s[0] in s;
      SumIsTotal(c, src, s[1..]);
    }
  }

  lemma UsedIsTotal(c: CacheState, src: nat -> Bytes)
    requires Valid(c) && Holds(c, src)
    ensures c.used == Total(src, c.lru)
  {
    SumIsTotal(c, src, c.lru);
  }

  lemma DroppedHolds(c: CacheState, src: nat -> Bytes)
    requires Valid(c) && Holds(c, src) && |c.lru| > 0
    ensures Holds(Dropped(c), src)
  {
  }

  lemma TouchedHolds(c: CacheState, src: nat -> Bytes, id: nat)
    requires Valid(c) && Holds(c, src) && id in c.entries
    ensures Holds(Touched(c, id), src)
  {
  }

  lemma AddedHolds(c: CacheState, src: nat -> Bytes, id: nat, prefetched: bool)
    requires Valid(c) && Holds(c, src) && id !in c.entries && |src(id)| <= c.capacity - c.used
    ensures Holds(Added(c, id, src(id), prefetched), src)
  {
  }

  /** Eviction keeps the longest prefix that leaves room for the incoming bytes. */
  lemma {:induction false} EvictedFits(c: CacheState, src: nat -> Bytes, incoming: nat)
    requires Valid(c) && Holds(c, src) && incoming <= c.capacity
    ensures Holds(Evicted(c, incoming), src)
    ensures Evicted(c, incoming).lru == Fit(src, c.lru, c.capacity - incoming)
    decreases |c.lru|
  {
    hide Valid, Dropped, Holds, Fit;
    UsedIsTotal(c, src);
    if incoming <= c.capacity - c.used || |c.lru| == 0 {
      FitAll(src, c.lru, c.capacity - incoming);
    } else {
      DroppedHolds(c, src);
      EvictedFits(Dropped(c), src, incoming);
      FitDropLast(src, c.lru, c.capacity - incoming);
    }
  }

  /** The state that a run promises: copies of slices, listed as the longest fitting prefix of the order. */
  ghost predicate Resident(c: CacheState, src: nat -> Bytes, order: seq<nat>) {
    Valid(c) && Holds(c, src) && Distinct(order) && c.lru == Fit(src, order, c.capacity)
  }

  lemma ResidentIds(c: CacheState, src: nat -> Bytes, order: seq<nat>, id: nat)
    requires Resident(c, src, order)
    ensures id in c.entries <==> id in Fit(src, order, c.capacity)
  {
  }

  lemma UseHit(c: CacheState, src: nat -> Bytes, order: seq<nat>, id: nat)
    requires Resident(c, src, order) && id in c.entries
    ensures |src(id)| <= c.capacity
    ensures Resident(Touched(c, id), src, [id] + Without(order, id))
  {
    hide Valid, Holds, Distinct, Fit, Without, Touched;
    ResidentIds(c, src, order, id);
    TouchedHolds(c, src, id);
    FitWithout(src, order, c.capacity, id);
    FitCons(src, id, Without(order, id), c.capacity);
    FrontDistinct(order, id);
  }

  lemma BringIn(c: CacheState, src: nat -> Bytes, order: seq<nat>, id: nat, prefetched: bool)
    requires Resident(c, src, order) && id !in c.entries && |src(id)| <= c.capacity
    ensures id !in Evicted(c, |src(id)|).entries
    ensures Resident(Added(Evicted(c, |src(id)|), id, src(id), prefetched), src, [id] + Without(order, id))
  {
    hide Valid, Holds, Distinct, Fit, Without, Added, Evicted;
    var size := |src(id)|;
    ResidentIds(c, src, order, id);
    EvictedLacks(c, id, size);
    EvictedFits(c, src, size);
    AddedHolds(Evicted(c, size), src, id, prefetched);
    FitOfFit(src, order, c.capacity, c.capacity - size);
    FitSkips(src, order, c.capacity, c.capacity - size, id);
    FitCons(src, id, Without(order, id), c.capacity);
    FrontDistinct(order, id);
  }

  /** A prefetched copy of its slice keeps the contents right. */
  lemma PrefetchHolds(c: CacheState, src: nat -> Bytes, id: nat)
    requires Valid(c) && Holds(c, src)
    ensures Holds(Prefetched(c, id, Some(src(id)), |src(id)|).0, src)
  {
    hide Valid, Holds, Evicted, Added;
    if id !in c.entries && |src(id)| <= c.capacity {
      EvictedFits(c, src, |src(id)|);
      EvictedLacks(c, id, |src(id)|);
      AddedHolds(Evicted(c, |src(id)|), src, id, true);
    }
  }

  /** A load returns the slice's bytes and keeps the contents right; it fails exactly when the slice is too large. */
  lemma LoadHolds(c: CacheState, src: nat -> Bytes, id: nat)
    requires Valid(c) && Holds(c, src)
    ensures Holds(Load(c, id, Some(src(id)), |src(id)|).0, src)
    ensures Load(c, id, Some(src(id)), |src(id)|).1.Ok? ==> Load(c, id, Some(src(id)), |src(id)|).1 == Ok(src(id))
    ensures |src(id)| <= c.capacity <= U64_MAX ==> Load(c, id, Some(src(id)), |src(id)|).1.Ok?
  {
    hide Valid, Evicted, Added, Touched;
    if id in c.entries {
      TouchedHolds(c, src, id);
    } else if |src(id)| <= c.capacity {
      EvictedFits(Missed(c), src, |src(id)|);
      EvictedLacks(Missed(c), id, |src(id)|);
      AddedHolds(Evicted(Missed(c), |src(id)|), src, id, false);
    }
  }

  lemma StepResident(c: CacheState, src: nat -> Bytes, order: seq<nat>, op: Op)
    requires Resident(c, src, order) && c.capacity <= U64_MAX
    ensures Resident(Step(c, src, op), src, Reordered(c.capacity, src, order, op))
  {
    hide Sum, Fit, Without, Distinct, Evicted, Added, Touched;
    ResidentIds(c, src, order, op.id);
    if op.id in c.entries {
      UseHit(c, src, order, op.id);
    } else if |src(op.id)| <= c.capacity {
      BringIn(if op.Use? then Missed(c) else c, src, order, op.id, op.Ahead?);
    }
  }

  /** Any run of uses and prefetches: the resident list is the longest prefix of the recency order that fits. */
  lemma {:induction false} RunResident(cap: nat, src: nat -> Bytes, ops: seq<Op>)
    requires cap <= U64_MAX
    ensures Resident(Run(cap, src, ops), src, Order(cap, src, ops))
  {
    if |ops| > 0 {
      RunResident(cap, src, ops[..|ops| - 1]);
      StepResident(Run(cap, src, ops[..|ops| - 1]), src, Order(cap, src, ops[..|ops| - 1]), ops[|ops| - 1]);
    }
  }

  // ----- A larger cache

  ghost predicate OnlyUses(ops: seq<Op>, src: nat -> Bytes, cap: nat) {
    forall i :: 0 <= i < |ops| ==> ops[i].Use? && |src(ops[i].id)| <= cap
  }

  /** Without prefetches, and with every slice small enough, the order is by last access: capacity has no say. */
  lemma {:induction false} OrderIsRecency(cap: nat, more: nat, src: nat -> Bytes, ops: seq<Op>)
    requires cap <= more && OnlyUses(ops, src, cap)
    ensures Order(cap, src, ops) == Order(more, src, ops)
  {
    if |ops| > 0 {
      OrderIsRecency(cap, more, src, ops[..|ops| - 1]);
    }
  }

  lemma SmallerHolds(a: CacheState, b: CacheState, id: nat)
    requires Valid(a) && Valid(b) && a.lru <= b.lru && id in a.entries
    ensures id in b.entries
  {
  }

  lemma LoadCounts(c: CacheState, src: nat -> Bytes, id: nat)
    requires Valid(c)
    ensures var hit := if id in c.entries then 1 else 0;
            && Step(c, src, Use(id)).stats.hits == c.stats.hits + hit
            && Step(c, src, Use(id)).stats.misses == c.stats.misses + 1 - hit
  {
    hide Valid, Load;
    LoadTally(c, id, Some(src(id)), |src(id)|);
  }

  /** Hits and accesses: every access within capacity counts once, as a hit exactly when the id was resident. */
  lemma {:induction false} LargerCacheHitsMore(cap: nat, more: nat, src: nat -> Bytes, ops: seq<Op>)
    requires cap <= more <= U64_MAX && OnlyUses(ops, src, cap)
    ensures Run(cap, src, ops).lru <= Run(more, src, ops).lru
    ensures Run(cap, src, ops).stats.hits <= Run(more, src, ops).stats.hits
    ensures Run(cap, src, ops).stats.hits + Run(cap, src, ops).stats.misses == |ops|
  {
    hide Valid, Holds, Distinct, Fit, Order, Load;
    RunResident(cap, src, ops);
    RunResident(more, src, ops);
    OrderIsRecency(cap, more, src, ops);
    FitOfFit(src, Order(cap, src, ops), more, cap);
    if |ops| > 0 {
      LargerCacheHitsMore(cap, more, src, ops[..|ops| - 1]);
      var a, b := Run(cap, src, ops[..|ops| - 1]), Run(more, src, ops[..|ops| - 1]);
      var id := ops[|ops| - 1].id;
      if id in a.entries {
        SmallerHolds(a, b, id);
      }
      LoadCounts(a, src, id);
      LoadCounts(b, src, id);
    }
  }

  // ----- The statistics of a run

  /** The ids that a run's operations copied into the cache, in order: those that were missing and fit. */
  ghost function Inserted(cap: nat, src: nat -> Bytes, ops: seq<Op>): seq<nat> {
    if |ops| == 0 then []
    else
      var before, id := ops[..|ops| - 1], ops[|ops| - 1].id;
      Inserted(cap, src, before)
      + if id !in Run(cap, src, before).entries && |src(id)| <= cap && |src(id)| <= U64_MAX then [id] else []
  }

  /** How many of the operations used a slice that was resident, or was not. */
  ghost function Uses(cap: nat, src: nat -> Bytes, ops: seq<Op>, resident: bool): nat {
    if |ops| == 0 then 0
    else
      var before, op := ops[..|ops| - 1], ops[|ops| - 1];
      Uses(cap, src, before, resident)
      + if op.Use? && (op.id in Run(cap, src, before).entries) == resident then 1 else 0
  }

  /** The most bytes that were ever prefetched and not yet used. */
  ghost function Peak(cap: nat, src: nat -> Bytes, ops: seq<Op>): nat {
    if |ops| == 0 then 0
    else Max(Peak(cap, src, ops[..|ops| - 1]), Run(cap, src, ops).prefetchedUsed)
  }

  lemma InsertTally(c: CacheState, id: nat, data: Bytes, prefetched: bool)
    requires Valid(c) && id !in c.entries && |data| <= c.capacity
    ensures var r := Added(Evicted(c, |data|), id, data, prefetched);
            && r.stats.evictions + |r.lru| == c.stats.evictions + |c.lru| + 1
            && r.stats.bytesCopied == c.stats.bytesCopied + |data|
            && r.peakPrefetched == (if prefetched then Max(c.peakPrefetched, r.prefetchedUsed) else c.peakPrefetched)
            && (!prefetched ==> r.prefetchedUsed <= c.prefetchedUsed)
  {
    hide Valid, Sum, Without;
    EvictedTally(c, |data|);
  }

  lemma {:induction false} WithoutLength(s: seq<nat>, id: nat)
    requires Distinct(s) && id in s
    ensures |Without(s, id)| == |s| - 1
  {
    TailDistinct(s);
    if s[0] == id {
      WithoutAbsent(s[1..], id);
    } else {
      WithoutLength(s[1..], id);
    }
  }

  lemma TouchTally(c: CacheState, id: nat)
    requires Valid(c) && id in c.entries
    ensures var r := Touched(c, id);
            && r.stats.evictions + |r.lru| == c.stats.evictions + |c.lru| && r.stats.bytesCopied == c.stats.bytesCopied
            && r.peakPrefetched == c.peakPrefetched && r.prefetchedUsed <= c.prefetchedUsed
  {
    hide Sum;
    WithoutLength(c.lru, id);
  }

  lemma StepTally(c: CacheState, src: nat -> Bytes, op: Op)
    requires Valid(c)
    ensures var r, id := Step(c, src, op), op.id;
            var inserts := id !in c.entries && |src(id)| <= c.capacity && |src(id)| <= U64_MAX;
            && r.stats.evictions + |r.lru| == c.stats.evictions + |c.lru| + (if inserts then 1 else 0)
            && r.stats.bytesCopied == c.stats.bytesCopied + (if inserts then |src(id)| else 0)
            && (c.prefetchedUsed <= c.peakPrefetched ==> r.peakPrefetched == Max(c.peakPrefetched, r.prefetchedUsed))
  {
    hide Valid, Sum, Without, Evicted, Added, Touched;
    var id, data := op.id, src(op.id);
    if id in c.entries {
      TouchTally(c, id);
    } else if |data| <= c.capacity && |data| <= U64_MAX {
      InsertTally(Missed(c), id, data, false);
      InsertTally(c, id, data, true);
    }
  }

  lemma PeakIsAbove(c: CacheState)
    requires Valid(c)
    ensures c.prefetchedUsed <= c.peakPrefetched
  {
  }

  lemma TotalSnoc(src: nat -> Bytes, s: seq<nat>, id: nat)
    ensures Total(src, s + [id]) == Total(src, s) + |src(id)|
    decreases |s|
  {
    if |s| > 0 {
      TotalSnoc(src, s[1..], id);
      assert (s + [id])[1..] == s[1..] + [id];
    }
  }

  lemma TotalNone(src: nat -> Bytes)
    ensures Total(src, []) == 0
  {
  }

  lemma UseTally(c: CacheState, src: nat -> Bytes, op: Op)
    requires Valid(c)
    ensures var r := Step(c, src, op);
            && r.stats.hits == c.stats.hits + (if op.Use? && op.id in c.entries then 1 else 0)
            && r.stats.misses == c.stats.misses + (if op.Use? && op.id !in c.entries then 1 else 0)
  {
    hide Valid, Load, Prefetched;
    LoadTally(c, op.id, Some(src(op.id)), |src(op.id)|);
    PrefetchTally(c, op.id, Some(src(op.id)), |src(op.id)|);
  }

  /**
   * The statistics after any run: what was copied in is still resident or was evicted, and its bytes were counted; each
   * use was a hit or a miss; and the peak is the most that was ever prefetched and unused.
   */
  lemma {:induction false} StatsAddUp(cap: nat, src: nat -> Bytes, ops: seq<Op>)
    ensures var c, inserted := Run(cap, src, ops), Inserted(cap, src, ops);
            && c.stats.evictions + |c.lru| == |inserted|
            && c.stats.bytesCopied == Total(src, inserted)
            && c.stats.hits == Uses(cap, src, ops, true) && c.stats.misses == Uses(cap, src, ops, false)
            && c.peakPrefetched == Peak(cap, src, ops)
  {
    hide Valid, Total, Load, Prefetched;
    if |ops| == 0 {
      TotalNone(src);
    } else {
      var before, op := ops[..|ops| - 1], ops[|ops| - 1];
      StatsAddUp(cap, src, before);
      var c := Run(cap, src, before);
      StepTally(c, src, op);
      PeakIsAbove(c);
      TotalSnoc(src, Inserted(cap, src, before), op.id);
      assert Inserted(cap, src, before) + [] == Inserted(cap, src, before);
      UseTally(c, src, op);
    }
  }
}
