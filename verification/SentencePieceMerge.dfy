/**
 * The SentencePiece merge loop: a lazy priority queue over an index-linked list of symbols, proved to compute
 * the naive loop "merge the adjacent pair of highest score, leftmost on ties, until no pair is in the vocabulary".
 */
module SentencePieceMerge {
  import opened Common

  /** A live symbol: the text slice [off, off+len). */
  datatype Seg = Seg(off: nat, len: nat)

  /** The segments tile the text: contiguous, non-empty, from 0 to the end. */
  ghost predicate Tiles(s: Bytes, segs: seq<Seg>) {
    && (forall j :: 0 <= j < |segs| ==> segs[j].len > 0 && segs[j].off + segs[j].len <= |s|)
    && (forall j :: 0 <= j < |segs| - 1 ==> segs[j].off + segs[j].len == segs[j + 1].off)
    && (|segs| == 0 ==> |s| == 0)
    && (|segs| > 0 ==> segs[0].off == 0 && segs[|segs| - 1].off + segs[|segs| - 1].len == |s|)
  }

  function Text(s: Bytes, g: Seg): Bytes
    requires g.off + g.len <= |s|
  {
    s[g.off..g.off + g.len]
  }

  // ----- The naive specification

  /** The score of merging segment i with its right neighbour, when the joined text is in the vocabulary. */
  function PairScore(s: Bytes, score: Bytes -> Option<real>, segs: seq<Seg>, i: nat): Option<real>
    requires i + 1 < |segs|
  {
    var end := segs[i].off + segs[i].len + segs[i + 1].len;
    if end <= |s| then score(s[segs[i].off..end]) else None
  }

  /** Pair i has the highest score, and is the leftmost such pair. */
  ghost predicate IsBest(s: Bytes, score: Bytes -> Option<real>, segs: seq<Seg>, i: nat)
  {
    && i + 1 < |segs|
    && PairScore(s, score, segs, i).Some?
    && forall j :: 0 <= j < |segs| - 1 && PairScore(s, score, segs, j).Some? ==>
         PairScore(s, score, segs, j).value < PairScore(s, score, segs, i).value
         || (PairScore(s, score, segs, j).value == PairScore(s, score, segs, i).value && i <= j)
  }

  /** The best pair among the first n, by one left-to-right scan. */
  function BestPair(s: Bytes, score: Bytes -> Option<real>, segs: seq<Seg>, n: nat): (r: Option<nat>)
    requires (n == 0 || n < |segs|)
    ensures r.Some? ==> r.value < n && PairScore(s, score, segs, r.value).Some?
  {
    if n == 0 then None
    else
      var best := BestPair(s, score, segs, n - 1);
      var here := PairScore(s, score, segs, n - 1);
      if here.None? then best
      else if best.None? || PairScore(s, score, segs, best.value).value < here.value then Some(n - 1)
      else best
  }

  lemma {:induction false} BestPairScan(s: Bytes, score: Bytes -> Option<real>, segs: seq<Seg>, n: nat)
    requires (n == 0 || n < |segs|)
    ensures var r := BestPair(s, score, segs, n);
            if r.None? then forall j :: 0 <= j < n ==> PairScore(s, score, segs, j).None?
            else forall j :: 0 <= j < n && PairScore(s, score, segs, j).Some? ==>
                   PairScore(s, score, segs, j).value < PairScore(s, score, segs, r.value).value
                   || (PairScore(s, score, segs, j).value == PairScore(s, score, segs, r.value).value && r.value <= j)
  {
    if n > 0 {
      BestPairScan(s, score, segs, n - 1);
    }
  }

  function PairCount(segs: seq<Seg>): nat {
    if |segs| == 0 then 0 else |segs| - 1
  }

  /** The scan finds exactly the best pair, and finds none exactly when no pair is in the vocabulary. */
  lemma BestPairIsBest(s: Bytes, score: Bytes -> Option<real>, segs: seq<Seg>)
    ensures var r := BestPair(s, score, segs, PairCount(segs));
            && (r.Some? <==> exists i :: 0 <= i < |segs| - 1 && PairScore(s, score, segs, i).Some?)
            && (forall i: nat :: IsBest(s, score, segs, i) <==> r == Some(i))
  {
    BestPairScan(s, score, segs, PairCount(segs));
  }

  function Merge(segs: seq<Seg>, i: nat): (r: seq<Seg>)
    requires i + 1 < |segs|
    ensures |r| == |segs| - 1
  {
    segs[..i] + [Seg(segs[i].off, segs[i].len + segs[i + 1].len)] + segs[i + 2..]
  }

  lemma MergeTiles(s: Bytes, segs: seq<Seg>, i: nat)
    requires Tiles(s, segs) && i + 1 < |segs|
    ensures Tiles(s, Merge(segs, i))
  {
    var m := Merge(segs, i);
    forall j | 0 <= j < |m| - 1
      ensures m[j].off + m[j].len == m[j + 1].off
    {
      if j > i {
        assert m[j] == segs[j + 1] && m[j + 1] == segs[j + 2];
      } else if j == i {
        assert m[j + 1] == segs[j + 2];
      }
    }
  }

  /** The reference loop. */
  function NaiveMerge(s: Bytes, score: Bytes -> Option<real>, segs: seq<Seg>): (r: seq<Seg>)
    requires Tiles(s, segs)
    ensures Tiles(s, r)
    decreases |segs|
  {
    match BestPair(s, score, segs, PairCount(segs))
    case None => segs
    case Some(i) =>
      MergeTiles(s, segs, i);
      NaiveMerge(s, score, Merge(segs, i))
  }

  // ----- The implementation's data: symbols linked by index, and the work queue

  datatype Symbol = Symbol(prev: int, next: int, off: nat, len: nat)

  datatype Bigram = Bigram(left: int, right: int, score: real, size: nat)

  /** The queue's ordering: a lower score, or an equal score further right, comes out later. */
  predicate ComesAfter(a: Bigram, b: Bigram) {
    a.score < b.score || (a.score == b.score && a.left > b.left)
  }

  predicate IsTop(b: Bigram, work: multiset<Bigram>) {
    b in work && forall c :: c in work ==> !ComesAfter(b, c)
  }

  lemma {:induction false} TopExists(work: multiset<Bigram>) returns (b: Bigram)
    requires |work| > 0
    ensures IsTop(b, work)
    decreases |work|
  {
    var a :| a in work;
    var rest := work - multiset{a};
    b := a;
    if |rest| > 0 {
      var c := TopExists(rest);
      if ComesAfter(a, c) {
        b := c;
      }
    }
    forall d | d in work
      ensures !ComesAfter(b, d)
    {
      assert d == a || d in rest;
    }
  }

  /** Removes an element no other element precedes; equal elements may come out in any order. */
  method Pop(work: multiset<Bigram>) returns (b: Bigram, rest: multiset<Bigram>)
    requires |work| > 0
    ensures IsTop(b, work) && rest == work - multiset{b} && |rest| == |work| - 1
  {
    ghost var w := TopExists(work);
    b :| IsTop(b, work);
    rest := work - multiset{b};
  }

  /** Position j of the chain: a non-empty symbol whose links name its neighbours. */
  ghost predicate LinkedAt(symbols: seq<Symbol>, live: seq<nat>, j: nat)
    requires j < |live| && live[j] < |symbols|
  {
    && symbols[live[j]].len > 0
    && symbols[live[j]].next == (if j + 1 < |live| then live[j + 1] as int else -1)
    && symbols[live[j]].prev == (if j > 0 then live[j - 1] as int else -1)
  }

  /** `live` lists the indices of the symbols still in the chain, in order. */
  ghost predicate Chain(symbols: seq<Symbol>, live: seq<nat>) {
    && (forall j :: 0 <= j < |live| ==> live[j] < |symbols|)
    && (forall j :: 0 <= j < |live| ==> LinkedAt(symbols, live, j))
    && (forall j, k :: 0 <= j < k < |live| ==> live[j] < live[k])
  }

  /** The abstract state the linked list stands for. */
  ghost function Segments(symbols: seq<Symbol>, live: seq<nat>): (r: seq<Seg>)
    requires forall j :: 0 <= j < |live| ==> live[j] < |symbols|
    ensures |r| == |live|
  {
    seq(|live|, j requires 0 <= j < |live| => Seg(symbols[live[j]].off, symbols[live[j]].len))
  }

  /** A chain that starts at symbol 0, covers every non-empty symbol and tiles the text. */
  ghost predicate Linked(s: Bytes, symbols: seq<Symbol>, live: seq<nat>) {
    && Chain(symbols, live)
    && (|symbols| > 0 ==> |live| > 0 && live[0] == 0)
    && (forall i :: 0 <= i < |symbols| && i !in live ==> symbols[i].len == 0)
    && Tiles(s, Segments(symbols, live))
  }

  /** Every queued entry, stale or not, carries the score of the text it was pushed for. */
  ghost predicate Scored(s: Bytes, score: Bytes -> Option<real>, symbols: seq<Symbol>, b: Bigram) {
    && 0 <= b.left < |symbols| && 0 <= b.right < |symbols|
    && symbols[b.left].off + b.size <= |s|
    && score(s[symbols[b.left].off..symbols[b.left].off + b.size]) == Some(b.score)
  }

  /** The queue entry for the live pair starting at live[j]. */
  ghost function Entry(s: Bytes, score: Bytes -> Option<real>, segs: seq<Seg>, live: seq<nat>, j: nat): Bigram
    requires |segs| == |live| && j + 1 < |live| && PairScore(s, score, segs, j).Some?
  {
    Bigram(live[j], live[j + 1], PairScore(s, score, segs, j).value, segs[j].len + segs[j + 1].len)
  }

  /** Every live pair that may be merged is queued, except possibly those starting at live[a] and live[b]. */
  ghost predicate Queued(s: Bytes, score: Bytes -> Option<real>, segs: seq<Seg>, live: seq<nat>,
                         work: multiset<Bigram>, a: int, b: int)
    requires |segs| == |live|
  {
    forall j :: 0 <= j < |live| - 1 && j != a && j != b && PairScore(s, score, segs, j).Some? ==>
      Entry(s, score, segs, live, j) in work
  }

  /** A symbol with text is in the chain, and its right link names its successor. */
  lemma LiveIndex(s: Bytes, symbols: seq<Symbol>, live: seq<nat>, left: nat, right: nat) returns (j: nat)
    requires Linked(s, symbols, live) && left < |symbols| && right < |symbols|
    requires symbols[left].len > 0 && symbols[left].next == right
    ensures j + 1 < |live| && live[j] == left && live[j + 1] == right
    ensures symbols[left].off + symbols[left].len + symbols[right].len <= |s|
  {
    assert left in live;
    j :| 0 <= j < |live| && live[j] == left;
    assert LinkedAt(symbols, live, j);
    var segs := Segments(symbols, live);
    assert segs[j].off + segs[j].len == segs[j + 1].off;
    assert segs[j + 1].off + segs[j + 1].len <= |s|;
  }

  /** The guard shared by the push and the staleness test. */
  predicate Adjacent(symbols: seq<Symbol>, left: nat, right: nat)
    requires left < |symbols| && right < |symbols|
  {
    symbols[left].len > 0 && symbols[right].len > 0 && symbols[left].next == right && symbols[right].prev == left
  }

  lemma AdjacentIsLive(s: Bytes, symbols: seq<Symbol>, live: seq<nat>, left: nat, right: nat)
    requires Linked(s, symbols, live) && left < |symbols| && right < |symbols|
    ensures Adjacent(symbols, left, right) <==>
            exists j :: 0 <= j < |live| - 1 && live[j] == left && live[j + 1] == right
  {
    if Adjacent(symbols, left, right) {
      var j := LiveIndex(s, symbols, live, left, right);
    }
    if j :| 0 <= j < |live| - 1 && live[j] == left && live[j + 1] == right {
      assert LinkedAt(symbols, live, j) && LinkedAt(symbols, live, j + 1);
    }
  }

  /** An entry survives the staleness test exactly when it is the entry of a live pair. */
  lemma FreshIsLive(s: Bytes, score: Bytes -> Option<real>, symbols: seq<Symbol>, live: seq<nat>, b: Bigram)
    returns (j: nat)
    requires Linked(s, symbols, live) && Scored(s, score, symbols, b)
    requires symbols[b.left].len > 0 && symbols[b.right].len > 0
    requires symbols[b.left].next == b.right && symbols[b.right].prev == b.left
    requires symbols[b.left].len + symbols[b.right].len == b.size
    ensures j + 1 < |live| && live[j] == b.left && live[j + 1] == b.right
    ensures PairScore(s, score, Segments(symbols, live), j) == Some(b.score)
  {
    j := LiveIndex(s, symbols, live, b.left, b.right);
  }

  /** The top of the queue, when fresh, is the pair the naive loop merges. */
  lemma FreshTopIsBest(s: Bytes, score: Bytes -> Option<real>, symbols: seq<Symbol>, live: seq<nat>,
                       work: multiset<Bigram>, b: Bigram, j: nat)
    requires Linked(s, symbols, live) && Queued(s, score, Segments(symbols, live), live, work, -1, -1) && IsTop(b, work)
    requires j + 1 < |live| && live[j] == b.left
    requires PairScore(s, score, Segments(symbols, live), j) == Some(b.score)
    ensures BestPair(s, score, Segments(symbols, live), PairCount(Segments(symbols, live))) == Some(j)
  {
    var segs := Segments(symbols, live);
    forall k | 0 <= k < |segs| - 1 && PairScore(s, score, segs, k).Some?
      ensures PairScore(s, score, segs, k).value < b.score
           || (PairScore(s, score, segs, k).value == b.score && j <= k)
    {
      var e := Entry(s, score, Segments(symbols, live), live, k);
      assert e in work;
      assert !ComesAfter(b, e);
    }
    assert IsBest(s, score, segs, j);
    BestPairIsBest(s, score, segs);
  }

  /** Merging symbol live[j+1] into live[j]: three link updates and two lengths. */
  function MergeSymbols(symbols: seq<Symbol>, left: nat, right: nat): (r: seq<Symbol>)
    requires left < |symbols| && right < |symbols| && left != right
    ensures |r| == |symbols|
  {
    var l, r := symbols[left], symbols[right];
    var a := symbols[left := l.(len := l.len + r.len, next := r.next)][right := r.(len := 0)];
    if 0 <= r.next < |a| then a[r.next := a[r.next].(prev := left)] else a
  }

  ghost function Unlink(live: seq<nat>, j: nat): (r: seq<nat>)
    requires j + 1 < |live|
    ensures |r| == |live| - 1
    ensures forall k :: 0 <= k < |r| ==> r[k] == if k <= j then live[k] else live[k + 1]
  {
    live[..j + 1] + live[j + 2..]
  }

  /** Which fields of which symbols a merge changes. */
  lemma MergeSymbolsAt(symbols: seq<Symbol>, left: nat, right: nat, i: nat)
    requires left < |symbols| && right < |symbols| && left != right && i < |symbols|
    requires symbols[right].next != left && symbols[right].next != right
    ensures var r := symbols[right];
            MergeSymbols(symbols, left, right)[i] ==
              if i == left then symbols[i].(len := symbols[i].len + r.len, next := r.next)
              else if i == right then symbols[i].(len := 0)
              else if i == r.next then symbols[i].(prev := left)
              else symbols[i]
  {
  }

  lemma MergeLinkedAt(symbols: seq<Symbol>, live: seq<nat>, j: nat, k: nat)
    requires Chain(symbols, live) && j + 1 < |live| && k < |live| - 1
    ensures LinkedAt(MergeSymbols(symbols, live[j], live[j + 1]), Unlink(live, j), k)
  {
    var k0 := if k <= j then k else k + 1;
    assert LinkedAt(symbols, live, j + 1) && LinkedAt(symbols, live, k0);
    assert live[j] < live[j + 1];
    if j + 2 < |live| {
      assert live[j + 1] < live[j + 2];
    }
    MergeSymbolsAt(symbols, live[j], live[j + 1], live[k0]);
  }

  lemma UnlinkMembers(live: seq<nat>, j: nat, i: nat)
    requires j + 1 < |live| && i in live && i != live[j + 1]
    ensures i in Unlink(live, j)
  {
    var live' := Unlink(live, j);
    var k :| 0 <= k < |live| && live[k] == i;
    assert live'[if k <= j then k else k - 1] == i;
  }

  lemma MergeLeavesDead(s: Bytes, symbols: seq<Symbol>, live: seq<nat>, j: nat, i: nat)
    requires Linked(s, symbols, live) && j + 1 < |live| && i < |symbols| && i !in Unlink(live, j)
    ensures MergeSymbols(symbols, live[j], live[j + 1])[i].len == 0
  {
    assert Unlink(live, j)[j] == live[j];
    assert LinkedAt(symbols, live, j + 1);
    if i != live[j + 1] {
      assert i !in live by {
        if i in live {
          UnlinkMembers(live, j, i);
        }
      }
    }
  }

  lemma MergeSegmentAt(symbols: seq<Symbol>, live: seq<nat>, j: nat, k: nat)
    requires Chain(symbols, live) && j + 1 < |live| && k < |live| - 1
    ensures var symbols' := MergeSymbols(symbols, live[j], live[j + 1]);
            var i := Unlink(live, j)[k];
            && i < |symbols'|
            && Seg(symbols'[i].off, symbols'[i].len) == Merge(Segments(symbols, live), j)[k]
  {
    var k0 := if k <= j then k else k + 1;
    assert LinkedAt(symbols, live, j + 1);
    assert live[j] < live[j + 1];
    if j + 2 < |live| {
      assert live[j + 1] < live[j + 2];
    }
    MergeSymbolsAt(symbols, live[j], live[j + 1], live[k0]);
    assert k != j ==> live[k0] != live[j];
    assert live[k0] != live[j + 1];
  }

  lemma MergeSegments(symbols: seq<Symbol>, live: seq<nat>, j: nat)
    requires Chain(symbols, live) && j + 1 < |live|
    requires Chain(MergeSymbols(symbols, live[j], live[j + 1]), Unlink(live, j))
    ensures Segments(MergeSymbols(symbols, live[j], live[j + 1]), Unlink(live, j)) == Merge(Segments(symbols, live), j)
  {
    var a := Segments(MergeSymbols(symbols, live[j], live[j + 1]), Unlink(live, j));
    var b := Merge(Segments(symbols, live), j);
    forall k | 0 <= k < |a|
      ensures a[k] == b[k]
    {
      MergeSegmentAt(symbols, live, j, k);
    }
  }

  lemma MergeChain(symbols: seq<Symbol>, live: seq<nat>, j: nat)
    requires Chain(symbols, live) && j + 1 < |live|
    ensures Chain(MergeSymbols(symbols, live[j], live[j + 1]), Unlink(live, j))
  {
    var symbols', live' := MergeSymbols(symbols, live[j], live[j + 1]), Unlink(live, j);
    forall k | 0 <= k < |live'|
      ensures LinkedAt(symbols', live', k)
    {
      MergeLinkedAt(symbols, live, j, k);
    }
  }

  lemma MergeSymbolsLinked(s: Bytes, symbols: seq<Symbol>, live: seq<nat>, j: nat)
    requires Linked(s, symbols, live) && j + 1 < |live|
    ensures var symbols' := MergeSymbols(symbols, live[j], live[j + 1]);
            && Linked(s, symbols', Unlink(live, j))
            && Segments(symbols', Unlink(live, j)) == Merge(Segments(symbols, live), j)
  {
    var symbols' := MergeSymbols(symbols, live[j], live[j + 1]);
    MergeChain(symbols, live, j);
    forall i | 0 <= i < |symbols'| && i !in Unlink(live, j)
      ensures symbols'[i].len == 0
    {
      MergeLeavesDead(s, symbols, live, j, i);
    }
    MergeSegments(symbols, live, j);
    MergeTiles(s, Segments(symbols, live), j);
  }

  /** Pushes the pair (left, right) when it is live and its joined text is in the vocabulary. */
  method TryAdd(s: Bytes, score: Bytes -> Option<real>, symbols: seq<Symbol>, ghost live: seq<nat>,
                work: multiset<Bigram>, left: int, right: int) returns (work': multiset<Bigram>)
    requires Linked(s, symbols, live)
    requires left < |symbols| && right < |symbols|
    ensures work <= work' && |work'| <= |work| + 1
    ensures forall b :: b in work' ==> b in work || Scored(s, score, symbols, b)
    ensures forall j :: 0 <= j < |live| - 1 && live[j] == left && live[j + 1] == right
                        && PairScore(s, score, Segments(symbols, live), j).Some? ==>
              Entry(s, score, Segments(symbols, live), live, j) in work'
  {
    hide Tiles;
    if left < 0 || right < 0 {
      return work;
    }
    AdjacentIsLive(s, symbols, live, left, right);
    var l, r := symbols[left], symbols[right];
    if l.len == 0 || r.len == 0 || l.next != right || r.prev != left {
      assert !Adjacent(symbols, left, right);
      return work;
    }
    ghost var j := LiveIndex(s, symbols, live, left, right);
    match score(s[l.off..l.off + (l.len + r.len)])
    case None => return work;
    case Some(v) =>
      work' := work + multiset{Bigram(left, right, v, l.len + r.len)};
  }

  /** Refilling the queue after a merge at j: only the pairs touching the merged symbol are new. */
  lemma QueuedAfterMerge(s: Bytes, score: Bytes -> Option<real>, segs: seq<Seg>, live: seq<nat>,
                         work: multiset<Bigram>, rest: multiset<Bigram>, b: Bigram, j: nat)
    requires |segs| == |live| && forall i, k :: 0 <= i < k < |live| ==> live[i] < live[k]
    requires Queued(s, score, segs, live, work, -1, -1)
    requires j + 1 < |live| && b.left == live[j] && rest == work - multiset{b}
    ensures Queued(s, score, Merge(segs, j), Unlink(live, j), rest, j - 1, j)
  {
    var segs', live' := Merge(segs, j), Unlink(live, j);
    forall k | 0 <= k < |live'| - 1 && k != j - 1 && k != j && PairScore(s, score, segs', k).Some?
      ensures Entry(s, score, segs', live', k) in rest
    {
      var k0 := if k < j then k else k + 1;
      assert segs'[k] == segs[k0] && segs'[k + 1] == segs[k0 + 1];
      assert Entry(s, score, segs', live', k) == Entry(s, score, segs, live, k0);
      assert live[k0] != live[j];
    }
  }

  /** A stale entry is not the entry of any live pair, so dropping it loses nothing. */
  lemma QueuedAfterStale(s: Bytes, score: Bytes -> Option<real>, symbols: seq<Symbol>, live: seq<nat>,
                         work: multiset<Bigram>, rest: multiset<Bigram>, b: Bigram)
    requires Linked(s, symbols, live) && Queued(s, score, Segments(symbols, live), live, work, -1, -1)
    requires 0 <= b.left < |symbols| && 0 <= b.right < |symbols| && rest == work - multiset{b}
    requires symbols[b.left].len == 0 || symbols[b.right].len == 0 || symbols[b.left].next != b.right
             || symbols[b.right].prev != b.left || symbols[b.left].len + symbols[b.right].len != b.size
    ensures Queued(s, score, Segments(symbols, live), live, rest, -1, -1)
  {
    forall k | 0 <= k < |live| - 1 && PairScore(s, score, Segments(symbols, live), k).Some?
      ensures Entry(s, score, Segments(symbols, live), live, k) in rest
    {
      assert Entry(s, score, Segments(symbols, live), live, k) in work;
      AdjacentIsLive(s, symbols, live, live[k], live[k + 1]);
      assert Entry(s, score, Segments(symbols, live), live, k) != b;
    }
  }

  /** Entries keep their meaning across a merge: offsets never change. */
  lemma ScoredAfterMerge(s: Bytes, score: Bytes -> Option<real>, symbols: seq<Symbol>, left: nat, right: nat, b: Bigram)
    requires left < |symbols| && right < |symbols| && left != right
    requires Scored(s, score, symbols, b)
    ensures Scored(s, score, MergeSymbols(symbols, left, right), b)
  {
  }

  function Identity(n: nat): (r: seq<nat>)
    ensures |r| == n && forall i :: 0 <= i < n ==> r[i] == i
  {
    seq(n, i => i)
  }

  /** Queues every adjacent pair of the freshly split text. */
  method Seed(s: Bytes, score: Bytes -> Option<real>, symbols: seq<Symbol>, ghost live: seq<nat>)
    returns (work: multiset<Bigram>)
    requires live == Identity(|symbols|) && Linked(s, symbols, live)
    ensures forall b :: b in work ==> Scored(s, score, symbols, b)
    ensures Queued(s, score, Segments(symbols, live), live, work, -1, -1)
  {
    work := multiset{};
    var i := 1;
    while i < |symbols|
      invariant 1 <= i && (|symbols| > 0 ==> i <= |symbols|)
      invariant forall b :: b in work ==> Scored(s, score, symbols, b)
      invariant forall j ::
                  0 <= j < i - 1 && j < |live| - 1 && PairScore(s, score, Segments(symbols, live), j).Some? ==>
                  Entry(s, score, Segments(symbols, live), live, j) in work
    {
      work := TryAdd(s, score, symbols, live, work, i - 1, i);
      i := i + 1;
    }
  }

  /** The five assignments of a merge. */
  method UpdateLinks(symbols: seq<Symbol>, left: nat, right: nat) returns (symbols': seq<Symbol>)
    requires left < |symbols| && right < |symbols| && left != right && symbols[right].next < |symbols|
    ensures symbols' == MergeSymbols(symbols, left, right)
  {
    var l, r := symbols[left], symbols[right];
    symbols' := symbols[left := l.(len := l.len + r.len)];
    symbols' := symbols'[right := symbols'[right].(len := 0)];
    symbols' := symbols'[left := symbols'[left].(next := r.next)];
    if r.next >= 0 {
      symbols' := symbols'[r.next := symbols'[r.next].(prev := left)];
    }
  }

  /** Merges the pair of a fresh entry and queues the two pairs it creates. */
  method MergeTop(s: Bytes, score: Bytes -> Option<real>, symbols: seq<Symbol>, ghost live: seq<nat>,
                  ghost work: multiset<Bigram>, rest: multiset<Bigram>, b: Bigram, ghost j: nat)
    returns (symbols': seq<Symbol>, work': multiset<Bigram>)
    requires Linked(s, symbols, live) && Queued(s, score, Segments(symbols, live), live, work, -1, -1)
    requires forall c :: c in rest ==> Scored(s, score, symbols, c)
    requires j + 1 < |live| && b.left == live[j] && b.right == live[j + 1] && rest == work - multiset{b}
    ensures |symbols'| == |symbols| && Linked(s, symbols', Unlink(live, j))
    ensures Segments(symbols', Unlink(live, j)) == Merge(Segments(symbols, live), j)
    ensures forall c :: c in work' ==> Scored(s, score, symbols', c)
    ensures Queued(s, score, Segments(symbols', Unlink(live, j)), Unlink(live, j), work', -1, -1)
    ensures |work'| <= |rest| + 2
  {
    hide Merge, PairScore, Segments;
    MergeSymbolsLinked(s, symbols, live, j);
    QueuedAfterMerge(s, score, Segments(symbols, live), live, work, rest, b, j);
    assert LinkedAt(symbols, live, j + 1);
    symbols' := UpdateLinks(symbols, b.left, b.right);
    ghost var live' := Unlink(live, j);
    forall c | c in rest
      ensures Scored(s, score, symbols', c)
    {
      ScoredAfterMerge(s, score, symbols, b.left, b.right, c);
    }
    assert LinkedAt(symbols', live', j);
    var merged := symbols'[b.left];
    work' := TryAdd(s, score, symbols', live', rest, merged.prev, b.left);
    work' := TryAdd(s, score, symbols', live', work', b.left, merged.next);
  }

  /** With an empty queue no live pair can be merged. */
  lemma EmptyQueueIsFinal(s: Bytes, score: Bytes -> Option<real>, symbols: seq<Symbol>, live: seq<nat>)
    requires Linked(s, symbols, live) && Queued(s, score, Segments(symbols, live), live, multiset{}, -1, -1)
    ensures NaiveMerge(s, score, Segments(symbols, live)) == Segments(symbols, live)
  {
    BestPairIsBest(s, score, Segments(symbols, live));
    forall k | 0 <= k < |live| - 1
      ensures PairScore(s, score, Segments(symbols, live), k).None?
    {
    }
  }

  /** The loop invariant: a linked chain, truthful queue entries, and every mergeable live pair queued. */
  ghost predicate Invariant(s: Bytes, score: Bytes -> Option<real>, symbols: seq<Symbol>, live: seq<nat>,
                            work: multiset<Bigram>) {
    && Linked(s, symbols, live)
    && (forall b :: b in work ==> Scored(s, score, symbols, b))
    && Queued(s, score, Segments(symbols, live), live, work, -1, -1)
  }

  /** One round: a stale entry is dropped, a fresh one is merged. The naive result does not change. */
  method Round(s: Bytes, score: Bytes -> Option<real>, symbols: seq<Symbol>, ghost live: seq<nat>,
          work: multiset<Bigram>)
    returns (symbols': seq<Symbol>, ghost live': seq<nat>, work': multiset<Bigram>)
    requires |work| > 0 && Invariant(s, score, symbols, live, work)
    ensures Invariant(s, score, symbols', live', work')
    ensures NaiveMerge(s, score, Segments(symbols', live')) == NaiveMerge(s, score, Segments(symbols, live))
    ensures 2 * |live'| + |work'| < 2 * |live| + |work|
  {
    var b, rest := Pop(work);
    var l, r := symbols[b.left], symbols[b.right];
    if l.len == 0 || r.len == 0 || l.next != b.right || r.prev != b.left || l.len + r.len != b.size {
      QueuedAfterStale(s, score, symbols, live, work, rest, b);
      symbols', live', work' := symbols, live, rest;
    } else {
      ghost var j := FreshIsLive(s, score, symbols, live, b);
      FreshTopIsBest(s, score, symbols, live, work, b, j);
      symbols', work' := MergeTop(s, score, symbols, live, work, rest, b, j);
      live' := Unlink(live, j);
    }
  }

  /** The lazy loop of the tokenizer. It leaves the chain that the naive loop leaves, for every queue order. */
  method LazyMerge(s: Bytes, score: Bytes -> Option<real>, initial: seq<Symbol>) returns (symbols: seq<Symbol>)
    requires Linked(s, initial, Identity(|initial|))
    ensures exists live ::
              && Linked(s, symbols, live)
              && Segments(symbols, live) == NaiveMerge(s, score, Segments(initial, Identity(|initial|)))
  {
    symbols := initial;
    ghost var live := Identity(|initial|);
    ghost var goal := NaiveMerge(s, score, Segments(symbols, live));
    var work := Seed(s, score, symbols, live);
    while |work| > 0
      invariant Invariant(s, score, symbols, live, work)
      invariant NaiveMerge(s, score, Segments(symbols, live)) == goal
      decreases 2 * |live| + |work|
    {
      symbols, live, work := Round(s, score, symbols, live, work);
    }
    EmptyQueueIsFinal(s, score, symbols, live);
  }
}
