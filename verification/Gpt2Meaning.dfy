/**
 * What GPT-2 encoding computes, without its own functions: where the text is cut at special tokens, which pairs are
 * merged in which order, and the ids of what is left.
 */
module Gpt2Meaning {
  import opened Common
  import opened ByteStrings
  import opened ByteUnicode
  import opened Tokenizer
  import opened Pretokenizer
  import opened Gpt2

  // ----- Special tokens

  predicate SpecialMatches(t: Tokenizer, text: Bytes, p: nat, k: nat) {
    k < |t.specials| && |t.specials[k].0| > 0 && At(text, p, t.specials[k].0)
  }

  lemma {:induction false} FirstSpecial(t: Tokenizer, text: Bytes, p: nat, i: nat)
    requires i <= |t.specials|
    ensures var r := SpecialAt(t, text, p, i);
            && (r.Some? ==> SpecialMatches(t, text, p, r.value))
            && forall k: nat :: i <= k && SpecialMatches(t, text, p, k) ==> r.Some? && r.value <= k
    decreases |t.specials| - i
  {
    if i < |t.specials| {
      FirstSpecial(t, text, p, i + 1);
    }
  }

  /** The special token taken at p is a longest one that matches there, and none is taken only if none matches. */
  lemma SpecialIs(t: Tokenizer, text: Bytes, p: nat)
    requires WellBuilt(t)
    ensures var r := SpecialAt(t, text, p, 0);
            && (r.Some? ==> SpecialMatches(t, text, p, r.value))
            && forall k: nat :: SpecialMatches(t, text, p, k) ==>
                 r.Some? && |t.specials[k].0| <= |t.specials[r.value].0|
  {
    FirstSpecial(t, text, p, 0);
  }

  lemma {:induction false} NextSpecialIs(t: Tokenizer, text: Bytes, q: nat)
    requires q <= |text|
    ensures var e := NextSpecial(t, text, q);
            && (forall p: nat, k: nat :: q <= p < e ==> !SpecialMatches(t, text, p, k))
            && (e < |text| ==> exists k: nat :: SpecialMatches(t, text, e, k))
    decreases |text| - q
  {
    if q < |text| {
      FirstSpecial(t, text, q, 0);
      if SpecialAt(t, text, q, 0).None? {
        NextSpecialIs(t, text, q + 1);
      }
    }
  }

  /** Text between special tokens is cut where the next one matches, not before and not after. */
  lemma PlainRunIs(t: Tokenizer, text: Bytes, p: nat)
    requires p < |text| && forall k: nat :: !SpecialMatches(t, text, p, k)
    ensures var e := StepEnd(t, text, p);
            && (forall q: nat, k: nat :: p <= q < e ==> !SpecialMatches(t, text, q, k))
            && (e < |text| ==> exists k: nat :: SpecialMatches(t, text, e, k))
            && StepIds(t, text, p) == ChunksIds(t, Chunks(text[p..e], 0))
  {
    hide SpecialMatches;
    FirstSpecial(t, text, p, 0);
    NextSpecialIs(t, text, p + 1);
  }

  /** A special token gives its own id and is passed whole. */
  lemma SpecialStepIs(t: Tokenizer, text: Bytes, p: nat)
    requires WellBuilt(t) && p < |text| && exists k: nat :: SpecialMatches(t, text, p, k)
    ensures exists k: nat ::
              && SpecialMatches(t, text, p, k) && IsSpecial(t, t.specials[k].1)
              && StepIds(t, text, p) == Ok([t.specials[k].1]) && t.tokens[t.specials[k].1] == t.specials[k].0
              && StepEnd(t, text, p) == p + |t.specials[k].0|
  {
    SpecialIs(t, text, p);
  }

  // ----- Which pairs may be merged

  lemma AtomBytes(b: Byte)
    ensures forall i :: 0 <= i < |Atom(b)| ==> Atom(b)[i] > 32
  {
    TableIs(b);
  }

  /** No atom contains a control character or a space. */
  lemma {:induction false} SpelledBytes(raw: Bytes)
    ensures forall i :: 0 <= i < |EncodeBytes(raw)| ==> EncodeBytes(raw)[i] > 32
  {
    if |raw| > 0 {
      SpelledBytes(raw[1..]);
      AtomBytes(raw[0]);
    }
  }

  lemma KeySplits(a: Bytes, b: Bytes, c: Bytes, d: Bytes)
    requires 31 !in a && 31 !in b && MergeKey(a, b) == MergeKey(c, d)
    ensures a == c && b == d
  {
    var x, y := MergeKey(a, b), MergeKey(c, d);
    forall i | 0 <= i < |x| && i != |a|
      ensures x[i] != 31
    {
      if i < |a| {
        assert x[i] == a[i];
      } else {
        assert x[i] == b[i - |a| - 1];
      }
    }
    assert y[|c|] == 31;
    assert x[..|a|] == a && y[..|a|] == c;
    assert x[|a| + 1..] == b && y[|a| + 1..] == d;
  }

  /** Merge r of the vocabulary's list is "a b". */
  predicate ListsMerge(merges: seq<Bytes>, r: nat, a: Bytes, b: Bytes) {
    r < |merges| && merges[r] == a + [0x20] + b
  }

  lemma ListedIsRanked(merges: seq<Bytes>, r: nat, a: Bytes, b: Bytes)
    requires ListsMerge(merges, r, a, b) && 32 !in a
    ensures RanksAs(merges, r, MergeKey(a, b))
  {
    var z := merges[r];
    assert z[..|a|] == a && z[|a| + 1..] == b;
    assert SplitsAt(z, |a|, MergeKey(a, b));
  }

  lemma RankedIsListed(merges: seq<Bytes>, r: nat, a: Bytes, b: Bytes)
    requires RanksAs(merges, r, MergeKey(a, b)) && 31 !in a && 31 !in b
    ensures ListsMerge(merges, r, a, b)
  {
    var z := merges[r];
    var sp :| 0 <= sp < |z| && SplitsAt(z, sp, MergeKey(a, b));
    KeySplits(a, b, z[..sp], z[sp + 1..]);
    assert z == z[..sp] + [z[sp]] + z[sp + 1..];
  }

  /** Two neighbouring symbols may be merged exactly if the list has them, and their rank is their last place in it. */
  lemma RankIs(merges: seq<Bytes>, rank: map<Bytes, nat>, syms: seq<Bytes>, raws: seq<Bytes>, i: nat)
    requires RankedTo(merges, rank, |merges|) && |merges| <= U64_MAX && Spelled(syms, raws) && i + 1 < |syms|
    ensures var r, a, b := PairRank(rank, syms, i), syms[i], syms[i + 1];
            && (r.None? <==> forall q: nat :: !ListsMerge(merges, q, a, b))
            && (r.Some? ==> ListsMerge(merges, r.value, a, b)
                            && forall q: nat :: ListsMerge(merges, q, a, b) ==> q <= r.value)
  {
    hide RanksAs;
    var a, b := syms[i], syms[i + 1];
    SpelledBytes(raws[i]);
    SpelledBytes(raws[i + 1]);
    var key := MergeKey(a, b);
    if key in rank {
      RankedIsListed(merges, rank[key], a, b);
    }
    forall r: nat | ListsMerge(merges, r, a, b)
      ensures key in rank && r <= rank[key]
    {
      ListedIsRanked(merges, r, a, b);
    }
  }

  // ----- The merges

  /** Pair i has the lowest rank, and is the leftmost of those. */
  ghost predicate Lowest(rank: map<Bytes, nat>, syms: seq<Bytes>, i: nat) {
    && i + 1 < |syms| && PairRank(rank, syms, i).Some?
    && forall j :: 0 <= j < |syms| - 1 && PairRank(rank, syms, j).Some? ==>
         && PairRank(rank, syms, i).value <= PairRank(rank, syms, j).value
         && (j < i ==> PairRank(rank, syms, i).value < PairRank(rank, syms, j).value)
  }

  ghost predicate JoinsTo(rank: map<Bytes, nat>, a: seq<Bytes>, b: seq<Bytes>) {
    exists i: nat :: Lowest(rank, a, i) && b == a[..i] + [a[i] + a[i + 1]] + a[i + 2..]
  }

  ghost predicate NothingToMerge(rank: map<Bytes, nat>, syms: seq<Bytes>) {
    forall j :: 0 <= j < |syms| - 1 ==> PairRank(rank, syms, j).None?
  }

  /** Each list of symbols comes from the one before by its lowest merge, and the last one has nothing to merge. */
  ghost predicate LowestMerges(rank: map<Bytes, nat>, trace: seq<seq<Bytes>>) {
    && |trace| > 0
    && (forall k :: 0 <= k < |trace| - 1 ==> JoinsTo(rank, trace[k], trace[k + 1]))
    && NothingToMerge(rank, trace[|trace| - 1])
  }

  lemma {:induction false} MergeTrace(rank: map<Bytes, nat>, syms: seq<Bytes>) returns (trace: seq<seq<Bytes>>)
    ensures LowestMerges(rank, trace) && trace[0] == syms && trace[|trace| - 1] == MergeAll(rank, syms)
    decreases |syms|
  {
    hide PairRank;
    BestMergeIsBest(rank, syms, PairTotal(syms));
    match BestMerge(rank, syms, PairTotal(syms))
    case None =>
      trace := [syms];
    case Some(i) =>
      var rest := MergeTrace(rank, JoinAt(syms, i));
      trace := [syms] + rest;
      assert Lowest(rank, syms, i);
      forall k | 0 <= k < |trace| - 1
        ensures JoinsTo(rank, trace[k], trace[k + 1])
      {
        if k > 0 {
          assert JoinsTo(rank, rest[k - 1], rest[k]);
        }
      }
  }

  // ----- The ids

  /** A chunk starts as the atoms of its bytes. */
  lemma {:induction false} StartsAsAtoms(raw: Bytes)
    ensures |Units(EncodeBytes(raw))| == |raw|
    ensures forall i :: 0 <= i < |raw| ==> Units(EncodeBytes(raw))[i] == Atom(raw[i])
  {
    if |raw| > 0 {
      AtomIsUnit(raw[0], EncodeBytes(raw[1..]));
      StartsAsAtoms(raw[1..]);
    }
  }

  /** A symbol outside the vocabulary falls back to its atoms, and an atom that is missing to the unknown token. */
  lemma {:induction false} FallbackIs(t: Tokenizer, z: Bytes)
    ensures AtomIds(t, z).Ok? <==> t.unk >= 0 || forall k :: 0 <= k < |Units(z)| ==> Units(z)[k] in t.tokenToId
    ensures AtomIds(t, z).Ok? ==>
              && |AtomIds(t, z).value| == |Units(z)|
              && forall k :: 0 <= k < |Units(z)| ==>
                   AtomIds(t, z).value[k] == if Units(z)[k] in t.tokenToId then t.tokenToId[Units(z)[k]] else t.unk
    decreases |z|
  {
    hide UnitAt;
    if |z| > 0 {
      var n := UnitAt(z, 0).len;
      FallbackIs(t, z[n..]);
      assert Units(z) == [z[..n]] + Units(z[n..]);
      if forall k :: 0 <= k < |Units(z)| ==> Units(z)[k] in t.tokenToId {
        assert Units(z)[0] in t.tokenToId;
        forall k | 0 <= k < |Units(z[n..])|
          ensures Units(z[n..])[k] in t.tokenToId
        {
          assert Units(z)[k + 1] == Units(z[n..])[k];
        }
      }
      if z[..n] in t.tokenToId && forall k :: 0 <= k < |Units(z[n..])| ==> Units(z[n..])[k] in t.tokenToId {
        forall k | 0 <= k < |Units(z)|
          ensures Units(z)[k] in t.tokenToId
        {
          if k > 0 {
            assert Units(z)[k] == Units(z[n..])[k - 1];
          }
        }
      }
    }
  }

  /** A symbol is looked up whole first; its id is that of the last token that reads so. */
  lemma SymbolIs(t: Tokenizer, z: Bytes)
    requires WellBuilt(t)
    ensures z in t.tokens ==>
              exists id: nat :: SymbolIds(t, z) == Ok([id]) && id < |t.tokens| && t.tokens[id] == z
                                && forall j :: id < j < |t.tokens| ==> t.tokens[j] != z
    ensures z !in t.tokens ==> SymbolIds(t, z) == AtomIds(t, z)
  {
    if z in t.tokens {
      var j :| 0 <= j < |t.tokens| && t.tokens[j] == z;
      assert SymbolIds(t, z) == Ok([t.tokenToId[z]]);
    }
  }

  // ----- The longest token, again and again

  lemma AtomsAre(t: Tokenizer)
    requires WellBuilt(t)
    ensures t.byteBpeComplete <==> forall b: Byte :: Atom(b) in t.tokens
  {
    hide Atom;
    assert forall x :: x in t.tokenToId <==> x in t.tokens;
  }

  lemma FirstSpace(z: Bytes, n: nat) returns (sp: nat)
    requires n <= |z| && 0x20 in z[..n]
    ensures sp < n && z[sp] == 0x20 && 0x20 !in z[..sp]
  {
    if 0x20 in z[..n - 1] {
      sp := FirstSpace(z, n - 1);
    } else {
      sp := n - 1;
      assert z[..n] == z[..n - 1] + [z[n - 1]];
    }
  }

  lemma SpaceIsRanked(merges: seq<Bytes>, i: nat)
    requires i < |merges| && 0x20 in merges[i]
    ensures exists k :: RanksAs(merges, i, k)
  {
    var z := merges[i];
    assert z[..|z|] == z;
    var sp := FirstSpace(z, |z|);
    assert SplitsAt(z, sp, MergeKey(z[..sp], z[sp + 1..]));
    assert RanksAs(merges, i, MergeKey(z[..sp], z[sp + 1..]));
  }

  /** The greedy branch is for vocabularies that lack an atom and whose merge list has no line with a space. */
  lemma BranchIs(t: Tokenizer, merges: seq<Bytes>, text: Bytes)
    requires WellBuilt(t) && RankedTo(merges, t.mergeRank, |merges|)
    ensures var greedy := (exists b: Byte :: Atom(b) !in t.tokens)
                          && forall i :: 0 <= i < |merges| ==> 0x20 !in merges[i];
            EncodeSpec(t, text) == if greedy then GreedyFrom(t, text, 0) else EncodeFrom(t, text, 0)
  {
    hide GreedyFrom, EncodeFrom, Atom;
    AtomsAre(t);
    if |t.mergeRank| > 0 {
      var k :| k in t.mergeRank;
      assert RanksAs(merges, t.mergeRank[k], k);
      var sp :| 0 <= sp < |merges[t.mergeRank[k]]| && SplitsAt(merges[t.mergeRank[k]], sp, k);
      assert merges[t.mergeRank[k]][sp] == 0x20;
    }
    forall i | 0 <= i < |merges| && 0x20 in merges[i]
      ensures |t.mergeRank| > 0
    {
      SpaceIsRanked(merges, i);
    }
  }

  predicate TokenAt(t: Tokenizer, text: Bytes, p: nat, id: nat) {
    id < |t.tokens| && |t.tokens[id]| > 0 && At(text, p, t.tokens[id])
  }

  ghost predicate NoTokenAt(t: Tokenizer, text: Bytes, p: nat) {
    forall id: nat :: !TokenAt(t, text, p, id)
  }

  lemma {:induction false} LongestOf(t: Tokenizer, text: Bytes, p: nat, n: nat)
    requires n <= |t.greedy|
    ensures var r := Longest(t, text, p, n);
            forall k :: 0 <= k < n && |t.greedy[k].0| > 0 && At(text, p, t.greedy[k].0) ==>
              r.Some? && |t.greedy[k].0| <= |t.greedy[r.value].0|
  {
    if n > 0 {
      LongestOf(t, text, p, n - 1);
    }
  }

  /** The token taken at p is a longest one that matches there, and none is taken only if none matches. */
  lemma LongestIs(t: Tokenizer, text: Bytes, p: nat)
    requires WellBuilt(t)
    ensures var r := Longest(t, text, p, |t.greedy|);
            && (r.Some? ==> TokenAt(t, text, p, t.greedy[r.value].1)
                            && t.greedy[r.value].0 == t.tokens[t.greedy[r.value].1])
            && forall id: nat :: TokenAt(t, text, p, id) ==>
                 r.Some? && |t.tokens[id]| <= |t.greedy[r.value].0|
  {
    LongestOf(t, text, p, |t.greedy|);
    var r := Longest(t, text, p, |t.greedy|);
    if r.Some? {
      assert t.greedy[r.value] in t.greedy;
    }
    forall id: nat | TokenAt(t, text, p, id)
      ensures r.Some? && |t.tokens[id]| <= |t.greedy[r.value].0|
    {
      assert (t.tokens[id], id) in t.greedy;
    }
  }

  /** The texts of the tokens, one after the other. */
  function TokenTexts(t: Tokenizer, ids: seq<int>): Bytes {
    if |ids| == 0 then []
    else (if 0 <= ids[0] < |t.tokens| then t.tokens[ids[0]] else []) + TokenTexts(t, ids[1..])
  }

  lemma NoTexts(t: Tokenizer)
    ensures TokenTexts(t, []) == []
  {
  }

  lemma NoneAt(t: Tokenizer, text: Bytes, p: nat)
    requires forall id: nat :: !TokenAt(t, text, p, id)
    ensures NoTokenAt(t, text, p)
  {
  }

  lemma TokenTextsCons(t: Tokenizer, id: nat, ids: seq<int>)
    requires id < |t.tokens|
    ensures TokenTexts(t, [id] + ids) == t.tokens[id] + TokenTexts(t, ids)
  {
    assert ([id] + ids)[1..] == ids;
  }

  /**
   * Without an unknown token greedy encoding keeps the text, or fails at a place where no token matches; with one it
   * never fails.
   */
  lemma {:induction false} GreedySpells(t: Tokenizer, text: Bytes, p: nat)
    requires WellBuilt(t) && p <= |text|
    ensures var r := GreedyFrom(t, text, p);
            && (r.Ok? && t.unk < 0 ==> TokenTexts(t, r.value) == text[p..])
            && (r.Err? ==> t.unk < 0 && exists q: nat :: p <= q < |text| && NoTokenAt(t, text, q))
    decreases |text| - p
  {
    hide WellBuilt, Longest, TokenTexts, NoTokenAt;
    if p == |text| {
      NoTexts(t);
      assert text[p..] == [];
    } else {
      LongestIs(t, text, p);
      match Longest(t, text, p, |t.greedy|)
      case Some(k) =>
        var x, id := t.greedy[k].0, t.greedy[k].1;
        GreedySpells(t, text, p + |x|);
        var rest := GreedyFrom(t, text, p + |x|);
        if rest.Ok? {
          TokenTextsCons(t, id, rest.value);
          assert text[p..] == text[p..p + |x|] + text[p + |x|..];
        }
      case None =>
        NoneAt(t, text, p);
        if t.unk >= 0 {
          GreedySpells(t, text, p + 1);
        }
    }
  }

  lemma ByteAt(t: Tokenizer, text: Bytes, q: nat)
    requires q < |text| && [text[q]] in t.tokens
    ensures !NoTokenAt(t, text, q)
  {
    var id :| 0 <= id < |t.tokens| && t.tokens[id] == [text[q]];
    assert TokenAt(t, text, q, id);
  }

  /** If every byte is a token, greedy encoding never fails and never needs the unknown token. */
  lemma GreedyNeedsBytes(t: Tokenizer, text: Bytes)
    requires WellBuilt(t) && t.unk < 0 && forall b: Byte :: [b] in t.tokens
    ensures GreedyFrom(t, text, 0).Ok? && TokenTexts(t, GreedyFrom(t, text, 0).value) == text
  {
    hide WellBuilt, NoTokenAt, GreedyFrom;
    GreedySpells(t, text, 0);
    forall q: nat | q < |text|
      ensures !NoTokenAt(t, text, q)
    {
      ByteAt(t, text, q);
    }
    assert text[0..] == text;
  }
}
