/**
 * What SentencePiece encoding computes, without its own functions: the marked text, the merges in the order in which
 * they happen, the scores they are chosen by, and the ids of what is left.
 */
module SentencePieceMeaning {
  import opened Common
  import opened ByteStrings
  import opened Tokenizer
  import opened SentencePieceMerge
  import opened SentencePiece

  // ----- The marked text

  /** The text with U+2581 for every space. */
  function Spaced(text: Bytes): Bytes {
    if |text| == 0 then [] else (if text[0] == 0x20 then [0xE2, 0x96, 0x81] else [text[0]]) + Spaced(text[1..])
  }

  lemma {:induction false} MarkIs(text: Bytes)
    ensures Mark(text) == Spaced(text)
  {
    if |text| > 0 {
      MarkIs(text[1..]);
      assert text[0..1] == [text[0]];
    }
  }

  lemma PrefixedIs(t: Tokenizer, text: Bytes)
    ensures Prefixed(t, text) == (if t.addSpacePrefix then [0xE2, 0x96, 0x81] else []) + Spaced(text)
  {
    MarkIs(text);
  }

  /** Merging starts from the units of the marked text. */
  lemma {:induction false} StartsAsUnits(s: Bytes, p: nat)
    ensures forall j :: 0 <= j < |UnitSegs(s, p)| ==>
              UnitSegs(s, p)[j].off < |s| && UnitSegs(s, p)[j].len == UnitAt(s, UnitSegs(s, p)[j].off).len
    decreases |s| - p
  {
    hide UnitAt;
    if p < |s| {
      StartsAsUnits(s, p + UnitAt(s, p).len);
    }
  }

  // ----- The merges

  ghost predicate StepsTo(s: Bytes, score: Bytes -> Option<real>, a: seq<Seg>, b: seq<Seg>) {
    exists i: nat :: IsBest(s, score, a, i) && b == Merge(a, i)
  }

  ghost predicate NothingToMerge(s: Bytes, score: Bytes -> Option<real>, segs: seq<Seg>) {
    forall j :: 0 <= j < |segs| - 1 ==> PairScore(s, score, segs, j).None?
  }

  /** Each segmentation comes from the one before by merging its best pair, and the last one has no pair to merge. */
  ghost predicate BestMerges(s: Bytes, score: Bytes -> Option<real>, trace: seq<seq<Seg>>) {
    && |trace| > 0
    && (forall k :: 0 <= k < |trace| - 1 ==> StepsTo(s, score, trace[k], trace[k + 1]))
    && NothingToMerge(s, score, trace[|trace| - 1])
  }

  lemma {:induction false} MergeTrace(s: Bytes, score: Bytes -> Option<real>, segs: seq<Seg>)
    returns (trace: seq<seq<Seg>>)
    requires Tiles(s, segs)
    ensures BestMerges(s, score, trace) && trace[0] == segs && trace[|trace| - 1] == NaiveMerge(s, score, segs)
    decreases |segs|
  {
    hide Tiles, PairScore;
    BestPairIsBest(s, score, segs);
    match BestPair(s, score, segs, PairCount(segs))
    case None =>
      trace := [segs];
    case Some(i) =>
      MergeTiles(s, segs, i);
      var rest := MergeTrace(s, score, Merge(segs, i));
      trace := [segs] + rest;
      assert IsBest(s, score, segs, i);
      forall k | 0 <= k < |trace| - 1
        ensures StepsTo(s, score, trace[k], trace[k + 1])
      {
        if k > 0 {
          assert StepsTo(s, score, rest[k - 1], rest[k]);
        }
      }
  }

  /** A pair is scored by the text of its two segments put together. */
  lemma PairScoreIs(s: Bytes, score: Bytes -> Option<real>, segs: seq<Seg>, i: nat)
    requires Tiles(s, segs) && i + 1 < |segs|
    ensures PairScore(s, score, segs, i) == score(Text(s, segs[i]) + Text(s, segs[i + 1]))
  {
    var a, b := segs[i], segs[i + 1];
    assert s[a.off..b.off + b.len] == s[a.off..a.off + a.len] + s[b.off..b.off + b.len];
  }

  /** Token id is the last that reads x. */
  ghost predicate LastToken(t: Tokenizer, x: Bytes, id: nat) {
    id < |t.tokens| && t.tokens[id] == x && forall j :: id < j < |t.tokens| ==> t.tokens[j] != x
  }

  lemma IdIs(t: Tokenizer, x: Bytes)
    requires WellBuilt(t)
    ensures x in t.tokenToId <==> x in t.tokens
    ensures x in t.tokenToId ==> LastToken(t, x, t.tokenToId[x])
  {
    if x in t.tokens {
      var j :| 0 <= j < |t.tokens| && t.tokens[j] == x;
    }
  }

  /** A piece of the vocabulary has its token's score, and any other text has none. */
  lemma ScoreIs(t: Tokenizer, x: Bytes)
    requires WellBuilt(t)
    ensures Scorer(t)(x).Some? <==> x in t.tokens
    ensures forall id: nat :: LastToken(t, x, id) ==> Scorer(t)(x) == Some(t.scores[id])
  {
    IdIs(t, x);
    forall id: nat | LastToken(t, x, id)
      ensures Scorer(t)(x) == Some(t.scores[id])
    {
      assert x in t.tokens && id == t.tokenToId[x];
    }
  }

  // ----- The ids

  /** Byte fallback: each byte has its own token or else the unknown token; it fails only where there is neither. */
  lemma {:induction false} FallbackIs(t: Tokenizer, x: Bytes)
    ensures ByteIds(t, x).Ok? <==> t.unk >= 0 || forall k :: 0 <= k < |x| ==> x[k] in t.byteTokenId
    ensures ByteIds(t, x).Ok? ==>
              && |ByteIds(t, x).value| == |x|
              && forall k :: 0 <= k < |x| ==>
                   ByteIds(t, x).value[k] == if x[k] in t.byteTokenId then t.byteTokenId[x[k]] else t.unk
    decreases |x|
  {
    if |x| > 0 {
      var y := x[..|x| - 1];
      FallbackIs(t, y);
      assert forall k :: 0 <= k < |y| ==> y[k] == x[k];
    }
  }

  /** A segment is looked up whole; only one that is not in the vocabulary falls back to its bytes. */
  lemma SegmentIs(t: Tokenizer, x: Bytes)
    requires WellBuilt(t)
    ensures x in t.tokens ==> exists id: nat :: SegIds(t, x) == Ok([id]) && LastToken(t, x, id)
    ensures x !in t.tokens ==> SegIds(t, x) == ByteIds(t, x)
  {
    IdIs(t, x);
    if x in t.tokens {
      assert SegIds(t, x) == Ok([t.tokenToId[x]]);
    }
  }

  /** The ids of the segments one after the other. */
  function Joined(ids: seq<seq<int>>): seq<int> {
    if |ids| == 0 then [] else Joined(ids[..|ids| - 1]) + ids[|ids| - 1]
  }

  lemma {:induction false} IdsAreJoined(t: Tokenizer, s: Bytes, segs: seq<Seg>, ids: seq<seq<int>>)
    requires |ids| <= |segs| && Tiles(s, segs)
    requires forall j :: 0 <= j < |ids| ==> SegIds(t, Text(s, segs[j])) == Ok(ids[j])
    ensures AllIds(t, s, segs, |ids|) == Ok(Joined(ids))
    decreases |ids|
  {
    hide SegIds, Text;
    if |ids| > 0 {
      IdsAreJoined(t, s, segs, ids[..|ids| - 1]);
    }
  }

  lemma OneFails(t: Tokenizer, s: Bytes, segs: seq<Seg>, j: nat)
    requires j < |segs| && Tiles(s, segs) && SegIds(t, Text(s, segs[j])).Err?
    ensures AllIds(t, s, segs, |segs|).Err?
  {
    hide SegIds, Text;
    AllIdsFail(t, s, segs, j + 1, |segs|);
  }

  /**
   * Encoding: the marked text, cut into units, merged best pair first until no pair is in the vocabulary, gives the ids
   * of its segments in order, or fails if one of them fails.
   */
  lemma EncodeIs(t: Tokenizer, text: Bytes, ids: seq<seq<int>>) returns (trace: seq<seq<Seg>>)
    requires |text| > 0
    ensures var s := Prefixed(t, text);
            && BestMerges(s, Scorer(t), trace) && trace[0] == UnitSegs(s, 0) && Tiles(s, trace[|trace| - 1])
    ensures var s, segs := Prefixed(t, text), trace[|trace| - 1];
            && (|ids| == |segs| && (forall j :: 0 <= j < |ids| ==> SegIds(t, Text(s, segs[j])) == Ok(ids[j])) ==>
                  EncodeSpec(t, text) == Ok(Joined(ids)))
            && (forall j :: 0 <= j < |segs| && SegIds(t, Text(s, segs[j])).Err? ==> EncodeSpec(t, text).Err?)
  {
    hide BestMerges, SegIds, AllIds, Text;
    var s := Prefixed(t, text);
    UnitSegsTile(s, 0);
    trace := MergeTrace(s, Scorer(t), UnitSegs(s, 0));
    var segs := FinalSegs(t, s);
    if |ids| == |segs| && forall j :: 0 <= j < |ids| ==> SegIds(t, Text(s, segs[j])) == Ok(ids[j]) {
      IdsAreJoined(t, s, segs, ids);
    }
    forall j | 0 <= j < |segs| && SegIds(t, Text(s, segs[j])).Err?
      ensures EncodeSpec(t, text).Err?
    {
      OneFails(t, s, segs, j);
    }
  }
}
