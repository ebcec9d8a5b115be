/**
 * GPT-2 encoding: special tokens are cut out, the rest is pre-tokenized, spelled in atoms, merged by rank and looked
 * up.
 * The last section proves which texts survive encode followed by decode.
 */
module Gpt2 {
  import opened Common
  import opened ByteStrings
  import opened ByteUnicode
  import opened Tokenizer
  import opened Pretokenizer

  // ----- Byte-pair merging by rank

  function PairRank(rank: map<Bytes, nat>, syms: seq<Bytes>, i: nat): Option<nat>
    requires i + 1 < |syms|
  {
    var key := MergeKey(syms[i], syms[i + 1]);
    if key in rank && rank[key] < U64_MAX then Some(rank[key]) else None
  }

  /** The leftmost pair of lowest rank among the first n. */
  function BestMerge(rank: map<Bytes, nat>, syms: seq<Bytes>, n: nat): (r: Option<nat>)
    requires n == 0 || n < |syms|
    ensures r.Some? ==> r.value < n && PairRank(rank, syms, r.value).Some?
  {
    if n == 0 then None
    else
      var best := BestMerge(rank, syms, n - 1);
      var here := PairRank(rank, syms, n - 1);
      if here.None? then best
      else if best.None? || here.value < PairRank(rank, syms, best.value).value then Some(n - 1)
      else best
  }

  /** The scan finds a pair no ranked pair beats; pairs to its left are strictly worse. */
  lemma {:induction false} BestMergeIsBest(rank: map<Bytes, nat>, syms: seq<Bytes>, n: nat)
    requires n == 0 || n < |syms|
    ensures var r := BestMerge(rank, syms, n);
            forall j :: 0 <= j < n && PairRank(rank, syms, j).Some? ==>
              && r.Some?
              && PairRank(rank, syms, r.value).value <= PairRank(rank, syms, j).value
              && (j < r.value ==> PairRank(rank, syms, r.value).value < PairRank(rank, syms, j).value)
  {
    if n > 0 {
      BestMergeIsBest(rank, syms, n - 1);
    }
  }

  function JoinAt(syms: seq<Bytes>, i: nat): (r: seq<Bytes>)
    requires i + 1 < |syms|
    ensures |r| == |syms| - 1
  {
    syms[..i] + [syms[i] + syms[i + 1]] + syms[i + 2..]
  }

  function PairTotal(syms: seq<Bytes>): nat {
    if |syms| == 0 then 0 else |syms| - 1
  }

  function MergeAll(rank: map<Bytes, nat>, syms: seq<Bytes>): seq<Bytes>
    decreases |syms|
  {
    match BestMerge(rank, syms, PairTotal(syms))
    case None => syms
    case Some(i) => MergeAll(rank, JoinAt(syms, i))
  }

  method FindBest(rank: map<Bytes, nat>, syms: seq<Bytes>) returns (r: Option<nat>)
    ensures r == BestMerge(rank, syms, PairTotal(syms))
  {
    var best := U64_MAX;
    var at := 0;
    var found := false;
    var i := 0;
    while i + 1 < |syms|
      invariant 0 <= i && (i == 0 || i < |syms|)
      invariant BestMerge(rank, syms, i) == if found then Some(at) else None
      invariant found ==> PairRank(rank, syms, at) == Some(best)
      invariant !found ==> best == U64_MAX
    {
      var key := MergeKey(syms[i], syms[i + 1]);
      if key in rank && rank[key] < best {
        best := rank[key];
        at := i;
        found := true;
      }
      i := i + 1;
    }
    return if found then Some(at) else None;
  }

  method MergeByRank(rank: map<Bytes, nat>, initial: seq<Bytes>) returns (syms: seq<Bytes>)
    ensures syms == MergeAll(rank, initial)
  {
    syms := initial;
    var best := FindBest(rank, syms);
    while best.Some?
      invariant best == BestMerge(rank, syms, PairTotal(syms))
      invariant MergeAll(rank, syms) == MergeAll(rank, initial)
      decreases |syms|, best.Some?
    {
      var at := best.value;
      ghost var before := syms;
      syms := syms[at := syms[at] + syms[at + 1]];
      syms := syms[..at + 1] + syms[at + 2..];
      assert syms == JoinAt(before, at);
      best := FindBest(rank, syms);
    }
  }

  // ----- From symbols to ids

  function Prepend(ids: seq<int>, r: Result<seq<int>>): Result<seq<int>> {
    match r
    case Ok(more) => Ok(ids + more)
    case Err(e) => Err(e)
  }

  const ABSENT: string := "GPT-2 byte token absent from GGUF vocabulary"

  /** Fallback: one token per atom. */
  function AtomIds(t: Tokenizer, z: Bytes): Result<seq<int>> {
    if |z| == 0 then Ok([])
    else
      var n := UnitAt(z, 0).len;
      if z[..n] in t.tokenToId then Prepend([t.tokenToId[z[..n]]], AtomIds(t, z[n..]))
      else if t.unk >= 0 then Prepend([t.unk], AtomIds(t, z[n..]))
      else Err(ABSENT)
  }

  function SymbolIds(t: Tokenizer, z: Bytes): Result<seq<int>> {
    if z in t.tokenToId then Ok([t.tokenToId[z]]) else AtomIds(t, z)
  }

  function SymbolsIds(t: Tokenizer, syms: seq<Bytes>): Result<seq<int>> {
    if |syms| == 0 then Ok([])
    else
      var ids :- SymbolIds(t, syms[0]);
      Prepend(ids, SymbolsIds(t, syms[1..]))
  }

  function Units(s: Bytes): seq<Bytes> {
    if |s| == 0 then [] else [s[..UnitAt(s, 0).len]] + Units(s[UnitAt(s, 0).len..])
  }

  function ChunkIds(t: Tokenizer, raw: Bytes): Result<seq<int>> {
    SymbolsIds(t, MergeAll(t.mergeRank, Units(EncodeBytes(raw))))
  }

  function ChunksIds(t: Tokenizer, chunks: seq<Bytes>): Result<seq<int>> {
    if |chunks| == 0 then Ok([])
    else
      var ids :- ChunkIds(t, chunks[0]);
      Prepend(ids, ChunksIds(t, chunks[1..]))
  }

  /** The first listed special token that matches at p. */
  function SpecialAt(t: Tokenizer, text: Bytes, p: nat, i: nat): (r: Option<nat>)
    requires i <= |t.specials|
    ensures r.Some? ==> i <= r.value < |t.specials| && |t.specials[r.value].0| > 0 && At(text, p, t.specials[r.value].0)
    decreases |t.specials| - i
  {
    if i == |t.specials| then None
    else if |t.specials[i].0| > 0 && At(text, p, t.specials[i].0) then Some(i)
    else SpecialAt(t, text, p, i + 1)
  }

  /** The next position at or after q where some special token matches. */
  function NextSpecial(t: Tokenizer, text: Bytes, q: nat): (e: nat)
    requires q <= |text|
    ensures q <= e <= |text|
    decreases |text| - q
  {
    if q == |text| || SpecialAt(t, text, q, 0).Some? then q else NextSpecial(t, text, q + 1)
  }

  /** Where the scan continues after p: past a special token, or at the next one. */
  function StepEnd(t: Tokenizer, text: Bytes, p: nat): (e: nat)
    requires p < |text|
    ensures p < e <= |text|
  {
    match SpecialAt(t, text, p, 0)
    case Some(k) => p + |t.specials[k].0|
    case None => NextSpecial(t, text, p + 1)
  }

  function StepIds(t: Tokenizer, text: Bytes, p: nat): Result<seq<int>>
    requires p < |text|
  {
    match SpecialAt(t, text, p, 0)
    case Some(k) => Ok([t.specials[k].1])
    case None => ChunksIds(t, Chunks(text[p..StepEnd(t, text, p)], 0))
  }

  function EncodeFrom(t: Tokenizer, text: Bytes, p: nat): Result<seq<int>>
    requires p <= |text|
    decreases |text| - p
  {
    if p == |text| then Ok([])
    else
      var ids :- StepIds(t, text, p);
      Prepend(ids, EncodeFrom(t, text, StepEnd(t, text, p)))
  }

  // ----- Without byte atoms and merges: the longest token, again and again

  /** The first of the longest entries among the first n that match at p. */
  function Longest(t: Tokenizer, text: Bytes, p: nat, n: nat): (r: Option<nat>)
    requires n <= |t.greedy|
    ensures r.Some? ==> r.value < n && |t.greedy[r.value].0| > 0 && At(text, p, t.greedy[r.value].0)
  {
    if n == 0 then None
    else
      var best, x := Longest(t, text, p, n - 1), t.greedy[n - 1].0;
      if |x| > 0 && At(text, p, x) && (best.None? || |t.greedy[best.value].0| < |x|) then Some(n - 1) else best
  }

  const NOT_ENCODABLE: string := "tokenizer could not encode byte sequence"

  function GreedyFrom(t: Tokenizer, text: Bytes, p: nat): Result<seq<int>>
    requires p <= |text|
    decreases |text| - p
  {
    if p == |text| then Ok([])
    else
      match Longest(t, text, p, |t.greedy|)
      case Some(k) => Prepend([t.greedy[k].1], GreedyFrom(t, text, p + |t.greedy[k].0|))
      case None => if t.unk >= 0 then Prepend([t.unk], GreedyFrom(t, text, p + 1)) else Err(NOT_ENCODABLE)
  }

  /** What encoding returns. */
  function EncodeSpec(t: Tokenizer, text: Bytes): Result<seq<int>> {
    if !t.byteBpeComplete && |t.mergeRank| == 0 then GreedyFrom(t, text, 0) else EncodeFrom(t, text, 0)
  }

  // ----- The implementation

  lemma PrependTwice(a: seq<int>, b: seq<int>, r: Result<seq<int>>)
    ensures Prepend(a, Prepend(b, r)) == Prepend(a + b, r)
  {
    if r.Ok? {
      assert (a + b) + r.value == a + (b + r.value);
    }
  }

  lemma PrependEnds(ids: seq<int>, r: Result<seq<int>>)
    ensures Prepend([], r) == r
    ensures Prepend(ids, Ok([])) == Ok(ids)
  {
    assert ids + [] == ids;
    if r.Ok? {
      assert [] + r.value == r.value;
    }
  }

  method EmitAtoms(t: Tokenizer, z: Bytes) returns (r: Result<seq<int>>)
    ensures r == AtomIds(t, z)
  {
    var ids: seq<int> := [];
    var i := 0;
    assert z[0..] == z;
    PrependEnds([], AtomIds(t, z));
    while i < |z|
      invariant 0 <= i <= |z|
      invariant Prepend(ids, AtomIds(t, z[i..])) == AtomIds(t, z)
    {
      var u := UnitAt(z, i);
      UnitSuffix(z, i);
      SliceOfSuffix(z, i, u.len);
      var atom := z[i..i + u.len];
      if atom in t.tokenToId {
        PrependTwice(ids, [t.tokenToId[atom]], AtomIds(t, z[i + u.len..]));
        ids := ids + [t.tokenToId[atom]];
      } else if t.unk >= 0 {
        PrependTwice(ids, [t.unk], AtomIds(t, z[i + u.len..]));
        ids := ids + [t.unk];
      } else {
        return Err(ABSENT);
      }
      i := i + u.len;
    }
    PrependEnds(ids, Ok([]));
    return Ok(ids);
  }

  method EmitSymbols(t: Tokenizer, syms: seq<Bytes>) returns (r: Result<seq<int>>)
    ensures r == SymbolsIds(t, syms)
  {
    var ids: seq<int> := [];
    PrependEnds([], SymbolsIds(t, syms));
    assert syms[0..] == syms;
    for i := 0 to |syms|
      invariant Prepend(ids, SymbolsIds(t, syms[i..])) == SymbolsIds(t, syms)
    {
      assert syms[i..][1..] == syms[i + 1..];
      var more: Result<seq<int>>;
      if syms[i] in t.tokenToId {
        more := Ok([t.tokenToId[syms[i]]]);
      } else {
        more := EmitAtoms(t, syms[i]);
        if more.Err? {
          return more;
        }
      }
      PrependTwice(ids, more.value, SymbolsIds(t, syms[i + 1..]));
      ids := ids + more.value;
    }
    PrependEnds(ids, Ok([]));
    return Ok(ids);
  }

  method SplitUnits(s: Bytes) returns (syms: seq<Bytes>)
    ensures syms == Units(s)
  {
    hide UnitAt;
    syms := [];
    var i := 0;
    assert s[0..] == s;
    while i < |s|
      invariant 0 <= i <= |s|
      invariant syms + Units(s[i..]) == Units(s)
    {
      var u := UnitAt(s, i);
      UnitSuffix(s, i);
      SliceOfSuffix(s, i, u.len);
      syms := syms + [s[i..i + u.len]];
      i := i + u.len;
    }
  }

  method BpeOne(t: Tokenizer, raw: Bytes) returns (r: Result<seq<int>>)
    ensures r == ChunkIds(t, raw)
  {
    var s := EncodeBytesLoop(raw);
    var syms := SplitUnits(s);
    syms := MergeByRank(t.mergeRank, syms);
    r := EmitSymbols(t, syms);
  }

  method EmitChunks(t: Tokenizer, chunks: seq<Bytes>) returns (r: Result<seq<int>>)
    ensures r == ChunksIds(t, chunks)
  {
    var ids: seq<int> := [];
    PrependEnds([], ChunksIds(t, chunks));
    assert chunks[0..] == chunks;
    for i := 0 to |chunks|
      invariant Prepend(ids, ChunksIds(t, chunks[i..])) == ChunksIds(t, chunks)
    {
      assert chunks[i..][1..] == chunks[i + 1..];
      var more := BpeOne(t, chunks[i]);
      if more.Err? {
        return more;
      }
      PrependTwice(ids, more.value, ChunksIds(t, chunks[i + 1..]));
      ids := ids + more.value;
    }
    PrependEnds(ids, Ok([]));
    return Ok(ids);
  }

  method FindSpecial(t: Tokenizer, text: Bytes, p: nat) returns (k: Option<nat>)
    requires p <= |text|
    ensures k == SpecialAt(t, text, p, 0)
  {
    for i := 0 to |t.specials|
      invariant SpecialAt(t, text, p, i) == SpecialAt(t, text, p, 0)
    {
      var x := t.specials[i].0;
      if |x| == 0 || |x| > |text| - p {
        continue;
      }
      if text[p..p + |x|] == x {
        return Some(i);
      }
    }
    return None;
  }

  method ScanPlain(t: Tokenizer, text: Bytes, from: nat) returns (q: nat)
    requires from <= |text|
    ensures q == NextSpecial(t, text, from)
  {
    q := from;
    while q < |text|
      invariant from <= q <= |text|
      invariant NextSpecial(t, text, q) == NextSpecial(t, text, from)
    {
      var hit := FindSpecial(t, text, q);
      if hit.Some? {
        return;
      }
      q := q + 1;
    }
  }

  /** One round of the outer loop: a special token, or the text up to the next one. */
  method EncodeStep(t: Tokenizer, text: Bytes, p: nat) returns (r: Result<seq<int>>, end: nat)
    requires p < |text|
    ensures r == StepIds(t, text, p) && end == StepEnd(t, text, p)
  {
    var k := FindSpecial(t, text, p);
    if k.Some? {
      var sp := t.specials[k.value];
      return Ok([sp.1]), p + |sp.0|;
    }
    end := ScanPlain(t, text, p + 1);
    var chunks := Pretokenize(text[p..end]);
    r := EmitChunks(t, chunks);
  }

  method FindLongest(t: Tokenizer, text: Bytes, p: nat) returns (best: Option<nat>)
    requires p <= |text|
    ensures best == Longest(t, text, p, |t.greedy|)
  {
    best := None;
    var length := 0;
    for i := 0 to |t.greedy|
      invariant best == Longest(t, text, p, i)
      invariant length == if best.Some? then |t.greedy[best.value].0| else 0
    {
      var x := t.greedy[i].0;
      if |x| == 0 || |x| <= length || |x| > |text| - p {
        continue;
      }
      if text[p..p + |x|] == x {
        best := Some(i);
        length := |x|;
      }
    }
  }

  method EncodeGreedy(t: Tokenizer, text: Bytes) returns (r: Result<seq<int>>)
    ensures r == GreedyFrom(t, text, 0)
  {
    var ids: seq<int> := [];
    var p := 0;
    PrependEnds([], GreedyFrom(t, text, 0));
    while p < |text|
      invariant 0 <= p <= |text|
      invariant Prepend(ids, GreedyFrom(t, text, p)) == GreedyFrom(t, text, 0)
    {
      var best := FindLongest(t, text, p);
      var id, length := t.unk, 1;
      if best.Some? {
        id, length := t.greedy[best.value].1, |t.greedy[best.value].0|;
      } else if t.unk < 0 {
        return Err(NOT_ENCODABLE);
      }
      PrependTwice(ids, [id], GreedyFrom(t, text, p + length));
      ids := ids + [id];
      p := p + length;
    }
    PrependEnds(ids, Ok([]));
    return Ok(ids);
  }

  method Encode(t: Tokenizer, text: Bytes) returns (r: Result<seq<int>>)
    ensures r == EncodeSpec(t, text)
  {
    if !t.byteBpeComplete && |t.mergeRank| == 0 {
      r := EncodeGreedy(t, text);
      return;
    }
    var ids: seq<int> := [];
    var p := 0;
    PrependEnds([], EncodeFrom(t, text, 0));
    while p < |text|
      invariant 0 <= p <= |text|
      invariant Prepend(ids, EncodeFrom(t, text, p)) == EncodeFrom(t, text, 0)
      decreases |text| - p
    {
      var more, end := EncodeStep(t, text, p);
      if more.Err? {
        return more;
      }
      PrependTwice(ids, more.value, EncodeFrom(t, text, end));
      ids := ids + more.value;
      p := end;
    }
    PrependEnds(ids, Ok([]));
    return Ok(ids);
  }

  // ----- Encode then decode

  /** Every symbol spells some bytes; raws lists them. */
  ghost predicate Spelled(syms: seq<Bytes>, raws: seq<Bytes>) {
    |syms| == |raws| && forall i :: 0 <= i < |syms| ==> syms[i] == EncodeBytes(raws[i])
  }

  function Singles(raw: Bytes): seq<Bytes> {
    if |raw| == 0 then [] else [[raw[0]]] + Singles(raw[1..])
  }

  lemma {:induction false} SinglesFlatten(raw: Bytes)
    ensures Flatten(Singles(raw)) == raw
  {
    if |raw| > 0 {
      SinglesFlatten(raw[1..]);
      assert Singles(raw)[1..] == Singles(raw[1..]);
    }
  }

  lemma EncodeSingle(b: Byte)
    ensures EncodeBytes([b]) == Atom(b)
  {
    assert EncodeBytes([b]) == Atom(b) + EncodeBytes([b][1..]);
  }

  /** The units of the spelled text are the atoms of its bytes. */
  lemma {:induction false} UnitsSpelled(raw: Bytes)
    ensures Spelled(Units(EncodeBytes(raw)), Singles(raw))
  {
    if |raw| > 0 {
      var rest := EncodeBytes(raw[1..]);
      AtomIsUnit(raw[0], rest);
      EncodeSingle(raw[0]);
      UnitsSpelled(raw[1..]);
      assert Units(EncodeBytes(raw)) == [Atom(raw[0])] + Units(rest);
    }
  }

  lemma {:induction false} FlattenJoin(ss: seq<Bytes>, i: nat)
    requires i + 1 < |ss|
    ensures Flatten(JoinAt(ss, i)) == Flatten(ss)
    decreases i
  {
    var j := JoinAt(ss, i);
    if i == 0 {
      assert j[1..] == ss[2..];
      assert ss[1..][1..] == ss[2..];
      assert ss[1..][0] == ss[1];
      Assoc(ss[0], ss[1], Flatten(ss[2..]));
    } else {
      assert ss[1..][i - 1] == ss[i] && ss[1..][i] == ss[i + 1];
      assert j[1..] == JoinAt(ss[1..], i - 1);
      FlattenJoin(ss[1..], i - 1);
    }
  }

  lemma JoinSpelled(syms: seq<Bytes>, raws: seq<Bytes>, i: nat)
    requires Spelled(syms, raws) && i + 1 < |syms|
    ensures Spelled(JoinAt(syms, i), JoinAt(raws, i))
  {
    EncodeAppend(raws[i], raws[i + 1]);
    var a, b := JoinAt(syms, i), JoinAt(raws, i);
    forall k | 0 <= k < |a|
      ensures a[k] == EncodeBytes(b[k])
    {
      if k > i {
        assert a[k] == syms[k + 1] && b[k] == raws[k + 1];
      }
    }
  }

  /** Merging joins neighbours, so the symbols keep spelling the same bytes. */
  lemma {:induction false} MergeAllSpelled(rank: map<Bytes, nat>, syms: seq<Bytes>, raws: seq<Bytes>)
    returns (raws': seq<Bytes>)
    requires Spelled(syms, raws)
    ensures Spelled(MergeAll(rank, syms), raws') && Flatten(raws') == Flatten(raws)
    decreases |syms|
  {
    match BestMerge(rank, syms, PairTotal(syms))
    case None => raws' := raws;
    case Some(i) =>
      JoinSpelled(syms, raws, i);
      FlattenJoin(raws, i);
      raws' := MergeAllSpelled(rank, JoinAt(syms, i), JoinAt(raws, i));
  }

  /** All 256 atoms are in the vocabulary of a GPT-2 tokenizer. */
  ghost predicate ByteComplete(t: Tokenizer) {
    WellBuilt(t) && !IsSentencePiece(t) && t.byteBpeComplete
  }

  /** A result that decodes to d. */
  ghost predicate Decodes(t: Tokenizer, r: Result<seq<int>>, d: Bytes) {
    |t.types| == |t.tokens| && r.Ok? && DecodeAll(t, r.value) == d
  }

  lemma DecodeOne(t: Tokenizer, id: int)
    requires |t.types| == |t.tokens|
    ensures DecodeAll(t, [id]) == DecodePiece(t, id)
  {
    assert [id][..0] == [];
    assert [] + DecodePiece(t, id) == DecodePiece(t, id);
  }

  lemma PieceOf(t: Tokenizer, x: Bytes)
    requires ByteComplete(t) && x in t.tokenToId
    ensures Decodes(t, Ok([t.tokenToId[x]]), DecodeBytes(x))
  {
    DecodeOne(t, t.tokenToId[x]);
  }

  lemma PrependDecodes(t: Tokenizer, ids: seq<int>, d: Bytes, r: Result<seq<int>>, e: Bytes)
    requires Decodes(t, Ok(ids), d) && Decodes(t, r, e)
    ensures Decodes(t, Prepend(ids, r), d + e)
  {
    DecodeAllAppend(t, ids, r.value);
  }

  lemma {:induction false} AtomIdsDecode(t: Tokenizer, raw: Bytes)
    requires ByteComplete(t)
    ensures Decodes(t, AtomIds(t, EncodeBytes(raw)), raw)
  {
    if |raw| > 0 {
      var rest := EncodeBytes(raw[1..]);
      AtomIsUnit(raw[0], rest);
      AtomIdsDecode(t, raw[1..]);
      DecodeEncode([raw[0]]);
      EncodeSingle(raw[0]);
      PieceOf(t, Atom(raw[0]));
      PrependDecodes(t, [t.tokenToId[Atom(raw[0])]], [raw[0]], AtomIds(t, rest), raw[1..]);
      assert raw == [raw[0]] + raw[1..];
    }
  }

  lemma SymbolIdsDecode(t: Tokenizer, raw: Bytes)
    requires ByteComplete(t)
    ensures Decodes(t, SymbolIds(t, EncodeBytes(raw)), raw)
  {
    if EncodeBytes(raw) in t.tokenToId {
      PieceOf(t, EncodeBytes(raw));
      DecodeEncode(raw);
    } else {
      AtomIdsDecode(t, raw);
    }
  }

  lemma {:induction false} SymbolsIdsDecode(t: Tokenizer, syms: seq<Bytes>, raws: seq<Bytes>)
    requires ByteComplete(t) && Spelled(syms, raws)
    ensures Decodes(t, SymbolsIds(t, syms), Flatten(raws))
  {
    if |syms| > 0 {
      SymbolIdsDecode(t, raws[0]);
      SymbolsIdsDecode(t, syms[1..], raws[1..]);
      PrependDecodes(t, SymbolIds(t, syms[0]).value, raws[0], SymbolsIds(t, syms[1..]), Flatten(raws[1..]));
    }
  }

  lemma ChunkIdsDecode(t: Tokenizer, raw: Bytes)
    requires ByteComplete(t)
    ensures Decodes(t, ChunkIds(t, raw), raw)
  {
    UnitsSpelled(raw);
    SinglesFlatten(raw);
    var raws := MergeAllSpelled(t.mergeRank, Units(EncodeBytes(raw)), Singles(raw));
    SymbolsIdsDecode(t, MergeAll(t.mergeRank, Units(EncodeBytes(raw))), raws);
  }

  lemma {:induction false} ChunksIdsDecode(t: Tokenizer, chunks: seq<Bytes>)
    requires ByteComplete(t)
    ensures Decodes(t, ChunksIds(t, chunks), Flatten(chunks))
  {
    if |chunks| > 0 {
      ChunkIdsDecode(t, chunks[0]);
      ChunksIdsDecode(t, chunks[1..]);
      PrependDecodes(t, ChunkIds(t, chunks[0]).value, chunks[0], ChunksIds(t, chunks[1..]), Flatten(chunks[1..]));
    }
  }

  /** The special token at p, if there is one, is altered by byte decoding. */
  ghost predicate StepAltered(t: Tokenizer, text: Bytes, p: nat) {
    match SpecialAt(t, text, p, 0)
    case Some(k) => DecodeBytes(t.specials[k].0) != t.specials[k].0
    case None => false
  }

  /** The scan from p cuts out a special token that byte decoding alters. */
  ghost predicate CutsAltered(t: Tokenizer, text: Bytes, p: nat)
    requires p <= |text|
    decreases |text| - p
  {
    p < |text| && (StepAltered(t, text, p) || CutsAltered(t, text, StepEnd(t, text, p)))
  }

  /** d is the text, or, when something was altered, shorter than it. */
  predicate TextOrShorter(d: Bytes, text: Bytes, altered: bool) {
    if altered then |d| < |text| else d == text
  }

  lemma TextOrShorterConcat(d1: Bytes, x1: Bytes, b1: bool, d2: Bytes, x2: Bytes, b2: bool)
    requires TextOrShorter(d1, x1, b1) && TextOrShorter(d2, x2, b2)
    ensures TextOrShorter(d1 + d2, x1 + x2, b1 || b2)
  {
  }

  lemma DecodeUnitLength(ch: Bytes)
    ensures TextOrShorter(DecodeUnit(ch), ch, DecodeUnit(ch) != ch)
  {
    if IsAtom(ch) {
      OneByteAtom(ByteOf(ch));
    }
  }

  /** Byte decoding never lengthens: what it alters, it shortens. */
  lemma {:induction false} DecodeBytesLength(x: Bytes)
    ensures TextOrShorter(DecodeBytes(x), x, DecodeBytes(x) != x)
    decreases |x|
  {
    if |x| > 0 {
      var n := UnitAt(x, 0).len;
      DecodeUnitLength(x[..n]);
      DecodeBytesLength(x[n..]);
      TextOrShorterConcat(DecodeUnit(x[..n]), x[..n], DecodeUnit(x[..n]) != x[..n],
                          DecodeBytes(x[n..]), x[n..], DecodeBytes(x[n..]) != x[n..]);
      assert x == x[..n] + x[n..];
    }
  }

  lemma SpecialDecodes(t: Tokenizer, k: nat)
    requires ByteComplete(t) && k < |t.specials|
    ensures Decodes(t, Ok([t.specials[k].1]), DecodeBytes(t.specials[k].0))
  {
    DecodeOne(t, t.specials[k].1);
  }

  lemma PlainDecodes(t: Tokenizer, text: Bytes)
    requires ByteComplete(t)
    ensures Decodes(t, ChunksIds(t, Chunks(text, 0)), text)
  {
    ChunksFlatten(text, 0);
    ChunksIdsDecode(t, Chunks(text, 0));
    assert text[0..] == text;
  }

  lemma Split(text: Bytes, p: nat, q: nat)
    requires p <= q <= |text|
    ensures text[p..] == text[p..q] + text[q..]
  {
  }

  lemma StepDecodes(t: Tokenizer, text: Bytes, p: nat)
    requires ByteComplete(t) && p < |text|
    ensures StepIds(t, text, p).Ok?
    ensures TextOrShorter(DecodeAll(t, StepIds(t, text, p).value), text[p..StepEnd(t, text, p)],
            StepAltered(t, text, p))
  {
    hide WellBuilt, DecodeBytes, DecodeAll, Chunks, ChunksIds, NextSpecial, UnitAt;
    match SpecialAt(t, text, p, 0)
    case Some(k) =>
      SpecialDecodes(t, k);
      DecodeBytesLength(t.specials[k].0);
    case None =>
      PlainDecodes(t, text[p..StepEnd(t, text, p)]);
  }

  lemma {:induction false} EncodeFromDecodes(t: Tokenizer, text: Bytes, p: nat)
    requires ByteComplete(t) && p <= |text|
    ensures EncodeFrom(t, text, p).Ok?
    ensures TextOrShorter(DecodeAll(t, EncodeFrom(t, text, p).value), text[p..], CutsAltered(t, text, p))
    decreases |text| - p
  {
    if p < |text| {
      var q := StepEnd(t, text, p);
      StepDecodes(t, text, p);
      EncodeFromDecodes(t, text, q);
      var ids, rest := StepIds(t, text, p).value, EncodeFrom(t, text, q).value;
      DecodeAllAppend(t, ids, rest);
      TextOrShorterConcat(DecodeAll(t, ids), text[p..q], StepAltered(t, text, p),
                          DecodeAll(t, rest), text[q..], CutsAltered(t, text, q));
      Split(text, p, q);
    } else {
      assert text[p..] == [];
    }
  }

  /** Exactly which texts survive: every text, unless a special token that byte decoding alters is cut out of it. */
  lemma RoundTrip(t: Tokenizer, text: Bytes)
    requires ByteComplete(t)
    ensures EncodeSpec(t, text).Ok?
    ensures DecodeSpec(t, EncodeSpec(t, text).value) == text <==> !CutsAltered(t, text, 0)
  {
    EncodeFromDecodes(t, text, 0);
    assert text[0..] == text;
  }

  lemma {:induction false} NoAlteredSpecials(t: Tokenizer, text: Bytes, p: nat)
    requires p <= |text| && forall k :: 0 <= k < |t.specials| ==> DecodeBytes(t.specials[k].0) == t.specials[k].0
    ensures !CutsAltered(t, text, p)
    decreases |text| - p
  {
    if p < |text| {
      NoAlteredSpecials(t, text, StepEnd(t, text, p));
    }
  }

  lemma {:induction false} AsciiIsFixed(x: Bytes)
    requires forall i :: 0 <= i < |x| ==> x[i] < 128
    ensures DecodeBytes(x) == x
  {
    if |x| > 0 {
      AsciiIsFixed(x[1..]);
      var ch := x[..1];
      assert UnitAt(x, 0).len == 1;
      if IsAtom(ch) {
        OneByteAtom(ByteOf(ch));
      }
    }
  }

  /** With ASCII special tokens every byte string survives, malformed UTF-8 included. */
  lemma RoundTripWithAsciiSpecials(t: Tokenizer, text: Bytes)
    requires ByteComplete(t)
    requires forall k :: 0 <= k < |t.specials| ==> forall i :: 0 <= i < |t.specials[k].0| ==> t.specials[k].0[i] < 128
    ensures EncodeSpec(t, text).Ok? && DecodeSpec(t, EncodeSpec(t, text).value) == text
  {
    forall k | 0 <= k < |t.specials|
      ensures DecodeBytes(t.specials[k].0) == t.specials[k].0
    {
      AsciiIsFixed(t.specials[k].0);
    }
    NoAlteredSpecials(t, text, 0);
    RoundTrip(t, text);
  }

  lemma {:induction false} LongestSpecialFirst(t: Tokenizer, k: nat, i: nat)
    requires WellBuilt(t) && i <= k < |t.specials| && |t.specials[k].0| > 0
    ensures var r := SpecialAt(t, t.specials[k].0, 0, i);
            r.Some? && t.specials[r.value].0 == t.specials[k].0
    decreases |t.specials| - i
  {
    var text := t.specials[k].0;
    assert text[..|text|] == text;
    if |t.specials[i].0| > 0 && At(text, 0, t.specials[i].0) {
      assert |t.specials[i].0| >= |text|;
    } else {
      LongestSpecialFirst(t, k, i + 1);
    }
  }

  /** A special token that byte decoding alters does not survive as a text of its own. */
  lemma AlteredSpecialIsLost(t: Tokenizer, k: nat)
    requires ByteComplete(t) && k < |t.specials| && DecodeBytes(t.specials[k].0) != t.specials[k].0
    ensures var text := t.specials[k].0;
            EncodeSpec(t, text).Ok? && DecodeSpec(t, EncodeSpec(t, text).value) != text
  {
    LongestSpecialFirst(t, k, 0);
    RoundTrip(t, t.specials[k].0);
  }
}
