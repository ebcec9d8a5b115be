/**
 * What prefill computes, in terms of the network's own kernels: attention element by element, a layer row by row, and
 * one token through the whole stack.
 */
module PrefillMeaning {
  import opened Common
  import opened Arithmetic
  import opened RealMath
  import opened PagedKV
  import opened BatchInterchange
  import opened BatchKernels
  import opened Prefill

  // ----- Attention

  /** Score t: the query's slice of n elements from qo against the key stored at t, from ko on. */
  function ScoreAt(net: Net, c: Cache, q: seq<real>, qo: nat, ko: nat, n: nat, t: nat): real
    requires ValidCache(c) && View(c, t).Some? && qo + n <= |q| && ko + n <= c.geo.dim
  {
    net.scaleScore(Dot(q, qo, View(c, t).value.k, ko, n))
  }

  /** The values' element e at positions 0..n-1, weighted. */
  function WeightedSum(net: Net, c: Cache, scores: seq<real>, e: nat, n: nat): real
    requires ValidCache(c) && Filled(c, n) && e < c.geo.dim
  {
    if n == 0 then 0.0
    else WeightedSum(net, c, scores, e, n - 1) + Times(net.weight(scores, n - 1), View(c, n - 1).value.v[e])
  }

  lemma {:induction false} DotOfSlice(q: seq<real>, qo: nat, k: seq<real>, ko: nat, n: nat, m: nat)
    requires m <= n && qo + n <= |q| && ko + n <= |k|
    ensures Dot(q[qo..qo + n], 0, k, ko, m) == Dot(q, qo, k, ko, m)
  {
    if m > 0 {
      DotOfSlice(q, qo, k, ko, n, m - 1);
    }
  }

  lemma {:induction false} ScoresAre(net: Net, c: Cache, q: seq<real>, qo: nat, ko: nat, w: nat, n: nat, t: nat)
    requires ValidCache(c) && Filled(c, n) && t < n && qo + w <= |q| && ko + w <= c.geo.dim
    ensures Scores(net, c, ko, q[qo..qo + w], n)[t] == ScoreAt(net, c, q, qo, ko, w, t)
  {
    hide View, ValidCache;
    if t < n - 1 {
      ScoresAre(net, c, q, qo, ko, w, n - 1, t);
    } else {
      assert View(c, t).Some?;
      DotOfSlice(q, qo, View(c, t).value.k, ko, w, w);
    }
  }

  lemma {:induction false} ZerosAre(n: nat, d: nat)
    requires d < n
    ensures Zeros(n)[d] == 0.0
  {
    if d < n - 1 {
      ZerosAre(n - 1, d);
    }
  }

  lemma {:induction false} HeadOutIs(net: Net, c: Cache, ko: nat, scores: seq<real>, n: nat, d: nat)
    requires ValidCache(c) && Filled(c, n) && ko + net.headDim <= c.geo.dim && d < net.headDim
    ensures HeadOut(net, c, ko, scores, n)[d] == WeightedSum(net, c, scores, ko + d, n)
  {
    hide View, ValidCache;
    if n == 0 {
      ZerosAre(net.headDim, d);
    } else {
      HeadOutIs(net, c, ko, scores, n - 1, d);
      assert View(c, n - 1).Some?;
    }
  }

  /** Query head h belongs to key/value head kh: the groups are consecutive, equally large, and in order. */
  predicate InGroup(net: Net, h: nat, kh: nat, group: nat) {
    group * net.nHeadKv == net.nHead && kh < net.nHeadKv && kh * group <= h < kh * group + group
  }

  /** Every query head belongs to a group. */
  lemma EveryHeadHasGroup(net: Net, h: nat) returns (kh: nat, group: nat)
    requires ValidNet(net) && h < net.nHead
    ensures InGroup(net, h, kh, group)
  {
    group := net.nHead / net.nHeadKv;
    DivModIdentity(net.nHead, net.nHeadKv);
    if group == 0 {
      assert false;
    }
    kh := h / group;
    DivModIdentity(h, group);
    if kh >= net.nHeadKv {
      ProductOrder(net.nHeadKv, kh, group);
    }
  }

  /** The members of a group share one slice, that of their key/value head. */
  lemma GroupSlice(net: Net, h: nat, kh: nat, group: nat)
    requires ValidNet(net) && h < net.nHead && InGroup(net, h, kh, group)
    ensures KvOff(net, h) == kh * net.headDim
    ensures kh * net.headDim + net.headDim <= KvDim(net)
  {
    QuotientUnique(net.nHead, net.nHeadKv, group, 0);
    QuotientUnique(h, group, kh, h - kh * group);
    SlotOffIsProduct(kh, net.headDim);
    SlotInPage(kh, net.nHeadKv, net.headDim);
  }

  /** Where head h's part of the attention output lies. */
  lemma {:induction false} AttRowAt(net: Net, c: Cache, q: seq<real>, pos: nat, n: nat, h: nat, d: nat)
    requires ValidNet(net) && ValidCache(c) && |q| == net.nEmbd && h < n <= net.nHead && d < net.headDim
    ensures SlotOff(h, net.headDim) + d < SlotOff(n, net.headDim)
    ensures AttRow(net, c, q, pos, n)[SlotOff(h, net.headDim) + d] == HeadRow(net, c, q, pos, h)[d]
  {
    hide HeadRow;
    if h < n - 1 {
      AttRowAt(net, c, q, pos, n - 1, h, d);
    }
  }

  /** att[qo + d]: element ko + d of the values, weighted by the scores of the query from qo against keys from ko. */
  ghost predicate AttendsFrom(net: Net, c: Cache, q: seq<real>, pos: nat, att: seq<real>, qo: nat, ko: nat, d: nat)
    requires ValidCache(c) && Filled(c, pos + 1)
  {
    && qo + net.headDim <= |q| == |att| && ko + net.headDim <= c.geo.dim && d < net.headDim
    && exists scores: seq<real> ::
         && |scores| == pos + 1
         && (forall t :: 0 <= t <= pos && View(c, t).Some? ==> scores[t] == ScoreAt(net, c, q, qo, ko, net.headDim, t))
         && att[qo + d] == WeightedSum(net, c, scores, ko + d, pos + 1)
  }

  lemma HeadRowIs(net: Net, c: Cache, q: seq<real>, pos: nat, h: nat, qo: nat, ko: nat)
    requires ValidNet(net) && ValidCache(c) && |q| == net.nEmbd && h < net.nHead
    requires qo == SlotOff(h, net.headDim) && ko == KvOff(net, h)
    ensures qo + net.headDim <= |q|
    ensures HeadRow(net, c, q, pos, h)
         == HeadOut(net, c, ko, Scores(net, c, ko, q[qo..qo + net.headDim], pos + 1), pos + 1)
  {
    hide HeadOut, Scores, KvOff, SlotOff;
    SlotInPage(h, net.nHead, net.headDim);
  }

  lemma {:induction false} AllScoresAre(net: Net, c: Cache, q: seq<real>, qo: nat, ko: nat, w: nat, pos: nat)
    requires ValidCache(c) && Filled(c, pos + 1) && qo + w <= |q| && ko + w <= c.geo.dim
    ensures forall t :: 0 <= t <= pos && View(c, t).Some? ==>
              Scores(net, c, ko, q[qo..qo + w], pos + 1)[t] == ScoreAt(net, c, q, qo, ko, w, t)
  {
    forall t | 0 <= t <= pos && View(c, t).Some?
      ensures Scores(net, c, ko, q[qo..qo + w], pos + 1)[t] == ScoreAt(net, c, q, qo, ko, w, t)
    {
      ScoresAre(net, c, q, qo, ko, w, pos + 1, t);
    }
  }

  lemma HeadElement(net: Net, c: Cache, q: seq<real>, pos: nat, h: nat, qo: nat, ko: nat, d: nat)
    requires ValidNet(net) && ValidCache(c) && c.geo.dim == KvDim(net) && Filled(c, pos + 1) && |q| == net.nEmbd
    requires h < net.nHead && d < net.headDim
    requires qo == SlotOff(h, net.headDim) && ko == KvOff(net, h) && ko + net.headDim <= KvDim(net)
    ensures AttendsFrom(net, c, q, pos, AttRow(net, c, q, pos, net.nHead), qo, ko, d)
  {
    hide HeadRow, HeadOut, Scores, AttRow, WeightedSum, ScoreAt, Filled, KvOff, SlotOff, View, ValidCache, KvDim;
    SlotInPage(h, net.nHead, net.headDim);
    AttRowAt(net, c, q, pos, net.nHead, h, d);
    HeadRowIs(net, c, q, pos, h, qo, ko);
    AllScoresAre(net, c, q, qo, ko, net.headDim, pos);
    HeadOutIs(net, c, ko, Scores(net, c, ko, q[qo..qo + net.headDim], pos + 1), pos + 1, d);
  }

  /** Element d of head h comes from the keys and values of the group's head kh, and from no other. */
  lemma AttentionElement(net: Net, c: Cache, q: seq<real>, pos: nat, h: nat, kh: nat, group: nat, d: nat)
    requires ValidNet(net) && ValidCache(c) && c.geo.dim == KvDim(net) && Filled(c, pos + 1) && |q| == net.nEmbd
    requires h < net.nHead && InGroup(net, h, kh, group) && d < net.headDim
    ensures AttendsFrom(net, c, q, pos, AttRow(net, c, q, pos, net.nHead), h * net.headDim, kh * net.headDim, d)
  {
    hide AttRow, AttendsFrom, Filled, KvOff, SlotOff;
    GroupSlice(net, h, kh, group);
    SlotOffIsProduct(h, net.headDim);
    HeadElement(net, c, q, pos, h, h * net.headDim, kh * net.headDim, d);
  }

  /** The workspace in numbers: six rows of the model width, two of the key width, three of the inner width. */
  lemma WorkspaceIs(net: Net, batch: nat)
    requires ValidNet(net)
    ensures WorkspaceBytes(net, batch)
            == 4 * (6 * (batch * net.nEmbd) + 2 * (batch * KvDim(net)) + 3 * (batch * net.nFf))
    ensures net.nEmbd == net.nHead * net.headDim && KvDim(net) == net.nHeadKv * net.headDim
  {
    SlotOffIsProduct(batch, net.nEmbd);
    SlotOffIsProduct(batch, KvDim(net));
    SlotOffIsProduct(batch, net.nFf);
    SlotOffIsProduct(net.nHead, net.headDim);
    SlotOffIsProduct(net.nHeadKv, net.headDim);
  }

  // ----- A layer

  /** x, normalised with weight w. */
  predicate Normed(net: Net, w: NormWeight, x: seq<real>, n: seq<real>) {
    |n| == net.nEmbd && forall i :: 0 <= i < |n| ==> n[i] == net.norm(w, x, i)
  }

  /** The product of n with tensor t. */
  predicate Product(net: Net, t: Tensor, rows: nat, n: seq<real>, y: seq<real>) {
    |y| == rows && forall i :: 0 <= i < rows ==> y[i] == net.dot(t, i, n)
  }

  predicate Rotated(net: Net, x: seq<real>, pos: nat, y: seq<real>) {
    |y| == |x| && forall i :: 0 <= i < |x| ==> y[i] == net.rope(x, pos, i)
  }

  /** The key and value that the row at pos stores. */
  lemma StoredRowIs(net: Net, li: nat, c: Cache, x: seq<real>, pos: nat, n: seq<real>, k: seq<real>, kr: seq<real>,
          v: seq<real>)
    requires Ready(net, c, pos) && pos < U64_MAX
    requires Normed(net, AttnNorm(li), x, n)
    requires Product(net, AttnK(li), KvDim(net), n, k) && Rotated(net, k, pos, kr)
    requires Product(net, AttnV(li), KvDim(net), n, v)
    ensures View(WriteRow(net, li, c, x, pos), pos) == Some(StoredRow(c.geo, kr, v))
  {
    assert n == NormRow(net, AttnNorm(li), x);
    assert k == MatRow(Weights(net, AttnK(li)), n);
    assert kr == KRow(net, li, x, pos) && v == VRow(net, li, x);
    WriteRowReady(net, li, c, x, pos);
    WriteView(c, pos, kr, v, pos);
  }

  /**
   * The row that a layer returns: attention over the rotated query, projected and added to the row; then the gated
   * feed-forward of the normalised sum, added again.
   */
  lemma LayerRowIs(net: Net, li: nat, c: Cache, x: seq<real>, pos: nat, n: seq<real>, q: seq<real>, qr: seq<real>,
          att: seq<real>, mid: seq<real>, m: seq<real>, act: seq<real>, i: nat)
    requires ValidNet(net) && ValidCache(c) && |x| == net.nEmbd && i < net.nEmbd
    requires Normed(net, AttnNorm(li), x, n)
    requires Product(net, AttnQ(li), net.nEmbd, n, q) && Rotated(net, q, pos, qr)
    requires att == AttRow(net, c, qr, pos, net.nHead)
    requires |mid| == net.nEmbd && forall j :: 0 <= j < |mid| ==> mid[j] == x[j] + net.dot(AttnOut(li), j, att)
    requires Normed(net, FfnNorm(li), mid, m)
    requires |act| == net.nFf
    requires forall j :: 0 <= j < |act| ==> act[j] == net.activate(net.dot(Gate(li), j, m), net.dot(Up(li), j, m))
    ensures LayerRow(net, li, c, x, pos)[i] == mid[i] + net.dot(Down(li), i, act)
  {
    hide AttRow, ValidNet;
    assert n == NormRow(net, AttnNorm(li), x);
    assert q == MatRow(Weights(net, AttnQ(li)), n);
    assert qr == QRow(net, li, x, pos);
    assert mid == AttendedRow(net, li, x, att);
    assert m == NormRow(net, FfnNorm(li), mid);
    assert act == GatedRow(net, li, mid);
  }

  // ----- One token through the stack

  /** Layer li has stored the row xs[li] at pos in its cache and turned it into xs[li + 1]. */
  ghost predicate LayerStep(net: Net, li: nat, before: Cache, after: Cache, xs: seq<seq<real>>, pos: nat)
    requires li + 1 < |xs|
  {
    after == WriteRow(net, li, before, xs[li], pos) && xs[li + 1] == LayerRow(net, li, after, xs[li], pos)
  }

  /** A token passes the layers in order, each writing before it attends; the last row gives the logits. */
  ghost predicate TokenStep(net: Net, st: State, token: int, withLogits: bool, next: State, xs: seq<seq<real>>) {
    && 0 <= token < net.vocab
    && |xs| == net.nLayer + 1 && |st.kv| == |next.kv| == net.nLayer
    && |xs[0]| == net.nEmbd && (forall i :: 0 <= i < net.nEmbd ==> xs[0][i] == net.embed(token, i))
    && (forall li :: 0 <= li < net.nLayer ==> LayerStep(net, li, st.kv[li], next.kv[li], xs, st.pos))
    && next.pos == st.pos + 1
    && |next.logits| == (if withLogits then net.vocab else |st.logits|)
    && (withLogits ==> exists n :: Normed(net, OutputNorm, xs[net.nLayer], n)
                                   && forall i :: 0 <= i < net.vocab ==> next.logits[i] == net.logit(i, n))
    && (!withLogits ==> next.logits == st.logits)
  }

  ghost predicate StackStep(net: Net, li: nat, kv: seq<Cache>, out: seq<Cache>, xs: seq<seq<real>>, pos: nat)
    requires li + |kv| == net.nLayer && |kv| == |out| && |xs| == |kv| + 1
  {
    forall j :: 0 <= j < |kv| ==>
      && out[j] == WriteRow(net, li + j, kv[j], xs[j], pos)
      && xs[j + 1] == LayerRow(net, li + j, out[j], xs[j], pos)
  }

  lemma OneRowLayer(net: Net, li: nat, c: Cache, x: seq<real>, pos: nat)
    ensures WriteRows(LayerOf(net, li), c, [x], pos, 1) == WriteRow(net, li, c, x, pos)
    ensures LayerBatch(LayerOf(net, li), c, [x], pos) == [LayerRow(net, li, WriteRow(net, li, c, x, pos), x, pos)]
  {
    hide WriteRow, LayerRow;
  }

  lemma OneRowUnfold(net: Net, li: nat, kv: seq<Cache>, x: seq<real>, pos: nat)
    requires li + |kv| == net.nLayer && |kv| > 0
    ensures var c := WriteRow(net, li, kv[0], x, pos);
            var y := LayerRow(net, li, c, x, pos);
            && Output(LayersFrom(net, li), kv, [x], pos) == Output(LayersFrom(net, li + 1), kv[1..], [y], pos)
            && Stores(LayersFrom(net, li), kv, [x], pos) == [c] + Stores(LayersFrom(net, li + 1), kv[1..], [y], pos)
  {
    hide WriteRow, LayerRow;
    OneRowLayer(net, li, kv[0], x, pos);
    assert LayersFrom(net, li)[0] == LayerOf(net, li) && LayersFrom(net, li)[1..] == LayersFrom(net, li + 1);
  }

  lemma NoLayers(net: Net, kv: seq<Cache>, x: seq<real>, pos: nat)
    requires |kv| == 0
    ensures Output(LayersFrom(net, net.nLayer), kv, [x], pos) == [x]
    ensures Stores(LayersFrom(net, net.nLayer), kv, [x], pos) == []
    ensures StackStep(net, net.nLayer, kv, [], [x], pos)
  {
  }

  lemma StackStepCons(net: Net, li: nat, kv: seq<Cache>, c: Cache, out: seq<Cache>, x: seq<real>, xs: seq<seq<real>>,
          pos: nat)
    requires |kv| > 0 && li + |kv| == net.nLayer && |out| == |kv| - 1 && |xs| == |kv|
    requires c == WriteRow(net, li, kv[0], x, pos) && xs[0] == LayerRow(net, li, c, x, pos)
    requires StackStep(net, li + 1, kv[1..], out, xs, pos)
    ensures StackStep(net, li, kv, [c] + out, [x] + xs, pos)
  {
    hide WriteRow, LayerRow;
    forall j | 1 <= j < |kv|
      ensures ([c] + out)[j] == WriteRow(net, li + j, kv[j], ([x] + xs)[j], pos)
      ensures ([x] + xs)[j + 1] == LayerRow(net, li + j, ([c] + out)[j], ([x] + xs)[j], pos)
    {
      assert kv[1..][j - 1] == kv[j];
    }
  }

  lemma {:induction false} OneRowStack(net: Net, li: nat, kv: seq<Cache>, x: seq<real>, pos: nat)
    returns (xs: seq<seq<real>>)
    requires li + |kv| == net.nLayer
    ensures |xs| == |kv| + 1 && xs[0] == x
    ensures [xs[|kv|]] == Output(LayersFrom(net, li), kv, [x], pos)
    ensures |Stores(LayersFrom(net, li), kv, [x], pos)| == |kv|
    ensures StackStep(net, li, kv, Stores(LayersFrom(net, li), kv, [x], pos), xs, pos)
    decreases |kv|
  {
    hide WriteRow, LayerRow, StackStep, LayersFrom, Output, Stores;
    if |kv| == 0 {
      NoLayers(net, kv, x, pos);
      return [x];
    }
    var c := WriteRow(net, li, kv[0], x, pos);
    var y := LayerRow(net, li, c, x, pos);
    var rest := OneRowStack(net, li + 1, kv[1..], y, pos);
    xs := [x] + rest;
    OneRowUnfold(net, li, kv, x, pos);
    StackStepCons(net, li, kv, c, Stores(LayersFrom(net, li + 1), kv[1..], [y], pos), x, rest, pos);
  }

  lemma EmbedOne(net: Net, token: int)
    requires 0 <= token < net.vocab
    ensures InVocab(net, [token]) && EmbedRows(net, [token]) == [EmbedRow(net, token)]
  {
    assert [token][..0] == [];
  }

  /** A batch of one token. With any batch size giving what size one gives, this is what prefill computes. */
  lemma OneTokenIs(net: Net, st: State, token: int, withLogits: bool) returns (xs: seq<seq<real>>)
    requires |st.kv| == net.nLayer && 0 <= token < net.vocab
    ensures TokenStep(net, st, token, withLogits, BatchResult(net, st, [token], withLogits), xs)
  {
    hide LayersFrom, Output, Stores, WriteRow, LayerRow;
    var x := EmbedRow(net, token);
    EmbedOne(net, token);
    xs := OneRowStack(net, 0, st.kv, x, st.pos);
    var next := BatchResult(net, st, [token], withLogits);
    forall li | 0 <= li < net.nLayer
      ensures LayerStep(net, li, st.kv[li], next.kv[li], xs, st.pos)
    {
    }
    if withLogits {
      var n := NormRow(net, OutputNorm, xs[net.nLayer]);
      assert Normed(net, OutputNorm, xs[net.nLayer], n);
    }
  }

  /** Between two states, one token: the trace of its rows is xs. */
  ghost predicate TokenMoves(net: Net, st: State, token: int, withLogits: bool, next: State) {
    exists xs :: TokenStep(net, st, token, withLogits, next, xs)
  }

  lemma OneTokenMoves(net: Net, st: State, token: int, withLogits: bool)
    requires |st.kv| == net.nLayer && 0 <= token < net.vocab
    ensures InVocab(net, [token])
    ensures TokenMoves(net, st, token, withLogits, BatchResult(net, st, [token], withLogits))
  {
    var xs := OneTokenIs(net, st, token, withLogits);
  }

  /** A batch of any size is what its tokens do one after the other; only the last one computes logits. */
  lemma {:induction false} BatchIsTokenByToken(net: Net, st: State, tokens: seq<int>, withLogits: bool)
    returns (states: seq<State>)
    requires ValidState(net, st) && InVocab(net, tokens) && |tokens| > 0 && st.pos + |tokens| <= net.nCtx
    ensures |states| == |tokens| + 1
    ensures states[0] == st && states[|tokens|] == BatchResult(net, st, tokens, withLogits)
    ensures forall i :: 0 <= i < |tokens| ==>
              TokenMoves(net, states[i], tokens[i], withLogits && i == |tokens| - 1, states[i + 1])
    decreases |tokens|
  {
    hide BatchResult, ValidState, TokenMoves;
    var n := |tokens| - 1;
    var last := tokens[n];
    StateHasLayers(net, st);
    if n == 0 {
      assert tokens == [last];
      OneTokenMoves(net, st, last, withLogits);
      return [st, BatchResult(net, st, tokens, withLogits)];
    }
    var init := tokens[..n];
    assert init + [last] == tokens;
    var before := BatchIsTokenByToken(net, st, init, false);
    BatchKeepsState(net, st, init, false);
    StateHasLayers(net, BatchResult(net, st, init, false));
    BatchConcat(net, st, init, [last], withLogits);
    OneTokenMoves(net, BatchResult(net, st, init, false), last, withLogits);
    states := before + [BatchResult(net, st, tokens, withLogits)];
  }
}
