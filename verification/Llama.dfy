/**
 * The model object: forward_batch_impl and prefill as loops over its caches, proved against the functions of Prefill.
 */
module Llama {
  import opened Common
  import opened Arithmetic
  import opened PagedKV
  import opened BatchInterchange
  import opened BatchKernels
  import opened Prefill

  method NormBatch(net: Net, w: NormWeight, xs: seq<seq<real>>) returns (out: seq<seq<real>>)
    ensures |out| == |xs| && forall b :: 0 <= b < |xs| ==> out[b] == NormRow(net, w, xs[b])
  {
    out := [];
    for b := 0 to |xs|
      invariant |out| == b && forall i :: 0 <= i < b ==> out[i] == NormRow(net, w, xs[i])
    {
      out := out + [NormRow(net, w, xs[b])];
    }
  }

  method AddBatch(xs: seq<seq<real>>, ys: seq<seq<real>>) returns (out: seq<seq<real>>)
    requires |xs| == |ys| && forall b :: 0 <= b < |xs| ==> |xs[b]| == |ys[b]|
    ensures |out| == |xs| && forall b :: 0 <= b < |xs| ==> out[b] == AddRow(xs[b], ys[b])
  {
    out := [];
    for b := 0 to |xs|
      invariant |out| == b && forall i :: 0 <= i < b ==> out[i] == AddRow(xs[i], ys[i])
    {
      out := out + [AddRow(xs[b], ys[b])];
    }
  }

  method GateBatch(net: Net, gs: seq<seq<real>>, us: seq<seq<real>>) returns (out: seq<seq<real>>)
    requires |gs| == |us| && forall b :: 0 <= b < |gs| ==> |gs[b]| == |us[b]|
    ensures |out| == |gs| && forall b :: 0 <= b < |gs| ==> out[b] == ActivateRow(net, gs[b], us[b])
  {
    out := [];
    for b := 0 to |gs|
      invariant |out| == b && forall i :: 0 <= i < b ==> out[i] == ActivateRow(net, gs[i], us[i])
    {
      out := out + [ActivateRow(net, gs[b], us[b])];
    }
  }

  /** The projection of every normalised row. */
  method ProjectBatch(net: Net, t: Tensor, xs: seq<seq<real>>) returns (out: seq<seq<real>>)
    ensures |out| == |xs| && forall b :: 0 <= b < |xs| ==> out[b] == MatRow(Weights(net, t), xs[b])
  {
    out := MatmulBatch(Weights(net, t), xs);
  }

  ghost predicate Widths(net: Net, xs: seq<seq<real>>) {
    forall b :: 0 <= b < |xs| ==> |xs[b]| == net.nEmbd
  }

  /** Everything after attention. */
  method FinishLayer(net: Net, li: nat, xs: seq<seq<real>>, att: seq<seq<real>>) returns (out: seq<seq<real>>)
    requires |att| == |xs| && Widths(net, xs)
    ensures |out| == |xs|
    ensures forall b :: 0 <= b < |xs| ==> out[b] == FfnRow(net, li, AttendedRow(net, li, xs[b], att[b]))
  {
    var proj := ProjectBatch(net, AttnOut(li), att);
    var x1 := AddBatch(xs, proj);
    var n := NormBatch(net, FfnNorm(li), x1);
    var g := ProjectBatch(net, Gate(li), n);
    var u := ProjectBatch(net, Up(li), n);
    var ff := GateBatch(net, g, u);
    var down := ProjectBatch(net, Down(li), ff);
    out := AddBatch(x1, down);
  }

  // ----- The size of the batch buffers

  method CheckedAdd(a: nat, b: nat) returns (r: Option<nat>)
    ensures r == if a + b <= U64_MAX then Some(a + b) else None
  {
    r := if b > U64_MAX - a then None else Some(a + b);
  }

  method CheckedMul(a: nat, b: nat) returns (r: Option<nat>)
    ensures r == if SlotOff(a, b) <= U64_MAX then Some(SlotOff(a, b)) else None
  {
    SlotOffIsProduct(a, b);
    r := if a * b > U64_MAX then None else Some(a * b);
  }

  /** Adds `times` copies of n to total. */
  method AddCopies(total: nat, n: nat, times: nat) returns (r: Option<nat>)
    requires total <= U64_MAX
    ensures r == if total + SlotOff(times, n) <= U64_MAX then Some(total + SlotOff(times, n)) else None
  {
    var sum := total;
    for i := 0 to times
      invariant sum == total + SlotOff(i, n) && sum <= U64_MAX
    {
      var next := CheckedAdd(sum, n);
      if next.None? {
        SlotOffMonotone(i + 1, times, n);
        return None;
      }
      sum := next.value;
    }
    r := Some(sum);
  }

  /** The total size of the batch buffers in bytes, if it and every partial result is a 64-bit value. */
  method BufferBytes(net: Net, batch: nat) returns (r: Option<nat>)
    ensures r == if WorkspaceBytes(net, batch) <= U64_MAX then Some(WorkspaceBytes(net, batch)) else None
  {
    var bd := CheckedMul(batch, net.nEmbd);
    var bk := CheckedMul(batch, KvDim(net));
    var bf := CheckedMul(batch, net.nFf);
    if bd.None? || bk.None? || bf.None? {
      return None;
    }
    SlotOffIsProduct(6, bd.value);
    SlotOffIsProduct(2, bk.value);
    SlotOffIsProduct(3, bf.value);
    var total := AddCopies(0, bd.value, 6);
    if total.None? {
      return None;
    }
    total := AddCopies(total.value, bk.value, 2);
    if total.None? {
      return None;
    }
    total := AddCopies(total.value, bf.value, 3);
    if total.None? {
      return None;
    }
    r := if total.value * 4 > U64_MAX then None else Some(total.value * 4);
  }

  // ----- Attention for one query row

  lemma PositiveFactor(g: nat, k: nat)
    requires g * k > 0
    ensures g > 0
  {
  }

  lemma GroupBound(h: nat, g: nat, k: nat)
    requires g > 0 && h < g * k
    ensures 0 <= h / g < k
  {
    if h / g >= k {
      DivModIdentity(h, g);
      ProductOrder(k, h / g, g);
    }
  }

  lemma HeadGroup(h: nat, heads: nat, kvHeads: nat)
    requires kvHeads > 0 && heads > 0 && heads % kvHeads == 0 && h < heads
    ensures heads / kvHeads > 0 && 0 <= h / (heads / kvHeads) < kvHeads
  {
    var g := heads / kvHeads;
    assert heads == g * kvHeads;
    PositiveFactor(g, kvHeads);
    GroupBound(h, g, kvHeads);
  }

  /** A head's key/value slice lies inside the row. */
  lemma HeadSlice(net: Net, h: nat)
    requires ValidNet(net) && h < net.nHead
    ensures KvOff(net, h) + net.headDim <= KvDim(net)
  {
    HeadGroup(h, net.nHead, net.nHeadKv);
    SlotInPage(h / (net.nHead / net.nHeadKv), net.nHeadKv, net.headDim);
  }

  method ScoreHead(net: Net, cache: PagedKVCache, off: nat, q: seq<real>, pos: nat) returns (scores: seq<real>)
    requires cache.Valid() && Filled(cache.Value(), pos + 1) && InRow(cache.geo, off, |q|)
    ensures scores == Scores(net, cache.Value(), off, q, pos + 1)
  {
    scores := [];
    for t := 0 to pos + 1
      invariant scores == Scores(net, cache.Value(), off, q, t)
    {
      assert View(cache.Value(), t).Some?;
      var dot := cache.DotKey(t, off, q);
      scores := scores + [net.scaleScore(dot.value)];
    }
  }

  /** out[base..] receives the weighted sum of the head's values; the rest of out stays. */
  method SumHead(net: Net, cache: PagedKVCache, off: nat, scores: seq<real>, pos: nat, out: array<real>, base: nat)
    requires cache.Valid() && Filled(cache.Value(), pos + 1) && InRow(cache.geo, off, net.headDim)
    requires base + net.headDim <= out.Length && out[base..base + net.headDim] == Zeros(net.headDim)
    modifies out
    ensures out[..base] == old(out[..base]) && out[base + net.headDim..] == old(out[base + net.headDim..])
    ensures out[base..base + net.headDim] == HeadOut(net, cache.Value(), off, scores, pos + 1)
  {
    hide ViewAt, SlotOff, Zeros, PageOf, RowOf;
    for t := 0 to pos + 1
      invariant out[..base] == old(out[..base]) && out[base + net.headDim..] == old(out[base + net.headDim..])
      invariant out[base..base + net.headDim] == HeadOut(net, cache.Value(), off, scores, t)
    {
      assert View(cache.Value(), t).Some?;
      var r := cache.AddValue(t, off, net.weight(scores, t), out, base, net.headDim);
    }
  }

  /** One attention job: head h of the query row q at pos. */
  method AttendHead(net: Net, cache: PagedKVCache, q: seq<real>, pos: nat, h: nat, out: array<real>)
    requires ValidNet(net) && cache.Valid() && cache.geo.dim == KvDim(net) && Filled(cache.Value(), pos + 1)
    requires |q| == net.nEmbd == out.Length && h < net.nHead
    requires SlotOff(h, net.headDim) + net.headDim <= out.Length
    requires out[SlotOff(h, net.headDim)..SlotOff(h, net.headDim) + net.headDim] == Zeros(net.headDim)
    modifies out
    ensures var base := SlotOff(h, net.headDim);
            && out[..base] == old(out[..base]) && out[base + net.headDim..] == old(out[base + net.headDim..])
            && out[base..base + net.headDim] == HeadRow(net, cache.Value(), q, pos, h)
  {
    hide View, SlotOff, Zeros, HeadOut, Scores;
    HeadSlice(net, h);
    SlotOffIsProduct(h, net.headDim);
    SlotOffIsProduct(h / (net.nHead / net.nHeadKv), net.headDim);
    var group := net.nHead / net.nHeadKv;
    var kh := h / group;
    var qb, kb := h * net.headDim, kh * net.headDim;
    var scores := ScoreHead(net, cache, kb, q[qb..qb + net.headDim], pos);
    SumHead(net, cache, kb, scores, pos, out, qb);
  }

  lemma {:induction false} ZerosSlice(n: nat, s: seq<real>, a: nat, b: nat)
    requires |s| == n && (forall i :: 0 <= i < n ==> s[i] == 0.0) && a <= b <= n
    ensures s[a..b] == Zeros(b - a)
  {
    if a < b {
      ZerosSlice(n, s, a, b - 1);
      assert s[a..b] == s[a..b - 1] + [s[b - 1]];
    }
  }

  ghost predicate ZeroFrom(out: array<real>, at: nat)
    reads out
  {
    forall i :: at <= i < out.Length ==> out[i] == 0.0
  }

  lemma ZeroBlock(out: array<real>, at: nat, n: nat)
    requires ZeroFrom(out, at) && at + n <= out.Length
    ensures out[at..at + n] == Zeros(n)
  {
    ZerosSlice(out.Length - at, out[at..], 0, n);
    assert out[at..][..n] == out[at..at + n];
  }

  /** The first h heads are in place and the rest of the row is still zero. */
  ghost predicate HeadsDone(net: Net, c: Cache, q: seq<real>, pos: nat, h: nat, out: array<real>)
    requires ValidNet(net) && ValidCache(c) && |q| == net.nEmbd && h <= net.nHead
    reads out
  {
    && out.Length == net.nEmbd
    && SlotOff(h, net.headDim) <= out.Length
    && ZeroFrom(out, SlotOff(h, net.headDim))
    && out[..SlotOff(h, net.headDim)] == AttRow(net, c, q, pos, h)
  }

  lemma HeadAppended(before: seq<real>, now: seq<real>, base: nat, n: nat)
    requires |before| == |now| && base + n <= |now|
    requires now[..base] == before[..base] && now[base + n..] == before[base + n..]
    requires forall i :: base <= i < |before| ==> before[i] == 0.0
    ensures now[..base + n] == before[..base] + now[base..base + n]
    ensures forall i :: base + n <= i < |now| ==> now[i] == 0.0
  {
    forall i | base + n <= i < |now|
      ensures now[i] == 0.0
    {
      assert now[base + n..][i - base - n] == before[base + n..][i - base - n];
    }
  }

  method AttendNext(net: Net, cache: PagedKVCache, ghost c: Cache, q: seq<real>, pos: nat, h: nat, out: array<real>)
    requires ValidNet(net) && cache.Valid() && cache.Value() == c && c.geo.dim == KvDim(net) && Filled(c, pos + 1)
    requires |q| == net.nEmbd && h < net.nHead && HeadsDone(net, c, q, pos, h, out)
    modifies out
    ensures HeadsDone(net, c, q, pos, h + 1, out)
  {
    hide View, Filled, HeadRow, Zeros;
    SlotInPage(h, net.nHead, net.headDim);
    ZeroBlock(out, SlotOff(h, net.headDim), net.headDim);
    AttendHead(net, cache, q, pos, h, out);
    HeadAppended(old(out[..]), out[..], SlotOff(h, net.headDim), net.headDim);
  }

  /** All heads of one query row, accumulated into a zeroed output row. */
  method AttendRow(net: Net, cache: PagedKVCache, q: seq<real>, pos: nat) returns (att: seq<real>)
    requires ValidNet(net) && cache.Valid() && cache.geo.dim == KvDim(net) && Filled(cache.Value(), pos + 1)
    requires |q| == net.nEmbd
    ensures att == AttRow(net, cache.Value(), q, pos, net.nHead)
  {
    ghost var c := cache.Value();
    var out := new real[net.nEmbd](_ => 0.0);
    for h := 0 to net.nHead
      invariant cache.Value() == c && HeadsDone(net, c, q, pos, h, out)
    {
      AttendNext(net, cache, c, q, pos, h, out);
    }
    att := out[..];
  }

  /** The rotated queries of the first n rows. */
  function QRows(net: Net, li: nat, xs: seq<seq<real>>, start: nat, n: nat): (r: seq<seq<real>>)
    requires n <= |xs|
    ensures |r| == n
  {
    if n == 0 then [] else QRows(net, li, xs, start, n - 1) + [QRow(net, li, xs[n - 1], start + n - 1)]
  }

  /** The attention outputs of queries qs at start, start + 1, ... */
  function AttRows(net: Net, c: Cache, qs: seq<seq<real>>, start: nat, n: nat): (r: seq<seq<real>>)
    requires ValidNet(net) && ValidCache(c) && Widths(net, qs) && n <= |qs|
    ensures |r| == n
  {
    if n == 0 then [] else AttRows(net, c, qs, start, n - 1) + [AttRow(net, c, qs[n - 1], start + n - 1, net.nHead)]
  }

  lemma {:induction false} QRowsAt(net: Net, li: nat, xs: seq<seq<real>>, start: nat, n: nat, b: nat)
    requires b < n <= |xs|
    ensures QRows(net, li, xs, start, n)[b] == QRow(net, li, xs[b], start + b)
  {
    if b < n - 1 {
      QRowsAt(net, li, xs, start, n - 1, b);
    }
  }

  lemma QRowsWidths(net: Net, li: nat, xs: seq<seq<real>>, start: nat, n: nat)
    requires n <= |xs|
    ensures Widths(net, QRows(net, li, xs, start, n))
  {
    forall b | 0 <= b < n
      ensures |QRows(net, li, xs, start, n)[b]| == net.nEmbd
    {
      QRowsAt(net, li, xs, start, n, b);
    }
  }

  lemma {:induction false} AttRowsAt(net: Net, c: Cache, qs: seq<seq<real>>, start: nat, n: nat, b: nat)
    requires ValidNet(net) && ValidCache(c) && Widths(net, qs) && b < n <= |qs|
    ensures AttRows(net, c, qs, start, n)[b] == AttRow(net, c, qs[b], start + b, net.nHead)
  {
    if b < n - 1 {
      AttRowsAt(net, c, qs, start, n - 1, b);
    }
  }

  /** Every row of queries over the positions up to its own. */
  method AttendBatch(net: Net, cache: PagedKVCache, ghost c: Cache, qs: seq<seq<real>>, start: nat)
    returns (att: seq<seq<real>>)
    requires ValidNet(net) && cache.Valid() && cache.Value() == c && c.geo.dim == KvDim(net) && Filled(c, start + |qs|)
    requires Widths(net, qs)
    ensures att == AttRows(net, c, qs, start, |qs|)
  {
    hide View, AttRow, SlotOff;
    att := [];
    for b := 0 to |qs|
      invariant att == AttRows(net, c, qs, start, b)
    {
      var row := AttendRow(net, cache, qs[b], start + b);
      att := att + [row];
    }
  }

  // ----- One layer

  method WriteOne(net: Net, ghost li: nat, cache: PagedKVCache, ghost x: seq<real>, k: seq<real>, v: seq<real>,
          pos: nat)
    requires cache.Valid() && Ready(net, cache.Value(), pos) && pos < U64_MAX
    requires k == KRow(net, li, x, pos) && v == VRow(net, li, x)
    modifies cache
    ensures cache.Valid() && cache.Value() == WriteRow(net, li, old(cache.Value()), x, pos)
    ensures Ready(net, cache.Value(), pos + 1)
  {
    WriteRowReady(net, li, cache.Value(), x, pos);
    var r := cache.Write(pos, k, v);
  }

  /** The rows before rotation: each the projection of the normalised input row. */
  ghost predicate Projected(net: Net, t: Tensor, w: NormWeight, xs: seq<seq<real>>, out: seq<seq<real>>) {
    |out| == |xs| && forall b :: 0 <= b < |xs| ==> out[b] == MatRow(Weights(net, t), NormRow(net, w, xs[b]))
  }

  /** The first b rows are stored and their queries rotated. */
  ghost predicate Stored(net: Net, li: nat, c0: Cache, xs: seq<seq<real>>, start: nat, b: nat, c: Cache,
          qs: seq<seq<real>>)
    requires b <= |xs|
  {
    c == WriteRows(LayerOf(net, li), c0, xs, start, b) && Ready(net, c, start + b) && qs == QRows(net, li, xs, start, b)
  }

  lemma StoredNext(net: Net, li: nat, c0: Cache, xs: seq<seq<real>>, start: nat, b: nat, c: Cache, qs: seq<seq<real>>,
          c': Cache, q: seq<real>)
    requires b < |xs| && Stored(net, li, c0, xs, start, b, c, qs)
    requires c' == WriteRow(net, li, c, xs[b], start + b) && Ready(net, c', start + b + 1)
             && q == QRow(net, li, xs[b], start + b)
    ensures Stored(net, li, c0, xs, start, b + 1, c', qs + [q])
  {
  }

  /** The whole chunk's keys and values go into the cache before any row attends. */
  method RotateAndWrite(net: Net, li: nat, cache: PagedKVCache, xs: seq<seq<real>>, q: seq<seq<real>>,
          k: seq<seq<real>>, v: seq<seq<real>>, start: nat)
    returns (qs: seq<seq<real>>)
    requires cache.Valid() && Ready(net, cache.Value(), start) && start + |xs| <= U64_MAX
    requires Projected(net, AttnQ(li), AttnNorm(li), xs, q) && Projected(net, AttnK(li), AttnNorm(li), xs, k)
    requires Projected(net, AttnV(li), AttnNorm(li), xs, v)
    modifies cache
    ensures cache.Valid() && Stored(net, li, old(cache.Value()), xs, start, |xs|, cache.Value(), qs)
  {
    hide Ready, WriteRow, LayerOf, SlotOff;
    qs := [];
    ghost var c0 := cache.Value();
    for b := 0 to |xs|
      invariant cache.Valid() && Stored(net, li, c0, xs, start, b, cache.Value(), qs)
    {
      ghost var c := cache.Value();
      var query := RopeRow(net, q[b], start + b);
      var key := RopeRow(net, k[b], start + b);
      WriteOne(net, li, cache, xs[b], key, v[b], start + b);
      StoredNext(net, li, c0, xs, start, b, c, qs, cache.Value(), query);
      qs := qs + [query];
    }
  }

  lemma {:induction false} RowsAreLayerRows(net: Net, li: nat, c: Cache, xs: seq<seq<real>>, start: nat,
          out: seq<seq<real>>, n: nat)
    requires n <= |xs| == |out|
    requires forall b :: 0 <= b < |xs| ==> out[b] == LayerRow(net, li, c, xs[b], start + b)
    ensures out[..n] == LayerRows(LayerOf(net, li), c, xs, start, n)
  {
    hide LayerRow, WriteRow;
    if n > 0 {
      RowsAreLayerRows(net, li, c, xs, start, out, n - 1);
      assert out[..n] == out[..n - 1] + [out[n - 1]];
    }
  }

  /** One layer over the batch: project, write every row, attend, finish. */
  method RunLayer(net: Net, li: nat, cache: PagedKVCache, xs: seq<seq<real>>, start: nat) returns (out: seq<seq<real>>)
    requires ValidNet(net) && cache.Valid() && Ready(net, cache.Value(), start) && start + |xs| <= U64_MAX
    requires Widths(net, xs)
    modifies cache
    ensures cache.Valid() && cache.Value() == WriteRows(LayerOf(net, li), old(cache.Value()), xs, start, |xs|)
    ensures Ready(net, cache.Value(), start + |xs|)
    ensures Widths(net, out) && out == LayerBatch(LayerOf(net, li), old(cache.Value()), xs, start)
  {
    var n := NormBatch(net, AttnNorm(li), xs);
    var q := ProjectBatch(net, AttnQ(li), n);
    var k := ProjectBatch(net, AttnK(li), n);
    var v := ProjectBatch(net, AttnV(li), n);
    var qs := RotateAndWrite(net, li, cache, xs, q, k, v, start);
    QRowsWidths(net, li, xs, start, |xs|);
    ghost var c := cache.Value();
    var att := AttendBatch(net, cache, c, qs, start);
    out := FinishLayer(net, li, xs, att);
    forall b | 0 <= b < |xs|
      ensures out[b] == LayerRow(net, li, c, xs[b], start + b)
    {
      QRowsAt(net, li, xs, start, |xs|, b);
      AttRowsAt(net, c, qs, start, |xs|, b);
    }
    RowsAreLayerRows(net, li, c, xs, start, out, |xs|);
    assert out[..|xs|] == out;
  }

  // ----- The model

  lemma LayersUnfold(net: Net, li: nat)
    requires li < net.nLayer
    ensures LayersFrom(net, li)[0] == LayerOf(net, li) && LayersFrom(net, li)[1..] == LayersFrom(net, li + 1)
  {
  }

  /** Layers below li have run on the batch xs: their caches cs hold it, later layers' caches are as in st. */
  ghost predicate RunTo(net: Net, st: State, xs: seq<seq<real>>, li: nat, cs: seq<Cache>, rows: seq<seq<real>>)
    requires |st.kv| == net.nLayer && li <= net.nLayer
  {
    && |rows| == |xs| && Widths(net, rows) && |cs| == net.nLayer && cs[li..] == st.kv[li..]
    && Output(LayersFrom(net, 0), st.kv, xs, st.pos) == Output(LayersFrom(net, li), st.kv[li..], rows, st.pos)
    && Stores(LayersFrom(net, 0), st.kv, xs, st.pos)
       == cs[..li] + Stores(LayersFrom(net, li), st.kv[li..], rows, st.pos)
  }

  lemma UntouchedLayer(net: Net, st: State, xs: seq<seq<real>>, li: nat, cs: seq<Cache>, rows: seq<seq<real>>)
    requires |st.kv| == net.nLayer && li < net.nLayer && RunTo(net, st, xs, li, cs, rows)
    ensures |rows| == |xs| && Widths(net, rows) && |cs| == net.nLayer && cs[li] == st.kv[li]
  {
    assert cs[li..][0] == st.kv[li..][0];
  }

  lemma RunToStart(net: Net, st: State, xs: seq<seq<real>>)
    requires |st.kv| == net.nLayer && Widths(net, xs)
    ensures RunTo(net, st, xs, 0, st.kv, xs)
  {
    assert st.kv[0..] == st.kv;
  }

  lemma RunToEnd(net: Net, st: State, xs: seq<seq<real>>, cs: seq<Cache>, rows: seq<seq<real>>)
    requires |st.kv| == net.nLayer && RunTo(net, st, xs, net.nLayer, cs, rows)
    ensures cs == Stores(LayersFrom(net, 0), st.kv, xs, st.pos) && rows == Output(LayersFrom(net, 0), st.kv, xs, st.pos)
  {
    assert cs[..net.nLayer] + [] == cs;
  }

  lemma OneMoreLayer(net: Net, st: State, li: nat, rows: seq<seq<real>>)
    requires |st.kv| == net.nLayer && li < net.nLayer
    ensures var w := WriteRows(LayerOf(net, li), st.kv[li], rows, st.pos, |rows|);
            var out := LayerBatch(LayerOf(net, li), st.kv[li], rows, st.pos);
            && Output(LayersFrom(net, li), st.kv[li..], rows, st.pos)
               == Output(LayersFrom(net, li + 1), st.kv[li + 1..], out, st.pos)
            && Stores(LayersFrom(net, li), st.kv[li..], rows, st.pos)
               == [w] + Stores(LayersFrom(net, li + 1), st.kv[li + 1..], out, st.pos)
  {
    LayersUnfold(net, li);
    assert st.kv[li..][0] == st.kv[li] && st.kv[li..][1..] == st.kv[li + 1..];
  }

  lemma RunToNext(net: Net, st: State, xs: seq<seq<real>>, li: nat, cs: seq<Cache>, rows: seq<seq<real>>, w: Cache,
          out: seq<seq<real>>)
    requires |st.kv| == net.nLayer && li < net.nLayer && RunTo(net, st, xs, li, cs, rows) && Widths(net, out)
    requires w == WriteRows(LayerOf(net, li), st.kv[li], rows, st.pos, |rows|)
    requires out == LayerBatch(LayerOf(net, li), st.kv[li], rows, st.pos)
    ensures RunTo(net, st, xs, li + 1, cs[li := w], out)
  {
    hide Output, WriteRows, LayerBatch, LayerOf, WriteRow, LayerRow;
    OneMoreLayer(net, st, li, rows);
    var cs' := cs[li := w];
    assert cs'[li + 1..] == cs[li..][1..] == st.kv[li..][1..] == st.kv[li + 1..];
    assert cs[..li] + [w] == cs'[..li + 1];
    var rest := Stores(LayersFrom(net, li + 1), st.kv[li + 1..], out, st.pos);
    assert cs[..li] + ([w] + rest) == cs'[..li + 1] + rest;
  }

  class LlamaModel {
    const net: Net
    const workspaceLimit: nat
    const kv: seq<PagedKVCache>
    var pos: nat
    var logits: seq<real>

    ghost function Caches(): (r: seq<Cache>)
      reads kv
      ensures |r| == |kv| && forall i :: 0 <= i < |kv| ==> r[i] == kv[i].Value()
    {
      seq(|kv|, i requires 0 <= i < |kv| reads kv => kv[i].Value())
    }

    ghost function Value(): State
      reads this, kv
    {
      State(Caches(), pos, logits)
    }

    ghost predicate Owned() {
      |kv| == net.nLayer && forall i, j :: 0 <= i < j < |kv| ==> kv[i] != kv[j]
    }

    ghost predicate CachesValid()
      reads kv
    {
      forall i :: 0 <= i < |kv| ==> kv[i].Valid()
    }

    ghost predicate Valid()
      reads this, kv
    {
      Owned() && CachesValid() && ValidState(net, Value()) && workspaceLimit <= U64_MAX
    }

    constructor (net: Net, limit: nat, kv: seq<PagedKVCache>)
      requires ValidNet(net) && limit <= U64_MAX && |kv| == net.nLayer
      requires forall i, j :: 0 <= i < j < |kv| ==> kv[i] != kv[j]
      requires forall i :: 0 <= i < |kv| ==> kv[i].Valid() && kv[i].pages == [] && FitsNet(net, kv[i].Value())
      ensures Valid() && pos == 0 && this.kv == kv && this.net == net && workspaceLimit == limit
    {
      this.net, workspaceLimit, this.kv, pos, logits := net, limit, kv, 0, Zeros(net.vocab);
    }

    method NextLayer(ghost st: State, ghost xs: seq<seq<real>>, li: nat, rows: seq<seq<real>>)
      returns (out: seq<seq<real>>)
      requires Owned() && CachesValid() && ValidState(net, st) && pos == st.pos && pos + |xs| <= net.nCtx
               && li < net.nLayer
      requires RunTo(net, st, xs, li, Caches(), rows)
      modifies kv[li]
      ensures Owned() && CachesValid() && RunTo(net, st, xs, li + 1, Caches(), out)
    {
      ghost var before := Caches();
      UntouchedLayer(net, st, xs, li, before, rows);
      out := RunLayer(net, li, kv[li], rows, pos);
      assert Caches() == before[li := kv[li].Value()];
      RunToNext(net, st, xs, li, before, rows, kv[li].Value(), out);
    }

    method RunLayers(ghost st: State, xs: seq<seq<real>>) returns (rows: seq<seq<real>>)
      requires Owned() && CachesValid() && st == Value() && ValidState(net, st) && Widths(net, xs)
               && pos + |xs| <= net.nCtx
      modifies kv
      ensures CachesValid() && Caches() == Stores(LayersFrom(net, 0), st.kv, xs, st.pos)
      ensures rows == Output(LayersFrom(net, 0), st.kv, xs, st.pos)
    {
      rows := xs;
      RunToStart(net, st, xs);
      for li := 0 to net.nLayer
        invariant pos == st.pos && Owned() && CachesValid() && RunTo(net, st, xs, li, Caches(), rows)
      {
        rows := NextLayer(st, xs, li, rows);
      }
      RunToEnd(net, st, xs, Caches(), rows);
    }

    method CheckTokens(tokens: seq<int>) returns (ok: bool)
      ensures ok == InVocab(net, tokens)
    {
      for b := 0 to |tokens|
        invariant forall i :: 0 <= i < b ==> 0 <= tokens[i] < net.vocab
      {
        if tokens[b] < 0 || tokens[b] >= net.vocab {
          return false;
        }
      }
      return true;
    }

    method ReadEmbeddings(tokens: seq<int>) returns (xs: seq<seq<real>>)
      requires InVocab(net, tokens)
      ensures xs == EmbedRows(net, tokens)
    {
      xs := [];
      for b := 0 to |tokens|
        invariant |xs| == b && forall i :: 0 <= i < b ==> xs[i] == EmbedRow(net, tokens[i])
      {
        xs := xs + [EmbedRow(net, tokens[b])];
      }
    }

    /** A batch that has passed every check. */
    method RunBatch(tokens: seq<int>, withLogits: bool)
      requires Valid() && InVocab(net, tokens) && |tokens| > 0 && pos + |tokens| <= net.nCtx
      modifies this, kv
      ensures Valid() && Value() == BatchResult(net, old(Value()), tokens, withLogits)
    {
      hide Stores, Output, EmbedRows, LayersFrom, BatchResult, Ready, LogitsOf, SlotOff;
      ghost var st := Value();
      BatchKeepsState(net, st, tokens, withLogits);
      var xs := ReadEmbeddings(tokens);
      var rows := RunLayers(st, xs);
      BatchResultIs(net, st, tokens, withLogits, Caches(), rows);
      pos := pos + |tokens|;
      if withLogits {
        logits := LogitsOf(net, rows[|tokens| - 1]);
      }
    }

    /** forward_batch_impl: a refused batch changes nothing, an accepted one gives the batch result. */
    method ForwardBatch(tokens: seq<int>, withLogits: bool) returns (o: PrefillOutcome)
      requires Valid()
      modifies this, kv
      ensures Valid()
      ensures (Value(), o) == BatchSpec(net, workspaceLimit, old(Value()), tokens, withLogits)
    {
      if |tokens| == 0 {
        return Done;
      }
      if pos > net.nCtx || |tokens| > net.nCtx - pos {
        return ContextExhausted;
      }
      var known := CheckTokens(tokens);
      if !known {
        return TokenOutOfRange;
      }
      var bytes := BufferBytes(net, |tokens|);
      if bytes.None? || bytes.value > workspaceLimit {
        return WorkspaceTooBig;
      }
      RunBatch(tokens, withLogits);
      return Done;
    }

    method PrefillChunk(tokens: seq<int>, i: nat, batch: nat, withLogits: bool, ghost goal: (State, PrefillOutcome))
      returns (o: PrefillOutcome)
      requires Valid() && batch > 0 && i < |tokens|
               && LeadsTo(net, workspaceLimit, Value(), Done, tokens, i, batch, withLogits, goal)
      modifies this, kv
      ensures Valid() && LeadsTo(net, workspaceLimit, Value(), o, tokens, i + batch, batch, withLogits, goal)
    {
      hide PrefillSpec, ValidState, LeadsTo;
      ghost var st := Value();
      var n := Min(batch, |tokens| - i);
      o := ForwardBatch(tokens[i..i + n], withLogits && i + n == |tokens|);
      LeadsToNext(net, workspaceLimit, st, tokens, i, batch, withLogits, goal, (Value(), o));
    }

    /** prefill: the prompt in batches of `size`. */
    method PrefillTokens(tokens: seq<int>, size: nat, withLogits: bool) returns (o: PrefillOutcome)
      requires Valid()
      modifies this, kv
      ensures Valid()
      ensures (Value(), o) == PrefillSpec(net, workspaceLimit, old(Value()), tokens, Max(1, size), withLogits)
    {
      hide BatchSpec, ValidState, AllReady;
      var batch := Max(1, size);
      var i := 0;
      ghost var goal := PrefillSpec(net, workspaceLimit, Value(), tokens, batch, withLogits);
      o := Done;
      assert tokens[0..] == tokens;
      while i < |tokens| && o == Done
        invariant Valid() && LeadsTo(net, workspaceLimit, Value(), o, tokens, i, batch, withLogits, goal)
        decreases |tokens| - i
      {
        o := PrefillChunk(tokens, i, batch, withLogits, goal);
        i := i + batch;
      }
    }

    /** Any batch size leaves the model where one batch over the whole prompt would, provided its first chunk fits. */
    method PrefillInOneGo(tokens: seq<int>, size: nat, withLogits: bool) returns (o: PrefillOutcome)
      requires Valid() && InVocab(net, tokens) && |tokens| > 0 && pos + |tokens| <= net.nCtx
      modifies this, kv
      ensures Valid()
      ensures WorkspaceBytes(net, Min(Max(1, size), |tokens|)) <= workspaceLimit ==>
                o == Done && Value() == BatchResult(net, old(Value()), tokens, withLogits)
      ensures WorkspaceBytes(net, Min(Max(1, size), |tokens|)) > workspaceLimit ==>
                o == WorkspaceTooBig && Value() == old(Value())
    {
      PrefillCases(net, workspaceLimit, Value(), tokens, Max(1, size), withLogits);
      o := PrefillTokens(tokens, size, withLogits);
    }
  }
}
