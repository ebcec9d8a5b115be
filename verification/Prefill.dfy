/**
 * Batched causal prefill on values: what a batch does to the caches and to its rows, and the theorem that cutting a
 * prompt into batches of any size gives the same caches, position and logits.
 */
module Prefill {
  import opened Common
  import opened Arithmetic
  import opened PagedKV
  import opened BatchInterchange
  import opened BatchKernels

  datatype Tensor = AttnQ(li: nat) | AttnK(li: nat) | AttnV(li: nat) | AttnOut(li: nat)
                  | Gate(li: nat) | Up(li: nat) | Down(li: nat)

  datatype NormWeight = AttnNorm(li: nat) | FfnNorm(li: nat) | OutputNorm

  /** The model: its shape, and the numeric kernels that act on one row at a time. */
  datatype Net = Net(
    nCtx: nat, nEmbd: nat, nFf: nat, nLayer: nat, nHead: nat, nHeadKv: nat, headDim: nat, vocab: nat,
    embed: (nat, nat) -> real,
    norm: (NormWeight, seq<real>, nat) -> real,
    dot: (Tensor, nat, seq<real>) -> real,
    blocked: Tensor -> bool,
    rope: (seq<real>, nat, nat) -> real,
    scaleScore: real -> real,
    weight: (seq<real>, nat) -> real,
    activate: (real, real) -> real,
    logit: (nat, seq<real>) -> real)

  predicate ValidNet(net: Net) {
    && 0 < net.nCtx <= U64_MAX && net.nLayer > 0 && net.nFf > 0 && net.vocab > 0
    && net.nHeadKv > 0 && net.headDim > 0 && net.nHead > 0 && net.nHead % net.nHeadKv == 0
    && net.nEmbd == SlotOff(net.nHead, net.headDim)
  }

  function KvDim(net: Net): nat {
    SlotOff(net.nHeadKv, net.headDim)
  }

  function Rows(net: Net, t: Tensor): nat {
    match t
    case AttnQ(_) => net.nEmbd
    case AttnK(_) => KvDim(net)
    case AttnV(_) => KvDim(net)
    case AttnOut(_) => net.nEmbd
    case Gate(_) => net.nFf
    case Up(_) => net.nFf
    case Down(_) => net.nEmbd
  }

  function Weights(net: Net, t: Tensor): (m: Matrix)
    ensures m.rows == Rows(net, t)
  {
    Matrix(Rows(net, t), net.blocked(t), t.Gate? || t.Up? || t.Down?, (r: nat, x) => net.dot(t, r, x))
  }

  // ----- One row

  function NormRow(net: Net, w: NormWeight, x: seq<real>): (r: seq<real>)
    ensures |r| == net.nEmbd
  {
    seq(net.nEmbd, i requires i >= 0 => net.norm(w, x, i))
  }

  function RopeRow(net: Net, x: seq<real>, pos: nat): (r: seq<real>)
    ensures |r| == |x|
  {
    seq(|x|, i requires i >= 0 => net.rope(x, pos, i))
  }

  function EmbedRow(net: Net, token: nat): (r: seq<real>)
    ensures |r| == net.nEmbd
  {
    seq(net.nEmbd, i requires i >= 0 => net.embed(token, i))
  }

  function LogitsOf(net: Net, x: seq<real>): (r: seq<real>)
    ensures |r| == net.vocab
  {
    seq(net.vocab, i requires i >= 0 => net.logit(i, NormRow(net, OutputNorm, x)))
  }

  function AddRow(x: seq<real>, y: seq<real>): (r: seq<real>)
    requires |x| == |y|
    ensures |r| == |x|
  {
    seq(|x|, i requires 0 <= i < |x| => x[i] + y[i])
  }

  function ActivateRow(net: Net, g: seq<real>, u: seq<real>): (r: seq<real>)
    requires |g| == |u|
    ensures |r| == |g|
  {
    seq(|g|, i requires 0 <= i < |g| => net.activate(g[i], u[i]))
  }

  function QRow(net: Net, li: nat, x: seq<real>, pos: nat): (r: seq<real>)
    ensures |r| == net.nEmbd
  {
    RopeRow(net, MatRow(Weights(net, AttnQ(li)), NormRow(net, AttnNorm(li), x)), pos)
  }

  function KRow(net: Net, li: nat, x: seq<real>, pos: nat): (r: seq<real>)
    ensures |r| == KvDim(net)
  {
    RopeRow(net, MatRow(Weights(net, AttnK(li)), NormRow(net, AttnNorm(li), x)), pos)
  }

  function VRow(net: Net, li: nat, x: seq<real>): (r: seq<real>)
    ensures |r| == KvDim(net)
  {
    MatRow(Weights(net, AttnV(li)), NormRow(net, AttnNorm(li), x))
  }

  /** The row after the attention output is added back. */
  function AttendedRow(net: Net, li: nat, x: seq<real>, att: seq<real>): (r: seq<real>)
    requires |x| == net.nEmbd
    ensures |r| == net.nEmbd
  {
    AddRow(x, MatRow(Weights(net, AttnOut(li)), att))
  }

  function GatedRow(net: Net, li: nat, x: seq<real>): (r: seq<real>)
    ensures |r| == net.nFf
  {
    var n := NormRow(net, FfnNorm(li), x);
    ActivateRow(net, MatRow(Weights(net, Gate(li)), n), MatRow(Weights(net, Up(li)), n))
  }

  function FfnRow(net: Net, li: nat, x: seq<real>): (r: seq<real>)
    requires |x| == net.nEmbd
    ensures |r| == net.nEmbd
  {
    AddRow(x, MatRow(Weights(net, Down(li)), GatedRow(net, li, x)))
  }

  // ----- Attention

  /** Where the key/value slice of head h starts. */
  function KvOff(net: Net, h: nat): nat
    requires ValidNet(net)
  {
    SlotOff(h / (net.nHead / net.nHeadKv), net.headDim)
  }

  function KeyDot(c: Cache, t: nat, off: nat, q: seq<real>): real
    requires ValidCache(c)
  {
    match DotKeySpec(c, t, off, q)
    case Ok(v) => v
    case Err(_) => 0.0
  }

  /** The scaled scores of positions 0..n-1. */
  function Scores(net: Net, c: Cache, off: nat, q: seq<real>, n: nat): (r: seq<real>)
    requires ValidCache(c)
    ensures |r| == n
  {
    if n == 0 then [] else Scores(net, c, off, q, n - 1) + [net.scaleScore(KeyDot(c, n - 1, off, q))]
  }

  function ValueSum(c: Cache, t: nat, off: nat, alpha: real, out: seq<real>): (r: seq<real>)
    requires ValidCache(c)
    ensures |r| == |out|
  {
    match AddValueSpec(c, t, off, alpha, out)
    case Ok(v) => v
    case Err(_) => out
  }

  function Zeros(n: nat): (r: seq<real>)
    ensures |r| == n
  {
    if n == 0 then [] else Zeros(n - 1) + [0.0]
  }

  /** The weighted values of positions 0..n-1, accumulated from zero. */
  function HeadOut(net: Net, c: Cache, off: nat, scores: seq<real>, n: nat): (r: seq<real>)
    requires ValidCache(c)
    ensures |r| == net.headDim
  {
    if n == 0 then Zeros(net.headDim)
    else ValueSum(c, n - 1, off, net.weight(scores, n - 1), HeadOut(net, c, off, scores, n - 1))
  }

  function HeadQuery(net: Net, q: seq<real>, h: nat): (r: seq<real>)
    requires ValidNet(net) && |q| == net.nEmbd && h < net.nHead
    ensures |r| == net.headDim
  {
    SlotInPage(h, net.nHead, net.headDim);
    q[SlotOff(h, net.headDim)..SlotOff(h, net.headDim) + net.headDim]
  }

  function HeadRow(net: Net, c: Cache, q: seq<real>, pos: nat, h: nat): (r: seq<real>)
    requires ValidNet(net) && ValidCache(c) && |q| == net.nEmbd && h < net.nHead
    ensures |r| == net.headDim
  {
    var scores := Scores(net, c, KvOff(net, h), HeadQuery(net, q, h), pos + 1);
    HeadOut(net, c, KvOff(net, h), scores, pos + 1)
  }

  /** The first n heads side by side. */
  function AttRow(net: Net, c: Cache, q: seq<real>, pos: nat, n: nat): (r: seq<real>)
    requires ValidNet(net) && ValidCache(c) && |q| == net.nEmbd && n <= net.nHead
    ensures |r| == SlotOff(n, net.headDim)
  {
    if n == 0 then [] else AttRow(net, c, q, pos, n - 1) + HeadRow(net, c, q, pos, n - 1)
  }

  /** Two caches that read alike on positions 0..pos. */
  ghost predicate AgreeTo(c1: Cache, c2: Cache, pos: nat) {
    && ValidCache(c1) && ValidCache(c2) && c1.geo == c2.geo
    && forall t :: 0 <= t <= pos ==> View(c1, t) == View(c2, t)
  }

  lemma {:induction false} ScoresAgree(net: Net, c1: Cache, c2: Cache, off: nat, q: seq<real>, pos: nat, n: nat)
    requires AgreeTo(c1, c2, pos) && n <= pos + 1
    ensures Scores(net, c1, off, q, n) == Scores(net, c2, off, q, n)
  {
    if n > 0 {
      ScoresAgree(net, c1, c2, off, q, pos, n - 1);
      assert View(c1, n - 1) == View(c2, n - 1);
    }
  }

  lemma {:induction false} HeadOutAgree(net: Net, c1: Cache, c2: Cache, off: nat, scores: seq<real>, pos: nat, n: nat)
    requires AgreeTo(c1, c2, pos) && n <= pos + 1
    ensures HeadOut(net, c1, off, scores, n) == HeadOut(net, c2, off, scores, n)
  {
    if n > 0 {
      HeadOutAgree(net, c1, c2, off, scores, pos, n - 1);
      assert View(c1, n - 1) == View(c2, n - 1);
    }
  }

  /** Causality: attention at pos reads nothing beyond pos. */
  lemma {:induction false} AttRowCausal(net: Net, c1: Cache, c2: Cache, q: seq<real>, pos: nat, n: nat)
    requires ValidNet(net) && AgreeTo(c1, c2, pos) && |q| == net.nEmbd && n <= net.nHead
    ensures AttRow(net, c1, q, pos, n) == AttRow(net, c2, q, pos, n)
  {
    if n > 0 {
      AttRowCausal(net, c1, c2, q, pos, n - 1);
      var h := n - 1;
      ScoresAgree(net, c1, c2, KvOff(net, h), HeadQuery(net, q, h), pos, pos + 1);
      var scores := Scores(net, c1, KvOff(net, h), HeadQuery(net, q, h), pos + 1);
      HeadOutAgree(net, c1, c2, KvOff(net, h), scores, pos, pos + 1);
    }
  }

  // ----- A layer, as one row sees it

  /** The cache accepts every position of the context. */
  predicate FitsNet(net: Net, c: Cache) {
    && ValidCache(c) && c.geo.dim == KvDim(net)
    && SlotOff(c.geo.tokens, c.geo.dim) <= U64_MAX && (c.geo.ty == F32 ==> c.geo.dim * 4 <= U64_MAX)
  }

  /** Positions below n have been written. */
  ghost predicate Filled(c: Cache, n: nat)
    requires ValidCache(c)
  {
    forall t :: 0 <= t < n ==> View(c, t).Some?
  }

  ghost predicate Ready(net: Net, c: Cache, n: nat) {
    FitsNet(net, c) && PagesFit(c) && Filled(c, n)
  }

  function WriteRow(net: Net, li: nat, c: Cache, x: seq<real>, pos: nat): Cache {
    if FitsNet(net, c) && pos <= U64_MAX then WriteSpec(c, pos, KRow(net, li, x, pos), VRow(net, li, x)).0 else c
  }

  /** What a layer makes of the row at pos, given the cache that holds the whole batch. */
  function LayerRow(net: Net, li: nat, c: Cache, x: seq<real>, pos: nat): (r: seq<real>)
    ensures |x| == net.nEmbd ==> |r| == net.nEmbd
  {
    if ValidNet(net) && ValidCache(c) && |x| == net.nEmbd then
      FfnRow(net, li, AttendedRow(net, li, x, AttRow(net, c, QRow(net, li, x, pos), pos, net.nHead)))
    else x
  }

  lemma {:induction false} PageInContext(pos: nat, n: nat)
    requires n > 0 && pos < U64_MAX
    ensures PageOf(pos, n) < U64_MAX
  {
  }

  /** Writing within the context succeeds, extends the filled prefix and leaves it readable as it was. */
  lemma WriteRowReady(net: Net, li: nat, c: Cache, x: seq<real>, pos: nat)
    requires Ready(net, c, pos) && pos < U64_MAX
    ensures WriteSpec(c, pos, KRow(net, li, x, pos), VRow(net, li, x)).1
    ensures Ready(net, WriteRow(net, li, c, x, pos), pos + 1) && WriteRow(net, li, c, x, pos).geo == c.geo
    ensures forall t :: 0 <= t < pos ==> View(WriteRow(net, li, c, x, pos), t) == View(c, t)
  {
    var k, v := KRow(net, li, x, pos), VRow(net, li, x);
    WriteSucceeds(c, pos, k, v);
    PageInContext(pos, c.geo.tokens);
    forall t | 0 <= t <= pos
      ensures View(WriteRow(net, li, c, x, pos), t) == if t == pos then Some(StoredRow(c.geo, k, v)) else View(c, t)
    {
      WriteView(c, pos, k, v, t);
    }
  }

  /** A row before pos does not notice that pos is written. */
  lemma LayerRowKept(net: Net, li: nat, c: Cache, x: seq<real>, y: seq<real>, pos: nat, p: nat)
    requires ValidNet(net) && Ready(net, c, pos) && |x| == net.nEmbd && p < pos < U64_MAX
    ensures LayerRow(net, li, WriteRow(net, li, c, y, pos), x, p) == LayerRow(net, li, c, x, p)
  {
    WriteRowReady(net, li, c, y, pos);
    AttRowCausal(net, WriteRow(net, li, c, y, pos), c, QRow(net, li, x, p), p, net.nHead);
  }

  // ----- The stack of layers

  function LayerOf(net: Net, li: nat): Layer<Cache, seq<real>> {
    Layer((c, x, pos) => WriteRow(net, li, c, x, pos), (c, x, pos) => LayerRow(net, li, c, x, pos))
  }

  /** Layers li, li + 1, ..., in order. */
  function LayersFrom(net: Net, li: nat): (r: seq<Layer<Cache, seq<real>>>)
    requires li <= net.nLayer
    ensures |r| == net.nLayer - li
    decreases net.nLayer - li
  {
    if li == net.nLayer then [] else [LayerOf(net, li)] + LayersFrom(net, li + 1)
  }

  ghost function Rules(net: Net): Domain<Cache, seq<real>> {
    Domain((c, n) => Ready(net, c, n), x => |x| == net.nEmbd, net.nCtx)
  }

  /** Every layer is causal: this is where batching is justified. */
  lemma LayerIsCausal(net: Net, li: nat)
    requires ValidNet(net)
    ensures Causal(LayerOf(net, li), Rules(net))
  {
    var l, d := LayerOf(net, li), Rules(net);
    forall c, x, pos: nat | d.ready(c, pos) && d.ok(x) && pos < d.limit
      ensures d.ready(l.write(c, x, pos), pos + 1)
    {
      WriteRowReady(net, li, c, x, pos);
    }
    forall c, x, y, pos: nat, p: nat | d.ready(c, pos) && d.ok(x) && d.ok(y) && pos < d.limit && p < pos
      ensures l.row(l.write(c, y, pos), x, p) == l.row(c, x, p)
    {
      LayerRowKept(net, li, c, x, y, pos, p);
    }
  }

  lemma {:induction false} LayersAt(net: Net, li: nat, n: nat)
    requires li <= net.nLayer && n < net.nLayer - li
    ensures LayersFrom(net, li)[n] == LayerOf(net, li + n)
    decreases n
  {
    if n > 0 {
      LayersAt(net, li + 1, n - 1);
    }
  }

  ghost predicate AllReady(net: Net, kv: seq<Cache>, n: nat) {
    |kv| == net.nLayer && forall li :: 0 <= li < |kv| ==> Ready(net, kv[li], n)
  }

  lemma ModelIsStack(net: Net, kv: seq<Cache>, n: nat)
    requires ValidNet(net) && AllReady(net, kv, n)
    ensures Stack(LayersFrom(net, 0), Rules(net), kv, n)
  {
    forall li | 0 <= li < net.nLayer
      ensures Causal(LayersFrom(net, 0)[li], Rules(net))
    {
      LayersAt(net, 0, li);
      LayerIsCausal(net, li);
    }
  }

  // ----- One batch

  /** What prefill works on: one cache per layer, the position, the last logits. */
  datatype State = State(kv: seq<Cache>, pos: nat, logits: seq<real>)

  datatype PrefillOutcome = Done | ContextExhausted | TokenOutOfRange | WorkspaceTooBig

  ghost predicate ValidState(net: Net, st: State) {
    ValidNet(net) && AllReady(net, st.kv, st.pos)
  }

  predicate InVocab(net: Net, tokens: seq<int>) {
    forall b :: 0 <= b < |tokens| ==> 0 <= tokens[b] < net.vocab
  }

  function EmbedRows(net: Net, tokens: seq<int>): (r: seq<seq<real>>)
    requires InVocab(net, tokens)
    ensures |r| == |tokens| && forall b :: 0 <= b < |r| ==> |r[b]| == net.nEmbd
    ensures forall b :: 0 <= b < |r| ==> r[b] == EmbedRow(net, tokens[b])
  {
    if |tokens| == 0 then []
    else EmbedRows(net, tokens[..|tokens| - 1]) + [EmbedRow(net, tokens[|tokens| - 1])]
  }

  lemma EmbedConcat(net: Net, a: seq<int>, b: seq<int>)
    requires InVocab(net, a) && InVocab(net, b)
    ensures InVocab(net, a + b) && EmbedRows(net, a + b) == EmbedRows(net, a) + EmbedRows(net, b)
  {
  }

  /** Six rows of the model width, two of the key width and three of the feed-forward width, four bytes each. */
  function WorkspaceBytes(net: Net, batch: nat): nat {
    4 * (6 * SlotOff(batch, net.nEmbd) + 2 * SlotOff(batch, KvDim(net)) + 3 * SlotOff(batch, net.nFf))
  }

  function BatchResult(net: Net, st: State, tokens: seq<int>, withLogits: bool): State
    requires |st.kv| == net.nLayer && InVocab(net, tokens) && |tokens| > 0
  {
    var ls, xs := LayersFrom(net, 0), EmbedRows(net, tokens);
    State(Stores(ls, st.kv, xs, st.pos), st.pos + |tokens|,
          if withLogits then LogitsOf(net, Output(ls, st.kv, xs, st.pos)[|tokens| - 1]) else st.logits)
  }

  function BatchSpec(net: Net, limit: nat, st: State, tokens: seq<int>, withLogits: bool): (r: (State, PrefillOutcome))
    requires |st.kv| == net.nLayer
    ensures |r.0.kv| == net.nLayer
  {
    if |tokens| == 0 then (st, Done)
    else if st.pos > net.nCtx || |tokens| > net.nCtx - st.pos then (st, ContextExhausted)
    else if !InVocab(net, tokens) then (st, TokenOutOfRange)
    else if WorkspaceBytes(net, |tokens|) > limit then (st, WorkspaceTooBig)
    else (BatchResult(net, st, tokens, withLogits), Done)
  }

  /** The prompt in batches; only the last batch computes logits. */
  function PrefillSpec(net: Net, limit: nat, st: State, tokens: seq<int>, size: nat, withLogits: bool): (State,
          PrefillOutcome)
    requires |st.kv| == net.nLayer && size > 0
    decreases |tokens|
  {
    if |tokens| == 0 then (st, Done)
    else
      var n := Min(size, |tokens|);
      var first := BatchSpec(net, limit, st, tokens[..n], withLogits && n == |tokens|);
      if first.1 != Done then first
      else PrefillSpec(net, limit, first.0, tokens[n..], size, withLogits)
  }

  /** With the state st and the prompt read up to index i, prefill is bound to end in goal. */
  ghost predicate LeadsTo(net: Net, limit: nat, st: State, o: PrefillOutcome, tokens: seq<int>, i: nat, size: nat,
          withLogits: bool, goal: (State, PrefillOutcome))
    requires |st.kv| == net.nLayer && size > 0
  {
    goal == if o == Done then PrefillSpec(net, limit, st, tokens[Min(i, |tokens|)..], size, withLogits) else (st, o)
  }

  lemma LeadsToNext(net: Net, limit: nat, st: State, tokens: seq<int>, i: nat, size: nat, withLogits: bool,
                    goal: (State, PrefillOutcome), first: (State, PrefillOutcome))
    requires |st.kv| == net.nLayer && size > 0 && i < |tokens|
             && LeadsTo(net, limit, st, Done, tokens, i, size, withLogits, goal)
    requires first == BatchSpec(net, limit, st, tokens[i..i + Min(size, |tokens| - i)],
                                withLogits && i + Min(size, |tokens| - i) == |tokens|)
    ensures LeadsTo(net, limit, first.0, first.1, tokens, i + size, size, withLogits, goal)
  {
    hide BatchSpec;
    var n := Min(size, |tokens| - i);
    assert tokens[i..][..n] == tokens[i..i + n];
    assert tokens[i..][n..] == tokens[i + n..];
  }

  lemma BatchResultIs(net: Net, st: State, tokens: seq<int>, withLogits: bool, cs: seq<Cache>, rows: seq<seq<real>>)
    requires |st.kv| == net.nLayer && InVocab(net, tokens) && |tokens| > 0
    requires cs == Stores(LayersFrom(net, 0), st.kv, EmbedRows(net, tokens), st.pos)
    requires rows == Output(LayersFrom(net, 0), st.kv, EmbedRows(net, tokens), st.pos)
    ensures |rows| == |tokens|
    ensures BatchResult(net, st, tokens, withLogits)
         == State(cs, st.pos + |tokens|, if withLogits then LogitsOf(net, rows[|tokens| - 1]) else st.logits)
  {
  }

  // ----- One batch after another

  lemma BatchKeepsState(net: Net, st: State, tokens: seq<int>, withLogits: bool)
    requires ValidState(net, st) && InVocab(net, tokens) && |tokens| > 0 && st.pos + |tokens| <= net.nCtx
    ensures ValidState(net, BatchResult(net, st, tokens, withLogits))
  {
    ModelIsStack(net, st.kv, st.pos);
    StoresReady(LayersFrom(net, 0), Rules(net), st.kv, EmbedRows(net, tokens), st.pos);
  }

  /** One batch over a ++ b is a batch over a, then one over b. */
  lemma BatchConcat(net: Net, st: State, a: seq<int>, b: seq<int>, withLogits: bool)
    requires ValidState(net, st) && InVocab(net, a) && InVocab(net, b) && |a| > 0 && |b| > 0
    requires st.pos + |a| + |b| <= net.nCtx
    ensures InVocab(net, a + b)
    ensures BatchResult(net, st, a + b, withLogits)
         == BatchResult(net, BatchResult(net, st, a, false), b, withLogits)
  {
    hide LayersFrom, EmbedRows, LogitsOf, Stores, Output, SlotOff, Ready, FitsNet, PagesFit, Filled;
    ModelIsStack(net, st.kv, st.pos);
    EmbedConcat(net, a, b);
    BatchSplit(LayersFrom(net, 0), Rules(net), st.kv, EmbedRows(net, a), EmbedRows(net, b), st.pos);
  }

  lemma {:induction false} SlotOffMonotone(a: nat, b: nat, dim: nat)
    requires a <= b
    ensures SlotOff(a, dim) <= SlotOff(b, dim)
  {
    if a < b {
      SlotOffMonotone(a, b - 1, dim);
    }
  }

  lemma SmallerBatchFits(net: Net, a: nat, b: nat)
    requires a <= b
    ensures WorkspaceBytes(net, a) <= WorkspaceBytes(net, b)
  {
    SlotOffMonotone(a, b, net.nEmbd);
    SlotOffMonotone(a, b, KvDim(net));
    SlotOffMonotone(a, b, net.nFf);
  }

  // ----- How far a prompt is processed

  /** How many tokens are processed: whole chunks, up to the first that overruns the room or holds a bad token. */
  function Committed(net: Net, room: nat, tokens: seq<int>, size: nat): (c: nat)
    requires size > 0
    ensures c <= |tokens|
    decreases |tokens|
  {
    var n := Min(size, |tokens|);
    if n == 0 || n > room || !InVocab(net, tokens[..n]) then 0
    else n + Committed(net, room - n, tokens[n..], size)
  }

  /** How long a prefix of the prompt fits the room and holds only tokens of the vocabulary. */
  function Usable(net: Net, room: nat, tokens: seq<int>): (u: nat)
    ensures u <= |tokens| && u <= room && InVocab(net, tokens[..u])
  {
    if |tokens| == 0 || room == 0 || !(0 <= tokens[0] < net.vocab) then 0
    else
      var u := Usable(net, room - 1, tokens[1..]);
      assert forall b :: 1 <= b < 1 + u ==> tokens[b] == tokens[1..][..u][b - 1];
      1 + u
  }

  lemma {:induction false} UsableIsLongest(net: Net, room: nat, tokens: seq<int>, n: nat)
    requires n <= |tokens|
    ensures n <= Usable(net, room, tokens) <==> n <= room && InVocab(net, tokens[..n])
  {
    if n > 0 && room > 0 && 0 <= tokens[0] < net.vocab {
      UsableIsLongest(net, room - 1, tokens[1..], n - 1);
      assert tokens[1..][..n - 1] == tokens[1..n];
      assert InVocab(net, tokens[..n]) <==> InVocab(net, tokens[1..n]) by {
        assert forall b :: 1 <= b < n ==> tokens[..n][b] == tokens[1..n][b - 1];
        assert forall b :: 0 <= b < n - 1 ==> tokens[1..n][b] == tokens[..n][b + 1];
      }
    } else if n > 0 {
      assert tokens[..n][0] == tokens[0];
    }
  }

  lemma {:induction false} UsableAfter(net: Net, room: nat, tokens: seq<int>, n: nat)
    requires n <= Usable(net, room, tokens)
    ensures Usable(net, room, tokens) == n + Usable(net, room - n, tokens[n..])
  {
    hide InVocab;
    if n == 0 {
      assert tokens[0..] == tokens;
    } else {
      UsableAfter(net, room - 1, tokens[1..], n - 1);
      assert tokens[1..][n - 1..] == tokens[n..];
    }
  }

  lemma OneMoreChunk(u: nat, size: nat)
    requires 0 < size <= u
    ensures u / size * size == size + (u - size) / size * size
  {
    QuotientStep(u, size);
    assert (1 + (u - size) / size) * size == size + (u - size) / size * size;
  }

  lemma NoChunk(u: nat, size: nat)
    requires u < size
    ensures u / size * size == 0
  {
    QuotientUnique(u, size, 0, u);
  }

  /** What is processed, in closed form: everything if all of it is usable, else the whole chunks of the usable part. */
  lemma {:induction false} CommittedIsWholeChunks(net: Net, room: nat, tokens: seq<int>, size: nat)
    requires size > 0
    ensures var u := Usable(net, room, tokens);
            Committed(net, room, tokens, size) == if u == |tokens| then u else u / size * size
    decreases |tokens|
  {
    hide Usable, InVocab;
    var u, n := Usable(net, room, tokens), Min(size, |tokens|);
    UsableIsLongest(net, room, tokens, n);
    if n == 0 {
    } else if n <= u {
      UsableAfter(net, room, tokens, n);
      CommittedIsWholeChunks(net, room - n, tokens[n..], size);
      if u < |tokens| {
        OneMoreChunk(u, size);
      }
    } else {
      NoChunk(u, size);
    }
  }

  /** Why prefill stops once c tokens have been processed. */
  function StopAt(room: nat, tokens: seq<int>, size: nat, c: nat): PrefillOutcome
    requires c <= |tokens|
  {
    if c == |tokens| then Done
    else if c + Min(size, |tokens| - c) > room then ContextExhausted
    else TokenOutOfRange
  }

  /** The state after one batch over the tokens, if there are any. */
  ghost function Reached(net: Net, st: State, tokens: seq<int>, withLogits: bool): State
    requires |st.kv| == net.nLayer && InVocab(net, tokens)
  {
    if |tokens| == 0 then st else BatchResult(net, st, tokens, withLogits)
  }

  lemma PrefixConcat(tokens: seq<int>, n: nat, c: nat)
    requires n + c <= |tokens|
    ensures tokens[..n + c] == tokens[..n] + tokens[n..][..c]
    ensures tokens[..0] == []
  {
  }

  lemma InVocabNone(net: Net)
    ensures InVocab(net, [])
  {
  }

  lemma InVocabConcat(net: Net, a: seq<int>, b: seq<int>)
    requires InVocab(net, a) && InVocab(net, b)
    ensures InVocab(net, a + b)
  {
  }

  lemma {:induction false} CommittedInVocab(net: Net, room: nat, tokens: seq<int>, size: nat)
    requires size > 0
    ensures Committed(net, room, tokens, size) <= room
    ensures InVocab(net, tokens[..Committed(net, room, tokens, size)])
    decreases |tokens|
  {
    hide InVocab;
    var n := Min(size, |tokens|);
    if 0 < n <= room && InVocab(net, tokens[..n]) {
      CommittedInVocab(net, room - n, tokens[n..], size);
      var c := Committed(net, room - n, tokens[n..], size);
      InVocabConcat(net, tokens[..n], tokens[n..][..c]);
      PrefixConcat(tokens, n, c);
    } else {
      InVocabNone(net);
      PrefixConcat(tokens, 0, 0);
    }
  }

  /** The state after a chunk and then the rest of what is processed. */
  lemma ReachedConcat(net: Net, st: State, a: seq<int>, b: seq<int>, withLogits: bool)
    requires ValidState(net, st) && InVocab(net, a) && InVocab(net, b) && |a| > 0
    requires st.pos + |a| + |b| <= net.nCtx
    ensures InVocab(net, a + b)
    ensures Reached(net, st, a + b, withLogits)
         == Reached(net, BatchResult(net, st, a, withLogits && |b| == 0), b, withLogits)
  {
    hide BatchResult, ValidState;
    if |b| == 0 {
      assert a + b == a;
    } else {
      BatchConcat(net, st, a, b, withLogits);
    }
  }

  lemma StateHasLayers(net: Net, st: State)
    requires ValidState(net, st)
    ensures |st.kv| == net.nLayer
  {
  }

  lemma BatchMoves(net: Net, st: State, tokens: seq<int>, withLogits: bool)
    requires |st.kv| == net.nLayer && InVocab(net, tokens) && |tokens| > 0
    ensures BatchResult(net, st, tokens, withLogits).pos == st.pos + |tokens|
  {
  }

  lemma NothingReached(net: Net, st: State, tokens: seq<int>, withLogits: bool)
    requires |st.kv| == net.nLayer
    ensures InVocab(net, tokens[..0]) && Reached(net, st, tokens[..0], withLogits) == st
  {
  }

  /** The first chunk may be processed, the workspace aside. */
  predicate ChunkAccepted(net: Net, room: nat, tokens: seq<int>, size: nat) {
    0 < Min(size, |tokens|) <= room && InVocab(net, tokens[..Min(size, |tokens|)])
  }

  lemma SpecStep(net: Net, limit: nat, st: State, tokens: seq<int>, size: nat, withLogits: bool)
    requires |st.kv| == net.nLayer && st.pos <= net.nCtx && size > 0
    requires WorkspaceBytes(net, Min(size, |tokens|)) <= limit && ChunkAccepted(net, net.nCtx - st.pos, tokens, size)
    ensures var n := Min(size, |tokens|);
            PrefillSpec(net, limit, st, tokens, size, withLogits)
            == PrefillSpec(net, limit, BatchResult(net, st, tokens[..n], withLogits && n == |tokens|), tokens[n..],
                           size, withLogits)
  {
    hide BatchResult, WorkspaceBytes, InVocab;
  }

  lemma SpecRefused(net: Net, limit: nat, st: State, tokens: seq<int>, size: nat, withLogits: bool)
    requires |st.kv| == net.nLayer && st.pos <= net.nCtx && size > 0
    requires WorkspaceBytes(net, Min(size, |tokens|)) <= limit && !ChunkAccepted(net, net.nCtx - st.pos, tokens, size)
    ensures Committed(net, net.nCtx - st.pos, tokens, size) == 0
    ensures PrefillSpec(net, limit, st, tokens, size, withLogits) == (st, StopAt(net.nCtx - st.pos, tokens, size, 0))
  {
    hide BatchResult, WorkspaceBytes, InVocab;
  }

  lemma CommittedStep(net: Net, room: nat, tokens: seq<int>, size: nat)
    requires size > 0 && ChunkAccepted(net, room, tokens, size)
    ensures var n := Min(size, |tokens|);
            var c := Committed(net, room - n, tokens[n..], size);
            && Committed(net, room, tokens, size) == n + c
            && StopAt(room, tokens, size, n + c) == StopAt(room - n, tokens[n..], size, c)
            && tokens[..n + c] == tokens[..n] + tokens[n..][..c]
  {
    hide InVocab;
    var n := Min(size, |tokens|);
    PrefixConcat(tokens, n, Committed(net, room - n, tokens[n..], size));
  }

  /**
   * For a first chunk that fits the workspace, any prompt at all: prefill ends where one batch over the processed
   * tokens would, for the reason that stopped it.
   */
  lemma {:induction false} PrefillStopsAt(net: Net, limit: nat, st: State, tokens: seq<int>, size: nat,
          withLogits: bool)
    requires ValidState(net, st) && st.pos <= net.nCtx && size > 0
    requires WorkspaceBytes(net, Min(size, |tokens|)) <= limit
    ensures var c := Committed(net, net.nCtx - st.pos, tokens, size);
            && InVocab(net, tokens[..c])
            && PrefillSpec(net, limit, st, tokens, size, withLogits)
               == (Reached(net, st, tokens[..c], withLogits && c == |tokens|),
                   StopAt(net.nCtx - st.pos, tokens, size, c))
    decreases |tokens|
  {
    hide BatchResult, ValidState, WorkspaceBytes, InVocab, Reached, PrefillSpec, Committed, StopAt;
    var room, n := net.nCtx - st.pos, Min(size, |tokens|);
    StateHasLayers(net, st);
    CommittedInVocab(net, room, tokens, size);
    if ChunkAccepted(net, room, tokens, size) {
      var a, b := tokens[..n], tokens[n..];
      var c := Committed(net, room - n, b, size);
      var last := withLogits && n == |tokens|;
      BatchKeepsState(net, st, a, last);
      BatchMoves(net, st, a, last);
      SmallerBatchFits(net, Min(size, |b|), n);
      SpecStep(net, limit, st, tokens, size, withLogits);
      CommittedStep(net, room, tokens, size);
      PrefillStopsAt(net, limit, BatchResult(net, st, a, last), b, size, withLogits);
      ReachedConcat(net, st, a, b[..c], withLogits && n + c == |tokens|);
    } else {
      SpecRefused(net, limit, st, tokens, size, withLogits);
      NothingReached(net, st, tokens, withLogits && |tokens| == 0);
    }
  }

  predicate FirstFits(net: Net, limit: nat, tokens: seq<int>, size: nat) {
    WorkspaceBytes(net, Min(size, |tokens|)) <= limit
  }

  /** How much of a prompt is processed, and why prefill stops, for any prompt, batch size and workspace. */
  function Ending(net: Net, limit: nat, room: nat, tokens: seq<int>, size: nat): (r: (nat, PrefillOutcome))
    requires size > 0
    ensures r.0 <= |tokens|
  {
    if FirstFits(net, limit, tokens, size) then
      var c := Committed(net, room, tokens, size);
      (c, StopAt(room, tokens, size, c))
    else
      var n := Min(size, |tokens|);
      (0, if n > room then ContextExhausted
          else if !InVocab(net, tokens[..n]) then TokenOutOfRange
          else WorkspaceTooBig)
  }

  lemma EmptyFits(net: Net, limit: nat)
    ensures WorkspaceBytes(net, 0) <= limit
  {
  }

  /** Any prompt, any batch size: prefill processes that much, in effect as one batch, and stops for that reason. */
  lemma PrefillEndsAt(net: Net, limit: nat, st: State, tokens: seq<int>, size: nat, withLogits: bool)
    requires ValidState(net, st) && st.pos <= net.nCtx && size > 0
    ensures var e := Ending(net, limit, net.nCtx - st.pos, tokens, size);
            && InVocab(net, tokens[..e.0])
            && PrefillSpec(net, limit, st, tokens, size, withLogits)
               == (Reached(net, st, tokens[..e.0], withLogits && e.0 == |tokens|), e.1)
  {
    hide BatchResult, ValidState, WorkspaceBytes, Reached;
    StateHasLayers(net, st);
    if FirstFits(net, limit, tokens, size) {
      PrefillStopsAt(net, limit, st, tokens, size, withLogits);
    } else {
      EmptyFits(net, limit);
      NothingReached(net, st, tokens, withLogits && |tokens| == 0);
    }
  }

  lemma ReachedMoves(net: Net, st: State, tokens: seq<int>, withLogits: bool)
    requires |st.kv| == net.nLayer && InVocab(net, tokens)
    ensures Reached(net, st, tokens, withLogits).pos == st.pos + |tokens|
  {
  }

  /** Two batch sizes give the same result, for any prompt, exactly when they process as much and stop alike. */
  lemma SizesAgree(net: Net, limit: nat, st: State, tokens: seq<int>, m: nat, n: nat, withLogits: bool)
    requires ValidState(net, st) && st.pos <= net.nCtx && m > 0 && n > 0
    ensures PrefillSpec(net, limit, st, tokens, m, withLogits) == PrefillSpec(net, limit, st, tokens, n, withLogits)
       <==> Ending(net, limit, net.nCtx - st.pos, tokens, m) == Ending(net, limit, net.nCtx - st.pos, tokens, n)
  {
    hide BatchResult, ValidState, PrefillSpec, Ending, Reached;
    StateHasLayers(net, st);
    PrefillEndsAt(net, limit, st, tokens, m, withLogits);
    PrefillEndsAt(net, limit, st, tokens, n, withLogits);
    var room := net.nCtx - st.pos;
    ReachedMoves(net, st, tokens[..Ending(net, limit, room, tokens, m).0],
                 withLogits && Ending(net, limit, room, tokens, m).0 == |tokens|);
    ReachedMoves(net, st, tokens[..Ending(net, limit, room, tokens, n).0],
                 withLogits && Ending(net, limit, room, tokens, n).0 == |tokens|);
  }

  // ----- Batch size does not matter

  /** However the prompt is cut, prefill ends where one batch over the whole prompt would. */
  lemma PrefillIsOneBatch(net: Net, limit: nat, st: State, tokens: seq<int>, size: nat, withLogits: bool)
    requires ValidState(net, st) && InVocab(net, tokens) && |tokens| > 0 && size > 0
    requires st.pos + |tokens| <= net.nCtx && WorkspaceBytes(net, Min(size, |tokens|)) <= limit
    ensures PrefillSpec(net, limit, st, tokens, size, withLogits) == (BatchResult(net, st, tokens, withLogits), Done)
  {
    hide ValidState, BatchResult, PrefillSpec, Committed, Usable, InVocab, WorkspaceBytes;
    assert tokens[..|tokens|] == tokens;
    UsableIsLongest(net, net.nCtx - st.pos, tokens, |tokens|);
    CommittedIsWholeChunks(net, net.nCtx - st.pos, tokens, size);
    PrefillStopsAt(net, limit, st, tokens, size, withLogits);
  }

  /** A first chunk that does not fit leaves the state as it was. */
  lemma TooBigChangesNothing(net: Net, limit: nat, st: State, tokens: seq<int>, size: nat, withLogits: bool)
    requires |st.kv| == net.nLayer && InVocab(net, tokens) && |tokens| > 0 && size > 0
    requires st.pos + |tokens| <= net.nCtx && WorkspaceBytes(net, Min(size, |tokens|)) > limit
    ensures PrefillSpec(net, limit, st, tokens, size, withLogits) == (st, WorkspaceTooBig)
  {
    var n := Min(size, |tokens|);
    assert InVocab(net, tokens[..n]);
    assert BatchSpec(net, limit, st, tokens[..n], withLogits && n == |tokens|) == (st, WorkspaceTooBig);
  }

  lemma PrefillCases(net: Net, limit: nat, st: State, tokens: seq<int>, size: nat, withLogits: bool)
    requires ValidState(net, st) && InVocab(net, tokens) && |tokens| > 0 && size > 0
    requires st.pos + |tokens| <= net.nCtx
    ensures PrefillSpec(net, limit, st, tokens, size, withLogits)
         == if WorkspaceBytes(net, Min(size, |tokens|)) <= limit then (BatchResult(net, st, tokens, withLogits), Done)
            else (st, WorkspaceTooBig)
  {
    if WorkspaceBytes(net, Min(size, |tokens|)) <= limit {
      PrefillIsOneBatch(net, limit, st, tokens, size, withLogits);
    } else {
      TooBigChangesNothing(net, limit, st, tokens, size, withLogits);
    }
  }

  /** Two batch sizes give the same result exactly when both, or neither, let the first chunk into the workspace. */
  lemma BatchSizeDoesNotMatter(net: Net, limit: nat, st: State, tokens: seq<int>, m: nat, n: nat, withLogits: bool)
    requires ValidState(net, st) && InVocab(net, tokens) && |tokens| > 0 && m > 0 && n > 0
    requires st.pos + |tokens| <= net.nCtx
    ensures PrefillSpec(net, limit, st, tokens, m, withLogits) == PrefillSpec(net, limit, st, tokens, n, withLogits)
       <==> (WorkspaceBytes(net, Min(m, |tokens|)) <= limit <==> WorkspaceBytes(net, Min(n, |tokens|)) <= limit)
  {
    PrefillCases(net, limit, st, tokens, m, withLogits);
    PrefillCases(net, limit, st, tokens, n, withLogits);
  }
}
