/**
 * The loop interchange behind batched prefill, for any stack of layers.
 * A layer first stores something about every row of a batch, then computes each row from what is stored.
 * When a row never depends on what is stored at later positions, one batch over xs ++ ys is a batch over xs
 * followed by a batch over ys.
 */
module BatchInterchange {
  /** write(c, x, pos) stores row x at pos; row(c, x, pos) is what the layer makes of row x at pos. */
  datatype Layer<!C, !R> = Layer(write: (C, R, nat) -> C, row: (C, R, nat) -> R)

  /** ready(c, n): positions below n are stored. ok(x): x has the shape of a row. */
  datatype Domain<!C, !R> = Domain(ready: (C, nat) -> bool, ok: R -> bool, limit: nat)

  ghost predicate Causal<C(!new), R(!new)>(l: Layer<C, R>, d: Domain<C, R>) {
    && (forall c, x, pos: nat {:trigger l.write(c, x, pos)} ::
          d.ready(c, pos) && d.ok(x) && pos < d.limit ==> d.ready(l.write(c, x, pos), pos + 1))
    && (forall c, x, y, pos: nat, p: nat {:trigger l.row(l.write(c, y, pos), x, p)} ::
          d.ready(c, pos) && d.ok(x) && d.ok(y) && pos < d.limit && p < pos ==>
          l.row(l.write(c, y, pos), x, p) == l.row(c, x, p))
    && (forall c, x, pos: nat {:trigger l.row(c, x, pos)} :: d.ok(x) ==> d.ok(l.row(c, x, pos)))
  }

  ghost predicate AllOk<C, R>(d: Domain<C, R>, xs: seq<R>) {
    forall b :: 0 <= b < |xs| ==> d.ok(xs[b])
  }

  // ----- One layer

  function WriteRows<C, R>(l: Layer<C, R>, c: C, xs: seq<R>, start: nat, n: nat): C
    requires n <= |xs|
  {
    if n == 0 then c else l.write(WriteRows(l, c, xs, start, n - 1), xs[n - 1], start + n - 1)
  }

  /** The first n rows computed from the store c. */
  function LayerRows<C, R>(l: Layer<C, R>, c: C, xs: seq<R>, start: nat, n: nat): (r: seq<R>)
    requires n <= |xs|
    ensures |r| == n
  {
    if n == 0 then [] else LayerRows(l, c, xs, start, n - 1) + [l.row(c, xs[n - 1], start + n - 1)]
  }

  lemma {:induction false} WriteRowsReady<C(!new), R(!new)>(l: Layer<C, R>, d: Domain<C, R>, c: C, xs: seq<R>,
          start: nat, n: nat)
    requires Causal(l, d) && d.ready(c, start) && AllOk(d, xs) && n <= |xs| && start + n <= d.limit
    ensures d.ready(WriteRows(l, c, xs, start, n), start + n)
  {
    if n > 0 {
      WriteRowsReady(l, d, c, xs, start, n - 1);
    }
  }

  /** Rows at earlier positions do not notice what is written behind them. */
  lemma {:induction false} EarlierRow<C(!new), R(!new)>(l: Layer<C, R>, d: Domain<C, R>, c: C, ys: seq<R>, at: nat,
          n: nat, x: R, p: nat)
    requires Causal(l, d) && d.ready(c, at) && AllOk(d, ys) && d.ok(x) && n <= |ys| && at + n <= d.limit && p < at
    ensures l.row(WriteRows(l, c, ys, at, n), x, p) == l.row(c, x, p)
  {
    if n > 0 {
      EarlierRow(l, d, c, ys, at, n - 1, x, p);
      WriteRowsReady(l, d, c, ys, at, n - 1);
    }
  }

  lemma {:induction false} WriteRowsPrefix<C, R>(l: Layer<C, R>, c: C, xs: seq<R>, ys: seq<R>, start: nat, n: nat)
    requires n <= |xs|
    ensures WriteRows(l, c, xs + ys, start, n) == WriteRows(l, c, xs, start, n)
  {
    if n > 0 {
      WriteRowsPrefix(l, c, xs, ys, start, n - 1);
    }
  }

  /** Writing xs ++ ys is writing xs, then ys behind them. */
  lemma {:induction false} WriteRowsSplit<C, R>(l: Layer<C, R>, c: C, xs: seq<R>, ys: seq<R>, start: nat, n: nat)
    requires n <= |ys|
    ensures WriteRows(l, c, xs + ys, start, |xs| + n)
         == WriteRows(l, WriteRows(l, c, xs, start, |xs|), ys, start + |xs|, n)
  {
    if n == 0 {
      WriteRowsPrefix(l, c, xs, ys, start, |xs|);
    } else {
      WriteRowsSplit(l, c, xs, ys, start, n - 1);
    }
  }

  /** The first part of the batch reads the same whether or not the second part is already written. */
  lemma {:induction false} FirstPart<C(!new), R(!new)>(l: Layer<C, R>, d: Domain<C, R>, c1: C, xs: seq<R>, ys: seq<R>,
          start: nat, n: nat)
    requires Causal(l, d) && d.ready(c1, start + |xs|) && AllOk(d, xs) && AllOk(d, ys) && start + |xs| + |ys| <= d.limit
    requires n <= |xs|
    ensures LayerRows(l, WriteRows(l, c1, ys, start + |xs|, |ys|), xs + ys, start, n) == LayerRows(l, c1, xs, start, n)
  {
    if n > 0 {
      FirstPart(l, d, c1, xs, ys, start, n - 1);
      EarlierRow(l, d, c1, ys, start + |xs|, |ys|, xs[n - 1], start + n - 1);
    }
  }

  lemma {:induction false} SecondPart<C, R>(l: Layer<C, R>, c2: C, xs: seq<R>, ys: seq<R>, start: nat, n: nat)
    requires n <= |ys|
    ensures LayerRows(l, c2, xs + ys, start, |xs| + n)
         == LayerRows(l, c2, xs + ys, start, |xs|) + LayerRows(l, c2, ys, start + |xs|, n)
  {
    if n > 0 {
      SecondPart(l, c2, xs, ys, start, n - 1);
      assert (xs + ys)[|xs| + n - 1] == ys[n - 1];
    }
  }

  /** A whole layer over a batch: write every row, then compute every row. */
  function LayerBatch<C, R>(l: Layer<C, R>, c: C, xs: seq<R>, start: nat): (r: seq<R>)
    ensures |r| == |xs|
  {
    LayerRows(l, WriteRows(l, c, xs, start, |xs|), xs, start, |xs|)
  }

  /** With everything written, the rows of xs ++ ys are the rows of xs before ys was written, then those of ys. */
  lemma JoinRows<C(!new), R(!new)>(l: Layer<C, R>, d: Domain<C, R>, c1: C, c2: C, xs: seq<R>, ys: seq<R>, start: nat)
    requires Causal(l, d) && d.ready(c1, start + |xs|) && AllOk(d, xs) && AllOk(d, ys) && start + |xs| + |ys| <= d.limit
    requires c2 == WriteRows(l, c1, ys, start + |xs|, |ys|)
    ensures LayerRows(l, c2, xs + ys, start, |xs| + |ys|)
         == LayerRows(l, c1, xs, start, |xs|) + LayerRows(l, c2, ys, start + |xs|, |ys|)
  {
    FirstPart(l, d, c1, xs, ys, start, |xs|);
    SecondPart(l, c2, xs, ys, start, |ys|);
  }

  lemma BatchIs<C, R>(l: Layer<C, R>, c: C, c1: C, xs: seq<R>, start: nat, n: nat)
    requires n == |xs| && c1 == WriteRows(l, c, xs, start, n)
    ensures LayerBatch(l, c, xs, start) == LayerRows(l, c1, xs, start, n)
  {
  }

  /** One layer: the rows of xs ++ ys, computed with everything already written, are those of the two parts. */
  lemma LayerSplit<C(!new), R(!new)>(l: Layer<C, R>, d: Domain<C, R>, c: C, c1: C, c2: C, xs: seq<R>, ys: seq<R>,
          start: nat)
    requires Causal(l, d) && d.ready(c, start) && AllOk(d, xs) && AllOk(d, ys) && start + |xs| + |ys| <= d.limit
    requires c1 == WriteRows(l, c, xs, start, |xs|) && c2 == WriteRows(l, c1, ys, start + |xs|, |ys|)
    ensures WriteRows(l, c, xs + ys, start, |xs + ys|) == c2
    ensures LayerBatch(l, c, xs + ys, start) == LayerBatch(l, c, xs, start) + LayerBatch(l, c1, ys, start + |xs|)
  {
    WriteRowsReady(l, d, c, xs, start, |xs|);
    WriteRowsSplit(l, c, xs, ys, start, |ys|);
    JoinRows(l, d, c1, c2, xs, ys, start);
    BatchIs(l, c, c2, xs + ys, start, |xs| + |ys|);
    BatchIs(l, c, c1, xs, start, |xs|);
    BatchIs(l, c1, c2, ys, start + |xs|, |ys|);
  }

  lemma {:induction false} LayerRowsOk<C(!new), R(!new)>(l: Layer<C, R>, d: Domain<C, R>, c: C, xs: seq<R>,
          start: nat, n: nat)
    requires Causal(l, d) && AllOk(d, xs) && n <= |xs|
    ensures AllOk(d, LayerRows(l, c, xs, start, n))
  {
    if n > 0 {
      LayerRowsOk(l, d, c, xs, start, n - 1);
    }
  }

  // ----- A stack of layers, run layer by layer over the whole batch

  /** What the layers make of a batch. */
  function Output<C, R>(ls: seq<Layer<C, R>>, cs: seq<C>, xs: seq<R>, start: nat): (r: seq<R>)
    requires |cs| == |ls|
    ensures |r| == |xs|
  {
    if |ls| == 0 then xs else Output(ls[1..], cs[1..], LayerBatch(ls[0], cs[0], xs, start), start)
  }

  /** The layers' stores once the batch has passed. */
  function Stores<C, R>(ls: seq<Layer<C, R>>, cs: seq<C>, xs: seq<R>, start: nat): (r: seq<C>)
    requires |cs| == |ls|
    ensures |r| == |cs|
  {
    if |ls| == 0 then []
    else [WriteRows(ls[0], cs[0], xs, start, |xs|)]
         + Stores(ls[1..], cs[1..], LayerBatch(ls[0], cs[0], xs, start), start)
  }

  ghost predicate Stack<C(!new), R(!new)>(ls: seq<Layer<C, R>>, d: Domain<C, R>, cs: seq<C>, start: nat) {
    && |cs| == |ls|
    && (forall n :: 0 <= n < |ls| ==> Causal(ls[n], d))
    && (forall n :: 0 <= n < |cs| ==> d.ready(cs[n], start))
  }

  lemma BatchOk<C(!new), R(!new)>(l: Layer<C, R>, d: Domain<C, R>, c: C, xs: seq<R>, start: nat)
    requires Causal(l, d) && AllOk(d, xs)
    ensures AllOk(d, LayerBatch(l, c, xs, start))
  {
    LayerRowsOk(l, d, WriteRows(l, c, xs, start, |xs|), xs, start, |xs|);
  }

  lemma {:induction false} StoresReady<C(!new), R(!new)>(ls: seq<Layer<C, R>>, d: Domain<C, R>, cs: seq<C>,
          xs: seq<R>, start: nat)
    requires Stack(ls, d, cs, start) && AllOk(d, xs) && start + |xs| <= d.limit
    ensures Stack(ls, d, Stores(ls, cs, xs, start), start + |xs|)
    decreases |ls|
  {
    if |ls| > 0 {
      BatchOk(ls[0], d, cs[0], xs, start);
      WriteRowsReady(ls[0], d, cs[0], xs, start, |xs|);
      StoresReady(ls[1..], d, cs[1..], LayerBatch(ls[0], cs[0], xs, start), start);
    }
  }

  lemma OutputNext<C, R>(ls: seq<Layer<C, R>>, cs: seq<C>, xs: seq<R>, start: nat)
    requires |cs| == |ls| > 0
    ensures Output(ls, cs, xs, start) == Output(ls[1..], cs[1..], LayerBatch(ls[0], cs[0], xs, start), start)
    ensures Stores(ls, cs, xs, start)[0] == WriteRows(ls[0], cs[0], xs, start, |xs|)
    ensures Stores(ls, cs, xs, start)[1..] == Stores(ls[1..], cs[1..], LayerBatch(ls[0], cs[0], xs, start), start)
  {
  }

  lemma SameParts<T>(s: seq<T>, t: seq<T>)
    requires |s| == |t| > 0 && s[0] == t[0] && s[1..] == t[1..]
    ensures s == t
  {
    assert s == [s[0]] + s[1..];
    assert t == [t[0]] + t[1..];
  }

  /** One layer over xs ++ ys: its store, its rows, and that the rows still have their shape. */
  lemma SplitStep<C(!new), R(!new)>(l: Layer<C, R>, d: Domain<C, R>, c: C, c1: C, xs: seq<R>, ys: seq<R>, start: nat)
    requires Causal(l, d) && d.ready(c, start) && AllOk(d, xs) && AllOk(d, ys) && start + |xs| + |ys| <= d.limit
    requires c1 == WriteRows(l, c, xs, start, |xs|)
    ensures WriteRows(l, c, xs + ys, start, |xs + ys|) == WriteRows(l, c1, ys, start + |xs|, |ys|)
    ensures LayerBatch(l, c, xs + ys, start) == LayerBatch(l, c, xs, start) + LayerBatch(l, c1, ys, start + |xs|)
    ensures AllOk(d, LayerBatch(l, c, xs, start)) && AllOk(d, LayerBatch(l, c1, ys, start + |xs|))
  {
    LayerSplit(l, d, c, c1, WriteRows(l, c1, ys, start + |xs|, |ys|), xs, ys, start);
    BatchOk(l, d, c, xs, start);
    BatchOk(l, d, c1, ys, start + |xs|);
  }

  lemma StackTail<C(!new), R(!new)>(ls: seq<Layer<C, R>>, d: Domain<C, R>, cs: seq<C>, start: nat)
    requires Stack(ls, d, cs, start) && |ls| > 0
    ensures Causal(ls[0], d) && d.ready(cs[0], start) && Stack(ls[1..], d, cs[1..], start)
  {
  }

  ghost predicate Splits<C, R>(ls: seq<Layer<C, R>>, cs: seq<C>, xs: seq<R>, ys: seq<R>, start: nat)
    requires |cs| == |ls|
  {
    var cs1 := Stores(ls, cs, xs, start);
    && Stores(ls, cs, xs + ys, start) == Stores(ls, cs1, ys, start + |xs|)
    && Output(ls, cs, xs + ys, start) == Output(ls, cs, xs, start) + Output(ls, cs1, ys, start + |xs|)
  }

  /** From the layers after the first to the whole stack. */
  lemma SplitsNext<C, R>(ls: seq<Layer<C, R>>, cs: seq<C>, xs: seq<R>, ys: seq<R>, start: nat, a: seq<R>, b: seq<R>,
          c1: C)
    requires |cs| == |ls| > 0
    requires c1 == WriteRows(ls[0], cs[0], xs, start, |xs|)
    requires WriteRows(ls[0], cs[0], xs + ys, start, |xs + ys|) == WriteRows(ls[0], c1, ys, start + |xs|, |ys|)
    requires a == LayerBatch(ls[0], cs[0], xs, start) && b == LayerBatch(ls[0], c1, ys, start + |xs|)
    requires LayerBatch(ls[0], cs[0], xs + ys, start) == a + b
    requires Splits(ls[1..], cs[1..], a, b, start)
    ensures Splits(ls, cs, xs, ys, start)
  {
    var cs1 := Stores(ls, cs, xs, start);
    OutputNext(ls, cs, xs + ys, start);
    OutputNext(ls, cs, xs, start);
    OutputNext(ls, cs1, ys, start + |xs|);
    SameParts(Stores(ls, cs, xs + ys, start), Stores(ls, cs1, ys, start + |xs|));
  }

  /** The stores and rows of one batch are those of two consecutive batches, for any stack of causal layers. */
  lemma {:induction false} BatchSplit<C(!new), R(!new)>(ls: seq<Layer<C, R>>, d: Domain<C, R>, cs: seq<C>, xs: seq<R>,
          ys: seq<R>, start: nat)
    requires Stack(ls, d, cs, start) && AllOk(d, xs) && AllOk(d, ys) && start + |xs| + |ys| <= d.limit
    ensures Splits(ls, cs, xs, ys, start)
    decreases |ls|
  {
    if |ls| > 0 {
      var c1 := WriteRows(ls[0], cs[0], xs, start, |xs|);
      var a, b := LayerBatch(ls[0], cs[0], xs, start), LayerBatch(ls[0], c1, ys, start + |xs|);
      StackTail(ls, d, cs, start);
      SplitStep(ls[0], d, cs[0], c1, xs, ys, start);
      BatchSplit(ls[1..], d, cs[1..], a, b, start);
      SplitsNext(ls, cs, xs, ys, start, a, b, c1);
    }
  }
}
