/**
 * The 32-element block quantizers and their dot products, in exact arithmetic.
 * A packed byte holds two 4-bit codes: the even element in the low nibble, the odd one in the high nibble.
 */
module Quant {
  import opened Common
  import opened RealMath

  datatype BlockQ8 = BlockQ8(d: real, qs: seq<int>)
  datatype BlockQ4 = BlockQ4(d: real, qs: seq<int>)

  predicate IsBlockQ8(b: BlockQ8) {
    |b.qs| == 32 && forall i :: 0 <= i < 32 ==> -127 <= b.qs[i] <= 127
  }

  predicate IsBlockQ4(b: BlockQ4) {
    |b.qs| == 16 && forall i :: 0 <= i < 16 ==> 0 <= b.qs[i] < 256
  }

  /** The code that the dot products extract for element k: byte k/2, shifted or masked, minus the bias 8. */
  function Nibble(qs: seq<int>, k: nat): int
    requires k / 2 < |qs|
  {
    (if k % 2 == 1 then qs[k / 2] / 16 else qs[k / 2] % 16) - 8
  }

  function Codes4(b: BlockQ4): (c: seq<int>)
    requires |b.qs| == 16
    ensures |c| == 32
  {
    seq(32, k requires 0 <= k < 32 => Nibble(b.qs, k))
  }

  /** Byte j holds code 2j in its low half and code 2j + 1 in its high half, each with the bias 8. */
  lemma HalvesAre(b: BlockQ4, j: nat)
    requires IsBlockQ4(b) && j < 16
    ensures b.qs[j] == (Codes4(b)[2 * j] + 8) + 0x10 * (Codes4(b)[2 * j + 1] + 8)
    ensures -8 <= Codes4(b)[2 * j] <= 7 && -8 <= Codes4(b)[2 * j + 1] <= 7
  {
    assert (2 * j) / 2 == j && (2 * j + 1) / 2 == j;
  }

  // ----- What a quantized block promises about the values it came from

  /** The values the codes stand for. */
  function Decode(codes: seq<int>, d: real): (v: seq<real>)
    ensures |v| == |codes|
  {
    seq(|codes|, k requires 0 <= k < |codes| => Times(codes[k] as real, d))
  }

  /** Decoding every code with scale d misses its source value by at most `err`. */
  ghost predicate Approximates(codes: seq<int>, d: real, src: seq<real>, lo: nat, err: real)
    requires lo + 32 <= |src|
  {
    |codes| == 32 && Near(Decode(codes, d), src, lo, 32, err)
  }

  /** Every code is the rounded scaled value itself: the clamp that follows the rounding changed nothing. */
  ghost predicate Unclamped(codes: seq<int>, d: real, src: seq<real>, lo: nat)
    requires lo + 32 <= |src|
  {
    |codes| == 32 && (d != 0.0 ==> forall k :: 0 <= k < 32 ==> codes[k] == RoundEven(Times(src[lo + k], 1.0 / d)))
  }

  /** A block of zeros is stored as zero bytes. */
  predicate AllZero(qs: seq<int>) {
    forall i :: 0 <= i < |qs| ==> qs[i] == 0
  }

  function AmaxBlock(src: seq<real>, b: nat): (r: real)
    requires b * 32 + 32 <= |src|
    ensures r >= 0.0
  {
    MaxAbs(src, b * 32, 32)
  }

  /** Q8_0: one scale for 32 codes, at most amax/254 away from each source value. */
  ghost predicate EncodesQ8(out: seq<BlockQ8>, src: seq<real>, b: nat)
    requires b < |out| && b * 32 + 32 <= |src|
  {
    && IsBlockQ8(out[b])
    && out[b].d == AmaxBlock(src, b) / 127.0
    && Unclamped(out[b].qs, out[b].d, src, b * 32) && (out[b].d == 0.0 ==> AllZero(out[b].qs))
    && Approximates(out[b].qs, out[b].d, src, b * 32, AmaxBlock(src, b) / 254.0)
  }

  ghost predicate EncodesQ4(out: seq<BlockQ4>, src: seq<real>, b: nat)
    requires b < |out| && b * 32 + 32 <= |src|
  {
    && IsBlockQ4(out[b])
    && out[b].d == AmaxBlock(src, b) / 7.0
    && Unclamped(Codes4(out[b]), out[b].d, src, b * 32) && (out[b].d == 0.0 ==> AllZero(out[b].qs))
    && Approximates(Codes4(out[b]), out[b].d, src, b * 32, AmaxBlock(src, b) / 14.0)
  }

  // ----- The quantizers

  method AmaxOf(src: seq<real>, lo: nat) returns (amax: real)
    requires lo + 32 <= |src|
    ensures amax == MaxAbs(src, lo, 32)
  {
    amax := 0.0;
    for i := 0 to 32
      invariant amax == MaxAbs(src, lo, i)
    {
      amax := MaxReal(amax, Abs(src[lo + i]));
    }
  }

  lemma ScaledSource(x: real, d: real, id: real)
    requires d != 0.0 && id == 1.0 / d
    ensures Times(Times(x, id), d) == x
  {
    Quotient(1.0, d);
    Reassociate(x, id, d);
  }

  lemma RangeOfScaled(y: real, d: real, x: real, l: real)
    requires d > 0.0 && Times(y, d) == x && -Times(l, d) <= x <= Times(l, d)
    ensures -l <= y <= l
  {
    QuotientRange(x, d, l, y);
    Negate(y, d);
    QuotientRange(-x, d, l, -y);
  }

  lemma HalfStepError(y: real, d: real, x: real, q: int)
    requires d > 0.0 && Times(y, d) == x && Abs(q as real - y) <= 0.5
    ensures Abs(Times(q as real, d) - x) <= d / 2.0
  {
    RoundedError(x, d, y, q as real);
  }

  /** The scaled value is src * (1/d): its code never needs the clamp, and decoding is off by at most d/2. */
  lemma ScaledCode(x: real, amax: real, levels: int, d: real, id: real)
    requires amax > 0.0 && Abs(x) <= amax && d > 0.0 && id == 1.0 / d
    requires Times(levels as real, d) == amax
    ensures -levels <= RoundEven(Times(x, id)) <= levels
    ensures Abs(Times(RoundEven(Times(x, id)) as real, d) - x) <= d / 2.0
  {
    ScaledSource(x, d, id);
    RangeOfScaled(Times(x, id), d, x, levels as real);
    HalfStepError(Times(x, id), d, x, RoundEven(Times(x, id)));
  }

  /** The first n codes are the rounded scaled values and decode to within half a step. */
  ghost predicate Coded(codes: seq<int>, d: real, id: real, src: seq<real>, lo: nat, n: nat)
    requires lo + n <= |src|
  {
    && |codes| == n
    && (forall j :: 0 <= j < n ==> codes[j] == RoundEven(Times(src[lo + j], id)))
    && (forall j :: 0 <= j < n ==> Abs(Times(codes[j] as real, d) - src[lo + j]) <= d / 2.0)
  }

  /** The scale of a block that has a nonzero value. */
  ghost predicate Scales(d: real, id: real, levels: int, amax: real) {
    amax > 0.0 && d > 0.0 && id == 1.0 / d && Times(levels as real, d) == amax
  }

  lemma CodeOne(codes: seq<int>, d: real, id: real, src: seq<real>, lo: nat, levels: int)
    requires lo + |codes| < |src| && |codes| < 32 && lo + 32 <= |src| && Coded(codes, d, id, src, lo, |codes|)
    requires Scales(d, id, levels, MaxAbs(src, lo, 32))
    ensures -levels <= RoundEven(Times(src[lo + |codes|], id)) <= levels
    ensures Coded(codes + [RoundEven(Times(src[lo + |codes|], id))], d, id, src, lo, |codes| + 1)
  {
    ScaledCode(src[lo + |codes|], MaxAbs(src, lo, 32), levels, d, id);
  }

  lemma CodedBlock(codes: seq<int>, d: real, id: real, src: seq<real>, lo: nat, levels: int)
    requires lo + 32 <= |src| && Coded(codes, d, id, src, lo, 32)
    requires Scales(d, id, levels, MaxAbs(src, lo, 32))
    ensures Unclamped(codes, d, src, lo)
    ensures Approximates(codes, d, src, lo, d / 2.0)
  {
  }

  lemma ScaleOfBlock(amax: real, levels: int)
    requires amax > 0.0 && levels > 0
    ensures amax / levels as real > 0.0
    ensures Scales(amax / levels as real, 1.0 / (amax / levels as real), levels, amax)
  {
    Quotient(amax, levels as real);
  }

  /** A block of zeros is stored as zeros. */
  lemma ZeroBlock(codes: seq<int>, src: seq<real>, lo: nat)
    requires lo + 32 <= |src| && |codes| == 32 && MaxAbs(src, lo, 32) == 0.0
    ensures Unclamped(codes, 0.0, src, lo) && Approximates(codes, 0.0, src, lo, 0.0)
  {
  }

  method QuantizeBlockQ8(src: seq<real>, lo: nat) returns (blk: BlockQ8)
    requires lo + 32 <= |src|
    ensures IsBlockQ8(blk) && blk.d == MaxAbs(src, lo, 32) / 127.0
    ensures Unclamped(blk.qs, blk.d, src, lo) && (blk.d == 0.0 ==> AllZero(blk.qs))
    ensures Approximates(blk.qs, blk.d, src, lo, MaxAbs(src, lo, 32) / 254.0)
  {
    var amax := AmaxOf(src, lo);
    var d := if amax == 0.0 then 0.0 else amax / 127.0;
    if d == 0.0 {
      ZeroBlock(seq(32, _ => 0), src, lo);
      return BlockQ8(d, seq(32, _ => 0));
    }
    ScaleOfBlock(amax, 127);
    var id := 1.0 / d;
    var qs: seq<int> := [];
    for i := 0 to 32
      invariant Coded(qs, d, id, src, lo, i)
      invariant forall j :: 0 <= j < i ==> -127 <= qs[j] <= 127
    {
      var q := RoundEven(Times(src[lo + i], id));
      CodeOne(qs, d, id, src, lo, 127);
      q := Clamp(q, -127, 127);
      qs := qs + [q];
    }
    CodedBlock(qs, d, id, src, lo, 127);
    blk := BlockQ8(d, qs);
  }

  method QuantizeQ8(src: seq<real>) returns (r: Result<seq<BlockQ8>>)
    ensures r.Ok? <==> |src| % 32 == 0
    ensures r.Ok? ==> |r.value| == |src| / 32 && forall b :: 0 <= b < |src| / 32 ==> EncodesQ8(r.value, src, b)
  {
    if |src| % 32 != 0 {
      return Err("q8_0 length must be multiple of 32");
    }
    var out: seq<BlockQ8> := [];
    for b := 0 to |src| / 32
      invariant |out| == b
      invariant forall c :: 0 <= c < b ==> EncodesQ8(out, src, c)
    {
      var blk := QuantizeBlockQ8(src, b * 32);
      ghost var before := out;
      out := out + [blk];
      assert forall c :: 0 <= c < b ==> EncodesQ8(before, src, c) ==> EncodesQ8(out, src, c);
    }
    r := Ok(out);
  }

  /** The bytes after the first n codes have been stored: pairs are complete, an odd tail has a clear high nibble. */
  ghost predicate PackedPrefix(qs: seq<int>, codes: seq<int>, n: nat)
    requires n <= 32 && |codes| >= n
  {
    && |qs| == 16
    && (forall j :: 0 <= j < 16 ==> 0 <= qs[j] < 256)
    && (forall j :: 0 <= j < n ==> Nibble(qs, j) == codes[j])
    && (forall j :: n <= j < 32 ==> (if j % 2 == 1 then qs[j / 2] / 16 == 0 else qs[j / 2] % 16 == 0))
  }

  /** Storing the i-th code: the even one starts the byte, the odd one completes it. */
  function PackAt(qs: seq<int>, i: nat, q: int): (r: seq<int>)
    requires i / 2 < |qs|
    ensures |r| == |qs|
  {
    qs[i / 2 := if i % 2 == 0 then q + 8 else qs[i / 2] + 16 * (q + 8)]
  }

  /** Packing is undone by the dot product's unpacking, one nibble at a time. */
  lemma PackOne(qs: seq<int>, codes: seq<int>, n: nat, q: int)
    requires n < 32 && |codes| == n && -8 <= q <= 7 && PackedPrefix(qs, codes, n)
    ensures PackedPrefix(PackAt(qs, n, q), codes + [q], n + 1)
  {
    if n % 2 == 0 {
      assert n + 1 < 32;
      assert qs[(n + 1) / 2] / 16 == 0;
    } else {
      assert n / 2 == (n - 1) / 2;
      assert qs[n / 2] / 16 == 0;
      assert 0 <= qs[n / 2] < 16;
    }
    var qs' := PackAt(qs, n, q);
    forall j | 0 <= j <= n
      ensures Nibble(qs', j) == (codes + [q])[j]
    {
      if j < n {
        assert Nibble(qs, j) == codes[j];
      }
    }
  }

  lemma PackedBlock(qs: seq<int>, codes: seq<int>, d: real)
    requires |codes| == 32 && PackedPrefix(qs, codes, 32)
    ensures IsBlockQ4(BlockQ4(d, qs)) && Codes4(BlockQ4(d, qs)) == codes
  {
  }

  method StoreNibble(qs: seq<int>, i: nat, q: int) returns (r: seq<int>)
    requires i / 2 < |qs|
    ensures r == PackAt(qs, i, q)
  {
    var nib := q + 8;
    if i % 2 == 0 {
      r := qs[i / 2 := nib];
    } else {
      r := qs[i / 2 := qs[i / 2] + 16 * nib];
    }
  }

  method QuantizeBlockQ4(src: seq<real>, lo: nat) returns (blk: BlockQ4)
    requires lo + 32 <= |src|
    ensures IsBlockQ4(blk) && blk.d == MaxAbs(src, lo, 32) / 7.0
    ensures Unclamped(Codes4(blk), blk.d, src, lo) && (blk.d == 0.0 ==> AllZero(blk.qs))
    ensures Approximates(Codes4(blk), blk.d, src, lo, MaxAbs(src, lo, 32) / 14.0)
  {
    var amax := AmaxOf(src, lo);
    var d := if amax == 0.0 then 0.0 else amax / 7.0;
    var qs := seq(16, _ => 0);
    if d == 0.0 {
      ZeroBlock(Codes4(BlockQ4(d, qs)), src, lo);
      return BlockQ4(d, qs);
    }
    ScaleOfBlock(amax, 7);
    var id := 1.0 / d;
    ghost var codes: seq<int> := [];
    for i := 0 to 32
      invariant Coded(codes, d, id, src, lo, i) && PackedPrefix(qs, codes, i)
    {
      var q := RoundEven(Times(src[lo + i], id));
      CodeOne(codes, d, id, src, lo, 7);
      q := Clamp(q, -8, 7);
      PackOne(qs, codes, i, q);
      qs := StoreNibble(qs, i, q);
      codes := codes + [q];
    }
    CodedBlock(codes, d, id, src, lo, 7);
    PackedBlock(qs, codes, d);
    blk := BlockQ4(d, qs);
  }

  method QuantizeQ4(src: seq<real>) returns (r: Result<seq<BlockQ4>>)
    ensures r.Ok? <==> |src| % 32 == 0
    ensures r.Ok? ==> |r.value| == |src| / 32 && forall b :: 0 <= b < |src| / 32 ==> EncodesQ4(r.value, src, b)
  {
    if |src| % 32 != 0 {
      return Err("q4_0 length must be multiple of 32");
    }
    var out: seq<BlockQ4> := [];
    for b := 0 to |src| / 32
      invariant |out| == b
      invariant forall c :: 0 <= c < b ==> EncodesQ4(out, src, c)
    {
      var blk := QuantizeBlockQ4(src, b * 32);
      ghost var before := out;
      out := out + [blk];
      assert forall c :: 0 <= c < b ==> EncodesQ4(before, src, c) ==> EncodesQ4(out, src, c);
    }
    r := Ok(out);
  }

  // ----- Dot products over quantized blocks

  /** Sum of the first n codes times the matching activations. */
  function CodeDot(codes: seq<int>, x: seq<real>, lo: nat, n: nat): real
    requires n <= |codes| && lo + n <= |x|
  {
    if n == 0 then 0.0 else CodeDot(codes, x, lo, n - 1) + Times(codes[n - 1] as real, x[lo + n - 1])
  }

  function CodeDotInt(a: seq<int>, b: seq<int>, n: nat): int
    requires n <= |a| && n <= |b|
  {
    if n == 0 then 0 else CodeDotInt(a, b, n - 1) + a[n - 1] * b[n - 1]
  }

  function BlockQ8Dot(a: BlockQ8, x: seq<real>, lo: nat): real
    requires |a.qs| == 32 && lo + 32 <= |x|
  {
    Times(CodeDot(a.qs, x, lo, 32), a.d)
  }

  function BlockQ4Dot(a: BlockQ4, x: seq<real>, lo: nat): real
    requires |a.qs| == 16 && lo + 32 <= |x|
  {
    Times(CodeDot(Codes4(a), x, lo, 32), a.d)
  }

  function BlockPairDot(a: BlockQ4, q: BlockQ8): real
    requires |a.qs| == 16 && |q.qs| == 32
  {
    Times(Times(CodeDotInt(Codes4(a), q.qs, 32) as real, a.d), q.d)
  }

  /** The per-block contributions of each kernel; the kernel returns their sum. */
  function TermsQ8(a: seq<BlockQ8>, x: seq<real>, nb: nat): seq<real>
    requires nb <= |a| && nb * 32 <= |x| && forall b :: 0 <= b < nb ==> |a[b].qs| == 32
  {
    seq(nb, b requires 0 <= b < nb => BlockQ8Dot(a[b], x, b * 32))
  }

  function TermsQ4(a: seq<BlockQ4>, x: seq<real>, nb: nat): seq<real>
    requires nb <= |a| && nb * 32 <= |x| && forall b :: 0 <= b < nb ==> |a[b].qs| == 16
  {
    seq(nb, b requires 0 <= b < nb => BlockQ4Dot(a[b], x, b * 32))
  }

  function TermsPair(a: seq<BlockQ4>, x: seq<BlockQ8>, nb: nat): seq<real>
    requires nb <= |a| && nb <= |x| && forall b :: 0 <= b < nb ==> |a[b].qs| == 16 && |x[b].qs| == 32
  {
    seq(nb, b requires 0 <= b < nb => BlockPairDot(a[b], x[b]))
  }

  method DotQ8(a: seq<BlockQ8>, x: seq<real>, n: nat) returns (sum: real)
    requires n / 32 <= |a| && n <= |x| && forall b :: 0 <= b < n / 32 ==> |a[b].qs| == 32
    ensures sum == SumTo(TermsQ8(a, x, n / 32), n / 32)
  {
    sum := 0.0;
    for b := 0 to n / 32
      invariant sum == SumTo(TermsQ8(a, x, n / 32), b)
    {
      var s := 0.0;
      for k := 0 to 32
        invariant s == CodeDot(a[b].qs, x, b * 32, k)
      {
        s := s + Times(a[b].qs[k] as real, x[b * 32 + k]);
      }
      sum := sum + Times(s, a[b].d);
    }
  }

  method DotQ4(a: seq<BlockQ4>, x: seq<real>, n: nat) returns (sum: real)
    requires n / 32 <= |a| && n <= |x| && forall b :: 0 <= b < n / 32 ==> |a[b].qs| == 16
    ensures sum == SumTo(TermsQ4(a, x, n / 32), n / 32)
  {
    sum := 0.0;
    for b := 0 to n / 32
      invariant sum == SumTo(TermsQ4(a, x, n / 32), b)
    {
      var s := 0.0;
      for k := 0 to 32
        invariant s == CodeDot(Codes4(a[b]), x, b * 32, k)
      {
        var packed := a[b].qs[k / 2];
        var q := (if k % 2 == 1 then packed / 16 else packed % 16) - 8;
        assert q == Codes4(a[b])[k];
        s := s + Times(q as real, x[b * 32 + k]);
      }
      sum := sum + Times(s, a[b].d);
    }
  }

  method DotQ4Q8(a: seq<BlockQ4>, x: seq<BlockQ8>, n: nat) returns (r: Result<real>)
    requires n / 32 <= |a| && n / 32 <= |x|
    requires forall b :: 0 <= b < n / 32 ==> |a[b].qs| == 16 && |x[b].qs| == 32
    ensures r.Ok? <==> n % 32 == 0
    ensures r.Ok? ==> r.value == SumTo(TermsPair(a, x, n / 32), n / 32)
  {
    if n % 32 != 0 {
      return Err("q4_q8 length must be multiple of 32");
    }
    var sum := 0.0;
    for b := 0 to n / 32
      invariant sum == SumTo(TermsPair(a, x, n / 32), b)
    {
      var isum := 0;
      for k := 0 to 32
        invariant isum == CodeDotInt(Codes4(a[b]), x[b].qs, k)
      {
        var packed := a[b].qs[k / 2];
        var q4 := (if k % 2 == 1 then packed / 16 else packed % 16) - 8;
        assert q4 == Codes4(a[b])[k];
        isum := isum + q4 * x[b].qs[k];
      }
      sum := sum + Times(Times(isum as real, a[b].d), x[b].d);
    }
    r := Ok(sum);
  }

  // ----- Scaling a sum of codes is the dot product of the decoded values

  lemma ScaleTerm(s: real, q: real, x: real, d: real)
    ensures Times(s + Times(q, x), d) == Times(s, d) + Times(Times(q, d), x)
  {
    Distribute(s, q * x, d);
    Reassociate(q, x, d);
  }

  lemma {:induction false} ScaledCodeDot(codes: seq<int>, d: real, x: seq<real>, lo: nat, n: nat)
    requires n <= |codes| && lo + n <= |x|
    ensures Times(CodeDot(codes, x, lo, n), d) == Dot(Decode(codes, d), 0, x, lo, n)
  {
    if n > 0 {
      ScaledCodeDot(codes, d, x, lo, n - 1);
      ScaleTerm(CodeDot(codes, x, lo, n - 1), codes[n - 1] as real, x[lo + n - 1], d);
    }
  }

  lemma ScalePair(s: int, p: int, q: int, d: real, e: real)
    ensures Times(Times((s + p * q) as real, d), e)
         == Times(Times(s as real, d), e) + Times(Times(p as real, d), Times(q as real, e))
  {
    var sr, pr, qr := s as real, p as real, q as real;
    assert (s + p * q) as real == sr + pr * qr;
    Distribute(sr, pr * qr, d);
    Distribute(sr * d, (pr * qr) * d, e);
    Reassociate(pr, qr, d);
    Reassociate(pr * d, qr, e);
  }

  lemma {:induction false} ScaledCodeDotInt(a: seq<int>, d: real, b: seq<int>, e: real, n: nat)
    requires n <= |a| && n <= |b|
    ensures Times(Times(CodeDotInt(a, b, n) as real, d), e) == Dot(Decode(a, d), 0, Decode(b, e), 0, n)
  {
    if n > 0 {
      ScaledCodeDotInt(a, d, b, e, n - 1);
      ScalePair(CodeDotInt(a, b, n - 1), a[n - 1], b[n - 1], d, e);
    }
  }

  // ----- Error bounds, for vectors of any block-aligned length

  /** The exact dot product, block by block. */
  function ExactTerms(w: seq<real>, x: seq<real>, nb: nat): seq<real>
    requires nb * 32 <= |w| && nb * 32 <= |x|
  {
    seq(nb, b requires 0 <= b < nb => Dot(w, b * 32, x, b * 32, 32))
  }

  lemma {:induction false} ExactSum(w: seq<real>, x: seq<real>, nb: nat, n: nat)
    requires n <= nb && nb * 32 <= |w| && nb * 32 <= |x|
    ensures SumTo(ExactTerms(w, x, nb), n) == Dot(w, 0, x, 0, n * 32)
  {
    if n > 0 {
      ExactSum(w, x, nb, n - 1);
      DotSplit(w, x, (n - 1) * 32, 32);
    }
  }

  /** One block's share of the bound: the largest code error against the activation magnitudes. */
  function BlockBound(src: seq<real>, x: seq<real>, lo: nat, err: real): real
    requires lo + 32 <= |src| && lo + 32 <= |x|
  {
    Times(err, AbsSum(x, lo, 32))
  }

  /** Both sides quantized: each error against the other side's magnitudes, plus the error product. */
  function PairBound(w: seq<real>, ew: real, x: seq<real>, ex: real, lo: nat): real
    requires lo + 32 <= |w| && lo + 32 <= |x|
  {
    Times(ew, AbsSum(x, lo, 32)) + Times(ex, AbsSum(w, lo, 32)) + Times(32.0, Times(ew, ex))
  }

  function PairBoundAt(w: seq<real>, x: seq<real>, b: nat): real
    requires b * 32 + 32 <= |w| && b * 32 + 32 <= |x|
  {
    PairBound(w, AmaxBlock(w, b) / 14.0, x, AmaxBlock(x, b) / 254.0, b * 32)
  }

  function BoundQ8At(src: seq<real>, x: seq<real>, b: nat): real
    requires b * 32 + 32 <= |src| && b * 32 + 32 <= |x|
  {
    BlockBound(src, x, b * 32, AmaxBlock(src, b) / 254.0)
  }

  function BoundsQ8(src: seq<real>, x: seq<real>, nb: nat): seq<real>
    requires nb * 32 <= |src| && nb * 32 <= |x|
  {
    seq(nb, b requires 0 <= b < nb => BoundQ8At(src, x, b))
  }

  function BoundQ4At(src: seq<real>, x: seq<real>, b: nat): real
    requires b * 32 + 32 <= |src| && b * 32 + 32 <= |x|
  {
    BlockBound(src, x, b * 32, AmaxBlock(src, b) / 14.0)
  }

  function BoundsQ4(src: seq<real>, x: seq<real>, nb: nat): seq<real>
    requires nb * 32 <= |src| && nb * 32 <= |x|
  {
    seq(nb, b requires 0 <= b < nb => BoundQ4At(src, x, b))
  }

  function BoundsPair(w: seq<real>, x: seq<real>, nb: nat): seq<real>
    requires nb * 32 <= |w| && nb * 32 <= |x|
  {
    seq(nb, b requires 0 <= b < nb => PairBoundAt(w, x, b))
  }

  lemma BlockError(codes: seq<int>, d: real, src: seq<real>, x: seq<real>, err: real, lo: nat)
    requires lo + 32 <= |src| && lo + 32 <= |x| && Approximates(codes, d, src, lo, err)
    ensures Abs(Times(CodeDot(codes, x, lo, 32), d) - Dot(src, lo, x, lo, 32)) <= BlockBound(src, x, lo, err)
  {
    ScaledCodeDot(codes, d, x, lo, 32);
    DotNear(Decode(codes, d), src, x, lo, 32, err, 32);
  }

  lemma BlockPairError(a: BlockQ4, w: seq<real>, ew: real, q: BlockQ8, x: seq<real>, ex: real, lo: nat)
    requires lo + 32 <= |w| && lo + 32 <= |x| && |a.qs| == 16 && |q.qs| == 32
    requires Approximates(Codes4(a), a.d, w, lo, ew) && Approximates(q.qs, q.d, x, lo, ex)
    ensures Abs(BlockPairDot(a, q) - Dot(w, lo, x, lo, 32)) <= PairBound(w, ew, x, ex, lo)
  {
    ScaledCodeDotInt(Codes4(a), a.d, q.qs, q.d, 32);
    DotNearBoth(Decode(Codes4(a), a.d), w, ew, Decode(q.qs, q.d), x, ex, lo, 32, 32);
  }

  lemma PairErrorAt(a: seq<BlockQ4>, w: seq<real>, q: seq<BlockQ8>, x: seq<real>, b: nat)
    requires b < |a| && b < |q| && b * 32 + 32 <= |w| && b * 32 + 32 <= |x|
    requires EncodesQ4(a, w, b) && EncodesQ8(q, x, b)
    ensures Abs(BlockPairDot(a[b], q[b]) - Dot(w, b * 32, x, b * 32, 32)) <= PairBoundAt(w, x, b)
  {
    BlockPairError(a[b], w, AmaxBlock(w, b) / 14.0, q[b], x, AmaxBlock(x, b) / 254.0, b * 32);
  }

  lemma ErrorQ8At(out: seq<BlockQ8>, src: seq<real>, x: seq<real>, b: nat)
    requires b < |out| && b * 32 + 32 <= |src| && b * 32 + 32 <= |x| && EncodesQ8(out, src, b)
    ensures Abs(BlockQ8Dot(out[b], x, b * 32) - Dot(src, b * 32, x, b * 32, 32)) <= BoundQ8At(src, x, b)
  {
    BlockError(out[b].qs, out[b].d, src, x, AmaxBlock(src, b) / 254.0, b * 32);
  }

  lemma ErrorQ4At(out: seq<BlockQ4>, src: seq<real>, x: seq<real>, b: nat)
    requires b < |out| && b * 32 + 32 <= |src| && b * 32 + 32 <= |x| && EncodesQ4(out, src, b)
    ensures Abs(BlockQ4Dot(out[b], x, b * 32) - Dot(src, b * 32, x, b * 32, 32)) <= BoundQ4At(src, x, b)
  {
    BlockError(Codes4(out[b]), out[b].d, src, x, AmaxBlock(src, b) / 14.0, b * 32);
  }

  lemma DotQ8ErrorsEach(out: seq<BlockQ8>, src: seq<real>, x: seq<real>, nb: nat)
    requires nb <= |out| && nb * 32 <= |src| && nb * 32 <= |x|
    requires forall b :: 0 <= b < nb ==> |out[b].qs| == 32 && EncodesQ8(out, src, b)
    ensures forall b :: 0 <= b < nb ==>
            Abs(TermsQ8(out, x, nb)[b] - ExactTerms(src, x, nb)[b]) <= BoundsQ8(src, x, nb)[b]
  {
    hide EncodesQ8, Dot, SumTo;
    forall b | 0 <= b < nb
      ensures Abs(TermsQ8(out, x, nb)[b] - ExactTerms(src, x, nb)[b]) <= BoundsQ8(src, x, nb)[b]
    {
      ErrorQ8At(out, src, x, b);
    }
  }

  /** Quantizing the weights to Q8_0 and taking the dot product stays within the bound of the exact dot. */
  lemma DotQ8Error(out: seq<BlockQ8>, src: seq<real>, x: seq<real>, nb: nat)
    requires nb <= |out| && nb * 32 <= |src| && nb * 32 <= |x|
    requires forall b :: 0 <= b < nb ==> |out[b].qs| == 32 && EncodesQ8(out, src, b)
    ensures Abs(SumTo(TermsQ8(out, x, nb), nb) - Dot(src, 0, x, 0, nb * 32)) <= SumTo(BoundsQ8(src, x, nb), nb)
  {
    hide EncodesQ8, Dot, SumTo;
    DotQ8ErrorsEach(out, src, x, nb);
    SumErrors(TermsQ8(out, x, nb), ExactTerms(src, x, nb), BoundsQ8(src, x, nb), nb);
    ExactSum(src, x, nb, nb);
  }

  lemma DotQ4ErrorsEach(out: seq<BlockQ4>, src: seq<real>, x: seq<real>, nb: nat)
    requires nb <= |out| && nb * 32 <= |src| && nb * 32 <= |x|
    requires forall b :: 0 <= b < nb ==> |out[b].qs| == 16 && EncodesQ4(out, src, b)
    ensures forall b :: 0 <= b < nb ==>
            Abs(TermsQ4(out, x, nb)[b] - ExactTerms(src, x, nb)[b]) <= BoundsQ4(src, x, nb)[b]
  {
    hide EncodesQ4, Dot, SumTo;
    forall b | 0 <= b < nb
      ensures Abs(TermsQ4(out, x, nb)[b] - ExactTerms(src, x, nb)[b]) <= BoundsQ4(src, x, nb)[b]
    {
      ErrorQ4At(out, src, x, b);
    }
  }

  lemma DotQ4Error(out: seq<BlockQ4>, src: seq<real>, x: seq<real>, nb: nat)
    requires nb <= |out| && nb * 32 <= |src| && nb * 32 <= |x|
    requires forall b :: 0 <= b < nb ==> |out[b].qs| == 16 && EncodesQ4(out, src, b)
    ensures Abs(SumTo(TermsQ4(out, x, nb), nb) - Dot(src, 0, x, 0, nb * 32)) <= SumTo(BoundsQ4(src, x, nb), nb)
  {
    hide EncodesQ4, Dot, SumTo;
    DotQ4ErrorsEach(out, src, x, nb);
    SumErrors(TermsQ4(out, x, nb), ExactTerms(src, x, nb), BoundsQ4(src, x, nb), nb);
    ExactSum(src, x, nb, nb);
  }

  lemma DotQ4Q8ErrorsEach(a: seq<BlockQ4>, w: seq<real>, q: seq<BlockQ8>, x: seq<real>, nb: nat)
    requires nb <= |a| && nb <= |q| && nb * 32 <= |w| && nb * 32 <= |x|
    requires forall b :: 0 <= b < nb ==> |a[b].qs| == 16 && |q[b].qs| == 32
    requires forall b :: 0 <= b < nb ==> EncodesQ4(a, w, b) && EncodesQ8(q, x, b)
    ensures forall b :: 0 <= b < nb ==> Abs(TermsPair(a, q, nb)[b] - ExactTerms(w, x, nb)[b]) <= BoundsPair(w, x, nb)[b]
  {
    hide EncodesQ4, EncodesQ8, Dot, SumTo;
    forall b | 0 <= b < nb
      ensures Abs(TermsPair(a, q, nb)[b] - ExactTerms(w, x, nb)[b]) <= BoundsPair(w, x, nb)[b]
    {
      PairErrorAt(a, w, q, x, b);
    }
  }

  /** Q4_0 weights against Q8_0 activations: the two-sided bound, for any number of blocks. */
  lemma DotQ4Q8Error(a: seq<BlockQ4>, w: seq<real>, q: seq<BlockQ8>, x: seq<real>, nb: nat)
    requires nb <= |a| && nb <= |q| && nb * 32 <= |w| && nb * 32 <= |x|
    requires forall b :: 0 <= b < nb ==> |a[b].qs| == 16 && |q[b].qs| == 32
    requires forall b :: 0 <= b < nb ==> EncodesQ4(a, w, b) && EncodesQ8(q, x, b)
    ensures Abs(SumTo(TermsPair(a, q, nb), nb) - Dot(w, 0, x, 0, nb * 32)) <= SumTo(BoundsPair(w, x, nb), nb)
  {
    hide EncodesQ4, EncodesQ8, Dot, SumTo;
    DotQ4Q8ErrorsEach(a, w, q, x, nb);
    SumErrors(TermsPair(a, q, nb), ExactTerms(w, x, nb), BoundsPair(w, x, nb), nb);
    ExactSum(w, x, nb, nb);
  }

  // ----- Quantize, then take the dot product

  /** Weights through Q8_0: the kernel's result against the exact dot product of the unquantized vectors. */
  method QuantizedDotQ8(w: seq<real>, x: seq<real>) returns (r: Result<real>)
    requires |w| == |x|
    ensures r.Ok? <==> |w| % 32 == 0
    ensures r.Ok? ==>
              Abs(r.value - Dot(w, 0, x, 0, |w|)) <= SumTo(BoundsQ8(w, x, |w| / 32), |w| / 32)
  {
    hide BoundsQ8, TermsQ8, Dot, SumTo;
    var blocks :- QuantizeQ8(w);
    assert forall b :: 0 <= b < |blocks| && EncodesQ8(blocks, w, b) ==> |blocks[b].qs| == 32;
    var sum := DotQ8(blocks, x, |w|);
    DotQ8Error(blocks, w, x, |w| / 32);
    return Ok(sum);
  }

  method QuantizedDotQ4(w: seq<real>, x: seq<real>) returns (r: Result<real>)
    requires |w| == |x|
    ensures r.Ok? <==> |w| % 32 == 0
    ensures r.Ok? ==>
              Abs(r.value - Dot(w, 0, x, 0, |w|)) <= SumTo(BoundsQ4(w, x, |w| / 32), |w| / 32)
  {
    hide BoundsQ4, TermsQ4, Dot, SumTo;
    var blocks :- QuantizeQ4(w);
    assert forall b :: 0 <= b < |blocks| && EncodesQ4(blocks, w, b) ==> |blocks[b].qs| == 16;
    var sum := DotQ4(blocks, x, |w|);
    DotQ4Error(blocks, w, x, |w| / 32);
    return Ok(sum);
  }

  /** Weights through Q4_0 and activations through Q8_0, as single-token inference does. */
  method QuantizedDotQ4Q8(w: seq<real>, x: seq<real>) returns (r: Result<real>)
    requires |w| == |x|
    ensures r.Ok? <==> |w| % 32 == 0
    ensures r.Ok? ==>
              Abs(r.value - Dot(w, 0, x, 0, |w|)) <= SumTo(BoundsPair(w, x, |w| / 32), |w| / 32)
  {
    hide BoundsPair, TermsPair, Dot, SumTo;
    var weights :- QuantizeQ4(w);
    var activations := QuantizeQ8(x);
    var q := activations.value;
    assert forall b :: 0 <= b < |weights| && EncodesQ4(weights, w, b) ==> |weights[b].qs| == 16;
    assert forall b :: 0 <= b < |q| && EncodesQ8(q, x, b) ==> |q[b].qs| == 32;
    r := DotQ4Q8(weights, q, |w|);
    DotQ4Q8Error(weights, w, q, x, |w| / 32);
  }
}
