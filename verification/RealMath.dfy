/** Exact real arithmetic: magnitudes, the two rounding modes the C++ code calls, and sums of products. */
module RealMath {
  function Abs(x: real): (r: real)
    ensures r >= 0.0
  {
    if x < 0.0 then -x else x
  }

  function MaxReal(a: real, b: real): real {
    if a < b then b else a
  }

  /** The running maximum of |s[lo..lo+n]|, started at zero. */
  function MaxAbs(s: seq<real>, lo: nat, n: nat): (r: real)
    requires lo + n <= |s|
    ensures r >= 0.0
    ensures forall i :: lo <= i < lo + n ==> Abs(s[i]) <= r
  {
    if n == 0 then 0.0 else MaxReal(MaxAbs(s, lo, n - 1), Abs(s[lo + n - 1]))
  }

  /** std::lround: halves round away from zero. */
  function RoundAway(x: real): (r: int)
    ensures Abs(r as real - x) <= 0.5
  {
    if x >= 0.0 then (x + 0.5).Floor else -((-x + 0.5).Floor)
  }

  /** std::nearbyint in the default mode: halves round to the even neighbour. */
  function RoundEven(x: real): (r: int)
    ensures Abs(r as real - x) <= 0.5
  {
    var f := x.Floor;
    var rest := x - f as real;
    if rest < 0.5 || (rest == 0.5 && f % 2 == 0) then f else f + 1
  }

  /** The nearest integer; of two that are equally near, the one farther from zero. */
  lemma RoundAwayIs(x: real, n: int)
    ensures RoundAway(x) == n <==>
            Abs(n as real - x) <= 0.5 && (Abs(n as real - x) == 0.5 ==> Abs(n as real) > Abs(x))
  {
  }

  /** The nearest integer; of two that are equally near, the even one. */
  lemma RoundEvenIs(x: real, n: int)
    ensures RoundEven(x) == n <==> Abs(n as real - x) <= 0.5 && (Abs(n as real - x) == 0.5 ==> n % 2 == 0)
  {
  }

  function Clamp(q: int, lo: int, hi: int): int
    requires lo <= hi
  {
    if q < lo then lo else if q > hi then hi else q
  }

  function Times(a: real, b: real): real {
    a * b
  }

  /** Sum of a[la+i] * b[lb+i] over the first n indices. */
  function Dot(a: seq<real>, la: nat, b: seq<real>, lb: nat, n: nat): real
    requires la + n <= |a| && lb + n <= |b|
  {
    if n == 0 then 0.0 else Dot(a, la, b, lb, n - 1) + Times(a[la + n - 1], b[lb + n - 1])
  }

  function AbsSum(x: seq<real>, lo: nat, n: nat): (r: real)
    requires lo + n <= |x|
    ensures r >= 0.0
  {
    if n == 0 then 0.0 else AbsSum(x, lo, n - 1) + Abs(x[lo + n - 1])
  }

  lemma AbsProduct(a: real, b: real)
    ensures Abs(a * b) == Abs(a) * Abs(b)
  {
  }

  lemma ProductMonotone(a: real, b: real, c: real)
    requires a <= b && c >= 0.0
    ensures a * c <= b * c
  {
  }

  lemma ProductBound(a: real, ea: real, b: real)
    requires Abs(a) <= ea
    ensures Abs(a * b) <= ea * Abs(b)
  {
    AbsProduct(a, b);
    ProductMonotone(Abs(a), ea, Abs(b));
  }

  lemma Distribute(a: real, b: real, c: real)
    ensures (a + b) * c == a * c + b * c
    ensures c * (a + b) == c * a + c * b
    ensures (a - b) * c == a * c - b * c
  {
  }

  lemma Reassociate(a: real, b: real, c: real)
    ensures (a * b) * c == a * (b * c)
    ensures (a * b) * c == (a * c) * b
  {
  }

  lemma Negate(a: real, c: real)
    ensures (-a) * c == -(a * c)
  {
  }

  lemma Quotient(a: real, b: real)
    requires b != 0.0
    ensures (a / b) * b == a
  {
  }

  lemma QuotientRange(x: real, d: real, l: real, y: real)
    requires d > 0.0 && y * d == x
    requires x <= l * d
    ensures y <= l
  {
  }

  /** Rounding y = x/d to r and scaling back misses x by at most half a step. */
  lemma RoundedError(x: real, d: real, y: real, r: real)
    requires d > 0.0 && y * d == x && Abs(r - y) <= 0.5
    ensures Abs(r * d - x) <= 0.5 * d
  {
    Distribute(r, y, d);
    ProductBound(r - y, 0.5, d);
  }

  lemma ExpandProduct(a: real, da: real, b: real, db: real, a': real, b': real)
    requires a' == a + da && b' == b + db
    ensures a' * b' == a * b + da * b + db * a + da * db
  {
    assert a' * b' == a * b' + da * b';
    assert a * b' == a * b + db * a;
    assert da * b' == da * b + da * db;
  }

  lemma SumOfThree(p1: real, p2: real, p3: real, b1: real, b2: real, b3: real)
    requires Abs(p1) <= b1 && Abs(p2) <= b2 && Abs(p3) <= b3
    ensures Abs(p1 + p2 + p3) <= b1 + b2 + b3
  {
  }

  /** One product of two approximations. */
  lemma ProductError(a: real, b: real, da: real, db: real, a': real, b': real, ea: real, eb: real)
    requires a' == a + da && b' == b + db && Abs(da) <= ea && Abs(db) <= eb
    ensures Abs(a' * b' - a * b) <= ea * Abs(b) + eb * Abs(a) + ea * eb
  {
    ExpandProduct(a, da, b, db, a', b');
    ProductBound(da, ea, b);
    ProductBound(db, eb, a);
    ProductBound(da, ea, db);
    ProductMonotone(Abs(db), eb, ea);
    SumOfThree(da * b, db * a, da * db, ea * Abs(b), eb * Abs(a), ea * eb);
  }

  lemma OneSidedError(a: real, a': real, x: real, ea: real)
    requires Abs(a' - a) <= ea
    ensures Abs(Times(a', x) - Times(a, x)) <= Times(ea, Abs(x))
  {
    Distribute(a', a, x);
    ProductBound(a' - a, ea, x);
  }

  lemma TwoSidedError(a: real, b: real, a': real, b': real, ea: real, eb: real)
    requires Abs(a' - a) <= ea && Abs(b' - b) <= eb
    ensures Abs(Times(a', b') - Times(a, b)) <= Times(ea, Abs(b)) + Times(eb, Abs(a)) + Times(ea, eb)
  {
    ProductError(a, b, a' - a, b' - b, a', b', ea, eb);
  }

  lemma TimesSum(c: real, a: real, b: real)
    ensures Times(c, a + b) == Times(c, a) + Times(c, b)
    ensures Times(a + b, c) == Times(a, c) + Times(b, c)
  {
  }

  lemma OneMore(n: nat, c: real)
    requires n > 0
    ensures Times(n as real, c) == Times((n - 1) as real, c) + c
  {
  }

  /** v holds approximations of w[lo..lo+n], each off by at most err. */
  ghost predicate Near(v: seq<real>, w: seq<real>, lo: nat, n: nat, err: real)
    requires lo + n <= |w|
  {
    |v| == n && forall k :: 0 <= k < n ==> Abs(v[k] - w[lo + k]) <= err
  }

  /** A dot product with one approximate side. */
  lemma {:induction false} DotNear(v: seq<real>, w: seq<real>, x: seq<real>, lo: nat, m: nat, err: real, n: nat)
    requires n <= m && lo + m <= |w| && lo + m <= |x| && Near(v, w, lo, m, err)
    ensures Abs(Dot(v, 0, x, lo, n) - Dot(w, lo, x, lo, n)) <= Times(err, AbsSum(x, lo, n))
  {
    if n > 0 {
      DotNear(v, w, x, lo, m, err, n - 1);
      OneSidedError(w[lo + n - 1], v[n - 1], x[lo + n - 1], err);
      TimesSum(err, AbsSum(x, lo, n - 1), Abs(x[lo + n - 1]));
    }
  }

  /** A dot product with both sides approximate. */
  lemma {:induction false} DotNearBoth(v: seq<real>, w: seq<real>, ew: real, u: seq<real>, x: seq<real>, ex: real,
                                       lo: nat, m: nat, n: nat)
    requires n <= m && lo + m <= |w| && lo + m <= |x| && Near(v, w, lo, m, ew) && Near(u, x, lo, m, ex)
    ensures Abs(Dot(v, 0, u, 0, n) - Dot(w, lo, x, lo, n))
         <= Times(ew, AbsSum(x, lo, n)) + Times(ex, AbsSum(w, lo, n)) + Times(n as real, Times(ew, ex))
  {
    if n > 0 {
      DotNearBoth(v, w, ew, u, x, ex, lo, m, n - 1);
      TwoSidedError(w[lo + n - 1], x[lo + n - 1], v[n - 1], u[n - 1], ew, ex);
      TimesSum(ew, AbsSum(x, lo, n - 1), Abs(x[lo + n - 1]));
      TimesSum(ex, AbsSum(w, lo, n - 1), Abs(w[lo + n - 1]));
      OneMore(n, Times(ew, ex));
    }
  }

  function SumTo(s: seq<real>, n: nat): real
    requires n <= |s|
  {
    if n == 0 then 0.0 else SumTo(s, n - 1) + s[n - 1]
  }

  /** Errors add up term by term. */
  lemma {:induction false} SumErrors(p: seq<real>, e: seq<real>, bounds: seq<real>, n: nat)
    requires n <= |p| && n <= |e| && n <= |bounds|
    requires forall i :: 0 <= i < n ==> Abs(p[i] - e[i]) <= bounds[i]
    ensures Abs(SumTo(p, n) - SumTo(e, n)) <= SumTo(bounds, n)
  {
    if n > 0 {
      SumErrors(p, e, bounds, n - 1);
    }
  }

  /** A dot product is the sum of its pieces. */
  lemma {:induction false} DotSplit(a: seq<real>, b: seq<real>, m: nat, n: nat)
    requires m + n <= |a| && m + n <= |b|
    ensures Dot(a, 0, b, 0, m + n) == Dot(a, 0, b, 0, m) + Dot(a, m, b, m, n)
  {
    if n > 0 {
      DotSplit(a, b, m, n - 1);
    }
  }
}
