/**
 * Products, quotients and remainders as the proofs use them: an offset into rows of equal width, and the page and row
 * of a position.
 */
module Arithmetic {
  /** Where row i of a row-major table of width dim starts: i * dim. */
  function SlotOff(i: nat, dim: nat): nat {
    if i == 0 then 0 else SlotOff(i - 1, dim) + dim
  }

  lemma {:induction false} SlotOffIsProduct(i: nat, dim: nat)
    ensures SlotOff(i, dim) == i * dim
  {
    if i > 0 {
      SlotOffIsProduct(i - 1, dim);
      assert i * dim == (i - 1) * dim + dim;
    }
  }

  lemma {:induction false} SlotInPage(i: nat, tokens: nat, dim: nat)
    requires i < tokens
    ensures SlotOff(i, dim) + dim <= SlotOff(tokens, dim)
  {
    if i + 1 < tokens {
      SlotInPage(i, tokens - 1, dim);
    }
  }

  lemma DivModIdentity(a: nat, n: nat)
    requires n > 0
    ensures a == a / n * n + a % n && 0 <= a % n < n && a / n >= 0
  {
  }

  lemma AtLeastOne(k: nat, n: nat)
    requires k >= 1
    ensures k * n >= n
  {
    assert k * n == (k - 1) * n + n;
  }

  lemma ProductGap(a: nat, b: nat, n: nat)
    requires b < a
    ensures a * n >= b * n + n
  {
    AtLeastOne(a - b, n);
    assert (a - b) * n == a * n - b * n;
  }

  lemma ProductOrder(a: nat, b: nat, g: nat)
    requires a <= b
    ensures a * g <= b * g && g * a == a * g
  {
  }

  lemma QuotientOrder(n: nat, q: nat, r: nat, q': nat, r': nat)
    requires n > 0 && q * n + r == q' * n + r' && r' < n
    ensures q <= q'
  {
    if q' < q {
      ProductGap(q, q', n);
    }
  }

  lemma QuotientUnique(a: nat, n: nat, q: nat, r: nat)
    requires n > 0 && a == q * n + r && r < n
    ensures a / n == q && a % n == r
  {
    DivModIdentity(a, n);
    QuotientOrder(n, q, r, a / n, a % n);
    QuotientOrder(n, a / n, a % n, q, r);
  }

  lemma QuotientStep(pos: nat, n: nat)
    requires 0 < n <= pos
    ensures pos / n == 1 + (pos - n) / n && pos % n == (pos - n) % n
  {
    DivModIdentity(pos - n, n);
    assert ((pos - n) / n + 1) * n == (pos - n) / n * n + n;
    QuotientUnique(pos, n, (pos - n) / n + 1, (pos - n) % n);
  }

  /** Which page holds a position (pos / n), and which row of it (pos % n). */
  function PageOf(pos: nat, n: nat): (p: nat)
    requires n > 0
    ensures p <= pos
  {
    if pos < n then 0 else 1 + PageOf(pos - n, n)
  }

  function RowOf(pos: nat, n: nat): (i: nat)
    requires n > 0
    ensures i < n
  {
    if pos < n then pos else RowOf(pos - n, n)
  }

  lemma {:induction false} PageRowAreDivMod(pos: nat, n: nat)
    requires n > 0
    ensures PageOf(pos, n) == pos / n && RowOf(pos, n) == pos % n
  {
    if pos >= n {
      PageRowAreDivMod(pos - n, n);
      QuotientStep(pos, n);
    }
  }

  /** Page and row together name the position. */
  lemma {:induction false} SamePlace(a: nat, b: nat, n: nat)
    requires n > 0 && PageOf(a, n) == PageOf(b, n) && RowOf(a, n) == RowOf(b, n)
    ensures a == b
  {
    if a >= n && b >= n {
      SamePlace(a - n, b - n, n);
    }
  }
}
