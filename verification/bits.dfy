/** Powers of two and the bits of a row or column index, for the 2^n × 2^n
    matrices of n-qubit operators. Qubit q of a basis index x is bit q of x,
    that is (x / 2^q) % 2. */
module Bits {
  import opened Wrappers

  function Pow2(n: nat): (r: nat)
    ensures r >= 1
  {
    if n == 0 then 1 else 2 * Pow2(n - 1)
  }

  /** Bit q of x, peeled off one halving at a time. */
  function Bit(x: nat, q: nat): (b: nat)
    ensures b < 2
  {
    if q == 0 then x % 2 else Bit(x / 2, q - 1)
  }

  /** Division with remainder has one answer. */
  lemma DivModUnique(x: nat, d: nat, q: nat, r: nat)
    requires d > 0 && r < d && x == d * q + r
    ensures x / d == q && x % d == r
  {
    var q', r' := x / d, x % d;
    assert x == d * q' + r';
    if q' < q {
      MulStep(d, q', q - q');
    } else if q' > q {
      MulStep(d, q, q' - q);
    }
  }

  /** Adding k ≥ 1 to a factor adds at least the other factor. */
  lemma MulStep(d: nat, a: nat, k: nat)
    requires k >= 1
    ensures d * (a + k) >= d * a + d
  {
    assert d * (a + k) == d * a + d * k;
    assert d * k == d * (k - 1) + d;
  }

  /** The m lowest bits of x, that is x % 2^m, one bit at a time. */
  function Low(x: nat, m: nat): (l: nat)
    ensures l < Pow2(m)
  {
    if m == 0 then 0 else 2 * Low(x / 2, m - 1) + x % 2
  }

  /** Below 2^(m+1), an index is bit m times 2^m plus its m low bits. */
  lemma {:induction false} SplitTopBit(x: nat, m: nat)
    requires x < Pow2(m + 1)
    ensures x == Pow2(m) * Bit(x, m) + Low(x, m)
  {
    if m > 0 {
      SplitTopBit(x / 2, m - 1);
      var p, b := Pow2(m - 1), Bit(x / 2, m - 1);
      assert 2 * (p * b) == (2 * p) * b;
    }
  }

  /** Taking the m low bits keeps every bit below m. */
  lemma {:induction false} BitOfLow(x: nat, m: nat, q: nat)
    requires q < m
    ensures Bit(Low(x, m), q) == Bit(x, q)
  {
    if q > 0 {
      BitOfLow(x / 2, m - 1, q - 1);
    }
  }

  /** The exponent k with d == 2^k, when there is one. */
  function Log2(d: nat): (r: Option<nat>)
    ensures r.Some? ==> Pow2(r.value) == d
    decreases d
  {
    if d == 0 then None
    else if d == 1 then Some(0)
    else if d % 2 == 1 then None
    else match Log2(d / 2)
      case None => None
      case Some(k) => Some(k + 1)
  }

  /** Every power of two is recognised, with its exponent. */
  lemma {:induction false} Log2Complete(d: nat, k: nat)
    requires Pow2(k) == d
    ensures Log2(d) == Some(k)
  {
    if k > 0 {
      assert d == 2 * Pow2(k - 1);
      assert d / 2 == Pow2(k - 1);
      Log2Complete(d / 2, k - 1);
    }
  }

  /** 2^j is more than j. */
  lemma {:induction false} PowerBelow(j: nat)
    ensures j < Pow2(j)
  {
    if j > 0 {
      PowerBelow(j - 1);
    }
  }
}
