/**
 The twiddle table of a `kiss_fft_state` and the laws of the roots of unity it holds.
 */
module Twiddles {
  import opened Arithmetic
  import opened Complex

  /** What the exact table satisfies; `Alloc` establishes it from the laws of the exponential. */
  ghost predicate TwiddleLaws(tw: seq<Cpx>, inverse: bool)
  {
    var n := |tw|;
    && n > 0
    && tw[0] == ONE
    && (forall a, b :: 0 <= a < n && 0 <= b < n ==> Mul(tw[a], tw[b]) == tw[(a + b) % n])
    && (forall a :: 0 < a < n ==> tw[a] != ONE)
    && (forall a :: 0 <= a < n ==> Conj(tw[a]) == tw[(n - a) % n])
    && (n % 4 == 0 ==> tw[n / 4] == if inverse then Cpx(0.0, 1.0) else Cpx(0.0, -1.0))
  }

  /** The table read at any integer exponent: the exponent counts modulo its length. */
  ghost function W(tw: seq<Cpx>, e: int): Cpx
    requires |tw| > 0
  {
    tw[e % |tw|]
  }

  // ---------- Exponent arithmetic ----------

  lemma Nonempty(tw: seq<Cpx>, inverse: bool)
    requires TwiddleLaws(tw, inverse)
    ensures |tw| > 0
  {}

  lemma WPrimitive(tw: seq<Cpx>, inverse: bool, e: int)
    requires TwiddleLaws(tw, inverse) && e % |tw| != 0
    ensures W(tw, e) != ONE
  {}

  lemma WQuarter(tw: seq<Cpx>, inverse: bool, z: int)
    requires TwiddleLaws(tw, inverse) && 4 * z == |tw|
    ensures W(tw, z) == if inverse then Cpx(0.0, 1.0) else Cpx(0.0, -1.0)
  {
    WDirect(tw, z);
  }

  lemma WShift(tw: seq<Cpx>, e: int, k: int)
    requires |tw| > 0
    ensures W(tw, e + k * |tw|) == W(tw, e)
  {
    ModShift(e, k, |tw|);
  }

  lemma WAdd(tw: seq<Cpx>, inverse: bool, a: int, b: int)
    requires TwiddleLaws(tw, inverse)
    ensures W(tw, a + b) == Mul(W(tw, a), W(tw, b))
  {
    hide Mul;
    ModAdd(a, b, |tw|);
  }

  lemma WConj(tw: seq<Cpx>, inverse: bool, e: int)
    requires TwiddleLaws(tw, inverse)
    ensures Conj(W(tw, e)) == W(tw, -e)
  {
    var n := |tw|;
    var a := e % n;
    assert (n - a) % n == (-e) % n by {
      assert -e == n - a + (-1 - e / n) * n;
      ModShift(n - a, -1 - e / n, n);
    }
  }

  lemma WZero(tw: seq<Cpx>, inverse: bool)
    requires TwiddleLaws(tw, inverse)
    ensures W(tw, 0) == ONE
  {
    ModUnique(0, 0, 0, |tw|);
  }

  lemma WDirect(tw: seq<Cpx>, e: int)
    requires 0 <= e < |tw|
    ensures W(tw, e) == tw[e]
  {
    ModUnique(e, 0, e, |tw|);
  }

  // ---------- Vanishing sums ----------

  /** z^0 + ... + z^(n-1) vanishes for an n-th root of unity z = W(d) other than 1. */
  lemma GeometricVanishes(tw: seq<Cpx>, inverse: bool, d: int, g: int -> Cpx)
    requires TwiddleLaws(tw, inverse)
    requires d % |tw| != 0
    requires forall k :: g(k) == W(tw, k * d)
    ensures Sum(|tw|, g) == ZERO
  {
    hide Mul, W, TwiddleLaws;
    Nonempty(tw, inverse);
    var n := |tw|;
    assert n * d == 0 + d * n && 0 * d == 0;
    WShift(tw, 0, d);
    GeometricShift(tw, inverse, d, g, n);
    WPrimitive(tw, inverse, d);
    FixedPointVanishes(Sum(n, g), W(tw, d));
  }

  lemma FixedPointVanishes(s: Cpx, z: Cpx)
    requires Mul(s, z) == s && z != ONE
    ensures s == ZERO
  {
    assert Mul(s, Sub(z, ONE)) == ZERO;
    assert Sub(z, ONE) != ZERO;
    NoZeroDivisors(s, Sub(z, ONE));
  }

  /** Multiplying a geometric sum by its ratio drops the first term and adds the next one. */
  lemma {:induction false} GeometricShift(tw: seq<Cpx>, inverse: bool, d: int, g: int -> Cpx, n: nat)
    requires TwiddleLaws(tw, inverse)
    requires forall k :: g(k) == W(tw, k * d)
    ensures Mul(Sum(n, g), W(tw, d)) == Sub(Add(Sum(n, g), g(n)), g(0))
    decreases n
  {
    hide Mul, W, TwiddleLaws;
    Nonempty(tw, inverse);
    var z := W(tw, d);
    if n == 0 {
      MulZero(z);
    } else {
      GeometricShift(tw, inverse, d, g, n - 1);
      assert n * d == (n - 1) * d + d;
      WAdd(tw, inverse, (n - 1) * d, d);
      MulDistributes(Sum(n - 1, g), g(n - 1), z);
    }
  }
}
