/**
 Exact complex arithmetic: the values the floating-point `kiss_fft_cpx` pairs stand for.
 The ring laws are stated one by one, so that later proofs can hide the definition of `Mul`
 and work by rewriting alone.
 */
module Complex {

  datatype Cpx = Cpx(r: real, i: real)

  const ZERO := Cpx(0.0, 0.0)
  const ONE := Cpx(1.0, 0.0)

  function Add(a: Cpx, b: Cpx): Cpx { Cpx(a.r + b.r, a.i + b.i) }

  function Sub(a: Cpx, b: Cpx): Cpx { Cpx(a.r - b.r, a.i - b.i) }

  function Mul(a: Cpx, b: Cpx): Cpx { Cpx(a.r * b.r - a.i * b.i, a.r * b.i + a.i * b.r) }

  /** The scalar product macro S_MUL, and C_MULBYSCALAR built from it. */
  function SMul(x: real, y: real): real { x * y }

  function MulByScalar(a: Cpx, x: real): Cpx { Cpx(SMul(a.r, x), SMul(a.i, x)) }

  function Conj(a: Cpx): Cpx { Cpx(a.r, -a.i) }

  function Scale(n: nat, a: Cpx): Cpx { Cpx(n as real * a.r, n as real * a.i) }

  // ---------- Ring laws ----------

  lemma MulAssoc(a: Cpx, b: Cpx, c: Cpx)
    ensures Mul(Mul(a, b), c) == Mul(a, Mul(b, c))
  {}

  lemma MulComm(a: Cpx, b: Cpx)
    ensures Mul(a, b) == Mul(b, a)
  {}

  lemma MulOne(a: Cpx)
    ensures Mul(a, ONE) == a == Mul(ONE, a)
  {}

  lemma MulZero(a: Cpx)
    ensures Mul(a, ZERO) == ZERO == Mul(ZERO, a)
  {}

  lemma MulDistributes(a: Cpx, b: Cpx, c: Cpx)
    ensures Mul(Add(a, b), c) == Add(Mul(a, c), Mul(b, c))
  {}

  lemma QuarterTurns(a: Cpx)
    ensures Mul(a, Cpx(0.0, 1.0)) == Cpx(-a.i, a.r)
    ensures Mul(a, Cpx(0.0, -1.0)) == Cpx(a.i, -a.r)
    ensures Mul(a, Cpx(-1.0, 0.0)) == Cpx(-a.r, -a.i)
    ensures Mul(a, ONE) == a
  {}

  /** A product the solver does not rewrite: `x * x > 0` would be simplified away. */
  function Times(x: real, y: real): real { x * y }

  /** Squared modulus. */
  function Norm(a: Cpx): real { Times(a.r, a.r) + Times(a.i, a.i) }

  lemma NormMul(a: Cpx, b: Cpx)
    ensures Norm(Mul(a, b)) == Times(Norm(a), Norm(b))
  {}

  lemma SameSignProduct(x: real, y: real)
    requires (x > 0.0 && y > 0.0) || (x < 0.0 && y < 0.0)
    ensures Times(x, y) > 0.0
  {}

  lemma NormPositive(a: Cpx)
    requires a != ZERO
    ensures Norm(a) > 0.0
  {
    assert Times(0.0, 0.0) == 0.0;
    hide Times;
    if a.r != 0.0 {
      SameSignProduct(a.r, a.r);
    }
    if a.i != 0.0 {
      SameSignProduct(a.i, a.i);
    }
  }

  /** Complex numbers have no zero divisors; this is what turns "primitive" into "sums vanish". */
  lemma NoZeroDivisors(a: Cpx, b: Cpx)
    requires Mul(a, b) == ZERO
    ensures a == ZERO || b == ZERO
  {
    if a != ZERO && b != ZERO {
      NormMul(a, b);
      assert Norm(ZERO) == 0.0;
      hide Norm, Mul, Times;
      NormPositive(a);
      NormPositive(b);
      SameSignProduct(Norm(a), Norm(b));
      assert false;
    }
  }

  // ---------- Finite sums ----------

  /** g(0) + g(1) + ... + g(n-1), associated to the left as the C loops accumulate it. */
  ghost function Sum(n: nat, g: int -> Cpx): Cpx
  {
    if n == 0 then ZERO else Add(Sum(n - 1, g), g(n - 1))
  }

  lemma {:induction false} SumExt(n: nat, g: int -> Cpx, h: int -> Cpx)
    requires forall i :: 0 <= i < n ==> g(i) == h(i)
    ensures Sum(n, g) == Sum(n, h)
  {
    if n > 0 {
      SumExt(n - 1, g, h);
    }
  }

  lemma {:induction false} SumAdd(n: nat, g: int -> Cpx, h: int -> Cpx, s: int -> Cpx)
    requires forall i :: 0 <= i < n ==> s(i) == Add(g(i), h(i))
    ensures Sum(n, s) == Add(Sum(n, g), Sum(n, h))
  {
    if n > 0 {
      SumAdd(n - 1, g, h, s);
    }
  }

  lemma {:induction false} SumMul(n: nat, g: int -> Cpx, c: Cpx, s: int -> Cpx)
    requires forall i :: 0 <= i < n ==> s(i) == Mul(g(i), c)
    ensures Sum(n, s) == Mul(Sum(n, g), c)
  {
    if n == 0 {
      MulZero(c);
    } else {
      hide Mul;
      SumMul(n - 1, g, c, s);
      MulDistributes(Sum(n - 1, g), g(n - 1), c);
    }
  }

  lemma {:induction false} SumZero(n: nat, g: int -> Cpx)
    requires forall i :: 0 <= i < n ==> g(i) == ZERO
    ensures Sum(n, g) == ZERO
  {
    if n > 0 {
      SumZero(n - 1, g);
    }
  }

  /** A sum with a single nonzero term is that term. */
  lemma {:induction false} SumSingle(n: nat, g: int -> Cpx, j: nat)
    requires j < n
    requires forall i :: 0 <= i < n && i != j ==> g(i) == ZERO
    ensures Sum(n, g) == g(j)
  {
    if j == n - 1 {
      SumZero(n - 1, g);
    } else {
      SumSingle(n - 1, g, j);
    }
  }

  lemma {:induction false} SumConstant(n: nat, g: int -> Cpx, c: Cpx)
    requires forall i :: 0 <= i < n ==> g(i) == c
    ensures Sum(n, g) == Scale(n, c)
  {
    if n > 0 {
      SumConstant(n - 1, g, c);
      assert (n - 1) as real == n as real - 1.0;
    }
  }

  /** The first m + n terms are the first m followed by the next n. */
  lemma {:induction false} SumSplit(m: nat, n: nat, g: int -> Cpx, h: int -> Cpx)
    requires forall i :: 0 <= i < n ==> h(i) == g(m + i)
    ensures Sum(m + n, g) == Add(Sum(m, g), Sum(n, h))
  {
    if n > 0 {
      SumSplit(m, n - 1, g, h);
    }
  }

  /** Order of summation does not matter. */
  lemma {:induction false} SumSwap(m: nat, n: nat, g: (int, int) -> Cpx)
    ensures Sum(m, i => Sum(n, j => g(i, j))) == Sum(n, j => Sum(m, i => g(i, j)))
  {
    var rows: int -> Cpx := i => Sum(n, j => g(i, j));
    var cols: int -> Cpx := j => Sum(m, i => g(i, j));
    if m == 0 {
      SumZero(n, cols);
    } else {
      var cols': int -> Cpx := j => Sum(m - 1, i => g(i, j));
      var last: int -> Cpx := j => g(m - 1, j);
      SumSwap(m - 1, n, g);
      assert forall j :: cols(j) == Add(cols'(j), last(j)) by {
        forall j ensures cols(j) == Add(cols'(j), last(j)) {
          var col: int -> Cpx := i => g(i, j);
          assert Sum(m, col) == Add(Sum(m - 1, col), col(m - 1));
        }
      }
      SumAdd(n, cols', last, cols);
    }
  }

  /** The sum over every p-th term of g, m terms in all, starting at term q. */
  ghost function StridedSum(p: int, m: nat, g: int -> Cpx, q: int): Cpx
  {
    if m == 0 then ZERO else Add(StridedSum(p, m - 1, g, q), g(q + (m - 1) * p))
  }

  lemma {:induction false} StridedSumIsSum(p: int, m: nat, g: int -> Cpx, q: int, h: int -> Cpx)
    requires forall j :: 0 <= j < m ==> h(j) == g(q + j * p)
    ensures StridedSum(p, m, g, q) == Sum(m, h)
  {
    if m > 0 {
      hide Add;
      StridedSumIsSum(p, m - 1, g, q, h);
    }
  }

  /**
   Summing p*m terms at once, or as p strided sub-sums of m terms each: the decimation that
   the transform recurses on.
   */
  lemma {:induction false} SumDecimate(p: nat, m: nat, g: int -> Cpx)
    ensures Sum(p * m, g) == Sum(p, q => StridedSum(p, m, g, q))
  {
    hide Add;
    var whole: int -> Cpx := q => StridedSum(p, m, g, q);
    if m == 0 {
      SumZero(p, whole);
    } else {
      DecimateCount(p, m);
      var k := (m - 1) * p;
      var part: int -> Cpx := q => StridedSum(p, m - 1, g, q);
      var last: int -> Cpx := q => g(q + k);
      SumDecimate(p, m - 1, g);
      SumInterleave(p, k, g, whole, part, last);
    }
  }

  lemma DecimateCount(p: nat, m: nat)
    requires m > 0
    ensures 0 <= (m - 1) * p == p * (m - 1)
    ensures p * m == (m - 1) * p + p
  {}

  lemma SumInterleave(p: nat, k: nat, g: int -> Cpx, whole: int -> Cpx, part: int -> Cpx, last: int -> Cpx)
    requires forall q :: last(q) == g(q + k)
    requires forall q :: whole(q) == Add(part(q), last(q))
    requires Sum(k, g) == Sum(p, part)
    ensures Sum(k + p, g) == Sum(p, whole)
  {
    hide Add;
    SumAdd(p, part, last, whole);
    SumSplit(k, p, g, last);
  }
}
