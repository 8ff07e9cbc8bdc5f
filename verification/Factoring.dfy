/**
 `kf_factor`: how a transform length is split into radices, and `kiss_fft_next_fast_size`.
 */
module Factoring {
  import opened Arithmetic

  const MAXFACTORS := 32

  predicate Divides(d: int, n: int)
    requires d != 0
  {
    n % d == 0
  }

  ghost predicate Prime(p: int)
  {
    p >= 2 && forall d :: 2 <= d < p ==> !Divides(d, p)
  }

  /** floor(sqrt(n)), which the C code takes from the math library. */
  function FloorSqrt(n: nat): (r: nat)
    ensures r * r <= n < (r + 1) * (r + 1)
  {
    if n == 0 then 0
    else
      var r := FloorSqrt(n - 1);
      if (r + 1) * (r + 1) <= n then r + 1 else r
  }

  /** The pairs p1,m1,p2,m2,... at the start of f split n down to 1: p[i] * m[i] == m[i-1], m0 == n. */
  ghost predicate Splits(f: seq<int>, n: int)
  {
    && |f| >= 2 && f[0] >= 1 && f[1] >= 1 && f[0] * f[1] == n
    && (f[1] != 1 ==> Splits(f[2..], f[1]))
  }

  /** Number of pairs before the one whose m is 1, that one included. */
  ghost function Pairs(f: seq<int>, n: int): nat
    requires Splits(f, n)
    decreases |f|
  {
    if f[1] == 1 then 1 else 1 + Pairs(f[2..], f[1])
  }

  /** Every radix is 4 or prime. */
  ghost predicate PrimeRadices(f: seq<int>, n: int)
    requires Splits(f, n)
    decreases |f|
  {
    && (f[0] == 4 || Prime(f[0]))
    && (f[1] != 1 ==> PrimeRadices(f[2..], f[1]))
  }

  // ---------- Divisibility ----------

  lemma DividesMul(d: int, k: int)
    requires d > 0
    ensures Divides(d, k * d)
  {
    ModUnique(k * d, k, 0, d);
  }

  lemma DividesTrans(a: int, b: int, c: int)
    requires a > 0 && b > 0 && Divides(a, b) && Divides(b, c)
    ensures Divides(a, c)
  {
    var x, y := b / a, c / b;
    assert b == x * a && c == y * b;
    assert c == (y * x) * a;
    DividesMul(a, y * x);
  }

  lemma QuotientDivides(n: int, p: int)
    requires n >= 1 && p >= 1 && Divides(p, n)
    ensures n / p >= 1 && p * (n / p) == n && Divides(n / p, n)
    ensures p > 1 ==> n / p < n
  {
    var m := n / p;
    assert n == m * p;
    assert m >= 1 by {
      if m <= 0 {
        MulMonotone(m, 0, p);
      }
    }
    DividesMul(m, p);
    if p > 1 && m >= n {
      MulMonotone(2, p, m);
    }
  }

  /** No divisor between 2 and p - 1. */
  ghost predicate NoneBelow(n: int, p: int)
  {
    forall d :: 2 <= d < p ==> !Divides(d, n)
  }

  /** Of a divisor and its cofactor, one does not exceed the square root. */
  lemma SmallDivisor(n: int, d: int, root: nat)
    requires 2 <= d < n && n < (root + 1) * (root + 1) && Divides(d, n)
    ensures 2 <= n / d && Divides(n / d, n)
    ensures d <= root || n / d <= root
  {
    QuotientDivides(n, d);
    var e := n / d;
    if d > root && e > root {
      MulMonotone(root + 1, e, root + 1);
      MulMonotone(root + 1, d, e);
    }
  }

  /** Trial division up to the square root of a number at least n leaves only primes. */
  lemma NoneBelowRootIsPrime(n: int, p: int, root: nat)
    requires n >= 2 && n < (root + 1) * (root + 1) && p > root && NoneBelow(n, p)
    ensures Prime(n)
  {
    forall d | 2 <= d < n
      ensures !Divides(d, n)
    {
      if Divides(d, n) {
        SmallDivisor(n, d, root);
      }
    }
  }

  /** The first p reached by trial division that divides n is prime. */
  lemma FirstDivisorIsPrime(n: int, p: int)
    requires p >= 2 && Divides(p, n) && NoneBelow(n, p)
    ensures Prime(p)
  {
    forall d | 2 <= d < p
      ensures !Divides(d, p)
    {
      if Divides(d, p) {
        DividesTrans(d, p, n);
      }
    }
  }

  lemma NoneBelowQuotient(n: int, p: int)
    requires n >= 1 && p >= 1 && Divides(p, n) && NoneBelow(n, p)
    ensures NoneBelow(n / p, p)
  {
    QuotientDivides(n, p);
    forall d | 2 <= d < p
      ensures !Divides(d, n / p)
    {
      if Divides(d, n / p) {
        DividesTrans(d, n / p, n);
      }
    }
  }

  /** After an odd p the next candidate is p + 2: the even number between them needs no trial. */
  lemma NoneBelowOdd(n: int, p: int)
    requires p >= 3 && p % 2 == 1 && NoneBelow(n, p) && !Divides(p, n)
    ensures NoneBelow(n, p + 2)
  {
    forall d | 2 <= d < p + 2
      ensures !Divides(d, n)
    {
      assert !Divides(2, n);
      if d == p + 1 && Divides(d, n) {
        DividesTrans(2, d, n);
      }
    }
  }

  // ---------- The factor buffer while it is being filled ----------

  /** The pairs f, all of them, split n down to m; only the last may reach 1. */
  ghost predicate SplitsTo(f: seq<int>, n: int, m: int)
  {
    if f == [] then n == m
    else
      && |f| >= 2 && f[0] >= 1 && f[1] >= 1 && f[0] * f[1] == n
      && (|f| > 2 ==> f[1] > 1)
      && SplitsTo(f[2..], f[1], m)
  }

  ghost predicate AllPrime(f: seq<int>)
  {
    forall i :: 0 <= i < |f| && i % 2 == 0 ==> f[i] == 4 || Prime(f[i])
  }

  lemma {:induction false} SplitsAppend(f: seq<int>, n: int, m: int, p: int, m': int)
    requires SplitsTo(f, n, m) && (f != [] ==> m > 1)
    requires p >= 1 && m' >= 1 && p * m' == m
    ensures SplitsTo(f + [p, m'], n, m')
  {
    if f == [] {
      assert f + [p, m'] == [p, m'];
      assert [p, m'][2..] == [];
    } else {
      SplitsAppend(f[2..], f[1], m, p, m');
      assert (f + [p, m'])[2..] == f[2..] + [p, m'];
      assert |f| == 2 ==> f[2..] == [];
    }
  }

  lemma {:induction false} SplitsComplete(f: seq<int>, rest: seq<int>, n: int)
    requires SplitsTo(f, n, 1) && f != []
    ensures Splits(f + rest, n) && Pairs(f + rest, n) == |f| / 2
    ensures AllPrime(f) ==> PrimeRadices(f + rest, n)
  {
    var g := f + rest;
    if |f| == 2 {
      assert f[2..] == [];
    } else {
      SplitsComplete(f[2..], rest, f[1]);
      assert g[2..] == f[2..] + rest;
      if AllPrime(f) {
        forall i | 0 <= i < |f[2..]| && i % 2 == 0
          ensures f[2..][i] == 4 || Prime(f[2..][i])
        {
          assert f[2..][i] == f[i + 2] && (i + 2) % 2 == 0;
        }
        assert f[0] == 4 || Prime(f[0]);
      }
    }
  }

  lemma Pow2Bound(k: nat)
    requires Pow2(k) < 0x8000_0000
    ensures k <= 30
  {
    hide Pow2;
    Pow2Zero();
    if k > 30 {
      Pow2Monotone(31, k);
      Pow2Times16(0);
      Pow2Times16(4);
      Pow2Times16(8);
      Pow2Times16(12);
      Pow2Times16(16);
      Pow2Times16(20);
      Pow2Times16(24);
      Pow2Next(28);
      Pow2Next(29);
      Pow2Next(30);
    }
  }

  lemma Pow2Zero()
    ensures Pow2(0) == 1
  {}

  lemma Pow2Next(k: nat)
    ensures Pow2(k + 1) == 2 * Pow2(k)
  {}

  lemma Pow2Times16(k: nat)
    ensures Pow2(k + 4) == 16 * Pow2(k)
  {
    assert Pow2(k + 2) == 4 * Pow2(k);
  }

  /** A candidate radix: 4 or 2 at the start, then the odd numbers; nothing smaller divides n. */
  ghost predicate Candidate(n: int, p: int)
  {
    p == 4 || ((p == 2 || (p >= 3 && p % 2 == 1)) && NoneBelow(n, p))
  }

  lemma CandidateIsRadix(n: int, p: int)
    requires Candidate(n, p) && Divides(p, n)
    ensures p == 4 || Prime(p)
  {
    if p != 4 {
      FirstDivisorIsPrime(n, p);
    }
  }

  lemma NextCandidate(n: int, p: int)
    requires Candidate(n, p) && !Divides(p, n)
    ensures Candidate(n, if p == 4 then 2 else if p == 2 then 3 else p + 2)
  {
    if p != 4 && p != 2 {
      NoneBelowOdd(n, p);
    }
  }

  lemma CandidateQuotient(n: int, p: int)
    requires n >= 1 && Candidate(n, p) && Divides(p, n)
    ensures Candidate(n / p, p)
  {
    if p != 4 {
      NoneBelowQuotient(n, p);
    }
  }

  /** The inner loop of `kf_factor`: from candidate p to the next radix of n. */
  method NextRadix(n: int, p0: int, root: nat) returns (p: int)
    requires n >= 1 && root >= 1 && n < (root + 1) * (root + 1)
    requires Candidate(n, p0)
    ensures p >= 1 && Divides(p, n)
    ensures n > 1 ==> p == 4 || Prime(p)
    ensures Candidate(n / p, p) || n / p == 1
  {
    p := p0;
    while n % p != 0
      invariant p >= 1
      invariant Candidate(n, p) || (p == n && (n > 1 ==> Prime(n)))
      decreases if n % p == 0 then 0 else 1, if p == 4 then root + 5 else root + 3 - p
    {
      NextCandidate(n, p);
      p := if p == 4 then 2 else if p == 2 then 3 else p + 2;
      if p > root {
        if n > 1 {
          NoneBelowRootIsPrime(n, p, root);
        }
        p := n;
      }
    }
    if Candidate(n, p) {
      CandidateIsRadix(n, p);
      CandidateQuotient(n, p);
    } else {
      ModUnique(n, 1, 0, n);
    }
  }

  lemma RadixBound(k: nat, n: int, n0: int, p: int)
    requires n >= 1 && p >= 2 && Divides(p, n) && Pow2(k) * n <= n0
    ensures Pow2(k + 1) * (n / p) <= n0
  {
    QuotientDivides(n, p);
    var m := n / p;
    MulMonotone(2, p, m);
    MulMonotone(2 * m, n, Pow2(k));
    assert Pow2(k + 1) * m == 2 * m * Pow2(k);
    assert Pow2(k) * n == n * Pow2(k);
  }

  lemma BoundLeavesRoom(k: nat, n: int, n0: int)
    requires n >= 1 && Pow2(k) * n <= n0 < 0x8000_0000
    ensures k <= 30
  {
    MulMonotone(1, n, Pow2(k));
    Pow2Bound(k);
  }

  /** What the buffer's first |f| entries hold when n is still to be split. */
  ghost predicate Filled(f: seq<int>, n0: int, n: int)
  {
    && |f| % 2 == 0 && |f| <= 60
    && SplitsTo(f, n0, n)
    && (n0 > 1 ==> AllPrime(f) && Pow2(|f| / 2) * n <= n0)
  }

  lemma FillNext(f: seq<int>, n0: int, n: int, p: int)
    requires 1 <= n0 < 0x8000_0000 && Filled(f, n0, n) && n >= 1 && (f != [] ==> n > 1)
    requires p >= 1 && Divides(p, n) && (n > 1 ==> p == 4 || Prime(p)) && (n > 1 || f == [])
    requires n0 > 1 <==> n > 1
    ensures 1 <= n / p <= n && p * (n / p) == n && (n > 1 ==> n / p < n)
    ensures |f| + 2 <= 60 && Filled(f + [p, n / p], n0, n / p)
  {
    hide SplitsTo, Prime, Pow2;
    QuotientDivides(n, p);
    SplitsAppend(f, n0, n, p, n / p);
    if n > 1 {
      assert p >= 2 by {
        if p != 4 {
          PrimeAtLeastTwo(p);
        }
      }
      RadixBound(|f| / 2, n, n0, p);
      BoundLeavesRoom(|f| / 2 + 1, n / p, n0);
    } else {
      MulMonotone(1, n / p, p);
    }
  }

  lemma PrimeAtLeastTwo(p: int)
    requires Prime(p)
    ensures p >= 2
  {}

  lemma FillDone(f: seq<int>, rest: seq<int>, n0: int)
    requires f != [] && Filled(f, n0, 1)
    ensures Splits(f + rest, n0) && Pairs(f + rest, n0) <= 30
    ensures n0 > 1 ==> PrimeRadices(f + rest, n0)
  {
    SplitsComplete(f, rest, n0);
  }

  lemma FillStart(n0: int)
    ensures Filled([], n0, n0) && Candidate(n0, 4)
  {}

  lemma FloorSqrtPositive(n: nat)
    requires n >= 1
    ensures FloorSqrt(n) >= 1
  {}

  method KfFactor(n0: int, facbuf: array<int>)
    requires 1 <= n0 < 0x8000_0000
    requires facbuf.Length == 2 * MAXFACTORS
    modifies facbuf
    ensures Splits(facbuf[..], n0)
    ensures Pairs(facbuf[..], n0) <= 30
    ensures n0 > 1 ==> PrimeRadices(facbuf[..], n0)
  {
    hide SplitsTo, AllPrime, Pow2, Prime, Candidate, Splits, Pairs, PrimeRadices, Filled, FloorSqrt;
    var n, p, pos := n0, 4, 0;
    var floorSqrt := FloorSqrt(n);
    FloorSqrtPositive(n);
    FillStart(n0);
    while true
      invariant 1 <= n <= n0 && (n > 1 <==> n0 > 1)
      invariant 0 <= pos && pos + 2 <= facbuf.Length
      invariant pos > 0 ==> n > 1
      invariant Filled(facbuf[..pos], n0, n)
      invariant Candidate(n, p)
      decreases n
    {
      p := NextRadix(n, p, floorSqrt);
      ghost var f := facbuf[..pos];
      FillNext(f, n0, n, p);
      n := n / p;
      facbuf[pos] := p;
      facbuf[pos + 1] := n;
      pos := pos + 2;
      assert facbuf[..pos] == f + [p, n];
      if n <= 1 {
        break;
      }
    }
    assert facbuf[..] == facbuf[..pos] + facbuf[pos..];
    FillDone(facbuf[..pos], facbuf[pos..], n0);
  }

  // ---------- Fast sizes ----------

  /** n can be divided down to 1 by twos, threes and fives, in some order. */
  ghost predicate Fast(n: int)
    decreases n
  {
    n >= 1 && (n == 1 || exists q :: q in {2, 3, 5} && n % q == 0 && Fast(n / q))
  }

  /** The order does not matter: any of the three that divides n can be taken out first. */
  lemma {:induction false} FastQuotient(n: int, q: int)
    requires n >= 1 && q in {2, 3, 5} && n % q == 0
    ensures Fast(n) <==> Fast(n / q)
    decreases n
  {
    if Fast(n) {
      var r :| r in {2, 3, 5} && n % r == 0 && Fast(n / r);
      if r != q {
        Exchange(n, q, r);
        FastQuotient(n / r, q);
        assert Fast(n / q);
      }
    }
  }

  lemma Exchange(n: int, q: int, r: int)
    requires n >= 1 && q in {2, 3, 5} && r in {2, 3, 5} && q != r && n % q == 0 && n % r == 0
    ensures (n / r) % q == 0 && (n / q) % r == 0 && n / r / q == n / q / r
  {
    if {q, r} == {2, 3} {
      Exchange23(n);
    } else if {q, r} == {2, 5} {
      Exchange25(n);
    } else {
      Exchange35(n);
    }
  }

  lemma Exchange23(n: int)
    requires n % 2 == 0 && n % 3 == 0
    ensures (n / 3) % 2 == 0 && (n / 2) % 3 == 0 && n / 3 / 2 == n / 2 / 3
  {}

  lemma Exchange25(n: int)
    requires n % 2 == 0 && n % 5 == 0
    ensures (n / 5) % 2 == 0 && (n / 2) % 5 == 0 && n / 5 / 2 == n / 2 / 5
  {}

  lemma Exchange35(n: int)
    requires n % 3 == 0 && n % 5 == 0
    ensures (n / 5) % 3 == 0 && (n / 3) % 5 == 0 && n / 5 / 3 == n / 3 / 5
  {}

  lemma {:induction false} PowerOfTwoFast(k: nat)
    ensures Pow2(k) > k && Fast(Pow2(k))
  {
    if k > 0 {
      PowerOfTwoFast(k - 1);
      assert Pow2(k) % 2 == 0 && Pow2(k) / 2 == Pow2(k - 1);
    }
  }

  /** `while ((m % q) == 0) m /= q;` */
  method StripFactor(n: int, q: int) returns (m: int)
    requires n != 0 && q in {2, 3, 5}
    ensures m % q != 0 && (n < 0 ==> m < 0)
    ensures n > 0 ==> 1 <= m <= n && (Fast(m) <==> Fast(n)) && forall r :: r in {2, 3, 5} && n % r != 0 ==> m % r != 0
  {
    hide Fast;
    m := n;
    while m % q == 0
      invariant n < 0 ==> m < 0
      invariant n > 0 ==>
                1 <= m <= n && (Fast(m) <==> Fast(n)) && forall r :: r in {2, 3, 5} && n % r != 0 ==> m % r != 0
      decreases if m < 0 then -m else m
    {
      if m > 0 {
        FastQuotient(m, q);
        QuotientKeeps(m, q);
      }
      m := m / q;
    }
  }

  lemma QuotientKeeps(m: int, q: int)
    requires m >= 1 && q in {2, 3, 5} && m % q == 0
    ensures 1 <= m / q < m
    ensures forall r :: r in {2, 3, 5} && m % r != 0 ==> (m / q) % r != 0
  {
    QuotientDivides(m, q);
    forall r | r in {2, 3, 5} && m % r != 0
      ensures (m / q) % r != 0
    {
      if (m / q) % r == 0 {
        DividesTrans(r, m / q, m);
      }
    }
  }

  /** A negative number is returned as it is: what is left of it after stripping is below 1. */
  method NextFastSize(n0: int) returns (n: int)
    requires n0 != 0
    ensures n0 < 0 ==> n == n0
    ensures n0 > 0 ==> n >= n0 && Fast(n) && forall k :: n0 <= k < n ==> !Fast(k)
  {
    hide Pow2, Fast;
    n := n0;
    ghost var bound := if n0 > 0 then Pow2(n0) else n0;
    if n0 > 0 {
      PowerOfTwoFast(n0);
    }
    while true
      invariant n0 <= n <= bound && (n0 < 0 ==> n == n0)
      invariant n0 > 0 ==> forall k :: n0 <= k < n ==> !Fast(k)
      decreases bound - n
    {
      var m := StripFactor(n, 2);
      m := StripFactor(m, 3);
      m := StripFactor(m, 5);
      if n0 > 0 {
        Stripped(m);
      }
      if m <= 1 {
        break;
      }
      n := n + 1;
    }
  }

  lemma Stripped(m: int)
    requires m >= 1 && m % 2 != 0 && m % 3 != 0 && m % 5 != 0
    ensures Fast(m) <==> m == 1
  {}
}
