/**
 Allocation and the public transform calls; the inverse transform undoes the forward one.
 */
module KissFft {
  import opened Arithmetic
  import opened Complex
  import opened Twiddles
  import opened Stage
  import opened Butterflies
  import opened Factoring
  import opened Transform

  // ---------- kiss_fft_alloc ----------

  /** The laws of x -> cos x + i sin x that the twiddle table rests on. */
  ghost predicate ExactExp(cexp: real -> Cpx, pi: real)
  {
    && pi > 0.0
    && (forall x, y :: cexp(x + y) == Mul(cexp(x), cexp(y)))
    && (forall x :: cexp(-x) == Conj(cexp(x)))
    && cexp(pi / 2.0) == Cpx(0.0, 1.0)
    && (forall x :: 0.0 < x < 2.0 * pi ==> cexp(x) != ONE)
  }

  /** The phase of entry i, with the sign flipped for an inverse transform. */
  function Phase(pi: real, i: int, nfft: int, inverse: bool): real
    requires nfft > 0
  {
    var phase := -2.0 * pi * i as real / nfft as real;
    if inverse then -phase else phase
  }

  lemma ExpAdd(cexp: real -> Cpx, pi: real, x: real, y: real)
    requires ExactExp(cexp, pi)
    ensures cexp(x + y) == Mul(cexp(x), cexp(y))
  {}

  lemma ExpNeg(cexp: real -> Cpx, pi: real, x: real)
    requires ExactExp(cexp, pi)
    ensures cexp(-x) == Conj(cexp(x))
  {}

  lemma ExpZero(cexp: real -> Cpx, pi: real)
    requires ExactExp(cexp, pi)
    ensures cexp(0.0) == ONE
  {
    hide Mul;
    QuarterTurns(Cpx(0.0, 1.0));
    ExpAdd(cexp, pi, pi / 2.0, -(pi / 2.0));
    ExpNeg(cexp, pi, pi / 2.0);
  }

  lemma ExpPeriod(cexp: real -> Cpx, pi: real)
    requires ExactExp(cexp, pi)
    ensures cexp(2.0 * pi) == ONE && cexp(-2.0 * pi) == ONE
  {
    hide Mul;
    QuarterTurns(Cpx(0.0, 1.0));
    QuarterTurns(Cpx(-1.0, 0.0));
    ExpAdd(cexp, pi, pi / 2.0, pi / 2.0);
    ExpAdd(cexp, pi, pi, pi);
    ExpNeg(cexp, pi, 2.0 * pi);
  }

  lemma PhaseAdd(pi: real, a: int, b: int, nfft: int, inverse: bool)
    requires nfft > 0
    ensures Phase(pi, a, nfft, inverse) + Phase(pi, b, nfft, inverse) == Phase(pi, a + b, nfft, inverse)
  {
    DivideSum(-2.0 * pi, a as real, b as real, nfft as real);
  }

  lemma DivideSum(c: real, x: real, y: real, n: real)
    requires n > 0.0
    ensures c * x / n + c * y / n == c * (x + y) / n
  {
    assert c * (x + y) == c * x + c * y;
  }

  /** A whole turn. */
  lemma PhaseTurn(pi: real, nfft: int, inverse: bool)
    requires nfft > 0
    ensures Phase(pi, nfft, nfft, inverse) == if inverse then 2.0 * pi else -2.0 * pi
  {
    CancelDivision(-2.0 * pi, nfft as real);
  }

  lemma CancelDivision(c: real, n: real)
    requires n > 0.0
    ensures c * n / n == c
  {}

  /** Part of a turn, measured forwards. */
  lemma PhaseInside(pi: real, a: int, nfft: int)
    requires pi > 0.0 && 0 < a < nfft
    ensures 0.0 < Phase(pi, a, nfft, true) < 2.0 * pi
    ensures Phase(pi, a, nfft, false) == -Phase(pi, a, nfft, true)
  {
    ProperFraction(2.0 * pi, a as real, nfft as real);
    assert -2.0 * pi * a as real == -(2.0 * pi * a as real);
  }

  lemma ProperFraction(c: real, x: real, n: real)
    requires c > 0.0 && 0.0 < x < n
    ensures 0.0 < c * x / n < c
    ensures (-(c * x)) / n == -(c * x / n)
  {
    assert c * x < c * n;
    assert c * x > 0.0;
    CancelDivision(c, n);
  }

  ghost predicate TableOf(tw: seq<Cpx>, cexp: real -> Cpx, pi: real, inverse: bool)
  {
    |tw| > 0 && forall i :: 0 <= i < |tw| ==> tw[i] == cexp(Phase(pi, i, |tw|, inverse))
  }

  /** The exact table satisfies the laws of the roots of unity. */
  lemma TableLaws(tw: seq<Cpx>, cexp: real -> Cpx, pi: real, inverse: bool)
    requires ExactExp(cexp, pi) && TableOf(tw, cexp, pi, inverse)
    ensures TwiddleLaws(tw, inverse)
  {
    hide ExactExp, Mul, Phase;
    var n := |tw|;
    TableStart(tw, cexp, pi, inverse);
    forall a, b | 0 <= a < n && 0 <= b < n
      ensures Mul(tw[a], tw[b]) == tw[(a + b) % n]
    {
      TableProduct(tw, cexp, pi, inverse, a, b);
    }
    forall a | 0 < a < n
      ensures tw[a] != ONE
    {
      TablePrimitive(tw, cexp, pi, inverse, a);
    }
    forall a | 0 <= a < n
      ensures Conj(tw[a]) == tw[(n - a) % n]
    {
      TableConjugate(tw, cexp, pi, inverse, a);
    }
    if n % 4 == 0 {
      TableQuarter(tw, cexp, pi, inverse);
    }
  }

  lemma TableStart(tw: seq<Cpx>, cexp: real -> Cpx, pi: real, inverse: bool)
    requires ExactExp(cexp, pi) && TableOf(tw, cexp, pi, inverse)
    ensures tw[0] == ONE
  {
    hide ExactExp;
    ExpZero(cexp, pi);
    assert Phase(pi, 0, |tw|, inverse) == 0.0;
  }

  /** Going once round the circle changes nothing. */
  lemma TableWrap(cexp: real -> Cpx, pi: real, inverse: bool, n: int, c: int)
    requires ExactExp(cexp, pi) && n > 0
    ensures cexp(Phase(pi, c + n, n, inverse)) == cexp(Phase(pi, c, n, inverse))
  {
    hide ExactExp, Mul, Phase;
    PhaseAdd(pi, c, n, n, inverse);
    PhaseTurn(pi, n, inverse);
    ExpPeriod(cexp, pi);
    ExpAdd(cexp, pi, Phase(pi, c, n, inverse), Phase(pi, n, n, inverse));
    MulOne(cexp(Phase(pi, c, n, inverse)));
  }

  lemma TableProduct(tw: seq<Cpx>, cexp: real -> Cpx, pi: real, inverse: bool, a: int, b: int)
    requires ExactExp(cexp, pi) && TableOf(tw, cexp, pi, inverse) && 0 <= a < |tw| && 0 <= b < |tw|
    ensures Mul(tw[a], tw[b]) == tw[(a + b) % |tw|]
  {
    hide ExactExp, Mul, Phase;
    var n := |tw|;
    PhaseAdd(pi, a, b, n, inverse);
    ExpAdd(cexp, pi, Phase(pi, a, n, inverse), Phase(pi, b, n, inverse));
    if a + b < n {
      ModUnique(a + b, 0, a + b, n);
    } else {
      ModUnique(a + b, 1, a + b - n, n);
      TableWrap(cexp, pi, inverse, n, a + b - n);
    }
  }

  lemma TablePrimitive(tw: seq<Cpx>, cexp: real -> Cpx, pi: real, inverse: bool, a: int)
    requires ExactExp(cexp, pi) && TableOf(tw, cexp, pi, inverse) && 0 < a < |tw|
    ensures tw[a] != ONE
  {
    hide Mul, Phase;
    PhaseInside(pi, a, |tw|);
    ExpNeg(cexp, pi, Phase(pi, a, |tw|, true));
  }

  lemma TableConjugate(tw: seq<Cpx>, cexp: real -> Cpx, pi: real, inverse: bool, a: int)
    requires ExactExp(cexp, pi) && TableOf(tw, cexp, pi, inverse) && 0 <= a < |tw|
    ensures Conj(tw[a]) == tw[(|tw| - a) % |tw|]
  {
    hide ExactExp, Phase;
    var n := |tw|;
    if a == 0 {
      ModUnique(n, 1, 0, n);
      TableStart(tw, cexp, pi, inverse);
    } else {
      ModUnique(n - a, 0, n - a, n);
      PhaseAdd(pi, a, -a, n, inverse);
      PhaseAdd(pi, 0, 0, n, inverse);
      ExpNeg(cexp, pi, Phase(pi, a, n, inverse));
      TableWrap(cexp, pi, inverse, n, -a);
    }
  }

  lemma TableQuarter(tw: seq<Cpx>, cexp: real -> Cpx, pi: real, inverse: bool)
    requires ExactExp(cexp, pi) && TableOf(tw, cexp, pi, inverse) && |tw| % 4 == 0
    ensures tw[|tw| / 4] == if inverse then Cpx(0.0, 1.0) else Cpx(0.0, -1.0)
  {
    hide Mul, Phase;
    var n, z := |tw|, |tw| / 4;
    PhaseAdd(pi, z, z, n, inverse);
    PhaseAdd(pi, 2 * z, 2 * z, n, inverse);
    PhaseTurn(pi, n, inverse);
    ExpNeg(cexp, pi, pi / 2.0);
  }

  /** `kiss_fft_alloc`, with the complex exponential as a parameter. */
  method Alloc(nfft: int, inverse: bool, cexp: real -> Cpx, pi: real) returns (st: Config)
    requires 1 <= nfft < 0x8000_0000
    requires ExactExp(cexp, pi)
    ensures st.nfft == nfft && st.inverse == inverse
    ensures Exact(st) && Splits(st.factors, nfft)
    ensures TableOf(st.twiddles, cexp, pi, inverse)
  {
    hide ExactExp, TwiddleLaws, Splits;
    var twiddles: seq<Cpx> := [];
    for i := 0 to nfft
      invariant |twiddles| == i
      invariant forall k :: 0 <= k < i ==> twiddles[k] == cexp(Phase(pi, k, nfft, inverse))
    {
      twiddles := twiddles + [cexp(Phase(pi, i, nfft, inverse))];
    }
    TableLaws(twiddles, cexp, pi, inverse);
    var factors := new int[2 * MAXFACTORS](_ => 0);
    KfFactor(nfft, factors);
    st := Config(nfft, inverse, factors[..], twiddles);
  }

  // ---------- kiss_fft_stride ----------

  /** The full transform of the samples of f that are `stride` apart. */
  ghost function Spectrum(tw: seq<Cpx>, f: seq<Cpx>, stride: int): (t: seq<Cpx>)
    requires |tw| > 0
    ensures |t| == |tw|
  {
    seq(|tw|, k => Dft(tw, f, 0, stride, 1, |tw|, k))
  }

  lemma TransformedIsSpectrum(tw: seq<Cpx>, s: seq<Cpx>, f: seq<Cpx>, stride: int)
    requires 0 < |tw| <= |s|
    ensures Transformed(tw, s, 0, f, 0, stride, 1, |tw|) == Spectrum(tw, f, stride) + s[|tw|..]
  {
    hide Dft;
  }

  /** The angle of i out of n turns: backwards in the forward transform, forwards in the inverse one. */
  function Angle(pi: real, i: int, n: int, inverse: bool): real
    requires n > 0
  {
    (if inverse then 2.0 else -2.0) * pi * i as real / n as real
  }

  /** Sample j as it enters output k. */
  ghost function Turned(cexp: real -> Cpx, pi: real, inverse: bool, f: seq<Cpx>, stride: nat, n: int, j: int,
      k: int): Cpx
    requires n > 0
  {
    Mul(At(f, j * stride), cexp(Angle(pi, j * k % n, n, inverse)))
  }

  /** Every output is the sum of the samples, each turned by the exponential. */
  lemma SpectrumIsFourier(tw: seq<Cpx>, cexp: real -> Cpx, pi: real, inverse: bool, f: seq<Cpx>, stride: nat, k: int,
      g: int -> Cpx)
    requires TableOf(tw, cexp, pi, inverse) && 0 <= k < |tw|
    requires forall j :: 0 <= j < |tw| ==> g(j) == Turned(cexp, pi, inverse, f, stride, |tw|, j, k)
    ensures Spectrum(tw, f, stride)[k] == Sum(|tw|, g)
  {
    hide Mul, Dft, Turned, At, W;
    var h: int -> Cpx := j => Mul(At(f, 0 + j * stride), W(tw, j * k * 1));
    DftIsSum(tw, f, 0, stride, 1, |tw|, k, h);
    forall j | 0 <= j < |tw| ensures g(j) == h(j) {
      TurnedTerm(tw, cexp, pi, inverse, f, stride, j, k);
    }
    SumExt(|tw|, g, h);
  }

  lemma TurnedTerm(tw: seq<Cpx>, cexp: real -> Cpx, pi: real, inverse: bool, f: seq<Cpx>, stride: nat, j: int, k: int)
    requires TableOf(tw, cexp, pi, inverse)
    ensures Mul(At(f, 0 + j * stride), W(tw, j * k * 1)) == Turned(cexp, pi, inverse, f, stride, |tw|, j, k)
  {
    hide Mul, At, Phase, Angle;
    var e := j * k % |tw|;
    AnglePhase(pi, e, |tw|, inverse);
    assert j * k * 1 == j * k;
    assert W(tw, j * k) == tw[e];
  }

  lemma AnglePhase(pi: real, i: int, n: int, inverse: bool)
    requires n > 0
    ensures Phase(pi, i, n, inverse) == Angle(pi, i, n, inverse)
  {
    NegatedQuotient(2.0 * pi * i as real, n as real);
  }

  lemma NegatedQuotient(x: real, n: real)
    requires n > 0.0
    ensures -((-x) / n) == x / n
  {}

  lemma WholeFits(st: Config, s: seq<Cpx>, f: seq<Cpx>, inStride: int)
    requires Exact(st) && Splits(st.factors, st.nfft) && |s| >= st.nfft && inStride >= 0
    requires (st.nfft - 1) * inStride < |f|
    ensures |st.factors| >= 2 && st.factors[0] * st.factors[1] == st.nfft == |st.twiddles|
    ensures Fits(st.twiddles, s, 0, st.factors[0], st.factors[1], 1)
    ensures Readable(f, 0, 1 * inStride, st.factors[0] * st.factors[1])
  {}

  /** `kiss_fft_stride`: also correct when the input buffer is the output buffer. */
  method KissFftStride(st: Config, fin: array<Cpx>, fout: array<Cpx>, inStride: nat)
    requires Exact(st) && Splits(st.factors, st.nfft)
    requires fout.Length >= st.nfft && (st.nfft - 1) * inStride < fin.Length
    modifies fout
    ensures fout[..] == Spectrum(st.twiddles, old(fin[..]), inStride) + old(fout[st.nfft..])
  {
    hide Splits, Fits, Readable, Transformed, Spectrum, TwiddleLaws, At;
    ghost var tw, f, s := st.twiddles, fin[..], fout[..];
    ExactLaws(st);
    if fin == fout {
      var tmpbuf := new Cpx[st.nfft](_ => ZERO);
      WholeFits(st, tmpbuf[..], f, inStride);
      TransformedIsSpectrum(tw, tmpbuf[..], f, inStride);
      KfWork(tmpbuf, 0, fin, 0, 1, inStride, st.factors, st);
      CopyFront(fout, tmpbuf, st.nfft);
    } else {
      WholeFits(st, s, f, inStride);
      TransformedIsSpectrum(tw, s, f, inStride);
      KfWork(fout, 0, fin, 0, 1, inStride, st.factors, st);
    }
  }

  /** memcpy of n elements. */
  method CopyFront(dst: array<Cpx>, src: array<Cpx>, n: nat)
    requires n <= dst.Length && n <= src.Length && dst != src
    modifies dst
    ensures dst[..] == src[..n] + old(dst[n..])
  {
    for i := 0 to n
      invariant dst[..] == src[..i] + old(dst[i..])
    {
      dst[i] := src[i];
    }
  }

  method KissFft(cfg: Config, fin: array<Cpx>, fout: array<Cpx>)
    requires Exact(cfg) && Splits(cfg.factors, cfg.nfft)
    requires fin.Length >= cfg.nfft && fout.Length >= cfg.nfft
    modifies fout
    ensures fout[..] == Spectrum(cfg.twiddles, old(fin[..]), 1) + old(fout[cfg.nfft..])
  {
    KissFftStride(cfg, fin, fout, 1);
  }

  // ---------- Inverse ----------

  ghost predicate Conjugates(tw: seq<Cpx>, twi: seq<Cpx>)
    requires |tw| > 0 && |twi| > 0
  {
    forall e :: W(twi, e) == W(tw, -e)
  }

  lemma ConjugateTables(tw: seq<Cpx>, twi: seq<Cpx>, cexp: real -> Cpx, pi: real)
    requires ExactExp(cexp, pi) && TableOf(tw, cexp, pi, false) && TableOf(twi, cexp, pi, true) && |tw| == |twi|
    ensures Conjugates(tw, twi)
  {
    hide ExactExp, Mul, TwiddleLaws;
    TableLaws(tw, cexp, pi, false);
    forall e ensures W(twi, e) == W(tw, -e) {
      WConj(tw, false, e);
      ExpNeg(cexp, pi, Phase(pi, e % |tw|, |tw|, false));
    }
  }

  /** The twiddles that sample n contributes to output j of the double transform add up to N or to 0. */
  lemma Orthogonal(tw: seq<Cpx>, n: int, j: int, g: int -> Cpx)
    requires TwiddleLaws(tw, false) && 0 <= n < |tw| && 0 <= j < |tw|
    requires forall k :: g(k) == Mul(W(tw, n * k), W(tw, -(k * j)))
    ensures Sum(|tw|, g) == if n == j then Scale(|tw|, ONE) else ZERO
  {
    hide Mul, W, TwiddleLaws;
    Nonempty(tw, false);
    var d := n - j;
    var h: int -> Cpx := k => W(tw, k * d);
    forall k ensures g(k) == h(k) {
      WAdd(tw, false, n * k, -(k * j));
      assert n * k - k * j == k * d;
    }
    SumExt(|tw|, g, h);
    if n == j {
      WZero(tw, false);
      assert forall k :: k * d == 0;
      SumConstant(|tw|, h, ONE);
    } else {
      assert d % |tw| != 0 by {
        if d > 0 {
          ModUnique(d, 0, d, |tw|);
        } else {
          ModUnique(d, -1, d + |tw|, |tw|);
        }
      }
      GeometricVanishes(tw, false, d, h);
    }
  }

  lemma ScaleByOne(n: nat, x: Cpx)
    ensures Mul(Scale(n, ONE), x) == Scale(n, x)
  {}

  /** What sample n contributes to output j of the double transform, by way of output k of the first. */
  ghost function Term(tw: seq<Cpx>, x: seq<Cpx>, j: int, n: int, k: int): Cpx
    requires |tw| > 0
  {
    Mul(At(x, n), Mul(W(tw, n * k), W(tw, -(k * j))))
  }

  lemma UnitDft(tw: seq<Cpx>, f: seq<Cpx>, n: nat, k: int, g: int -> Cpx)
    requires |tw| > 0
    requires forall j {:trigger g(j)} :: g(j) == Mul(At(f, j), W(tw, j * k))
    ensures Dft(tw, f, 0, 1, 1, n, k) == Sum(n, g)
  {
    hide Mul, W, Sum, Dft, At;
    forall j
      ensures g(j) == Mul(At(f, 0 + j * 1), W(tw, j * k * 1))
    {
      UnitTerm(tw, f, j, k);
    }
    DftIsSum(tw, f, 0, 1, 1, n, k, g);
  }

  lemma UnitTerm(tw: seq<Cpx>, f: seq<Cpx>, j: int, k: int)
    requires |tw| > 0
    ensures Mul(At(f, j), W(tw, j * k)) == Mul(At(f, 0 + j * 1), W(tw, j * k * 1))
  {
    hide Mul, W, At;
  }

  lemma TermFactors(tw: seq<Cpx>, x: seq<Cpx>, j: int, n: int, k: int)
    requires |tw| > 0
    ensures Term(tw, x, j, n, k) == Mul(Mul(At(x, n), W(tw, n * k)), W(tw, -(k * j)))
  {
    hide Mul, W, At;
    MulAssoc(At(x, n), W(tw, n * k), W(tw, -(k * j)));
  }

  lemma ConjugateAt(tw: seq<Cpx>, twi: seq<Cpx>, e: int)
    requires |tw| > 0 && |twi| > 0 && Conjugates(tw, twi)
    ensures W(twi, e) == W(tw, -e)
  {}

  /** Summed over the samples: one term of the second transform. */
  lemma TermColumn(tw: seq<Cpx>, twi: seq<Cpx>, x: seq<Cpx>, j: int, k: int, col: int -> Cpx)
    requires |x| == |tw| == |twi| && |tw| > 0 && 0 <= k < |tw| && Conjugates(tw, twi)
    requires forall n :: col(n) == Term(tw, x, j, n, k)
    ensures Sum(|tw|, col) == Mul(At(Spectrum(tw, x, 1), k), W(twi, k * j))
  {
    hide Mul, W, Sum, Dft, At, Term, Conjugates, Spectrum;
    var part: int -> Cpx := n => Mul(At(x, n), W(tw, n * k));
    UnitDft(tw, x, |tw|, k, part);
    forall n | 0 <= n < |tw|
      ensures col(n) == Mul(part(n), W(tw, -(k * j)))
    {
      TermFactors(tw, x, j, n, k);
    }
    SumMul(|tw|, part, W(tw, -(k * j)), col);
    SpectrumAt(tw, x, k);
    ConjugateAt(tw, twi, k * j);
  }

  lemma SpectrumAt(tw: seq<Cpx>, x: seq<Cpx>, k: int)
    requires 0 <= k < |tw|
    ensures At(Spectrum(tw, x, 1), k) == Dft(tw, x, 0, 1, 1, |tw|, k)
  {
    hide Dft;
  }

  /** Summed over the first transform's outputs: N times the sample if n == j, nothing otherwise. */
  lemma TermRow(tw: seq<Cpx>, x: seq<Cpx>, j: int, n: int, row: int -> Cpx)
    requires TwiddleLaws(tw, false) && |tw| > 0 && |x| == |tw| && 0 <= j < |tw| && 0 <= n < |tw|
    requires forall k :: row(k) == Term(tw, x, j, n, k)
    ensures Sum(|tw|, row) == if n == j then Scale(|tw|, x[j]) else ZERO
  {
    hide Mul, W, Sum, TwiddleLaws, Scale;
    var g: int -> Cpx := k => Mul(W(tw, n * k), W(tw, -(k * j)));
    Orthogonal(tw, n, j, g);
    forall k | 0 <= k < |tw|
      ensures row(k) == Mul(g(k), x[n])
    {
      MulComm(x[n], g(k));
    }
    SumMul(|tw|, g, x[n], row);
    ScaleByOne(|tw|, x[n]);
    MulZero(x[n]);
  }

  lemma InverseAt(tw: seq<Cpx>, twi: seq<Cpx>, x: seq<Cpx>, j: int)
    requires TwiddleLaws(tw, false) && |x| == |tw| == |twi| && |tw| > 0 && 0 <= j < |tw| && Conjugates(tw, twi)
    ensures Dft(twi, Spectrum(tw, x, 1), 0, 1, 1, |tw|, j) == Scale(|tw|, x[j])
  {
    hide Mul, W, TwiddleLaws, Sum, Spectrum, Dft, Scale, Term, At, Conjugates;
    var N := |tw|;
    var term: (int, int) -> Cpx := (n, k) => Term(tw, x, j, n, k);
    var rows: int -> Cpx := n => Sum(N, k => term(n, k));
    var cols: int -> Cpx := k => Sum(N, n => term(n, k));
    var inner: int -> Cpx := k => Mul(At(Spectrum(tw, x, 1), k), W(twi, k * j));
    UnitDft(twi, Spectrum(tw, x, 1), N, j, inner);
    forall k | 0 <= k < N
      ensures inner(k) == cols(k)
    {
      TermColumn(tw, twi, x, j, k, n => term(n, k));
    }
    SumExt(N, inner, cols);
    SumSwap(N, N, term);
    forall n | 0 <= n < N
      ensures rows(n) == if n == j then Scale(N, x[j]) else ZERO
    {
      TermRow(tw, x, j, n, k => term(n, k));
    }
    SumSingle(N, rows, j);
  }

  /** Forward, then inverse-configured: N times the input, for every N and every input. */
  lemma InverseUndoesForward(fwd: Config, inv: Config, cexp: real -> Cpx, pi: real, x: seq<Cpx>)
    requires ExactExp(cexp, pi) && fwd.nfft == inv.nfft == |x| == |fwd.twiddles| == |inv.twiddles|
    requires TableOf(fwd.twiddles, cexp, pi, false) && TableOf(inv.twiddles, cexp, pi, true)
    ensures Spectrum(inv.twiddles, Spectrum(fwd.twiddles, x, 1), 1) ==
            seq(|x|, j requires 0 <= j < |x| => Scale(|x|, x[j]))
  {
    hide ExactExp, Mul, W, TwiddleLaws, Scale, Dft, Conjugates;
    var tw, twi := fwd.twiddles, inv.twiddles;
    TableLaws(tw, cexp, pi, false);
    ConjugateTables(tw, twi, cexp, pi);
    forall j | 0 <= j < |x|
      ensures Dft(twi, Spectrum(tw, x, 1), 0, 1, 1, |tw|, j) == Scale(|x|, x[j])
    {
      InverseAt(tw, twi, x, j);
    }
  }
}
