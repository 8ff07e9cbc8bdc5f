/**
 `kf_work` and the public entry points: the recursive mixed-radix transform computes the
 discrete Fourier sum, whatever the radices, the offsets and the input stride.
 */
module Transform {
  import opened Arithmetic
  import opened Complex
  import opened Twiddles
  import opened Stage
  import opened Butterflies
  import opened Factoring

  /** The defining sum: sample j of the input, `stride` apart, times the twiddle of j * k. */
  ghost function Dft(tw: seq<Cpx>, f: seq<Cpx>, off: int, stride: int, fs: int, n: nat, k: int): Cpx
    requires |tw| > 0
  {
    Sum(n, j => Mul(At(f, off + j * stride), W(tw, j * k * fs)))
  }

  /** Buffer s with the n outputs written at offset o and everything else kept. */
  ghost function Transformed(tw: seq<Cpx>, s: seq<Cpx>, o: int, f: seq<Cpx>, off: int, stride: int, fs: int,
      n: nat): (t: seq<Cpx>)
    requires |tw| > 0
    ensures |t| == |s|
  {
    seq(|s|, i => if o <= i < o + n then Dft(tw, f, off, stride, fs, n, i - o) else At(s, i))
  }

  // ---------- Cooley and Tukey's identity ----------

  lemma ExponentsAgree(q: int, j: int, p: int, m: int, fs: int, k: int, n: int)
    requires m > 0 && p * (m * fs) == n
    ensures (q + j * p) * k * fs == q * k * fs + j * (k % m) * (p * fs) + (j * (k / m)) * n
  {
    var u, r := k % m, k / m;
    assert k == r * m + u;
    calc {
      (q + j * p) * k * fs;
      q * k * fs + j * p * k * fs;
      { ExpandProduct(j, p, r, m, u, fs); }
      q * k * fs + (j * u * (p * fs) + (j * r) * (p * (m * fs)));
    }
  }

  lemma ExpandProduct(j: int, p: int, r: int, m: int, u: int, fs: int)
    ensures j * p * (r * m + u) * fs == j * u * (p * fs) + (j * r) * (p * (m * fs))
  {}

  lemma TermAgrees(tw: seq<Cpx>, inverse: bool, x: Cpx, q: int, j: int, p: int, m: int, fs: int, k: int)
    requires TwiddleLaws(tw, inverse) && |tw| > 0 && m > 0 && p * (m * fs) == |tw|
    ensures Mul(Mul(x, W(tw, j * (k % m) * (p * fs))), W(tw, q * k * fs)) == Mul(x, W(tw, (q + j * p) * k * fs))
  {
    hide Mul, W, TwiddleLaws;
    var a, b := j * (k % m) * (p * fs), q * k * fs;
    ExponentsAgree(q, j, p, m, fs, k, |tw|);
    WShift(tw, a + b, j * (k / m));
    WAdd(tw, inverse, a, b);
    MulAssoc(x, W(tw, a), W(tw, b));
  }

  /** A sub-transform turned by its twiddle is the strided part of the full sum. */
  lemma SubTransform(tw: seq<Cpx>, inverse: bool, f: seq<Cpx>, off: int, stride: int, p: int, m: int, fs: int,
      k: int, q: int, g: int -> Cpx)
    requires TwiddleLaws(tw, inverse) && |tw| > 0 && m > 0 && p * (m * fs) == |tw|
    requires forall n :: g(n) == Mul(At(f, off + n * stride), W(tw, n * k * fs))
    ensures Mul(Dft(tw, f, off + q * stride, p * stride, p * fs, m, k % m), W(tw, q * k * fs)) == StridedSum(p, m, g, q)
  {
    hide Mul, W, TwiddleLaws, At;
    var part: int -> Cpx := j => Mul(At(f, off + q * stride + j * (p * stride)), W(tw, j * (k % m) * (p * fs)));
    var h: int -> Cpx := j => g(q + j * p);
    forall j | 0 <= j < m
      ensures h(j) == Mul(part(j), W(tw, q * k * fs))
    {
      var x := At(f, off + q * stride + j * (p * stride));
      assert off + (q + j * p) * stride == off + q * stride + j * (p * stride);
      TermAgrees(tw, inverse, x, q, j, p, m, fs, k);
    }
    SumMul(m, part, W(tw, q * k * fs), h);
    StridedSumIsSum(p, m, g, q, h);
  }

  lemma DftIsSum(tw: seq<Cpx>, f: seq<Cpx>, off: int, stride: int, fs: int, n: nat, k: int, g: int -> Cpx)
    requires |tw| > 0
    requires forall j :: g(j) == Mul(At(f, off + j * stride), W(tw, j * k * fs))
    ensures Dft(tw, f, off, stride, fs, n, k) == Sum(n, g)
  {
    hide Mul, W, At;
    SumExt(n, g, j => Mul(At(f, off + j * stride), W(tw, j * k * fs)));
  }

  lemma RecombinedIsSum(tw: seq<Cpx>, s: seq<Cpx>, o: int, p: nat, m: int, fs: int, k: int, g: int -> Cpx)
    requires |tw| > 0 && m > 0
    requires forall q :: 0 <= q < p ==> g(q) == Mul(At(s, o + Cell(m, q, k % m)), W(tw, q * k * fs))
    ensures Recombined(tw, s, o, p, m, fs, k) == Sum(p, g)
  {
    hide Mul, W, At;
    SumExt(p, g, q => Mul(At(s, o + q * m + k % m), W(tw, q * k * fs)));
  }

  /** The column of output k holds the p sub-transforms of the decimated inputs. */
  ghost predicate HoldsSubTransforms(tw: seq<Cpx>, s: seq<Cpx>, o: int, f: seq<Cpx>, off: int, stride: int,
                                     p: int, m: int, fs: int, u: int)
    requires |tw| > 0 && m > 0
  {
    forall q :: 0 <= q < p ==>
      At(s, o + Cell(m, q, u)) == Dft(tw, f, off + q * stride, p * stride, p * fs, m, u)
  }

  lemma CooleyTukey(tw: seq<Cpx>, inverse: bool, s: seq<Cpx>, o: int, f: seq<Cpx>, off: int, stride: int,
                    p: nat, m: int, fs: int, k: int)
    requires TwiddleLaws(tw, inverse) && |tw| > 0 && m > 0 && p * (m * fs) == |tw|
    requires HoldsSubTransforms(tw, s, o, f, off, stride, p, m, fs, k % m)
    ensures Recombined(tw, s, o, p, m, fs, k) == Dft(tw, f, off, stride, fs, p * m, k)
  {
    hide Mul, W, TwiddleLaws, At, StridedSum, Dft, Recombined, Sum, Cell;
    var g: int -> Cpx := n => Mul(At(f, off + n * stride), W(tw, n * k * fs));
    var strided: int -> Cpx := q => StridedSum(p, m, g, q);
    forall q | 0 <= q < p
      ensures strided(q) == Mul(At(s, o + Cell(m, q, k % m)), W(tw, q * k * fs))
    {
      SubTransform(tw, inverse, f, off, stride, p, m, fs, k, q, g);
    }
    RecombinedIsSum(tw, s, o, p, m, fs, k, strided);
    SumDecimate(p, m, g);
    DftIsSum(tw, f, off, stride, fs, p * m, k, g);
  }

  // ---------- The buffer between the sub-transforms ----------

  /** Buffer s with the first q sub-transforms, each of length m, in place. */
  ghost function Gathered(tw: seq<Cpx>, s: seq<Cpx>, o: int, f: seq<Cpx>, off: int, stride: int,
                          p: int, m: int, fs: int, q: int): (t: seq<Cpx>)
    requires |tw| > 0 && m > 0
    ensures |t| == |s|
  {
    seq(|s|, i => if o <= i < o + q * m
                  then Dft(tw, f, off + ((i - o) / m) * stride, p * stride, p * fs, m, (i - o) % m)
                  else At(s, i))
  }

  lemma GatheredNone(tw: seq<Cpx>, s: seq<Cpx>, o: int, f: seq<Cpx>, off: int, stride: int, p: int, m: int, fs: int)
    requires |tw| > 0 && m > 0
    ensures Gathered(tw, s, o, f, off, stride, p, m, fs, 0) == s
  {
    hide Dft;
  }

  /** Transforming the next window gathers one more sub-transform. */
  lemma GatheredNext(tw: seq<Cpx>, s: seq<Cpx>, o: int, f: seq<Cpx>, off: int, stride: int,
                     p: int, m: int, fs: int, q: int, cur: seq<Cpx>)
    requires |tw| > 0 && m > 0 && q >= 0
    requires cur == Gathered(tw, s, o, f, off, stride, p, m, fs, q)
    ensures Transformed(tw, cur, o + q * m, f, off + q * stride, p * stride, p * fs, m)
         == Gathered(tw, s, o, f, off, stride, p, m, fs, q + 1)
  {
    hide Dft, Gathered, Transformed;
    var a := Transformed(tw, cur, o + q * m, f, off + q * stride, p * stride, p * fs, m);
    var b := Gathered(tw, s, o, f, off, stride, p, m, fs, q + 1);
    forall i | 0 <= i < |s| ensures a[i] == b[i] {
      GatheredNextAt(tw, s, o, f, off, stride, p, m, fs, q, cur, i);
    }
  }

  lemma GatheredNextAt(tw: seq<Cpx>, s: seq<Cpx>, o: int, f: seq<Cpx>, off: int, stride: int,
                       p: int, m: int, fs: int, q: int, cur: seq<Cpx>, i: int)
    requires |tw| > 0 && m > 0 && q >= 0 && 0 <= i < |s|
    requires cur == Gathered(tw, s, o, f, off, stride, p, m, fs, q)
    ensures Transformed(tw, cur, o + q * m, f, off + q * stride, p * stride, p * fs, m)[i]
         == Gathered(tw, s, o, f, off, stride, p, m, fs, q + 1)[i]
  {
    hide Dft;
    assert (q + 1) * m == q * m + m;
    MulMonotone(0, q, m);
    if o + q * m <= i < o + q * m + m {
      ModUnique(i - o, q, i - o - q * m, m);
    }
  }

  /** Recombining the gathered sub-transforms gives the transform of the whole window. */
  lemma StageFinishes(tw: seq<Cpx>, inverse: bool, s: seq<Cpx>, o: int, f: seq<Cpx>, off: int, stride: int,
                      p: nat, m: int, fs: int, cur: seq<Cpx>)
    requires TwiddleLaws(tw, inverse) && |tw| > 0 && Fits(tw, s, o, p, m, fs)
    requires cur == Gathered(tw, s, o, f, off, stride, p, m, fs, p)
    ensures m > 0
    ensures Staged(tw, cur, o, p, m, fs, m) == Transformed(tw, s, o, f, off, stride, fs, p * m)
  {
    hide Dft, Gathered, Transformed, Staged, Recombined, TwiddleLaws;
    var a := Staged(tw, cur, o, p, m, fs, m);
    var b := Transformed(tw, s, o, f, off, stride, fs, p * m);
    forall i | 0 <= i < |s| ensures a[i] == b[i] {
      StageFinishesAt(tw, inverse, s, o, f, off, stride, p, m, fs, cur, i);
    }
  }

  lemma StageFinishesAt(tw: seq<Cpx>, inverse: bool, s: seq<Cpx>, o: int, f: seq<Cpx>, off: int, stride: int,
                        p: nat, m: int, fs: int, cur: seq<Cpx>, i: int)
    requires TwiddleLaws(tw, inverse) && |tw| > 0 && Fits(tw, s, o, p, m, fs) && 0 <= i < |s|
    requires cur == Gathered(tw, s, o, f, off, stride, p, m, fs, p)
    ensures m > 0
    ensures Staged(tw, cur, o, p, m, fs, m)[i] == Transformed(tw, s, o, f, off, stride, fs, p * m)[i]
  {
    hide Dft, Recombined, TwiddleLaws, W;
    if o <= i < o + p * m {
      GatheredColumn(tw, s, o, f, off, stride, p, m, fs, cur, (i - o) % m);
      CooleyTukey(tw, inverse, cur, o, f, off, stride, p, m, fs, i - o);
    }
  }

  lemma GatheredColumn(tw: seq<Cpx>, s: seq<Cpx>, o: int, f: seq<Cpx>, off: int, stride: int,
                       p: nat, m: int, fs: int, cur: seq<Cpx>, u: int)
    requires |tw| > 0 && Fits(tw, s, o, p, m, fs) && 0 <= u < m
    requires cur == Gathered(tw, s, o, f, off, stride, p, m, fs, p)
    ensures HoldsSubTransforms(tw, cur, o, f, off, stride, p, m, fs, u)
  {
    hide Dft, Cell;
    forall q | 0 <= q < p
      ensures At(cur, o + Cell(m, q, u)) == Dft(tw, f, off + q * stride, p * stride, p * fs, m, u)
    {
      ColumnIndex(q, p, m, u);
    }
  }

  /** A transform of length 1 copies its sample. */
  lemma DftOfOne(tw: seq<Cpx>, inverse: bool, f: seq<Cpx>, off: int, stride: int, fs: int)
    requires TwiddleLaws(tw, inverse) && |tw| > 0
    ensures Dft(tw, f, off, stride, fs, 1, 0) == At(f, off)
  {
    hide Mul, W, TwiddleLaws, At, Dft;
    var g: int -> Cpx := j => Mul(At(f, off + j * stride), W(tw, j * 0 * fs));
    DftIsSum(tw, f, off, stride, fs, 1, 0, g);
    WZero(tw, inverse);
    MulOne(At(f, off));
    assert g(0) == At(f, off);
  }

  lemma CopiedIsGathered(tw: seq<Cpx>, inverse: bool, s: seq<Cpx>, o: int, f: seq<Cpx>, off: int, stride: int,
                         p: int, fs: int, q: int, cur: seq<Cpx>, next: seq<Cpx>)
    requires TwiddleLaws(tw, inverse) && |tw| > 0 && q >= 0 && 0 <= o + q < |s|
    requires cur == Gathered(tw, s, o, f, off, stride, p, 1, fs, q)
    requires next == cur[o + q := At(f, off + q * stride)]
    ensures next == Gathered(tw, s, o, f, off, stride, p, 1, fs, q + 1)
  {
    hide Dft, TwiddleLaws, At;
    forall i | 0 <= i < |s|
      ensures next[i] == Gathered(tw, s, o, f, off, stride, p, 1, fs, q + 1)[i]
    {
      if i == o + q {
        DftOfOne(tw, inverse, f, off + q * stride, p * stride, p * fs);
      }
    }
  }

  // ---------- kf_work ----------

  /** The n samples read, `stride` apart from `off` on, lie inside the input. */
  ghost predicate Readable(f: seq<Cpx>, off: int, stride: int, n: int)
  {
    off >= 0 && stride >= 0 && off + (n - 1) * stride < |f|
  }

  lemma SampleReadable(f: seq<Cpx>, off: int, stride: int, n: int, q: int)
    requires Readable(f, off, stride, n) && 0 <= q < n
    ensures 0 <= off + q * stride < |f|
  {
    MulMonotone(0, q, stride);
    MulMonotone(q, n - 1, stride);
  }

  /** The arguments of the q-th recursive call are again in range. */
  lemma SubCallFits(tw: seq<Cpx>, s: seq<Cpx>, o: int, f: seq<Cpx>, off: int, fs: int, inStride: int,
                    p: int, m: int, q: int, p': int, m': int)
    requires Fits(tw, s, o, p, m, fs) && Readable(f, off, fs * inStride, p * m) && inStride >= 0
    requires 0 <= q < p && p' >= 1 && m' >= 1 && p' * m' == m
    ensures o + q * m >= 0 && off + q * (fs * inStride) >= 0
    ensures Fits(tw, s, o + q * m, p', m', fs * p)
    ensures Readable(f, off + q * (fs * inStride), (fs * p) * inStride, p' * m')
    ensures (fs * p) * inStride == p * (fs * inStride) && fs * p == p * fs
  {
    SubCallTable(p, m, fs, p', m');
    var stride := fs * inStride;
    assert (fs * p) * inStride == p * stride;
    MulMonotone(0, q, m);
    MulMonotone(q + 1, p, m);
    assert (q + 1) * m == q * m + m;
    MulMonotone(0, q, stride);
    SubCallInput(off, stride, p, m, q);
    MulMonotone(1, p, fs);
    MulMonotone(0, p, stride);
  }

  lemma SubCallTable(p: int, m: int, fs: int, p': int, m': int)
    requires p' * m' == m
    ensures p' * (m' * (fs * p)) == p * (m * fs)
  {
    assert p' * (m' * (fs * p)) == (p' * m') * (fs * p);
  }

  lemma SubCallInput(off: int, stride: int, p: int, m: int, q: int)
    requires stride >= 0 && 0 <= q < p
    ensures off + q * stride + (m - 1) * (p * stride) <= off + (p * m - 1) * stride
  {
    assert q * stride + (m - 1) * (p * stride) == (q + (m - 1) * p) * stride;
    assert (m - 1) * p == p * m - p;
    MulMonotone(q + (m - 1) * p, p * m - 1, stride);
  }

  lemma SplitsParts(factors: seq<int>)
    requires |factors| >= 2 && Splits(factors, factors[0] * factors[1]) && factors[1] != 1
    ensures |factors| >= 4 && factors[2] >= 1 && factors[3] >= 1 && factors[2] * factors[3] == factors[1]
    ensures Splits(factors[2..], factors[2] * factors[3])
  {}

  lemma FitsPositive(tw: seq<Cpx>, s: seq<Cpx>, o: int, p: int, m: int, fs: int)
    requires Fits(tw, s, o, p, m, fs)
    ensures |tw| > 0 && p >= 1 && m >= 1 && fs >= 1
  {}

  lemma FitsSameLength(tw: seq<Cpx>, s: seq<Cpx>, t: seq<Cpx>, o: int, p: int, m: int, fs: int)
    requires Fits(tw, s, o, p, m, fs) && |s| == |t|
    ensures Fits(tw, t, o, p, m, fs)
  {}

  lemma CopyFits(tw: seq<Cpx>, s: seq<Cpx>, o: int, p: int, fs: int, q: int)
    requires Fits(tw, s, o, p, 1, fs) && 0 <= q < p
    ensures 0 <= o + q < |s|
  {}

  lemma ExactLaws(st: Config)
    requires Exact(st)
    ensures TwiddleLaws(st.twiddles, st.inverse) && |st.twiddles| > 0
  {}

  method KfWork(Fout: array<Cpx>, o: nat, f: array<Cpx>, off: nat, fstride: nat, inStride: nat, factors: seq<int>,
      st: Config)
    requires Exact(st) && Fout != f
    requires |factors| >= 2 && Splits(factors, factors[0] * factors[1])
    requires Fits(st.twiddles, Fout[..], o, factors[0], factors[1], fstride)
    requires Readable(f[..], off, fstride * inStride, factors[0] * factors[1])
    modifies Fout
    ensures Fout[..] ==
            Transformed(st.twiddles, old(Fout[..]), o, f[..], off, fstride * inStride, fstride, factors[0] * factors[1])
    decreases |factors|
  {
    hide Exact, Splits, Fits, Readable, Transformed, Gathered, Staged, TwiddleLaws, At;
    ghost var tw, s, input := st.twiddles, Fout[..], f[..];
    FitsPositive(tw, s, o, factors[0], factors[1], fstride);
    ExactLaws(st);
    var p, m := factors[0], factors[1];
    ghost var stride := fstride * inStride;
    GatheredNone(tw, s, o, input, off, stride, p, m, fstride);
    if m == 1 {
      CopySamples(Fout, o, f, off, fstride, inStride, p, st);
    } else {
      SubTransforms(Fout, o, f, off, fstride, inStride, factors, st);
    }
    ghost var cur := Fout[..];
    StageFinishes(tw, st.inverse, s, o, input, off, stride, p, m, fstride, cur);
    FitsSameLength(tw, s, cur, o, p, m, fstride);
    Recombine(Fout, o, fstride, st, m, p);
  }

  lemma NextMultiple(q: int, x: int)
    ensures (q + 1) * x == q * x + x
  {}

  /** The leaf loop of `kf_work`: with m == 1 the samples are copied. */
  method CopySamples(Fout: array<Cpx>, o: nat, f: array<Cpx>, off: nat, fstride: nat, inStride: nat, p: nat, st: Config)
    requires Exact(st) && Fout != f && |st.twiddles| > 0
    requires Fits(st.twiddles, Fout[..], o, p, 1, fstride)
    requires Readable(f[..], off, fstride * inStride, p * 1)
    modifies Fout
    ensures Fout[..] == Gathered(st.twiddles, old(Fout[..]), o, f[..], off, fstride * inStride, p, 1, fstride, p)
  {
    hide Exact, Fits, Readable, Gathered, TwiddleLaws;
    ghost var tw, s, input := st.twiddles, Fout[..], f[..];
    ghost var stride := fstride * inStride;
    ExactLaws(st);
    GatheredNone(tw, s, o, input, off, stride, p, 1, fstride);
    var fp := off;
    for q := 0 to p
      invariant fp == off + q * stride
      invariant Fout[..] == Gathered(tw, s, o, input, off, stride, p, 1, fstride, q)
    {
      SampleReadable(input, off, stride, p * 1, q);
      CopyFits(tw, s, o, p, fstride, q);
      ghost var cur := Fout[..];
      Fout[o + q] := f[fp];
      fp := fp + fstride * inStride;
      CopiedIsGathered(tw, st.inverse, s, o, input, off, stride, p, fstride, q, cur, Fout[..]);
    }
  }

  /** The recursive loop of `kf_work`: p transforms of length m, each on a decimated input. */
  method SubTransforms(Fout: array<Cpx>, o: nat, f: array<Cpx>, off: nat, fstride: nat, inStride: nat,
      factors: seq<int>, st: Config)
    requires Exact(st) && Fout != f && |st.twiddles| > 0
    requires |factors| >= 2 && Splits(factors, factors[0] * factors[1]) && factors[0] >= 1 && factors[1] > 1
    requires Fits(st.twiddles, Fout[..], o, factors[0], factors[1], fstride)
    requires Readable(f[..], off, fstride * inStride, factors[0] * factors[1])
    modifies Fout
    ensures Fout[..] == Gathered(st.twiddles, old(Fout[..]), o, f[..], off, fstride * inStride,
                                 factors[0], factors[1], fstride, factors[0])
    decreases |factors|, 0
  {
    hide Exact, Splits, Fits, Readable, Gathered, Transformed, TwiddleLaws, Dft, At;
    ghost var tw, s, input := st.twiddles, Fout[..], f[..];
    ghost var stride := fstride * inStride;
    var p, m := factors[0], factors[1];
    SplitsParts(factors);
    GatheredNone(tw, s, o, input, off, stride, p, m, fstride);
    var fp, fo := off, o;
    for q := 0 to p
      invariant fp == off + q * stride && fo == o + q * m
      invariant Fout[..] == Gathered(tw, s, o, input, off, stride, p, m, fstride, q)
    {
      ghost var cur := Fout[..];
      SubCallFits(tw, s, o, input, off, fstride, inStride, p, m, q, factors[2], factors[3]);
      FitsSameLength(tw, s, cur, o + q * m, factors[2], factors[3], fstride * p);
      GatheredNext(tw, s, o, input, off, stride, p, m, fstride, q, cur);
      KfWork(Fout, fo, f, fp, fstride * p, inStride, factors[2..], st);
      NextMultiple(q, stride);
      NextMultiple(q, m);
      fp := fp + fstride * inStride;
      fo := fo + m;
    }
  }

  /** `switch (p)`: every radix gives the same stage. */
  method Recombine(Fout: array<Cpx>, o: nat, fstride: nat, st: Config, m: nat, p: nat)
    requires Exact(st) && Fits(st.twiddles, Fout[..], o, p, m, fstride)
    modifies Fout
    ensures Fout[..] == Staged(st.twiddles, old(Fout[..]), o, p, m, fstride, m)
  {
    match p
    case 2 => Bfly2(Fout, o, fstride, st, m);
    case 3 => Bfly3(Fout, o, fstride, st, m);
    case 4 => Bfly4(Fout, o, fstride, st, m);
    case 5 => Bfly5(Fout, o, fstride, st, m);
    case _ => BflyGeneric(Fout, o, fstride, st, m, p);
  }
}
