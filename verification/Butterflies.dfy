/**
 The five butterflies of kiss_fft.c. Each works in place on a window of the output array and is
 proved to turn the buffer `s` into `Staged(..., s, ...)`: same result, whichever one is picked.
 */
module Butterflies {
  import opened Arithmetic
  import opened Complex
  import opened Twiddles
  import opened Stage
  import opened SmallRadix

  /** `struct kiss_fft_state`; constant once allocated. */
  datatype Config = Config(nfft: nat, inverse: bool, factors: seq<int>, twiddles: seq<Cpx>)

  ghost predicate Exact(st: Config)
  {
    st.nfft == |st.twiddles| && TwiddleLaws(st.twiddles, st.inverse)
  }

  /** Every twiddle a stage reads lies inside the table. */
  lemma TwiddleIndex(tw: seq<Cpx>, s: seq<Cpx>, o: int, p: int, m: int, fs: int, u: int, q: int)
    requires Fits(tw, s, o, p, m, fs) && 0 <= u < m && 0 <= q < p
    ensures 0 <= q * (u * fs) < |tw| && W(tw, q * (u * fs)) == tw[q * (u * fs)]
  {
    hide W;
    MulMonotone(0, u, fs);
    MulMonotone(u, m - 1, fs);
    assert (m - 1) * fs == m * fs - fs;
    MulMonotone(0, q, u * fs);
    MulMonotone(q, p - 1, u * fs);
    assert (p - 1) * (u * fs) == p * (u * fs) - u * fs;
    MulMonotone(u * fs, m * fs - 1, p);
    assert p * (m * fs - 1) == p * (m * fs) - p;
    WDirect(tw, q * (u * fs));
  }

  lemma CellOf(i: int, p: int, m: int)
    requires 0 <= i < p * m && m > 0
    ensures 0 <= i / m < p && Cell(m, i / m, i % m) == i
  {
    DivInRange(i, p, m);
  }

  /** The buffer `next` differs from `cur` only at `idx`, the column u, which holds the stage's outputs. */
  ghost predicate Wrote(tw: seq<Cpx>, s: seq<Cpx>, o: int, m: int, fs: int, u: int,
                        cur: seq<Cpx>, next: seq<Cpx>, idx: seq<int>)
    requires |tw| > 0 && m > 0
  {
    && |s| == |cur| == |next|
    && (forall q :: 0 <= q < |idx| ==> idx[q] == o + Cell(m, q, u))
    && (forall q :: 0 <= q < |idx| && 0 <= idx[q] < |next| ==>
          next[idx[q]] == Recombined(tw, s, o, |idx|, m, fs, Cell(m, q, u)))
    && (forall i :: 0 <= i < |next| && i !in idx ==> next[i] == cur[i])
  }

  lemma InColumn(tw: seq<Cpx>, s: seq<Cpx>, o: int, m: int, fs: int, u: int,
                 cur: seq<Cpx>, next: seq<Cpx>, idx: seq<int>, i: int)
    requires |tw| > 0 && 0 <= u < m && Wrote(tw, s, o, m, fs, u, cur, next, idx)
    requires 0 <= i < |s| && o <= i < o + |idx| * m && (i - o) % m == u
    ensures next[i] == Recombined(tw, s, o, |idx|, m, fs, i - o)
  {
    hide Recombined, Cell;
    CellOf(i - o, |idx|, m);
    assert idx[(i - o) / m] == i;
  }

  lemma OffColumn(tw: seq<Cpx>, s: seq<Cpx>, o: int, m: int, fs: int, u: int,
                  cur: seq<Cpx>, next: seq<Cpx>, idx: seq<int>, i: int)
    requires |tw| > 0 && 0 <= u < m && Wrote(tw, s, o, m, fs, u, cur, next, idx)
    requires 0 <= i < |s| && !(o <= i < o + |idx| * m && (i - o) % m == u)
    ensures next[i] == cur[i]
  {
    hide Recombined, Cell;
    forall q | 0 <= q < |idx| ensures idx[q] != i {
      ColumnIndex(q, |idx|, m, u);
    }
  }

  lemma ColumnWritten(tw: seq<Cpx>, s: seq<Cpx>, o: int, m: int, fs: int, u: int,
                      cur: seq<Cpx>, next: seq<Cpx>, idx: seq<int>)
    requires Fits(tw, s, o, |idx|, m, fs) && |tw| > 0 && 0 <= u < m
    requires cur == Staged(tw, s, o, |idx|, m, fs, u) && Wrote(tw, s, o, m, fs, u, cur, next, idx)
    ensures next == Staged(tw, s, o, |idx|, m, fs, u + 1)
  {
    assert |next| == |s|;
    hide Recombined, Staged, Wrote, Fits;
    var p := |idx|;
    forall i | 0 <= i < |s| && o <= i < o + p * m && (i - o) % m == u
      ensures next[i] == Recombined(tw, s, o, p, m, fs, i - o)
    {
      InColumn(tw, s, o, m, fs, u, cur, next, idx, i);
    }
    forall i | 0 <= i < |s| && !(o <= i < o + p * m && (i - o) % m == u)
      ensures next[i] == cur[i]
    {
      OffColumn(tw, s, o, m, fs, u, cur, next, idx, i);
    }
    StageStep(tw, s, o, p, m, fs, u, next);
  }

  /** Where a column sits in the buffer, and that its twiddles sit in the table. */
  lemma ColumnBounds(tw: seq<Cpx>, s: seq<Cpx>, o: int, p: nat, m: int, fs: int, u: int, cur: seq<Cpx>)
    requires Fits(tw, s, o, p, m, fs) && |tw| > 0 && 0 <= u < m
    requires cur == Staged(tw, s, o, p, m, fs, u)
    ensures |cur| == |s|
    ensures forall q :: 0 <= q < p ==>
            0 <= o + Cell(m, q, u) < |s| && cur[o + Cell(m, q, u)] == At(s, o + Cell(m, q, u))
    ensures forall q :: 1 <= q < p ==>
            0 <= Cell(u * fs, q, 0) < |tw| && W(tw, Cell(u * fs, q, 0)) == tw[Cell(u * fs, q, 0)]
  {
    hide Staged, W;
    forall q | 0 <= q < p
      ensures 0 <= o + Cell(m, q, u) < |s| && cur[o + Cell(m, q, u)] == At(s, o + Cell(m, q, u))
    {
      Untouched(tw, s, o, p, m, fs, u, q);
    }
    forall q | 1 <= q < p
      ensures 0 <= Cell(u * fs, q, 0) < |tw| && W(tw, Cell(u * fs, q, 0)) == tw[Cell(u * fs, q, 0)]
    {
      TwiddleIndex(tw, s, o, p, m, fs, u, q);
    }
  }

  lemma FitsNonempty(tw: seq<Cpx>, s: seq<Cpx>, o: int, p: int, m: int, fs: int)
    requires Fits(tw, s, o, p, m, fs)
    ensures |tw| > 0 && m > 0
  {}

  /** `next` is `cur` with the values v written at the positions idx. */
  ghost predicate Overwrites(cur: seq<Cpx>, next: seq<Cpx>, idx: seq<int>, v: seq<Cpx>)
  {
    && |next| == |cur| && |idx| == |v|
    && (forall q :: 0 <= q < |idx| ==> 0 <= idx[q] < |next| && next[idx[q]] == v[q])
    && (forall i :: 0 <= i < |next| && i !in idx ==> next[i] == cur[i])
  }

  /** The inputs of column u as the C code reads and turns them. */
  ghost predicate TurnedInputs(tw: seq<Cpx>, o: int, m: int, fs: int, u: int, cur: seq<Cpx>, c: seq<Cpx>)
  {
    forall q :: 0 <= q < |c| ==>
      && 0 <= o + Cell(m, q, u) < |cur| && 0 <= Cell(u * fs, q, 0) < |tw|
      && c[q] == if q == 0 then cur[o + u] else Mul(cur[o + Cell(m, q, u)], tw[Cell(u * fs, q, 0)])
  }

  lemma InputsTurned(tw: seq<Cpx>, s: seq<Cpx>, o: int, m: int, fs: int, u: int, cur: seq<Cpx>, c: seq<Cpx>)
    requires Fits(tw, s, o, |c|, m, fs) && |c| > 0 && |tw| > 0 && 0 <= u < m
    requires cur == Staged(tw, s, o, |c|, m, fs, u) && TurnedInputs(tw, o, m, fs, u, cur, c)
    ensures Turned(tw, s, o, m, fs, u, c)
  {
    hide Staged, W, Mul, Fits, At;
    ColumnBounds(tw, s, o, |c|, m, fs, u, cur);
    assert Cell(m, 0, u) == u;
  }

  /** The root of unity a butterfly reads once, before its loop. */
  lemma StageRoot(tw: seq<Cpx>, s: seq<Cpx>, o: int, p: int, m: int, fs: int, q: int)
    requires Fits(tw, s, o, p, m, fs) && 1 <= q < p
    ensures 0 <= fs * q * m < |tw| && tw[fs * q * m] == W(tw, q * (m * fs))
  {
    hide W;
    Reassociate(fs, q, m);
    MulMonotone(1, m, fs);
    ProperMultiple(q, p, m * fs);
    WDirect(tw, q * (m * fs));
  }

  lemma Reassociate(fs: int, q: int, m: int)
    ensures fs * q * m == q * (m * fs)
  {}

  lemma ProperMultiple(q: int, p: int, z: int)
    requires 0 <= q < p && z >= 1
    ensures 0 <= q * z < p * z
  {
    MulMonotone(0, q, z);
    MulMonotone(q, p - 1, z);
    assert (p - 1) * z == p * z - z;
  }

  // ---------- Radix 2 ----------

  /** What the radix-2 loop body makes of the turned inputs of one column. */
  ghost function Kernel2(c: seq<Cpx>): (v: seq<Cpx>)
    requires |c| == 2
    ensures |v| == 2
  {
    [Add(c[0], c[1]), Sub(c[0], c[1])]
  }

  lemma Kernel2Correct(c: seq<Cpx>)
    requires |c| == 2
    ensures Kernel2(c)[0] == Add(c[0], Mul(c[1], ONE))
    ensures Kernel2(c)[1] == Add(c[0], Mul(c[1], Cpx(-1.0, 0.0)))
  {}

  lemma Step2(st: Config, s: seq<Cpx>, o: int, m: int, fs: int, u: int, cur: seq<Cpx>, next: seq<Cpx>, c: seq<Cpx>)
    requires Exact(st) && Fits(st.twiddles, s, o, 2, m, fs) && 0 <= u < m && |c| == 2
    requires cur == Staged(st.twiddles, s, o, 2, m, fs, u)
    requires TurnedInputs(st.twiddles, o, m, fs, u, cur, c)
    requires Overwrites(cur, next, [o + u, o + u + m], Kernel2(c))
    ensures next == Staged(st.twiddles, s, o, 2, m, fs, u + 1)
  {
    hide Staged, Recombined, W, Mul, Add, Sub, Conj, TwiddleLaws, Fits, Turned, TurnedInputs, Kernel2, Turn5;
    var tw := st.twiddles;
    FitsNonempty(tw, s, o, 2, m, fs);
    InputsTurned(tw, s, o, m, fs, u, cur, c);
    Rows2(tw, st.inverse, s, o, m, fs, u, c);
    Kernel2Correct(c);
    ColumnWritten(tw, s, o, m, fs, u, cur, next, [o + u, o + u + m]);
  }

  method Bfly2(Fout: array<Cpx>, o: nat, fstride: nat, st: Config, m: nat)
    requires Exact(st) && Fits(st.twiddles, Fout[..], o, 2, m, fstride)
    modifies Fout
    ensures Fout[..] == Staged(st.twiddles, old(Fout[..]), o, 2, m, fstride, m)
  {
    hide Staged, Recombined, W, Mul, Add, Sub, SMul, MulByScalar, TwiddleLaws, Fits;
    ghost var s := Fout[..];
    FitsNonempty(st.twiddles, s, o, 2, m, fstride);
    StagedNone(st.twiddles, s, o, 2, m, fstride);
    var u, tw1 := 0, 0;
    while u < m
      invariant 0 <= u <= m && tw1 == u * fstride
      invariant Fout[..] == Staged(st.twiddles, s, o, 2, m, fstride, u)
    {
      ghost var cur := Fout[..];
      ColumnBounds(st.twiddles, s, o, 2, m, fstride, u, cur);
      var f0, f1 := o + u, o + u + m;
      assert f0 == o + Cell(m, 0, u) && f1 == o + Cell(m, 1, u);
      assert tw1 == Cell(u * fstride, 1, 0);
      ghost var c := [Fout[f0], Mul(Fout[f1], st.twiddles[Cell(u * fstride, 1, 0)])];
      var t := Mul(Fout[f1], st.twiddles[tw1]);
      tw1 := tw1 + fstride;
      Fout[f1] := Sub(Fout[f0], t);
      Fout[f0] := Add(Fout[f0], t);
      Step2(st, s, o, m, fstride, u, cur, Fout[..], c);
      u := u + 1;
    }
  }

  // ---------- Radix 3 ----------

  /** What the radix-3 loop body makes of the turned inputs of one column. */
  ghost function Kernel3(c: seq<Cpx>, e: real): (v: seq<Cpx>)
    requires |c| == 3
    ensures |v| == 3
  {
    var s3 := Add(c[1], c[2]);
    var s0 := MulByScalar(Sub(c[1], c[2]), e);
    [Add(c[0], s3),
     Cpx(c[0].r - s3.r / 2.0 - s0.i, c[0].i - s3.i / 2.0 + s0.r),
     Cpx(c[0].r - s3.r / 2.0 + s0.i, c[0].i - s3.i / 2.0 - s0.r)]
  }

  lemma Kernel3Correct(c: seq<Cpx>, w: Cpx)
    requires |c| == 3 && w.r == -0.5
    ensures Kernel3(c, w.i)[0] == Add(Add(c[0], Mul(c[1], ONE)), Mul(c[2], ONE))
    ensures Kernel3(c, w.i)[1] == Add(Add(c[0], Mul(c[1], w)), Mul(c[2], Conj(w)))
    ensures Kernel3(c, w.i)[2] == Add(Add(c[0], Mul(c[1], Conj(w))), Mul(c[2], w))
  {}

  lemma Step3(st: Config, s: seq<Cpx>, o: int, m: int, fs: int, u: int, cur: seq<Cpx>, next: seq<Cpx>, c: seq<Cpx>)
    requires Exact(st) && Fits(st.twiddles, s, o, 3, m, fs) && 0 <= u < m && |c| == 3
    requires cur == Staged(st.twiddles, s, o, 3, m, fs, u)
    requires TurnedInputs(st.twiddles, o, m, fs, u, cur, c)
    requires Overwrites(cur, next, [o + u, o + u + m, o + u + 2 * m], Kernel3(c, W(st.twiddles, m * fs).i))
    ensures next == Staged(st.twiddles, s, o, 3, m, fs, u + 1)
  {
    hide Staged, Recombined, W, Mul, Add, Sub, Conj, TwiddleLaws, Fits, Turned, TurnedInputs, Kernel3, Turn5;
    var tw := st.twiddles;
    FitsNonempty(tw, s, o, 3, m, fs);
    InputsTurned(tw, s, o, m, fs, u, cur, c);
    var w := W(tw, m * fs);
    Rows3(tw, st.inverse, s, o, m, fs, u, c, w);
    Kernel3Correct(c, w);
    ColumnWritten(tw, s, o, m, fs, u, cur, next, [o + u, o + u + m, o + u + 2 * m]);
  }

  lemma Addresses3(tw: seq<Cpx>, s: seq<Cpx>, o: int, m: int, fs: int, u: int, cur: seq<Cpx>)
    requires Fits(tw, s, o, 3, m, fs) && |tw| > 0 && 0 <= u < m
    requires cur == Staged(tw, s, o, 3, m, fs, u)
    ensures 0 <= o + u < o + u + m < o + u + 2 * m < |cur|
    ensures 0 <= u * fs <= 2 * (u * fs) < |tw|
    ensures TurnedInputs(tw, o, m, fs, u, cur,
            [cur[o + u], Mul(cur[o + u + m], tw[u * fs]), Mul(cur[o + u + 2 * m], tw[2 * (u * fs)])])
  {
    hide Staged, W, Mul, Fits;
    FitsNonempty(tw, s, o, 3, m, fs);
    ColumnBounds(tw, s, o, 3, m, fs, u, cur);
    assert Cell(m, 0, u) == u && Cell(m, 1, u) == u + m && Cell(m, 2, u) == u + 2 * m;
    assert Cell(u * fs, 0, 0) == 0 && Cell(u * fs, 1, 0) == u * fs && Cell(u * fs, 2, 0) == 2 * (u * fs);
  }

  lemma Overwrites3(cur: seq<Cpx>, next: seq<Cpx>, f0: int, f1: int, f2: int, v: seq<Cpx>, t: Cpx)
    requires 0 <= f0 < f1 < f2 < |cur| && |v| == 3
    requires next == cur[f1 := t][f0 := v[0]][f2 := v[2]][f1 := v[1]]
    ensures Overwrites(cur, next, [f0, f1, f2], v)
  {}

  method Bfly3(Fout: array<Cpx>, o: nat, fstride: nat, st: Config, m: nat)
    requires Exact(st) && Fits(st.twiddles, Fout[..], o, 3, m, fstride)
    modifies Fout
    ensures Fout[..] == Staged(st.twiddles, old(Fout[..]), o, 3, m, fstride, m)
  {
    hide Staged, Recombined, W, Mul, Add, Sub, SMul, MulByScalar, TwiddleLaws, Fits, TurnedInputs, Overwrites;
    ghost var s := Fout[..];
    FitsNonempty(st.twiddles, s, o, 3, m, fstride);
    StagedNone(st.twiddles, s, o, 3, m, fstride);
    StageRoot(st.twiddles, s, o, 3, m, fstride, 1);
    var epi3 := st.twiddles[fstride * m];
    var u, tw1, tw2 := 0, 0, 0;
    while u < m
      invariant 0 <= u <= m && tw1 == u * fstride && tw2 == 2 * (u * fstride)
      invariant Fout[..] == Staged(st.twiddles, s, o, 3, m, fstride, u)
    {
      ghost var cur := Fout[..];
      Addresses3(st.twiddles, s, o, m, fstride, u, cur);
      var f0, f1, f2 := o + u, o + u + m, o + u + 2 * m;
      ghost var c := [Fout[f0], Mul(Fout[f1], st.twiddles[tw1]), Mul(Fout[f2], st.twiddles[tw2])];
      var scratch1 := Mul(Fout[f1], st.twiddles[tw1]);
      var scratch2 := Mul(Fout[f2], st.twiddles[tw2]);
      var scratch3 := Add(scratch1, scratch2);
      var scratch0 := Sub(scratch1, scratch2);
      tw1 := tw1 + fstride;
      tw2 := tw2 + fstride * 2;
      Fout[f1] := Cpx(Fout[f0].r - scratch3.r / 2.0, Fout[f0].i - scratch3.i / 2.0);
      ghost var half := Fout[f1];
      scratch0 := MulByScalar(scratch0, epi3.i);
      Fout[f0] := Add(Fout[f0], scratch3);
      Fout[f2] := Cpx(Fout[f1].r + scratch0.i, Fout[f1].i - scratch0.r);
      Fout[f1] := Cpx(Fout[f1].r - scratch0.i, Fout[f1].i + scratch0.r);
      Overwrites3(cur, Fout[..], f0, f1, f2, Kernel3(c, epi3.i), half);
      Step3(st, s, o, m, fstride, u, cur, Fout[..], c);
      u := u + 1;
    }
  }

  // ---------- Radix 4 ----------

  /** What the radix-4 loop body makes of the turned inputs of one column. */
  ghost function Kernel4(c: seq<Cpx>, inverse: bool): (v: seq<Cpx>)
    requires |c| == 4
    ensures |v| == 4
  {
    var s5 := Sub(c[0], c[2]);
    var s0 := Add(c[0], c[2]);
    var s3 := Add(c[1], c[3]);
    var s4 := Sub(c[1], c[3]);
    var up := Cpx(s5.r - s4.i, s5.i + s4.r);
    var down := Cpx(s5.r + s4.i, s5.i - s4.r);
    if inverse then [Add(s0, s3), up, Sub(s0, s3), down] else [Add(s0, s3), down, Sub(s0, s3), up]
  }

  lemma Kernel4Correct(c: seq<Cpx>, inverse: bool, w: Cpx, n: Cpx)
    requires |c| == 4 && w == (if inverse then Cpx(0.0, 1.0) else Cpx(0.0, -1.0)) && n == Cpx(-1.0, 0.0)
    ensures Kernel4(c, inverse)[0] == Add(Add(Add(c[0], Mul(c[1], ONE)), Mul(c[2], ONE)), Mul(c[3], ONE))
    ensures Kernel4(c, inverse)[1] == Add(Add(Add(c[0], Mul(c[1], w)), Mul(c[2], n)), Mul(c[3], Conj(w)))
    ensures Kernel4(c, inverse)[2] == Add(Add(Add(c[0], Mul(c[1], n)), Mul(c[2], ONE)), Mul(c[3], n))
    ensures Kernel4(c, inverse)[3] == Add(Add(Add(c[0], Mul(c[1], Conj(w))), Mul(c[2], n)), Mul(c[3], w))
  {
    hide Mul;
    QuarterTurns(c[1]);
    QuarterTurns(c[2]);
    QuarterTurns(c[3]);
  }

  lemma Step4(st: Config, s: seq<Cpx>, o: int, m: int, fs: int, u: int, cur: seq<Cpx>, next: seq<Cpx>, c: seq<Cpx>)
    requires Exact(st) && Fits(st.twiddles, s, o, 4, m, fs) && 0 <= u < m && |c| == 4
    requires cur == Staged(st.twiddles, s, o, 4, m, fs, u)
    requires TurnedInputs(st.twiddles, o, m, fs, u, cur, c)
    requires Overwrites(cur, next, [o + u, o + u + m, o + u + 2 * m, o + u + 3 * m], Kernel4(c, st.inverse))
    ensures next == Staged(st.twiddles, s, o, 4, m, fs, u + 1)
  {
    hide Staged, Recombined, W, Mul, Add, Sub, Conj, TwiddleLaws, Fits, Turned, TurnedInputs, Kernel4, Turn5;
    var tw := st.twiddles;
    FitsNonempty(tw, s, o, 4, m, fs);
    InputsTurned(tw, s, o, m, fs, u, cur, c);
    var w := if st.inverse then Cpx(0.0, 1.0) else Cpx(0.0, -1.0);
    var n := Cpx(-1.0, 0.0);
    Rows4(tw, st.inverse, s, o, m, fs, u, c, w, n);
    Kernel4Correct(c, st.inverse, w, n);
    ColumnWritten(tw, s, o, m, fs, u, cur, next, [o + u, o + u + m, o + u + 2 * m, o + u + 3 * m]);
  }

  lemma Addresses4(tw: seq<Cpx>, s: seq<Cpx>, o: int, m: int, fs: int, u: int, cur: seq<Cpx>)
    requires Fits(tw, s, o, 4, m, fs) && |tw| > 0 && 0 <= u < m
    requires cur == Staged(tw, s, o, 4, m, fs, u)
    ensures 0 <= o + u < o + u + m < o + u + 2 * m < o + u + 3 * m < |cur|
    ensures 0 <= u * fs <= 2 * (u * fs) <= 3 * (u * fs) < |tw|
    ensures TurnedInputs(tw, o, m, fs, u, cur,
            [cur[o + u], Mul(cur[o + u + m], tw[u * fs]), Mul(cur[o + u + 2 * m], tw[2 * (u * fs)]),
            Mul(cur[o + u + 3 * m], tw[3 * (u * fs)])])
  {
    hide Staged, W, Mul, Fits;
    FitsNonempty(tw, s, o, 4, m, fs);
    ColumnBounds(tw, s, o, 4, m, fs, u, cur);
    assert Cell(m, 0, u) == u && Cell(m, 1, u) == u + m && Cell(m, 2, u) == u + 2 * m && Cell(m, 3, u) == u + 3 * m;
    assert Cell(u * fs, 0, 0) == 0 && Cell(u * fs, 1, 0) == u * fs && Cell(u * fs, 2, 0) == 2 * (u * fs)
           && Cell(u * fs, 3, 0) == 3 * (u * fs);
  }

  lemma Overwrites4(cur: seq<Cpx>, next: seq<Cpx>, f0: int, f1: int, f2: int, f3: int, v: seq<Cpx>, t: Cpx)
    requires 0 <= f0 < f1 < f2 < f3 < |cur| && |v| == 4
    requires next == cur[f0 := t][f2 := v[2]][f0 := v[0]][f1 := v[1]][f3 := v[3]]
    ensures Overwrites(cur, next, [f0, f1, f2, f3], v)
  {}

  method Bfly4(Fout: array<Cpx>, o: nat, fstride: nat, st: Config, m: nat)
    requires Exact(st) && Fits(st.twiddles, Fout[..], o, 4, m, fstride)
    modifies Fout
    ensures Fout[..] == Staged(st.twiddles, old(Fout[..]), o, 4, m, fstride, m)
  {
    hide Staged, Recombined, W, Mul, Add, Sub, SMul, MulByScalar, TwiddleLaws, Fits, TurnedInputs, Overwrites;
    ghost var s := Fout[..];
    FitsNonempty(st.twiddles, s, o, 4, m, fstride);
    StagedNone(st.twiddles, s, o, 4, m, fstride);
    var u, tw1, tw2, tw3 := 0, 0, 0, 0;
    while u < m
      invariant 0 <= u <= m && tw1 == u * fstride && tw2 == 2 * (u * fstride) && tw3 == 3 * (u * fstride)
      invariant Fout[..] == Staged(st.twiddles, s, o, 4, m, fstride, u)
    {
      ghost var cur := Fout[..];
      Addresses4(st.twiddles, s, o, m, fstride, u, cur);
      var f0, f1, f2, f3 := o + u, o + u + m, o + u + 2 * m, o + u + 3 * m;
      ghost var c := [Fout[f0], Mul(Fout[f1], st.twiddles[tw1]), Mul(Fout[f2], st.twiddles[tw2]),
          Mul(Fout[f3], st.twiddles[tw3])];
      var scratch0 := Mul(Fout[f1], st.twiddles[tw1]);
      var scratch1 := Mul(Fout[f2], st.twiddles[tw2]);
      var scratch2 := Mul(Fout[f3], st.twiddles[tw3]);
      var scratch5 := Sub(Fout[f0], scratch1);
      Fout[f0] := Add(Fout[f0], scratch1);
      ghost var half := Fout[f0];
      var scratch3 := Add(scratch0, scratch2);
      var scratch4 := Sub(scratch0, scratch2);
      Fout[f2] := Sub(Fout[f0], scratch3);
      tw1 := tw1 + fstride;
      tw2 := tw2 + fstride * 2;
      tw3 := tw3 + fstride * 3;
      Fout[f0] := Add(Fout[f0], scratch3);
      if st.inverse {
        Fout[f1] := Cpx(scratch5.r - scratch4.i, scratch5.i + scratch4.r);
        Fout[f3] := Cpx(scratch5.r + scratch4.i, scratch5.i - scratch4.r);
      } else {
        Fout[f1] := Cpx(scratch5.r + scratch4.i, scratch5.i - scratch4.r);
        Fout[f3] := Cpx(scratch5.r - scratch4.i, scratch5.i + scratch4.r);
      }
      Overwrites4(cur, Fout[..], f0, f1, f2, f3, Kernel4(c, st.inverse), half);
      Step4(st, s, o, m, fstride, u, cur, Fout[..], c);
      u := u + 1;
    }
  }

  // ---------- Radix 5 ----------

  /** What the radix-5 loop body makes of the turned inputs of one column. */
  ghost function Kernel5(c: seq<Cpx>, ya: Cpx, yb: Cpx): (v: seq<Cpx>)
    requires |c| == 5
    ensures |v| == 5
  {
    var (s7, s10) := (Add(c[1], c[4]), Sub(c[1], c[4]));
    var (s8, s9) := (Add(c[2], c[3]), Sub(c[2], c[3]));
    var s5 := Cpx(c[0].r + SMul(s7.r, ya.r) + SMul(s8.r, yb.r), c[0].i + SMul(s7.i, ya.r) + SMul(s8.i, yb.r));
    var s6 := Cpx(SMul(s10.i, ya.i) + SMul(s9.i, yb.i), -SMul(s10.r, ya.i) - SMul(s9.r, yb.i));
    var s11 := Cpx(c[0].r + SMul(s7.r, yb.r) + SMul(s8.r, ya.r), c[0].i + SMul(s7.i, yb.r) + SMul(s8.i, ya.r));
    var s12 := Cpx(-SMul(s10.i, yb.i) + SMul(s9.i, ya.i), SMul(s10.r, yb.i) - SMul(s9.r, ya.i));
    [Cpx(c[0].r + (s7.r + s8.r), c[0].i + (s7.i + s8.i)), Sub(s5, s6), Add(s11, s12), Sub(s11, s12), Add(s5, s6)]
  }

  lemma Kernel5Correct(c: seq<Cpx>, ya: Cpx, yb: Cpx)
    requires |c| == 5
    ensures Kernel5(c, ya, yb)[0] == Turn5(c, ONE, ONE, ONE, ONE)
    ensures Kernel5(c, ya, yb)[1] == Turn5(c, ya, yb, Conj(yb), Conj(ya))
    ensures Kernel5(c, ya, yb)[2] == Turn5(c, yb, Conj(ya), ya, Conj(yb))
    ensures Kernel5(c, ya, yb)[3] == Turn5(c, Conj(yb), ya, Conj(ya), yb)
    ensures Kernel5(c, ya, yb)[4] == Turn5(c, Conj(ya), Conj(yb), yb, ya)
  {
    hide Kernel5, Turn5;
    Kernel5Row0(c, ya, yb);
    Kernel5Row1(c, ya, yb);
    Kernel5Row2(c, ya, yb);
    Kernel5Row3(c, ya, yb);
    Kernel5Row4(c, ya, yb);
  }

  /** Two inputs turned by a root and its conjugate need only their sum and their difference. */
  lemma ConjugatePair(a: Cpx, b: Cpx, w: Cpx)
    ensures Add(Mul(a, w), Mul(b, Conj(w)))
         == Cpx(SMul(Add(a, b).r, w.r) - SMul(Sub(a, b).i, w.i), SMul(Add(a, b).i, w.r) + SMul(Sub(a, b).r, w.i))
    ensures Add(Mul(a, Conj(w)), Mul(b, w))
         == Cpx(SMul(Add(a, b).r, w.r) + SMul(Sub(a, b).i, w.i), SMul(Add(a, b).i, w.r) - SMul(Sub(a, b).r, w.i))
  {
    hide SMul, Mul;
    SMulAdd(a.r, b.r, w.r);
    SMulAdd(a.i, b.i, w.i);
    SMulAdd(a.i, b.i, w.r);
    SMulAdd(a.r, b.r, w.i);
    MulParts(a, w);
    MulParts(a, Conj(w));
    MulParts(b, w);
    MulParts(b, Conj(w));
  }

  lemma SMulAdd(x: real, y: real, z: real)
    ensures SMul(x + y, z) == SMul(x, z) + SMul(y, z)
    ensures SMul(x - y, z) == SMul(x, z) - SMul(y, z)
    ensures SMul(x, -z) == -SMul(x, z) && SMul(y, -z) == -SMul(y, z)
  {}

  lemma MulParts(a: Cpx, b: Cpx)
    ensures Mul(a, b) == Cpx(SMul(a.r, b.r) - SMul(a.i, b.i), SMul(a.r, b.i) + SMul(a.i, b.r))
  {}

  lemma Kernel5Row0(c: seq<Cpx>, ya: Cpx, yb: Cpx)
    requires |c| == 5
    ensures Kernel5(c, ya, yb)[0] == Turn5(c, ONE, ONE, ONE, ONE)
  {}

  lemma Kernel5Row1(c: seq<Cpx>, ya: Cpx, yb: Cpx)
    requires |c| == 5
    ensures Kernel5(c, ya, yb)[1] == Turn5(c, ya, yb, Conj(yb), Conj(ya))
  {
    hide Mul, SMul, Conj;
    ConjugatePair(c[1], c[4], ya);
    ConjugatePair(c[2], c[3], yb);
  }

  lemma Kernel5Row2(c: seq<Cpx>, ya: Cpx, yb: Cpx)
    requires |c| == 5
    ensures Kernel5(c, ya, yb)[2] == Turn5(c, yb, Conj(ya), ya, Conj(yb))
  {
    hide Mul, SMul, Conj;
    ConjugatePair(c[1], c[4], yb);
    ConjugatePair(c[2], c[3], ya);
  }

  lemma Kernel5Row3(c: seq<Cpx>, ya: Cpx, yb: Cpx)
    requires |c| == 5
    ensures Kernel5(c, ya, yb)[3] == Turn5(c, Conj(yb), ya, Conj(ya), yb)
  {
    hide Mul, SMul, Conj;
    ConjugatePair(c[1], c[4], yb);
    ConjugatePair(c[2], c[3], ya);
  }

  lemma Kernel5Row4(c: seq<Cpx>, ya: Cpx, yb: Cpx)
    requires |c| == 5
    ensures Kernel5(c, ya, yb)[4] == Turn5(c, Conj(ya), Conj(yb), yb, ya)
  {
    hide Mul, SMul, Conj;
    ConjugatePair(c[1], c[4], ya);
    ConjugatePair(c[2], c[3], yb);
  }

  lemma Step5(st: Config, s: seq<Cpx>, o: int, m: int, fs: int, u: int, cur: seq<Cpx>, next: seq<Cpx>, c: seq<Cpx>)
    requires Exact(st) && Fits(st.twiddles, s, o, 5, m, fs) && 0 <= u < m && |c| == 5
    requires cur == Staged(st.twiddles, s, o, 5, m, fs, u)
    requires TurnedInputs(st.twiddles, o, m, fs, u, cur, c)
    requires Overwrites(cur, next, [o + u, o + u + m, o + u + 2 * m, o + u + 3 * m, o + u + 4 * m],
             Kernel5(c, W(st.twiddles, m * fs), W(st.twiddles, 2 * (m * fs))))
    ensures next == Staged(st.twiddles, s, o, 5, m, fs, u + 1)
  {
    hide Staged, Recombined, W, Mul, Add, Sub, Conj, TwiddleLaws, Fits, Turned, TurnedInputs, Kernel5, Turn5;
    var tw := st.twiddles;
    FitsNonempty(tw, s, o, 5, m, fs);
    InputsTurned(tw, s, o, m, fs, u, cur, c);
    var ya, yb := W(tw, m * fs), W(tw, 2 * (m * fs));
    Rows5(tw, st.inverse, s, o, m, fs, u, c, ya, yb);
    Kernel5Correct(c, ya, yb);
    ColumnWritten(tw, s, o, m, fs, u, cur, next, [o + u, o + u + m, o + u + 2 * m, o + u + 3 * m, o + u + 4 * m]);
  }

  /** The addresses one radix-5 iteration uses, written out. */
  lemma Addresses5(tw: seq<Cpx>, s: seq<Cpx>, o: int, m: int, fs: int, u: int, cur: seq<Cpx>)
    requires Fits(tw, s, o, 5, m, fs) && |tw| > 0 && 0 <= u < m
    requires cur == Staged(tw, s, o, 5, m, fs, u)
    ensures 0 <= o + u < o + u + m < o + u + 2 * m < o + u + 3 * m < o + u + 4 * m < |cur|
    ensures 0 <= u * fs <= 2 * u * fs <= 3 * u * fs <= 4 * u * fs < |tw|
    ensures TurnedInputs(tw, o, m, fs, u, cur,
              [cur[o + u], Mul(cur[o + u + m], tw[u * fs]), Mul(cur[o + u + 2 * m], tw[2 * u * fs]),
               Mul(cur[o + u + 3 * m], tw[3 * u * fs]), Mul(cur[o + u + 4 * m], tw[4 * u * fs])])
  {
    hide Staged, W, Mul, Fits;
    FitsNonempty(tw, s, o, 5, m, fs);
    ColumnBounds(tw, s, o, 5, m, fs, u, cur);
    assert Cell(m, 0, u) == u && Cell(m, 1, u) == u + m && Cell(m, 2, u) == u + 2 * m;
    assert Cell(m, 3, u) == u + 3 * m && Cell(m, 4, u) == u + 4 * m;
    assert Cell(u * fs, 0, 0) == 0 && Cell(u * fs, 1, 0) == u * fs && Cell(u * fs, 2, 0) == 2 * u * fs;
    assert Cell(u * fs, 3, 0) == 3 * u * fs && Cell(u * fs, 4, 0) == 4 * u * fs;
  }

  lemma Overwrites5(cur: seq<Cpx>, next: seq<Cpx>, f0: int, f1: int, f2: int, f3: int, f4: int, v: seq<Cpx>)
    requires 0 <= f0 < f1 < f2 < f3 < f4 < |cur| && |v| == 5
    requires next == cur[f0 := v[0]][f1 := v[1]][f4 := v[4]][f2 := v[2]][f3 := v[3]]
    ensures Overwrites(cur, next, [f0, f1, f2, f3, f4], v)
  {}

  method Bfly5(Fout: array<Cpx>, o: nat, fstride: nat, st: Config, m: nat)
    requires Exact(st) && Fits(st.twiddles, Fout[..], o, 5, m, fstride)
    modifies Fout
    ensures Fout[..] == Staged(st.twiddles, old(Fout[..]), o, 5, m, fstride, m)
  {
    hide Staged, Recombined, W, Mul, Add, Sub, SMul, MulByScalar, TwiddleLaws, Fits, TurnedInputs, Overwrites;
    ghost var s := Fout[..];
    FitsNonempty(st.twiddles, s, o, 5, m, fstride);
    StagedNone(st.twiddles, s, o, 5, m, fstride);
    StageRoot(st.twiddles, s, o, 5, m, fstride, 1);
    StageRoot(st.twiddles, s, o, 5, m, fstride, 2);
    var ya := st.twiddles[fstride * m];
    var yb := st.twiddles[fstride * 2 * m];
    var u := 0;
    while u < m
      invariant 0 <= u <= m
      invariant Fout[..] == Staged(st.twiddles, s, o, 5, m, fstride, u)
    {
      ghost var cur := Fout[..];
      Addresses5(st.twiddles, s, o, m, fstride, u, cur);
      var f0, f1, f2, f3, f4 := o + u, o + u + m, o + u + 2 * m, o + u + 3 * m, o + u + 4 * m;
      ghost var c := [Fout[f0], Mul(Fout[f1], st.twiddles[u * fstride]), Mul(Fout[f2], st.twiddles[2 * u * fstride]),
                      Mul(Fout[f3], st.twiddles[3 * u * fstride]), Mul(Fout[f4], st.twiddles[4 * u * fstride])];
      var scratch0 := Fout[f0];
      var scratch1 := Mul(Fout[f1], st.twiddles[u * fstride]);
      var scratch2 := Mul(Fout[f2], st.twiddles[2 * u * fstride]);
      var scratch3 := Mul(Fout[f3], st.twiddles[3 * u * fstride]);
      var scratch4 := Mul(Fout[f4], st.twiddles[4 * u * fstride]);
      var scratch7 := Add(scratch1, scratch4);
      var scratch10 := Sub(scratch1, scratch4);
      var scratch8 := Add(scratch2, scratch3);
      var scratch9 := Sub(scratch2, scratch3);
      Fout[f0] := Cpx(Fout[f0].r + (scratch7.r + scratch8.r), Fout[f0].i + (scratch7.i + scratch8.i));
      var scratch5 := Cpx(scratch0.r + SMul(scratch7.r, ya.r) + SMul(scratch8.r, yb.r),
                          scratch0.i + SMul(scratch7.i, ya.r) + SMul(scratch8.i, yb.r));
      var scratch6 := Cpx(SMul(scratch10.i, ya.i) + SMul(scratch9.i, yb.i),
                          -SMul(scratch10.r, ya.i) - SMul(scratch9.r, yb.i));
      Fout[f1] := Sub(scratch5, scratch6);
      Fout[f4] := Add(scratch5, scratch6);
      var scratch11 := Cpx(scratch0.r + SMul(scratch7.r, yb.r) + SMul(scratch8.r, ya.r),
                           scratch0.i + SMul(scratch7.i, yb.r) + SMul(scratch8.i, ya.r));
      var scratch12 := Cpx(-SMul(scratch10.i, yb.i) + SMul(scratch9.i, ya.i),
                           SMul(scratch10.r, yb.i) - SMul(scratch9.r, ya.i));
      Fout[f2] := Add(scratch11, scratch12);
      Fout[f3] := Sub(scratch11, scratch12);
      Overwrites5(cur, Fout[..], f0, f1, f2, f3, f4, Kernel5(c, ya, yb));
      Step5(st, s, o, m, fstride, u, cur, Fout[..], c);
      u := u + 1;
    }
  }

  // ---------- Any radix ----------

  /** The accumulator after q terms of the generic inner loop, for output k. */
  ghost function Partial(tw: seq<Cpx>, s: seq<Cpx>, o: int, m: int, fs: int, k: int, q: nat): Cpx
    requires m > 0 && |tw| > 0
  {
    Sum(q, j => Mul(At(s, o + j * m + k % m), W(tw, j * k * fs)))
  }

  lemma PartialStep(tw: seq<Cpx>, s: seq<Cpx>, o: int, m: int, fs: int, k: int, q: nat, u: int)
    requires |tw| > 0 && 0 <= u < m && k % m == u
    ensures Partial(tw, s, o, m, fs, k, q + 1)
         == Add(Partial(tw, s, o, m, fs, k, q), Mul(At(s, o + Cell(m, q, u)), W(tw, q * k * fs)))
  {
    hide Mul, Add, W, At;
  }

  lemma PartialFirst(tw: seq<Cpx>, inverse: bool, s: seq<Cpx>, o: int, m: int, fs: int, k: int, u: int)
    requires TwiddleLaws(tw, inverse) && 0 <= u < m && k % m == u
    ensures Partial(tw, s, o, m, fs, k, 1) == At(s, o + u)
  {
    hide Mul, W, At, TwiddleLaws, Partial;
    Nonempty(tw, inverse);
    PartialStep(tw, s, o, m, fs, k, 0, u);
    PartialEmpty(tw, s, o, m, fs, k);
    WZero(tw, inverse);
    MulOne(At(s, o + u));
  }

  lemma PartialEmpty(tw: seq<Cpx>, s: seq<Cpx>, o: int, m: int, fs: int, k: int)
    requires m > 0 && |tw| > 0
    ensures Partial(tw, s, o, m, fs, k, 0) == ZERO
  {}

  /** Adding fstride*k once, and subtracting the table length at most once, keeps the index reduced. */
  lemma IndexStep(tw: seq<Cpx>, s: seq<Cpx>, o: int, p: int, m: int, fs: int, k: int, q: int, twidx: int)
    requires Fits(tw, s, o, p, m, fs) && 0 <= k < p * m && |tw| > 0
    requires twidx == (q * k * fs) % |tw|
    ensures 0 <= fs * k < |tw|
    ensures var next := twidx + fs * k;
            (if next >= |tw| then next - |tw| else next) == ((q + 1) * k * fs) % |tw|
  {
    var n := |tw|;
    assert 0 <= fs * k < n by {
      StrideBound(p, m, fs, k);
    }
    assert (q + 1) * k * fs == q * k * fs + fs * k;
    var x := q * k * fs;
    assert x == (x / n) * n + twidx;
    if twidx + fs * k >= n {
      ModUnique(x + fs * k, x / n + 1, twidx + fs * k - n, n);
    } else {
      ModUnique(x + fs * k, x / n, twidx + fs * k, n);
    }
  }

  lemma StrideBound(p: int, m: int, fs: int, k: int)
    requires fs >= 1 && 0 <= k < p * m
    ensures 0 <= fs * k < p * (m * fs)
  {
    MulMonotone(0, k, fs);
    MulMonotone(k, p * m - 1, fs);
    assert (p * m - 1) * fs == p * (m * fs) - fs;
  }

  /** Column u with its first q1 rows recombined. */
  ghost predicate ColumnPartly(tw: seq<Cpx>, s: seq<Cpx>, o: int, p: nat, m: int, fs: int, u: int,
                               cur: seq<Cpx>, next: seq<Cpx>, q1: nat)
    requires m > 0 && |tw| > 0
  {
    && |next| == |cur| == |s|
    && forall i :: 0 <= i < |next| ==>
         next[i] == if o <= i < o + Cell(m, q1, u)
             && (i - o) % m == u then Recombined(tw, s, o, p, m, fs, i - o) else cur[i]
  }

  lemma RowWritten(tw: seq<Cpx>, s: seq<Cpx>, o: int, p: nat, m: int, fs: int, u: int,
                   cur: seq<Cpx>, before: seq<Cpx>, next: seq<Cpx>, q1: nat)
    requires m > 0 && |tw| > 0 && 0 <= u < m && q1 < p
    requires ColumnPartly(tw, s, o, p, m, fs, u, cur, before, q1)
    requires 0 <= o && o + Cell(m, q1, u) < |s|
    requires next == before[o + Cell(m, q1, u) := Recombined(tw, s, o, p, m, fs, Cell(m, q1, u))]
    ensures ColumnPartly(tw, s, o, p, m, fs, u, cur, next, q1 + 1)
  {
    hide Recombined, Cell;
    ColumnIndex(q1, p, m, u);
    NextCell(m, q1, u);
    forall i | 0 <= i < |next|
      ensures next[i] == if o <= i < o + Cell(m, q1 + 1, u) && (i - o) % m == u
                         then Recombined(tw, s, o, p, m, fs, i - o) else cur[i]
    {
      if o + Cell(m, q1, u) < i < o + Cell(m, q1 + 1, u) {
        BetweenCells(m, q1, u, i - o);
      }
    }
  }

  lemma NextCell(m: int, q: int, u: int)
    ensures Cell(m, q + 1, u) == Cell(m, q, u) + m
  {}

  lemma BetweenCells(m: int, q: int, u: int, i: int)
    requires 0 <= u < m && Cell(m, q, u) < i < Cell(m, q + 1, u)
    ensures i % m != u
  {
    var d := i - Cell(m, q, u);
    if u + d < m {
      ModUnique(i, q, u + d, m);
    } else {
      ModUnique(i, q + 1, u + d - m, m);
    }
  }

  lemma ColumnDone(tw: seq<Cpx>, s: seq<Cpx>, o: int, p: nat, m: int, fs: int, u: int, cur: seq<Cpx>, next: seq<Cpx>)
    requires Fits(tw, s, o, p, m, fs) && |tw| > 0 && 0 <= u < m
    requires cur == Staged(tw, s, o, p, m, fs, u) && ColumnPartly(tw, s, o, p, m, fs, u, cur, next, p)
    ensures next == Staged(tw, s, o, p, m, fs, u + 1)
  {
    hide Recombined, Staged, Fits, Cell;
    forall i | 0 <= i < |s| && o <= i < o + p * m && (i - o) % m == u
      ensures next[i] == Recombined(tw, s, o, p, m, fs, i - o)
    {
      LastCell(p, m, u);
    }
    forall i | 0 <= i < |s| && !(o <= i < o + p * m && (i - o) % m == u)
      ensures next[i] == cur[i]
    {
      if o + p * m <= i < o + Cell(m, p, u) {
        LastCell(p, m, u);
        PastWindow(p, m, u, i - o);
      }
    }
    StageStep(tw, s, o, p, m, fs, u, next);
  }

  lemma LastCell(p: int, m: int, u: int)
    requires 0 <= u < m
    ensures p * m <= Cell(m, p, u)
  {}

  lemma PastWindow(p: int, m: int, u: int, i: int)
    requires 0 <= u < m && p * m <= i < Cell(m, p, u)
    ensures i % m != u
  {
    ModUnique(i, p, i - p * m, m);
  }

  /** `kf_bfly_generic`: any radix, by the definition of the p-point transform. */
  method BflyGeneric(Fout: array<Cpx>, o: nat, fstride: nat, st: Config, m: nat, p: nat)
    requires Exact(st) && Fits(st.twiddles, Fout[..], o, p, m, fstride)
    modifies Fout
    ensures Fout[..] == Staged(st.twiddles, old(Fout[..]), o, p, m, fstride, m)
  {
    hide Staged, Recombined, Partial, W, Mul, Add, TwiddleLaws, Fits, ColumnPartly;
    ghost var s := Fout[..];
    FitsNonempty(st.twiddles, s, o, p, m, fstride);
    StagedNone(st.twiddles, s, o, p, m, fstride);
    var scratch := new Cpx[p](_ => ZERO);
    var u := 0;
    while u < m
      invariant 0 <= u <= m
      invariant Fout[..] == Staged(st.twiddles, s, o, p, m, fstride, u)
    {
      GenericColumn(Fout, o, fstride, st, m, p, u, scratch, s);
      u := u + 1;
    }
  }

  /** One iteration of the outer loop of `kf_bfly_generic`. */
  method GenericColumn(Fout: array<Cpx>, o: nat, fstride: nat, st: Config, m: nat, p: nat, u: nat,
      scratch: array<Cpx>, ghost s: seq<Cpx>)
    requires Exact(st) && Fits(st.twiddles, s, o, p, m, fstride) && |st.twiddles| > 0 && u < m
    requires Fout[..] == Staged(st.twiddles, s, o, p, m, fstride, u)
    requires scratch.Length == p && scratch != Fout
    modifies Fout, scratch
    ensures Fout[..] == Staged(st.twiddles, s, o, p, m, fstride, u + 1)
  {
    hide Staged, Recombined, Partial, W, Mul, Add, TwiddleLaws, Fits, ColumnPartly;
    ghost var tw := st.twiddles;
    ghost var cur := Fout[..];
    ColumnBounds(tw, s, o, p, m, fstride, u, cur);
    var k := u;
    for q1 := 0 to p
      invariant k == Cell(m, q1, u)
      invariant Fout[..] == cur
      invariant forall q :: 0 <= q < q1 ==> scratch[q] == At(s, o + Cell(m, q, u))
    {
      scratch[q1] := Fout[o + k];
      k := k + m;
    }
    k := u;
    NothingYet(tw, s, o, p, m, fstride, u, cur);
    for q1 := 0 to p
      invariant k == Cell(m, q1, u)
      invariant ColumnPartly(tw, s, o, p, m, fstride, u, cur, Fout[..], q1)
      invariant forall q :: 0 <= q < p ==> scratch[q] == At(s, o + Cell(m, q, u))
    {
      GenericRow(Fout, o, fstride, st, m, p, u, scratch, k, q1, s, cur);
      k := k + m;
    }
    ColumnDone(tw, s, o, p, m, fstride, u, cur, Fout[..]);
  }

  lemma NothingYet(tw: seq<Cpx>, s: seq<Cpx>, o: int, p: nat, m: int, fs: int, u: int, cur: seq<Cpx>)
    requires |tw| > 0 && 0 <= u < m && |cur| == |s|
    ensures ColumnPartly(tw, s, o, p, m, fs, u, cur, cur, 0)
  {
    hide Recombined;
    forall i | 0 <= i < |cur|
      ensures cur[i] == if o <= i < o + Cell(m, 0, u) && (i - o) % m == u
                        then Recombined(tw, s, o, p, m, fs, i - o) else cur[i]
    {
      if o <= i < o + u {
        ModUnique(i - o, 0, i - o, m);
      }
    }
  }

  lemma PartialAll(tw: seq<Cpx>, s: seq<Cpx>, o: int, m: int, fs: int, k: int, p: nat)
    requires m > 0 && |tw| > 0
    ensures Partial(tw, s, o, m, fs, k, p) == Recombined(tw, s, o, p, m, fs, k)
  {
    hide Mul, Add, W, At;
  }

  lemma RowBounds(tw: seq<Cpx>, s: seq<Cpx>, o: int, p: int, m: int, fs: int, u: int, q: int)
    requires Fits(tw, s, o, p, m, fs) && 0 <= u < m && 0 <= q < p
    ensures 0 <= o + Cell(m, q, u) < |s| && 0 <= Cell(m, q, u) < p * m && Cell(m, q, u) % m == u
  {
    ColumnIndex(q, p, m, u);
  }

  /** One output of the generic butterfly: the inner loop over the p inputs of the column. */
  method GenericRow(Fout: array<Cpx>, o: nat, fstride: nat, st: Config, m: nat, p: nat, u: nat, scratch: array<Cpx>,
                    k: nat, q1: nat, ghost s: seq<Cpx>, ghost cur: seq<Cpx>)
    requires Exact(st) && Fits(st.twiddles, s, o, p, m, fstride) && |st.twiddles| > 0 && u < m && q1 < p
    requires scratch.Length == p && scratch != Fout && k == Cell(m, q1, u)
    requires forall q :: 0 <= q < p ==> scratch[q] == At(s, o + Cell(m, q, u))
    requires ColumnPartly(st.twiddles, s, o, p, m, fstride, u, cur, Fout[..], q1)
    modifies Fout
    ensures ColumnPartly(st.twiddles, s, o, p, m, fstride, u, cur, Fout[..], q1 + 1)
  {
    hide Staged, Recombined, Partial, W, Mul, Add, TwiddleLaws, Fits, ColumnPartly, At, Cell;
    ghost var tw := st.twiddles;
    ghost var before := Fout[..];
    RowBounds(tw, s, o, p, m, fstride, u, q1);
    PartlyLength(tw, s, o, p, m, fstride, u, cur, before, q1);
    FirstCell(m, u);
    PartialFirst(tw, st.inverse, s, o, m, fstride, k, u);
    ZeroMod(k, fstride, |tw|);
    var twidx := 0;
    Fout[o + k] := scratch[0];
    for q := 1 to p
      invariant twidx == ((q - 1) * k * fstride) % |tw|
      invariant Fout[..] == before[o + k := Partial(tw, s, o, m, fstride, k, q)]
    {
      IndexStep(tw, s, o, p, m, fstride, k, q - 1, twidx);
      PartialStep(tw, s, o, m, fstride, k, q, u);
      ReadTable(tw, q * k * fstride);
      twidx := twidx + fstride * k;
      if twidx >= st.nfft {
        twidx := twidx - st.nfft;
      }
      var t := Mul(scratch[q], st.twiddles[twidx]);
      Fout[o + k] := Add(Fout[o + k], t);
    }
    PartialAll(tw, s, o, m, fstride, k, p);
    RowWritten(tw, s, o, p, m, fstride, u, cur, before, Fout[..], q1);
  }

  lemma PartlyLength(tw: seq<Cpx>, s: seq<Cpx>, o: int, p: nat, m: int, fs: int, u: int,
                     cur: seq<Cpx>, next: seq<Cpx>, q1: nat)
    requires m > 0 && |tw| > 0 && ColumnPartly(tw, s, o, p, m, fs, u, cur, next, q1)
    ensures |next| == |s|
  {}

  lemma FirstCell(m: int, u: int)
    ensures Cell(m, 0, u) == u
  {}

  lemma ZeroMod(k: int, fs: int, n: int)
    requires n > 0
    ensures (0 * k * fs) % n == 0
  {
    ModUnique(0, 0, 0, n);
  }

  lemma ReadTable(tw: seq<Cpx>, e: int)
    requires |tw| > 0
    ensures 0 <= e % |tw| < |tw| && W(tw, e) == tw[e % |tw|]
  {}
}
