/**
 One recombination stage of the mixed-radix transform, as a function on the whole output buffer.
 Every butterfly is proved against `Staged`, so all of them compute what the generic one does.
 */
module Stage {
  import opened Arithmetic
  import opened Complex
  import opened Twiddles

  /** Buffer access that is total, so that it can be used below a sum. */
  ghost function At(s: seq<Cpx>, i: int): Cpx
  {
    if 0 <= i < |s| then s[i] else ZERO
  }

  /** A stage of radix p over sub-transforms of length m, at twiddle stride fs. */
  ghost predicate Fits(tw: seq<Cpx>, s: seq<Cpx>, o: int, p: int, m: int, fs: int)
  {
    && p >= 1 && m >= 1 && fs >= 1
    && p * (m * fs) == |tw|
    && 0 <= o && o + p * m <= |s|
  }

  /** Output k of the stage: p sub-transform values, each turned by its twiddle, added up. */
  ghost function Recombined(tw: seq<Cpx>, s: seq<Cpx>, o: int, p: nat, m: int, fs: int, k: int): Cpx
    requires m > 0 && |tw| > 0
  {
    Sum(p, q => Mul(At(s, o + q * m + k % m), W(tw, q * k * fs)))
  }

  /** The buffer when the first u columns of the stage at offset o have been recombined. */
  ghost function Staged(tw: seq<Cpx>, s: seq<Cpx>, o: int, p: nat, m: int, fs: int, u: int): (t: seq<Cpx>)
    requires m > 0 && |tw| > 0
    ensures |t| == |s|
  {
    seq(|s|, i => if o <= i < o + p * m && (i - o) % m < u then Recombined(tw, s, o, p, m, fs, i - o) else At(s, i))
  }

  /** Position, inside the window, of row q of column u. */
  function Cell(m: int, q: int, u: int): int { q * m + u }

  lemma ColumnIndex(q: int, p: int, m: int, u: int)
    requires 0 <= q < p && 0 <= u < m
    ensures 0 <= Cell(m, q, u) < p * m
    ensures Cell(m, q, u) % m == u && Cell(m, q, u) / m == q
  {
    ModUnique(q * m + u, q, u, m);
    MulMonotone(0, q, m);
    MulMonotone(q, p - 1, m);
    assert (p - 1) * m == p * m - m;
  }

  lemma StagedNone(tw: seq<Cpx>, s: seq<Cpx>, o: int, p: nat, m: int, fs: int)
    requires m > 0 && |tw| > 0
    ensures Staged(tw, s, o, p, m, fs, 0) == s
  {
    hide Recombined, Sum, Mul;
  }

  /** A column that is still to be processed holds its original values. */
  lemma Untouched(tw: seq<Cpx>, s: seq<Cpx>, o: int, p: nat, m: int, fs: int, u: int, q: int)
    requires Fits(tw, s, o, p, m, fs) && |tw| > 0
    requires 0 <= q < p && 0 <= u < m
    ensures 0 <= o + (q * m + u) < |s|
    ensures Staged(tw, s, o, p, m, fs, u)[o + (q * m + u)] == s[o + (q * m + u)] == At(s, o + q * m + u)
  {
    hide Recombined, Sum, Mul;
    ColumnIndex(q, p, m, u);
  }

  /** Writing the recombined values into column u, and nothing else, advances the stage. */
  lemma StageStep(tw: seq<Cpx>, s: seq<Cpx>, o: int, p: nat, m: int, fs: int, u: int, next: seq<Cpx>)
    requires Fits(tw, s, o, p, m, fs) && |tw| > 0
    requires 0 <= u < m && |next| == |s|
    requires forall i :: 0 <= i < |s| && !(o <= i < o + p * m && (i - o) % m == u) ==>
               next[i] == Staged(tw, s, o, p, m, fs, u)[i]
    requires forall i :: 0 <= i < |s| && o <= i < o + p * m && (i - o) % m == u ==>
               next[i] == Recombined(tw, s, o, p, m, fs, i - o)
    ensures next == Staged(tw, s, o, p, m, fs, u + 1)
  {
    hide Recombined, Sum, Mul;
  }

  /** Row r of column u in terms of the p turned inputs: what is left is a p-point transform. */
  lemma RecombinedRow(tw: seq<Cpx>, inverse: bool, s: seq<Cpx>, o: int, p: nat, m: int, fs: int, u: int, r: int,
      h: int -> Cpx)
    requires TwiddleLaws(tw, inverse) && Fits(tw, s, o, p, m, fs)
    requires 0 <= u < m && 0 <= r < p
    requires forall q :: 0 <= q < p ==>
               h(q) == Mul(Mul(At(s, o + q * m + u), W(tw, q * (u * fs))), W(tw, q * r * (m * fs)))
    ensures Recombined(tw, s, o, p, m, fs, r * m + u) == Sum(p, h)
  {
    hide Mul, W, At, TwiddleLaws;
    ColumnIndex(r, p, m, u);
    var k := r * m + u;
    forall q | 0 <= q < p
      ensures h(q) == Mul(At(s, o + q * m + k % m), W(tw, q * k * fs))
    {
      ExponentSplit(q, r, m, u, fs);
      WAdd(tw, inverse, q * (u * fs), q * r * (m * fs));
      MulAssoc(At(s, o + q * m + u), W(tw, q * (u * fs)), W(tw, q * r * (m * fs)));
    }
    SumExt(p, h, q => Mul(At(s, o + q * m + k % m), W(tw, q * k * fs)));
  }

  lemma ExponentSplit(q: int, r: int, m: int, u: int, fs: int)
    ensures q * (r * m + u) * fs == q * (u * fs) + q * r * (m * fs)
  {}

  /** Exponents that are whole multiples of a p-th of the circle only count modulo p. */
  lemma RootPower(tw: seq<Cpx>, p: int, z: int, e: int, k: int)
    requires |tw| > 0 && p * z == |tw|
    ensures W(tw, (e + k * p) * z) == W(tw, e * z)
  {
    assert (e + k * p) * z == e * z + k * |tw| by {
      assert k * p * z == k * (p * z);
    }
    WShift(tw, e * z, k);
  }
}
