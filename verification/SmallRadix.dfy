/**
 The rows of the radix 2, 3, 4 and 5 stages, written with the few roots of unity each needs.
 */
module SmallRadix {
  import opened Arithmetic
  import opened Complex
  import opened Twiddles
  import opened Stage

  // ---------- Roots of unity of small order ----------

  lemma SquareRoot(tw: seq<Cpx>, inverse: bool, z: int)
    requires TwiddleLaws(tw, inverse) && 2 * z == |tw|
    ensures W(tw, z) == Cpx(-1.0, 0.0)
  {
    hide Mul, W, TwiddleLaws;
    Nonempty(tw, inverse);
    WAdd(tw, inverse, z, z);
    WShift(tw, 0, 1);
    WZero(tw, inverse);
    ModUnique(z, 0, z, |tw|);
    WPrimitive(tw, inverse, z);
    MinusOne(W(tw, z));
  }

  lemma MinusOne(w: Cpx)
    requires Mul(w, w) == ONE && w != ONE
    ensures w == Cpx(-1.0, 0.0)
  {
    assert Mul(Sub(w, ONE), Add(w, ONE)) == Sub(Mul(w, w), ONE);
    NoZeroDivisors(Sub(w, ONE), Add(w, ONE));
    assert Sub(w, ONE) != ZERO;
  }

  lemma CubeRoot(tw: seq<Cpx>, inverse: bool, z: int)
    requires TwiddleLaws(tw, inverse) && 3 * z == |tw|
    ensures W(tw, z).r == -0.5
    ensures W(tw, 2 * z) == Conj(W(tw, z))
  {
    hide Mul, W, TwiddleLaws;
    Nonempty(tw, inverse);
    WConj(tw, inverse, z);
    WShift(tw, -z, 1);
    WAdd(tw, inverse, z, z);
    WAdd(tw, inverse, 2 * z, z);
    WShift(tw, 0, 1);
    WZero(tw, inverse);
    ModUnique(z, 0, z, |tw|);
    WPrimitive(tw, inverse, z);
    CubeRootReal(W(tw, z));
  }

  lemma CubeRootReal(w: Cpx)
    requires Mul(w, w) == Conj(w) && Mul(Conj(w), w) == ONE && w != ONE
    ensures w.r == -0.5
  {
    hide Mul;
    var s := Add(Add(ONE, w), Conj(w));
    MulDistributes(Add(ONE, w), Conj(w), w);
    MulDistributes(ONE, w, w);
    MulOne(w);
    FixedPointVanishes(s, w);
  }

  lemma FourthRoot(tw: seq<Cpx>, inverse: bool, z: int)
    requires TwiddleLaws(tw, inverse) && 4 * z == |tw|
    ensures W(tw, z) == if inverse then Cpx(0.0, 1.0) else Cpx(0.0, -1.0)
    ensures W(tw, 2 * z) == Cpx(-1.0, 0.0)
    ensures W(tw, 3 * z) == Conj(W(tw, z))
  {
    hide Mul, W, TwiddleLaws;
    Nonempty(tw, inverse);
    WQuarter(tw, inverse, z);
    QuarterTurns(W(tw, z));
    WAdd(tw, inverse, z, z);
    WConj(tw, inverse, z);
    WShift(tw, -z, 1);
  }

  lemma FifthRoot(tw: seq<Cpx>, inverse: bool, z: int)
    requires TwiddleLaws(tw, inverse) && 5 * z == |tw|
    ensures W(tw, 3 * z) == Conj(W(tw, 2 * z))
    ensures W(tw, 4 * z) == Conj(W(tw, z))
  {
    hide W, TwiddleLaws;
    Nonempty(tw, inverse);
    WConj(tw, inverse, 2 * z);
    WShift(tw, -2 * z, 1);
    WConj(tw, inverse, z);
    WShift(tw, -z, 1);
  }

  // ---------- Short sums ----------

  lemma SumOf2(g: int -> Cpx)
    ensures Sum(2, g) == Add(g(0), g(1))
  {
    assert Sum(1, g) == Add(Sum(0, g), g(0));
  }

  lemma SumOf3(g: int -> Cpx)
    ensures Sum(3, g) == Add(Add(g(0), g(1)), g(2))
  {
    SumOf2(g);
  }

  lemma SumOf4(g: int -> Cpx)
    ensures Sum(4, g) == Add(Add(Add(g(0), g(1)), g(2)), g(3))
  {
    SumOf3(g);
  }

  lemma SumOf5(g: int -> Cpx)
    ensures Sum(5, g) == Add(Add(Add(Add(g(0), g(1)), g(2)), g(3)), g(4))
  {
    SumOf4(g);
  }

  // ---------- Rows ----------

  /** The inputs of column u, each already multiplied by its twiddle: the C code's scratch values. */
  ghost predicate Turned(tw: seq<Cpx>, s: seq<Cpx>, o: int, m: int, fs: int, u: int, c: seq<Cpx>)
    requires |tw| > 0
  {
    && |c| > 0
    && c[0] == At(s, o + u)
    && forall q :: 1 <= q < |c| ==> c[q] == Mul(At(s, o + q * m + u), W(tw, q * (u * fs)))
  }

  /** Row r of the stage is the r-th output of a |c|-point transform of the scratch values. */
  lemma Row(tw: seq<Cpx>, inverse: bool, s: seq<Cpx>, o: int, m: int, fs: int, u: int, c: seq<Cpx>, r: int,
      h: int -> Cpx)
    requires TwiddleLaws(tw, inverse) && Fits(tw, s, o, |c|, m, fs)
    requires 0 <= u < m && 0 <= r < |c|
    requires Turned(tw, s, o, m, fs, u, c)
    requires h(0) == c[0]
    requires forall q :: 1 <= q < |c| ==> h(q) == Mul(c[q], W(tw, q * r * (m * fs)))
    ensures Recombined(tw, s, o, |c|, m, fs, r * m + u) == Sum(|c|, h)
  {
    hide Mul, W, At, TwiddleLaws;
    forall q | 0 <= q < |c|
      ensures h(q) == Mul(Mul(At(s, o + q * m + u), W(tw, q * (u * fs))), W(tw, q * r * (m * fs)))
    {
      if q == 0 {
        WZero(tw, inverse);
        MulOne(At(s, o + u));
        assert 0 * m == 0 && 0 * (u * fs) == 0 && 0 * r * (m * fs) == 0;
      }
    }
    RecombinedRow(tw, inverse, s, o, |c|, m, fs, u, r, h);
  }

  lemma Row2(tw: seq<Cpx>, inverse: bool, s: seq<Cpx>, o: int, m: int, fs: int, u: int, c: seq<Cpx>, z: int,
             r: int, w1: Cpx)
    requires TwiddleLaws(tw, inverse) && |c| == 2 && Fits(tw, s, o, 2, m, fs) && z == m * fs
    requires 0 <= u < m && Turned(tw, s, o, m, fs, u, c)
    requires 0 <= r < 2 && w1 == W(tw, r * z)
    ensures Recombined(tw, s, o, 2, m, fs, r * m + u) == Add(c[0], Mul(c[1], w1))
  {
    assert |tw| > 0;
    hide Mul, W, TwiddleLaws, Recombined, Turned, Fits;
    var h: int -> Cpx := q => if q == 0 then c[0] else Mul(At(c, q), W(tw, q * r * z));
    Row(tw, inverse, s, o, m, fs, u, c, r, h);
    SumOf2(h);
  }

  lemma Rows2(tw: seq<Cpx>, inverse: bool, s: seq<Cpx>, o: int, m: int, fs: int, u: int, c: seq<Cpx>)
    requires TwiddleLaws(tw, inverse) && |c| == 2 && Fits(tw, s, o, 2, m, fs)
    requires 0 <= u < m && Turned(tw, s, o, m, fs, u, c)
    ensures Recombined(tw, s, o, 2, m, fs, 0 * m + u) == Add(c[0], Mul(c[1], ONE))
    ensures Recombined(tw, s, o, 2, m, fs, 1 * m + u) == Add(c[0], Mul(c[1], Cpx(-1.0, 0.0)))
  {
    hide Mul, W, TwiddleLaws, Recombined, Turned;
    var z := m * fs;
    SquareRoot(tw, inverse, z);
    WZero(tw, inverse);
    Row2(tw, inverse, s, o, m, fs, u, c, z, 0, ONE);
    Row2(tw, inverse, s, o, m, fs, u, c, z, 1, Cpx(-1.0, 0.0));
  }

  lemma Row3(tw: seq<Cpx>, inverse: bool, s: seq<Cpx>, o: int, m: int, fs: int, u: int, c: seq<Cpx>, z: int,
             r: int, w1: Cpx, w2: Cpx)
    requires TwiddleLaws(tw, inverse) && |c| == 3 && Fits(tw, s, o, 3, m, fs) && z == m * fs
    requires 0 <= u < m && Turned(tw, s, o, m, fs, u, c)
    requires 0 <= r < 3 && w1 == W(tw, r * z) && w2 == W(tw, 2 * r * z)
    ensures Recombined(tw, s, o, 3, m, fs, r * m + u) == Add(Add(c[0], Mul(c[1], w1)), Mul(c[2], w2))
  {
    assert |tw| > 0;
    hide Mul, W, TwiddleLaws, Recombined, Turned, Fits;
    var h: int -> Cpx := q => if q == 0 then c[0] else Mul(At(c, q), W(tw, q * r * z));
    Row(tw, inverse, s, o, m, fs, u, c, r, h);
    SumOf3(h);
  }

  lemma Rows3(tw: seq<Cpx>, inverse: bool, s: seq<Cpx>, o: int, m: int, fs: int, u: int, c: seq<Cpx>, w: Cpx)
    requires TwiddleLaws(tw, inverse) && |c| == 3 && Fits(tw, s, o, 3, m, fs)
    requires 0 <= u < m && Turned(tw, s, o, m, fs, u, c) && w == W(tw, m * fs)
    ensures w.r == -0.5
    ensures Recombined(tw, s, o, 3, m, fs, 0 * m + u) == Add(Add(c[0], Mul(c[1], ONE)), Mul(c[2], ONE))
    ensures Recombined(tw, s, o, 3, m, fs, 1 * m + u) == Add(Add(c[0], Mul(c[1], w)), Mul(c[2], Conj(w)))
    ensures Recombined(tw, s, o, 3, m, fs, 2 * m + u) == Add(Add(c[0], Mul(c[1], Conj(w))), Mul(c[2], w))
  {
    hide Mul, W, TwiddleLaws, Recombined, Turned;
    var z := m * fs;
    CubeRoot(tw, inverse, z);
    WZero(tw, inverse);
    RootPower(tw, 3, z, 1, 1);
    Row3(tw, inverse, s, o, m, fs, u, c, z, 0, ONE, ONE);
    Row3(tw, inverse, s, o, m, fs, u, c, z, 1, w, Conj(w));
    Row3(tw, inverse, s, o, m, fs, u, c, z, 2, Conj(w), w);
  }

  lemma Row4(tw: seq<Cpx>, inverse: bool, s: seq<Cpx>, o: int, m: int, fs: int, u: int, c: seq<Cpx>, z: int,
             r: int, w1: Cpx, w2: Cpx, w3: Cpx)
    requires TwiddleLaws(tw, inverse) && |c| == 4 && Fits(tw, s, o, 4, m, fs) && z == m * fs
    requires 0 <= u < m && Turned(tw, s, o, m, fs, u, c)
    requires 0 <= r < 4 && w1 == W(tw, r * z) && w2 == W(tw, 2 * r * z) && w3 == W(tw, 3 * r * z)
    ensures Recombined(tw, s, o, 4, m, fs, r * m + u) ==
            Add(Add(Add(c[0], Mul(c[1], w1)), Mul(c[2], w2)), Mul(c[3], w3))
  {
    assert |tw| > 0;
    hide Mul, W, TwiddleLaws, Recombined, Turned, Fits;
    var h: int -> Cpx := q => if q == 0 then c[0] else Mul(At(c, q), W(tw, q * r * z));
    Row(tw, inverse, s, o, m, fs, u, c, r, h);
    SumOf4(h);
  }

  lemma Rows4(tw: seq<Cpx>, inverse: bool, s: seq<Cpx>, o: int, m: int, fs: int, u: int, c: seq<Cpx>, w: Cpx, n: Cpx)
    requires TwiddleLaws(tw, inverse) && |c| == 4 && Fits(tw, s, o, 4, m, fs)
    requires 0 <= u < m && Turned(tw, s, o, m, fs, u, c)
    requires w == (if inverse then Cpx(0.0, 1.0) else Cpx(0.0, -1.0)) && n == Cpx(-1.0, 0.0)
    ensures Recombined(tw, s, o, 4, m, fs, 0 * m + u) ==
            Add(Add(Add(c[0], Mul(c[1], ONE)), Mul(c[2], ONE)), Mul(c[3], ONE))
    ensures Recombined(tw, s, o, 4, m, fs, 1 * m + u) ==
            Add(Add(Add(c[0], Mul(c[1], w)), Mul(c[2], n)), Mul(c[3], Conj(w)))
    ensures Recombined(tw, s, o, 4, m, fs, 2 * m + u) == Add(Add(Add(c[0], Mul(c[1], n)), Mul(c[2], ONE)), Mul(c[3], n))
    ensures Recombined(tw, s, o, 4, m, fs, 3 * m + u) ==
            Add(Add(Add(c[0], Mul(c[1], Conj(w))), Mul(c[2], n)), Mul(c[3], w))
  {
    hide Mul, W, TwiddleLaws, Recombined, Turned, Conj;
    var z := m * fs;
    FourthRoot(tw, inverse, z);
    WZero(tw, inverse);
    RootPower(tw, 4, z, 0, 1);
    RootPower(tw, 4, z, 2, 1);
    RootPower(tw, 4, z, 1, 2);
    Row4(tw, inverse, s, o, m, fs, u, c, z, 0, ONE, ONE, ONE);
    Row4(tw, inverse, s, o, m, fs, u, c, z, 1, w, n, Conj(w));
    Row4(tw, inverse, s, o, m, fs, u, c, z, 2, n, ONE, n);
    Row4(tw, inverse, s, o, m, fs, u, c, z, 3, Conj(w), n, w);
  }

  lemma Row5(tw: seq<Cpx>, inverse: bool, s: seq<Cpx>, o: int, m: int, fs: int, u: int, c: seq<Cpx>, z: int,
             r: int, w1: Cpx, w2: Cpx, w3: Cpx, w4: Cpx)
    requires TwiddleLaws(tw, inverse) && |c| == 5 && Fits(tw, s, o, 5, m, fs) && z == m * fs
    requires 0 <= u < m && Turned(tw, s, o, m, fs, u, c)
    requires 0 <= r < 5 && w1 == W(tw, r * z) && w2 == W(tw, 2 * r * z) && w3 == W(tw, 3 * r * z)
             && w4 == W(tw, 4 * r * z)
    ensures Recombined(tw, s, o, 5, m, fs, r * m + u) ==
            Add(Add(Add(Add(c[0], Mul(c[1], w1)), Mul(c[2], w2)), Mul(c[3], w3)), Mul(c[4], w4))
  {
    assert |tw| > 0;
    hide Mul, W, TwiddleLaws, Recombined, Turned, Fits;
    var h: int -> Cpx := q => if q == 0 then c[0] else Mul(At(c, q), W(tw, q * r * z));
    Row(tw, inverse, s, o, m, fs, u, c, r, h);
    SumOf5(h);
  }

  lemma Rows5(tw: seq<Cpx>, inverse: bool, s: seq<Cpx>, o: int, m: int, fs: int, u: int, c: seq<Cpx>, a: Cpx, b: Cpx)
    requires TwiddleLaws(tw, inverse) && |c| == 5 && Fits(tw, s, o, 5, m, fs)
    requires 0 <= u < m && Turned(tw, s, o, m, fs, u, c)
    requires a == W(tw, m * fs) && b == W(tw, 2 * (m * fs))
    ensures Recombined(tw, s, o, 5, m, fs, 0 * m + u) == Turn5(c, ONE, ONE, ONE, ONE)
    ensures Recombined(tw, s, o, 5, m, fs, 1 * m + u) == Turn5(c, a, b, Conj(b), Conj(a))
    ensures Recombined(tw, s, o, 5, m, fs, 2 * m + u) == Turn5(c, b, Conj(a), a, Conj(b))
    ensures Recombined(tw, s, o, 5, m, fs, 3 * m + u) == Turn5(c, Conj(b), a, Conj(a), b)
    ensures Recombined(tw, s, o, 5, m, fs, 4 * m + u) == Turn5(c, Conj(a), Conj(b), b, a)
  {
    hide Mul, Add, W, TwiddleLaws, Recombined, Turned, Conj;
    var z := m * fs;
    FifthRoot(tw, inverse, z);
    WZero(tw, inverse);
    RootPower(tw, 5, z, 1, 1);
    RootPower(tw, 5, z, 3, 1);
    RootPower(tw, 5, z, 4, 1);
    RootPower(tw, 5, z, 2, 2);
    RootPower(tw, 5, z, 1, 3);
    RootPower(tw, 5, z, 2, 1);
    Row5(tw, inverse, s, o, m, fs, u, c, z, 0, ONE, ONE, ONE, ONE);
    Row5(tw, inverse, s, o, m, fs, u, c, z, 1, a, b, Conj(b), Conj(a));
    Row5(tw, inverse, s, o, m, fs, u, c, z, 2, b, Conj(a), a, Conj(b));
    Row5(tw, inverse, s, o, m, fs, u, c, z, 3, Conj(b), a, Conj(a), b);
    Row5(tw, inverse, s, o, m, fs, u, c, z, 4, Conj(a), Conj(b), b, a);
  }

  ghost function Turn5(c: seq<Cpx>, w1: Cpx, w2: Cpx, w3: Cpx, w4: Cpx): Cpx
    requires |c| == 5
  {
    Add(Add(Add(Add(c[0], Mul(c[1], w1)), Mul(c[2], w2)), Mul(c[3], w3)), Mul(c[4], w4))
  }
}
