/** j0l and y0l, the Bessel functions of order zero of the first and second
    kind on quadruple precision (Q/j0l.c), over exact reals, with their
    asymptotic helpers pzero and qzero.

    Near zero j0 is 1 - x²/4 or 1 + x²·R(x²)/S(x²), and y0 is
    U(x²)/V(x²) + (2/π)·j0(x)·log(x).  Above 1.28 both are
    (P(0,x)·cc ∓ Q(0,x)·ss)/sqrt(π·x), where ss = sin x - cos x and
    cc = sin x + cos x; whichever of ss and cc would cancel is recomputed as
    -cos(2x) divided by the other.  P(0,x) and Q(0,x) are rational functions
    of 1/x² on seven bands of x.

    sinl, cosl, sqrtl and logl are parameters. */
module Bessel0 {
  import opened Ieee
  import opened Poly
  import opened Bessel0Tables

  const Small: real := 1.0e-9
  const Tiny: real := 1.0e-38
  /** Above this pzero is 1 and qzero -1/(8x). */
  const Huge: real := 1.0e30
  /** Above this P(0,x) and Q(0,x) are dropped from the asymptotic form. */
  const Asymptotic: real := 1.0e120
  /** Above this x + x may overflow, so neither of ss and cc is recomputed. */
  const NoDoubling: real := 1.0e2450
  /** 1/sqrt(π) */
  const InvSqrtPi: real := 5.641895835477562869480794515607725858441e-1
  /** 2/π */
  const TwoOverPi: real := 0.636619772367581343075535053490057448

  /** The platform's sinl, cosl, sqrtl and logl on finite arguments. */
  datatype Prims = Prims(sin: real -> real, cos: real -> real, sqrt: real -> real, log: real -> real)

  // ---------------------------------------------------------------------
  // The bands of pzero and qzero

  /** The lower ends of bands 0 to 5; band 6 reaches down to the callers'
      1.28. */
  const BandFloor: seq<real> := [16.0, 8.0, 5.0, 3.5, 2.5, 1.0 / 0.5625]

  /** Band b holds the x with BandFloor[b] < x <= BandFloor[b-1]. */
  predicate InBand(b: nat, x: real)
  {
    && b < 7
    && (b == 0 || x <= BandFloor[b - 1])
    && (b == 6 || x > BandFloor[b])
  }

  /** The chain of comparisons pzero and qzero make. */
  function BandOf(x: real): (b: nat)
    ensures b < 7
  {
    if x > 16.0 then 0
    else if x > 8.0 then 1
    else if x > 5.0 then 2
    else if x > 3.5 then 3
    else if x > 2.5 then 4
    else if x > 1.0 / 0.5625 then 5
    else 6
  }

  /** The comparisons put every x in exactly one band. */
  lemma BandsPartition(x: real)
    ensures InBand(BandOf(x), x)
    ensures forall b: nat :: InBand(b, x) ==> b == BandOf(x)
  {
    forall b: nat | InBand(b, x)
      ensures b == BandOf(x)
    {
      if b < 6 { assert x > BandFloor[b]; }
      if b > 0 { assert x <= BandFloor[b - 1]; }
    }
  }

  const PR: seq<seq<real>> := [PR0, PR1, PR2, PR3, PR4, PR5, PR6]
  const PS: seq<seq<real>> := [PS0, PS1, PS2, PS3, PS4, PS5, PS6]
  const QR: seq<seq<real>> := [QR0, QR1, QR2, QR3, QR4, QR5, QR6]
  const QS: seq<seq<real>> := [QS0, QS1, QS2, QS3, QS4, QS5, QS6]

  /** The rational function of band b at z. */
  function BandRatio(num: seq<seq<real>>, den: seq<seq<real>>, b: nat, z: real): real
    requires b < |num| && b < |den|
  {
    Div(Horner(num[b], z), Horner(den[b], z))
  }

  /** P(0,x), what pzero computes; the callers only pass x > 1.28. */
  function P0(x: real): real
    requires x > 1.28
  {
    if x > Huge then 1.0
    else var t := 1.0 / x; BandRatio(PR, PS, BandOf(x), t * t)
  }

  /** Q(0,x), what qzero computes. */
  function Q0(x: real): real
    requires x > 1.28
  {
    if x > Huge then -0.125 / x
    else var t := 1.0 / x; t * BandRatio(QR, QS, BandOf(x), t * t)
  }

  /** The last coefficient of a table is its Horner tail from there. */
  lemma HornerLastOne(c: seq<real>, z: real)
    requires |c| >= 1
    ensures HornerFrom(c, |c| - 1, z) == c[|c| - 1]
  {
  }

  lemma HornerLastTwo(c: seq<real>, z: real)
    requires |c| >= 2
    ensures HornerFrom(c, |c| - 2, z) == z * c[|c| - 1] + c[|c| - 2]
  {
    HornerLastOne(c, z);
  }

  lemma HornerLastThree(c: seq<real>, z: real)
    requires |c| >= 3
    ensures HornerFrom(c, |c| - 3, z) == c[|c| - 3] + z * (c[|c| - 2] + z * c[|c| - 1])
  {
    HornerLastOne(c, z);
  }

  /** The number of numerator and denominator coefficients of band b. */
  function NumLength(b: nat): nat
  {
    if b <= 2 then 12 else 13
  }

  function DenLength(b: nat): nat
  {
    if b == 0 then 11 else if b <= 2 then 14 else 13
  }

  /** The tables of pzero and qzero have the lengths their loops expect. */
  lemma TableShapes(b: nat)
    requires b < 7
    ensures |PR[b]| == NumLength(b) && |PS[b]| == DenLength(b)
    ensures |QR[b]| == NumLength(b) && |QS[b]| == DenLength(b)
  {
  }

  /** The band loop of pzero and qzero on the tables of band b: band 0
      starts from two numerator coefficients and one denominator
      coefficient, bands 1 and 2 from one and three, bands 3 to 6 from one
      and one. */
  method BandHorner(p: seq<real>, q: seq<real>, b: nat, z: real) returns (r: real, s: real)
    requires b < 7 && |p| == NumLength(b) && |q| == DenLength(b)
    ensures r == Horner(p, z) && s == Horner(q, z)
  {
    if b == 0 {
      HornerLastTwo(p, z);
      r := z * p[11] + p[10];
      s := q[10];
      r, s := HornerPair(p, q, z, 9, r, s);
    } else if b <= 2 {
      HornerLastThree(q, z);
      r := p[11];
      s := q[11] + z * (q[12] + z * q[13]);
      r, s := HornerPair(p, q, z, 10, r, s);
    } else {
      r := p[12];
      s := q[12];
      r, s := HornerPair(p, q, z, 11, r, s);
    }
  }

  /** Below 1e30, P(0,x) is its band's ratio at z = 1/x². */
  lemma P0InBand(x: real, b: nat, z: real)
    requires 1.28 < x <= Huge && b == BandOf(x) && z == (1.0 / x) * (1.0 / x)
    ensures P0(x) == BandRatio(PR, PS, b, z)
  {
  }

  /** Below 1e30, Q(0,x) is 1/x times its band's ratio at z = 1/x². */
  lemma Q0InBand(x: real, b: nat, z: real)
    requires 1.28 < x <= Huge && b == BandOf(x) && z == (1.0 / x) * (1.0 / x)
    ensures Q0(x) == (1.0 / x) * BandRatio(QR, QS, b, z)
  {
  }

  method PZero(x: real) returns (p: real)
    requires x > 1.28
    ensures p == P0(x)
  {
    if x > Huge {
      return 1.0;
    }
    var t := 1.0 / x;
    var z := t * t;
    var b := BandOf(x);
    P0InBand(x, b, z);
    TableShapes(b);
    var r, s := BandHorner(PR[b], PS[b], b, z);
    return Div(r, s);
  }

  method QZero(x: real) returns (q: real)
    requires x > 1.28
    ensures q == Q0(x)
  {
    if x > Huge {
      return -0.125 / x;
    }
    var t := 1.0 / x;
    var z := t * t;
    var b := BandOf(x);
    Q0InBand(x, b, z);
    TableShapes(b);
    var r, s := BandHorner(QR[b], QS[b], b, z);
    return t * Div(r, s);
  }

  /** Every coefficient of the table is non-negative. */
  predicate NonNegative(c: seq<real>)
  {
    forall i :: 0 <= i < |c| ==> c[i] >= 0.0
  }

  /** A non-negative table whose constant term is 1 evaluates to at least 1
      at every non-negative point (and so, by HornerIsPowerSum, does its
      power sum). */
  lemma DenominatorAtLeastOne(c: seq<real>, z: real)
    requires |c| > 0 && c[0] == 1.0 && NonNegative(c) && z >= 0.0
    ensures Horner(c, z) >= 1.0
  {
    HornerAtLeastHead(c, 0, z);
  }

  /** Outside bands 1 and 2 every denominator coefficient of pzero and
      qzero is non-negative and the constant term is 1. */
  lemma DenominatorTablesNonNegative(b: nat)
    requires b < 7 && b != 1 && b != 2
    ensures NonNegative(PS[b]) && PS[b][0] == 1.0
    ensures NonNegative(QS[b]) && QS[b][0] == 1.0
  {
    if b == 0 {
      assert NonNegative(PS0) && NonNegative(QS0);
    } else if b == 3 {
      assert NonNegative(PS3) && NonNegative(QS3);
    } else if b == 4 {
      assert NonNegative(PS4) && NonNegative(QS4);
    } else if b == 5 {
      assert NonNegative(PS5) && NonNegative(QS5);
    } else {
      assert NonNegative(PS6) && NonNegative(QS6);
    }
  }

  /** Outside bands 1 and 2 the denominators of pzero and qzero have
      non-negative coefficients and constant term 1, so they never vanish
      and the quotients are true quotients. */
  lemma BandDenominatorsPositive(b: nat, z: real)
    requires b < 7 && b != 1 && b != 2 && z >= 0.0
    ensures Horner(PS[b], z) >= 1.0 && Horner(QS[b], z) >= 1.0
  {
    DenominatorTablesNonNegative(b);
    DenominatorAtLeastOne(PS[b], z);
    DenominatorAtLeastOne(QS[b], z);
  }

  /** Where its band's denominator is positive, P(0,x) times that
      denominator is the band's numerator, in z = 1/x². */
  lemma P0IsQuotient(x: real)
    requires 1.28 < x <= Huge && BandOf(x) != 1 && BandOf(x) != 2
    ensures var z := (1.0 / x) * (1.0 / x); var b := BandOf(x);
            P0(x) * Horner(PS[b], z) == Horner(PR[b], z)
  {
    BandDenominatorsPositive(BandOf(x), (1.0 / x) * (1.0 / x));
  }

  /** Where its band's denominator is positive, x·Q(0,x) times that
      denominator is the band's numerator, in z = 1/x². */
  lemma Q0IsQuotient(x: real)
    requires 1.28 < x <= Huge && BandOf(x) != 1 && BandOf(x) != 2
    ensures var z := (1.0 / x) * (1.0 / x); var b := BandOf(x);
            x * Q0(x) * Horner(QS[b], z) == Horner(QR[b], z)
  {
    var t := 1.0 / x;
    var b := BandOf(x);
    var z := t * t;
    Q0InBand(x, b, z);
    BandDenominatorsPositive(b, z);
    ReciprocalCancels(x, t, BandRatio(QR, QS, b, z), Horner(QS[b], z), Horner(QR[b], z));
  }

  /** With x·t = 1 and d·h = n, x·(t·d)·h = n. */
  lemma ReciprocalCancels(x: real, t: real, d: real, h: real, n: real)
    requires x != 0.0 && t == 1.0 / x && d * h == n
    ensures x * (t * d) * h == n
  {
    assert x * t == 1.0;
    assert x * (t * d) == d;
  }

  // ---------------------------------------------------------------------
  // sin x ± cos x without cancellation

  /** (ss, cc) = (sin x - cos x, sin x + cos x) as j0l and y0l compute them:
      of the two, the one formed from operands of opposite signs is
      computed directly and the other, which could cancel, as -cos(2x)
      divided by it; above 1e2450 both are computed directly. */
  function Combos(x: real, s: real, c: real, cos: real -> real): (sc: (real, real))
  {
    if x > NoDoubling then (s - c, s + c)
    else if (s < 0.0) != (c < 0.0) then
      var ss := s - c; (ss, Div(-cos(x + x), ss))
    else
      var cc := s + c; (Div(-cos(x + x), cc), cc)
  }

  /** The directly computed one of ss and cc never cancels: its magnitude is
      |sin x| + |cos x|. */
  lemma CombosNoCancellation(x: real, s: real, c: real, cos: real -> real)
    requires x <= NoDoubling
    ensures var (ss, cc) := Combos(x, s, c, cos);
            if (s < 0.0) != (c < 0.0) then Abs(ss) == Abs(s) + Abs(c)
            else Abs(cc) == Abs(s) + Abs(c)
  {
  }

  function Abs(r: real): real
  {
    if r < 0.0 then -r else r
  }

  /** The recomputation is exact: whenever cos 2x = cos²x - sin²x holds of
      the primitives and sin x, cos x are not both zero, (ss, cc) is
      (sin x - cos x, sin x + cos x). */
  lemma CombosAreSinPlusMinusCos(x: real, s: real, c: real, cos: real -> real)
    requires cos(x + x) == c * c - s * s
    requires s != 0.0 || c != 0.0
    ensures Combos(x, s, c, cos) == (s - c, s + c)
  {
    if x <= NoDoubling {
      if (s < 0.0) != (c < 0.0) {
        DifferenceOfSquares(s, c, s - c, s + c, cos(x + x));
      } else {
        DifferenceOfSquares(s, c, s + c, s - c, cos(x + x));
      }
    }
  }

  /** -(c² - s²) = (s - c)(s + c): dividing it by one factor gives the
      other. */
  lemma DifferenceOfSquares(s: real, c: real, d: real, e: real, k: real)
    requires k == c * c - s * s && d != 0.0
    requires (d == s - c && e == s + c) || (d == s + c && e == s - c)
    ensures Div(-k, d) == e
  {
    assert -k == d * e;
  }

  // ---------------------------------------------------------------------
  // j0l

  /** The combination j0l returns below 1e120, given P(0,x), Q(0,x), ss,
      cc and sqrt x. */
  function J0Blend(p: real, q: real, ss: real, cc: real, r: real): real
  {
    Div(InvSqrtPi * (p * cc - q * ss), r)
  }

  /** j0 above 1.28 on finite x. */
  function J0Large(y: real, m: Prims): real
    requires y > 1.28
  {
    var (ss, cc) := Combos(y, m.sin(y), m.cos(y), m.cos);
    if y > Asymptotic then Div(InvSqrtPi * cc, m.sqrt(y))
    else J0Blend(P0(y), Q0(y), ss, cc, m.sqrt(y))
  }

  /** j0 up to 1e-9: 1 - x, or 1 - x²/4 above 1e-38. */
  function J0Near(y: real): real
  {
    if y <= Tiny then 1.0 - y else 1.0 - y * y * 0.25
  }

  /** j0 on (1e-9, 1.28]: 1 + z·R(z)/S(z) with z = x². */
  function J0Series(y: real): real
  {
    var z := y * y;
    1.0 + z * Div(Horner(R0, z), Horner(S0, z))
  }

  /** j0 of a finite x, as a function of y = |x|. */
  function J0Finite(y: real, m: Prims): real
  {
    if y > 1.28 then J0Large(y, m)
    else if y <= Small then J0Near(y)
    else J0Series(y)
  }

  /** What j0l returns, as a function of its argument. */
  function J0(x: Fp, m: Prims): (r: Fp)
    ensures x.IsNaN() ==> r.IsNaN()
    ensures x.IsInf() ==> r == PosZero
    ensures x.IsFinite() ==> r.IsFinite()
    ensures x.IsZero() ==> r == FromReal(1.0)
  {
    if x.IsNaN() then x
    else if x.IsInf() then PosZero
    else FromReal(J0Finite(x.kind.mag, m))
  }

  /** The branch of j0l above 1.28, on finite x. */
  method J0Asymptotic(y: real, m: Prims) returns (v: real)
    requires y > 1.28
    ensures v == J0Large(y, m)
  {
    var sc := Combos(y, m.sin(y), m.cos(y), m.cos);
    var ss, cc := sc.0, sc.1;
    if y > Asymptotic {
      return Div(InvSqrtPi * cc, m.sqrt(y));
    }
    var u := PZero(y);
    var w := QZero(y);
    return J0Blend(u, w, ss, cc, m.sqrt(y));
  }

  /** The loop of j0l on (1e-9, 1.28]. */
  method J0Rational(y: real) returns (v: real)
    ensures v == J0Series(y)
  {
    var z := y * y;
    HornerLastOne(R0, z);
    HornerLastOne(S0, z);
    var r, s := HornerPair(R0, S0, z, 5, R0[6], S0[6]);
    return 1.0 + z * Div(r, s);
  }

  method J0l(x: Fp, m: Prims) returns (r: Fp)
    ensures r == J0(x, m)
  {
    if x.IsNaN() {
      return x;
    }
    if x.IsInf() || x.kind.mag > 1.28 {
      if x.IsInf() {
        return PosZero;
      }
      var v := J0Asymptotic(x.kind.mag, m);
      return FromReal(v);
    }
    var y := x.kind.mag;
    if y <= Small {
      if y <= Tiny {
        return FromReal(1.0 - y);
      }
      return FromReal(1.0 - y * y * 0.25);
    }
    var v := J0Rational(y);
    return FromReal(v);
  }

  /** j0 is even: j0l takes |x| first, so x and -x give the same result,
      bit for bit. */
  lemma J0Even(x: Fp, m: Prims)
    requires !x.IsNaN()
    ensures J0(Neg(x), m) == J0(x, m)
  {
  }

  /** Near zero: j0(±0) = 1, j0(x) = 1 - |x| up to 1e-38 and 1 - x²/4 up to
      1e-9. */
  lemma J0NearZero(x: Fp, m: Prims)
    requires x.IsFinite() && x.kind.mag <= Small
    ensures x.IsZero() ==> J0(x, m) == FromReal(1.0)
    ensures x.kind.mag <= Tiny ==> Value(J0(x, m)) == 1.0 - x.kind.mag
    ensures x.kind.mag > Tiny ==> Value(J0(x, m)) == 1.0 - x.kind.mag * x.kind.mag / 4.0
  {
  }

  /** On (1e-9, 1.28], j0(x) = 1 + z·R(z)/S(z) with z = x² and R, S the two
      tables evaluated at z; S(z) >= 1, so the quotient is a true
      quotient. */
  lemma J0SeriesIsQuotient(y: real)
    ensures var z := y * y;
            Horner(S0, z) >= 1.0 &&
            (J0Series(y) - 1.0) * Horner(S0, z) == z * Horner(R0, z)
  {
    var z := y * y;
    assert NonNegative(S0);
    DenominatorAtLeastOne(S0, z);
    ScaledQuotient(z, Div(Horner(R0, z), Horner(S0, z)), Horner(S0, z), Horner(R0, z));
  }

  /** q·d = n gives (z·q)·d = z·n. */
  lemma ScaledQuotient(z: real, q: real, d: real, n: real)
    requires q * d == n
    ensures (z * q) * d == z * n
  {
  }

  /** Above 1.28 (and up to 1e120), with primitives satisfying
      cos 2x = cos²x - sin²x, j0l is the textbook asymptotic form
      (P(0,x)·(sin x + cos x) - Q(0,x)·(sin x - cos x))/sqrt(π·x), written
      with 1/sqrt(π) and sqrt(x). */
  lemma J0LargeIsAsymptoticForm(y: real, m: Prims)
    requires 1.28 < y <= Asymptotic
    requires m.cos(y + y) == m.cos(y) * m.cos(y) - m.sin(y) * m.sin(y)
    requires m.sin(y) != 0.0 || m.cos(y) != 0.0
    ensures J0Large(y, m) ==
            J0Blend(P0(y), Q0(y), m.sin(y) - m.cos(y), m.sin(y) + m.cos(y), m.sqrt(y))
  {
    CombosAreSinPlusMinusCos(y, m.sin(y), m.cos(y), m.cos);
  }

  // ---------------------------------------------------------------------
  // y0l

  /** logl with the special cases of C99 Annex F section F.9.3.7:
      log(±0) = -∞, log of a number below zero (-∞ included) is an invalid
      operation, log(+∞) = +∞. */
  function LogL(x: Fp, log: real -> real): (r: Fp)
    ensures x.IsZero() ==> r == NegInf
    ensures x.neg && !x.IsZero() ==> r.IsNaN()
    ensures x == PosInf ==> r == PosInf
    ensures !x.neg && x.IsFinite() && !x.IsZero() ==> r == FromReal(log(x.kind.mag))
  {
    if x.IsNaN() then x
    else if x.IsZero() then NegInf
    else if x.neg then QNaN
    else if x.IsInf() then PosInf
    else FromReal(log(x.kind.mag))
  }

  /** a + k·l for a finite a and a positive k: a NaN or an infinity l comes
      through unchanged. */
  function AddScaled(a: real, k: real, l: Fp): (r: Fp)
    requires k > 0.0
    ensures l.IsNaN() ==> r.IsNaN()
    ensures l.IsInf() ==> r == l
    ensures l.IsFinite() ==> r.IsFinite() && Value(r) == a + k * Value(l)
  {
    if !l.IsFinite() then l else FromReal(a + k * Value(l))
  }

  /** The combination y0l returns below 1e120. */
  function Y0Blend(p: real, q: real, ss: real, cc: real, r: real): real
  {
    Div(InvSqrtPi * (p * ss + q * cc), r)
  }

  /** y0 above 1.28 on finite x. */
  function Y0Large(y: real, m: Prims): real
    requires y > 1.28
  {
    var (ss, cc) := Combos(y, m.sin(y), m.cos(y), m.cos);
    if y > Asymptotic then Div(InvSqrtPi * ss, m.sqrt(y))
    else Y0Blend(P0(y), Q0(y), ss, cc, m.sqrt(y))
  }

  /** y0 on (1e-38, 1.28]: U(z)/V(z) + (2/π)·j·log(x) with z = x², where j
      is j0(x). */
  function Y0Series(y: real, j: real, log: real -> real): real
  {
    var z := y * y;
    Div(Horner(U0, z), Horner(V0, z)) + TwoOverPi * (j * log(y))
  }

  /** What y0l returns, as a function of its argument. */
  function Y0(x: Fp, m: Prims): (r: Fp)
    ensures x.IsNaN() ==> r.IsNaN()
    ensures x == PosInf ==> r == PosZero
    ensures x.IsZero() ==> r == NegInf
    ensures x.neg && !x.IsZero() ==> r.IsNaN()
    ensures !x.neg && x.IsFinite() && !x.IsZero() ==> r.IsFinite()
  {
    if x.IsNaN() then x
    else if !x.neg && (x.IsInf() || x.kind.mag > 1.28) then
      (if x.IsInf() then PosZero else FromReal(Y0Large(x.kind.mag, m)))
    else if x.neg || x.kind.mag <= Tiny then AddScaled(U0[0], TwoOverPi, LogL(x, m.log))
    else FromReal(Y0Series(x.kind.mag, Value(J0(x, m)), m.log))
  }

  /** The branch of y0l above 1.28, on finite x. */
  method Y0Asymptotic(y: real, m: Prims) returns (v: real)
    requires y > 1.28
    ensures v == Y0Large(y, m)
  {
    var sc := Combos(y, m.sin(y), m.cos(y), m.cos);
    var ss, cc := sc.0, sc.1;
    if y > Asymptotic {
      return Div(InvSqrtPi * ss, m.sqrt(y));
    }
    var p := PZero(y);
    var q := QZero(y);
    return Y0Blend(p, q, ss, cc, m.sqrt(y));
  }

  /** The loop of y0l on (1e-38, 1.28], given j = j0(x). */
  method Y0Rational(y: real, j: real, log: real -> real) returns (v: real)
    ensures v == Y0Series(y, j, log)
  {
    var z := y * y;
    HornerLastOne(U0, z);
    HornerLastOne(V0, z);
    var u, w := HornerPair(U0, V0, z, 6, U0[7], V0[7]);
    return Div(u, w) + TwoOverPi * (j * log(y));
  }

  method Y0l(x: Fp, m: Prims) returns (r: Fp)
    ensures r == Y0(x, m)
  {
    if x.IsNaN() {
      return x;
    }
    if !x.neg && (x.IsInf() || x.kind.mag > 1.28) {
      if x.IsInf() {
        return PosZero;
      }
      var v := Y0Asymptotic(x.kind.mag, m);
      return FromReal(v);
    }
    if x.neg || x.kind.mag <= Tiny {
      return AddScaled(U0[0], TwoOverPi, LogL(x, m.log));
    }
    var j := J0l(x, m);
    var v := Y0Rational(x.kind.mag, Value(j), m.log);
    return FromReal(v);
  }

  /** On (0, 1e-38], y0(x) = u0[0] + (2/π)·log(x). */
  lemma Y0NearZero(x: Fp, m: Prims)
    requires x.IsFinite() && !x.neg && 0.0 < x.kind.mag <= Tiny
    ensures Y0(x, m) == FromReal(U0[0] + TwoOverPi * m.log(x.kind.mag))
  {
  }

  /** On (1e-38, 1.28], y0(x) - (2/π)·j0(x)·log(x) is U(z)/V(z) with
      z = x² and U, V the two tables evaluated at z; V(z) >= 1. */
  lemma Y0SeriesIsQuotient(y: real, j: real, log: real -> real)
    ensures var z := y * y;
            Horner(V0, z) >= 1.0 &&
            (Y0Series(y, j, log) - TwoOverPi * (j * log(y))) * Horner(V0, z) == Horner(U0, z)
  {
    assert NonNegative(V0);
    DenominatorAtLeastOne(V0, y * y);
  }

  /** Above 1.28 (and up to 1e120), with primitives satisfying
      cos 2x = cos²x - sin²x, y0l is the textbook asymptotic form
      (P(0,x)·(sin x - cos x) + Q(0,x)·(sin x + cos x))/sqrt(π·x). */
  lemma Y0LargeIsAsymptoticForm(y: real, m: Prims)
    requires 1.28 < y <= Asymptotic
    requires m.cos(y + y) == m.cos(y) * m.cos(y) - m.sin(y) * m.sin(y)
    requires m.sin(y) != 0.0 || m.cos(y) != 0.0
    ensures Y0Large(y, m) ==
            Y0Blend(P0(y), Q0(y), m.sin(y) - m.cos(y), m.sin(y) + m.cos(y), m.sqrt(y))
  {
    CombosAreSinPlusMinusCos(y, m.sin(y), m.cos(y), m.cos);
  }

  /** Far out both keep only the leading term: P = 1 and Q = 0 are dropped,
      j0 uses cc and y0 uses ss. */
  lemma FarAsymptotics(y: real, m: Prims)
    requires y > Asymptotic
    ensures var (ss, cc) := Combos(y, m.sin(y), m.cos(y), m.cos);
            J0Large(y, m) == Div(InvSqrtPi * cc, m.sqrt(y)) &&
            Y0Large(y, m) == Div(InvSqrtPi * ss, m.sqrt(y))
  {
  }
}
