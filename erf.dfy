/** erfl and erfcl on quadruple precision (Q/erfl.c), over exact reals.
    erf is evaluated on |x| by interval: an odd polynomial up to 0.84375,
    rational corrections around 1 and 1.5 up to 1.75, 1 - erfc up to 9 and
    1 - tiny beyond; the sign of x is applied at the end.  erfc hands
    x <= 0.25 (negative x included) back to erf, uses the same polynomials up
    to 1.75, and above that exp(-x²) times a rational function of x, with x²
    split so that its leading part squares exactly.

    The polynomial evaluator __poly_libmq is Horner's scheme on a table
    stored lowest degree first; expl is a parameter. */
module Erf {
  import opened Ieee
  import opened Poly
  import opened ErfTables

  const Tiny: real := 1.0e-40
  const NearUnfl: real := 1.0e-4000
  const L16Over3: real := 16.0 / 3.0
  /** (float)0.84506291151 */
  const C1: real := 14177803.0 / 16777216.0
  /** (float)0.95478588343 */
  const C2: real := 16018649.0 / 16777216.0

  /** The intervals erfl dispatches |x| on. */
  datatype ErfInterval = Small | AroundOne | AroundThreeHalves | Tail | Far

  /** The interval each bound of erfl describes, as an independent reading
      of its comparisons. */
  predicate InInterval(b: ErfInterval, y: real)
  {
    match b
    case Small => 0.0 <= y <= 0.84375
    case AroundOne => 0.84375 < y <= 1.25
    case AroundThreeHalves => 1.25 < y <= 1.75
    case Tail => 1.75 < y <= 9.0
    case Far => 9.0 < y
  }

  /** The chain of comparisons erfl makes on y = |x|. */
  function IntervalOf(y: real): ErfInterval
  {
    if y <= 0.84375 then Small
    else if y <= 1.25 then AroundOne
    else if y <= 1.75 then AroundThreeHalves
    else if y <= 9.0 then Tail
    else Far
  }

  /** The comparisons pick, for every non-negative y, the one interval that
      contains it: the intervals are exhaustive and disjoint. */
  lemma IntervalsPartition(y: real)
    requires y >= 0.0
    ensures InInterval(IntervalOf(y), y)
    ensures forall b: ErfInterval :: InInterval(b, y) ==> b == IntervalOf(y)
  {
  }

  /** erf on [0, 0.84375] and its negative: x + x·P(x²). */
  function ErfSmall(x: real): real
  {
    x + x * Horner(P, x * x)
  }

  /** erfc on (0.25, 0.84375]: 0.5 + ((0.5 - x) - x·P(x²)), the same
      polynomial as ErfSmall taken from 1 in a well-conditioned order. */
  function ErfcSmall(x: real): real
  {
    0.5 + ((0.5 - x) - x * Horner(P, x * x))
  }

  /** P1(s)/(1 + s·Q1(s)) with s = y - 1: the part of erf on (0.84375, 1.25]
      beyond C1. */
  function AroundOneRatio(s: real): real
  {
    Div(Horner(P1, s), 1.0 + s * Horner(Q1, s))
  }

  /** P2(s)/(1 + s·Q2(s)) with s = y - 1.5: the part of erf on (1.25, 1.75]
      beyond C2. */
  function AroundThreeHalvesRatio(s: real): real
  {
    Div(Horner(P2, s), 1.0 + s * Horner(Q2, s))
  }

  /** The rational factor of erfc(x)·exp(x²) on (1.75, 107), chosen at 16/3. */
  function TailRatio(x: real): real
  {
    if x >= L16Over3 then Div(Horner(R2, x), Horner(S2, x))
    else Div(Horner(R1, x), Horner(S1, x))
  }

  /** erfc on (1.75, 107): the rational factor times expl(-y·y)·expl(-(x-y)(x+y))
      for y the high part of x. */
  function ErfcTail(x: real, exp: real -> real): real
    requires x >= 1.0
  {
    TailRatio(x) * ExpSplit(exp, x, HighPart(x))
  }

  /** expl(-y·y)·expl(-(x-y)·(x+y)): exp(-x²) computed from the split of x² at y. */
  function ExpSplit(exp: real -> real, x: real, y: real): real
  {
    exp(-y * y) * exp(-(x - y) * (x + y))
  }

  /** t or -t as the sign bit of x says (signbitl(x) ? -t : t). */
  function Signed(neg: bool, t: real): real
  {
    if neg then -t else t
  }

  /** The exponent of x >= 1: the e with 2^e <= x < 2^(e+1). */
  function Binade(x: real): (e: nat)
    requires x >= 1.0
    ensures Pow2(e) <= x < 2.0 * Pow2(e)
    decreases x.Floor
  {
    if x < 2.0 then 0 else 1 + Binade(x / 2.0)
  }

  /** Bits of the fraction field kept by HighPart: the two upper 32-bit words
      of a quadruple hold the sign, 15 exponent bits and 48 fraction bits. */
  const KeptFractionBits: nat := 48
  /** 2^48, the scale of the 49-bit significand HighPart keeps. */
  const SignificandScale: nat := 281474976710656

  /** The weight of the last fraction bit HighPart keeps for an x in binade e. */
  function HighUnit(e: nat): (u: real)
    ensures u > 0.0
  {
    Pow2(e) / SignificandScale as real
  }

  /** y = x with the two low 32-bit words of its quadruple encoding zeroed:
      x truncated to 49 significant bits. */
  function HighPart(x: real): (y: real)
    requires x >= 1.0
  {
    var u := HighUnit(Binade(x));
    ((x / u).Floor as real) * u
  }

  /** y is x truncated: below x by less than the weight of the last kept bit,
      and an integer multiple k of that weight with k of exactly 49 bits, so
      y·y (98 bits) is exact in the 113-bit significand. */
  lemma HighPartBounds(x: real)
    requires x >= 1.0
    ensures var u := HighUnit(Binade(x));
            && 0.0 <= x - HighPart(x) < u
            && SignificandScale <= (x / u).Floor < 2 * SignificandScale
  {
    var u := HighUnit(Binade(x));
    TruncationBounds(x, u, HighPart(x));
    SignificandBits(x, Binade(x));
  }

  /** x/u, and with it its floor, lies in [2^48, 2^49) for u the weight of
      the last kept bit of x's binade. */
  lemma SignificandBits(x: real, e: nat)
    requires Pow2(e) <= x < 2.0 * Pow2(e)
    ensures SignificandScale <= (x / HighUnit(e)).Floor < 2 * SignificandScale
  {
    var p := Pow2(e);
    var n := SignificandScale as real;
    var u := HighUnit(e);
    assert u == p / n;
    QuotientByRatio(x, p, n);
    QuotientInBinade(x, p, n);
  }

  lemma QuotientByRatio(x: real, p: real, n: real)
    requires p > 0.0 && n > 0.0
    ensures x / (p / n) == x * n / p
  {
  }

  /** Cutting x down to a whole multiple y of u loses less than u. */
  lemma TruncationBounds(x: real, u: real, y: real)
    requires u > 0.0 && y == ((x / u).Floor as real) * u
    ensures 0.0 <= x - y < u
  {
    var q := x / u;
    FloorBounds(q);
    ScaleBounds(x, u, q, q.Floor as real);
  }

  lemma ScaleBounds(x: real, u: real, q: real, f: real)
    requires u > 0.0 && q * u == x && q - 1.0 < f <= q
    ensures 0.0 <= x - f * u < u
  {
    var d := q - f;
    Distribute(q, f, u, d);
    ProductBelow(d, u);
    assert d * u == x - f * u;
    assert d * u < u;
  }

  lemma Distribute(q: real, f: real, u: real, d: real)
    requires d == q - f
    ensures d * u == q * u - f * u
  {
  }

  lemma ProductBelow(d: real, u: real)
    requires 0.0 <= d < 1.0 && u > 0.0
    ensures 0.0 <= d * u < u
  {
  }

  /** x·2^48/2^e lies in [2^48, 2^49) when x is in the binade of 2^e, and so
      does its floor. */
  lemma QuotientInBinade(x: real, p: real, n: real)
    requires p >= 1.0 && p <= x < 2.0 * p
    requires n >= 1.0 && n == n.Floor as real
    ensures n <= x * n / p < 2.0 * n
    ensures n.Floor <= (x * n / p).Floor < 2 * n.Floor
  {
    var q := x * n / p;
    var xn := x * n;
    var pn := p * n;
    assert q * p == xn;
    MulMonotone(p, x, n);
    assert pn <= xn;
    MulStrict(x, 2.0 * p, n);
    assert (2.0 * p) * n == 2.0 * pn;
    assert xn < 2.0 * pn;
    CancelLe(n, q, p, pn, xn);
    CancelLt(q, 2.0 * n, p, xn, 2.0 * pn);
  }

  /** a·c <= b·c with c > 0 gives a <= b. */
  lemma CancelLe(a: real, b: real, c: real, ac: real, bc: real)
    requires c > 0.0 && ac == a * c && bc == b * c && ac <= bc
    ensures a <= b
  {
    if a > b {
      MulStrict(b, a, c);
    }
  }

  /** a·c < b·c with c > 0 gives a < b. */
  lemma CancelLt(a: real, b: real, c: real, ac: real, bc: real)
    requires c > 0.0 && ac == a * c && bc == b * c && ac < bc
    ensures a < b
  {
    if a >= b {
      MulMonotone(b, a, c);
    }
  }

  lemma MulMonotone(a: real, b: real, c: real)
    requires a <= b && c >= 0.0
    ensures a * c <= b * c
  {
  }

  lemma MulStrict(a: real, b: real, c: real)
    requires a < b && c > 0.0
    ensures a * c < b * c
  {
  }

  lemma FloorBounds(q: real)
    ensures q - 1.0 < q.Floor as real <= q
  {
  }

  /** The portable construction in the comment of erfcl: i = (int)(x·ptwo)
      (a truncation toward zero, which is the floor for x > 0, and which must
      not overflow a 32-bit int), y = i/ptwo. */
  function PortableHighPart(x: real, ptwo: nat): (y: real)
    requires 0.0 < x && ptwo > 0 && x * ptwo as real < 2147483648.0
  {
    var i := (x * ptwo as real).Floor;
    i as real / ptwo as real
  }

  /** The portable y is below x by less than 1/ptwo. */
  lemma PortableHighPartBounds(x: real, ptwo: nat)
    requires 0.0 < x && ptwo > 0 && x * ptwo as real < 2147483648.0
    ensures 0.0 <= x - PortableHighPart(x, ptwo) < 1.0 / ptwo as real
  {
    var p := ptwo as real;
    var i := (x * p).Floor;
    FloorBounds(x * p);
    DivideBounds(x, i as real, p);
  }

  lemma DivideBounds(x: real, k: real, p: real)
    requires p > 0.0 && x * p - 1.0 < k <= x * p
    ensures 0.0 <= x - k / p < 1.0 / p
  {
    assert k / p <= x by {
      assert k / p * p == k;
    }
    assert x - k / p < 1.0 / p by {
      assert (x - k / p) * p == x * p - k;
    }
  }

  /** x² = y² + (x - y)(x + y): the exponent of expl(-x²) split in two. */
  lemma SplitSquare(x: real, y: real)
    ensures y * y + (x - y) * (x + y) == x * x
  {
  }

  /** A rank that decreases along the mutual recursion: erfcl hands
      x <= 0.25 to erfl, and erfl hands |x| in (1.75, 9] to erfcl, where it
      does not recurse again. */
  function ErfcRank(x: Fp): nat
  {
    if x.IsFinite() && Value(x) <= 0.25 then 2 else 0
  }

  /** erfl(x).  A NaN propagates (x + x), ±Inf gives ±1. */
  function Erfl(x: Fp, exp: real -> real): (r: Fp)
    ensures x.IsNaN() ==> r.IsNaN()
    ensures x.IsInf() ==> r == Fp(x.neg, Finite(1.0))
    ensures x.IsFinite() ==> r.IsFinite()
    ensures x.IsZero() ==> r == x
    decreases 1
  {
    if x.IsNaN() then x
    else if x.IsInf() then Fp(x.neg, Finite(1.0))
    else
      var y: real := x.kind.mag;
      match IntervalOf(y)
      case Small =>
        if y <= Tiny then
          // x + P[0]·x keeps the sign of x, a zero's included
          Fp(x.neg, Finite(y + P[0] * y))
        else
          FromReal(ErfSmall(Value(x)))
      case AroundOne => FromReal(Signed(x.neg, C1 + AroundOneRatio(y - 1.0)))
      case AroundThreeHalves => FromReal(Signed(x.neg, C2 + AroundThreeHalvesRatio(y - 1.5)))
      case Tail =>
        var t := Value(Erfcl(FromReal(y), exp));
        FromReal(if x.neg then t - 1.0 else 1.0 - t)
      case Far => FromReal(if x.neg then Tiny - 1.0 else 1.0 - Tiny)
  }

  /** erfcl(x).  A NaN propagates, -Inf gives 2 and +Inf gives 0. */
  function Erfcl(x: Fp, exp: real -> real): (r: Fp)
    ensures x.IsNaN() ==> r.IsNaN()
    ensures x.IsInf() ==> r == (if x.neg then FromReal(2.0) else PosZero)
    ensures x.IsFinite() ==> r.IsFinite()
    ensures x.IsZero() ==> r == FromReal(1.0)
    decreases ErfcRank(x)
  {
    if x.IsNaN() then x
    else if x.IsInf() then (if x.neg then FromReal(2.0) else PosZero)
    else
      var v := Value(x);
      if v <= 0.84375 then
        if v <= 0.25 then FromReal(1.0 - Value(Erfl(x, exp)))
        else FromReal(ErfcSmall(v))
      else if v <= 1.25 then FromReal((1.0 - C1) - AroundOneRatio(v - 1.0))
      else if v <= 1.75 then FromReal((1.0 - C2) - AroundThreeHalvesRatio(v - 1.5))
      else if v >= 107.0 then FromReal(NearUnfl * NearUnfl)
      else FromReal(ErfcTail(v, exp))
  }

  /** The small-interval expression is odd. */
  lemma ErfSmallOdd(x: real)
    ensures ErfSmall(-x) == -ErfSmall(x)
  {
    var t := Horner(P, x * x);
    assert (-x) * (-x) == x * x;
    OddTerm(x, -x, t);
  }

  lemma OddTerm(v: real, w: real, t: real)
    requires w == -v
    ensures w + w * t == -(v + v * t)
  {
  }

  /** erf is odd: erfl(-x) = -erfl(x) for every x that is not a NaN (as
      values for finite x, bit for bit for infinities). */
  lemma ErflOdd(x: Fp, exp: real -> real)
    requires !x.IsNaN()
    ensures x.IsInf() ==> Erfl(Neg(x), exp) == Neg(Erfl(x, exp))
    ensures x.IsFinite() ==> Value(Erfl(Neg(x), exp)) == -Value(Erfl(x, exp))
  {
    if x.IsFinite() {
      var y: real := x.kind.mag;
      if y <= Tiny {
        ErflOddTiny(x, exp);
      } else if y <= 0.84375 {
        ErflOddSmall(x, exp);
      } else if y <= 1.75 {
        ErflOddSigned(x, exp);
      } else {
        ErflOddTail(x, exp);
      }
    }
  }

  lemma ErflOddTiny(x: Fp, exp: real -> real)
    requires x.IsFinite() && x.kind.mag <= Tiny
    ensures Value(Erfl(Neg(x), exp)) == -Value(Erfl(x, exp))
  {
    assert Neg(x).kind.mag == x.kind.mag;
  }

  lemma ErflOddSmall(x: Fp, exp: real -> real)
    requires x.IsFinite() && Tiny < x.kind.mag <= 0.84375
    ensures Value(Erfl(Neg(x), exp)) == -Value(Erfl(x, exp))
  {
    hide Erfl, ErfSmall;
    ErflSmallBranch(x, exp);
    assert Neg(x).kind.mag == x.kind.mag && Value(Neg(x)) == -Value(x);
    ErflSmallBranch(Neg(x), exp);
    ErfSmallOdd(Value(x));
  }

  /** Between tiny and 0.84375 erfl is the odd polynomial x + x·P(x²). */
  lemma ErflSmallBranch(x: Fp, exp: real -> real)
    requires x.IsFinite() && Tiny < x.kind.mag <= 0.84375
    ensures Value(Erfl(x, exp)) == ErfSmall(Value(x))
  {
    hide Erfcl, ErfSmall;
  }

  /** Above 0.84375 erfl works on |x| and applies the sign at the end. */
  lemma ErflOddSigned(x: Fp, exp: real -> real)
    requires x.IsFinite() && 0.84375 < x.kind.mag <= 1.75
    ensures Value(Erfl(Neg(x), exp)) == -Value(Erfl(x, exp))
  {
    assert Neg(x).kind.mag == x.kind.mag;
  }

  lemma ErflOddTail(x: Fp, exp: real -> real)
    requires x.IsFinite() && 1.75 < x.kind.mag
    ensures Value(Erfl(Neg(x), exp)) == -Value(Erfl(x, exp))
  {
    assert Neg(x).kind.mag == x.kind.mag;
  }

  /** Above 9 erfl is ±(1 - tiny). */
  lemma ErflFar(x: Fp, exp: real -> real)
    requires x.IsFinite() && x.kind.mag > 9.0
    ensures Value(Erfl(x, exp)) == (if x.neg then Tiny - 1.0 else 1.0 - Tiny)
  {
  }

  /** erf(x) + erfc(x) = 1 exactly, for every finite x <= 9 (negative x
      included): erfcl is 1 - erfl up to 0.25, each interval of erfcl up to
      1.75 is 1 minus the expression erfl uses there, and on (1.75, 9] erfl
      is 1 - erfcl. */
  lemma ErfPlusErfc(x: Fp, exp: real -> real)
    requires x.IsFinite() && Value(x) <= 9.0
    ensures Value(Erfl(x, exp)) + Value(Erfcl(x, exp)) == 1.0
  {
    var v := Value(x);
    if v > 0.25 {
      assert !x.neg && x.kind.mag == v;
      if v > 1.75 {
        assert FromReal(v) == x;
      }
    }
  }

  /** erfc(-x) = 2 - erfc(x) exactly, for every finite x with |x| <= 9: the
      identity erf + erfc = 1 on both sides and the odd symmetry of erfl. */
  lemma ErfcReflect(x: Fp, exp: real -> real)
    requires x.IsFinite() && -9.0 <= Value(x) <= 9.0
    ensures Value(Erfcl(Neg(x), exp)) == 2.0 - Value(Erfcl(x, exp))
  {
    ErfPlusErfc(x, exp);
    ErfPlusErfc(Neg(x), exp);
    ErflOdd(x, exp);
  }

  /** erfcl gives the underflowing nearunfl² from 107 on. */
  lemma ErfclUnderflow(x: Fp, exp: real -> real)
    requires x.IsFinite() && Value(x) >= 107.0
    ensures Value(Erfcl(x, exp)) == NearUnfl * NearUnfl
  {
  }

  /** expl turns the sum of the two parts of the split -x² = -y² - (x-y)(x+y)
      into the product of their exponentials. */
  predicate SplitAdds(exp: real -> real, x: real, y: real)
  {
    exp(-(y * y) + -((x - y) * (x + y))) == exp(-y * y) * exp(-(x - y) * (x + y))
  }

  /** On (1.75, 107) erfcl is the tail expression: the rational factor times
      the split exponential. */
  lemma ErfclTail(x: Fp, exp: real -> real)
    requires x.IsFinite() && 1.75 < Value(x) < 107.0
    ensures Value(Erfcl(x, exp)) == ErfcTail(Value(x), exp)
  {
  }

  /** The split exponentials multiply back to expl(-x²), for any split point y
      at which expl adds exponents. */
  lemma SplitExp(x: real, y: real, exp: real -> real)
    requires SplitAdds(exp, x, y)
    ensures ExpSplit(exp, x, y) == exp(-(x * x))
  {
    var a := y * y;
    var b := (x - y) * (x + y);
    SplitSquare(x, y);
    assert a + b == x * x;
    assert -a + -b == -(x * x);
    assert -y * y == -a;
  }
}
