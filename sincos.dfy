/** __vsincosf (mvec/__vsincosf.c): single-precision sine and cosine of n
    inputs read through a stride, written to two outputs through their own
    strides.  Each input is classified on the bits of its single-precision
    pattern.  Zeros, infinities, NaNs and huge arguments are written at once;
    the others are gathered in groups of up to four lanes that share one
    `medium` flag, reduced by the nearest multiple of π/2 when that flag is
    set, evaluated by two polynomials and fixed up by quadrant.

    Arithmetic is over exact reals: the (double) and (float) conversions
    round nothing here.  __vlibm_rem_pio2m is a parameter. */
module SinCos {
  import opened Ieee
  import Poly

  /** A 32-bit pattern, as read through `*(int *)x`. */
  type Bits32 = b: int | 0 <= b < 0x1_0000_0000

  /** The polynomial coefficients of the table C, taken as opaque reals:
      no property here depends on their values, which in the library are
      S0 = -1.66666552424430847168e-01, S1 = 8.33219196647405624390e-03,
      S2 = -1.95187909412197768688e-04, C0 = 4.16666455566883087158e-02,
      C1 = -1.38873036485165357590e-03, C2 = 2.44309903791872784495e-05. */
  const S0: real
  const S1: real
  const S2: real
  const C0: real
  const C1: real
  const C2: real
  /** S0 + z·(S1 + z·S2) and mhalf + z·(C0 + z·(C1 + z·C2)) are these
      tables in Horner's scheme. */
  const SinTable: seq<real> := [S0] + [S1, S2]
  const CosTable: seq<real> := [-0.5] + [C0, C1, C2]
  /** 2/π */
  const InvPio2: real := 0.636619772367581343075535
  /** π/2 in two parts */
  const Pio2_1: real := 1.570796326734125614166
  const Pio2_t: real := 6.077100506506192601475e-11

  /** The pattern of the largest lane taken as small (a float just above
      π/4), without its sign bit. */
  const Boundary: int := 0x3f490fdb

  /** __vlibm_rem_pio2m on |x|: the quadrant count and the reduced
      argument. */
  type RemPio2 = real -> (int, real)

  // ---------------------------------------------------------------------
  // Decoding a single-precision pattern

  lemma {:induction false} Pow2Monotone(i: nat, j: nat)
    requires i <= j
    ensures Poly.Pow2(i) <= Poly.Pow2(j)
    decreases j
  {
    if i < j {
      Pow2Monotone(i, j - 1);
    }
  }

  /** sig·2^(e-150): a significand and a biased exponent. */
  function Scale(sig: nat, e: int): (r: real)
    ensures r >= 0.0
    ensures sig > 0 ==> r > 0.0
  {
    if e >= 150 then sig as real * Poly.Pow2(e - 150) else sig as real / Poly.Pow2(150 - e)
  }

  /** The sign bit: `hx < 0`. */
  predicate SignBit(b: Bits32)
  {
    b >= 0x8000_0000
  }

  /** `hx & 0x7fffffff`. */
  function Ix(b: Bits32): int
  {
    b % 0x8000_0000
  }

  /** The magnitude of a finite pattern without its sign bit. */
  function MagnitudeOf(ix: int): (r: real)
    requires 0 <= ix < 0x7f80_0000
    ensures r >= 0.0 && (r == 0.0 <==> ix == 0)
  {
    var e := ix / 0x80_0000;
    var m := ix % 0x80_0000;
    if e == 0 then Scale(m, 1) else Scale(0x80_0000 + m, e)
  }

  /** The float a pattern stands for. */
  function Decode(b: Bits32): (t: Fp)
    ensures t.neg == SignBit(b)
    ensures t.IsFinite() <==> Ix(b) < 0x7f80_0000
    ensures t.IsNaN() <==> Ix(b) > 0x7f80_0000
    ensures t.IsZero() <==> Ix(b) == 0
  {
    var ix := Ix(b);
    if ix == 0x7f80_0000 then Fp(SignBit(b), Inf)
    else if ix > 0x7f80_0000 then Fp(SignBit(b), NaN)
    else Fp(SignBit(b), Finite(MagnitudeOf(ix)))
  }

  lemma Pow2Values()
    ensures Poly.Pow2(24) == 16777216.0 && Poly.Pow2(25) == 33554432.0
  {
    assert Poly.Pow2(8) == 256.0;
    assert Poly.Pow2(16) == 65536.0;
  }

  /** A significand below 2^24 scaled down by at least 2^25 is below 1/2. */
  lemma SmallQuotient(sig: real, d: real)
    requires 0.0 <= sig < 16777216.0 && d >= 33554432.0
    ensures sig / d < 0.5
  {
    assert sig < d * 0.5;
  }

  /** Every pattern up to `Boundary` is at most the float just above π/4,
      and every pattern below it is at most the float just below. */
  lemma SmallMagnitude(ix: int)
    requires 0 <= ix <= Boundary
    ensures MagnitudeOf(ix) <= 13176795.0 / 16777216.0
    ensures ix < Boundary ==> MagnitudeOf(ix) <= 13176794.0 / 16777216.0
  {
    var e := ix / 0x80_0000;
    var m := ix % 0x80_0000;
    assert e <= 126;
    Pow2Values();
    if e == 126 {
      assert m <= 0x490fdb && (ix < Boundary ==> m <= 0x490fda);
    } else {
      Pow2Monotone(25, 149);
      Pow2Monotone(25, 150 - e);
      if e == 0 {
        SmallQuotient(m as real, Poly.Pow2(149));
      } else {
        SmallQuotient((0x80_0000 + m) as real, Poly.Pow2(150 - e));
      }
    }
  }

  // ---------------------------------------------------------------------
  // Classification

  datatype Class = Zero | Small | Medium | Large | Special

  /** PREPROCESS's chain of comparisons on `ix`. */
  function ClassOf(b: Bits32): Class
  {
    var ix := Ix(b);
    if ix <= Boundary then (if ix == 0 then Zero else Small)
    else if ix <= 0x49c90fdb then Medium
    else if ix >= 0x7f80_0000 then Special
    else Large
  }

  /** The classes in terms of the value: zero is exactly ±0, special is
      exactly Inf and NaN, and a small lane lies in 0 < |x| <= 0.7853982. */
  lemma ClassMeaning(b: Bits32)
    ensures ClassOf(b) == Zero <==> Decode(b).IsZero()
    ensures ClassOf(b) == Special <==> !Decode(b).IsFinite()
    ensures ClassOf(b) == Small ==>
              0.0 < Decode(b).kind.mag <= 13176795.0 / 16777216.0
  {
    if ClassOf(b) == Small {
      SmallMagnitude(Ix(b));
    }
  }

  /** The lanes gathered into a group: the others are written at once. */
  predicate Pipelined(b: Bits32)
  {
    ClassOf(b) == Small || ClassOf(b) == Medium
  }

  // ---------------------------------------------------------------------
  // Evaluation of one lane

  /** y + y·z·(S0 + z·(S1 + z·S2)) with z = y². */
  function SinPoly(y: real): real
  {
    var z := y * y;
    y + y * z * Poly.Horner(SinTable, z)
  }

  /** 1 + z·(mhalf + z·(C0 + z·(C1 + z·C2))) with z = y². */
  function CosPoly(y: real): real
  {
    var z := y * y;
    1.0 + z * Poly.Horner(CosTable, z)
  }

  lemma SinPolyOdd(y: real)
    ensures SinPoly(-y) == -SinPoly(y)
  {
    assert (-y) * (-y) == y * y;
  }

  lemma CosPolyEven(y: real)
    ensures CosPoly(-y) == CosPoly(y)
  {
    assert (-y) * (-y) == y * y;
  }

  /** The nearest integer, ties to even, as adding 1.5·2^52 and reading the
      low word delivers it. */
  function RoundNearest(v: real): (q: int)
    ensures -0.5 <= v - q as real <= 0.5
    ensures v - q as real == 0.5 ==> q % 2 == 0
    ensures v - q as real == -0.5 ==> q % 2 == 0
  {
    var f := v.Floor;
    var d := v - f as real;
    if d < 0.5 then f
    else if d > 0.5 then f + 1
    else if f % 2 == 0 then f else f + 1
  }

  /** Rounding to nearest, ties to even, commutes with negation. */
  lemma RoundNearestOdd(v: real)
    ensures RoundNearest(-v) == -RoundNearest(v)
  {
  }

  /** The medium reduction of y: quadrant count n = y·(2/π) rounded and the
      reduced argument (y - n·pio2_1) - n·pio2_t. */
  function Reduce(y: real): (nr: (int, real))
    ensures nr.1 + nr.0 as real * (Pio2_1 + Pio2_t) == y
    ensures -0.5 <= y * InvPio2 - nr.0 as real <= 0.5
  {
    var q := RoundNearest(y * InvPio2);
    (q, (y - q as real * Pio2_1) - q as real * Pio2_t)
  }

  /** Up to 0.7853981 (every small pattern but `Boundary`), the reduction
      changes nothing. */
  lemma ReduceBelowQuarterPi(y: real)
    requires -13176794.0 / 16777216.0 <= y <= 13176794.0 / 16777216.0
    ensures Reduce(y) == (0, y)
  {
    assert -0.5 < y * InvPio2 < 0.5;
  }

  /** At the pattern `Boundary` itself the reduction moves to quadrant 1,
      with a negative remainder. */
  lemma ReduceAtBoundary()
    ensures Reduce(13176795.0 / 16777216.0).0 == 1
    ensures Reduce(13176795.0 / 16777216.0).1 < 0.0
  {
    assert 0.5 < (13176795.0 / 16777216.0) * InvPio2 < 1.5;
  }

  lemma ReduceOdd(y: real)
    ensures Reduce(-y) == (-Reduce(y).0, -Reduce(y).1)
  {
    RoundNearestOdd(y * InvPio2);
    assert (-y) * InvPio2 == -(y * InvPio2);
  }

  /** The quadrant fix-up: on `n & 2` both values are negated, on `n & 1`
      the sine slot gets g and the cosine slot -f.  For a two's complement n
      those bits are those of n mod 4. */
  function Fixup(n: int, f: Fp, g: Fp): (Fp, Fp)
  {
    var q := n % 4;
    var (f1, g1) := if q >= 2 then (Neg(f), Neg(g)) else (f, g);
    if q % 2 == 1 then (g1, Neg(f1)) else (f1, g1)
  }

  /** n mod 4 steps through 0, 1, 2, 3 and back to 0. */
  lemma QuadrantStep(n: int)
    ensures (n + 1) % 4 == if n % 4 == 3 then 0 else n % 4 + 1
  {
  }

  /** One more quadrant turns (sin, cos) into (cos, -sin). */
  lemma FixupQuarterTurn(n: int, f: Fp, g: Fp)
    ensures Fixup(n + 1, f, g) == (Fixup(n, f, g).1, Neg(Fixup(n, f, g).0))
  {
    QuadrantStep(n);
  }

  /** Four quadrants are the identity. */
  lemma FixupPeriodic(n: int, f: Fp, g: Fp)
    ensures Fixup(n + 4, f, g) == Fixup(n, f, g)
  {
    assert (n + 4) % 4 == n % 4;
  }

  /** The opposite quadrant with the opposite sine gives the opposite sine
      and the same cosine. */
  lemma FixupMirror(n: int, f: Fp, g: Fp)
    ensures Fixup(-n, Neg(f), g) == (Neg(Fixup(n, f, g).0), Fixup(n, f, g).1)
  {
    assert (-n) % 4 == (4 - n % 4) % 4;
  }

  /** The two outputs of a lane with quadrant count n and reduced argument
      r: both polynomials, then the fix-up. */
  function Outputs(n: int, r: real): (Fp, Fp)
  {
    Fixup(n, FromReal(SinPoly(r)), FromReal(CosPoly(r)))
  }

  /** `t / t` for an infinity or a NaN t. */
  function SelfQuotient(t: Fp): (r: Fp)
    requires !t.IsFinite()
    ensures r.IsNaN()
  {
    if t.IsNaN() then t else QNaN
  }

  /** What PREPROCESS writes at once for a lane that is not gathered. */
  function Immediate(b: Bits32, rem: RemPio2): (sc: (Fp, Fp))
    requires !Pipelined(b)
    ensures ClassOf(b) == Zero ==> sc.0 == Decode(b) && sc.0.IsZero() && sc.1 == FromReal(1.0)
    ensures ClassOf(b) == Special ==> sc.0.IsNaN() && sc.1.IsNaN()
    ensures ClassOf(b) == Large ==> sc.0.IsFinite() && sc.1.IsFinite()
  {
    var t := Decode(b);
    match ClassOf(b)
    case Zero => (t, FromReal(1.0))
    case Special => (SelfQuotient(t), SelfQuotient(t))
    case Large =>
      var (n, r) := rem(t.kind.mag);
      if SignBit(b) then Outputs(-n, -r) else Outputs(n, r)
  }

  /** PROCESS on a gathered lane of value y: reduced when the group's
      `medium` flag is set, taken as it is (quadrant 0) otherwise. */
  function LaneOut(y: real, medium: bool): (Fp, Fp)
  {
    if medium then Outputs(Reduce(y).0, Reduce(y).1) else Outputs(0, y)
  }

  /** A gathered lane's value. */
  function Arg(b: Bits32): real
    requires Pipelined(b)
  {
    Value(Decode(b))
  }

  /** The outputs of one input evaluated on its own (a call with n = 1). */
  function Alone(b: Bits32, rem: RemPio2): (Fp, Fp)
  {
    if Pipelined(b) then LaneOut(Arg(b), ClassOf(b) == Medium) else Immediate(b, rem)
  }

  // ---------------------------------------------------------------------
  // Groups and the order of the writes

  datatype Option<T> = None | Some(value: T)

  /** One store into both outputs, for input `lane`. */
  datatype Write = Write(lane: nat, sin: Fp, cos: Fp)

  /** The count of gathered lanes from k: at most four, stopping before the
      end of the input or the first lane written at once. */
  function Run(xs: seq<Bits32>, k: nat): (j: nat)
    requires k <= |xs|
    ensures j <= 4 && k + j <= |xs|
    ensures forall i :: k <= i < k + j ==> Pipelined(xs[i])
    ensures j < 4 && k + j < |xs| ==> !Pipelined(xs[k + j])
  {
    RunFrom(xs, k, 0)
  }

  function RunFrom(xs: seq<Bits32>, k: nat, j: nat): (r: nat)
    requires j <= 4 && k + j <= |xs|
    requires forall i :: k <= i < k + j ==> Pipelined(xs[i])
    ensures j <= r <= 4 && k + r <= |xs|
    ensures forall i :: k <= i < k + r ==> Pipelined(xs[i])
    ensures r < 4 && k + r < |xs| ==> !Pipelined(xs[k + r])
    decreases 4 - j
  {
    if j < 4 && k + j < |xs| && Pipelined(xs[k + j]) then RunFrom(xs, k, j + 1) else j
  }

  /** Whether a lane among xs[k..k+j] is medium: the group's shared flag. */
  predicate AnyMedium(xs: seq<Bits32>, k: nat, j: nat)
    requires k + j <= |xs|
  {
    exists i :: k <= i < k + j && ClassOf(xs[i]) == Medium
  }

  /** The values of the gathered lanes k .. k+j-1. */
  function Args(xs: seq<Bits32>, k: nat, j: nat): (ys: seq<real>)
    requires k + j <= |xs|
    requires forall i :: k <= i < k + j ==> Pipelined(xs[i])
    ensures |ys| == j
  {
    if j == 0 then [] else Args(xs, k, j - 1) + [Arg(xs[k + j - 1])]
  }

  /** The stores of gathered lanes of values ys from input k on, in order. */
  function Lanes(k: nat, ys: seq<real>, medium: bool): (w: seq<Write>)
    ensures |w| == |ys|
  {
    if |ys| == 0 then []
    else Lanes(k, ys[..|ys| - 1], medium) + [LaneWrite(k + |ys| - 1, ys[|ys| - 1], medium)]
  }

  /** The stores of the gathered lanes k .. k+j-1, in order. */
  function PipeWrites(xs: seq<Bits32>, k: nat, j: nat, medium: bool): (w: seq<Write>)
    requires k + j <= |xs|
    requires forall i :: k <= i < k + j ==> Pipelined(xs[i])
    ensures |w| == j
  {
    Lanes(k, Args(xs, k, j), medium)
  }

  /** The store of a gathered lane of value y. */
  function LaneWrite(l: nat, y: real, medium: bool): (w: Write)
    ensures w.lane == l
  {
    var out := LaneOut(y, medium);
    Write(l, out.0, out.1)
  }

  /** A lane written at once. */
  function ImmediateWrite(xs: seq<Bits32>, l: nat, rem: RemPio2): (w: Write)
    requires l < |xs| && !Pipelined(xs[l])
    ensures w.lane == l
  {
    var out := Immediate(xs[l], rem);
    Write(l, out.0, out.1)
  }

  /** Whether the group from k ends with a lane written at once. */
  predicate CutShort(xs: seq<Bits32>, k: nat)
    requires k <= |xs|
  {
    Run(xs, k) < 4 && k + Run(xs, k) < |xs|
  }

  /** The store of the lane that cuts the group from k short, if any. */
  function CutWrites(xs: seq<Bits32>, k: nat, rem: RemPio2): seq<Write>
    requires k < |xs|
  {
    if CutShort(xs, k) then [ImmediateWrite(xs, k + Run(xs, k), rem)] else []
  }

  /** The stores of the group starting at input k: a lane written at once
      comes first, then the gathered lanes in order. */
  function GroupWrites(xs: seq<Bits32>, k: nat, rem: RemPio2): seq<Write>
    requires k < |xs|
  {
    CutWrites(xs, k, rem) + PipeWrites(xs, k, Run(xs, k), AnyMedium(xs, k, Run(xs, k)))
  }

  /** The number of inputs the group starting at k consumes. */
  function GroupSize(xs: seq<Bits32>, k: nat): (g: nat)
    requires k < |xs|
    ensures 1 <= g && k + g <= |xs|
  {
    if CutShort(xs, k) then Run(xs, k) + 1 else Run(xs, k)
  }

  /** Every store __vsincosf makes, in order, from input k on. */
  function Trace(xs: seq<Bits32>, k: nat, rem: RemPio2): seq<Write>
    requires k <= |xs|
    decreases |xs| - k
  {
    if k == |xs| then [] else GroupWrites(xs, k, rem) + Trace(xs, k + GroupSize(xs, k), rem)
  }

  /** The element a strided access reaches after k steps. */
  function Slot(base: int, stride: int, k: int): int
  {
    base + k * stride
  }

  /** The sine (or cosine) output after the stores W, in order; a store
      outside the array is dropped. */
  function Apply(a: seq<Fp>, base: int, stride: int, W: seq<Write>, sine: bool): (r: seq<Fp>)
    ensures |r| == |a|
    decreases |W|
  {
    if |W| == 0 then a
    else
      var p := Slot(base, stride, W[0].lane);
      var v := if sine then W[0].sin else W[0].cos;
      Apply(if 0 <= p < |a| then a[p := v] else a, base, stride, W[1..], sine)
  }

  lemma {:induction false} ApplyAppend(a: seq<Fp>, base: int, stride: int, V: seq<Write>, W: seq<Write>, sine: bool)
    ensures Apply(a, base, stride, V + W, sine) == Apply(Apply(a, base, stride, V, sine), base, stride, W, sine)
    decreases |V|
  {
    if |V| > 0 {
      assert (V + W)[0] == V[0] && (V + W)[1..] == V[1..] + W;
      var p := Slot(base, stride, V[0].lane);
      var v := if sine then V[0].sin else V[0].cos;
      var a' := if 0 <= p < |a| then a[p := v] else a;
      assert Apply(a, base, stride, V, sine) == Apply(a', base, stride, V[1..], sine);
      assert Apply(a, base, stride, V + W, sine) == Apply(a', base, stride, V[1..] + W, sine);
      ApplyAppend(a', base, stride, V[1..], W, sine);
    } else {
      assert V + W == W;
    }
  }

  /** A single store. */
  lemma ApplyOne(a: seq<Fp>, base: int, stride: int, w: Write, sine: bool)
    ensures var p := Slot(base, stride, w.lane);
            Apply(a, base, stride, [w], sine)
            == if 0 <= p < |a| then a[p := if sine then w.sin else w.cos] else a
  {
    assert [w][1..] == [];
  }

  /** One more store after V. */
  lemma ApplySnoc(a: seq<Fp>, base: int, stride: int, V: seq<Write>, w: Write, sine: bool)
    ensures var b := Apply(a, base, stride, V, sine);
            var p := Slot(base, stride, w.lane);
            Apply(a, base, stride, V + [w], sine)
            == if 0 <= p < |b| then b[p := if sine then w.sin else w.cos] else b
  {
    ApplyAppend(a, base, stride, V, [w], sine);
  }

  lemma SlotNext(base: int, stride: int, k: int)
    ensures Slot(base, stride, k + 1) == Slot(base, stride, k) + stride
  {
  }

  lemma SlotAdd(base: int, stride: int, k: int, j: int)
    ensures Slot(base, stride, k + j) == Slot(base, stride, k) + j * stride
  {
    assert (k + j) * stride == k * stride + j * stride;
  }

  /** The first n slots of a strided access lie inside an array of length
      len. */
  predicate Covers(n: int, len: int, base: int, stride: int)
  {
    forall k :: 0 <= k < n ==> 0 <= Slot(base, stride, k) < len
  }

  /** The n inputs x[0], x[stridex], x[2·stridex], ... */
  function Inputs(x: array<Bits32>, x0: int, stridex: int, n: int): (xs: seq<Bits32>)
    reads x
    requires Covers(n, x.Length, x0, stridex)
    ensures |xs| == if n < 0 then 0 else n
    ensures forall k :: 0 <= k < |xs| ==> xs[k] == x[Slot(x0, stridex, k)]
  {
    seq(if n < 0 then 0 else n, k requires 0 <= k < n reads x => x[Slot(x0, stridex, k)])
  }

  /** A run of j gathered lanes that stops at four, at the end of the input
      or before a lane written at once is the group's run. */
  lemma {:induction false} RunIs(xs: seq<Bits32>, k: nat, j: nat, i: nat)
    requires i <= j <= 4 && k + j <= |xs|
    requires forall l :: k <= l < k + j ==> Pipelined(xs[l])
    requires j == 4 || k + j == |xs| || !Pipelined(xs[k + j])
    ensures RunFrom(xs, k, i) == j
    decreases j - i
  {
    if i < j {
      RunIs(xs, k, j, i + 1);
    }
  }

  /** PREPROCESS for a lane that is not gathered: the two values it stores
      at once. */
  method ImmediateLane(b: Bits32, rem: RemPio2) returns (sv: Fp, cv: Fp)
    requires !Pipelined(b)
    ensures (sv, cv) == Immediate(b, rem)
  {
    var t := Decode(b);
    if ClassOf(b) == Zero {
      sv, cv := t, FromReal(1.0);
    } else if ClassOf(b) == Special {
      sv := SelfQuotient(t);
      cv := SelfQuotient(t);
    } else {
      var nr := rem(t.kind.mag);
      var q, y := nr.0, nr.1;
      if SignBit(b) {
        y := -y;
        q := -q;
      }
      var f := FromReal(SinPoly(y));
      var g := FromReal(CosPoly(y));
      var quadrant := q % 4;
      if quadrant >= 2 {
        f, g := Neg(f), Neg(g);
      }
      if quadrant % 2 == 1 {
        sv, cv := g, Neg(f);
      } else {
        sv, cv := f, g;
      }
    }
  }

  /** PROCESS on one gathered lane of value y0: reduction by pi/2 when the
      group's `medium` flag is set, the polynomials, then the fix-up by
      quadrant. */
  method ProcessLane(y0: real, medium: bool) returns (sv: Fp, cv: Fp)
    ensures (sv, cv) == LaneOut(y0, medium)
  {
    var y := y0;
    var q := 0;
    if medium {
      q := RoundNearest(y * InvPio2);
      y := (y - q as real * Pio2_1) - q as real * Pio2_t;
    }
    var f := FromReal(SinPoly(y));
    var g := FromReal(CosPoly(y));
    var quadrant := q % 4;
    if quadrant >= 2 {
      f, g := Neg(f), Neg(g);
    }
    if quadrant % 2 == 1 {
      sv, cv := g, Neg(f);
    } else {
      sv, cv := f, g;
    }
  }

  /** The group from k as a run of j gathered lanes ending at four, at the
      end of the input or at a lane written at once. */
  lemma GroupShape(xs: seq<Bits32>, k: nat, j: nat)
    requires j <= 4 && k < |xs| && k + j <= |xs|
    requires forall l :: k <= l < k + j ==> Pipelined(xs[l])
    requires j == 4 || k + j == |xs| || !Pipelined(xs[k + j])
    ensures Run(xs, k) == j
    ensures CutShort(xs, k) <==> j < 4 && k + j < |xs|
    ensures GroupSize(xs, k) == if j < 4 && k + j < |xs| then j + 1 else j
  {
    RunIs(xs, k, j, 0);
  }

  /** The PREPROCESS steps of one group from input k (the input position
      and the count of inputs left after lane 0 as the loop body has them):
      lanes are gathered until four are, the input runs out or a lane is to
      be written at once, which ends the group; that lane is returned in
      `cut`. */
  method Gather(x: array<Bits32>, x0: int, stridex: int,
                ghost xs: seq<Bits32>, ghost k: nat, xp0: int, left0: int)
    returns (xp: int, left: int, ys: seq<real>, medium: bool, cut: Option<Bits32>)
    requires k < |xs| && left0 == |xs| - k - 1
    requires forall i :: 0 <= i < |xs| ==> 0 <= Slot(x0, stridex, i) < x.Length && x[Slot(x0, stridex, i)] == xs[i]
    requires xp0 == Slot(x0, stridex, k)
    ensures |ys| <= 4 && k + |ys| <= |xs|
    ensures forall l :: k <= l < k + |ys| ==> Pipelined(xs[l])
    ensures cut.Some? ==> |ys| < 4 && k + |ys| < |xs| && cut.value == xs[k + |ys|] && !Pipelined(cut.value)
    ensures cut.None? ==> |ys| == 4 || k + |ys| == |xs|
    ensures ys == Args(xs, k, |ys|) && medium == AnyMedium(xs, k, |ys|)
    ensures var k' := k + |ys| + (if cut.Some? then 1 else 0);
            && xp == Slot(x0, stridex, k')
            && (if cut.Some? || |ys| == 4 then left == |xs| - k' else left == -1 && k' == |xs|)
  {
    hide Decode, MagnitudeOf, Immediate, LaneOut, Outputs, Fixup, Reduce, SinPoly, CosPoly, Arg, LaneWrite, ImmediateWrite;
    xp, left := xp0, left0;
    medium := false;
    ys := [];
    var j := 0;
    while true
      invariant 0 <= j < 4 && k + j < |xs|
      invariant left == |xs| - k - j - 1
      invariant xp == Slot(x0, stridex, k + j)
      invariant |ys| == j
      invariant forall l :: k <= l < k + j ==> Pipelined(xs[l])
      invariant ys == Args(xs, k, j)
      invariant medium == AnyMedium(xs, k, j)
      decreases 4 - j
    {
      var b := x[xp];
      SlotNext(x0, stridex, k + j);
      xp := xp + stridex;
      if !Pipelined(b) {
        return xp, left, ys, medium, Some(b);
      }
      ys := ys + [Arg(b)];
      if ClassOf(b) == Medium {
        medium := true;
      }
      j := j + 1;
      if j == 4 {
        return xp, left, ys, medium, None;
      }
      left := left - 1;
      if left < 0 {
        return xp, left, ys, medium, None;
      }
    }
  }

  /** PREPROCESS for input l when it is written at once, stored at s[si]
      and c[ci]. */
  method StoreImmediate(s: array<Fp>, si: int, c: array<Fp>, ci: int,
                        b: Bits32, ghost xs: seq<Bits32>, ghost l: nat, rem: RemPio2)
    requires s != c && 0 <= si < s.Length && 0 <= ci < c.Length
    requires l < |xs| && xs[l] == b && !Pipelined(b)
    modifies s, c
    ensures s[..] == old(s[..])[si := ImmediateWrite(xs, l, rem).sin]
    ensures c[..] == old(c[..])[ci := ImmediateWrite(xs, l, rem).cos]
  {
    var sv, cv := ImmediateLane(b, rem);
    s[si] := sv;
    c[ci] := cv;
  }

  /** The PROCESS steps of one group: every gathered lane in order, the
      positions stepping after each lane but the fourth. */
  method Process(s: array<Fp>, s0: int, strides: int,
                 c: array<Fp>, c0: int, stridec: int,
                 ghost len: nat, ghost k: nat, ys: seq<real>, medium: bool,
                 sp0: int, cp0: int)
    returns (sp: int, cp: int)
    requires s != c
    requires |ys| <= 4 && k + |ys| <= len
    requires Covers(len, s.Length, s0, strides) && Covers(len, c.Length, c0, stridec)
    requires sp0 == Slot(s0, strides, k) && cp0 == Slot(c0, stridec, k)
    modifies s, c
    ensures s[..] == Apply(old(s[..]), s0, strides, Lanes(k, ys, medium), true)
    ensures c[..] == Apply(old(c[..]), c0, stridec, Lanes(k, ys, medium), false)
    ensures var last := if |ys| == 4 then 3 else |ys|;
            sp == Slot(s0, strides, k + last) && cp == Slot(c0, stridec, k + last)
  {
    hide Decode, MagnitudeOf, ClassOf, Immediate, LaneOut, Outputs, Fixup, Reduce, SinPoly, CosPoly, Arg, Pipelined, ImmediateWrite;
    sp, cp := sp0, cp0;
    ghost var at := k;
    var i := 0;
    while i < |ys|
      invariant 0 <= i <= |ys|
      invariant at == k + (if i == 4 then 3 else i)
      invariant sp == Slot(s0, strides, at) && cp == Slot(c0, stridec, at)
      invariant s[..] == Apply(old(s[..]), s0, strides, Lanes(k, ys[..i], medium), true)
      invariant c[..] == Apply(old(c[..]), c0, stridec, Lanes(k, ys[..i], medium), false)
    {
      var sv, cv := ProcessLane(ys[i], medium);
      ghost var w := Write(at, sv, cv);
      assert ys[..i + 1][..i] == ys[..i];
      assert Lanes(k, ys[..i + 1], medium) == Lanes(k, ys[..i], medium) + [w];
      ApplySnoc(old(s[..]), s0, strides, Lanes(k, ys[..i], medium), w, true);
      ApplySnoc(old(c[..]), c0, stridec, Lanes(k, ys[..i], medium), w, false);
      s[sp] := sv;
      c[cp] := cv;
      // the unrolled group of four does not step past its last lane
      if i < 3 {
        SlotNext(s0, strides, at);
        SlotNext(c0, stridec, at);
        sp, cp := sp + strides, cp + stridec;
        at := at + 1;
      }
      i := i + 1;
    }
    assert ys[..i] == ys;
  }

  /** One pass of the loop of __vsincosf: the group from input k, its
      stores in order (a lane written at once is stored during PREPROCESS,
      before the gathered lanes) and the positions and count it leaves. */
  method Group(x: array<Bits32>, x0: int, stridex: int,
               s: array<Fp>, s0: int, strides: int,
               c: array<Fp>, c0: int, stridec: int, rem: RemPio2,
               ghost xs: seq<Bits32>, ghost k: nat,
               xp0: int, sp0: int, cp0: int, left0: int)
    returns (xp: int, sp: int, cp: int, left: int)
    requires s != c
    requires k < |xs| && left0 == |xs| - k - 1
    requires forall i :: 0 <= i < |xs| ==> 0 <= Slot(x0, stridex, i) < x.Length && x[Slot(x0, stridex, i)] == xs[i]
    requires Covers(|xs|, s.Length, s0, strides) && Covers(|xs|, c.Length, c0, stridec)
    requires xp0 == Slot(x0, stridex, k) && sp0 == Slot(s0, strides, k) && cp0 == Slot(c0, stridec, k)
    modifies s, c
    ensures s[..] == Apply(old(s[..]), s0, strides, GroupWrites(xs, k, rem), true)
    ensures c[..] == Apply(old(c[..]), c0, stridec, GroupWrites(xs, k, rem), false)
    ensures var k' := k + GroupSize(xs, k);
            && (left == |xs| - k' || (k' == |xs| && left == -1))
            && xp == Slot(x0, stridex, k')
            && (left >= 0 ==> sp == Slot(s0, strides, k') - strides && cp == Slot(c0, stridec, k') - stridec)
  {
    hide Decode, MagnitudeOf, ClassOf, Immediate, LaneOut, Outputs, Fixup, Reduce, SinPoly, CosPoly, Arg, Pipelined, LaneWrite, ImmediateWrite;
    hide Lanes, Args, AnyMedium, Run, RunFrom, CutWrites, CutShort, GroupSize, Apply, Slot;
    var ys, medium, cut;
    xp, left, ys, medium, cut := Gather(x, x0, stridex, xs, k, xp0, left0);
    GroupShape(xs, k, |ys|);
    StoreCut(s, s0, strides, c, c0, stridec, rem, xs, k, |ys|, cut, sp0, cp0);
    sp, cp := Process(s, s0, strides, c, c0, stridec, |xs|, k, ys, medium, sp0, cp0);
    ApplyAppend(old(s[..]), s0, strides, CutWrites(xs, k, rem), Lanes(k, ys, medium), true);
    ApplyAppend(old(c[..]), c0, stridec, CutWrites(xs, k, rem), Lanes(k, ys, medium), false);
    SlotNext(s0, strides, k + GroupSize(xs, k) - 1);
    SlotNext(c0, stridec, k + GroupSize(xs, k) - 1);
  }

  /** The store PREPROCESS makes for the lane that cuts the group short,
      at offset j from the group's first slot. */
  method StoreCut(s: array<Fp>, s0: int, strides: int,
                  c: array<Fp>, c0: int, stridec: int, rem: RemPio2,
                  ghost xs: seq<Bits32>, ghost k: nat, j: nat, cut: Option<Bits32>,
                  sp0: int, cp0: int)
    requires s != c
    requires k < |xs| && j == Run(xs, k) && cut.Some? == CutShort(xs, k)
    requires cut.Some? ==> cut.value == xs[k + j]
    requires Covers(|xs|, s.Length, s0, strides) && Covers(|xs|, c.Length, c0, stridec)
    requires sp0 == Slot(s0, strides, k) && cp0 == Slot(c0, stridec, k)
    modifies s, c
    ensures s[..] == Apply(old(s[..]), s0, strides, CutWrites(xs, k, rem), true)
    ensures c[..] == Apply(old(c[..]), c0, stridec, CutWrites(xs, k, rem), false)
  {
    hide Decode, MagnitudeOf, ClassOf, Immediate, LaneOut, Outputs, Fixup, Reduce, SinPoly, CosPoly, Arg, ImmediateWrite;
    if cut.Some? {
      SlotAdd(s0, strides, k, j);
      SlotAdd(c0, stridec, k, j);
      StoreImmediate(s, sp0 + j * strides, c, cp0 + j * stridec, cut.value, xs, k + j, rem);
      ApplyOne(old(s[..]), s0, strides, ImmediateWrite(xs, k + j, rem), true);
      ApplyOne(old(c[..]), c0, stridec, ImmediateWrite(xs, k + j, rem), false);
    }
  }

  /** __vsincosf(n, x, stridex, s, strides, c, stridec): the outputs are the
      arrays as they were, with every store of `Trace` made in order. */
  method VSinCosF(n: int, x: array<Bits32>, x0: int, stridex: int,
                  s: array<Fp>, s0: int, strides: int,
                  c: array<Fp>, c0: int, stridec: int, rem: RemPio2)
    requires s != c
    requires Covers(n, x.Length, x0, stridex)
    requires Covers(n, s.Length, s0, strides) && Covers(n, c.Length, c0, stridec)
    modifies s, c
    ensures s[..] == Apply(old(s[..]), s0, strides, Trace(Inputs(x, x0, stridex, n), 0, rem), true)
    ensures c[..] == Apply(old(c[..]), c0, stridec, Trace(Inputs(x, x0, stridex, n), 0, rem), false)
    ensures n <= 0 ==> s[..] == old(s[..]) && c[..] == old(c[..])
  {
    hide Decode, MagnitudeOf, ClassOf, Immediate, LaneOut, Outputs, Fixup, Reduce, SinPoly, CosPoly, Arg, Pipelined;
    hide GroupWrites, CutWrites, PipeWrites, Run, CutShort, AnyMedium;
    hide Lanes, Args, LaneWrite, ImmediateWrite, RunFrom, Inputs;
    ghost var xs := Inputs(x, x0, stridex, n);
    var xp := x0;
    var sp, cp := s0 - strides, c0 - stridec;
    var left := n;
    ghost var k: nat := 0;
    while true
      invariant k <= |xs|
      invariant left == n - k || (k == |xs| && left == -1)
      invariant xp == Slot(x0, stridex, k)
      invariant left >= 0 ==> sp == Slot(s0, strides, k) - strides && cp == Slot(c0, stridec, k) - stridec
      invariant Apply(s[..], s0, strides, Trace(xs, k, rem), true)
                == Apply(old(s[..]), s0, strides, Trace(xs, 0, rem), true)
      invariant Apply(c[..], c0, stridec, Trace(xs, k, rem), false)
                == Apply(old(c[..]), c0, stridec, Trace(xs, 0, rem), false)
      decreases left + 1
    {
      sp, cp := sp + strides, cp + stridec;
      left := left - 1;
      if left < 0 {
        break;
      }
      ghost var before, beforec := s[..], c[..];
      xp, sp, cp, left := Group(x, x0, stridex, s, s0, strides, c, c0, stridec, rem, xs, k, xp, sp, cp, left);
      ApplyAppend(before, s0, strides, GroupWrites(xs, k, rem), Trace(xs, k + GroupSize(xs, k), rem), true);
      ApplyAppend(beforec, c0, stridec, GroupWrites(xs, k, rem), Trace(xs, k + GroupSize(xs, k), rem), false);
      k := k + GroupSize(xs, k);
    }
  }
}
