/** An abstract IEEE 754 value: a sign bit and a class (NaN, infinity, or a
    finite magnitude kept as an exact real).  The precision of the format
    (single, double, quad) is not part of the model; NaN payloads are not
    modelled either, only the sign bit of a NaN. */
module Ieee {

  type Magnitude = r: real | r >= 0.0

  datatype Kind = NaN | Inf | Finite(mag: Magnitude)

  datatype Fp = Fp(neg: bool, kind: Kind) {
    predicate IsNaN() { kind.NaN? }
    predicate IsInf() { kind.Inf? }
    predicate IsFinite() { kind.Finite? }
    predicate IsZero() { kind.Finite? && kind.mag == 0.0 }
  }

  const PosZero := Fp(false, Finite(0.0))
  const NegZero := Fp(true, Finite(0.0))
  const PosInf := Fp(false, Inf)
  const NegInf := Fp(true, Inf)
  /** The quiet NaN an invalid operation (0/0, Inf/Inf, x+x on a NaN) delivers. */
  const QNaN := Fp(false, NaN)

  /** The real number a finite value stands for (both zeros give 0). */
  function Value(x: Fp): (v: real)
    requires x.IsFinite()
    ensures x.neg ==> v <= 0.0
    ensures !x.neg ==> v >= 0.0
  {
    var m: real := x.kind.mag;
    if x.neg then -m else m
  }

  /** The value a finite real result is delivered as; a zero result is +0. */
  function FromReal(r: real): (x: Fp)
    ensures x.IsFinite() && Value(x) == r
    ensures x.neg <==> r < 0.0
  {
    if r < 0.0 then Fp(true, Finite(-r)) else Fp(false, Finite(r))
  }

  /** IEEE negation: flips the sign bit and nothing else. */
  function Neg(x: Fp): (r: Fp)
    ensures r.kind == x.kind && r.neg == !x.neg
    ensures x.IsFinite() ==> Value(r) == -Value(x)
  {
    x.(neg := !x.neg)
  }

  /** The ordered comparison x >= y (C99 isgreaterequal): false when either
      operand is a NaN, otherwise the order of the extended reals, in which
      +0 and -0 are equal. */
  predicate GreaterEqual(x: Fp, y: Fp)
  {
    && !x.IsNaN() && !y.IsNaN()
    && (if x.IsInf() then !x.neg || (y.IsInf() && y.neg)
        else if y.IsInf() then y.neg
        else Value(x) >= Value(y))
  }

  /** x and y are the same number, allowing +0 and -0 to stand for each other. */
  predicate SameNumber(x: Fp, y: Fp)
  {
    x == y || (x.IsZero() && y.IsZero())
  }

  lemma GreaterEqualTotal(x: Fp, y: Fp)
    requires !x.IsNaN() && !y.IsNaN()
    ensures GreaterEqual(x, y) || GreaterEqual(y, x)
  {
  }

  lemma GreaterEqualTransitive(x: Fp, y: Fp, z: Fp)
    requires GreaterEqual(x, y) && GreaterEqual(y, z)
    ensures GreaterEqual(x, z)
  {
  }
}
