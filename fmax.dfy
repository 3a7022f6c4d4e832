/** C99 fmax on doubles (ISO/IEC 9899:1999 section 7.12.12.2, with the NaN
    rules of Annex F section F.9.9.2), as m9x/fmax.c computes it: replace a
    NaN y by x, replace x by y unless x >= y holds as an ordered comparison,
    then clear the sign bit of the result unless both operands have it set. */
module Fmax {
  import opened Ieee

  function Fmax(x: Fp, y: Fp): (r: Fp)
    // exactly one NaN: the other argument comes back unchanged
    ensures y.IsNaN() && !x.IsNaN() ==> r == x
    ensures x.IsNaN() && !y.IsNaN() ==> r == y
    // two NaNs: a NaN
    ensures x.IsNaN() && y.IsNaN() ==> r.IsNaN()
    // two numbers: an upper bound that is one of them, up to the sign of zero
    ensures !x.IsNaN() && !y.IsNaN() ==>
              GreaterEqual(r, x) && GreaterEqual(r, y) && (SameNumber(r, x) || SameNumber(r, y))
    // the sign bit survives only when both operands carry it
    ensures !x.IsNaN() && !y.IsNaN() ==> (r.neg <==> x.neg && y.neg)
  {
    // if y is NaN, replace it by x
    var y1 := if y.IsNaN() then x else y;
    // if x is less than y or the two are unordered, replace x by y
    var x1 := if !GreaterEqual(x, y1) then y1 else x;
    // clear the sign bit unless both x and y have it set; nothing else changes
    x1.(neg := x1.neg && y1.neg)
  }

  /** fmax(+0, -0) and fmax(-0, +0) are both +0. */
  lemma FmaxSignedZeros()
    ensures Fmax(PosZero, NegZero) == PosZero
    ensures Fmax(NegZero, PosZero) == PosZero
    ensures Fmax(NegZero, NegZero) == NegZero
  {
  }

  /** fmax(x, x) is x bit for bit, NaNs included. */
  lemma FmaxIdempotent(x: Fp)
    ensures Fmax(x, x) == x
  {
  }

  /** The argument order matters only when both are NaN: then the first
      argument is returned. */
  lemma FmaxCommutative(x: Fp, y: Fp)
    ensures !(x.IsNaN() && y.IsNaN()) ==> Fmax(x, y) == Fmax(y, x)
    ensures x.IsNaN() && y.IsNaN() ==> Fmax(x, y) == x
  {
  }
}
