/** Polynomial evaluation shared by every approximation region.  Coefficient
    tables are stored lowest degree first; `HornerFrom` is the nested
    multiply-add the library's loops (and __poly_libmq, which is not part of
    this model and is taken to be Horner's scheme) compute, `PowerSum` the
    textbook sum of c[i]·z^i it must agree with. */
module Poly {

  /** c[k] + z·(c[k+1] + z·(... + z·c[|c|-1])): the tail of the table from
      index k, evaluated by Horner's scheme. */
  function HornerFrom(c: seq<real>, k: nat, z: real): real
    decreases |c| - k
  {
    if k >= |c| then 0.0 else c[k] + z * HornerFrom(c, k + 1, z)
  }

  /** The whole table evaluated by Horner's scheme. */
  function Horner(c: seq<real>, z: real): real
  {
    HornerFrom(c, 0, z)
  }

  /** z^k. */
  function Pow(z: real, k: nat): real
  {
    if k == 0 then 1.0 else z * Pow(z, k - 1)
  }

  /** 2^k, the scale of the binary formats' exponents. */
  function Pow2(k: nat): (p: real)
    ensures p >= 1.0
  {
    if k == 0 then 1.0 else 2.0 * Pow2(k - 1)
  }

  /** Pow2 is the power function at base 2. */
  lemma {:induction false} Pow2IsPow(k: nat)
    ensures Pow2(k) == Pow(2.0, k)
  {
    if k > 0 {
      Pow2IsPow(k - 1);
    }
  }

  /** The textbook sum of c[i]·z^i for k <= i < |c|. */
  function PowerSum(c: seq<real>, k: nat, z: real): real
    decreases |c| - k
  {
    if k >= |c| then 0.0 else c[k] * Pow(z, k) + PowerSum(c, k + 1, z)
  }

  /** The algebra of one step of HornerTail, on plain reals. */
  lemma HornerTailStep(p: real, a: real, z: real, h: real, hk: real, t: real, tk: real, p1: real)
    requires hk == a + z * h && p1 == z * p && tk == a * p + t
    requires p1 * h == t
    ensures p * hk == tk
  {
    assert p * hk == a * p + (z * p) * h;
  }

  /** One index of HornerTail: folding c[k] into the Horner tail adds the
      term c[k]·z^k to the power sum. */
  lemma HornerTailShift(c: seq<real>, k: nat, z: real)
    requires k < |c|
    requires Pow(z, k + 1) * HornerFrom(c, k + 1, z) == PowerSum(c, k + 1, z)
    ensures Pow(z, k) * HornerFrom(c, k, z) == PowerSum(c, k, z)
  {
    HornerTailStep(Pow(z, k), c[k], z, HornerFrom(c, k + 1, z), HornerFrom(c, k, z),
                   PowerSum(c, k + 1, z), PowerSum(c, k, z), Pow(z, k + 1));
  }

  /** The Horner tail from k, scaled by z^k, is the power sum of the
      coefficients from k on. */
  lemma {:induction false} HornerTail(c: seq<real>, k: nat, z: real)
    requires k <= |c|
    ensures Pow(z, k) * HornerFrom(c, k, z) == PowerSum(c, k, z)
    decreases |c| - k
  {
    if k < |c| {
      HornerTail(c, k + 1, z);
      HornerTailShift(c, k, z);
    }
  }

  /** Horner's scheme computes the power sum, for every table and point. */
  lemma HornerIsPowerSum(c: seq<real>, z: real)
    ensures Horner(c, z) == PowerSum(c, 0, z)
  {
    HornerTail(c, 0, z);
  }

  /** A table whose entries are all non-negative evaluates, at a
      non-negative point, to at least its constant term: a denominator table
      of this kind that starts with 1 never vanishes there. */
  lemma {:induction false} HornerAtLeastHead(c: seq<real>, k: nat, z: real)
    requires k < |c| && z >= 0.0
    requires forall i :: k <= i < |c| ==> c[i] >= 0.0
    ensures HornerFrom(c, k, z) >= c[k]
    decreases |c| - k
  {
    if k + 1 < |c| {
      HornerAtLeastHead(c, k + 1, z);
      assert z * HornerFrom(c, k + 1, z) >= 0.0;
    }
  }

  /** Real division made total: a zero divisor gives 0.  Over exact reals
      the library's divisions by a vanishing denominator (which would give
      an infinity or a NaN in floating point) are not modelled. */
  function Div(a: real, b: real): (q: real)
    ensures b != 0.0 ==> q * b == a
  {
    if b == 0.0 then 0.0 else a / b
  }

  /** The shared Horner loop of j0l, y0l, pzero and qzero: starting from the
      values the caller has already accumulated for the coefficients above
      index `top`, fold in p[i] and q[i] for i = top down to 0. */
  method HornerPair(p: seq<real>, q: seq<real>, z: real, top: int, r0: real, s0: real)
    returns (r: real, s: real)
    requires -1 <= top < |p| && top < |q|
    requires r0 == HornerFrom(p, top + 1, z) && s0 == HornerFrom(q, top + 1, z)
    ensures r == Horner(p, z) && s == Horner(q, z)
  {
    r, s := r0, s0;
    var i := top;
    while i >= 0
      invariant -1 <= i <= top
      invariant r == HornerFrom(p, i + 1, z) && s == HornerFrom(q, i + 1, z)
    {
      r := z * r + p[i];
      s := z * s + q[i];
      i := i - 1;
    }
  }
}
