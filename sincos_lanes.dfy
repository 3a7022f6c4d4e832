/** What the stores of __vsincosf amount to: every input is stored exactly
    once, each store holds that input's outputs as a call on it alone would
    compute them (the pattern `Boundary` aside, see `Faithful`), and with
    non-zero strides every input's slots end up holding those outputs.  Also
    the symmetry of one lane under a flip of the sign bit. */
module SinCosLanes {
  import opened Ieee
  import opened SinCos

  // ---------------------------------------------------------------------
  // Every input is stored exactly once

  /** How many of the stores W are for input l. */
  function Count(W: seq<Write>, l: nat): (c: nat)
    ensures c <= |W|
  {
    if |W| == 0 then 0 else (if W[0].lane == l then 1 else 0) + Count(W[1..], l)
  }

  lemma {:induction false} CountAppend(V: seq<Write>, W: seq<Write>, l: nat)
    ensures Count(V + W, l) == Count(V, l) + Count(W, l)
    decreases |V|
  {
    if |V| > 0 {
      assert (V + W)[0] == V[0] && (V + W)[1..] == V[1..] + W;
      CountAppend(V[1..], W, l);
    } else {
      assert V + W == W;
    }
  }

  /** A store's own lane is counted. */
  lemma {:induction false} CountMember(W: seq<Write>, i: nat)
    requires i < |W|
    ensures Count(W, W[i].lane) >= 1
    decreases i
  {
    if i > 0 {
      CountMember(W[1..], i - 1);
    }
  }

  /** A lane counted once has a store, and no other store is for it. */
  lemma {:induction false} FindLane(W: seq<Write>, l: nat) returns (i: nat)
    requires Count(W, l) == 1
    ensures i < |W| && W[i].lane == l
    ensures forall j :: 0 <= j < |W| && j != i ==> W[j].lane != l
    decreases |W|
  {
    if W[0].lane == l {
      i := 0;
      forall j | 0 < j < |W|
        ensures W[j].lane != l
      {
        if W[j].lane == l {
          CountMember(W[1..], j - 1);
        }
      }
    } else {
      var i' := FindLane(W[1..], l);
      i := i' + 1;
    }
  }

  /** The gathered lanes k .. k+|ys|-1 are stored once each. */
  lemma {:induction false} CountLanes(k: nat, ys: seq<real>, medium: bool, l: nat)
    ensures Count(Lanes(k, ys, medium), l) == if k <= l < k + |ys| then 1 else 0
    decreases |ys|
  {
    if |ys| > 0 {
      var w := LaneWrite(k + |ys| - 1, ys[|ys| - 1], medium);
      CountLanes(k, ys[..|ys| - 1], medium, l);
      CountAppend(Lanes(k, ys[..|ys| - 1], medium), [w], l);
      assert Count([w], l) == if w.lane == l then 1 else 0;
    }
  }

  /** A group stores each of the inputs it consumes once. */
  lemma CountGroup(xs: seq<Bits32>, k: nat, rem: RemPio2, l: nat)
    requires k < |xs|
    ensures Count(GroupWrites(xs, k, rem), l) == if k <= l < k + GroupSize(xs, k) then 1 else 0
  {
    hide Decode, MagnitudeOf, ClassOf, Immediate, LaneOut, Outputs, Fixup, Reduce, SinPoly, CosPoly, Arg, LaneWrite;
    hide Pipelined, ImmediateWrite, Lanes, Args, AnyMedium, RunFrom;
    var j := Run(xs, k);
    var cut := CutWrites(xs, k, rem);
    var pipe := PipeWrites(xs, k, j, AnyMedium(xs, k, j));
    CountAppend(cut, pipe, l);
    CountLanes(k, Args(xs, k, j), AnyMedium(xs, k, j), l);
    if CutShort(xs, k) {
      assert Count(cut, l) == if l == k + j then 1 else 0;
    }
  }

  /** The stores from input k on are for k .. |xs|-1, once each. */
  lemma {:induction false} CountTrace(xs: seq<Bits32>, k: nat, rem: RemPio2, l: nat)
    requires k <= |xs|
    ensures Count(Trace(xs, k, rem), l) == if k <= l < |xs| then 1 else 0
    decreases |xs| - k
  {
    hide Decode, MagnitudeOf, ClassOf, Immediate, LaneOut, Outputs, Fixup, Reduce, SinPoly, CosPoly, Arg, Pipelined, LaneWrite, ImmediateWrite;
    hide GroupWrites, Lanes, CutWrites, PipeWrites, Run, CutShort, AnyMedium, Args;
    if k < |xs| {
      var g := GroupSize(xs, k);
      CountAppend(GroupWrites(xs, k, rem), Trace(xs, k + g, rem), l);
      CountGroup(xs, k, rem, l);
      CountTrace(xs, k + g, rem, l);
    }
  }

  // ---------------------------------------------------------------------
  // Every store holds what the input alone gives

  /** One of the two outputs. */
  function Pick(out: (Fp, Fp), sine: bool): Fp
  {
    if sine then out.0 else out.1
  }

  /** The outputs a store holds for input b: those of b alone or, for the
      pattern `Boundary` in a group with a medium lane, those of its reduced
      argument (quadrant 1 and a negative remainder instead of quadrant 0). */
  predicate Faithful(b: Bits32, out: (Fp, Fp), rem: RemPio2)
  {
    out == Alone(b, rem) || (Ix(b) == Boundary && out == LaneOut(Arg(b), true))
  }

  predicate AllFaithful(W: seq<Write>, xs: seq<Bits32>, rem: RemPio2)
  {
    forall i :: 0 <= i < |W| ==> W[i].lane < |xs| && Faithful(xs[W[i].lane], (W[i].sin, W[i].cos), rem)
  }

  lemma AllFaithfulAppend(V: seq<Write>, W: seq<Write>, xs: seq<Bits32>, rem: RemPio2)
    requires AllFaithful(V, xs, rem) && AllFaithful(W, xs, rem)
    ensures AllFaithful(V + W, xs, rem)
  {
    forall i | 0 <= i < |V + W|
      ensures (V + W)[i].lane < |xs| && Faithful(xs[(V + W)[i].lane], ((V + W)[i].sin, (V + W)[i].cos), rem)
    {
      if i >= |V| {
        assert (V + W)[i] == W[i - |V|];
      }
    }
  }

  /** A small pattern below `Boundary` lies within 0.7853981 of zero, where
      the medium reduction changes nothing: the shared flag does not matter
      to it. */
  lemma MediumFlagIrrelevant(b: Bits32)
    requires ClassOf(b) == Small && Ix(b) != Boundary
    ensures LaneOut(Arg(b), true) == LaneOut(Arg(b), false)
  {
    SmallMagnitude(Ix(b));
    ReduceBelowQuarterPi(Arg(b));
  }

  /** A gathered lane is faithful whatever the group's flag, as long as a
      medium lane sets it. */
  lemma PipelinedFaithful(b: Bits32, medium: bool, rem: RemPio2)
    requires Pipelined(b) && (ClassOf(b) == Medium ==> medium)
    ensures Faithful(b, LaneOut(Arg(b), medium), rem)
  {
    if ClassOf(b) == Small && medium && Ix(b) != Boundary {
      MediumFlagIrrelevant(b);
    }
  }

  lemma {:induction false} LanesAt(k: nat, ys: seq<real>, medium: bool, i: nat)
    requires i < |ys|
    ensures Lanes(k, ys, medium)[i] == LaneWrite(k + i, ys[i], medium)
    decreases |ys|
  {
    if i < |ys| - 1 {
      LanesAt(k, ys[..|ys| - 1], medium, i);
    }
  }

  lemma {:induction false} ArgsAt(xs: seq<Bits32>, k: nat, j: nat, i: nat)
    requires k + j <= |xs| && forall l :: k <= l < k + j ==> Pipelined(xs[l])
    requires i < j
    ensures Args(xs, k, j)[i] == Arg(xs[k + i])
    decreases j
  {
    if i < j - 1 {
      ArgsAt(xs, k, j - 1, i);
    }
  }

  /** The lane a group writes at once is faithful. */
  lemma CutFaithful(xs: seq<Bits32>, k: nat, rem: RemPio2)
    requires k < |xs|
    ensures AllFaithful(CutWrites(xs, k, rem), xs, rem)
  {
    hide Decode, MagnitudeOf, ClassOf, Immediate, LaneOut, Outputs, Fixup, Reduce, SinPoly, CosPoly, Arg, Pipelined, LaneWrite;
  }

  /** Every store of a group is faithful. */
  lemma GroupFaithful(xs: seq<Bits32>, k: nat, rem: RemPio2)
    requires k < |xs|
    ensures AllFaithful(GroupWrites(xs, k, rem), xs, rem)
  {
    hide Decode, MagnitudeOf, ClassOf, Immediate, LaneOut, Outputs, Fixup, Reduce, SinPoly, CosPoly, Arg, Pipelined, ImmediateWrite;
    hide Alone, Faithful, Lanes, Args, CutWrites;
    var j := Run(xs, k);
    var medium := AnyMedium(xs, k, j);
    var pipe := PipeWrites(xs, k, j, medium);
    forall i | 0 <= i < |pipe|
      ensures pipe[i].lane < |xs| && Faithful(xs[pipe[i].lane], (pipe[i].sin, pipe[i].cos), rem)
    {
      LanesAt(k, Args(xs, k, j), medium, i);
      ArgsAt(xs, k, j, i);
      if ClassOf(xs[k + i]) == Medium {
        assert k <= k + i < k + j;
      }
      PipelinedFaithful(xs[k + i], medium, rem);
    }
    CutFaithful(xs, k, rem);
    AllFaithfulAppend(CutWrites(xs, k, rem), pipe, xs, rem);
  }

  lemma NoneFaithful(xs: seq<Bits32>, rem: RemPio2)
    ensures AllFaithful([], xs, rem)
  {
  }

  /** Every store from input k on is faithful. */
  lemma {:induction false} TraceFaithful(xs: seq<Bits32>, k: nat, rem: RemPio2)
    requires k <= |xs|
    ensures AllFaithful(Trace(xs, k, rem), xs, rem)
    decreases |xs| - k
  {
    hide Decode, MagnitudeOf, ClassOf, Immediate, LaneOut, Outputs, Fixup, Reduce, SinPoly, CosPoly, Arg, Pipelined, LaneWrite, ImmediateWrite;
    hide GroupWrites, Lanes, CutWrites, PipeWrites, Run, CutShort, AnyMedium, Args, Alone, Faithful, AllFaithful;
    if k == |xs| {
      NoneFaithful(xs, rem);
    } else {
      GroupFaithful(xs, k, rem);
      TraceFaithful(xs, k + GroupSize(xs, k), rem);
      AllFaithfulAppend(GroupWrites(xs, k, rem), Trace(xs, k + GroupSize(xs, k), rem), xs, rem);
    }
  }

  /** The stores of a call with n = 1 are those of its one group. */
  lemma SingletonTrace(b: Bits32, rem: RemPio2)
    ensures GroupSize([b], 0) == 1
    ensures Trace([b], 0, rem) == GroupWrites([b], 0, rem)
  {
    hide Decode, MagnitudeOf, ClassOf, Immediate, LaneOut, Outputs, Fixup, Reduce, SinPoly, CosPoly, Arg, Pipelined;
    hide GroupWrites, LaneWrite, ImmediateWrite;
    GroupShape([b], 0, if Pipelined(b) then 1 else 0);
    assert Trace([b], 1, rem) == [];
  }

  lemma SingletonGroup(b: Bits32, rem: RemPio2)
    ensures GroupWrites([b], 0, rem) == [Write(0, Alone(b, rem).0, Alone(b, rem).1)]
  {
    var xs := [b];
    hide Decode, MagnitudeOf, ClassOf, Immediate, LaneOut, Outputs, Fixup, Reduce, SinPoly, CosPoly, Arg, Pipelined;
    if Pipelined(b) {
      var medium := ClassOf(b) == Medium;
      GroupShape(xs, 0, 1);
      assert AnyMedium(xs, 0, 1) == medium;
      assert Args(xs, 0, 1) == [Arg(b)];
      assert Lanes(0, [Arg(b)], medium) == Lanes(0, [], medium) + [LaneWrite(0, Arg(b), medium)];
    } else {
      GroupShape(xs, 0, 0);
    }
  }

  /** A call with n = 1 stores the input's outputs evaluated alone. */
  lemma AloneIsSingleton(b: Bits32, rem: RemPio2)
    ensures Trace([b], 0, rem) == [Write(0, Alone(b, rem).0, Alone(b, rem).1)]
  {
    SingletonTrace(b, rem);
    SingletonGroup(b, rem);
  }

  // ---------------------------------------------------------------------
  // The final contents of an output

  /** With a non-zero stride, distinct inputs have distinct slots. */
  lemma SlotInjective(base: int, stride: int, l: int, m: int)
    requires stride != 0 && l != m
    ensures Slot(base, stride, l) != Slot(base, stride, m)
  {
    assert Slot(base, stride, l) - Slot(base, stride, m) == (l - m) * stride;
  }

  /** Stores that all miss slot p leave it as it was. */
  lemma {:induction false} ApplyMiss(a: seq<Fp>, base: int, stride: int, W: seq<Write>, sine: bool, p: int)
    requires 0 <= p < |a|
    requires forall j :: 0 <= j < |W| ==> Slot(base, stride, W[j].lane) != p
    ensures Apply(a, base, stride, W, sine)[p] == a[p]
    decreases |W|
  {
    if |W| > 0 {
      var q := Slot(base, stride, W[0].lane);
      var a' := if 0 <= q < |a| then a[q := Pick((W[0].sin, W[0].cos), sine)] else a;
      assert Apply(a, base, stride, W, sine) == Apply(a', base, stride, W[1..], sine);
      ApplyMiss(a', base, stride, W[1..], sine, p);
    }
  }

  /** The only store for a lane decides that lane's slot. */
  lemma {:induction false} ApplyOnly(a: seq<Fp>, base: int, stride: int, W: seq<Write>, sine: bool, i: nat)
    requires stride != 0 && i < |W|
    requires forall j :: 0 <= j < |W| && j != i ==> W[j].lane != W[i].lane
    requires 0 <= Slot(base, stride, W[i].lane) < |a|
    ensures Apply(a, base, stride, W, sine)[Slot(base, stride, W[i].lane)] == Pick((W[i].sin, W[i].cos), sine)
    decreases |W|
  {
    var p := Slot(base, stride, W[i].lane);
    var q := Slot(base, stride, W[0].lane);
    var a' := if 0 <= q < |a| then a[q := Pick((W[0].sin, W[0].cos), sine)] else a;
    assert Apply(a, base, stride, W, sine) == Apply(a', base, stride, W[1..], sine);
    if i == 0 {
      forall j | 0 <= j < |W[1..]|
        ensures Slot(base, stride, W[1..][j].lane) != p
      {
        SlotInjective(base, stride, W[1..][j].lane, W[0].lane);
      }
      ApplyMiss(a', base, stride, W[1..], sine, p);
    } else {
      ApplyOnly(a', base, stride, W[1..], sine, i - 1);
    }
  }

  /** With a non-zero stride, the slot of every input l ends up holding l's
      outputs evaluated alone (or, for `Boundary`, what `Faithful` allows),
      whatever the output held before. */
  lemma TraceStoresAlone(xs: seq<Bits32>, rem: RemPio2, a: seq<Fp>, base: int, stride: int, sine: bool, l: nat)
    requires stride != 0 && l < |xs| && 0 <= Slot(base, stride, l) < |a|
    ensures var v := Apply(a, base, stride, Trace(xs, 0, rem), sine)[Slot(base, stride, l)];
            || v == Pick(Alone(xs[l], rem), sine)
            || (Ix(xs[l]) == Boundary && v == Pick(LaneOut(Arg(xs[l]), true), sine))
    ensures Ix(xs[l]) != Boundary ==>
              Apply(a, base, stride, Trace(xs, 0, rem), sine)[Slot(base, stride, l)] == Pick(Alone(xs[l], rem), sine)
  {
    var T := Trace(xs, 0, rem);
    CountTrace(xs, 0, rem, l);
    var i := FindLane(T, l);
    TraceFaithful(xs, 0, rem);
    assert Faithful(xs[l], (T[i].sin, T[i].cos), rem);
    ApplyOnly(a, base, stride, T, sine, i);
  }

  /** Slots no input reaches keep what they held. */
  lemma TraceLeavesOthers(xs: seq<Bits32>, rem: RemPio2, a: seq<Fp>, base: int, stride: int, sine: bool, p: int)
    requires 0 <= p < |a|
    requires forall l :: 0 <= l < |xs| ==> Slot(base, stride, l) != p
    ensures Apply(a, base, stride, Trace(xs, 0, rem), sine)[p] == a[p]
  {
    var T := Trace(xs, 0, rem);
    forall j | 0 <= j < |T|
      ensures Slot(base, stride, T[j].lane) != p
    {
      CountMember(T, j);
      CountTrace(xs, 0, rem, T[j].lane);
    }
    ApplyMiss(a, base, stride, T, sine, p);
  }

  // ---------------------------------------------------------------------
  // Sine is odd, cosine is even

  /** The pattern with the sign bit flipped. */
  function NegBits(b: Bits32): (nb: Bits32)
    ensures Ix(nb) == Ix(b) && SignBit(nb) != SignBit(b)
  {
    if b >= 0x8000_0000 then b - 0x8000_0000 else b + 0x8000_0000
  }

  lemma NegBitsDecode(b: Bits32)
    ensures Decode(NegBits(b)) == Neg(Decode(b))
    ensures ClassOf(NegBits(b)) == ClassOf(b)
  {
  }

  lemma FromRealNeg(v: real)
    ensures SameNumber(FromReal(-v), Neg(FromReal(v)))
  {
  }

  lemma SameNumberTransitive(x: Fp, y: Fp, z: Fp)
    requires SameNumber(x, y) && SameNumber(y, z)
    ensures SameNumber(x, z)
  {
  }

  /** The fix-up does not tell the two zeros apart more than its inputs do. */
  lemma FixupSameNumber(n: int, f: Fp, f': Fp, g: Fp)
    requires SameNumber(f, f')
    ensures SameNumber(Fixup(n, f, g).0, Fixup(n, f', g).0)
    ensures SameNumber(Fixup(n, f, g).1, Fixup(n, f', g).1)
  {
  }

  /** The opposite quadrant count and reduced argument give the opposite
      sine and the same cosine. */
  lemma OutputsOdd(n: int, r: real)
    ensures SameNumber(Outputs(-n, -r).0, Neg(Outputs(n, r).0))
    ensures SameNumber(Outputs(-n, -r).1, Outputs(n, r).1)
  {
    var f := FromReal(SinPoly(r));
    var g := FromReal(CosPoly(r));
    SinPolyOdd(r);
    CosPolyEven(r);
    FromRealNeg(SinPoly(r));
    FixupSameNumber(-n, FromReal(-SinPoly(r)), Neg(f), g);
    FixupMirror(n, f, g);
  }

  lemma ArgNeg(b: Bits32)
    requires Pipelined(b)
    ensures Pipelined(NegBits(b)) && ClassOf(NegBits(b)) == ClassOf(b)
    ensures Arg(NegBits(b)) == -Arg(b)
  {
    NegBitsDecode(b);
  }

  /** A gathered lane: the argument changes sign, and so does the medium
      reduction. */
  lemma PipelinedOdd(b: Bits32, rem: RemPio2)
    requires Pipelined(b)
    ensures SameNumber(Alone(NegBits(b), rem).0, Neg(Alone(b, rem).0))
    ensures SameNumber(Alone(NegBits(b), rem).1, Alone(b, rem).1)
  {
    ArgNeg(b);
    hide Outputs, Fixup, SinPoly, CosPoly, Reduce, Decode, Arg, Pipelined, ClassOf, MagnitudeOf;
    var y := Arg(b);
    if ClassOf(b) == Medium {
      ReduceOdd(y);
      var (n, r) := Reduce(y);
      assert Alone(b, rem) == Outputs(n, r);
      assert Alone(NegBits(b), rem) == Outputs(-n, -r);
      OutputsOdd(n, r);
    } else {
      assert Alone(b, rem) == Outputs(0, y);
      assert Alone(NegBits(b), rem) == Outputs(-0, -y);
      OutputsOdd(0, y);
    }
  }

  /** A large input: the reduction is done on the magnitude and the sign
      applied to its result. */
  lemma LargeOdd(b: Bits32, rem: RemPio2)
    requires ClassOf(b) == Large
    ensures SameNumber(Alone(NegBits(b), rem).0, Neg(Alone(b, rem).0))
    ensures SameNumber(Alone(NegBits(b), rem).1, Alone(b, rem).1)
  {
    NegBitsDecode(b);
    hide Outputs, Fixup, SinPoly, CosPoly, Reduce;
    var (n, r) := rem(Decode(b).kind.mag);
    if SignBit(b) {
      OutputsOdd(-n, -r);
      assert -(-n) == n && -(-r) == r;
    } else {
      OutputsOdd(n, r);
    }
  }

  /** Flipping an input's sign bit flips the sign of its sine and keeps its
      cosine (up to the sign of a zero); a NaN or an infinity gives NaNs
      either way. */
  lemma AloneOdd(b: Bits32, rem: RemPio2)
    ensures ClassOf(b) != Special ==>
              && SameNumber(Alone(NegBits(b), rem).0, Neg(Alone(b, rem).0))
              && SameNumber(Alone(NegBits(b), rem).1, Alone(b, rem).1)
    ensures ClassOf(b) == Special ==>
              Alone(NegBits(b), rem).0.IsNaN() && Alone(NegBits(b), rem).1.IsNaN()
  {
    NegBitsDecode(b);
    if Pipelined(b) {
      PipelinedOdd(b, rem);
    } else if ClassOf(b) == Large {
      LargeOdd(b, rem);
    }
  }
}
