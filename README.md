# Four routines of the Solaris libm, modelled in Dafny

This project models four routines of the Solaris math library and proves properties of them.

- `fmax`: the larger of two doubles. Exactly one NaN gives the other argument. A NaN comes back only when both arguments are NaN. Of the two zeros, -0 is returned only when both arguments are -0.
- `erfl` and `erfcl`: the error function and its complement on quadruple precision. Each is a dispatch on |x| over five intervals, using polynomial and rational approximations. For 1.75 < x < 107, `erfcl` multiplies a rational factor by `expl(-x²)`. There `x²` is split at a truncated `y`, so that `y·y` is exact.
- `j0l` and `y0l`: the Bessel functions of order zero on quadruple precision. They use `pzero` and `qzero`, which evaluate P(0,x) and Q(0,x) on seven bands of x.
- `__vsincosf`: a vector routine for single-precision sine and cosine over strided arrays.
  - Zeros, infinities, NaNs and huge arguments are written at once.
  - The other inputs are gathered in groups of up to four. A group shares one `medium` flag that switches on reduction by π/2.
  - Each gathered lane is evaluated by two polynomials and fixed up by quadrant.
  - The results go to two output arrays through their own strides.

Floating-point values are `Ieee.Fp`, meaning a sign bit with NaN, infinity or a finite magnitude. The arithmetic between them is exact `real` arithmetic. Platform routines the code calls are parameters:

- `sinl`, `cosl`, `sqrtl` and `logl` are `Bessel0.Prims`.
- `expl` is a parameter of `Erf.Erfl` and `Erf.Erfcl`.
- `__vlibm_rem_pio2m` is `SinCos.RemPio2`.

Modules:

- `Ieee`: values, sign, order (`isgreaterequal`) and `SameNumber`, which is equality up to the sign of zero.
- `Poly`: Horner evaluation, the reference power sum, and the shared Horner loop as a method.
- `Fmax`: `fmax`.
- `Erf` and `ErfTables`: `erfl` and `erfcl` with their coefficient tables.
- `Bessel0` and `Bessel0Tables`: `j0l`, `y0l`, `pzero` and `qzero` with their tables.
- `SinCos`: the decoding, classification and evaluation of one lane of `__vsincosf`, plus the whole routine as methods over arrays. Those methods are specified by the sequence of stores (`Write`s) that the routine makes in order.
- `SinCosLanes`: what those stores amount to.

About `SinCosLanes`: every input is stored exactly once, and each store holds what a call on that input alone (n = 1) would give. With non-zero strides, each input's output slots end up with those values and no other slot changes. Sine is odd and cosine is even under a flip of the sign bit.

About the grouping in `__vsincosf`: a small lane that shares a group with a medium lane is reduced too. For every small pattern below `0x3f490fdb` that reduction is the identity (`SinCosLanes.MediumFlagIrrelevant`). At `0x3f490fdb` itself, the float just above π/4, the exact reduction picks quadrant 1 and a negative remainder, not quadrant 0 (`SinCos.ReduceAtBoundary`). The model therefore states that this one pattern's stored value is one of the two evaluations (`SinCosLanes.Faithful`).

## Model

| member | source | states |
|---|---|---|
| Ieee.GreaterEqualTotal | usr/src/libm/src/m9x/fmax.c:55-61 | isgreaterequal orders any two non-NaN values one way or the other |
| Ieee.GreaterEqualTransitive | usr/src/libm/src/m9x/fmax.c:55-61 | isgreaterequal is transitive |
| Poly.HornerPair | usr/src/libm/src/Q/j0l.c:121-127 | the paired loop r = r·z + p[i], s = s·z + q[i] run down from any starting index ends with the full Horner values of both tables |
| Poly.HornerIsPowerSum | usr/src/libm/src/Q/j0l.c:121-127 | the nested multiply-add equals the polynomial Σ c[i]·z^i |
| Poly.HornerTail | usr/src/libm/src/Q/j0l.c:122-126 | the partial Horner value from index k, scaled by z^k, is the tail of the power sum |
| Poly.HornerAtLeastHead | usr/src/libm/src/Q/j0l.c:121-127 | with z ≥ 0 and non-negative coefficients the Horner value is at least its leading coefficient |
| Fmax.Fmax | usr/src/libm/src/m9x/fmax.c:43-79 | one NaN gives back the other argument, two NaNs give a NaN; otherwise the result is an upper bound of both that is one of them up to the sign of zero, and its sign bit is set exactly when both signs are |
| Fmax.FmaxSignedZeros | usr/src/libm/src/m9x/fmax.c:63-75 | fmax(+0,-0) = fmax(-0,+0) = +0 and fmax(-0,-0) = -0 |
| Fmax.FmaxIdempotent | usr/src/libm/src/m9x/fmax.c:43-79 | fmax(x,x) is x, NaN included |
| Fmax.FmaxCommutative | usr/src/libm/src/m9x/fmax.c:51-61 | fmax is symmetric unless both arguments are NaN, when it returns the first |
| Erf.IntervalOf | usr/src/libm/src/Q/erfl.c:287-303 | the comparison chain of erfl on the magnitude y of x: up to 0.84375, 1.25, 1.75 and 9, and beyond |
| Erf.IntervalsPartition | usr/src/libm/src/Q/erfl.c:287-303 | the comparison chain on the magnitude of x picks the unique one of the five intervals containing it |
| Erf.HighPart | usr/src/libm/src/Q/erfl.c:361-362 | y is x with the two low 32-bit words of its quadruple zeroed, i.e. x truncated to a whole multiple of the weight of its 48th fraction bit |
| Erf.HighPartBounds | usr/src/libm/src/Q/erfl.c:361-362 | zeroing the two low words truncates x by less than one unit of the 49th bit and keeps a 49-bit significand, so y·y is exact |
| Erf.SignificandBits | usr/src/libm/src/Q/erfl.c:361-362 | in the binade of 2^e, x scaled by 2^48/2^e has a 49-bit integer part |
| Erf.PortableHighPartBounds | usr/src/libm/src/Q/erfl.c:351-357 | the portable (int)(x·ptwo)/ptwo is below x by less than 1/ptwo |
| Erf.Erfl | usr/src/libm/src/Q/erfl.c:277-305 | NaN gives NaN, ±Inf gives ±1, finite x gives a finite result, erfl(±0) = ±0 |
| Erf.Erfcl | usr/src/libm/src/Q/erfl.c:307-365 | NaN gives NaN, -Inf gives 2, +Inf gives +0, finite x gives a finite result, erfcl(±0) = 1 |
| Erf.ErfSmallOdd | usr/src/libm/src/Q/erfl.c:289-292 | x + x·P(x²) is odd in x |
| Erf.ErflOdd | usr/src/libm/src/Q/erfl.c:287-304 | erfl(-x) = -erfl(x) on every non-NaN x (exactly on infinities, in value on finite x) |
| Erf.ErflOddTiny | usr/src/libm/src/Q/erfl.c:289 | the tiny branch x + P[0]·x is odd |
| Erf.ErflOddSmall | usr/src/libm/src/Q/erfl.c:288-292 | the polynomial branch is odd |
| Erf.ErflSmallBranch | usr/src/libm/src/Q/erfl.c:288-292 | between the tiny bound and 0.84375, erfl returns x + x·P(x²) |
| Erf.ErflOddSigned | usr/src/libm/src/Q/erfl.c:294-301 | the two rational branches apply the sign of x to a value of the magnitude of x |
| Erf.ErflOddTail | usr/src/libm/src/Q/erfl.c:303-304 | beyond 1.75 the sign is applied to 1 - erfc of the magnitude or 1 - tiny |
| Erf.ErflFar | usr/src/libm/src/Q/erfl.c:303-304 | beyond 9, erfl is ±(1 - tiny) |
| Erf.ErfPlusErfc | usr/src/libm/src/Q/erfl.c:303-333 | erfl(x) + erfcl(x) = 1 for every finite x up to 9, negative x included |
| Erf.ErfcReflect | usr/src/libm/src/Q/erfl.c:287-333 | erfc(-x) = 2 - erfc(x) for every finite x from -9 to 9 |
| Erf.ErfclUnderflow | usr/src/libm/src/Q/erfl.c:334 | from 107 on, erfcl is nearunfl² |
| Erf.ErfclTail | usr/src/libm/src/Q/erfl.c:334-364 | on (1.75, 107) erfcl is the rational factor (R1/S1 below 16/3, R2/S2 from 16/3 on) times expl(-y²)·expl(-(x-y)(x+y)) |
| Erf.SplitExp | usr/src/libm/src/Q/erfl.c:342-363 | the two-exponential product equals expl(-x²) for an expl with the addition law |
| Bessel0.BandOf | usr/src/libm/src/Q/j0l.c:430-472 | the threshold chain >16, >8, >5, >3.5, >2.5, >1/0.5625 and otherwise, numbering the bands 0 to 6 |
| Bessel0.BandsPartition | usr/src/libm/src/Q/j0l.c:430-472 | the comparison chain of pzero and qzero picks the unique band containing x |
| Bessel0.BandHorner | usr/src/libm/src/Q/j0l.c:430-472 | each band's start values and loop compute the full Horner values of its numerator and denominator tables |
| Bessel0.P0 | usr/src/libm/src/Q/j0l.c:428-473 | P(0,x): 1 above 1e30, else the quotient of the band's pr and ps tables at z = 1/x² |
| Bessel0.Q0 | usr/src/libm/src/Q/j0l.c:690-735 | Q(0,x): -0.125/x above 1e30, else (1/x) times the quotient of the band's qr and qs tables at z = 1/x² |
| Bessel0.PZero | usr/src/libm/src/Q/j0l.c:423-474 | pzero returns P(0,x): 1 above 1e30, else R(z)/S(z) of its band with z = 1/x² |
| Bessel0.QZero | usr/src/libm/src/Q/j0l.c:685-736 | qzero returns Q(0,x): -0.125/x above 1e30, else (1/x)·R(z)/S(z) of its band |
| Bessel0.DenominatorTablesNonNegative | usr/src/libm/src/Q/j0l.c:213-680 | the ps and qs tables of bands 0 and 3-6 start with 1 and have no negative coefficient |
| Bessel0.BandDenominatorsPositive | usr/src/libm/src/Q/j0l.c:473 | in bands 0 and 3-6 both denominators are at least 1, so the divisions are defined |
| Bessel0.P0IsQuotient | usr/src/libm/src/Q/j0l.c:429-473 | in bands 0 and 3-6, P(0,x) times the denominator is the numerator |
| Bessel0.Q0IsQuotient | usr/src/libm/src/Q/j0l.c:691-735 | in bands 0 and 3-6, x·Q(0,x) times the denominator is the numerator |
| Bessel0.Combos | usr/src/libm/src/Q/j0l.c:99-108 | (ss, cc): both by direct subtraction and addition above 1e2450; otherwise the one whose terms have opposite (for ss) or equal (for cc) signs directly, the other as -cosl(2x) divided by it |
| Bessel0.CombosNoCancellation | usr/src/libm/src/Q/j0l.c:99-108 | of ss and cc, the one computed directly is a sum of magnitudes: no cancellation |
| Bessel0.CombosAreSinPlusMinusCos | usr/src/libm/src/Q/j0l.c:87-108 | when cos 2x = cos²x - sin²x, the recomputed combination is exactly sin x ± cos x |
| Bessel0.J0 | usr/src/libm/src/Q/j0l.c:76-128 | NaN gives NaN, ±Inf gives +0, finite x gives a finite result, j0(±0) = 1 |
| Bessel0.J0Asymptotic | usr/src/libm/src/Q/j0l.c:83-115 | the branch above 1.28 computes J0Large |
| Bessel0.J0Rational | usr/src/libm/src/Q/j0l.c:121-127 | the loop computes 1 + z·R0(z)/S0(z) |
| Bessel0.J0l | usr/src/libm/src/Q/j0l.c:76-128 | j0l returns J0 |
| Bessel0.J0Even | usr/src/libm/src/Q/j0l.c:81-82 | j0l(-x) = j0l(x) bit for bit on non-NaN x |
| Bessel0.J0NearZero | usr/src/libm/src/Q/j0l.c:117-120 | j0(±0) = 1, j0 = 1 - abs(x) up to 1e-38 and 1 - x²/4 up to 1e-9 |
| Bessel0.J0SeriesIsQuotient | usr/src/libm/src/Q/j0l.c:121-127 | S0(z) ≥ 1, so 1 + z·R0/S0 is a true quotient: (j0 - 1)·S0(z) = z·R0(z) |
| Bessel0.J0LargeIsAsymptoticForm | usr/src/libm/src/Q/j0l.c:87-115 | up to 1e120 and when cos 2x = cos²x - sin²x, j0 is (P0·(sin+cos) - Q0·(sin-cos))/sqrt(πx) |
| Bessel0.LogL | usr/src/libm/src/Q/j0l.c:202 | the special cases of logl that y0l relies on: log ±0 = -Inf, log of a negative is NaN, log +Inf = +Inf |
| Bessel0.AddScaled | usr/src/libm/src/Q/j0l.c:202 | u0[0] + tpi·l passes a NaN or infinite l through and is finite otherwise |
| Bessel0.Y0 | usr/src/libm/src/Q/j0l.c:151-211 | NaN gives NaN, +Inf gives +0, ±0 gives -Inf, a negative x gives NaN, positive finite x a finite result |
| Bessel0.Y0Asymptotic | usr/src/libm/src/Q/j0l.c:167-198 | the branch above 1.28 computes Y0Large |
| Bessel0.Y0Rational | usr/src/libm/src/Q/j0l.c:204-210 | the loop computes U0(z)/V0(z) + tpi·j0(x)·log x |
| Bessel0.Y0l | usr/src/libm/src/Q/j0l.c:151-211 | y0l returns Y0 |
| Bessel0.Y0NearZero | usr/src/libm/src/Q/j0l.c:201-203 | on (0, 1e-38], y0 is u0[0] + tpi·log x |
| Bessel0.Y0SeriesIsQuotient | usr/src/libm/src/Q/j0l.c:204-210 | V0(z) ≥ 1, so the rational part is a true quotient of U0 by V0 |
| Bessel0.Y0LargeIsAsymptoticForm | usr/src/libm/src/Q/j0l.c:171-198 | up to 1e120 and when cos 2x = cos²x - sin²x, y0 is (P0·(sin-cos) + Q0·(sin+cos))/sqrt(πx) |
| Bessel0.FarAsymptotics | usr/src/libm/src/Q/j0l.c:113 | above 1e120, j0 is cc/sqrt(πx) and y0 is ss/sqrt(πx) |
| SinCos.Decode | usr/src/libm/src/mvec/__vsincosf.c:89-91 | the decoded value's sign is the sign bit; it is finite, NaN or zero exactly as ix says |
| SinCos.SmallMagnitude | usr/src/libm/src/mvec/__vsincosf.c:93 | a pattern up to 0x3f490fdb is at most 0.7853982 in magnitude, below it at most 0.7853981 |
| SinCos.ClassOf | usr/src/libm/src/mvec/__vsincosf.c:93-105 | the PREPROCESS comparisons on ix: zero, small up to 0x3f490fdb, medium up to 0x49c90fdb, Inf/NaN from 0x7f800000, large otherwise |
| SinCos.ClassMeaning | usr/src/libm/src/mvec/__vsincosf.c:93-105 | class Zero is exactly ±0, class Special exactly Inf and NaN, class Small lies in (0, 0.7853982] |
| SinCos.SinPoly | usr/src/libm/src/mvec/__vsincosf.c:144-145 | y + y·z·(S0 + z·(S1 + z·S2)) with z = y² |
| SinCos.CosPoly | usr/src/libm/src/mvec/__vsincosf.c:146-147 | 1 + z·(-1/2 + z·(C0 + z·(C1 + z·C2))) with z = y² |
| SinCos.SinPolyOdd | usr/src/libm/src/mvec/__vsincosf.c:144-145 | the sine polynomial is odd |
| SinCos.CosPolyEven | usr/src/libm/src/mvec/__vsincosf.c:146-147 | the cosine polynomial is even |
| SinCos.RoundNearest | usr/src/libm/src/mvec/__vsincosf.c:139-141 | adding 1.5·2^52 and reading the low word rounds to the nearest integer, ties to even |
| SinCos.RoundNearestOdd | usr/src/libm/src/mvec/__vsincosf.c:139-141 | that rounding commutes with negation |
| SinCos.Reduce | usr/src/libm/src/mvec/__vsincosf.c:138-143 | the reduced argument plus n·(pio2_1 + pio2_t) is y, and n is within 1/2 of y·(2/π) |
| SinCos.ReduceBelowQuarterPi | usr/src/libm/src/mvec/__vsincosf.c:93-100 | up to 0.7853981 in magnitude the reduction is the identity with n = 0 |
| SinCos.ReduceAtBoundary | usr/src/libm/src/mvec/__vsincosf.c:93 | at the pattern 0x3f490fdb the reduction gives n = 1 and a negative remainder |
| SinCos.ReduceOdd | usr/src/libm/src/mvec/__vsincosf.c:139-142 | reducing -y gives the opposite quadrant count and remainder |
| SinCos.Fixup | usr/src/libm/src/mvec/__vsincosf.c:148-158 | on n & 2 both values are negated; then on n & 1 the sine slot gets g and the cosine slot -f, otherwise f and g |
| SinCos.FixupQuarterTurn | usr/src/libm/src/mvec/__vsincosf.c:148-158 | one more quadrant rotates the pair: the sine slot gets the old cosine, the cosine slot the negated old sine |
| SinCos.FixupPeriodic | usr/src/libm/src/mvec/__vsincosf.c:148-158 | the fix-up has period 4 in n |
| SinCos.FixupMirror | usr/src/libm/src/mvec/__vsincosf.c:148-158 | negating n and f negates the sine slot and keeps the cosine slot |
| SinCos.Immediate | usr/src/libm/src/mvec/__vsincosf.c:88-135 | ±0 stores itself and 1, Inf and NaN store NaN in both, a huge argument stores two finite values |
| SinCos.Run | usr/src/libm/src/mvec/__vsincosf.c:180-200 | a group gathers at most four consecutive pipelined inputs and stops only at four, at the end, or before an input written at once |
| SinCos.GroupShape | usr/src/libm/src/mvec/__vsincosf.c:180-200 | a group of j gathered lanes consumes j inputs, or j + 1 when it was cut short by an input written at once |
| SinCos.GroupWrites | usr/src/libm/src/mvec/__vsincosf.c:175-311 | the stores of one group in the source's order: the input that cut the group short first, then the gathered lanes in order |
| SinCos.Trace | usr/src/libm/src/mvec/__vsincosf.c:162-313 | the stores of the whole call: the groups one after another from input 0 |
| SinCos.ApplyAppend | usr/src/libm/src/mvec/__vsincosf.c:153-160 | stores made in sequence compose |
| SinCos.Inputs | usr/src/libm/src/mvec/__vsincosf.c:89-92 | the inputs are x[x0 + k·stridex] for k < n, none when n ≤ 0 |
| SinCos.ImmediateLane | usr/src/libm/src/mvec/__vsincosf.c:93-135 | the at-once branches of PREPROCESS compute Immediate |
| SinCos.ProcessLane | usr/src/libm/src/mvec/__vsincosf.c:137-160 | PROCESS on a gathered value computes LaneOut for the group's flag |
| SinCos.Gather | usr/src/libm/src/mvec/__vsincosf.c:183-200 | the PREPROCESS chain reads the group's inputs in order and yields their values, the shared medium flag (set exactly when one of them is medium), the input that cut the group short if any, and the advanced input position and count |
| SinCos.StoreImmediate | usr/src/libm/src/mvec/__vsincosf.c:93-134 | an input written at once changes only its own sine and cosine slots |
| SinCos.Process | usr/src/libm/src/mvec/__vsincosf.c:202-311 | the gathered lanes are stored in order at consecutive strided slots, and nothing else changes |
| SinCos.StoreCut | usr/src/libm/src/mvec/__vsincosf.c:184-200 | the input that cut a group short is stored at its own slot before the gathered lanes |
| SinCos.Group | usr/src/libm/src/mvec/__vsincosf.c:175-311 | one pass of the loop makes exactly the group's stores and advances every array position past the group |
| SinCos.VSinCosF | usr/src/libm/src/mvec/__vsincosf.c:162-313 | the outputs are the old contents with the whole sequence of stores applied; n ≤ 0 changes nothing |
| SinCosLanes.CountLanes | usr/src/libm/src/mvec/__vsincosf.c:260-296 | the gathered lanes k .. k+j-1 are each stored once |
| SinCosLanes.CountGroup | usr/src/libm/src/mvec/__vsincosf.c:175-311 | a group stores each input it consumes exactly once and no other |
| SinCosLanes.CountTrace | usr/src/libm/src/mvec/__vsincosf.c:162-313 | over the whole call every input 0 .. n-1 is stored exactly once and no other lane is |
| SinCosLanes.MediumFlagIrrelevant | usr/src/libm/src/mvec/__vsincosf.c:202-222 | a small lane below 0x3f490fdb gives the same outputs whether or not its group reduces |
| SinCosLanes.PipelinedFaithful | usr/src/libm/src/mvec/__vsincosf.c:202-222 | a gathered lane's store is what the lane alone gives, or for 0x3f490fdb its reduced evaluation |
| SinCosLanes.GroupFaithful | usr/src/libm/src/mvec/__vsincosf.c:175-311 | every store of a group is for an input of the call and holds that input's own outputs, or for 0x3f490fdb its reduced evaluation |
| SinCosLanes.TraceFaithful | usr/src/libm/src/mvec/__vsincosf.c:162-313 | every store of the call holds its input's own outputs, or for 0x3f490fdb its reduced evaluation |
| SinCosLanes.AloneIsSingleton | usr/src/libm/src/mvec/__vsincosf.c:162-313 | a call with n = 1 makes exactly one store, of the input's outputs |
| SinCosLanes.TraceStoresAlone | usr/src/libm/src/mvec/__vsincosf.c:162-313 | with a non-zero stride, each input's slot ends up holding its outputs evaluated alone, whatever was there before |
| SinCosLanes.TraceLeavesOthers | usr/src/libm/src/mvec/__vsincosf.c:162-313 | slots that no input maps to keep their old contents |
| SinCosLanes.NegBitsDecode | usr/src/libm/src/mvec/__vsincosf.c:89-91 | flipping the sign bit negates the decoded value and keeps its class |
| SinCosLanes.OutputsOdd | usr/src/libm/src/mvec/__vsincosf.c:144-158 | opposite quadrant counts and remainders give opposite sines and equal cosines, up to the sign of zero |
| SinCosLanes.PipelinedOdd | usr/src/libm/src/mvec/__vsincosf.c:99-103 | for a gathered input, flipping the sign bit negates the sine and keeps the cosine |
| SinCosLanes.LargeOdd | usr/src/libm/src/mvec/__vsincosf.c:109-117 | for a huge input, negating y and n after the reduction of the magnitude negates the sine and keeps the cosine |
| SinCosLanes.AloneOdd | usr/src/libm/src/mvec/__vsincosf.c:88-160 | sine is odd and cosine even for every finite input, up to the sign of zero; Inf and NaN give NaN either way |

## Left out

- Floating-point rounding. Every operation is exact over `real`: the `(double)` and `(float)` casts, the double rounding of `y·invpio2` and the long double operations round nothing. Properties such as `erfl(x) + erfcl(x) = 1` therefore hold of the formulas, not of their rounded results.
- The values of the sine and cosine coefficients S0-S2 and C0-C2 of `__vsincosf`. `SinCos` declares them as opaque reals (their values are in its doc comment), and it keeps only the shape of the two polynomials. No property proved here depends on those values. The values of 2/π, pio2_1 and pio2_t are kept, because the reduction lemmas depend on them.
- Poly.Div: a division by zero gives 0 rather than an infinity or a NaN. The model does not say what the code delivers when a denominator vanishes.
- The platform routines are parameters: sinl, cosl, sqrtl and logl (`Bessel0.Prims`), expl (in `Erf`) and `__vlibm_rem_pio2m` (`SinCos.RemPio2`). Only the special cases of logl that y0l depends on are written out (`Bessel0.LogL`). __poly_libmq is not part of this model: it is taken to be Horner's scheme on a table stored lowest degree first.
- Erf.ErfclUnderflow: states the value nearunfl·nearunfl as a real. In floating point it underflows to 0, which the model does not show.
- Erf.Erfcl: `L16_3` is taken as exactly 16/3, not as its rounded long double value.
- Erf.ErfclTail: the exact-square property of `y·y` is stated for the truncated y (`Erf.HighPartBounds`); the bit layout of the quadruple-precision words on a given platform is not modelled.
- NaN payloads and the choice among NaNs. A NaN carries only a sign bit, so `x + x`, `t / t` and the NaN of an invalid operation are all some NaN.
- Exception flags. The `volatile d` of y0l is left out, along with inexact, underflow, invalid and divide-by-zero. The model keeps only the values those operations return.
- Signs of zero produced by exact arithmetic. `Ieee.FromReal(0)` is +0, so results that floating point would deliver as -0 are compared with `Ieee.SameNumber`.
- Bessel0.BandDenominatorsPositive: bands 1 and 2 (5 < x ≤ 16) are left out because their ps and qs tables have negative coefficients. The denominators there are not proved positive, so `Bessel0.P0IsQuotient` and `Bessel0.Q0IsQuotient` also exclude them.
- Bessel0.J0LargeIsAsymptoticForm and Bessel0.Y0LargeIsAsymptoticForm: these need the double-angle identity of the supplied cosl. It is a requirement, not derived.
- SinCosLanes.TraceStoresAlone, SinCosLanes.PipelinedFaithful, SinCosLanes.GroupFaithful and SinCosLanes.TraceFaithful: for the single pattern 0x3f490fdb (and its negative) they state only that the stored value is either the input's own evaluation (quadrant 0) or its reduced one (quadrant 1). The two differ over exact reals, and the model does not decide whether their single-precision roundings agree.
- SinCosLanes.TraceStoresAlone: a zero stride maps every input to one slot. The lemma then says nothing, and `SinCos.VSinCosF` still gives the exact sequence of stores, last store winning.
- The interleaving of work in `__vsincosf`. The source computes the four lanes of a group side by side. The model stores them one after another in the same order (`SinCos.Process`), which is not observable since the lanes are independent. An input written at once in PREPROCESS is stored by `SinCos.StoreCut` after the gathering, but before any gathered lane, as in the source.
- Address and integer widths in `__vsincosf`: strides and `n` are unbounded integers, and the `restrict` outputs are required to be distinct arrays (`s != c`).
- `csinf` (complex/csinf.c) is not part of this model.
