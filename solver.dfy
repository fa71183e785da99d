/** The geolocation solver: closed-form constant-TDOA and constant-FDOA residuals, the four
    objective functions that stack them against receiver 0, and `estimate_emitter`, which picks
    an objective from the measurements it is given and hands it to a least-squares optimizer.
    The optimizer is a parameter; the model says what problem it is given. */
module Solver {
  import opened Outcome
  import opened Vectors
  import SignalGenerator

  /** Speed of light in m/s (`c = 2.99792458e8`, the same value the signal model uses). */
  const SpeedOfLight: real := SignalGenerator.SpeedOfLight

  /** The carrier frequency the solver assumes when it turns a Doppler difference into a
      range-rate difference. */
  const NominalFrequency: real := 1090000000.0

  // ---------------------------------------------------------------- single residuals

  /** The constant-TDOA surface through X: |X - X1| - |X - X2| - (t1 - t2) c. It vanishes
      exactly where the range difference to the two receivers is c times the measured time
      difference. */
  function ConstTdoa(sqrt: real -> real, x: Vec, x1: Vec, x2: Vec, t1: real, t2: real): (r: real)
    requires |x| == |x1| == |x2|
    ensures r == 0.0 <==> Dist(sqrt, x, x1) - Dist(sqrt, x, x2) == SpeedOfLight * (t1 - t2)
  {
    Dist(sqrt, x, x1) - Dist(sqrt, x, x2) - (t1 - t2) * SpeedOfLight
  }

  /** Swapping the two receivers together with their times negates the TDOA residual. */
  lemma ConstTdoaAntisymmetric(sqrt: real -> real, x: Vec, x1: Vec, x2: Vec, t1: real, t2: real)
    requires |x| == |x1| == |x2|
    ensures ConstTdoa(sqrt, x, x2, x1, t2, t1) == -ConstTdoa(sqrt, x, x1, x2, t1, t2)
  {
  }

  /** The FDOA residual divides by both distances: it has a value only off the receivers. */
  predicate FdoaDefined(sqrt: real -> real, x: Vec, v: Vec, x1: Vec, x2: Vec)
  {
    |x| == |v| == |x1| == |x2| && Dist(sqrt, x, x1) != 0.0 && Dist(sqrt, x, x2) != 0.0
  }

  /** The constant-FDOA surface through (X, V): the difference of the radial velocities away
      from the two receivers minus (c / f0) times the measured frequency difference. It
      vanishes exactly where that velocity difference is the measured one scaled by c / f0. */
  function ConstFdoa(sqrt: real -> real, x: Vec, v: Vec, x1: Vec, x2: Vec, f1: real, f2: real): (r: real)
    requires FdoaDefined(sqrt, x, v, x1, x2)
    ensures r == 0.0 <==> Dot(v, Sub(x, x1)) / Dist(sqrt, x, x1) - Dot(v, Sub(x, x2)) / Dist(sqrt, x, x2)
                          == SpeedOfLight / NominalFrequency * (f1 - f2)
  {
    Dot(v, Sub(x, x1)) / Dist(sqrt, x, x1) - Dot(v, Sub(x, x2)) / Dist(sqrt, x, x2)
      - SpeedOfLight / NominalFrequency * (f1 - f2)
  }

  /** Swapping the two receivers together with their frequencies negates the FDOA residual. */
  lemma ConstFdoaAntisymmetric(sqrt: real -> real, x: Vec, v: Vec, x1: Vec, x2: Vec, f1: real, f2: real)
    requires FdoaDefined(sqrt, x, v, x1, x2)
    ensures FdoaDefined(sqrt, x, v, x2, x1)
    ensures ConstFdoa(sqrt, x, v, x2, x1, f2, f1) == -ConstFdoa(sqrt, x, v, x1, x2, f1, f2)
  {
  }

  /** A stationary emitter leaves only the measured term: -(c / f0) (f1 - f2). */
  lemma ConstFdoaAtRest(sqrt: real -> real, x: Vec, v: Vec, x1: Vec, x2: Vec, f1: real, f2: real)
    requires FdoaDefined(sqrt, x, v, x1, x2)
    requires forall i :: 0 <= i < |v| ==> v[i] == 0.0
    ensures ConstFdoa(sqrt, x, v, x1, x2, f1, f2) == -(SpeedOfLight / NominalFrequency) * (f1 - f2)
  {
    DotZeroLeft(v, Sub(x, x1));
    DotZeroLeft(v, Sub(x, x2));
  }

  // ---------------------------------------------------------------- feasibility

  /** The fewest receivers an objective accepts: in 2-D and 3-D, d + 1 when the velocity is
      known or TDOA is present, 2d + 1 when FDOA alone must also recover the velocity; no
      check in any other dimension. */
  function MinReceivers(dims: int, velocityUnknown: bool): nat
  {
    if dims == 2 then (if velocityUnknown then 5 else 3)
    else if dims == 3 then (if velocityUnknown then 7 else 4)
    else 0
  }

  /** In 2-D and 3-D the thresholds follow the counting rule d + 1 and 2d + 1. */
  lemma MinReceiversRule(dims: int, velocityUnknown: bool)
    requires dims == 2 || dims == 3
    ensures MinReceivers(dims, velocityUnknown) == if velocityUnknown then 2 * dims + 1 else dims + 1
  {
  }

  /** Every position has the dimension of x. */
  predicate SameDims(x: Vec, positions: seq<Vec>)
  {
    forall i :: 0 <= i < |positions| ==> |positions[i]| == |x|
  }

  /** No position coincides with x, so every FDOA residual can divide by its distance. */
  predicate OffReceivers(sqrt: real -> real, x: Vec, positions: seq<Vec>)
    requires SameDims(x, positions)
  {
    forall i :: 0 <= i < |positions| ==> Dist(sqrt, x, positions[i]) != 0.0
  }

  // ---------------------------------------------------------------- stacked residuals

  /** One TDOA residual per receiver after the reference: entry i - 1 pairs receiver 0 with
      receiver i. */
  function TdoaEquations(sqrt: real -> real, x: Vec, positions: seq<Vec>, toa: seq<real>): (r: seq<real>)
    requires 0 < |positions| == |toa| && SameDims(x, positions)
    ensures |r| == |positions| - 1
  {
    seq(|positions| - 1, i requires 0 <= i < |positions| - 1 =>
      ConstTdoa(sqrt, x, positions[0], positions[i + 1], toa[0], toa[i + 1]))
  }

  /** One FDOA residual per receiver after the reference, in the same order. */
  function FdoaEquations(sqrt: real -> real, x: Vec, v: Vec, positions: seq<Vec>, fdoa: seq<real>): (r: seq<real>)
    requires 0 < |positions| == |fdoa| && SameDims(x, positions) && |v| == |x|
    requires OffReceivers(sqrt, x, positions)
    ensures |r| == |positions| - 1
  {
    seq(|positions| - 1, i requires 0 <= i < |positions| - 1 =>
      ConstFdoa(sqrt, x, v, positions[0], positions[i + 1], fdoa[0], fdoa[i + 1]))
  }

  /** `tdoa`: the TDOA objective for a position-only solve. */
  function Tdoa(sqrt: real -> real, x: Vec, positions: seq<Vec>, toa: seq<real>): (r: Result<seq<real>>)
    ensures |positions| < MinReceivers(|x|, false) ==> r == Err(Underdetermined)
    ensures r.Ok? <==> |positions| >= MinReceivers(|x|, false) && 0 < |positions| == |toa|
                       && (|positions| > 1 ==> SameDims(x, positions))
    ensures r.Ok? ==> |r.value| == |positions| - 1
    ensures r.Ok? ==> forall i :: 1 <= i < |positions| ==>
                        r.value[i - 1] == ConstTdoa(sqrt, x, positions[0], positions[i], toa[0], toa[i])
  {
    var n := |positions|;
    if n < MinReceivers(|x|, false) then Err(Underdetermined)
    else if n != |toa| then Err(AssertionFailed)
    else if n == 0 then Err(IndexError)
    else if n == 1 then Ok([])
    else if !SameDims(x, positions) then Err(ShapeMismatch)
    else Ok(TdoaEquations(sqrt, x, positions, toa))
  }

  /** `fdoa_v_known`: the FDOA objective for a position-only solve with the velocity given. */
  function FdoaVKnown(sqrt: real -> real, x: Vec, v: Vec, positions: seq<Vec>, fdoa: seq<real>): (r: Result<seq<real>>)
    ensures |positions| < MinReceivers(|x|, false) ==> r == Err(Underdetermined)
    ensures r.Ok? <==> |positions| >= MinReceivers(|x|, false) && 0 < |positions| == |fdoa|
                       && (|positions| > 1 ==> SameDims(x, positions) && |v| == |x| && OffReceivers(sqrt, x, positions))
    ensures r.Ok? ==> |r.value| == |positions| - 1
    ensures r.Ok? ==> forall i :: 1 <= i < |positions| ==>
                        FdoaDefined(sqrt, x, v, positions[0], positions[i]) &&
                        r.value[i - 1] == ConstFdoa(sqrt, x, v, positions[0], positions[i], fdoa[0], fdoa[i])
  {
    var n := |positions|;
    if n < MinReceivers(|x|, false) then Err(Underdetermined)
    else if n != |fdoa| then Err(AssertionFailed)
    else if n == 0 then Err(IndexError)
    else if n == 1 then Ok([])
    else if !SameDims(x, positions) || |v| != |x| then Err(ShapeMismatch)
    else if !OffReceivers(sqrt, x, positions) then Err(NonFinite)
    else Ok(FdoaEquations(sqrt, x, v, positions, fdoa))
  }

  /** The position half of a joint state vector Z: its first |Z| div 2 entries. */
  function PositionPart(z: Vec): (x: Vec)
    ensures |x| == |z| / 2 && x == z[..|z| / 2]
  {
    z[..|z| / 2]
  }

  /** The velocity half of Z: the rest, one entry longer than the position when |Z| is odd. */
  function VelocityPart(z: Vec): (v: Vec)
    ensures |v| == |z| - |z| / 2 && z == PositionPart(z) + v
  {
    z[|z| / 2..]
  }

  /** `fdoa_v_unknown`: the FDOA objective for a joint position and velocity solve. */
  function FdoaVUnknown(sqrt: real -> real, z: Vec, positions: seq<Vec>, fdoa: seq<real>): (r: Result<seq<real>>)
    ensures |positions| < MinReceivers(|z| / 2, true) ==> r == Err(Underdetermined)
    ensures r.Ok? <==> |positions| >= MinReceivers(|z| / 2, true) && 0 < |positions| == |fdoa|
                       && (|positions| > 1 ==> SameDims(PositionPart(z), positions) && |z| % 2 == 0
                                               && OffReceivers(sqrt, PositionPart(z), positions))
    ensures r.Ok? ==> r == FdoaVKnown(sqrt, PositionPart(z), VelocityPart(z), positions, fdoa)
  {
    var x, v := PositionPart(z), VelocityPart(z);
    var n := |positions|;
    if n < MinReceivers(|x|, true) then Err(Underdetermined)
    else if n != |fdoa| then Err(AssertionFailed)
    else if n == 0 then Err(IndexError)
    else if n == 1 then Ok([])
    else if !SameDims(x, positions) || |v| != |x| then Err(ShapeMismatch)
    else if !OffReceivers(sqrt, x, positions) then Err(NonFinite)
    else Ok(FdoaEquations(sqrt, x, v, positions, fdoa))
  }

  /** `fdoa_with_tdoa`: the joint objective, all FDOA residuals followed by all TDOA residuals. */
  function FdoaWithTdoa(sqrt: real -> real, z: Vec, positions: seq<Vec>, fdoa: seq<real>, toa: seq<real>)
    : (r: Result<seq<real>>)
    ensures |positions| < MinReceivers(|z| / 2, false) ==> r == Err(Underdetermined)
    ensures r.Ok? <==> |positions| >= MinReceivers(|z| / 2, false) && 0 < |positions| == |fdoa| == |toa|
                       && (|positions| > 1 ==> SameDims(PositionPart(z), positions) && |z| % 2 == 0
                                               && OffReceivers(sqrt, PositionPart(z), positions))
    ensures r.Ok? ==> |r.value| == 2 * (|positions| - 1)
    ensures r.Ok? ==>
      r.value[..|positions| - 1] == FdoaVKnown(sqrt, PositionPart(z), VelocityPart(z), positions, fdoa).value &&
      r.value[|positions| - 1..] == Tdoa(sqrt, PositionPart(z), positions, toa).value
  {
    var x, v := PositionPart(z), VelocityPart(z);
    var n := |positions|;
    if n < MinReceivers(|x|, false) then Err(Underdetermined)
    else if !(n == |fdoa| == |toa|) then Err(AssertionFailed)
    else if n == 0 then Err(IndexError)
    else if n == 1 then Ok([])
    else if !SameDims(x, positions) || |v| != |x| then Err(ShapeMismatch)
    else if !OffReceivers(sqrt, x, positions) then Err(NonFinite)
    else
      var f := FdoaEquations(sqrt, x, v, positions, fdoa);
      var t := TdoaEquations(sqrt, x, positions, toa);
      assert (f + t)[..n - 1] == f && (f + t)[n - 1..] == t;
      Ok(f + t)
  }

  // ---------------------------------------------------------------- mode selection

  /** The four objectives `estimate_emitter` chooses between. */
  datatype Mode =
    | Joint            // FDOA and TDOA, position and velocity unknown
    | VelocityKnown    // FDOA, velocity given
    | TdoaOnly         // TDOA, position only
    | VelocityUnknown  // FDOA alone, position and velocity unknown

  /** Python truthiness of an optional list: present and non-empty. */
  predicate Truthy<T>(l: Option<seq<T>>)
  {
    l.Some? && |l.value| > 0
  }

  /** The dispatch of `estimate_emitter`, in its order. Two of the tests are on truthiness,
      one on presence: an empty FDOA list with a velocity still picks `VelocityKnown`. */
  function SelectMode(fdoa: Option<seq<real>>, toa: Option<seq<real>>, velocity: Option<Vec>): (m: Result<Mode>)
    ensures m.Ok? <==> Truthy(fdoa) || Truthy(toa) || (fdoa.Some? && velocity.Some?)
    ensures m.Err? ==> m.error == NoMeasurements
    ensures m.Ok? && m.value.Joint? ==> Truthy(fdoa) && Truthy(toa)
    ensures m.Ok? && m.value.VelocityUnknown? ==> Truthy(fdoa) && !Truthy(toa) && velocity.None?
    ensures m.Ok? && m.value.TdoaOnly? ==> Truthy(toa) && !Truthy(fdoa) && !(fdoa.Some? && velocity.Some?)
    ensures m.Ok? && m.value.VelocityKnown? ==> fdoa.Some? && velocity.Some? && !(Truthy(fdoa) && Truthy(toa))
  {
    if Truthy(fdoa) && Truthy(toa) then Ok(Joint)
    else if fdoa.Some? && velocity.Some? then Ok(VelocityKnown)
    else if Truthy(toa) then Ok(TdoaOnly)
    else if Truthy(fdoa) then Ok(VelocityUnknown)
    else Err(NoMeasurements)
  }

  /** Both kinds of measurement win over a known velocity. */
  lemma JointFirst(fdoa: seq<real>, toa: seq<real>, velocity: Option<Vec>)
    requires |fdoa| > 0 && |toa| > 0
    ensures SelectMode(Some(fdoa), Some(toa), velocity) == Ok(Joint)
  {
  }

  /** A present velocity with a present but empty FDOA list selects the known-velocity
      objective, even when TDOA data is available. */
  lemma EmptyFdoaWithVelocity(toa: Option<seq<real>>, velocity: Vec)
    ensures SelectMode(Some([]), toa, Some(velocity)) == Ok(VelocityKnown)
  {
  }

  /** Without a velocity an empty list counts as no list at all. */
  lemma EmptyListIsAbsent(fdoa: Option<seq<real>>, toa: Option<seq<real>>)
    ensures SelectMode(Some([]), toa, None) == SelectMode(None, toa, None)
    ensures SelectMode(fdoa, Some([]), None) == SelectMode(fdoa, None, None)
  {
  }

  /** Whether the mode solves for the velocity too, doubling the state vector. */
  predicate SolvesVelocity(m: Mode)
  {
    m.Joint? || m.VelocityUnknown?
  }

  // ---------------------------------------------------------------- initial guess

  /** All positions have the dimension of the first one. */
  predicate Homogeneous(ps: seq<Vec>)
  {
    forall i :: 0 <= i < |ps| ==> |ps[i]| == |ps[0]|
  }

  /** The coordinate-wise sum of d-dimensional positions, `np.sum(..., axis=0)`. */
  function SumPositions(ps: seq<Vec>, d: nat): (s: Vec)
    requires forall i :: 0 <= i < |ps| ==> |ps[i]| == d
    ensures |s| == d
  {
    if |ps| == 0 then Zeros(d)
    else
      var rest := SumPositions(ps[1..], d);
      seq(d, k requires 0 <= k < d => ps[0][k] + rest[k])
  }

  /** The centroid of the positions. */
  function Centroid(ps: seq<Vec>, d: nat): (c: Vec)
    requires |ps| > 0 && forall i :: 0 <= i < |ps| ==> |ps[i]| == d
    ensures |c| == d
  {
    var s := SumPositions(ps, d);
    seq(d, k requires 0 <= k < d => s[k] / |ps| as real)
  }

  /** n copies of one point sum to n times it. */
  lemma {:induction false} SumOfCopies(ps: seq<Vec>, p: Vec)
    requires forall i :: 0 <= i < |ps| ==> ps[i] == p
    ensures forall k :: 0 <= k < |p| ==> SumPositions(ps, |p|)[k] == |ps| as real * p[k]
  {
    if |ps| > 0 {
      SumOfCopies(ps[1..], p);
    }
  }

  /** Receivers stacked on one point have that point as their centroid. */
  lemma CentroidOfCopies(ps: seq<Vec>, p: Vec)
    requires |ps| > 0 && forall i :: 0 <= i < |ps| ==> ps[i] == p
    ensures Centroid(ps, |p|) == p
  {
    SumOfCopies(ps, p);
    var c := Centroid(ps, |p|);
    forall k | 0 <= k < |p|
      ensures c[k] == p[k]
    {
      assert c[k] == (|ps| as real * p[k]) / |ps| as real;
    }
  }

  /** The starting point of the optimizer: the centroid, followed by a zero velocity when the
      mode solves for one. */
  function InitialGuess(ps: seq<Vec>, mode: Mode): (x0: Vec)
    requires |ps| > 0 && Homogeneous(ps)
    ensures |x0| == if SolvesVelocity(mode) then 2 * |ps[0]| else |ps[0]|
    ensures x0[..|ps[0]|] == Centroid(ps, |ps[0]|)
    ensures forall k :: |ps[0]| <= k < |x0| ==> x0[k] == 0.0
  {
    var c := Centroid(ps, |ps[0]|);
    var x0 := if SolvesVelocity(mode) then c + Zeros(|ps[0]|) else c;
    assert x0[..|ps[0]|] == c;
    x0
  }

  // ---------------------------------------------------------------- estimate_emitter

  /** What `estimate_emitter` hands the optimizer: the chosen objective's data and the
      starting point. Lists the mode does not use are empty. */
  datatype Problem = Problem(mode: Mode, positions: seq<Vec>, fdoa: seq<real>, toa: seq<real>,
                             velocity: Vec, x0: Vec)

  /** What `least_squares` returns: the final iterate and whether it converged. */
  datatype Solution = Solution(x: Vec, success: bool)

  /** The objective of a problem, evaluated at z. */
  function Objective(sqrt: real -> real, p: Problem, z: Vec): Result<seq<real>>
  {
    match p.mode
    case Joint => FdoaWithTdoa(sqrt, z, p.positions, p.fdoa, p.toa)
    case VelocityKnown => FdoaVKnown(sqrt, z, p.velocity, p.positions, p.fdoa)
    case TdoaOnly => Tdoa(sqrt, z, p.positions, p.toa)
    case VelocityUnknown => FdoaVUnknown(sqrt, z, p.positions, p.fdoa)
  }

  function ListOrEmpty<T>(l: Option<seq<T>>): seq<T>
  {
    if l.Some? then l.value else []
  }

  /** The receivers' positions, in order. */
  function Positions(receivers: seq<SignalGenerator.Receiver>): (ps: seq<Vec>)
    ensures |ps| == |receivers| && forall i :: 0 <= i < |ps| ==> ps[i] == receivers[i].position
  {
    seq(|receivers|, i requires 0 <= i < |receivers| => receivers[i].position)
  }

  /** `estimate_emitter`: the centroid (a ragged receiver list cannot be summed; an empty one
      sums to a scalar that divides into NaN, which cannot be extended by zeros and which the
      optimizer refuses as a start), the mode, the objective checked at the starting point
      (where `least_squares` first evaluates it and lets its exceptions through), then
      whatever iterate the optimizer returns, converged or not. `leastSquares` stands for
      `scipy.optimize.least_squares`. */
  function EstimateEmitter(receivers: seq<SignalGenerator.Receiver>, fdoa: Option<seq<real>>,
                           toa: Option<seq<real>>, velocity: Option<Vec>, sqrt: real -> real,
                           leastSquares: Problem -> Solution): (r: Result<Vec>)
    ensures SelectMode(fdoa, toa, velocity).Err? && Homogeneous(Positions(receivers)) ==> r == Err(NoMeasurements)
    ensures |receivers| == 0 && SelectMode(fdoa, toa, velocity).Ok? ==>
              r == Err(if SolvesVelocity(SelectMode(fdoa, toa, velocity).value) then ShapeMismatch else NonFinite)
    ensures r.Ok? ==> SelectMode(fdoa, toa, velocity).Ok? && |receivers| > 0 && Homogeneous(Positions(receivers))
    ensures r.Ok? ==>
      var mode := SelectMode(fdoa, toa, velocity).value;
      var d := |receivers[0].position|;
      |receivers| >= MinReceivers(d, mode.VelocityUnknown?) &&
      (mode.Joint? ==> |fdoa.value| == |toa.value| == |receivers|) &&
      (mode.TdoaOnly? ==> |toa.value| == |receivers|) &&
      (!mode.Joint? && !mode.TdoaOnly? ==> |fdoa.value| == |receivers|)
    ensures r.Ok? ==>
      var ps := Positions(receivers);
      var mode := SelectMode(fdoa, toa, velocity).value;
      r.value == leastSquares(Problem(mode, ps, ListOrEmpty(fdoa), ListOrEmpty(toa),
                                      ListOrEmpty(velocity), InitialGuess(ps, mode))).x
  {
    var ps := Positions(receivers);
    if |ps| > 0 && !Homogeneous(ps) then Err(ShapeMismatch)
    else
      var mode :- SelectMode(fdoa, toa, velocity);
      if |ps| == 0 then Err(if SolvesVelocity(mode) then ShapeMismatch else NonFinite)
      else
        var p := Problem(mode, ps, ListOrEmpty(fdoa), ListOrEmpty(toa), ListOrEmpty(velocity),
                         InitialGuess(ps, mode));
        var atStart :- Objective(sqrt, p, p.x0);
        Ok(leastSquares(p).x)
  }

  /** A non-converged solve returns its last iterate just as a converged one does. */
  lemma ConvergenceIgnored(receivers: seq<SignalGenerator.Receiver>, fdoa: Option<seq<real>>,
                           toa: Option<seq<real>>, velocity: Option<Vec>, sqrt: real -> real,
                           leastSquares: Problem -> Solution, flipped: Problem -> Solution)
    requires forall p :: flipped(p).x == leastSquares(p).x
    ensures EstimateEmitter(receivers, fdoa, toa, velocity, sqrt, flipped)
         == EstimateEmitter(receivers, fdoa, toa, velocity, sqrt, leastSquares)
  {
  }
}
