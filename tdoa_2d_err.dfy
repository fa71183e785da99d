/** The 2-D TDOA error study: its own ground-truth generator, which checks dimensions before
    measuring, and the hyperbola residual over three receivers. The arrival times, the matrix
    fill and the pair ordering are those of the 3-D study. */
module Tdoa2dErr {
  import opened Outcome
  import opened Vectors
  import opened Tdoa3dErr

  /** The planar metric does not depend on the order of its arguments. */
  lemma PlanarDistanceSymmetric(sqrt: real -> real, x: Vec, y: Vec)
    requires |x| >= 2 && |y| >= 2
    ensures PlanarDistance(sqrt, x, y) == PlanarDistance(sqrt, y, x)
  {
    assert Sq(x[0] - y[0]) == Sq(y[0] - x[0]) && Sq(x[1] - y[1]) == Sq(y[1] - x[1]);
  }

  // ---------------------------------------------------------------- ground truth

  /** Both planar coordinates of every receiver, in order, measured from the emitter. */
  function PlanarDistances(sqrt: real -> real, emitter: Vec, receivers: seq<Vec>): (ds: seq<real>)
    requires |emitter| == 2 && forall i :: 0 <= i < |receivers| ==> |receivers[i]| == 2
    ensures |ds| == |receivers|
    ensures forall i :: 0 <= i < |receivers| ==> ds[i] == PlanarDistance(sqrt, receivers[i], emitter)
  {
    seq(|receivers|, i requires 0 <= i < |receivers| => PlanarDistance(sqrt, receivers[i], emitter))
  }

  /** `generate_true_2d_tdoa_data`, as a value: a non-empty emitter and every receiver must have
      two coordinates; an empty emitter passes the check but cannot be unpacked; without
      receivers `min` of the empty list fails. */
  function True2dTdoaSpec(emitter: Vec, receivers: seq<Vec>, sqrt: real -> real): (r: Result<seq<seq<real>>>)
    ensures r.Ok? <==> |emitter| == 2 && |receivers| > 0 && forall i :: 0 <= i < |receivers| ==> |receivers[i]| == 2
    ensures (|emitter| != 0 && |emitter| != 2) || (exists i :: 0 <= i < |receivers| && |receivers[i]| != 2)
            ==> r == Err(AssertionFailed)
    ensures r.Ok? ==> |r.value| == |receivers|
  {
    if |emitter| != 0 && |emitter| != 2 then Err(AssertionFailed)
    else if exists i :: 0 <= i < |receivers| && |receivers[i]| != 2 then Err(AssertionFailed)
    else if |emitter| != 2 then Err(UnpackMismatch)
    else if |receivers| == 0 then Err(EmptyArgument)
    else Ok(TdoaMatrix(ArrivalTimes(PlanarDistances(sqrt, emitter, receivers))))
  }

  /** The ground-truth matrix is square with a zero diagonal, symmetric, and above the
      diagonal holds the range difference over the speed of light. */
  lemma True2dTdoaEntries(emitter: Vec, receivers: seq<Vec>, sqrt: real -> real)
    requires True2dTdoaSpec(emitter, receivers, sqrt).Ok?
    ensures var m := True2dTdoaSpec(emitter, receivers, sqrt).value;
            (forall a :: 0 <= a < |m| ==> |m[a]| == |m| && m[a][a] == 0.0) &&
            (forall a, b :: 0 <= a < |m| && 0 <= b < |m| ==> m[a][b] == m[b][a]) &&
            (forall a, b :: 0 <= a < b < |m| ==>
               m[a][b] == (PlanarDistance(sqrt, receivers[b], emitter) - PlanarDistance(sqrt, receivers[a], emitter))
                          / SpeedOfLight)
  {
  }

  /** `generate_true_2d_tdoa_data`: the dimension checks, the unpacking of the emitter, the
      distance loop, the arrival times and the matrix fill. */
  method GenerateTrue2dTdoaData(emitter: Vec, receivers: seq<Vec>, sqrt: real -> real)
    returns (r: Result<seq<seq<real>>>)
    ensures r == True2dTdoaSpec(emitter, receivers, sqrt)
  {
    if |emitter| != 0 && |emitter| != 2 {
      return Err(AssertionFailed);
    }
    for k := 0 to |receivers|
      invariant forall i :: 0 <= i < k ==> |receivers[i]| == 2
    {
      if |receivers[k]| != 2 {
        return Err(AssertionFailed);
      }
    }
    if |emitter| != 2 {
      return Err(UnpackMismatch);
    }
    var distances: seq<real> := [];
    for k := 0 to |receivers|
      invariant distances == PlanarDistances(sqrt, emitter, receivers[..k])
    {
      assert receivers[..k + 1] == receivers[..k] + [receivers[k]];
      distances := distances + [PlanarDistance(sqrt, receivers[k], emitter)];
    }
    assert receivers[..|receivers|] == receivers;
    if |distances| == 0 {
      return Err(EmptyArgument);
    }
    var arrival := ArrivalTimes(distances);
    var tdoa := FillTdoaMatrix(arrival);
    r := Ok(tdoa);
  }

  // ---------------------------------------------------------------- residual equations

  /** `hyperbola`: like the 3-D residual, with receivers of exactly two coordinates. */
  function Hyperbola(sqrt: real -> real, x: real, y: real, receiver1: Vec, receiver2: Vec, diff: real)
    : (r: Result<real>)
    ensures r.Ok? <==> |receiver1| == 2 && |receiver2| == 2
    ensures r.Ok? ==>
              r.value == (if diff > 0.0 then 1.0 else -1.0)
                         * (PlanarDistance(sqrt, [x, y], receiver2) - PlanarDistance(sqrt, [x, y], receiver1) - diff)
    ensures r.Ok? ==>
              (r.value == 0.0 <==> PlanarDistance(sqrt, [x, y], receiver2) - PlanarDistance(sqrt, [x, y], receiver1) == diff)
  {
    if |receiver1| != 2 || |receiver2| != 2 then Err(UnpackMismatch)
    else
      var (a, b, d) := if diff > 0.0 then (receiver1, receiver2, diff) else (receiver2, receiver1, -diff);
      Ok(PlanarDistance(sqrt, [x, y], b) - PlanarDistance(sqrt, [x, y], a) - d)
  }

  /** The residual subtracts the magnitude of the difference: it never exceeds the range
      difference taken in the order that makes the difference non-negative. */
  lemma HyperbolaSubtractsMagnitude(sqrt: real -> real, x: real, y: real, r1: Vec, r2: Vec, diff: real)
    requires |r1| == 2 && |r2| == 2
    ensures var d1, d2 := PlanarDistance(sqrt, [x, y], r1), PlanarDistance(sqrt, [x, y], r2);
            Hyperbola(sqrt, x, y, r1, r2, diff).value
              == (if diff > 0.0 then d2 - d1 else d1 - d2) - (if diff > 0.0 then diff else -diff)
  {
  }

  /** The differences the 2-D study reads from the matrix: entries (0, 1), (0, 2) and (1, 2),
      scaled to metres. */
  function PairDiffs(tdoa: seq<seq<real>>): (diffs: seq<real>)
    requires |tdoa| == 3 && forall a :: 0 <= a < 3 ==> |tdoa[a]| == 3
    ensures |diffs| == 3
  {
    [SpeedOfLight * tdoa[0][1], SpeedOfLight * tdoa[0][2], SpeedOfLight * tdoa[1][2]]
  }

  lemma PairsOfThree()
    ensures TriuPairs(3) == [(0, 1), (0, 2), (1, 2)]
  {
    assert PairsFrom(2, 3) == Row(2, 3) == [];
    assert Row(1, 3) == [(1, 2)];
    assert Row(0, 3) == [(0, 1), (0, 2)];
  }

  /** The hand-written pairs of the 2-D study are the upper triangle of the 3-by-3 matrix in
      row-major order, as in the 3-D study. */
  lemma PairDiffsAreUpperTriangle(tdoa: seq<seq<real>>)
    requires |tdoa| == 3 && forall a :: 0 <= a < 3 ==> |tdoa[a]| == 3
    ensures PairDiffs(tdoa) == TrueDiffs(tdoa)
  {
    PairsOfThree();
  }

  /** The `equation` of the 2-D study: the three hyperbola residuals; any receiver that is
      not two-dimensional fails the unpacking in one of them. */
  function Equations2d(sqrt: real -> real, x: real, y: real, receivers: seq<Vec>, diffs: seq<real>)
    : (r: Result<seq<real>>)
    requires |receivers| == 3 && |diffs| == 3
    ensures r.Ok? <==> forall i :: 0 <= i < 3 ==> |receivers[i]| == 2
    ensures r.Ok? ==> |r.value| == 3 && forall k :: 0 <= k < 3 ==>
              Hyperbola(sqrt, x, y, receivers[TriuPairs(3)[k].0], receivers[TriuPairs(3)[k].1], diffs[k])
                == Ok(r.value[k])
  {
    PairsOfThree();
    if |receivers[0]| != 2 || |receivers[1]| != 2 || |receivers[2]| != 2 then Err(UnpackMismatch)
    else Ok([Hyperbola(sqrt, x, y, receivers[0], receivers[1], diffs[0]).value,
             Hyperbola(sqrt, x, y, receivers[0], receivers[2], diffs[1]).value,
             Hyperbola(sqrt, x, y, receivers[1], receivers[2], diffs[2]).value])
  }

  /** A residual whose difference is the true range difference vanishes at the emitter. */
  lemma PairVanishes(sqrt: real -> real, emitter: Vec, ra: Vec, rb: Vec, diff: real)
    requires |emitter| == 2 && |ra| == 2 && |rb| == 2
    requires diff == PlanarDistance(sqrt, rb, emitter) - PlanarDistance(sqrt, ra, emitter)
    ensures Hyperbola(sqrt, emitter[0], emitter[1], ra, rb, diff) == Ok(0.0)
  {
    var p := [emitter[0], emitter[1]];
    assert p == emitter;
    PlanarDistanceSymmetric(sqrt, p, ra);
    PlanarDistanceSymmetric(sqrt, p, rb);
  }

  /** Scaling a time difference to metres and back is exact over the reals. */
  lemma RoundTripThroughSeconds(x: real)
    ensures SpeedOfLight * (x / SpeedOfLight) == x
  {
  }

  /** Without noise the differences read from the matrix are the true range differences. */
  lemma NoiselessPairDiffs(sqrt: real -> real, emitter: Vec, receivers: seq<Vec>)
    requires |emitter| == 2 && |receivers| == 3
    requires forall i :: 0 <= i < 3 ==> |receivers[i]| == 2
    ensures True2dTdoaSpec(emitter, receivers, sqrt).Ok?
    ensures var diffs := PairDiffs(True2dTdoaSpec(emitter, receivers, sqrt).value);
            var d := PlanarDistances(sqrt, emitter, receivers);
            diffs[0] == d[1] - d[0] && diffs[1] == d[2] - d[0] && diffs[2] == d[2] - d[1]
  {
    True2dTdoaEntries(emitter, receivers, sqrt);
    var m := True2dTdoaSpec(emitter, receivers, sqrt).value;
    var d := PlanarDistances(sqrt, emitter, receivers);
    assert m[0][1] == (d[1] - d[0]) / SpeedOfLight;
    assert m[0][2] == (d[2] - d[0]) / SpeedOfLight;
    assert m[1][2] == (d[2] - d[1]) / SpeedOfLight;
    RoundTripThroughSeconds(d[1] - d[0]);
    RoundTripThroughSeconds(d[2] - d[0]);
    RoundTripThroughSeconds(d[2] - d[1]);
  }

  /** Without noise the true emitter position zeroes all three equations. */
  lemma NoiselessEquationsVanish2d(sqrt: real -> real, emitter: Vec, receivers: seq<Vec>)
    requires |emitter| == 2 && |receivers| == 3
    requires forall i :: 0 <= i < 3 ==> |receivers[i]| == 2
    ensures True2dTdoaSpec(emitter, receivers, sqrt).Ok?
    ensures Equations2d(sqrt, emitter[0], emitter[1], receivers,
                        PairDiffs(True2dTdoaSpec(emitter, receivers, sqrt).value))
              == Ok(Zeros(3))
  {
    NoiselessPairDiffs(sqrt, emitter, receivers);
    var diffs := PairDiffs(True2dTdoaSpec(emitter, receivers, sqrt).value);
    PairVanishes(sqrt, emitter, receivers[0], receivers[1], diffs[0]);
    PairVanishes(sqrt, emitter, receivers[0], receivers[2], diffs[1]);
    PairVanishes(sqrt, emitter, receivers[1], receivers[2], diffs[2]);
    PairsOfThree();
    var r := Equations2d(sqrt, emitter[0], emitter[1], receivers, diffs);
    assert r.value == Zeros(3);
  }
}
