/** The 3-D TDOA error study: ground-truth TDOA matrices from an emitter and its receivers,
    the hyperboloid residual, the distance-function factory and the upper-triangle ordering
    that pairs matrix entries with residual equations. */
module Tdoa3dErr {
  import opened Outcome
  import opened Vectors

  /** The script's own speed of light, in m/s. */
  const SpeedOfLight: real := 299792458.0

  function Sq(a: real): real { a * a }

  // ---------------------------------------------------------------- distance functions

  /** The distance functions `get_distance_func` can hand out. The geodetic ones need an
      ellipsoidal distance, which is a parameter of the model. */
  datatype Metric =
    | Planar            // Cartesian, two coordinates
    | Spatial           // Cartesian, three coordinates
    | GeodesicPlanar    // latitude/longitude
    | GeodesicSpatial   // latitude/longitude plus a height difference

  /** The Cartesian distance over the first two coordinates of each point. */
  function PlanarDistance(sqrt: real -> real, x: Vec, y: Vec): real
    requires |x| >= 2 && |y| >= 2
  {
    sqrt(Sq(x[0] - y[0]) + Sq(x[1] - y[1]))
  }

  /** The Cartesian distance over the first three coordinates of each point. */
  function SpatialDistance(sqrt: real -> real, x: Vec, y: Vec): real
    requires |x| >= 3 && |y| >= 3
  {
    sqrt(Sq(x[0] - y[0]) + Sq(x[1] - y[1]) + Sq(x[2] - y[2]))
  }

  /** On points of exactly two or three coordinates the Cartesian metrics are the Euclidean
      norm of the difference. */
  lemma CartesianIsEuclidean(sqrt: real -> real, x: Vec, y: Vec)
    requires |x| == |y|
    ensures |x| == 2 ==> PlanarDistance(sqrt, x, y) == Dist(sqrt, x, y)
    ensures |x| == 3 ==> SpatialDistance(sqrt, x, y) == Dist(sqrt, x, y)
  {
    var d := Sub(x, y);
    if |x| == 2 || |x| == 3 {
      var d1, d2 := d[1..], d[2..];
      assert d[0] == x[0] - y[0] && d[1] == x[1] - y[1];
      assert d1[0] == d[1] && d1[1..] == d2;
      assert Dot(d, d) == d[0] * d[0] + Dot(d1, d1);
      assert Dot(d1, d1) == d[1] * d[1] + Dot(d2, d2);
      if |x| == 3 {
        assert d[2] == x[2] - y[2];
        assert d2[0] == d[2] && |d2[1..]| == 0;
        assert Dot(d2, d2) == d[2] * d[2] + Dot(d2[1..], d2[1..]);
        assert Dot(d, d) == Sq(x[0] - y[0]) + Sq(x[1] - y[1]) + Sq(x[2] - y[2]);
      } else {
        assert Dot(d2, d2) == 0.0;
        assert Dot(d, d) == Sq(x[0] - y[0]) + Sq(x[1] - y[1]);
      }
    }
  }

  /** `get_distance_func`: a Cartesian metric for two or three coordinates, a geodetic one
      for 'latlon', and nothing (Python's None) for any other combination. */
  function GetDistanceFunc(dim: int, coordSys: string): (r: Option<Metric>)
    ensures r.Some? <==> (coordSys == "cartesian" || coordSys == "latlon") && (dim == 2 || dim == 3)
    ensures r.Some? && coordSys == "cartesian" ==> r.value == (if dim == 2 then Planar else Spatial)
    ensures r.Some? && coordSys == "latlon" ==> r.value == (if dim == 2 then GeodesicPlanar else GeodesicSpatial)
  {
    if coordSys == "cartesian" && dim == 2 then Some(Planar)
    else if coordSys == "cartesian" && dim == 3 then Some(Spatial)
    else if coordSys == "latlon" && dim == 2 then Some(GeodesicPlanar)
    else if coordSys == "latlon" && dim == 3 then Some(GeodesicSpatial)
    else None
  }

  /** Calling a distance function: indexing a point with too few coordinates raises an
      IndexError; extra coordinates are ignored. */
  function Measure(m: Metric, sqrt: real -> real, geodesic: (Vec, Vec) -> real, x: Vec, y: Vec)
    : (r: Result<real>)
    ensures r.Err? ==> r.error == IndexError
    ensures r.Ok? <==> match m
                       case Planar => |x| >= 2 && |y| >= 2
                       case GeodesicPlanar => true
                       case _ => |x| >= 3 && |y| >= 3
    ensures m == Planar && r.Ok? ==> r.value == PlanarDistance(sqrt, x, y)
    ensures m == Spatial && r.Ok? ==> r.value == SpatialDistance(sqrt, x, y)
  {
    match m
    case Planar => if |x| < 2 || |y| < 2 then Err(IndexError) else Ok(PlanarDistance(sqrt, x, y))
    case Spatial => if |x| < 3 || |y| < 3 then Err(IndexError) else Ok(SpatialDistance(sqrt, x, y))
    case GeodesicPlanar => Ok(geodesic(x, y))
    case GeodesicSpatial =>
      if |x| < 3 || |y| < 3 then Err(IndexError)
      else Ok(sqrt(Sq(geodesic(x[..2], y[..2])) + Sq(x[2] - y[2])))
  }

  // ---------------------------------------------------------------- arrival times

  /** Where Python's `min` finds its value in a non-empty list: the first smallest entry. */
  function MinIndex(s: seq<real>): (k: nat)
    requires |s| > 0
    ensures k < |s| && forall i :: 0 <= i < |s| ==> s[k] <= s[i]
    ensures forall i :: 0 <= i < k ==> s[k] < s[i]
  {
    if |s| == 1 then 0
    else
      var rest := 1 + MinIndex(s[1..]);
      assert forall i :: 1 <= i < |s| ==> s[i] == s[1..][i - 1];
      if s[0] <= s[rest] then 0 else rest
  }

  /** Propagation times relative to the earliest one: every distance divided by the speed of
      light, minus the smallest of those times. */
  function ArrivalTimes(distances: seq<real>): (arrival: seq<real>)
    requires |distances| > 0
    ensures |arrival| == |distances|
    ensures forall i :: 0 <= i < |arrival| ==> arrival[i] >= 0.0
    ensures exists i :: 0 <= i < |arrival| && arrival[i] == 0.0
    ensures forall i, j :: 0 <= i < |arrival| && 0 <= j < |arrival| ==>
              arrival[j] - arrival[i] == (distances[j] - distances[i]) / SpeedOfLight
  {
    var times := seq(|distances|, i requires 0 <= i < |distances| => distances[i] / SpeedOfLight);
    var k := MinIndex(times);
    var arrival := seq(|times|, i requires 0 <= i < |times| => times[i] - times[k]);
    assert arrival[k] == 0.0;
    arrival
  }

  // ---------------------------------------------------------------- the TDOA matrix

  /** The n-by-n matrix the scripts return: zero on the diagonal and, for i < j, the arrival
      time at j minus the arrival time at i written into both (i, j) and (j, i). */
  function TdoaMatrix(arrival: seq<real>): (m: seq<seq<real>>)
    ensures |m| == |arrival| && forall a :: 0 <= a < |m| ==> |m[a]| == |arrival|
    ensures forall a :: 0 <= a < |m| ==> m[a][a] == 0.0
    ensures forall a, b :: 0 <= a < b < |m| ==> m[a][b] == arrival[b] - arrival[a]
    ensures forall a, b :: 0 <= a < |m| && 0 <= b < |m| ==> m[a][b] == m[b][a]
  {
    seq(|arrival|, a requires 0 <= a < |arrival| =>
      seq(|arrival|, b requires 0 <= b < |arrival| =>
        if a < b then arrival[b] - arrival[a] else if b < a then arrival[a] - arrival[b] else 0.0))
  }

  /** Both triangles carry the same sign, so the matrix is antisymmetric only where the two
      arrival times agree. */
  lemma TdoaMatrixNotAntisymmetric(arrival: seq<real>, a: nat, b: nat)
    requires a < b < |arrival| && arrival[a] != arrival[b]
    ensures TdoaMatrix(arrival)[b][a] != -TdoaMatrix(arrival)[a][b]
  {
  }

  /** The entry at (a, b) once the nested loops have filled every pair (lo, hi), lo < hi,
      with lo < i, or lo == i and hi < j. */
  function Filled(arrival: seq<real>, i: int, j: int, a: nat, b: nat): real
    requires a < |arrival| && b < |arrival|
  {
    var lo := if a < b then a else b;
    var hi := if a < b then b else a;
    if lo != hi && (lo < i || (lo == i && hi < j)) then arrival[hi] - arrival[lo] else 0.0
  }

  /** The nested loops of `generate_true_tdoa_data`: a zero matrix filled pair by pair. */
  method FillTdoaMatrix(arrival: seq<real>) returns (m: seq<seq<real>>)
    ensures m == TdoaMatrix(arrival)
  {
    var n := |arrival|;
    var tdoa := new real[n, n]((a, b) => 0.0);
    for i := 0 to n
      invariant forall a, b :: 0 <= a < n && 0 <= b < n ==> tdoa[a, b] == Filled(arrival, i, i + 1, a, b)
    {
      for j := i + 1 to n
        invariant forall a, b :: 0 <= a < n && 0 <= b < n ==> tdoa[a, b] == Filled(arrival, i, j, a, b)
      {
        var diff := arrival[j] - arrival[i];
        tdoa[i, j] := diff;
        tdoa[j, i] := diff;
      }
    }
    m := seq(n, a requires 0 <= a < n reads tdoa => seq(n, b requires 0 <= b < n reads tdoa => tdoa[a, b]));
    forall a | 0 <= a < n
      ensures m[a] == TdoaMatrix(arrival)[a]
    {
      assert forall b :: 0 <= b < n ==> m[a][b] == Filled(arrival, n, n + 1, a, b) == TdoaMatrix(arrival)[a][b];
    }
  }

  // ---------------------------------------------------------------- ground truth

  /** The distance from the emitter to every receiver; any receiver the metric cannot index
      raises an IndexError. */
  function TrueDistances(m: Metric, sqrt: real -> real, geodesic: (Vec, Vec) -> real, emitter: Vec,
                         receivers: seq<Vec>): Result<seq<real>>
  {
    if forall i :: 0 <= i < |receivers| ==> Measure(m, sqrt, geodesic, emitter, receivers[i]).Ok?
    then Ok(seq(|receivers|, i requires 0 <= i < |receivers| => Measure(m, sqrt, geodesic, emitter, receivers[i]).value))
    else Err(IndexError)
  }

  /** `generate_true_tdoa_data`, as a value. Without a distance function the first call fails;
      without receivers `min` of the empty list fails. */
  function TrueTdoaSpec(emitter: Vec, receivers: seq<Vec>, coordSys: string, sqrt: real -> real,
                        geodesic: (Vec, Vec) -> real): (r: Result<seq<seq<real>>>)
    ensures r.Ok? ==> |receivers| > 0 && GetDistanceFunc(|emitter|, coordSys).Some?
    ensures |receivers| == 0 ==> r.Err?
    ensures r.Ok? ==> |r.value| == |receivers|
  {
    var metric := GetDistanceFunc(|emitter|, coordSys);
    if metric.None? then (if |receivers| == 0 then Err(EmptyArgument) else Err(NotCallable))
    else
      var distances :- TrueDistances(metric.value, sqrt, geodesic, emitter, receivers);
      if |distances| == 0 then Err(EmptyArgument)
      else Ok(TdoaMatrix(ArrivalTimes(distances)))
  }

  /** The ground-truth matrix is square with a zero diagonal, symmetric, and above the
      diagonal holds the range difference over the speed of light: the subtraction of the
      earliest time cancels. */
  lemma TrueTdoaEntries(emitter: Vec, receivers: seq<Vec>, coordSys: string, sqrt: real -> real,
                        geodesic: (Vec, Vec) -> real)
    requires TrueTdoaSpec(emitter, receivers, coordSys, sqrt, geodesic).Ok?
    ensures var m := TrueTdoaSpec(emitter, receivers, coordSys, sqrt, geodesic).value;
            var metric := GetDistanceFunc(|emitter|, coordSys).value;
            (forall a :: 0 <= a < |m| ==> |m[a]| == |m| && m[a][a] == 0.0) &&
            (forall a, b :: 0 <= a < |m| && 0 <= b < |m| ==> m[a][b] == m[b][a]) &&
            (forall a, b :: 0 <= a < b < |m| ==>
               Measure(metric, sqrt, geodesic, emitter, receivers[a]).Ok? &&
               Measure(metric, sqrt, geodesic, emitter, receivers[b]).Ok? &&
               m[a][b] == (Measure(metric, sqrt, geodesic, emitter, receivers[b]).value
                           - Measure(metric, sqrt, geodesic, emitter, receivers[a]).value) / SpeedOfLight)
  {
  }

  /** `generate_true_tdoa_data`: the distance loop, the arrival times and the matrix fill. */
  method GenerateTrueTdoaData(emitter: Vec, receivers: seq<Vec>, coordSys: string, sqrt: real -> real,
                              geodesic: (Vec, Vec) -> real) returns (r: Result<seq<seq<real>>>)
    ensures r == TrueTdoaSpec(emitter, receivers, coordSys, sqrt, geodesic)
  {
    var metric := GetDistanceFunc(|emitter|, coordSys);
    var distances: seq<real> := [];
    for k := 0 to |receivers|
      invariant |distances| == k && (metric.Some? || k == 0)
      invariant metric.Some? ==>
                  forall i :: 0 <= i < k ==> Measure(metric.value, sqrt, geodesic, emitter, receivers[i]) == Ok(distances[i])
    {
      if metric.None? {
        return Err(NotCallable);
      }
      var d := Measure(metric.value, sqrt, geodesic, emitter, receivers[k]);
      if d.Err? {
        return Err(d.error);
      }
      distances := distances + [d.value];
    }
    if |distances| == 0 {
      return Err(EmptyArgument);
    }
    assert forall i :: 0 <= i < |receivers| ==> Measure(metric.value, sqrt, geodesic, emitter, receivers[i]).Ok?;
    assert distances == seq(|receivers|, i requires 0 <= i < |receivers| =>
                              Measure(metric.value, sqrt, geodesic, emitter, receivers[i]).value);
    var arrival := ArrivalTimes(distances);
    var tdoa := FillTdoaMatrix(arrival);
    r := Ok(tdoa);
  }

  // ---------------------------------------------------------------- residual equations

  /** `np.triu_indices(n, 1)`: the pairs (i, j), i < j < n, row by row. */
  function TriuPairs(n: nat): (pairs: seq<(nat, nat)>)
    ensures forall k :: 0 <= k < |pairs| ==> pairs[k].0 < pairs[k].1 < n
  {
    PairsFromBounds(0, n);
    PairsFrom(0, n)
  }

  predicate RowMajorBefore(p: (nat, nat), q: (nat, nat))
  {
    p.0 < q.0 || (p.0 == q.0 && p.1 < q.1)
  }

  /** Row i of the upper triangle: (i, i + 1), ..., (i, n - 1). */
  function Row(i: nat, n: nat): (row: seq<(nat, nat)>)
    requires i < n
    ensures |row| == n - i - 1 && forall k :: 0 <= k < |row| ==> row[k] == (i, i + 1 + k)
  {
    seq(n - i - 1, k requires 0 <= k < n - i - 1 => (i, i + 1 + k))
  }

  /** The rows i, i + 1, ... of the upper triangle. */
  function PairsFrom(i: nat, n: nat): seq<(nat, nat)>
    decreases n - i
  {
    if i >= n then [] else Row(i, n) + PairsFrom(i + 1, n)
  }

  /** Rows i onwards hold only pairs i <= a < b < n. */
  lemma {:induction false} PairsFromBounds(i: nat, n: nat)
    ensures forall k :: 0 <= k < |PairsFrom(i, n)| ==> i <= PairsFrom(i, n)[k].0 < PairsFrom(i, n)[k].1 < n
    decreases n - i
  {
    if i < n {
      PairsFromBounds(i + 1, n);
      var row, rest := Row(i, n), PairsFrom(i + 1, n);
      assert forall k :: |row| <= k < |row| + |rest| ==> (row + rest)[k] == rest[k - |row|];
    }
  }

  /** Rows i onwards hold every pair i <= a < b < n. */
  lemma {:induction false} PairsFromComplete(i: nat, n: nat)
    ensures forall a: nat, b: nat :: i <= a < b < n ==> (a, b) in PairsFrom(i, n)
    decreases n - i
  {
    if i < n {
      PairsFromComplete(i + 1, n);
      var row := Row(i, n);
      assert forall b: nat :: i < b < n ==> row[b - i - 1] == (i, b);
    }
  }

  /** Rows i onwards come in row-major order. */
  lemma {:induction false} PairsFromOrdered(i: nat, n: nat)
    ensures forall k, l :: 0 <= k < l < |PairsFrom(i, n)| ==> RowMajorBefore(PairsFrom(i, n)[k], PairsFrom(i, n)[l])
    decreases n - i
  {
    if i < n {
      PairsFromOrdered(i + 1, n);
      PairsFromBounds(i + 1, n);
      var row, rest := Row(i, n), PairsFrom(i + 1, n);
      var all := row + rest;
      forall k, l | 0 <= k < l < |all|
        ensures RowMajorBefore(all[k], all[l])
      {
        if l >= |row| {
          assert all[l] == rest[l - |row|];
          if k >= |row| {
            assert all[k] == rest[k - |row|];
          }
        }
      }
    }
  }

  /** The flattened upper triangle lists every pair a < b < n exactly once, row by row. */
  lemma TriuPairsExact(n: nat)
    ensures forall a: nat, b: nat :: a < b < n ==> (a, b) in TriuPairs(n)
    ensures forall k, l :: 0 <= k < l < |TriuPairs(n)| ==> RowMajorBefore(TriuPairs(n)[k], TriuPairs(n)[l])
  {
    PairsFromComplete(0, n);
    PairsFromOrdered(0, n);
  }

  /** The six equations of the 3-D study pair the receivers in this order. */
  lemma TriuPairsOfFour()
    ensures TriuPairs(4) == [(0, 1), (0, 2), (0, 3), (1, 2), (1, 3), (2, 3)]
  {
    assert PairsFrom(3, 4) == Row(3, 4) == [];
    assert Row(2, 4) == [(2, 3)];
    assert Row(1, 4) == [(1, 2), (1, 3)];
    assert Row(0, 4) == [(0, 1), (0, 2), (0, 3)];
  }

  /** `c * tdoas[np.triu_indices(n, 1)]`: the upper triangle, row by row, as range
      differences. */
  function TrueDiffs(tdoa: seq<seq<real>>): (diffs: seq<real>)
    requires forall a :: 0 <= a < |tdoa| ==> |tdoa[a]| == |tdoa|
    ensures |diffs| == |TriuPairs(|tdoa|)|
    ensures forall k :: 0 <= k < |diffs| ==>
              diffs[k] == SpeedOfLight * tdoa[TriuPairs(|tdoa|)[k].0][TriuPairs(|tdoa|)[k].1]
  {
    var pairs := TriuPairs(|tdoa|);
    seq(|pairs|, k requires 0 <= k < |pairs| => SpeedOfLight * tdoa[pairs[k].0][pairs[k].1])
  }

  /** `hyperboloid_3d`: the receivers are ordered so that the range difference is positive,
      so the residual is the signed form below; unpacking a receiver that does not have exactly
      three coordinates fails. */
  function Hyperboloid3d(sqrt: real -> real, x: real, y: real, z: real, receiver1: Vec, receiver2: Vec,
                         diff: real): (r: Result<real>)
    ensures r.Ok? <==> |receiver1| == 3 && |receiver2| == 3
    ensures r.Ok? ==>
              r.value == (if diff > 0.0 then 1.0 else -1.0)
                         * (SpatialDistance(sqrt, [x, y, z], receiver2) - SpatialDistance(sqrt, [x, y, z], receiver1) - diff)
    ensures r.Ok? ==>
              (r.value == 0.0 <==> SpatialDistance(sqrt, [x, y, z], receiver2) - SpatialDistance(sqrt, [x, y, z], receiver1) == diff)
  {
    if |receiver1| != 3 || |receiver2| != 3 then Err(UnpackMismatch)
    else
      var (a, b, d) := if diff > 0.0 then (receiver1, receiver2, diff) else (receiver2, receiver1, -diff);
      Ok(SpatialDistance(sqrt, [x, y, z], b) - SpatialDistance(sqrt, [x, y, z], a) - d)
  }

  /** Swapping the receivers and negating a non-zero difference gives the same residual. */
  lemma Hyperboloid3dSwap(sqrt: real -> real, x: real, y: real, z: real, r1: Vec, r2: Vec, diff: real)
    requires diff != 0.0
    ensures Hyperboloid3d(sqrt, x, y, z, r2, r1, -diff) == Hyperboloid3d(sqrt, x, y, z, r1, r2, diff)
  {
  }

  /** At a zero difference both orders take the second branch, so the swap negates the
      residual, which differs wherever the point is not equidistant. */
  lemma Hyperboloid3dSwapAtZero(sqrt: real -> real, x: real, y: real, z: real, r1: Vec, r2: Vec)
    requires |r1| == 3 && |r2| == 3
    requires SpatialDistance(sqrt, [x, y, z], r1) != SpatialDistance(sqrt, [x, y, z], r2)
    ensures Hyperboloid3d(sqrt, x, y, z, r2, r1, 0.0) != Hyperboloid3d(sqrt, x, y, z, r1, r2, 0.0)
  {
  }

  /** The `equations` of the 3-D study: one hyperboloid residual per receiver pair, in the
      upper-triangle order of the difference list. */
  function Equations3d(sqrt: real -> real, x: real, y: real, z: real, receivers: seq<Vec>, diffs: seq<real>)
    : (r: Result<seq<real>>)
    requires |receivers| == 4 && |diffs| == 6
    ensures r.Ok? <==> forall i :: 0 <= i < 4 ==> |receivers[i]| == 3
    ensures r.Ok? ==> |r.value| == 6 && forall k :: 0 <= k < 6 ==>
              Hyperboloid3d(sqrt, x, y, z, receivers[TriuPairs(4)[k].0], receivers[TriuPairs(4)[k].1], diffs[k])
                == Ok(r.value[k])
  {
    TriuPairsOfFour();
    var pairs := TriuPairs(4);
    if exists i :: 0 <= i < 4 && |receivers[i]| != 3 then Err(UnpackMismatch)
    else Ok(seq(6, k requires 0 <= k < 6 =>
                  Hyperboloid3d(sqrt, x, y, z, receivers[pairs[k].0], receivers[pairs[k].1], diffs[k]).value))
  }

  /** Without noise the true emitter position zeroes all six equations. */
  lemma NoiselessEquationsVanish3d(sqrt: real -> real, geodesic: (Vec, Vec) -> real, emitter: Vec,
                                   receivers: seq<Vec>)
    requires |emitter| == 3 && |receivers| == 4
    requires forall i :: 0 <= i < 4 ==> |receivers[i]| == 3
    ensures TrueTdoaSpec(emitter, receivers, "cartesian", sqrt, geodesic).Ok?
    ensures Equations3d(sqrt, emitter[0], emitter[1], emitter[2], receivers,
                        TrueDiffs(TrueTdoaSpec(emitter, receivers, "cartesian", sqrt, geodesic).value))
              == Ok(Zeros(6))
  {
    var spec := TrueTdoaSpec(emitter, receivers, "cartesian", sqrt, geodesic);
    assert forall i :: 0 <= i < |receivers| ==> Measure(Spatial, sqrt, geodesic, emitter, receivers[i]).Ok?;
    TrueTdoaEntries(emitter, receivers, "cartesian", sqrt, geodesic);
    var m := spec.value;
    var diffs := TrueDiffs(m);
    TriuPairsOfFour();
    var p := [emitter[0], emitter[1], emitter[2]];
    assert p == emitter;
    var r := Equations3d(sqrt, emitter[0], emitter[1], emitter[2], receivers, diffs);
    forall k | 0 <= k < 6
      ensures r.value[k] == 0.0
    {
      var a, b := TriuPairs(4)[k].0, TriuPairs(4)[k].1;
      assert diffs[k] == SpatialDistance(sqrt, p, receivers[b]) - SpatialDistance(sqrt, p, receivers[a]);
    }
    assert r.value == Zeros(6);
  }
}
