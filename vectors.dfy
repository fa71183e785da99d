/** Coordinate vectors and the Euclidean distance over an abstract square root. */
module Vectors {

  /** A position or velocity: one coordinate per spatial dimension. */
  type Vec = seq<real>

  /** A square-root function on the non-negative reals, standing in for `np.sqrt`. */
  ghost predicate IsSqrt(sqrt: real -> real)
  {
    forall x :: 0.0 <= x ==> 0.0 <= sqrt(x) && sqrt(x) * sqrt(x) == x
  }

  function Sub(p: Vec, q: Vec): (r: Vec)
    requires |p| == |q|
    ensures |r| == |p|
  {
    seq(|p|, i requires 0 <= i < |p| => p[i] - q[i])
  }

  function Neg(p: Vec): (r: Vec)
    ensures |r| == |p|
  {
    seq(|p|, i requires 0 <= i < |p| => -p[i])
  }

  function Zeros(n: nat): (r: Vec)
    ensures |r| == n && forall i :: 0 <= i < n ==> r[i] == 0.0
  {
    seq(n, i => 0.0)
  }

  function Dot(u: Vec, v: Vec): real
    requires |u| == |v|
  {
    if |u| == 0 then 0.0 else u[0] * v[0] + Dot(u[1..], v[1..])
  }

  /** `np.linalg.norm(p - q)`. */
  function Dist(sqrt: real -> real, p: Vec, q: Vec): real
    requires |p| == |q|
  {
    sqrt(Dot(Sub(p, q), Sub(p, q)))
  }

  lemma {:induction false} DotSelfNonNegative(v: Vec)
    ensures Dot(v, v) >= 0.0
  {
    if |v| > 0 {
      DotSelfNonNegative(v[1..]);
    }
  }

  /** A zero velocity has no component along any direction. */
  lemma {:induction false} DotZeroLeft(u: Vec, v: Vec)
    requires |u| == |v|
    requires forall i :: 0 <= i < |u| ==> u[i] == 0.0
    ensures Dot(u, v) == 0.0
  {
    if |u| > 0 {
      DotZeroLeft(u[1..], v[1..]);
    }
  }

  /** dot(-v, x - y) == dot(v, y - x). */
  lemma {:induction false} DotNegSwap(v: Vec, x: Vec, y: Vec)
    requires |v| == |x| == |y|
    ensures Dot(Neg(v), Sub(x, y)) == Dot(v, Sub(y, x))
  {
    if |v| > 0 {
      assert Neg(v)[1..] == Neg(v[1..]);
      assert Sub(x, y)[1..] == Sub(x[1..], y[1..]);
      assert Sub(y, x)[1..] == Sub(y[1..], x[1..]);
      DotNegSwap(v[1..], x[1..], y[1..]);
    }
  }

  lemma {:induction false} SquaredDistanceSymmetric(p: Vec, q: Vec)
    requires |p| == |q|
    ensures Dot(Sub(p, q), Sub(p, q)) == Dot(Sub(q, p), Sub(q, p))
  {
    if |p| > 0 {
      assert Sub(p, q)[1..] == Sub(p[1..], q[1..]);
      assert Sub(q, p)[1..] == Sub(q[1..], p[1..]);
      SquaredDistanceSymmetric(p[1..], q[1..]);
    }
  }

  /** The distance is symmetric in its two points. */
  lemma DistSymmetric(sqrt: real -> real, p: Vec, q: Vec)
    requires |p| == |q|
    ensures Dist(sqrt, p, q) == Dist(sqrt, q, p)
  {
    SquaredDistanceSymmetric(p, q);
  }

  /** The distance is never negative. */
  lemma DistNonNegative(sqrt: real -> real, p: Vec, q: Vec)
    requires IsSqrt(sqrt) && |p| == |q|
    ensures Dist(sqrt, p, q) >= 0.0
  {
    DotSelfNonNegative(Sub(p, q));
  }
}
