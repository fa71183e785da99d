/** Complex baseband samples, exact over the reals. */
module Complex {

  datatype C = C(re: real, im: real)

  const Zero: C := C(0.0, 0.0)

  function Real(x: real): C { C(x, 0.0) }

  function Add(a: C, b: C): C { C(a.re + b.re, a.im + b.im) }

  function Mul(a: C, b: C): C { C(a.re * b.re - a.im * b.im, a.re * b.im + a.im * b.re) }

  function Conj(a: C): C { C(a.re, -a.im) }

  /** |a|^2, the square of the magnitude. */
  function AbsSq(a: C): real { a.re * a.re + a.im * a.im }

  function Sum(s: seq<C>): C
  {
    if |s| == 0 then Zero else Add(s[0], Sum(s[1..]))
  }

  /** Element-wise product of two equally long signals. */
  function Times(a: seq<C>, b: seq<C>): (r: seq<C>)
    requires |a| == |b|
    ensures |r| == |a|
  {
    seq(|a|, k requires 0 <= k < |a| => Mul(a[k], b[k]))
  }

  /** Element-wise conjugate. */
  function ConjAll(a: seq<C>): (r: seq<C>)
    ensures |r| == |a|
  {
    seq(|a|, k requires 0 <= k < |a| => Conj(a[k]))
  }

  /** A real signal as a complex one; numpy promotes when complex zeros are appended. */
  function Lift(s: seq<real>): (r: seq<C>)
    ensures |r| == |s|
  {
    seq(|s|, k requires 0 <= k < |s| => Real(s[k]))
  }
}
