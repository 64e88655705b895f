// The two-dimensional normal of the segment from a to b: the difference b - a
// turned a quarter turn counter-clockwise, (-dy, dx). Points are sequences of
// coordinates, so that the size of the result is something that can be stated.
module Normals {

  /** The difference b - a, component by component. */
  function Diff(a: seq<real>, b: seq<real>): (d: seq<real>)
    requires |a| == |b|
    ensures |d| == |a|
    ensures forall i :: 0 <= i < |a| ==> a[i] + d[i] == b[i]
  {
    seq(|a|, i requires 0 <= i < |a| => b[i] - a[i])
  }

  function Dot2(u: seq<real>, v: seq<real>): real
    requires |u| == 2 && |v| == 2
  {
    u[0] * v[0] + u[1] * v[1]
  }

  /** The z component of the cross product u x v of two plane vectors. */
  function Cross2(u: seq<real>, v: seq<real>): real
    requires |u| == 2 && |v| == 2
  {
    u[0] * v[1] - u[1] * v[0]
  }

  /**
   * The normal of the segment a -> b. It has two components, is orthogonal
   * to b - a, is as long as b - a, and lies to the left of it (b - a followed
   * by the normal turns counter-clockwise, so their cross product is |b - a|^2).
   */
  function Normal(a: seq<real>, b: seq<real>): (n: seq<real>)
    requires |a| == 2 && |b| == 2
    ensures |n| == 2
    ensures Dot2(n, Diff(a, b)) == 0.0
    ensures Dot2(n, n) == Dot2(Diff(a, b), Diff(a, b))
    ensures Cross2(Diff(a, b), n) == Dot2(Diff(a, b), Diff(a, b))
  {
    [-(b[1] - a[1]), b[0] - a[0]]
  }

  lemma SquareNonnegative(x: real)
    ensures x * x >= 0.0
  {
    if x < 0.0 {
      assert x * x == (-x) * (-x);
    }
  }

  lemma SquarePositive(x: real)
    requires x != 0.0
    ensures x * x > 0.0
  {
    if x < 0.0 {
      assert x * x == (-x) * (-x);
    }
  }

  /** A nonzero plane vector has a positive squared length. */
  lemma SquaredLengthPositive(p: real, q: real)
    requires p != 0.0 || q != 0.0
    ensures p * p + q * q > 0.0
  {
    SquareNonnegative(p);
    SquareNonnegative(q);
    if p != 0.0 {
      SquarePositive(p);
    } else {
      SquarePositive(q);
    }
  }

  lemma CancelFactor(d: real, x: real, y: real)
    requires d != 0.0 && d * x == d * y
    ensures x == y
  {
    assert d * (x - y) == 0.0;
  }

  /**
   * In a linear system dx p + dy q == 0, dx q - dy p == D with
   * D == dx^2 + dy^2, eliminating each unknown gives D p == -dy D and D q == dx D.
   */
  lemma Eliminate(dx: real, dy: real, p: real, q: real)
    requires dx * p + dy * q == 0.0
    requires dx * q - dy * p == dx * dx + dy * dy
    ensures (dx * dx + dy * dy) * p == -dy * (dx * dx + dy * dy)
    ensures (dx * dx + dy * dy) * q == dx * (dx * dx + dy * dy)
  {
    var d := dx * dx + dy * dy;
    calc {
      d * p;
      dx * (dx * p) + dy * (dy * p);
      dx * (dx * p + dy * q) - dy * (dx * q - dy * p);
      dx * 0.0 - dy * d;
      -dy * d;
    }
    calc {
      d * q;
      dy * (dy * q) + dx * (dx * q);
      dy * (dx * p + dy * q) + dx * (dx * q - dy * p);
      dy * 0.0 + dx * d;
      dx * d;
    }
  }

  /**
   * Orthogonality and orientation determine the normal of a proper segment:
   * any two-component vector orthogonal to b - a whose cross product with
   * b - a is |b - a|^2 equals Normal(a, b) (its length then follows).
   */
  lemma NormalUnique(a: seq<real>, b: seq<real>, m: seq<real>)
    requires |a| == 2 && |b| == 2 && |m| == 2 && a != b
    requires Dot2(m, Diff(a, b)) == 0.0
    requires Cross2(Diff(a, b), m) == Dot2(Diff(a, b), Diff(a, b))
    ensures m == Normal(a, b)
  {
    var dx, dy := b[0] - a[0], b[1] - a[1];
    var p, q := m[0], m[1];
    assert a[0] != b[0] || a[1] != b[1];
    SquaredLengthPositive(dx, dy);
    assert dx * p + dy * q == 0.0;
    assert dx * q - dy * p == dx * dx + dy * dy;
    Eliminate(dx, dy, p, q);
    var d := dx * dx + dy * dy;
    CancelFactor(d, p, -dy);
    CancelFactor(d, q, dx);
    assert m == [p, q];
  }

  /** A degenerate segment has the zero normal. */
  lemma NormalDegenerate(a: seq<real>)
    requires |a| == 2
    ensures Normal(a, a) == [0.0, 0.0]
  {
  }

  /** Reversing the segment reverses its normal. */
  lemma NormalSwap(a: seq<real>, b: seq<real>)
    requires |a| == 2 && |b| == 2
    ensures Normal(b, a) == [-Normal(a, b)[0], -Normal(a, b)[1]]
  {
  }

  /** Moving both end points by the same offset leaves the normal unchanged. */
  lemma NormalTranslation(a: seq<real>, b: seq<real>, t: seq<real>)
    requires |a| == 2 && |b| == 2 && |t| == 2
    ensures Normal([a[0] + t[0], a[1] + t[1]], [b[0] + t[0], b[1] + t[1]]) == Normal(a, b)
  {
  }

  /** The unit segment along x from the origin has the unit normal along y. */
  lemma NormalOfUnitX()
    ensures Normal([0.0, 0.0], [1.0, 0.0]) == [0.0, 1.0]
  {
  }
}
