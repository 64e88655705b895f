// Finite sums of reals over index ranges and over index lists, with the
// handful of algebraic facts the conservation argument needs: extensionality,
// linearity, the sum of a point mass, index lists as indicator functions, and
// exchange of the order of a double sum.
module Sums {

  /** g(0) + g(1) + ... + g(n - 1). */
  function SumTo(n: nat, g: nat -> real): real
  {
    if n == 0 then 0.0 else SumTo(n - 1, g) + g(n - 1)
  }

  /** The sum of g over the elements of xs, repetitions included. */
  function ListSum(xs: seq<nat>, g: nat -> real): real
  {
    if |xs| == 0 then 0.0 else ListSum(xs[..|xs| - 1], g) + g(xs[|xs| - 1])
  }

  predicate Distinct(xs: seq<nat>)
  {
    forall i, j :: 0 <= i < j < |xs| ==> xs[i] != xs[j]
  }

  function Plus(g: nat -> real, h: nat -> real): nat -> real
  {
    (i: nat) => g(i) + h(i)
  }

  function Times(c: real, g: nat -> real): nat -> real
  {
    (i: nat) => c * g(i)
  }

  /** The function that is v at x and zero elsewhere. */
  function Point(x: nat, v: real): nat -> real
  {
    (i: nat) => if i == x then v else 0.0
  }

  /** g restricted to the elements of xs, zero elsewhere. */
  function Indicator(xs: seq<nat>, g: nat -> real): nat -> real
  {
    (i: nat) => if i in xs then g(i) else 0.0
  }

  /** Sums only see the values below their bound. */
  lemma {:induction false} SumToExt(n: nat, g: nat -> real, h: nat -> real)
    requires forall i: nat :: i < n ==> g(i) == h(i)
    ensures SumTo(n, g) == SumTo(n, h)
  {
    if n > 0 {
      SumToExt(n - 1, g, h);
    }
  }

  lemma {:induction false} SumToPlus(n: nat, g: nat -> real, h: nat -> real)
    ensures SumTo(n, Plus(g, h)) == SumTo(n, g) + SumTo(n, h)
  {
    if n > 0 {
      SumToPlus(n - 1, g, h);
    }
  }

  lemma {:induction false} SumToTimes(n: nat, c: real, g: nat -> real)
    ensures SumTo(n, Times(c, g)) == c * SumTo(n, g)
  {
    if n > 0 {
      SumToTimes(n - 1, c, g);
      assert SumTo(n, Times(c, g)) == c * SumTo(n - 1, g) + c * g(n - 1);
    }
  }

  lemma {:induction false} SumToZero(n: nat, g: nat -> real)
    requires forall i: nat :: i < n ==> g(i) == 0.0
    ensures SumTo(n, g) == 0.0
  {
    if n > 0 {
      SumToZero(n - 1, g);
    }
  }

  /** Scaling both sides of a balance (g-total == -h-total) by c, term by term. */
  lemma SumToScaledBalance(n: nat, g: nat -> real, m: nat, h: nat -> real, c: real)
    requires SumTo(n, g) == -SumTo(m, h)
    ensures SumTo(n, Times(c, g)) == SumTo(m, Times(-c, h)) == -c * SumTo(m, h)
  {
    SumToTimes(n, c, g);
    SumToTimes(m, -c, h);
  }

  /** A point mass inside the range contributes its value once. */
  lemma {:induction false} SumToPoint(n: nat, x: nat, v: real)
    ensures SumTo(n, Point(x, v)) == if x < n then v else 0.0
  {
    if n > 0 {
      SumToPoint(n - 1, x, v);
    }
  }

  /**
   * Summing over a list of distinct indices below n is summing over the whole
   * range 0..n of the indicator of that list.
   */
  lemma {:induction false} ListSumIndicator(xs: seq<nat>, g: nat -> real, n: nat)
    requires Distinct(xs)
    requires forall i :: 0 <= i < |xs| ==> xs[i] < n
    ensures ListSum(xs, g) == SumTo(n, Indicator(xs, g))
  {
    if |xs| == 0 {
      SumToZero(n, Indicator(xs, g));
    } else {
      var ys, x := xs[..|xs| - 1], xs[|xs| - 1];
      assert xs == ys + [x];
      assert x !in ys by {
        forall i | 0 <= i < |ys| ensures ys[i] != x {
          assert ys[i] == xs[i];
        }
      }
      ListSumIndicator(ys, g, n);
      forall i: nat | i < n
        ensures Indicator(xs, g)(i) == Plus(Indicator(ys, g), Point(x, g(x)))(i)
      {
        assert i in xs <==> i in ys || i == x;
      }
      SumToExt(n, Indicator(xs, g), Plus(Indicator(ys, g), Point(x, g(x))));
      SumToPlus(n, Indicator(ys, g), Point(x, g(x)));
      SumToPoint(n, x, g(x));
    }
  }

  function Row(h: (nat, nat) -> real, i: nat): nat -> real
  {
    (j: nat) => h(i, j)
  }

  function Col(h: (nat, nat) -> real, j: nat): nat -> real
  {
    (i: nat) => h(i, j)
  }

  /** i |-> sum over j < m of h(i, j). */
  function RowSums(h: (nat, nat) -> real, m: nat): nat -> real
  {
    (i: nat) => SumTo(m, Row(h, i))
  }

  /** j |-> sum over i < n of h(i, j). */
  function ColSums(h: (nat, nat) -> real, n: nat): nat -> real
  {
    (j: nat) => SumTo(n, Col(h, j))
  }

  /** A finite double sum can be taken in either order. */
  lemma {:induction false} SumSwap(n: nat, m: nat, h: (nat, nat) -> real)
    ensures SumTo(n, RowSums(h, m)) == SumTo(m, ColSums(h, n))
  {
    if n == 0 {
      SumToZero(m, ColSums(h, 0));
    } else {
      SumSwap(n - 1, m, h);
      SumToPlus(m, ColSums(h, n - 1), Row(h, n - 1));
      SumToExt(m, Plus(ColSums(h, n - 1), Row(h, n - 1)), ColSums(h, n));
    }
  }
}
