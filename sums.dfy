/**
 Finite sums of real-valued functions over sequences. The PageRank code
 sums over its page dictionaries in their iteration order; a sequence
 fixes that order so that every sum below is a well-defined number.
 */
module Sums {

  /** No element occurs twice. */
  predicate Distinct<T(==)>(xs: seq<T>)
  {
    forall i, j :: 0 <= i < j < |xs| ==> xs[i] != xs[j]
  }

  /** The set of elements of a sequence. */
  function Elems<T>(xs: seq<T>): set<T>
  {
    set x | x in xs
  }

  /** f(xs[0]) + ... + f(xs[|xs| - 1]), accumulated from the front as a loop would. */
  function Sum<T>(xs: seq<T>, f: T -> real): real
    decreases |xs|
  {
    if |xs| == 0 then 0.0 else Sum(xs[..|xs| - 1], f) + f(xs[|xs| - 1])
  }

  /** How a non-empty sequence splits into its front and its last element. */
  lemma Snoc<T>(xs: seq<T>)
    requires |xs| > 0
    ensures xs == xs[..|xs| - 1] + [xs[|xs| - 1]]
    ensures xs[|xs| - 1] in xs
    ensures forall x :: x in xs[..|xs| - 1] ==> x in xs
    ensures Elems(xs) == Elems(xs[..|xs| - 1]) + {xs[|xs| - 1]}
    ensures Distinct(xs) ==> Distinct(xs[..|xs| - 1]) && xs[|xs| - 1] !in Elems(xs[..|xs| - 1])
  {
    var init, last := xs[..|xs| - 1], xs[|xs| - 1];
    assert xs == init + [last];
    if Distinct(xs) {
      forall x | x in init ensures x != last {
        var i :| 0 <= i < |init| && init[i] == x;
        assert xs[i] == x;
      }
    }
  }

  lemma {:induction false} DistinctCard<T>(xs: seq<T>)
    requires Distinct(xs)
    ensures |Elems(xs)| == |xs|
    decreases |xs|
  {
    if |xs| > 0 {
      Snoc(xs);
      DistinctCard(xs[..|xs| - 1]);
    }
  }

  /** Sums of functions that agree on the elements are equal. */
  lemma {:induction false} SumCongruent<T>(xs: seq<T>, f: T -> real, g: T -> real)
    requires forall x :: x in xs ==> f(x) == g(x)
    ensures Sum(xs, f) == Sum(xs, g)
    decreases |xs|
  {
    if |xs| > 0 {
      var init := xs[..|xs| - 1];
      assert forall x :: x in init ==> x in xs;
      SumCongruent(init, f, g);
      assert xs[|xs| - 1] in xs;
    }
  }

  /** A sum of pointwise sums is the sum of the two sums. */
  lemma {:induction false} SumAdd<T>(xs: seq<T>, f: T -> real, g: T -> real, h: T -> real)
    requires forall x :: x in xs ==> h(x) == f(x) + g(x)
    ensures Sum(xs, h) == Sum(xs, f) + Sum(xs, g)
    decreases |xs|
  {
    if |xs| > 0 {
      var init := xs[..|xs| - 1];
      assert forall x :: x in init ==> x in xs;
      SumAdd(init, f, g, h);
      assert xs[|xs| - 1] in xs;
    }
  }

  /** A constant factor comes out of a sum. */
  lemma {:induction false} SumScale<T>(xs: seq<T>, f: T -> real, g: T -> real, c: real)
    requires forall x :: x in xs ==> g(x) == c * f(x)
    ensures Sum(xs, g) == c * Sum(xs, f)
    decreases |xs|
  {
    if |xs| > 0 {
      var init := xs[..|xs| - 1];
      assert forall x :: x in init ==> x in xs;
      SumScale(init, f, g, c);
      assert xs[|xs| - 1] in xs;
    }
  }

  /** Summing a constant c over xs gives |xs| * c. */
  lemma {:induction false} SumConst<T>(xs: seq<T>, f: T -> real, c: real)
    requires forall x :: x in xs ==> f(x) == c
    ensures Sum(xs, f) == |xs| as real * c
    decreases |xs|
  {
    if |xs| > 0 {
      var init := xs[..|xs| - 1];
      assert forall x :: x in init ==> x in xs;
      SumConst(init, f, c);
      assert xs[|xs| - 1] in xs;
    }
  }

  /** Appending a new element to a distinct sequence adds one to its intersection with s exactly when the element is in s. */
  lemma MeetSnoc<T>(xs: seq<T>, s: set<T>)
    requires |xs| > 0 && Distinct(xs)
    ensures |s * Elems(xs)| == |s * Elems(xs[..|xs| - 1])| + (if xs[|xs| - 1] in s then 1 else 0)
  {
    var init, last := xs[..|xs| - 1], xs[|xs| - 1];
    Snoc(xs);
    var before := s * Elems(init);
    assert last !in before;
    if last in s {
      assert s * Elems(xs) == before + {last};
    } else {
      assert s * Elems(xs) == before;
    }
  }

  /** Summing 1 over the elements of a distinct xs that lie in s, and 0 elsewhere, counts them. */
  lemma {:induction false} SumCount<T>(xs: seq<T>, s: set<T>, f: T -> real)
    requires Distinct(xs)
    requires forall x :: x in xs ==> f(x) == (if x in s then 1.0 else 0.0)
    ensures Sum(xs, f) == |s * Elems(xs)| as real
    decreases |xs|
  {
    if |xs| > 0 {
      var init, last := xs[..|xs| - 1], xs[|xs| - 1];
      assert Distinct(init) && forall x :: x in init ==> f(x) == (if x in s then 1.0 else 0.0) by {
        Snoc(xs);
      }
      SumCount(init, s, f);
      assert last in xs;
      MeetSnoc(xs, s);
    }
  }

  lemma IndicatorScales<T>(xs: seq<T>, s: set<T>, c: real, f: T -> real, one: T -> real)
    requires forall x :: x in xs ==> f(x) == (if x in s then c else 0.0)
    requires forall x :: x in xs ==> one(x) == (if x in s then 1.0 else 0.0)
    ensures forall x :: x in xs ==> f(x) == c * one(x)
  {
    forall x | x in xs
      ensures f(x) == c * one(x)
    {
      if x in s {
        assert f(x) == c && one(x) == 1.0;
      } else {
        assert f(x) == 0.0 && one(x) == 0.0;
      }
    }
  }

  /** Summing c over the elements of a distinct xs that lie in s, and 0 elsewhere, gives c times the number of them. */
  lemma SumIndicator<T>(xs: seq<T>, s: set<T>, c: real, f: T -> real)
    requires Distinct(xs)
    requires forall x :: x in xs ==> f(x) == (if x in s then c else 0.0)
    ensures Sum(xs, f) == c * |s * Elems(xs)| as real
  {
    var one: T -> real := x => if x in s then 1.0 else 0.0;
    var count := |s * Elems(xs)| as real;
    assert Sum(xs, one) == count by {
      SumCount(xs, s, one);
    }
    assert Sum(xs, f) == c * Sum(xs, one) by {
      IndicatorScales(xs, s, c, f, one);
      SumScale(xs, one, f, c);
    }
  }

  /** Spreading v evenly over a non-empty set of elements of a distinct xs, and 0 elsewhere, sums to v. */
  lemma SumEvenShares<T>(xs: seq<T>, s: set<T>, v: real, f: T -> real)
    requires Distinct(xs) && s <= Elems(xs) && s != {}
    requires forall x :: x in xs ==> f(x) == (if x in s then v / |s| as real else 0.0)
    ensures Sum(xs, f) == v
  {
    assert s * Elems(xs) == s;
    SumIndicator(xs, s, v / |s| as real, f);
    Cancels(|s|, v);
  }

  /** Raising f by c at one element y of a distinct xs raises the sum by c. */
  lemma SumBump<T>(xs: seq<T>, f: T -> real, g: T -> real, y: T, c: real)
    requires Distinct(xs) && y in xs
    requires g(y) == f(y) + c
    requires forall x :: x in xs && x != y ==> g(x) == f(x)
    ensures Sum(xs, g) == Sum(xs, f) + c
  {
    var bump: T -> real := x => if x in {y} then c else 0.0;
    SumAdd(xs, f, bump, g);
    SumIndicator(xs, {y}, c, bump);
    assert {y} * Elems(xs) == {y};
  }

  /** k shares of x / k make x. */
  lemma Cancels(k: nat, x: real)
    requires k > 0
    ensures k as real * (x / k as real) == x
    ensures (x / k as real) * k as real == x
  {
  }

  /** Row x of a matrix F: the function y => F(x, y). */
  function Row<T>(F: (T, T) -> real, x: T): T -> real
  {
    y => F(x, y)
  }

  /** Column y of a matrix F: the function x => F(x, y). */
  function Col<T>(F: (T, T) -> real, y: T): T -> real
  {
    x => F(x, y)
  }

  /** The sum of each row of F over ys. */
  function RowSums<T>(F: (T, T) -> real, ys: seq<T>): T -> real
  {
    x => Sum(ys, Row(F, x))
  }

  /** The sum of each column of F over xs. */
  function ColSums<T>(F: (T, T) -> real, xs: seq<T>): T -> real
  {
    y => Sum(xs, Col(F, y))
  }

  /** A double sum may be taken in either order. */
  lemma {:induction false} SumSwap<T>(xs: seq<T>, ys: seq<T>, F: (T, T) -> real)
    ensures Sum(xs, RowSums(F, ys)) == Sum(ys, ColSums(F, xs))
    decreases |xs|
  {
    if |xs| == 0 {
      SumConst(ys, ColSums(F, xs), 0.0);
    } else {
      var init, last := xs[..|xs| - 1], xs[|xs| - 1];
      SumSwap(init, ys, F);
      forall y | y in ys
        ensures ColSums(F, xs)(y) == ColSums(F, init)(y) + Row(F, last)(y)
      {
      }
      SumAdd(ys, ColSums(F, init), Row(F, last), ColSums(F, xs));
    }
  }

  /** A sum of non-negative terms is non-negative. */
  lemma {:induction false} SumNonNegative<T>(xs: seq<T>, f: T -> real)
    requires forall x :: x in xs ==> 0.0 <= f(x)
    ensures 0.0 <= Sum(xs, f)
    decreases |xs|
  {
    if |xs| > 0 {
      var init := xs[..|xs| - 1];
      assert forall x :: x in init ==> x in xs;
      SumNonNegative(init, f);
      assert xs[|xs| - 1] in xs;
    }
  }

  /** In a sum of non-negative terms over a distinct xs, each term is at most the sum. */
  lemma {:induction false} SumBoundsTerm<T>(xs: seq<T>, f: T -> real, y: T)
    requires Distinct(xs) && y in xs
    requires forall x :: x in xs ==> 0.0 <= f(x)
    ensures f(y) <= Sum(xs, f)
    decreases |xs|
  {
    var init, last := xs[..|xs| - 1], xs[|xs| - 1];
    assert xs == init + [last];
    assert forall x :: x in init ==> x in xs;
    if y == last {
      SumNonNegative(init, f);
    } else {
      assert y in init;
      SumBoundsTerm(init, f, y);
    }
  }
}
