/** Counting facts about finite sets. */
module Cardinality {
  lemma {:induction false} SubsetSize<T>(a: set<T>, b: set<T>)
    requires a <= b
    ensures |a| <= |b|
    ensures |a| == |b| ==> a == b
  {
    assert b == a + (b - a);
    assert |b| == |a| + |b - a|;
  }

  /** Two subsets of u overlap in at least as many members as their sizes exceed that of u. */
  lemma Overlap<T>(a: set<T>, b: set<T>, u: set<T>)
    requires a <= u && b <= u
    ensures |a * b| >= |a| + |b| - |u|
  {
    SubsetSize(a + b, u);
    assert |a + b| == |a| + |b| - |a * b|;
  }

  lemma TwoMembers<T>(s: set<T>, p: T, q: T)
    requires p in s && q in s && p != q
    ensures |s| >= 2
  {
    SubsetSize({p, q}, s);
  }

  /** A set has a subset of every smaller size. */
  lemma {:induction false} TakeSome<T>(u: set<T>, k: nat) returns (a: set<T>)
    requires k <= |u|
    ensures a <= u && |a| == k
  {
    if k == |u| {
      a := u;
    } else {
      var x :| x in u;
      assert |u - {x}| == |u| - 1;
      a := TakeSome(u - {x}, k);
    }
  }

  /** The set 0..n-1. */
  ghost function Below(n: nat): (s: set<nat>)
    ensures |s| == n
    ensures forall i: nat :: i in s <==> i < n
  {
    if n == 0 then {} else Below(n - 1) + {n - 1}
  }

  /** The grid of pairs over two sets, row by row. */
  ghost function Row<A, B>(x: A, ys: set<B>): set<(A, B)> { set y | y in ys :: (x, y) }

  lemma {:induction false} RowSize<A, B>(x: A, ys: set<B>)
    ensures |Row(x, ys)| == |ys|
  {
    if ys != {} {
      var y :| y in ys;
      RowSize(x, ys - {y});
      assert Row(x, ys) == Row(x, ys - {y}) + {(x, y)};
    }
  }

  ghost function Grid<A, B>(xs: set<A>, ys: set<B>): set<(A, B)> { set x, y | x in xs && y in ys :: (x, y) }

  lemma SplitGrid<A, B>(xs: set<A>, ys: set<B>, x: A)
    requires x in xs
    ensures Grid(xs, ys) == Grid(xs - {x}, ys) + Row(x, ys)
    ensures Grid(xs - {x}, ys) !! Row(x, ys)
  {}

  lemma OneRowMore(n: nat, m: nat)
    ensures (n + 1) * m == n * m + m
  {}

  lemma {:induction false} GridSize<A, B>(xs: set<A>, ys: set<B>)
    ensures |Grid(xs, ys)| == |xs| * |ys|
  {
    if xs == {} {
      assert Grid(xs, ys) == {};
    } else {
      var x :| x in xs;
      var rest := xs - {x};
      GridSize(rest, ys);
      RowSize(x, ys);
      SplitGrid(xs, ys, x);
      assert |xs| == |rest| + 1;
      OneRowMore(|rest|, |ys|);
    }
  }

  /** Some member of a set: the order in which Go ranges over a map is not determined. */
  ghost function Any<T>(s: set<T>): (x: T)
    requires |s| > 0
    ensures x in s
  {
    var x :| x in s; x
  }

  lemma NothingLeft<T>(a: set<T>, b: set<T>)
    requires |a - b| == 0
    ensures a <= b
  {
    assert forall x :: x in a ==> x in b || x in a - b;
  }

  /** A loop over the members of a set, when it takes x out of what is left. */
  lemma TakeOut<T>(all: set<T>, rest: set<T>, x: T)
    requires x in rest && rest <= all
    ensures all - (rest - {x}) == all - rest + {x}
    ensures rest - {x} <= all && |rest - {x}| < |rest|
  {}
}
