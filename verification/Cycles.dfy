/**
 When the path that a search closes is a cycle: the graphs in which every lasso is the cycle that it leads into,
 and those in which its vertices are the vertices of some cycle.
 */
module Cycles {
  import opened Sequences
  import opened Walks

  /** Different vertices, each a successor of the one before it, and the first a successor of the last. */
  ghost predicate SimpleCycle<V>(adj: map<V, set<V>>, c: seq<V>) { Lasso(adj, c, 0) }

  /** These are the vertices of a cycle, all of them and no others. */
  ghost predicate OfCycle<V(!new)>(adj: map<V, set<V>>, vertices: set<V>) {
    exists c :: SimpleCycle(adj, c) && Elems(c) == vertices
  }

  // ---------- No path leads into a cycle ----------

  ghost predicate LassosAreCycles<V(!new)>(adj: map<V, set<V>>) {
    forall p, j :: Lasso(adj, p, j) ==> j == 0
  }

  /** Every vertex lies on every cycle that it reaches. */
  ghost predicate OnEveryCycle<V(!new)>(adj: map<V, set<V>>) {
    forall u, c :: ClosedWalk(adj, c) && Reaches(adj, u, c[0]) ==> u in c
  }

  /** The part of a walk after its last visit to u. */
  lemma {:induction false} AfterLastVisit<V>(adj: map<V, set<V>>, p: seq<V>, u: V) returns (q: seq<V>)
    requires IsWalk(adj, p) && u in p
    ensures WalkFrom(adj, q, u, p[|p| - 1]) && u !in q[1..]
    decreases |p|
  {
    if u in p[1..] {
      q := AfterLastVisit(adj, p[1..], u);
    } else {
      q := p;
    }
  }

  lemma LedInto<V(!new)>(adj: map<V, set<V>>, u: V, c: seq<V>) returns (p: seq<V>, j: int)
    requires ClosedWalk(adj, c) && Reaches(adj, u, c[0]) && u !in c
    ensures Lasso(adj, p, j) && j > 0
  {
    var way :| WalkFrom(adj, way, u, c[0]);
    var q := AfterLastVisit(adj, way, u);
    Concatenate(adj, q, c, u, c[0], c[0]);
    var r := q + c[1..];
    assert r[|q| - 1] == r[|r| - 1];
    var n;
    n, j := FirstRepeat(adj, r);
    assert forall i :: 0 < i < |r| ==> r[i] != u by {
      assert forall i :: 0 < i < |q| ==> q[i] == q[1..][i - 1];
    }
    p := r[..n];
  }

  lemma LassoIsCycle<V(!new)>(adj: map<V, set<V>>, p: seq<V>, j: int)
    requires Lasso(adj, p, j) && OnEveryCycle(adj)
    ensures j == 0
  {
    LassoHasCycle(adj, p, j);
    AlongWalk(adj, p, j);
    var c := Loop(p, j);
    assert p[0] in c;
    var i :| 0 <= i < |c| && c[i] == p[0];
    assert c[i] == p[if i < |p| - j then j + i else j];
  }

  /** The graphs in which a search can only find a cycle and nothing besides. */
  lemma LassosAreCyclesExactly<V(!new)>(adj: map<V, set<V>>)
    ensures LassosAreCycles(adj) <==> OnEveryCycle(adj)
  {
    if LassosAreCycles(adj) {
      forall u, c | ClosedWalk(adj, c) && Reaches(adj, u, c[0]) ensures u in c {
        if u !in c {
          var p, j := LedInto(adj, u, c);
          assert false;
        }
      }
    }
    if OnEveryCycle(adj) {
      forall p, j | Lasso(adj, p, j) ensures j == 0 {
        LassoIsCycle(adj, p, j);
      }
    }
  }

  // ---------- The path and the cycle form another cycle ----------

  ghost predicate LassosSpanCycles<V(!new)>(adj: map<V, set<V>>) {
    forall p, j :: Lasso(adj, p, j) ==> OfCycle(adj, Elems(p))
  }

  /** A vertex with an edge into a cycle forms a cycle together with the vertices of that cycle. */
  ghost predicate CyclesTakeIn<V(!new)>(adj: map<V, set<V>>) {
    forall u, c, w :: SimpleCycle(adj, c) && w in c && w in Neighbours(adj, u) ==> OfCycle(adj, Elems(c) + {u})
  }

  /** A cycle begun at another of its vertices. */
  lemma Rotated<V>(adj: map<V, set<V>>, c: seq<V>, k: nat)
    requires SimpleCycle(adj, c) && k < |c|
    ensures var d := c[k..] + c[..k]; SimpleCycle(adj, d) && d[0] == c[k] && Elems(d) == Elems(c)
  {
    var d := c[k..] + c[..k];
    if k == 0 {
      assert d == c;
    } else {
      Tail(adj, c, k);
      Tail(adj, c, k - 1);
      Extend(adj, c[k..], c[k], c[|c| - 1], c[0]);
      Concatenate(adj, c[k..] + [c[0]], c[..k], c[k], c[0], c[k - 1]);
      assert c[k..] + [c[0]] + c[..k][1..] == d;
      NextOnWalk(adj, c, k - 1);
      Swapped(c[..k], c[k..]);
      assert c[..k] + c[k..] == c;
    }
  }

  lemma Swapped<V>(a: seq<V>, b: seq<V>)
    requires Distinct(a + b)
    ensures Distinct(b + a) && Elems(b + a) == Elems(a + b)
  {
    forall i, j | 0 <= i < j < |b + a| ensures (b + a)[i] != (b + a)[j] {
      var m, n := if i < |b| then |a| + i else i - |b|, if j < |b| then |a| + j else j - |b|;
      assert (b + a)[i] == (a + b)[m] && (b + a)[j] == (a + b)[n];
    }
    assert Elems(a + b) == Elems(a) + Elems(b);
    assert Elems(b + a) == Elems(b) + Elems(a);
  }

  lemma CycleTakesIn<V(!new)>(adj: map<V, set<V>>, u: V, c: seq<V>, w: V)
    requires LassosSpanCycles(adj) && SimpleCycle(adj, c) && w in c && w in Neighbours(adj, u)
    ensures OfCycle(adj, Elems(c) + {u})
  {
    if u in c {
      assert Elems(c) + {u} == Elems(c);
    } else {
      var k :| 0 <= k < |c| && c[k] == w;
      Rotated(adj, c, k);
      var d := c[k..] + c[..k];
      assert u !in Elems(d);
      LongerLasso(adj, d, 0, u);
      assert Elems([u] + d) == Elems(c) + {u};
    }
  }

  lemma {:induction false} LassoSpansCycle<V(!new)>(adj: map<V, set<V>>, p: seq<V>, j: int)
    requires Lasso(adj, p, j) && CyclesTakeIn(adj)
    ensures OfCycle(adj, Elems(p))
    decreases |p|
  {
    if j > 0 {
      assert Lasso(adj, p[1..], j - 1);
      LassoSpansCycle(adj, p[1..], j - 1);
      var c :| SimpleCycle(adj, c) && Elems(c) == Elems(p[1..]);
      NextOnWalk(adj, p, 0);
      assert p[1] == p[1..][0] && p[1] in Elems(c);
      assert Elems(p) == Elems(c) + {p[0]};
    }
  }

  /** The graphs in which whatever a search can find are the vertices of a cycle. */
  lemma LassosSpanCyclesExactly<V(!new)>(adj: map<V, set<V>>)
    ensures LassosSpanCycles(adj) <==> CyclesTakeIn(adj)
  {
    if LassosSpanCycles(adj) {
      forall u, c, w | SimpleCycle(adj, c) && w in c && w in Neighbours(adj, u)
        ensures OfCycle(adj, Elems(c) + {u})
      {
        CycleTakesIn(adj, u, c, w);
      }
    }
    if CyclesTakeIn(adj) {
      forall p, j | Lasso(adj, p, j) ensures OfCycle(adj, Elems(p)) {
        LassoSpansCycle(adj, p, j);
      }
    }
  }

  /** Each condition is stronger than the next. */
  lemma Conditions<V(!new)>(adj: map<V, set<V>>)
    ensures OnEveryCycle(adj) ==> CyclesTakeIn(adj)
    ensures CyclesTakeIn(adj) ==> NoLeadIn(adj)
  {
    LassosAreCyclesExactly(adj);
    LassosSpanCyclesExactly(adj);
    LassosCloseExactly(adj);
    if CyclesTakeIn(adj) {
      forall p, j | Lasso(adj, p, j) ensures OnClosedWalk(adj, p) {
        var c :| SimpleCycle(adj, c) && Elems(c) == Elems(p);
        LassoHasCycle(adj, c, 0);
        assert Elems(c) <= Elems(Loop(c, 0));
      }
    }
  }
}
