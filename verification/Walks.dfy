/**
 Walks in a directed graph that is given by its adjacency map: reachability, distance,
 reversal and cycles. The searches of Graphs are specified in these terms.
 */
module Walks {
  import opened Sequences

  /** The successors of v; a vertex that the map does not hold has none. */
  function Neighbours<V>(adj: map<V, set<V>>, v: V): set<V> {
    if v in adj then adj[v] else {}
  }

  /** A non-empty sequence of vertices, each a successor of the one before it. */
  ghost predicate IsWalk<V>(adj: map<V, set<V>>, p: seq<V>) {
    && |p| > 0
    && forall i, j :: 0 <= i && j == i + 1 && j < |p| ==> p[j] in Neighbours(adj, p[i])
  }

  ghost predicate WalkFrom<V>(adj: map<V, set<V>>, p: seq<V>, v: V, x: V) {
    IsWalk(adj, p) && p[0] == v && p[|p| - 1] == x
  }

  ghost predicate Reaches<V(!new)>(adj: map<V, set<V>>, v: V, x: V) {
    exists p :: WalkFrom(adj, p, v, x)
  }

  /** x can be reached from v along at most k edges. */
  ghost predicate Within<V(!new)>(adj: map<V, set<V>>, v: V, x: V, k: nat) {
    exists p :: WalkFrom(adj, p, v, x) && |p| <= k + 1
  }

  lemma Extend<V>(adj: map<V, set<V>>, p: seq<V>, v: V, x: V, y: V)
    requires WalkFrom(adj, p, v, x) && y in Neighbours(adj, x)
    ensures WalkFrom(adj, p + [y], v, y)
  {}

  lemma DropLast<V>(adj: map<V, set<V>>, p: seq<V>, v: V, y: V)
    requires WalkFrom(adj, p, v, y) && |p| > 1
    ensures WalkFrom(adj, p[..|p| - 1], v, p[|p| - 2]) && y in Neighbours(adj, p[|p| - 2])
  {}

  lemma NextOnWalk<V>(adj: map<V, set<V>>, p: seq<V>, i: nat)
    requires IsWalk(adj, p) && i + 1 < |p|
    ensures p[i + 1] in Neighbours(adj, p[i])
  {}

  lemma ReachesNext<V(!new)>(adj: map<V, set<V>>, v: V, x: V, y: V)
    requires Reaches(adj, v, x) && y in Neighbours(adj, x)
    ensures Reaches(adj, v, y)
  {
    var p :| WalkFrom(adj, p, v, x);
    Extend(adj, p, v, x, y);
  }

  lemma ReachesSelf<V(!new)>(adj: map<V, set<V>>, v: V)
    ensures Reaches(adj, v, v) && Within(adj, v, v, 0)
  {
    assert WalkFrom(adj, [v], v, v);
  }

  lemma WithinNext<V(!new)>(adj: map<V, set<V>>, v: V, x: V, y: V, k: nat)
    requires Within(adj, v, x, k) && y in Neighbours(adj, x)
    ensures Within(adj, v, y, k + 1)
  {
    var p :| WalkFrom(adj, p, v, x) && |p| <= k + 1;
    Extend(adj, p, v, x, y);
  }

  lemma WithinPrevious<V(!new)>(adj: map<V, set<V>>, v: V, y: V, k: nat) returns (x: V)
    requires Within(adj, v, y, k) && y != v
    ensures k > 0 && Within(adj, v, x, k - 1) && y in Neighbours(adj, x)
  {
    var p :| WalkFrom(adj, p, v, y) && |p| <= k + 1;
    DropLast(adj, p, v, y);
    x := p[|p| - 2];
  }

  /** A set that holds v and is closed under successors holds everything v reaches. */
  lemma {:induction false} ClosedHolds<V>(adj: map<V, set<V>>, s: set<V>, p: seq<V>, v: V, x: V)
    requires v in s && forall u :: u in s ==> Neighbours(adj, u) <= s
    requires WalkFrom(adj, p, v, x)
    ensures x in s
  {
    if |p| > 1 {
      DropLast(adj, p, v, x);
      ClosedHolds(adj, s, p[..|p| - 1], v, p[|p| - 2]);
    }
  }

  // ---------- Reversal ----------

  /** to records every edge of from the other way round. */
  ghost predicate Mirror<V(!new)>(from: map<V, set<V>>, to: map<V, set<V>>) {
    forall u, w :: w in Neighbours(from, u) <==> u in Neighbours(to, w)
  }

  function Reverse<V>(p: seq<V>): (r: seq<V>)
    ensures |r| == |p|
    ensures forall i :: 0 <= i < |p| ==> r[i] == p[|p| - 1 - i]
  {
    seq(|p|, i requires 0 <= i < |p| => p[|p| - 1 - i])
  }

  lemma WalkBack<V(!new)>(from: map<V, set<V>>, to: map<V, set<V>>, p: seq<V>, v: V, x: V)
    requires Mirror(from, to) && WalkFrom(from, p, v, x)
    ensures WalkFrom(to, Reverse(p), x, v)
  {
    var r := Reverse(p);
    forall i, j | 0 <= i && j == i + 1 && j < |r| ensures r[j] in Neighbours(to, r[i]) {
      var a, b := |p| - 1 - j, |p| - 1 - i;
      assert p[b] in Neighbours(from, p[a]);
    }
  }

  lemma MirrorReaches<V(!new)>(from: map<V, set<V>>, to: map<V, set<V>>)
    requires Mirror(from, to)
    ensures forall v, x :: Reaches(from, v, x) <==> Reaches(to, x, v)
  {
    forall v, x ensures Reaches(from, v, x) <==> Reaches(to, x, v) {
      if Reaches(from, v, x) {
        var p :| WalkFrom(from, p, v, x);
        WalkBack(from, to, p, v, x);
      }
      if Reaches(to, x, v) {
        var p :| WalkFrom(to, p, x, v);
        WalkBack(to, from, p, x, v);
      }
    }
  }

  // ---------- Cycles ----------

  ghost predicate ClosedWalk<V>(adj: map<V, set<V>>, p: seq<V>) {
    IsWalk(adj, p) && |p| > 1 && p[0] == p[|p| - 1]
  }

  ghost predicate HasCycle<V(!new)>(adj: map<V, set<V>>) {
    exists p :: ClosedWalk(adj, p)
  }

  /** The vertices of a closed set, in an order in which every successor precedes. */
  ghost predicate Finished<V>(adj: map<V, set<V>>, done: seq<V>) {
    && Distinct(done)
    && forall i, w :: 0 <= i < |done| && w in Neighbours(adj, done[i]) ==> w in done[..i]
  }

  /** A walk only moves towards the front of a finishing order. */
  lemma {:induction false} WalkDescends<V>(adj: map<V, set<V>>, done: seq<V>, p: seq<V>, a: nat) returns (b: nat)
    requires Finished(adj, done) && IsWalk(adj, p) && a < |done| && p[0] == done[a]
    ensures b <= a && done[b] == p[|p| - 1] && (|p| > 1 ==> b < a)
    decreases |p|
  {
    if |p| == 1 {
      b := a;
    } else {
      assert p[1] in done[..a];
      var c :| 0 <= c < a && done[c] == p[1];
      b := WalkDescends(adj, done, p[1..], c);
    }
  }

  /** A graph that has a finishing order of all its vertices has no cycle. */
  lemma FinishedHasNoCycle<V(!new)>(adj: map<V, set<V>>, done: seq<V>)
    requires Finished(adj, done) && adj.Keys <= Elems(done)
    ensures !HasCycle(adj)
  {
    if HasCycle(adj) {
      var p :| ClosedWalk(adj, p);
      assert p[1] in Neighbours(adj, p[0]);
      assert p[0] in done;
      var a :| 0 <= a < |done| && done[a] == p[0];
      var b := WalkDescends(adj, done, p, a);
    }
  }

  /** A walk whose last vertex has an edge back to position j: a path leading into a cycle. */
  ghost predicate Lasso<V>(adj: map<V, set<V>>, p: seq<V>, j: int) {
    && IsWalk(adj, p) && Distinct(p)
    && 0 <= j < |p| && p[j] in Neighbours(adj, p[|p| - 1])
  }

  /** The part of a lasso from position j on, closed by the edge back. */
  function Loop<V>(p: seq<V>, j: int): seq<V>
    requires 0 <= j < |p|
  {
    p[j..] + [p[j]]
  }

  lemma LassoHasCycle<V(!new)>(adj: map<V, set<V>>, p: seq<V>, j: int)
    requires Lasso(adj, p, j)
    ensures ClosedWalk(adj, Loop(p, j)) && HasCycle(adj)
    ensures Elems(Loop(p, j)) <= Elems(p)
  {
    var c := Loop(p, j);
    assert |c| == |p| - j + 1 && c[0] == p[j] && c[|c| - 1] == p[j];
    forall i, k | 0 <= i && k == i + 1 && k < |c| ensures c[k] in Neighbours(adj, c[i]) {
      assert c[i] == p[j + i];
      if k < |p| - j {
        assert c[k] == p[j + k];
      }
    }
    assert ClosedWalk(adj, c);
    assert forall i :: 0 <= i < |c| ==> c[i] in p;
  }

  /** Two walks end to end. */
  lemma Concatenate<V>(adj: map<V, set<V>>, p: seq<V>, q: seq<V>, x: V, y: V, z: V)
    requires WalkFrom(adj, p, x, y) && WalkFrom(adj, q, y, z)
    ensures WalkFrom(adj, p + q[1..], x, z)
  {
    var r := p + q[1..];
    forall i, j | 0 <= i && j == i + 1 && j < |r| ensures r[j] in Neighbours(adj, r[i]) {
      if |p| <= j {
        assert r[j] == q[j - |p| + 1] && r[i] == q[i - |p| + 1];
      }
    }
    assert |q| > 1 ==> r[|r| - 1] == q[|q| - 1];
  }

  lemma Tail<V>(adj: map<V, set<V>>, p: seq<V>, i: nat)
    requires IsWalk(adj, p) && i < |p|
    ensures WalkFrom(adj, p[i..], p[i], p[|p| - 1]) && WalkFrom(adj, p[..i + 1], p[0], p[i])
  {}

  /** Any vertex of a closed walk reaches any other. */
  lemma AroundClosedWalk<V(!new)>(adj: map<V, set<V>>, c: seq<V>, a: nat, b: nat)
    requires ClosedWalk(adj, c) && a < |c| && b < |c|
    ensures Reaches(adj, c[a], c[b])
  {
    Tail(adj, c, a);
    Tail(adj, c, b);
    Concatenate(adj, c[a..], c[..b + 1], c[a], c[0], c[b]);
  }

  ghost predicate OnClosedWalk<V(!new)>(adj: map<V, set<V>>, p: seq<V>) {
    exists c :: ClosedWalk(adj, c) && Elems(p) <= Elems(c)
  }

  /**
   The vertices of a lasso lie together on one closed walk, which may have other vertices as well, exactly
   when its last vertex reaches its first.
   */
  lemma LassoOnClosedWalk<V(!new)>(adj: map<V, set<V>>, p: seq<V>, j: int)
    requires Lasso(adj, p, j)
    ensures OnClosedWalk(adj, p) <==> Reaches(adj, p[|p| - 1], p[0])
  {
    var n := |p| - 1;
    if Reaches(adj, p[n], p[0]) {
      var q :| WalkFrom(adj, q, p[n], p[0]);
      if n == 0 {
        assert ClosedWalk(adj, p + [p[0]]) && Elems(p) <= Elems(p + [p[0]]);
      } else {
        var c := p + q[1..];
        Concatenate(adj, p, q, p[0], p[n], p[0]);
        assert p[0] != p[n];
        assert ClosedWalk(adj, c) && Elems(p) <= Elems(c);
      }
    }
    if c :| ClosedWalk(adj, c) && Elems(p) <= Elems(c) {
      assert p[0] in Elems(p) && p[n] in Elems(p);
      var a :| 0 <= a < |c| && c[a] == p[n];
      var b :| 0 <= b < |c| && c[b] == p[0];
      AroundClosedWalk(adj, c, a, b);
    }
  }

  // ---------- When every lasso lies on a closed walk ----------

  ghost predicate ReachesCycle<V(!new)>(adj: map<V, set<V>>, w: V) {
    exists c :: ClosedWalk(adj, c) && Reaches(adj, w, c[0])
  }

  /** Every edge into a vertex from which a cycle can be reached has a way back. */
  ghost predicate NoLeadIn<V(!new)>(adj: map<V, set<V>>) {
    forall u, w :: w in Neighbours(adj, u) && ReachesCycle(adj, w) ==> Reaches(adj, w, u)
  }

  ghost predicate LassosClose<V(!new)>(adj: map<V, set<V>>) {
    forall p, j :: Lasso(adj, p, j) ==> OnClosedWalk(adj, p)
  }

  lemma ReachesOnward<V(!new)>(adj: map<V, set<V>>, x: V, y: V, z: V)
    requires Reaches(adj, x, y) && Reaches(adj, y, z)
    ensures Reaches(adj, x, z)
  {
    var p :| WalkFrom(adj, p, x, y);
    var q :| WalkFrom(adj, q, y, z);
    Concatenate(adj, p, q, x, y, z);
  }

  lemma AlongWalk<V(!new)>(adj: map<V, set<V>>, p: seq<V>, i: nat)
    requires IsWalk(adj, p) && i < |p|
    ensures Reaches(adj, p[0], p[i]) && Reaches(adj, p[i], p[|p| - 1])
  {
    Tail(adj, p, i);
  }

  /** A walk that comes to a vertex twice begins with a lasso. */
  lemma {:induction false} FirstRepeat<V>(adj: map<V, set<V>>, r: seq<V>) returns (n: nat, j: int)
    requires IsWalk(adj, r) && !Distinct(r)
    ensures 0 < n < |r| && Lasso(adj, r[..n], j) && r[j] == r[n]
    decreases |r|
  {
    var last := |r| - 1;
    var front := r[..last];
    if Distinct(front) {
      forall a, b | 0 <= a < b < last ensures r[a] != r[b] {
        assert front[a] != front[b];
      }
      n := last;
      j :| 0 <= j < last && r[j] == r[last];
      assert r[last] in Neighbours(adj, r[last - 1]);
    } else {
      n, j := FirstRepeat(adj, front);
      assert front[..n] == r[..n];
    }
  }

  /** From a vertex that reaches a cycle a lasso begins. */
  lemma LassoFrom<V(!new)>(adj: map<V, set<V>>, w: V) returns (q: seq<V>, j: int)
    requires ReachesCycle(adj, w)
    ensures Lasso(adj, q, j) && q[0] == w
  {
    var c :| ClosedWalk(adj, c) && Reaches(adj, w, c[0]);
    var p :| WalkFrom(adj, p, w, c[0]);
    Concatenate(adj, p, c, w, c[0], c[0]);
    var r := p + c[1..];
    assert r[|p| - 1] == r[|r| - 1] && |r| > |p|;
    var n;
    n, j := FirstRepeat(adj, r);
    q := r[..n];
  }

  lemma EveryEdgeReturns<V(!new)>(adj: map<V, set<V>>, u: V, w: V)
    requires LassosClose(adj) && w in Neighbours(adj, u) && ReachesCycle(adj, w)
    ensures Reaches(adj, w, u)
  {
    var q, j := LassoFrom(adj, w);
    if u in q {
      var i :| 0 <= i < |q| && q[i] == u;
      AlongWalk(adj, q, i);
    } else {
      var p := [u] + q;
      LongerLasso(adj, q, j, u);
      assert OnClosedWalk(adj, p);
      var c :| ClosedWalk(adj, c) && Elems(p) <= Elems(c);
      assert p[0] in Elems(p) && p[1] in Elems(p);
      var a :| 0 <= a < |c| && c[a] == w;
      var b :| 0 <= b < |c| && c[b] == u;
      AroundClosedWalk(adj, c, a, b);
    }
  }

  lemma LongerLasso<V>(adj: map<V, set<V>>, q: seq<V>, j: int, u: V)
    requires Lasso(adj, q, j) && q[0] in Neighbours(adj, u) && u !in q
    ensures Lasso(adj, [u] + q, j + 1)
  {}

  /** Every vertex of a lasso reaches the cycle that it leads into. */
  lemma LassoReaches<V(!new)>(adj: map<V, set<V>>, p: seq<V>, j: int, i: nat)
    requires Lasso(adj, p, j) && i < |p|
    ensures ReachesCycle(adj, p[i])
  {
    LassoHasCycle(adj, p, j);
    AlongWalk(adj, p, i);
    ReachesNext(adj, p[i], p[|p| - 1], p[j]);
    assert Loop(p, j)[0] == p[j];
  }

  lemma {:induction false} WayBack<V(!new)>(adj: map<V, set<V>>, p: seq<V>, j: int, i: nat)
    requires Lasso(adj, p, j) && NoLeadIn(adj) && i < |p|
    ensures Reaches(adj, p[i], p[0])
  {
    if i == 0 {
      ReachesSelf(adj, p[0]);
    } else {
      WayBack(adj, p, j, i - 1);
      NextOnWalk(adj, p, i - 1);
      LassoReaches(adj, p, j, i);
      ReachesOnward(adj, p[i], p[i - 1], p[0]);
    }
  }

  /**
   The graphs in which every lasso lies on one closed walk: those in which no edge leads into a cycle, or
   into a vertex on the way to one, without a way back.
   */
  lemma LassosCloseExactly<V(!new)>(adj: map<V, set<V>>)
    ensures LassosClose(adj) <==> NoLeadIn(adj)
  {
    if LassosClose(adj) {
      forall u, w | w in Neighbours(adj, u) && ReachesCycle(adj, w) ensures Reaches(adj, w, u) {
        EveryEdgeReturns(adj, u, w);
      }
    }
    if NoLeadIn(adj) {
      forall p, j | Lasso(adj, p, j) ensures OnClosedWalk(adj, p) {
        WayBack(adj, p, j, |p| - 1);
        LassoOnClosedWalk(adj, p, j);
      }
    }
  }
}
