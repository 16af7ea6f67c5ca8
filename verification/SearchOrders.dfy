/**
 Why breadth first and depth first search visit what they should, in the order they should.
 Each predicate here is the invariant of one search loop, each Step lemma one turn of that loop.
 */
module SearchOrders {
  import opened Sequences
  import opened Walks

  function Repeat(k: int, n: nat): (r: seq<int>)
    ensures |r| == n && forall i :: 0 <= i < n ==> r[i] == k
  {
    seq(n, i => k)
  }

  lemma PrefixOfVisited<V>(s: seq<V>, t: seq<V>)
    ensures Elems(s + t) == Elems(s) + Elems(t)
  {}

  // ---------- Breadth first ----------

  /** The front of the queue is not among the vertices that are done. */
  lemma FrontIsNew<V>(done: seq<V>, queue: seq<V>)
    requires queue != [] && Distinct(done + queue)
    ensures queue[0] !in Elems(done)
  {
    assert (done + queue)[|done|] == queue[0];
    assert forall i :: 0 <= i < |done| ==> (done + queue)[i] == done[i];
  }

  /** No vertex comes before one that is nearer to v. */
  ghost predicate NearestFirst<V(!new)>(adj: map<V, set<V>>, v: V, order: seq<V>) {
    forall i, j, k: nat :: 0 <= i < j < |order| && Within(adj, v, order[j], k) ==> Within(adj, v, order[i], k)
  }

  ghost predicate Rising(ks: seq<int>) {
    forall i, j :: 0 <= i <= j < |ks| ==> ks[i] <= ks[j]
  }

  /** dist[i] is the distance of seen[i] from v. */
  ghost predicate Distances<V(!new)>(adj: map<V, set<V>>, v: V, seen: seq<V>, dist: seq<int>) {
    && |dist| == |seen|
    && forall i, k: nat :: 0 <= i < |seen| ==> (Within(adj, v, seen[i], k) <==> dist[i] <= k)
  }

  ghost predicate Expanded<V>(adj: map<V, set<V>>, seen: seq<V>, n: nat) {
    n <= |seen| && forall i :: 0 <= i < n ==> Neighbours(adj, seen[i]) <= Elems(seen)
  }

  ghost predicate HoldsBall<V(!new)>(adj: map<V, set<V>>, v: V, seen: seq<V>, k: int) {
    k >= 0 && forall x :: Within(adj, v, x, k) ==> x in seen
  }

  /**
   seen holds the first n vertices, which are done, and then the queue. The queue spans at most
   two distances, and everything as near as its front has been seen.
   */
  ghost predicate Layers<V(!new)>(adj: map<V, set<V>>, v: V, seen: seq<V>, dist: seq<int>, n: nat) {
    && seen != [] && seen[0] == v && Distinct(seen)
    && Distances(adj, v, seen, dist) && Rising(dist)
    && Expanded(adj, seen, n)
    && (n < |seen| ==> dist[|seen| - 1] <= dist[n] + 1 && HoldsBall(adj, v, seen, dist[n]))
  }

  lemma FirstLayer<V(!new)>(adj: map<V, set<V>>, v: V)
    ensures Layers(adj, v, [v], [0], 0)
  {
    assert WalkFrom(adj, [v], v, v);
    forall k: nat ensures Within(adj, v, v, k) {}
  }

  /** The vertices that the front of the queue adds are exactly one step further away than it. */
  lemma NewDistances<V(!new)>(adj: map<V, set<V>>, v: V, seen: seq<V>, dist: seq<int>, n: nat, added: seq<V>)
    requires Layers(adj, v, seen, dist, n) && n < |seen|
    requires Elems(added) == Neighbours(adj, seen[n]) - Elems(seen)
    ensures Distances(adj, v, seen + added, dist + Repeat(dist[n] + 1, |added|))
  {
    var d := dist[n];
    assert Within(adj, v, seen[n], d);
    forall i, k: nat | 0 <= i < |added| ensures Within(adj, v, added[i], k) <==> d + 1 <= k {
      assert added[i] in Elems(added);
      WithinNext(adj, v, seen[n], added[i], d);
      assert k <= d && Within(adj, v, added[i], k) ==> Within(adj, v, added[i], d);
    }
  }

  /** Once the front of the queue is at distance d + 1, everything that near has been seen. */
  lemma NextBall<V(!new)>(adj: map<V, set<V>>, v: V, seen: seq<V>, dist: seq<int>, m: nat, d: nat)
    requires seen != [] && seen[0] == v && Distances(adj, v, seen, dist) && Rising(dist)
    requires Expanded(adj, seen, m) && m < |seen| && dist[m] == d + 1
    requires HoldsBall(adj, v, seen, d)
    ensures HoldsBall(adj, v, seen, d + 1)
  {
    forall x | Within(adj, v, x, d + 1) ensures x in seen {
      if x != v {
        var y := WithinPrevious(adj, v, x, d + 1);
        var i :| 0 <= i < |seen| && seen[i] == y;
        assert i < m;
      }
    }
  }

  lemma BreadthStep<V(!new)>(adj: map<V, set<V>>, v: V, seen: seq<V>, dist: seq<int>, n: nat, added: seq<V>)
    requires Layers(adj, v, seen, dist, n) && n < |seen|
    requires Distinct(added) && Elems(added) == Neighbours(adj, seen[n]) - Elems(seen)
    ensures Layers(adj, v, seen + added, dist + Repeat(dist[n] + 1, |added|), n + 1)
  {
    var d := dist[n];
    var all, ds := seen + added, dist + Repeat(d + 1, |added|);
    NewDistances(adj, v, seen, dist, n, added);
    PrefixOfVisited(seen, added);
    assert Distinct(all) by {
      forall i, j | 0 <= i < j < |all| ensures all[i] != all[j] {
        if i < |seen| <= j {
          assert added[j - |seen|] in Elems(added) && seen[i] in Elems(seen);
        }
      }
    }
    assert Expanded(adj, all, n + 1) by {
      forall i | 0 <= i < n + 1 ensures Neighbours(adj, all[i]) <= Elems(all) {
        assert i < n ==> Neighbours(adj, seen[i]) <= Elems(seen);
      }
    }
    if n + 1 < |all| {
      assert HoldsBall(adj, v, all, d);
      if ds[n + 1] != d {
        NextBall(adj, v, all, ds, n + 1, d);
      }
    }
  }

  /** One turn of the loop: take the front off the queue and put what it adds at the end. */
  lemma BreadthTurn<V(!new)>(adj: map<V, set<V>>, v: V, known: set<V>, done: seq<V>, queue: seq<V>, dist: seq<int>,
                             added: seq<V>) returns (dists: seq<int>)
    requires queue != [] && Layers(adj, v, done + queue, dist, |done|) && Elems(done + queue) <= known + {v}
    requires Distinct(added) && Elems(added) == Neighbours(adj, queue[0]) - Elems(done + queue)
    ensures Layers(adj, v, done + [queue[0]] + (queue[1..] + added), dists, |done| + 1)
    ensures Elems(done + [queue[0]] + (queue[1..] + added)) == Elems(done + queue) + Neighbours(adj, queue[0])
    ensures Elems(done + [queue[0]]) == Elems(done) + {queue[0]} && queue[0] in known + {v}
  {
    var seen, n := done + queue, |done|;
    assert seen[n] == queue[0] && queue[0] in queue;
    BreadthStep(adj, v, seen, dist, n, added);
    dists := dist + Repeat(dist[n] + 1, |added|);
    assert done + [queue[0]] + (queue[1..] + added) == seen + added;
    PrefixOfVisited(seen, added);
    PrefixOfVisited(done, [queue[0]]);
    PrefixOfVisited(done, queue);
  }

  lemma BreadthDone<V(!new)>(adj: map<V, set<V>>, v: V, seen: seq<V>, dist: seq<int>)
    requires Layers(adj, v, seen, dist, |seen|)
    ensures forall x :: x in seen <==> Reaches(adj, v, x)
    ensures NearestFirst(adj, v, seen)
  {
    forall x ensures x in seen <==> Reaches(adj, v, x) {
      if x in seen {
        var i :| 0 <= i < |seen| && seen[i] == x;
        assert Within(adj, v, v, 0) by { ReachesSelf(adj, v); }
        assert dist[0] <= 0 && dist[0] <= dist[i];
        var k: nat := if dist[i] >= 0 then dist[i] else 0;
        assert Within(adj, v, seen[i], k);
      }
      if Reaches(adj, v, x) {
        var p :| WalkFrom(adj, p, v, x);
        ClosedHolds(adj, Elems(seen), p, v, x);
      }
    }
  }

  // ---------- Depth first ----------

  /**
   The order of a depth first search: when a could have led straight on to c but some b that is
   no successor of a comes between, then b was entered from a vertex visited after a.
   */
  ghost predicate DeepestFirst<V>(adj: map<V, set<V>>, order: seq<V>) {
    forall a, b, c :: 0 <= a < b < c < |order|
                      && order[c] in Neighbours(adj, order[a]) && order[b] !in Neighbours(adj, order[a])
                      ==> exists d :: a < d < b && order[b] in Neighbours(adj, order[d])
  }

  /** parent[j] is the latest visited vertex that still had j's entry pushed. */
  ghost predicate Parents<V>(adj: map<V, set<V>>, v: V, order: seq<V>, parent: seq<int>) {
    && |parent| == |order|
    && (order != [] ==> order[0] == v)
    && (forall j :: 0 < j < |order| ==> 0 <= parent[j] < j && order[j] in Neighbours(adj, order[parent[j]]))
    && (forall i, j, c :: 0 <= i < j < |order| && c in Neighbours(adj, order[i]) && c !in order[..j + 1]
                          ==> i <= parent[j])
  }

  /** The stack: src[p] is the position in the visiting order of the vertex that pushed entry p. */
  ghost predicate Pushes<V>(adj: map<V, set<V>>, v: V, order: seq<V>, stack: seq<V>, src: seq<int>) {
    && |src| == |stack| && Rising(src)
    && (order == [] ==> stack == [v] && src == [-1])
    && (forall p :: 0 <= p < |stack| ==> src[p] < |order|)
    && (order != [] ==> forall p :: 0 <= p < |stack| ==> 0 <= src[p] && stack[p] in Neighbours(adj, order[src[p]]))
  }

  ghost predicate HasEntry<V>(stack: seq<V>, src: seq<int>, c: V, i: int) {
    |src| == |stack| && exists p :: 0 <= p < |stack| && stack[p] == c && src[p] == i
  }

  /** Every unvisited successor of a visited vertex has an entry that this vertex pushed. */
  ghost predicate Pending<V>(adj: map<V, set<V>>, order: seq<V>, stack: seq<V>, src: seq<int>) {
    forall i, c :: 0 <= i < |order| && c in Neighbours(adj, order[i]) && c !in order ==> HasEntry(stack, src, c, i)
  }

  /** An entry of a visited vertex was pushed before that vertex was visited. */
  ghost predicate Stale<V>(order: seq<V>, stack: seq<V>, src: seq<int>) {
    |src| == |stack| && forall p, i :: 0 <= p < |stack| && 0 <= i < |order| && stack[p] == order[i] ==> src[p] < i
  }

  ghost predicate Depths<V>(adj: map<V, set<V>>, v: V, order: seq<V>, parent: seq<int>, stack: seq<V>, src: seq<int>) {
    && Distinct(order)
    && Parents(adj, v, order, parent) && Pushes(adj, v, order, stack, src)
    && Pending(adj, order, stack, src) && Stale(order, stack, src)
  }

  /** An entry that is not the top one is still there without the top. */
  lemma EntryBelow<V>(stack: seq<V>, src: seq<int>, s: V, k: int, c: V, i: int, more: seq<V>, moreSrc: seq<int>)
    requires |src| == |stack| && |more| == |moreSrc|
    requires HasEntry(stack + [s], src + [k], c, i) && Rising(src + [k])
    ensures i <= k
    ensures c != s ==> HasEntry(stack + more, src + moreSrc, c, i)
  {
    var p :| 0 <= p < |stack| + 1 && (stack + [s])[p] == c && (src + [k])[p] == i;
    assert (src + [k])[p] <= (src + [k])[|stack|];
    if c != s {
      assert (stack + more)[p] == c && (src + moreSrc)[p] == i;
    }
  }

  /** Everything that a visited vertex pushed lies above its own stale entry: none is left. */
  lemma NothingToPush<V>(adj: map<V, set<V>>, v: V, order: seq<V>, parent: seq<int>,
                         stack: seq<V>, src: seq<int>, s: V, k: int)
    requires |src| == |stack| && Depths(adj, v, order, parent, stack + [s], src + [k]) && s in order
    ensures Neighbours(adj, s) <= Elems(order)
  {
    var i :| 0 <= i < |order| && order[i] == s;
    assert (stack + [s])[|stack|] == s && (src + [k])[|stack|] == k;
    forall c | c in Neighbours(adj, s) ensures c in order {
      if c !in order {
        EntryBelow(stack, src, s, k, c, i, [], []);
        assert false;
      }
    }
  }

  lemma SkipStep<V>(adj: map<V, set<V>>, v: V, order: seq<V>, parent: seq<int>,
                    stack: seq<V>, src: seq<int>, s: V, k: int)
    requires |src| == |stack| && Depths(adj, v, order, parent, stack + [s], src + [k]) && s in order
    ensures Depths(adj, v, order, parent, stack, src)
  {
    forall i, c | 0 <= i < |order| && c in Neighbours(adj, order[i]) && c !in order
      ensures HasEntry(stack, src, c, i)
    {
      EntryBelow(stack, src, s, k, c, i, [], []);
      assert stack + [] == stack && src + [] == src;
    }
    PrefixKeeps(adj, v, order, stack, src, [s], [k]);
  }

  lemma PrefixKeeps<V>(adj: map<V, set<V>>, v: V, order: seq<V>, stack: seq<V>, src: seq<int>,
                       more: seq<V>, moreSrc: seq<int>)
    requires |src| == |stack| && |more| == |moreSrc| && order != []
    requires Pushes(adj, v, order, stack + more, src + moreSrc) && Stale(order, stack + more, src + moreSrc)
    ensures Pushes(adj, v, order, stack, src) && Stale(order, stack, src)
  {
    assert forall p :: 0 <= p < |stack| ==> stack[p] == (stack + more)[p] && src[p] == (src + moreSrc)[p];
  }

  lemma VisitParents<V>(adj: map<V, set<V>>, v: V, order: seq<V>, parent: seq<int>,
                       stack: seq<V>, src: seq<int>, s: V, k: int)
    requires |src| == |stack| && Depths(adj, v, order, parent, stack + [s], src + [k]) && s !in order
    ensures Parents(adj, v, order + [s], parent + [k])
  {
    var next := order + [s];
    assert (stack + [s])[|stack|] == s && (src + [k])[|stack|] == k;
    forall i, j, c | 0 <= i < j < |next| && c in Neighbours(adj, next[i]) && c !in next[..j + 1]
      ensures i <= (parent + [k])[j]
    {
      if j < |order| {
        assert next[..j + 1] == order[..j + 1];
      } else {
        assert next[..j + 1] == next;
        EntryBelow(stack, src, s, k, c, i, [], []);
      }
    }
  }

  lemma VisitPending<V>(adj: map<V, set<V>>, v: V, order: seq<V>, parent: seq<int>,
                       stack: seq<V>, src: seq<int>, s: V, k: int, pushed: seq<V>)
    requires |src| == |stack| && Depths(adj, v, order, parent, stack + [s], src + [k]) && s !in order
    requires Elems(pushed) == Neighbours(adj, s) - Elems(order) - {s}
    ensures Pending(adj, order + [s], stack + pushed, src + Repeat(|order|, |pushed|))
  {
    var n := |order|;
    var next, all, ks := order + [s], stack + pushed, src + Repeat(n, |pushed|);
    forall i, c | 0 <= i < |next| && c in Neighbours(adj, next[i]) && c !in next ensures HasEntry(all, ks, c, i) {
      assert c !in order && c != s;
      if i < n {
        EntryBelow(stack, src, s, k, c, i, pushed, Repeat(n, |pushed|));
      } else {
        assert c in Elems(pushed);
        var q :| 0 <= q < |pushed| && pushed[q] == c;
        assert all[|stack| + q] == c && ks[|stack| + q] == n;
      }
    }
  }

  lemma VisitPushes<V>(adj: map<V, set<V>>, v: V, order: seq<V>, parent: seq<int>,
                      stack: seq<V>, src: seq<int>, s: V, k: int, pushed: seq<V>)
    requires |src| == |stack| && Depths(adj, v, order, parent, stack + [s], src + [k]) && s !in order
    requires Elems(pushed) == Neighbours(adj, s) - Elems(order) - {s}
    ensures Pushes(adj, v, order + [s], stack + pushed, src + Repeat(|order|, |pushed|))
    ensures Stale(order + [s], stack + pushed, src + Repeat(|order|, |pushed|))
  {
    var n := |order|;
    var next, all, ks := order + [s], stack + pushed, src + Repeat(n, |pushed|);
    assert forall p :: 0 <= p < |stack| ==> stack[p] == (stack + [s])[p] && src[p] == (src + [k])[p];
    forall p | 0 <= p < |all| ensures 0 <= ks[p] <= n && all[p] in Neighbours(adj, next[ks[p]]) {
      if p < |stack| {
        assert order != [];
      } else {
        assert all[p] == pushed[p - |stack|] && all[p] in Elems(pushed);
      }
    }
    forall q | 0 <= q < |pushed| ensures pushed[q] !in next {
      assert pushed[q] in Elems(pushed);
    }
  }

  lemma VisitStep<V>(adj: map<V, set<V>>, v: V, order: seq<V>, parent: seq<int>,
                     stack: seq<V>, src: seq<int>, s: V, k: int, pushed: seq<V>)
    requires |src| == |stack| && Depths(adj, v, order, parent, stack + [s], src + [k]) && s !in order
    requires Elems(pushed) == Neighbours(adj, s) - Elems(order) - {s}
    ensures Depths(adj, v, order + [s], parent + [k], stack + pushed, src + Repeat(|order|, |pushed|))
  {
    VisitParents(adj, v, order, parent, stack, src, s, k);
    VisitPending(adj, v, order, parent, stack, src, s, k, pushed);
    VisitPushes(adj, v, order, parent, stack, src, s, k, pushed);
  }

  /** Everything on the stack is the start or a successor of something. */
  lemma StackIsKnown<V>(adj: map<V, set<V>>, v: V, order: seq<V>, parent: seq<int>,
                        stack: seq<V>, src: seq<int>, known: set<V>)
    requires Depths(adj, v, order, parent, stack, src)
    requires forall u :: u in adj ==> adj[u] <= known
    ensures Elems(stack) <= known + {v}
  {
    forall p | 0 <= p < |stack| ensures stack[p] in known + {v} {
      if order != [] {
        assert stack[p] in Neighbours(adj, order[src[p]]);
      }
    }
  }

  lemma NoElems<T>(s: seq<T>)
    ensures s != [] ==> Elems(s) != {}
  {
    if s != [] {
      assert s[0] in Elems(s);
    }
  }

  lemma TopOff<T>(s: seq<T>)
    requires s != []
    ensures s == s[..|s| - 1] + [s[|s| - 1]]
  {}

  /** One turn of the loop whose top entry is stale: nothing is pushed. */
  lemma StaleTurn<V>(adj: map<V, set<V>>, v: V, order: seq<V>, parent: seq<int>,
                     stack: seq<V>, src: seq<int>, pushed: seq<V>)
    requires Depths(adj, v, order, parent, stack, src) && stack != [] && stack[|stack| - 1] in order
    requires Elems(pushed) == Neighbours(adj, stack[|stack| - 1]) - (Elems(order) + {stack[|stack| - 1]})
    ensures pushed == [] && Depths(adj, v, order, parent, stack[..|stack| - 1] + pushed, src[..|stack| - 1])
  {
    var top := |stack| - 1;
    var s, k, below, belows := stack[top], src[top], stack[..top], src[..top];
    assert stack == below + [s] && src == belows + [k];
    NothingToPush(adj, v, order, parent, below, belows, s, k);
    SkipStep(adj, v, order, parent, below, belows, s, k);
    NoElems(pushed);
    assert below + pushed == below;
  }

  /** One turn of the loop whose top entry is new: it is visited and pushes its unvisited successors. */
  lemma VisitTurn<V>(adj: map<V, set<V>>, v: V, order: seq<V>, parent: seq<int>,
                     stack: seq<V>, src: seq<int>, pushed: seq<V>)
    requires Depths(adj, v, order, parent, stack, src) && stack != [] && stack[|stack| - 1] !in order
    requires Elems(pushed) == Neighbours(adj, stack[|stack| - 1]) - (Elems(order) + {stack[|stack| - 1]})
    ensures var top := |stack| - 1;
            Depths(adj, v, order + [stack[top]], parent + [src[top]],
                   stack[..top] + pushed, src[..top] + Repeat(|order|, |pushed|))
  {
    TopOff(stack);
    TopOff(src);
    var top := |stack| - 1;
    VisitStep(adj, v, order, parent, stack[..top], src[..top], stack[top], src[top], pushed);
  }

  lemma {:induction false} ParentsReach<V(!new)>(adj: map<V, set<V>>, v: V, order: seq<V>, parent: seq<int>, j: nat)
    requires Parents(adj, v, order, parent) && j < |order|
    ensures Reaches(adj, v, order[j])
  {
    if j == 0 {
      ReachesSelf(adj, v);
    } else {
      ParentsReach(adj, v, order, parent, parent[j]);
      ReachesNext(adj, v, order[parent[j]], order[j]);
    }
  }

  lemma DepthOrder<V>(adj: map<V, set<V>>, v: V, order: seq<V>, parent: seq<int>)
    requires Parents(adj, v, order, parent) && Distinct(order)
    ensures DeepestFirst(adj, order)
  {
    forall a, b, c | 0 <= a < b < c < |order|
                     && order[c] in Neighbours(adj, order[a]) && order[b] !in Neighbours(adj, order[a])
      ensures exists d :: a < d < b && order[b] in Neighbours(adj, order[d])
    {
      assert order[c] !in order[..b + 1];
      assert a <= parent[b];
      assert order[b] in Neighbours(adj, order[parent[b]]);
    }
  }

  lemma DepthDone<V(!new)>(adj: map<V, set<V>>, v: V, order: seq<V>, parent: seq<int>, src: seq<int>)
    requires Depths(adj, v, order, parent, [], src)
    ensures forall x :: x in order <==> Reaches(adj, v, x)
    ensures DeepestFirst(adj, order)
  {
    DepthOrder(adj, v, order, parent);
    forall x ensures x in order <==> Reaches(adj, v, x) {
      if x in order {
        var j :| 0 <= j < |order| && order[j] == x;
        ParentsReach(adj, v, order, parent, j);
      }
      if Reaches(adj, v, x) {
        var p :| WalkFrom(adj, p, v, x);
        forall u | u in Elems(order) ensures Neighbours(adj, u) <= Elems(order) {
          var i :| 0 <= i < |order| && order[i] == u;
          forall c | c in Neighbours(adj, u) ensures c in order {
            assert c !in order ==> HasEntry([], src, c, i);
          }
        }
        assert order != [];
        ClosedHolds(adj, Elems(order), p, v, x);
      }
    }
  }
}
