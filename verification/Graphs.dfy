/**
 The directed graph of lib/graph.go: its updates, its searches and its cycle test.
 Go ranges over a set in no fixed order, so every loop over a set takes any member that is left.
 */
module Graphs {
  import opened Options
  import opened SearchOrders
  import opened Sequences
  import opened Walks
  import opened Cycles

  // ---------- Updates ----------

  ghost predicate NoSelfEdge<V(!new)>(adj: map<V, set<V>>) {
    forall u :: u !in Neighbours(adj, u)
  }

  ghost predicate WellFormed<V(!new)>(vertices: set<V>, from: map<V, set<V>>, to: map<V, set<V>>) {
    from.Keys == vertices && to.Keys == vertices && Mirror(from, to) && NoSelfEdge(from)
  }

  lemma NoEdges<V(!new)>(from: map<V, set<V>>, to: map<V, set<V>>, v: V)
    requires Mirror(from, to) && v !in from && v !in to
    ensures forall x, y :: y in Neighbours(from, x) ==> x != v && y != v
  {
    forall x, y | y in Neighbours(from, x) ensures x != v && y != v {
      assert x in Neighbours(to, y);
    }
  }

  lemma WithVertex<V(!new)>(vs: set<V>, from: map<V, set<V>>, to: map<V, set<V>>, v: V)
    requires WellFormed(vs, from, to) && v !in vs
    ensures WellFormed(vs + {v}, from[v := {}], to[v := {}])
    ensures forall x :: Neighbours(from[v := {}], x) == Neighbours(from, x)
  {
    var f, t := from[v := {}], to[v := {}];
    assert forall x :: Neighbours(f, x) == Neighbours(from, x);
    assert forall x :: Neighbours(t, x) == Neighbours(to, x);
    assert forall u :: u !in Neighbours(from, u);
  }

  lemma WithEdge<V(!new)>(vs: set<V>, from: map<V, set<V>>, to: map<V, set<V>>, a: V, b: V)
    requires WellFormed(vs, from, to) && a in vs && b in vs && a != b
    ensures WellFormed(vs, from[a := from[a] + {b}], to[b := to[b] + {a}])
    ensures forall x :: Neighbours(from[a := from[a] + {b}], x) == Neighbours(from, x) + (if x == a then {b} else {})
  {
    var f, t := from[a := from[a] + {b}], to[b := to[b] + {a}];
    assert forall x :: Neighbours(f, x) == Neighbours(from, x) + (if x == a then {b} else {});
    assert forall x :: Neighbours(t, x) == Neighbours(to, x) + (if x == b then {a} else {});
  }

  lemma WithoutEdge<V(!new)>(vs: set<V>, from: map<V, set<V>>, to: map<V, set<V>>, a: V, b: V)
    requires WellFormed(vs, from, to) && a in vs && b in vs
    ensures WellFormed(vs, from[a := from[a] - {b}], to[b := to[b] - {a}])
    ensures forall x :: Neighbours(from[a := from[a] - {b}], x) == Neighbours(from, x) - (if x == a then {b} else {})
  {
    var f, t := from[a := from[a] - {b}], to[b := to[b] - {a}];
    assert forall x :: Neighbours(f, x) == Neighbours(from, x) - (if x == a then {b} else {});
    assert forall x :: Neighbours(t, x) == Neighbours(to, x) - (if x == b then {a} else {});
  }

  /** The map after v has been taken out of the sets of the vertices in gone. */
  function TakenFrom<V>(adj: map<V, set<V>>, v: V, gone: set<V>): map<V, set<V>> {
    map u | u in adj :: if u in gone then adj[u] - {v} else adj[u]
  }

  lemma TakeFromNext<V>(adj: map<V, set<V>>, v: V, gone: set<V>, u: V)
    requires u in adj && u !in gone
    ensures u in TakenFrom(adj, v, gone)
    ensures var m := TakenFrom(adj, v, gone); m[u := m[u] - {v}] == TakenFrom(adj, v, gone + {u})
  {}

  lemma TakeFromNone<V>(adj: map<V, set<V>>, v: V)
    ensures TakenFrom(adj, v, {}) == adj
  {}

  function Without<V>(adj: map<V, set<V>>, v: V): map<V, set<V>> {
    TakenFrom(adj, v, adj.Keys - {v}) - {v}
  }

  lemma WithoutVertex<V(!new)>(vs: set<V>, from: map<V, set<V>>, to: map<V, set<V>>, v: V)
    requires WellFormed(vs, from, to)
    ensures WellFormed(vs - {v}, Without(from, v), Without(to, v))
    ensures forall x :: Neighbours(Without(from, v), x) == if x == v then {} else Neighbours(from, x) - {v}
  {
    var f, t := Without(from, v), Without(to, v);
    assert forall x :: Neighbours(f, x) == if x == v then {} else Neighbours(from, x) - {v};
    assert forall x :: Neighbours(t, x) == if x == v then {} else Neighbours(to, x) - {v};
  }

  /** The part of a map that has been copied so far. */
  function Copied<V>(adj: map<V, set<V>>, done: set<V>): map<V, set<V>> {
    map u | u in adj && u in done :: adj[u]
  }

  lemma CopyNext<V>(adj: map<V, set<V>>, done: set<V>, u: V)
    requires u in adj
    ensures Copied(adj, done)[u := adj[u]] == Copied(adj, done + {u})
    ensures Copied(adj, {}) == map[] && Copied(adj, adj.Keys) == adj
  {}

  lemma TurnedAround<V(!new)>(vs: set<V>, from: map<V, set<V>>, to: map<V, set<V>>)
    requires WellFormed(vs, from, to)
    ensures WellFormed(vs, to, from)
  {
    assert forall u :: u in Neighbours(to, u) ==> u in Neighbours(from, u);
  }

  /** Every successor is a vertex. */
  ghost predicate Closed<V>(vs: set<V>, adj: map<V, set<V>>) {
    adj.Keys == vs && forall u :: u in adj ==> adj[u] <= vs
  }

  lemma SuccessorsKnown<V(!new)>(vs: set<V>, from: map<V, set<V>>, to: map<V, set<V>>)
    requires WellFormed(vs, from, to)
    ensures Closed(vs, from)
  {
    forall u, w | u in from && w in from[u] ensures w in vs {
      assert w in Neighbours(from, u);
      assert u in Neighbours(to, w);
    }
  }

  lemma PrefixElems<V>(s: seq<V>, t: seq<V>)
    requires s <= t
    ensures Elems(s) <= Elems(t)
  {
    forall x | x in s ensures x in t {
      var i :| 0 <= i < |s| && s[i] == x;
      assert t[i] == x;
    }
  }

  // ---------- Colours ----------

  datatype Color = White | Gray | Black

  function Whites<V>(colors: map<V, Color>): set<V> { set u | u in colors && colors[u] == White }

  /** The gray vertices are those of path, the black ones those of done. */
  ghost predicate Coloured<V(!new)>(colors: map<V, Color>, path: seq<V>, done: seq<V>) {
    && Distinct(path)
    && (forall u :: u in path <==> u in colors && colors[u] == Gray)
    && (forall u :: u in done <==> u in colors && colors[u] == Black)
  }

  lemma AllWhite<V(!new)>(colors: map<V, Color>, adj: map<V, set<V>>)
    requires forall u :: u in colors ==> colors[u] == White
    ensures Coloured(colors, [], []) && Finished(adj, [])
  {}

  lemma Greyed<V(!new)>(colors: map<V, Color>, path: seq<V>, done: seq<V>, v: V)
    requires Coloured(colors, path, done) && v in colors && colors[v] == White
    ensures Coloured(colors[v := Gray], path + [v], done)
    ensures Whites(colors[v := Gray]) < Whites(colors)
  {
    assert v in Whites(colors);
  }

  lemma Blackened<V(!new)>(colors: map<V, Color>, path: seq<V>, done: seq<V>, v: V)
    requires Coloured(colors, path + [v], done)
    ensures Coloured(colors[v := Black], path, done + [v])
    ensures Whites(colors[v := Black]) == Whites(colors)
  {
    var more := path + [v];
    assert more[|path|] == v && forall i :: 0 <= i < |path| ==> more[i] == path[i];
    assert forall u :: u in done + [v] <==> u in done || u == v;
    assert forall u :: u in more <==> u in path || u == v;
    assert v !in path;
  }

  lemma FinishedNext<V>(adj: map<V, set<V>>, done: seq<V>, v: V)
    requires Finished(adj, done) && v !in done && Neighbours(adj, v) <= Elems(done)
    ensures Finished(adj, done + [v])
  {
    var next := done + [v];
    forall i, w | 0 <= i < |next| && w in Neighbours(adj, next[i]) ensures w in next[..i] {
      if i < |done| {
        assert next[..i] == done[..i];
      } else {
        assert next[..i] == done;
      }
    }
  }

  lemma ShorterPrefix<V>(way: seq<V>, u: V, longer: seq<V>)
    requires way + [u] <= longer
    ensures way <= longer
  {}

  lemma OneMoreIn<V>(all: set<V>, rest: set<V>, u: V, done: set<V>)
    requires u in rest && u in done && all - rest <= done
    ensures all - (rest - {u}) <= done && |rest - {u}| < |rest|
  {}

  // ---------- The order in which Go ranges over sets ----------

  /** Which of the vertices that are left comes up next: of all vertices, and of the successors of a vertex. */
  datatype Order<!V> = Order(start: set<V> -> V, next: (V, set<V>) -> V)

  ghost predicate IsOrder<V(!new)>(order: Order<V>) {
    && (forall rest: set<V> :: rest != {} ==> order.start(rest) in rest)
    && (forall v, rest: set<V> :: rest != {} ==> order.next(v, rest) in rest)
  }

  /** The search comes back to a vertex of the way it has come. */
  ghost predicate TurnsBack<V>(order: Order<V>, adj: map<V, set<V>>, way: seq<V>) {
    way != [] &&
    var v := way[|way| - 1];
    Neighbours(adj, v) != {} && order.next(v, Neighbours(adj, v)) in way
  }

  /** How far a search goes down from the end of a way before it turns back or finds no successor. */
  ghost function Descent<V>(order: Order<V>, vertices: set<V>, adj: map<V, set<V>>, way: seq<V>): seq<V>
    requires way != []
    decreases vertices - Elems(way)
  {
    var v := way[|way| - 1];
    var u := order.next(v, Neighbours(adj, v));
    if Neighbours(adj, v) == {} || u in way || u !in vertices then way
    else
      PrefixOfVisited(way, [u]);
      assert u in vertices - Elems(way);
      Descent(order, vertices, adj, way + [u])
  }

  /** What a search finds when its first descent already turns back. */
  ghost predicate FoundFirst<V>(order: Order<V>, vertices: set<V>, adj: map<V, set<V>>, p: seq<V>) {
    && vertices != {} && p == Descent(order, vertices, adj, [order.start(vertices)])
    && TurnsBack(order, adj, p)
  }

  ghost function Pick<V>(s: set<V>): (x: V)
    requires s != {}
    ensures x in s
  {
    var x :| x in s; x
  }

  /** The vertex that comes after v on a lasso. */
  ghost function Following<V>(p: seq<V>, j: int, v: V): V
    requires 0 <= j < |p| && v in p
  {
    var i :| 0 <= i < |p| && p[i] == v;
    if i + 1 < |p| then p[i + 1] else p[j]
  }

  ghost function Along<V>(p: seq<V>, j: int, v: V, rest: set<V>): (u: V)
    requires 0 <= j < |p|
    ensures rest != {} ==> u in rest
    ensures v in p && Following(p, j, v) in rest ==> u == Following(p, j, v)
  {
    if v in p && Following(p, j, v) in rest then Following(p, j, v)
    else if rest == {} then v
    else Pick(rest)
  }

  ghost function From<V>(p: seq<V>, rest: set<V>): (u: V)
    requires p != []
    ensures rest != {} ==> u in rest
    ensures p[0] in rest ==> u == p[0]
  {
    if p[0] in rest || rest == {} then p[0] else Pick(rest)
  }

  lemma {:induction false} DescendsAlong<V>(order: Order<V>, vertices: set<V>, adj: map<V, set<V>>, p: seq<V>, n: nat)
    requires 0 < n <= |p| && Distinct(p) && IsWalk(adj, p) && Elems(p) <= vertices && TurnsBack(order, adj, p)
    requires forall i, k :: 0 <= i && k == i + 1 && k < |p| ==> order.next(p[i], Neighbours(adj, p[i])) == p[k]
    ensures Descent(order, vertices, adj, p[..n]) == p
    decreases |p| - n
  {
    if n == |p| {
      assert p[..n] == p;
    } else {
      NextOnWalk(adj, p, n - 1);
      assert order.next(p[n - 1], Neighbours(adj, p[n - 1])) == p[n];
      assert p[n] in Elems(p);
      DescendsAlong(order, vertices, adj, p, n + 1);
      assert p[..n] + [p[n]] == p[..n + 1];
    }
  }

  lemma LassoInside<V>(vertices: set<V>, adj: map<V, set<V>>, p: seq<V>, j: int)
    requires Closed(vertices, adj) && Lasso(adj, p, j)
    ensures Elems(p) <= vertices
  {
    forall i | 0 <= i < |p| ensures p[i] in adj {
      if i + 1 < |p| {
        NextOnWalk(adj, p, i);
      }
    }
  }

  /** Every lasso is what a search finds in some order. */
  lemma EveryLassoIsFound<V(!new)>(vertices: set<V>, adj: map<V, set<V>>, p: seq<V>, j: int) returns (order: Order<V>)
    requires Closed(vertices, adj) && Lasso(adj, p, j)
    ensures IsOrder(order) && FoundFirst(order, vertices, adj, p)
  {
    LassoInside(vertices, adj, p, j);
    order := Order(rest => From(p, rest), (v, rest) => Along(p, j, v, rest));
    assert p[0] in Elems(p);
    forall i | 0 <= i < |p|
      ensures Following(p, j, p[i]) == if i + 1 < |p| then p[i + 1] else p[j]
    {}
    forall i, k | 0 <= i && k == i + 1 && k < |p|
      ensures order.next(p[i], Neighbours(adj, p[i])) == p[k]
    {
      NextOnWalk(adj, p, i);
    }
    assert p[..1] == [p[0]];
    DescendsAlong(order, vertices, adj, p, 1);
  }

  // ---------- What Cycle returns ----------

  /** The graph with the edges 1 -> 2, 2 -> 3 and 3 -> 2. */
  const LEAD_IN: map<int, set<int>> := map[1 := {2}, 2 := {3}, 3 := {2}]

  /**
   In that graph the search can find the lasso 1, 2, 3, and Cycle then returns 1 as well, which lies on no
   cycle. The comment of Cycle promises the vertices of a cycle.
   */
  lemma LeadInIsReturned() returns (order: Order<int>)
    ensures IsOrder(order) && FoundFirst(order, {1, 2, 3}, LEAD_IN, [1, 2, 3])
    ensures forall c :: ClosedWalk(LEAD_IN, c) ==> 1 !in c
  {
    assert Lasso(LEAD_IN, [1, 2, 3], 1);
    order := EveryLassoIsFound({1, 2, 3}, LEAD_IN, [1, 2, 3], 1);
    forall c | ClosedWalk(LEAD_IN, c) ensures 1 !in c {
      forall i | 0 <= i < |c| ensures c[i] != 1 {
        var k := if i == 0 then |c| - 1 else i;
        assert c[k] in Neighbours(LEAD_IN, c[k - 1]);
      }
    }
  }

  /** The graph with the edges 1 -> 2, 2 -> 3, 3 -> 2, 3 -> 4 and 4 -> 1. */
  const STRAY: map<int, set<int>> := map[1 := {2}, 2 := {3}, 3 := {2, 4}, 4 := {1}]

  /**
   Here every vertex lies on a cycle with every other, but the search can find 1, 2, 3, which lie on no cycle
   that leaves 4 out.
   */
  lemma StrayIsReturned() returns (order: Order<int>)
    ensures IsOrder(order) && FoundFirst(order, {1, 2, 3, 4}, STRAY, [1, 2, 3])
    ensures NoLeadIn(STRAY) && forall c :: ClosedWalk(STRAY, c) ==> Elems(c) != {1, 2, 3}
  {
    assert Lasso(STRAY, [1, 2, 3], 1);
    order := EveryLassoIsFound({1, 2, 3, 4}, STRAY, [1, 2, 3], 1);
    forall u, w | w in Neighbours(STRAY, u) && ReachesCycle(STRAY, w) ensures Reaches(STRAY, w, u) {
      AllAround(w, u);
    }
    forall c | ClosedWalk(STRAY, c) ensures Elems(c) != {1, 2, 3} {
      assert 1 in {1, 2, 3} && 4 !in {1, 2, 3};
      if 1 in Elems(c) {
        var i :| 0 <= i < |c| && c[i] == 1;
        var k := if i == 0 then |c| - 1 else i;
        NextOnWalk(STRAY, c, k - 1);
        assert c[k - 1] in Elems(c);
      }
    }
  }

  lemma AllAround(w: int, u: int)
    requires w in STRAY && u in STRAY
    ensures Reaches(STRAY, w, u)
  {
    var c := [1, 2, 3, 4, 1];
    assert ClosedWalk(STRAY, c);
    AroundClosedWalk(STRAY, c, w - 1, u - 1);
  }

  /** A search that goes down to where it turns back has gone along a lasso. */
  lemma {:induction false} DescentIsWalk<V(!new)>(order: Order<V>, vertices: set<V>, adj: map<V, set<V>>, way: seq<V>)
    requires IsOrder(order) && IsWalk(adj, way) && Distinct(way)
    ensures var p := Descent(order, vertices, adj, way); IsWalk(adj, p) && Distinct(p)
    decreases vertices - Elems(way)
  {
    var v := way[|way| - 1];
    var u := order.next(v, Neighbours(adj, v));
    if Neighbours(adj, v) != {} && u !in way && u in vertices {
      PrefixOfVisited(way, [u]);
      assert u in vertices - Elems(way);
      DescentIsWalk(order, vertices, adj, way + [u]);
    }
  }

  lemma FoundIsLasso<V(!new)>(order: Order<V>, vertices: set<V>, adj: map<V, set<V>>, p: seq<V>) returns (j: int)
    requires IsOrder(order) && FoundFirst(order, vertices, adj, p)
    ensures Lasso(adj, p, j)
  {
    DescentIsWalk(order, vertices, adj, [order.start(vertices)]);
    var v := p[|p| - 1];
    j :| 0 <= j < |p| && p[j] == order.next(v, Neighbours(adj, v));
  }

  /** In every order of iteration the search finds the vertices of a cycle. */
  ghost predicate FindsCycles<V(!new)>(vertices: set<V>, adj: map<V, set<V>>) {
    forall order, p | IsOrder(order) && FoundFirst(order, vertices, adj, p) :: OfCycle(adj, Elems(p))
  }

  /** That is so exactly when a vertex with an edge into a cycle forms a cycle together with it. */
  lemma FindsCyclesExactly<V(!new)>(vertices: set<V>, adj: map<V, set<V>>)
    requires Closed(vertices, adj)
    ensures FindsCycles(vertices, adj) <==> CyclesTakeIn(adj)
  {
    LassosSpanCyclesExactly(adj);
    if FindsCycles(vertices, adj) {
      forall p, j | Lasso(adj, p, j) ensures OfCycle(adj, Elems(p)) {
        var order := EveryLassoIsFound(vertices, adj, p, j);
      }
    }
    if CyclesTakeIn(adj) {
      forall order, p | IsOrder(order) && FoundFirst(order, vertices, adj, p) ensures OfCycle(adj, Elems(p)) {
        var j := FoundIsLasso(order, vertices, adj, p);
      }
    }
  }

  class Graph<V(==, !new)> {
    var vertices: set<V>
    var from: map<V, set<V>>
    var to: map<V, set<V>>

    ghost predicate Valid()
      reads this
    {
      WellFormed(vertices, from, to)
    }

    ghost predicate HasEdge(u: V, w: V)
      reads this
    {
      w in Neighbours(from, u)
    }

    constructor ()
      ensures Valid() && vertices == {}
    {
      vertices, from, to := {}, map[], map[];
    }

    method Add(v: V)
      requires Valid()
      modifies this
      ensures Valid() && vertices == old(vertices) + {v}
      ensures forall x, y :: HasEdge(x, y) <==> old(HasEdge(x, y))
    {
      if v !in vertices {
        WithVertex(vertices, from, to, v);
        vertices := vertices + {v};
        from := from[v := {}];
        to := to[v := {}];
      }
    }

    method Remove(v: V)
      requires Valid()
      modifies this
      ensures Valid() && vertices == old(vertices) - {v}
      ensures forall x, y :: HasEdge(x, y) <==> old(HasEdge(x, y)) && x != v && y != v
    {
      if v !in vertices {
        NoEdges(from, to, v);
        return;
      }
      WithoutVertex(vertices, from, to, v);
      vertices := vertices - {v};
      from, to := TakeOut(from, to, v, vertices);
      from := from - {v};
      to := to - {v};
    }

    /** The loop of Remove: take v out of both sets of every other vertex. */
    static method TakeOut(from: map<V, set<V>>, to: map<V, set<V>>, v: V, others: set<V>)
      returns (f: map<V, set<V>>, t: map<V, set<V>>)
      requires others <= from.Keys && others <= to.Keys
      ensures f == TakenFrom(from, v, others) && t == TakenFrom(to, v, others)
    {
      f, t := from, to;
      ghost var gone: set<V> := {};
      TakeFromNone(from, v);
      TakeFromNone(to, v);
      var rest := others;
      while rest != {}
        invariant gone !! rest && gone + rest == others
        invariant f == TakenFrom(from, v, gone) && t == TakenFrom(to, v, gone)
        decreases |rest|
      {
        var u :| u in rest;
        TakeFromNext(from, v, gone, u);
        f := f[u := f[u] - {v}];
        TakeFromNext(to, v, gone, u);
        t := t[u := t[u] - {v}];
        gone, rest := gone + {u}, rest - {u};
      }
    }

    /** Go panics on a self edge; here the graph is left alone and the result is false. */
    method AddEdge(a: V, b: V) returns (ok: bool)
      requires Valid()
      modifies this
      ensures Valid() && ok == (a != b)
      ensures vertices == old(vertices) + (if ok then {a, b} else {})
      ensures forall x, y :: HasEdge(x, y) <==> old(HasEdge(x, y)) || (ok && x == a && y == b)
    {
      if a == b {
        return false;
      }
      Add(a);
      Add(b);
      WithEdge(vertices, from, to, a, b);
      from := from[a := from[a] + {b}];
      to := to[b := to[b] + {a}];
      return true;
    }

    method RemoveEdge(a: V, b: V)
      requires Valid()
      modifies this
      ensures Valid() && vertices == old(vertices)
      ensures forall x, y :: HasEdge(x, y) <==> old(HasEdge(x, y)) && !(x == a && y == b)
    {
      if a !in vertices || b !in vertices {
        NoEdges(from, to, if a !in vertices then a else b);
        return;
      }
      WithoutEdge(vertices, from, to, a, b);
      from := from[a := from[a] - {b}];
      to := to[b := to[b] - {a}];
    }

    method Transpose() returns (t: Graph<V>)
      requires Valid()
      ensures fresh(t) && t.Valid() && t.vertices == vertices
      ensures forall x, y :: t.HasEdge(x, y) <==> HasEdge(y, x)
      ensures forall x, y :: Reaches(t.from, x, y) <==> Reaches(from, y, x)
    {
      t := new Graph<V>();
      t.vertices := vertices;
      var rest := vertices;
      while rest != {}
        invariant rest <= vertices && t.vertices == vertices
        invariant t.from == Copied(to, vertices - rest) && t.to == Copied(from, vertices - rest)
        decreases |rest|
      {
        var u :| u in rest;
        CopyNext(to, vertices - rest, u);
        CopyNext(from, vertices - rest, u);
        t.from := t.from[u := to[u]];
        t.to := t.to[u := from[u]];
        assert vertices - (rest - {u}) == vertices - rest + {u};
        rest := rest - {u};
      }
      assert t.from == to && t.to == from;
      TurnedAround(vertices, from, to);
      MirrorReaches(from, to);
    }

    /** The search of BFS and BFSReverse, which differ in the adjacency map they follow. */
    static method BreadthFirst(adj: map<V, set<V>>, ghost known: set<V>, v: V) returns (result: seq<V>)
      requires Closed(known, adj)
      ensures Distinct(result) && forall x :: x in result <==> Reaches(adj, v, x)
      ensures NearestFirst(adj, v, result)
    {
      result := [];
      var visited, queue := {v}, [v];
      ghost var dist := [0];
      FirstLayer(adj, v);
      while queue != []
        invariant visited == Elems(result + queue) && visited <= known + {v}
        invariant Layers(adj, v, result + queue, dist, |result|)
        decreases known + {v} - Elems(result)
      {
        var s := queue[0];
        FrontIsNew(result, queue);
        ghost var done, front := result, queue;
        ghost var added;
        result := result + [s];
        queue := queue[1..];
        queue, visited, added := Enqueue(queue, visited, Neighbours(adj, s));
        dist := BreadthTurn(adj, v, known, done, front, dist, added);
        assert queue == front[1..] + added;
      }
      assert result + queue == result;
      BreadthDone(adj, v, result, dist);
    }

    /** The inner loop of a breadth first search: queue the candidates not yet seen, in any order. */
    static method Enqueue(queue: seq<V>, visited: set<V>, candidates: set<V>)
      returns (longer: seq<V>, marked: set<V>, ghost added: seq<V>)
      ensures longer == queue + added && marked == visited + candidates
      ensures Distinct(added) && Elems(added) == candidates - visited
    {
      longer, marked, added := queue, visited, [];
      var rest := candidates;
      while rest != {}
        invariant rest <= candidates && longer == queue + added && Distinct(added)
        invariant Elems(added) == candidates - rest - visited && marked == visited + (candidates - rest)
        decreases |rest|
      {
        var t :| t in rest;
        if t !in marked {
          assert t !in Elems(added);
          PrefixOfVisited(added, [t]);
          marked := marked + {t};
          longer := longer + [t];
          added := added + [t];
        }
        rest := rest - {t};
      }
    }

    /** The inner loop of a depth first search: push the candidates not yet visited, in any order. */
    static method PushAll(stack: seq<V>, visited: set<V>, candidates: set<V>)
      returns (taller: seq<V>, ghost pushed: seq<V>)
      ensures taller == stack + pushed && Elems(pushed) == candidates - visited
    {
      taller, pushed := stack, [];
      var rest := candidates;
      while rest != {}
        invariant rest <= candidates && taller == stack + pushed
        invariant Elems(pushed) == candidates - rest - visited
        decreases |rest|
      {
        var i :| i in rest;
        if i !in visited {
          PrefixOfVisited(pushed, [i]);
          taller := taller + [i];
          pushed := pushed + [i];
        }
        rest := rest - {i};
      }
    }

    method BFS(v: V) returns (result: seq<V>)
      requires Valid()
      ensures Distinct(result) && forall x :: x in result <==> Reaches(from, v, x)
      ensures NearestFirst(from, v, result)
    {
      SuccessorsKnown(vertices, from, to);
      result := BreadthFirst(from, vertices, v);
    }

    method BFSReverse(v: V) returns (result: seq<V>)
      requires Valid()
      ensures Distinct(result) && forall x :: x in result <==> Reaches(from, x, v)
      ensures NearestFirst(to, v, result)
    {
      TurnedAround(vertices, from, to);
      SuccessorsKnown(vertices, to, from);
      result := BreadthFirst(to, vertices, v);
      MirrorReaches(from, to);
    }

    method DFS(v: V) returns (result: seq<V>)
      requires Valid()
      ensures Distinct(result) && forall x :: x in result <==> Reaches(from, v, x)
      ensures DeepestFirst(from, result)
    {
      result := [];
      var visited: set<V> := {};
      var stack := [v];
      ghost var src, parent := [-1], [];
      SuccessorsKnown(vertices, from, to);
      while stack != []
        invariant visited == Elems(result)
        invariant Depths(from, v, result, parent, stack, src)
        decreases vertices + {v} - visited, |stack|
      {
        var top := |stack| - 1;
        var s := stack[top];
        StackIsKnown(from, v, result, parent, stack, src, vertices);
        ghost var order, before := result, stack;
        assert s in Elems(stack);
        stack := stack[..top];
        if s !in visited {
          visited := visited + {s};
          result := result + [s];
        }
        ghost var pushed;
        stack, pushed := PushAll(stack, visited, Neighbours(from, s));
        if s in order {
          StaleTurn(from, v, order, parent, before, src, pushed);
          src := src[..top];
        } else {
          VisitTurn(from, v, order, parent, before, src, pushed);
          parent, src := parent + [src[top]], src[..top] + Repeat(|order|, |pushed|);
        }
      }
      DepthDone(from, v, result, parent, src);
    }

    /**
     Depth first from the white vertex v. The gray vertices are those of path, the way down to v;
     the black ones are those of done, in the order in which they were finished. A search that has
     finished no vertex and turns back on its descent finds that descent.
     */
    method Visit(v: V, colors: map<V, Color>, order: Order<V>, ghost path: seq<V>, ghost done: seq<V>)
      returns (found: bool, after: map<V, Color>, ghost lasso: seq<V>, ghost j: int, ghost ended: seq<V>)
      requires Closed(vertices, from) && IsOrder(order)
      requires v in vertices && colors.Keys == vertices && colors[v] == White
      requires Coloured(colors, path, done) && Finished(from, done)
      requires IsWalk(from, path + [v])
      ensures after.Keys == vertices
      ensures found ==> path + [v] <= lasso && Lasso(from, lasso, j) && Coloured(after, lasso, ended)
      ensures !found ==> Coloured(after, path, ended) && Finished(from, ended) && done <= ended && v in ended
      ensures var way := Descent(order, vertices, from, path + [v]);
              done == [] && TurnsBack(order, from, way) ==> found && lasso == way
      ensures Whites(after) < Whites(colors)
      decreases Whites(colors)
    {
      Greyed(colors, path, done, v);
      after := colors[v := Gray];
      ended, lasso, j := done, path + [v], 0;
      var rest := from[v];
      ghost var way := path + [v];
      ghost var back := done == [] && TurnsBack(order, from, Descent(order, vertices, from, way));
      while rest != {}
        invariant rest <= from[v] && after.Keys == vertices
        invariant Coloured(after, way, ended) && Finished(from, ended) && done <= ended
        invariant from[v] - rest <= Elems(ended)
        invariant Whites(after) < Whites(colors)
        invariant back ==> rest == from[v] && ended == []
        decreases |rest|
      {
        var u := order.next(v, rest);
        if after[u] == Gray {
          lasso := way;
          j :| 0 <= j < |lasso| && lasso[j] == u;
          return true, after, lasso, j, ended;
        }
        assert u !in way;
        if after[u] == White {
          ghost var before := ended;
          found, after, lasso, j, ended := Visit(u, after, order, way, ended);
          if found {
            ShorterPrefix(way, u, lasso);
            return;
          }
          PrefixElems(before, ended);
        }
        OneMoreIn(from[v], rest, u, Elems(ended));
        rest := rest - {u};
      }
      Blackened(after, path, ended, v);
      FinishedNext(from, ended, v);
      after := after[v := Black];
      ended := ended + [v];
      found := false;
    }

    /** The loop that Cyclic and Cycle share: visit the white vertices until one visit finds a gray one. */
    method VisitAll(order: Order<V>) returns (found: bool, colors: map<V, Color>, ghost lasso: seq<V>, ghost j: int)
      requires Closed(vertices, from) && IsOrder(order)
      ensures found <==> HasCycle(from)
      ensures colors.Keys == vertices
      ensures found ==> Lasso(from, lasso, j) && forall u :: u in lasso <==> u in colors && colors[u] == Gray
      ensures forall p :: FoundFirst(order, vertices, from, p) ==> found && lasso == p
    {
      colors := map v | v in vertices :: White;
      AllWhite(colors, from);
      ghost var done := [];
      lasso, j := [], 0;
      ghost var first := order.start(vertices);
      ghost var back := vertices != {} && TurnsBack(order, from, Descent(order, vertices, from, [first]));
      var rest := vertices;
      while rest != {}
        invariant rest <= vertices && colors.Keys == vertices
        invariant Coloured(colors, [], done) && Finished(from, done)
        invariant vertices - rest <= Elems(done)
        invariant back ==> rest == vertices && done == []
        decreases |rest|
      {
        var v := order.start(rest);
        if colors[v] == White {
          ghost var before := done;
          assert [] + [v] == [v];
          found, colors, lasso, j, done := Visit(v, colors, order, [], done);
          if found {
            LassoHasCycle(from, lasso, j);
            return;
          }
          PrefixElems(before, done);
        }
        OneMoreIn(vertices, rest, v, Elems(done));
        rest := rest - {v};
      }
      FinishedHasNoCycle(from, done);
      found := false;
    }

    method Cyclic(order: Order<V>) returns (r: bool)
      requires Valid() && IsOrder(order)
      ensures r <==> HasCycle(from)
    {
      var colors;
      ghost var lasso, j;
      SuccessorsKnown(vertices, from, to);
      r, colors, lasso, j := VisitAll(order);
    }

    /** The gray vertices, in any order, when a cycle is found. */
    method Cycle(order: Order<V>) returns (r: Option<seq<V>>)
      requires Valid() && IsOrder(order)
      ensures r.Some? <==> HasCycle(from)
      ensures r.Some? ==> Distinct(r.value) && exists p, j :: Lasso(from, p, j) && Elems(r.value) == Elems(p)
      ensures r.Some? ==> exists c :: ClosedWalk(from, c) && Elems(c) <= Elems(r.value)
      ensures r.Some? && (OnEveryCycle(from) || CyclesTakeIn(from)) ==> OfCycle(from, Elems(r.value))
      ensures r.Some? && NoLeadIn(from) ==> OnClosedWalk(from, r.value)
      ensures forall p :: FoundFirst(order, vertices, from, p) ==> r.Some? && Elems(r.value) == Elems(p)
    {
      var found, colors;
      ghost var lasso, j;
      SuccessorsKnown(vertices, from, to);
      found, colors, lasso, j := VisitAll(order);
      if !found {
        return None;
      }
      var cycle := [];
      var rest := colors.Keys;
      while rest != {}
        invariant rest <= colors.Keys && Distinct(cycle)
        invariant Elems(cycle) == set u | u in colors && u !in rest && colors[u] == Gray
        decreases |rest|
      {
        var v :| v in rest;
        if colors[v] == Gray {
          assert v !in Elems(cycle);
          PrefixOfVisited(cycle, [v]);
          cycle := cycle + [v];
        }
        rest := rest - {v};
      }
      assert Elems(cycle) == Elems(lasso);
      LassoHasCycle(from, lasso, j);
      LassosCloseExactly(from);
      LassosSpanCyclesExactly(from);
      Conditions(from);
      return Some(cycle);
    }
  }
}
