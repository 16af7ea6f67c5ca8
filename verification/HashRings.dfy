/**
 The ring of lib/hash_ring.go: a circular linked list on the heap that stays sorted by hash.
 A hash is a string of bytes in the order of Go's bytes.Compare; how md5 computes it is not modelled.
 */
module HashRings {
  import opened Sequences

  newtype byte = x: int | 0 <= x < 256

  // ---------- The order of hashes ----------

  /** a comes strictly before b in lexicographic order. */
  predicate Before(a: seq<byte>, b: seq<byte>) {
    if b == [] then false
    else if a == [] then true
    else a[0] < b[0] || (a[0] == b[0] && Before(a[1..], b[1..]))
  }

  lemma {:induction false} BeforeIsTotal(a: seq<byte>, b: seq<byte>)
    ensures Before(a, b) || a == b || Before(b, a)
    ensures !(Before(a, b) && Before(b, a)) && !Before(a, a)
  {
    if a != [] && b != [] && a[0] == b[0] {
      BeforeIsTotal(a[1..], b[1..]);
      assert a == [a[0]] + a[1..] && b == [b[0]] + b[1..];
    }
    if a != [] {
      BeforeIsTotal(a[1..], a[1..]);
    }
  }

  lemma {:induction false} BeforeIsTransitive(a: seq<byte>, b: seq<byte>, c: seq<byte>)
    requires Before(a, b) && Before(b, c)
    ensures Before(a, c)
  {
    if a != [] && a[0] == b[0] == c[0] {
      BeforeIsTransitive(a[1..], b[1..], c[1..]);
    }
  }

  /** a is a proper prefix of b. */
  predicate Shorter(a: seq<byte>, b: seq<byte>) { |a| < |b| && a == b[..|a|] }

  /** a and b agree up to place k, where a has the smaller byte. */
  predicate LowerAt(a: seq<byte>, b: seq<byte>, k: nat) {
    k < |a| && k < |b| && a[..k] == b[..k] && a[k] < b[k]
  }

  /** Whether some byte decides: the first in which a and b differ. */
  ghost predicate Lower(a: seq<byte>, b: seq<byte>) { exists k: nat :: LowerAt(a, b, k) }

  lemma SameFirst(a: seq<byte>, b: seq<byte>)
    requires a != [] && b != [] && a[0] == b[0]
    ensures Shorter(a, b) <==> Shorter(a[1..], b[1..])
    ensures Lower(a, b) <==> Lower(a[1..], b[1..])
  {
    var c, d := a[1..], b[1..];
    assert a == [a[0]] + c && b == [a[0]] + d;
    assert |a| <= |b| ==> b[..|a|] == [a[0]] + d[..|c|];
    forall k: nat | k < |c| && k < |d|
      ensures LowerAt(a, b, k + 1) <==> LowerAt(c, d, k)
    {
      assert a[..k + 1] == [a[0]] + c[..k] && b[..k + 1] == [a[0]] + d[..k];
      assert c[..k] == a[..k + 1][1..] && d[..k] == b[..k + 1][1..];
    }
    if k: nat :| LowerAt(a, b, k) {
      assert LowerAt(c, d, k - 1);
    }
    if k: nat :| LowerAt(c, d, k) {
      assert LowerAt(a, b, k + 1);
    }
  }

  lemma OtherFirst(a: seq<byte>, b: seq<byte>)
    requires a != [] && b != [] && a[0] != b[0]
    ensures !Shorter(a, b) && (Lower(a, b) <==> a[0] < b[0])
  {
    assert LowerAt(a, b, 0) <==> a[0] < b[0];
    assert |a| < |b| ==> b[..|a|][0] == b[0];
    forall k: nat | 0 < k < |a| && k < |b| ensures !LowerAt(a, b, k) {
      assert a[..k][0] == a[0] && b[..k][0] == b[0];
    }
  }

  /** What the order is: that of a dictionary. */
  lemma {:induction false} BeforeMeans(a: seq<byte>, b: seq<byte>)
    ensures Before(a, b) <==> Shorter(a, b) || Lower(a, b)
  {
    if a != [] && b != [] {
      if a[0] == b[0] {
        SameFirst(a, b);
        BeforeMeans(a[1..], b[1..]);
      } else {
        OtherFirst(a, b);
      }
    }
  }

  // ---------- The contents of a ring ----------

  datatype Entry<V> = Entry(hash: seq<byte>, value: V)

  predicate Sorted<V>(es: seq<Entry<V>>) {
    forall i, j :: 0 <= i < j < |es| ==> !Before(es[j].hash, es[i].hash)
  }

  /** How many leading entries come strictly before the hash: where it is inserted. */
  function Place<V>(es: seq<Entry<V>>, hash: seq<byte>): (k: nat)
    ensures k <= |es|
    ensures forall i :: 0 <= i < k ==> Before(es[i].hash, hash)
    ensures k < |es| ==> !Before(es[k].hash, hash)
  {
    if es == [] || !Before(es[0].hash, hash) then 0 else 1 + Place(es[1..], hash)
  }

  /** s with x put in at place k. */
  function Spliced<T>(s: seq<T>, x: T, k: nat): (r: seq<T>)
    requires k <= |s|
    ensures |r| == |s| + 1
    ensures forall j :: 0 <= j < |r| ==> r[j] == if j < k then s[j] else if j == k then x else s[j - 1]
  {
    s[..k] + [x] + s[k..]
  }

  /** An entry goes after all smaller hashes and in front of all equal ones. */
  function Inserted<V>(es: seq<Entry<V>>, e: Entry<V>): seq<Entry<V>> {
    var k := Place(es, e.hash);
    Spliced(es, e, k)
  }

  lemma {:induction false} PlaceIs<V>(es: seq<Entry<V>>, hash: seq<byte>, k: nat)
    requires k <= |es|
    requires forall i :: 0 <= i < k ==> Before(es[i].hash, hash)
    requires k < |es| ==> !Before(es[k].hash, hash)
    ensures Place(es, hash) == k
  {
    if k > 0 {
      PlaceIs(es[1..], hash, k - 1);
    }
  }

  lemma NotBeforeLater<V>(es: seq<Entry<V>>, hash: seq<byte>, i: nat)
    requires Sorted(es) && Place(es, hash) <= i < |es|
    ensures !Before(es[i].hash, hash)
  {
    var k := Place(es, hash);
    if Before(es[i].hash, hash) && k < i {
      BeforeIsTotal(es[k].hash, es[i].hash);
      if es[k].hash != es[i].hash {
        BeforeIsTransitive(es[k].hash, es[i].hash, hash);
      }
    }
  }

  lemma InsertedStaysSorted<V>(es: seq<Entry<V>>, e: Entry<V>)
    requires Sorted(es)
    ensures Sorted(Inserted(es, e))
  {
    var k := Place(es, e.hash);
    var more := Inserted(es, e);
    forall i, j | 0 <= i < j < |more| ensures !Before(more[j].hash, more[i].hash) {
      if i == k {
        NotBeforeLater(es, e.hash, j - 1);
      } else if j == k {
        BeforeIsTotal(es[i].hash, e.hash);
      }
    }
  }

  lemma InsertedAddsOne<V>(es: seq<Entry<V>>, e: Entry<V>)
    ensures multiset(Inserted(es, e)) == multiset(es) + multiset{e}
  {
    var k := Place(es, e.hash);
    assert es == es[..k] + es[k..];
  }

  /** The contents after any sequence of inserts on an empty ring. */
  function Built<V>(entries: seq<Entry<V>>): seq<Entry<V>> {
    if entries == [] then [] else Inserted(Built(entries[..|entries| - 1]), entries[|entries| - 1])
  }

  lemma {:induction false} EveryInsertCounts<V>(entries: seq<Entry<V>>)
    ensures Sorted(Built(entries)) && multiset(Built(entries)) == multiset(entries)
  {
    if entries != [] {
      var n := |entries| - 1;
      EveryInsertCounts(entries[..n]);
      InsertedStaysSorted(Built(entries[..n]), entries[n]);
      InsertedAddsOne(Built(entries[..n]), entries[n]);
      assert entries == entries[..n] + [entries[n]];
    }
  }

  /** On a ring built by any inserts hashes rise from the head on: byte by byte, a prefix first, equal ones together. */
  lemma HashesRise<V>(entries: seq<Entry<V>>, i: nat, j: nat)
    requires i < j < |entries|
    ensures |Built(entries)| == |entries|
    ensures var a, b := Built(entries)[i].hash, Built(entries)[j].hash;
            a == b || Shorter(a, b) || Lower(a, b)
  {
    EveryInsertCounts(entries);
    assert |multiset(Built(entries))| == |Built(entries)|;
    var a, b := Built(entries)[i].hash, Built(entries)[j].hash;
    BeforeIsTotal(a, b);
    BeforeMeans(a, b);
  }

  // ---------- Going round the ring ----------

  function After(i: nat, n: nat): (r: nat)
    requires i < n
    ensures r < n
  {
    if i + 1 == n then 0 else i + 1
  }

  /** The answer of Next: Go panics on an empty ring and returns nil for a value that is not there. */
  datatype Answer<V> = Panics | Absent | Found(value: V)

  /** The position of the first entry with this value. */
  function First<V(==)>(es: seq<Entry<V>>, v: V): (k: nat)
    ensures k <= |es|
    ensures forall i :: 0 <= i < k ==> es[i].value != v
    ensures k < |es| ==> es[k].value == v
  {
    if es == [] || es[0].value == v then 0 else 1 + First(es[1..], v)
  }

  function NextOf<V(==)>(es: seq<Entry<V>>, v: V): Answer<V> {
    var k := First(es, v);
    if es == [] then Panics
    else if k == |es| then Absent
    else Found(es[After(k, |es|)].value)
  }

  /** An empty ring panics, a value that is nowhere gives nil, and one that is first at place i what comes after i. */
  lemma NextMeans<V>(es: seq<Entry<V>>, v: V, i: nat)
    ensures NextOf(es, v) == Panics <==> es == []
    ensures NextOf(es, v) == Absent <==> es != [] && forall i :: 0 <= i < |es| ==> es[i].value != v
    ensures i < |es| && es[i].value == v && (forall j :: 0 <= j < i ==> es[j].value != v) ==>
              NextOf(es, v) == Found(es[(i + 1) % |es|].value)
  {
    var k := First(es, v);
    if k < |es| {
      assert (k + 1) % |es| == After(k, |es|);
    }
  }

  /** What Next leads to when it is called k times, each time on the answer before. */
  function Steps<V(==)>(es: seq<Entry<V>>, v: V, k: nat): Answer<V> {
    if k == 0 then Found(v)
    else match Steps(es, v, k - 1)
         case Found(u) => NextOf(es, u)
         case a => a
  }

  ghost predicate DistinctValues<V>(es: seq<Entry<V>>) {
    forall i, j :: 0 <= i < j < |es| ==> es[i].value != es[j].value
  }

  /** k places on from place i, for at most one turn. */
  function Onward(i: nat, k: nat, n: nat): (r: nat)
    requires i < n && k <= n
    ensures r < n
  {
    if i + k < n then i + k else i + k - n
  }

  lemma {:induction false} StepsGoOn<V>(es: seq<Entry<V>>, i: nat, k: nat)
    requires DistinctValues(es) && i < |es| && k <= |es|
    ensures Steps(es, es[i].value, k) == Found(es[Onward(i, k, |es|)].value)
  {
    if k > 0 {
      StepsGoOn(es, i, k - 1);
      var p := Onward(i, k - 1, |es|);
      assert Steps(es, es[i].value, k) == NextOf(es, es[p].value);
      assert First(es, es[p].value) == p;
      assert After(p, |es|) == Onward(i, k, |es|);
    }
  }

  /** The answers of n calls of Next, the first on v and each other on the answer before, and v in front. */
  function Lap<V(==)>(es: seq<Entry<V>>, v: V, n: nat): seq<Answer<V>> {
    seq(n + 1, k requires 0 <= k <= n => Steps(es, v, k))
  }

  function FoundAll<V>(es: seq<Entry<V>>): seq<Answer<V>> {
    seq(|es|, k requires 0 <= k < |es| => Found(es[k].value))
  }

  /**
   With distinct values, calling Next again and again from any value of the ring comes to every value
   exactly once, in ring order, before it comes back.
   */
  lemma WholeRing<V>(es: seq<Entry<V>>, i: nat)
    requires DistinctValues(es) && i < |es|
    ensures Lap(es, es[i].value, |es|) == FoundAll(es[i..] + es[..i] + [es[i]])
  {
    var around := es[i..] + es[..i] + [es[i]];
    forall k | 0 <= k <= |es| ensures Lap(es, es[i].value, |es|)[k] == FoundAll(around)[k] {
      StepsGoOn(es, i, k);
      assert around[k] == es[Onward(i, k, |es|)];
    }
  }

  // ---------- The linked list ----------

  class Node<V> {
    const hash: seq<byte>
    const value: V
    var next: Node?<V>

    constructor (hash: seq<byte>, value: V)
      ensures this.hash == hash && this.value == value && next == null
    {
      this.hash, this.value, next := hash, value, null;
    }
  }

  lemma SplicedDistinct<T>(s: seq<T>, x: T, k: nat)
    requires k <= |s| && Distinct(s) && x !in s
    ensures Distinct(Spliced(s, x, k))
  {}

  /** What follows each place of a circle after x has been put in at place k. */
  lemma SplicedAfter<T>(s: seq<T>, x: T, k: nat, j: nat)
    requires s != [] && k <= |s| && j <= |s|
    ensures var n := |s|;
            var p := if j < k then j else j - 1;
            Spliced(s, x, k)[After(j, n + 1)]
            == if j == k then s[if k == n then 0 else k]
               else if p == (if k == 0 then n - 1 else k - 1) then x
               else s[After(p, n)]
  {}

  /** One circle through all nodes, in this order. */
  ghost predicate Linked<V>(nodes: seq<Node<V>>)
    reads nodes
  {
    && Distinct(nodes)
    && (forall i :: 0 <= i < |nodes| ==> nodes[i].next == nodes[After(i, |nodes|)])
  }

  ghost function Entries<V>(nodes: seq<Node<V>>): (es: seq<Entry<V>>)
    ensures |es| == |nodes|
    ensures forall i :: 0 <= i < |es| ==> es[i] == Entry(nodes[i].hash, nodes[i].value)
  {
    seq(|nodes|, i requires 0 <= i < |nodes| => Entry(nodes[i].hash, nodes[i].value))
  }

  lemma EntriesWith<V>(nodes: seq<Node<V>>, node: Node<V>, k: nat)
    requires k <= |nodes|
    requires Place(Entries(nodes), node.hash) == k
    ensures Entries(Spliced(nodes, node, k)) == Inserted(Entries(nodes), Entry(node.hash, node.value))
  {}

  /** Hangs the node in after i, its predecessor on the circle, to make it number k. */
  method Link<V>(i: Node<V>, node: Node<V>, ghost nodes: seq<Node<V>>, ghost k: nat)
    requires Linked(nodes) && node !in nodes && nodes != [] && k <= |nodes|
    requires i == nodes[if k == 0 then |nodes| - 1 else k - 1]
    modifies i, node
    ensures Linked(Spliced(nodes, node, k))
  {
    ghost var more := Spliced(nodes, node, k);
    SplicedDistinct(nodes, node, k);
    node.next := i.next;
    i.next := node;
    forall j | 0 <= j < |more| ensures more[j].next == more[After(j, |more|)] {
      SplicedAfter(nodes, node, k, j);
      assert j != k ==> more[j] == nodes[if j < k then j else j - 1];
    }
  }

  class HashRing<V(==)> {
    var head: Node?<V>
    ghost var nodes: seq<Node<V>>

    ghost predicate Valid()
      reads this, nodes
    {
      && head == (if nodes == [] then null else nodes[0])
      && Linked(nodes) && Sorted(View())
    }

    ghost function View(): seq<Entry<V>>
      reads this
    {
      Entries(nodes)
    }

    constructor ()
      ensures Valid() && View() == []
    {
      head, nodes := null, [];
    }

    /** The last node of the circle. */
    method Tail() returns (i: Node<V>)
      requires Valid() && head != null
      ensures i == nodes[|nodes| - 1]
    {
      i := head;
      ghost var k := 0;
      while i.next != head
        invariant 0 <= k < |nodes| && i == nodes[k]
        decreases |nodes| - k
      {
        i := i.next;
        k := k + 1;
      }
    }

    /** The last node with a smaller hash, when the head has one. */
    method LastBefore(hash: seq<byte>) returns (i: Node<V>, ghost k: nat)
      requires Valid() && head != null && Before(head.hash, hash)
      ensures k < |nodes| && i == nodes[k] && Place(View(), hash) == k + 1
    {
      i, k := head, 0;
      while i.next != head && Before(i.next.hash, hash)
        invariant 0 <= k < |nodes| && i == nodes[k]
        invariant forall j :: 0 <= j <= k ==> Before(nodes[j].hash, hash)
        decreases |nodes| - k
      {
        i := i.next;
        k := k + 1;
      }
      PlaceIs(View(), hash, k + 1);
    }

    /** Hangs a new node in after i, its predecessor on the circle; it becomes the head when asked to. */
    method HangIn(node: Node<V>, i: Node<V>, first: bool, ghost k: nat)
      requires Valid() && head != null && node !in nodes
      requires k == Place(View(), node.hash) && (first <==> k == 0)
      requires i == nodes[if k == 0 then |nodes| - 1 else k - 1]
      modifies this, i, node
      ensures Valid() && nodes == Spliced(old(nodes), node, k)
      ensures View() == Inserted(old(View()), Entry(node.hash, node.value))
    {
      EntriesWith(nodes, node, k);
      InsertedStaysSorted(View(), Entry(node.hash, node.value));
      Link(i, node, nodes, k);
      nodes := Spliced(nodes, node, k);
      if first {
        head := node;
      }
    }

    method Insert(value: V, hash: seq<byte>)
      requires Valid()
      modifies this, nodes
      ensures Valid() && forall n :: n in nodes ==> n in old(nodes) || fresh(n)
      ensures View() == Inserted(old(View()), Entry(hash, value))
    {
      var node := new Node(hash, value);
      if head == null {
        node.next := node;
        head := node;
        nodes := [node];
      } else if !Before(head.hash, hash) {
        var i := Tail();
        HangIn(node, i, true, 0);
      } else {
        ghost var k;
        var i;
        i, k := LastBefore(hash);
        HangIn(node, i, false, k + 1);
      }
    }

    method Next(v: V) returns (r: Answer<V>)
      requires Valid()
      ensures r == NextOf(View(), v)
    {
      var i := head;
      if i == null {
        return Panics;
      }
      ghost var k := 0;
      while true
        invariant 0 <= k < |nodes| && i == nodes[k]
        invariant forall j :: 0 <= j < k ==> nodes[j].value != v
        decreases |nodes| - k
      {
        if v == i.value {
          assert First(View(), v) == k;
          return Found(i.next.value);
        }
        if i.next == head {
          return Absent;
        }
        i := i.next;
        k := k + 1;
      }
    }
  }
}
