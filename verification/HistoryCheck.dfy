/** The admin client's check that the histories of a key agree on every node (client.go, Consensus). */
module HistoryCheck {
  import opened Ids
  import opened Databases
  import opened Cardinality

  /** Go's string(v): the nil slice and the empty slice give the same text. */
  function Text(v: Value): seq<bv8> { if v == Nil then [] else v.data }

  /** The same slice, or nil and the empty one. */
  predicate Same(v: Value, w: Value) { v == w || (v in {Nil, Bytes([])} && w in {Nil, Bytes([])}) }

  lemma SameText(v: Value, w: Value)
    ensures Text(v) == Text(w) <==> Same(v, w)
  {}

  lemma TextsAreSame(h: map<ID, seq<Value>>)
    ensures AllAgree(h)
       <==> forall p, q, i :: p in h && q in h && 0 <= i < |h[p]| && i < |h[q]| ==> Same(h[p][i], h[q][i])
  {
    forall p, q, i | p in h && q in h && 0 <= i < |h[p]| && i < |h[q]|
      ensures Text(h[p][i]) == Text(h[q][i]) <==> Same(h[p][i], h[q][i])
    {
      SameText(h[p][i], h[q][i]);
    }
    if AllAgree(h) {
      forall p, q, i | p in h && q in h && 0 <= i < |h[p]| && i < |h[q]| ensures Same(h[p][i], h[q][i]) {
        assert Agree(h[p], h[q]);
      }
    }
  }

  /** Where both histories have an entry, the entries read the same. */
  predicate Agree(h: seq<Value>, g: seq<Value>) {
    forall i :: 0 <= i < |h| && i < |g| ==> Text(h[i]) == Text(g[i])
  }

  ghost predicate AllAgree(h: map<ID, seq<Value>>) {
    forall p, q :: p in h && q in h ==> Agree(h[p], h[q])
  }

  /** The texts that the nodes in ids hold at position i. */
  function TextsAt(h: map<ID, seq<Value>>, ids: set<ID>, i: nat): set<seq<bv8>>
    requires ids <= h.Keys
  {
    set id | id in ids && i < |h[id]| :: Text(h[id][i])
  }

  /** The length of the longest history. */
  method Longest(h: map<ID, seq<Value>>) returns (n: nat)
    ensures forall id :: id in h ==> |h[id]| <= n
    ensures n > 0 ==> exists id :: id in h && |h[id]| == n
  {
    n := 0;
    var rest: set<ID> := h.Keys;
    while |rest| > 0
      invariant rest <= h.Keys
      invariant forall id :: id in h ==> id in rest || |h[id]| <= n
      invariant n > 0 ==> exists id :: id in h && |h[id]| == n
      decreases |rest|
    {
      ghost var w := Any(rest);
      assert w in rest;
      var id: ID :| id in rest;
      if |h[id]| > n {
        n := |h[id]|;
      }
      rest := rest - {id};
    }
  }

  /** The set that the check builds for one position. */
  method Texts(h: map<ID, seq<Value>>, i: nat) returns (texts: set<seq<bv8>>)
    ensures texts == TextsAt(h, h.Keys, i)
  {
    texts := {};
    var rest: set<ID> := h.Keys;
    while |rest| > 0
      invariant rest <= h.Keys
      invariant texts == TextsAt(h, h.Keys - rest, i)
      decreases |rest|
    {
      ghost var w := Any(rest);
      assert w in rest;
      var id: ID :| id in rest;
      TakeOut(h.Keys, rest, id);
      if |h[id]| > i {
        texts := texts + {Text(h[id][i])};
      }
      rest := rest - {id};
    }
    assert h.Keys - rest == h.Keys;
  }

  /** True exactly when, wherever two nodes have an entry, the entries are equal or both of them without a byte. */
  method Consensus(h: map<ID, seq<Value>>) returns (r: bool)
    ensures r <==> AllAgree(h)
    ensures r <==> forall p, q, i :: p in h && q in h && 0 <= i < |h[p]| && i < |h[q]| ==> Same(h[p][i], h[q][i])
  {
    TextsAreSame(h);
    var n := Longest(h);
    for i := 0 to n
      invariant forall j :: 0 <= j < i ==> |TextsAt(h, h.Keys, j)| <= 1
    {
      var texts := Texts(h, i);
      if |texts| > 1 {
        TwoTexts(h, i);
        return false;
      }
    }
    OneText(h, n);
    return true;
  }

  lemma TwoTexts(h: map<ID, seq<Value>>, i: nat)
    requires |TextsAt(h, h.Keys, i)| > 1
    ensures !AllAgree(h)
  {
    var texts := TextsAt(h, h.Keys, i);
    var a :| a in texts;
    assert |texts - {a}| > 0;
    var b :| b in texts - {a};
    var p :| p in h && i < |h[p]| && Text(h[p][i]) == a;
    var q :| q in h && i < |h[q]| && Text(h[q][i]) == b;
    assert !Agree(h[p], h[q]);
  }

  lemma OneText(h: map<ID, seq<Value>>, n: nat)
    requires forall id :: id in h ==> |h[id]| <= n
    requires forall j :: 0 <= j < n ==> |TextsAt(h, h.Keys, j)| <= 1
    ensures AllAgree(h)
  {
    forall p, q, i | p in h && q in h && 0 <= i < |h[p]| && i < |h[q]|
      ensures Text(h[p][i]) == Text(h[q][i])
    {
      var a, b := Text(h[p][i]), Text(h[q][i]);
      assert {a, b} <= TextsAt(h, h.Keys, i);
      SubsetSize({a, b}, TextsAt(h, h.Keys, i));
    }
  }

  /** Histories none of which leaves the others: the check succeeds. */
  lemma PrefixesAgree(h: map<ID, seq<Value>>)
    requires forall p, q :: p in h && q in h ==> h[p] <= h[q] || h[q] <= h[p]
    ensures AllAgree(h)
  {}
}
