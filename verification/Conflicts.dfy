/**
 When the order of two commands, two batches or a whole command sequence can matter
 (Conflict and ConflictBatch of db.go).
 */
module Conflicts {
  import opened Databases
  import opened Sequences

  predicate Conflict(a: Command, b: Command) {
    a.key == b.key && (!a.IsRead() || !b.IsRead())
  }

  predicate BatchesConflict(xs: seq<Command>, ys: seq<Command>) {
    exists i, j :: 0 <= i < |xs| && 0 <= j < |ys| && Conflict(xs[i], ys[j])
  }

  method ConflictBatch(batch1: seq<Command>, batch2: seq<Command>) returns (r: bool)
    ensures r <==> BatchesConflict(batch1, batch2)
  {
    for i := 0 to |batch1|
      invariant forall p, q :: 0 <= p < i && 0 <= q < |batch2| ==> !Conflict(batch1[p], batch2[q])
    {
      for j := 0 to |batch2|
        invariant forall q :: 0 <= q < j ==> !Conflict(batch1[i], batch2[q])
      {
        if Conflict(batch1[i], batch2[j]) {
          return true;
        }
      }
    }
    return false;
  }

  /** The value that command i of a sequence returns when the sequence starts in d. */
  function Returned(d: Db, cs: seq<Command>, i: nat): Value
    requires i < |cs|
  {
    Replay(d, cs[..i]).Get(cs[i].key)
  }

  /** Some command of the batch returns another value from d than from e. */
  predicate ReturnsDiffer(d: Db, e: Db, cs: seq<Command>) {
    exists i :: 0 <= i < |cs| && Returned(d, cs, i) != Returned(e, cs, i)
  }

  /** From d, the order of the two batches shows in the final state or in a returned value. */
  predicate Observable(d: Db, xs: seq<Command>, ys: seq<Command>) {
    || Replay(d, xs + ys) != Replay(d, ys + xs)
    || ReturnsDiffer(d, Replay(d, ys), xs)
    || ReturnsDiffer(Replay(d, xs), d, ys)
  }

  // ---------- Commands that do not conflict ----------

  predicate ConflictsWithNone(u: Command, cs: seq<Command>) {
    forall i :: 0 <= i < |cs| ==> !Conflict(u, cs[i])
  }

  lemma SwapTwo(d: Db, a: Command, b: Command)
    requires !Conflict(a, b)
    ensures d.Execute(a).Execute(b) == d.Execute(b).Execute(a)
    ensures d.Execute(a).Get(b.key) == d.Get(b.key)
  {
    if a.key != b.key && !a.IsRead() && !b.IsRead() {
      assert d.data[a.key := a.value][b.key := b.value] == d.data[b.key := b.value][a.key := a.value];
      var ha, hb := d.History(a.key) + [a.value], d.History(b.key) + [b.value];
      assert d.history[a.key := ha][b.key := hb] == d.history[b.key := hb][a.key := ha];
    }
  }

  /** A command that conflicts with none of cs can be executed after them instead of before. */
  lemma {:induction false} Slide(d: Db, u: Command, cs: seq<Command>)
    requires ConflictsWithNone(u, cs)
    ensures Replay(d.Execute(u), cs) == Replay(d, cs).Execute(u)
    ensures Replay(d, cs).Get(u.key) == d.Get(u.key)
  {
    if cs != [] {
      var n := |cs| - 1;
      assert ConflictsWithNone(u, cs[..n]);
      Slide(d, u, cs[..n]);
      SwapTwo(Replay(d, cs[..n]), u, cs[n]);
      SwapTwo(Replay(d, cs[..n]), cs[n], u);
    }
  }

  lemma SlideReturns(d: Db, u: Command, cs: seq<Command>, i: nat)
    requires ConflictsWithNone(u, cs) && i < |cs|
    ensures Returned(d.Execute(u), cs, i) == Returned(d, cs, i)
  {
    assert ConflictsWithNone(u, cs[..i]);
    Slide(d, u, cs[..i]);
    SwapTwo(Replay(d, cs[..i]), u, cs[i]);
  }

  // ---------- Batches ----------

  lemma BatchesCommute(d: Db, xs: seq<Command>, ys: seq<Command>)
    requires !BatchesConflict(xs, ys)
    ensures !Observable(d, xs, ys)
  {
    BatchSlides(d, xs, ys);
    BatchSlides(d, ys, xs);
    ReplaySplit(d, xs, ys);
    ReplaySplit(d, ys, xs);
  }

  lemma {:induction false} BatchSlides(d: Db, xs: seq<Command>, ys: seq<Command>)
    requires !BatchesConflict(xs, ys)
    ensures Replay(Replay(d, xs), ys) == Replay(Replay(d, ys), xs)
    ensures forall i :: 0 <= i < |ys| ==> Returned(Replay(d, xs), ys, i) == Returned(d, ys, i)
  {
    if xs == [] {
      assert Replay(d, xs) == d;
    } else {
      var n := |xs| - 1;
      var u := xs[n];
      assert !BatchesConflict(xs[..n], ys) by {
        assert forall i :: 0 <= i < n ==> xs[..n][i] == xs[i];
      }
      BatchSlides(d, xs[..n], ys);
      assert ConflictsWithNone(u, ys);
      Slide(Replay(d, xs[..n]), u, ys);
      forall i | 0 <= i < |ys|
        ensures Returned(Replay(d, xs), ys, i) == Returned(d, ys, i)
      {
        SlideReturns(Replay(d, xs[..n]), u, ys, i);
      }
    }
  }

  /** A batch without a write to k leaves what k holds; one with a write leaves a written value. */
  lemma {:induction false} LastWrite(d: Db, cs: seq<Command>, k: int)
    ensures (forall i :: 0 <= i < |cs| ==> cs[i].key != k || cs[i].IsRead()) ==> Replay(d, cs).Get(k) == d.Get(k)
    ensures (exists i :: 0 <= i < |cs| && cs[i].key == k && !cs[i].IsRead()) ==> Replay(d, cs).Get(k) != Nil
  {
    if cs != [] {
      var n := |cs| - 1;
      LastWrite(d, cs[..n], k);
      if i :| 0 <= i < |cs| && cs[i].key == k && !cs[i].IsRead() {
        if i < n {
          assert cs[..n][i] == cs[i];
        }
      }
    }
  }

  /** The first command of a batch on a key returns what the key held before the batch. */
  lemma FirstOnKey(d: Db, cs: seq<Command>, k: int) returns (i: nat)
    requires exists j :: 0 <= j < |cs| && cs[j].key == k
    ensures i < |cs| && cs[i].key == k
    ensures forall e: Db :: Returned(e, cs, i) == e.Get(k)
  {
    i := 0;
    while cs[i].key != k
      decreases |cs| - i
      invariant i < |cs| && forall j :: 0 <= j < i ==> cs[j].key != k
    {
      i := i + 1;
    }
    forall e: Db
      ensures Returned(e, cs, i) == e.Get(k)
    {
      LastWrite(e, cs[..i], k);
    }
  }

  /** A conflict shows from every state that holds nothing under the key. */
  lemma ConflictShows(d: Db, xs: seq<Command>, ys: seq<Command>, i: nat, j: nat)
    requires i < |xs| && j < |ys| && Conflict(xs[i], ys[j]) && d.Get(xs[i].key) == Nil
    ensures Observable(d, xs, ys)
  {
    var k := xs[i].key;
    if p :| 0 <= p < |ys| && ys[p].key == k && !ys[p].IsRead() {
      LastWrite(d, ys, k);
      var f := FirstOnKey(d, xs, k);
      assert ReturnsDiffer(d, Replay(d, ys), xs);
    } else {
      LastWrite(d, xs, k);
      var f := FirstOnKey(d, ys, k);
      assert ReturnsDiffer(Replay(d, xs), d, ys);
    }
  }

  /** ConflictBatch is exact: it holds when, and only when, some state tells the two orders apart. */
  lemma BatchesConflictExactly(xs: seq<Command>, ys: seq<Command>)
    ensures BatchesConflict(xs, ys) <==> exists d :: Observable(d, xs, ys)
  {
    if i, j :| 0 <= i < |xs| && 0 <= j < |ys| && Conflict(xs[i], ys[j]) {
      ConflictShows(Empty(false), xs, ys, i, j);
    } else {
      forall d: Db
        ensures !Observable(d, xs, ys)
      {
        BatchesCommute(d, xs, ys);
      }
    }
  }

  /** Conflict is exact for two commands. */
  lemma ConflictExactly(a: Command, b: Command)
    ensures Conflict(a, b) <==> exists d :: Observable(d, [a], [b])
  {
    BatchesConflictExactly([a], [b]);
    assert BatchesConflict([a], [b]) <==> Conflict([a][0], [b][0]);
  }

  // ---------- Whole sequences ----------

  /** A command of a sequence; the tag tells equal commands apart. */
  datatype Step = Step(tag: nat, cmd: Command)

  function Commands(ts: seq<Step>): seq<Command> { seq(|ts|, i requires 0 <= i < |ts| => ts[i].cmd) }

  /** us reorders ts, and whenever two steps of ts conflict they stand in the same order in us. */
  ghost predicate Reorders(ts: seq<Step>, us: seq<Step>) {
    && Distinct(ts) && Distinct(us)
    && multiset(ts) == multiset(us)
    && forall i, j :: 0 <= i < j < |ts| && Conflict(ts[i].cmd, ts[j].cmd) ==> Precedes(us, ts[i], ts[j])
  }

  /** x stands before y wherever both stand. */
  predicate Precedes(us: seq<Step>, x: Step, y: Step) {
    forall p, q :: 0 <= p < |us| && 0 <= q < |us| && us[p] == x && us[q] == y ==> p < q
  }

  function Without(ts: seq<Step>, i: nat): seq<Step>
    requires i < |ts|
  {
    ts[..i] + ts[i + 1..]
  }

  /** A step that conflicts with nothing after it can be moved to the end. */
  lemma MoveToEnd(d: Db, ts: seq<Step>, i: nat)
    requires i < |ts| && ConflictsWithNone(ts[i].cmd, Commands(ts[i + 1..]))
    ensures Replay(d, Commands(ts)) == Replay(d, Commands(Without(ts, i))).Execute(ts[i].cmd)
    ensures Returned(d, Commands(ts), i) == Replay(d, Commands(Without(ts, i))).Get(ts[i].cmd.key)
  {
    var pre, u, post := Commands(ts[..i]), ts[i].cmd, Commands(ts[i + 1..]);
    assert Commands(ts) == (pre + [u]) + post;
    assert Commands(Without(ts, i)) == pre + post;
    assert (pre + [u])[..i] == pre;
    ReplaySplit(d, pre + [u], post);
    ReplaySplit(d, pre, post);
    Slide(Replay(d, pre), u, post);
    assert Commands(ts)[..i] == pre;
  }

  /** The other steps return what they returned before the move. */
  lemma MoveReturns(d: Db, ts: seq<Step>, i: nat, q: nat)
    requires i < |ts| && ConflictsWithNone(ts[i].cmd, Commands(ts[i + 1..]))
    requires q < |ts| && q != i
    ensures Returned(d, Commands(ts), q) == Returned(d, Commands(Without(ts, i)), if q < i then q else q - 1)
  {
    var pre, u, post := Commands(ts[..i]), ts[i].cmd, Commands(ts[i + 1..]);
    assert Commands(Without(ts, i)) == pre + post;
    if q < i {
      assert Commands(ts)[..q] == pre[..q] == (pre + post)[..q];
    } else {
      var r := q - i - 1;
      assert (pre + [u])[..i] == pre;
      assert Commands(ts)[..q] == (pre + [u]) + post[..r];
      assert (pre + post)[..q - 1] == pre + post[..r];
      ReplaySplit(d, pre + [u], post[..r]);
      ReplaySplit(d, pre, post[..r]);
      SlideReturns(Replay(d, pre), u, post, r);
    }
  }

  lemma SameMembers(ts: seq<Step>, us: seq<Step>)
    requires multiset(ts) == multiset(us)
    ensures |ts| == |us| && forall x :: x in ts <==> x in us
  {
    assert |multiset(ts)| == |ts| && |multiset(us)| == |us|;
    assert forall x :: x in ts <==> x in multiset(ts);
    assert forall x :: x in us <==> x in multiset(us);
  }

  lemma RemoveOne(ts: seq<Step>, i: nat)
    requires i < |ts|
    ensures multiset(Without(ts, i)) == multiset(ts) - multiset{ts[i]}
    ensures Distinct(ts) ==> Distinct(Without(ts, i))
  {
    assert ts == ts[..i] + [ts[i]] + ts[i + 1..];
  }

  /** Where the last step of us stands in ts; nothing after it there conflicts with it. */
  lemma FindLast(ts: seq<Step>, us: seq<Step>) returns (i: nat)
    requires Reorders(ts, us) && us != []
    ensures i < |ts| && ts[i] == us[|us| - 1]
    ensures ConflictsWithNone(ts[i].cmd, Commands(ts[i + 1..]))
  {
    var n := |us| - 1;
    SameMembers(ts, us);
    assert us[n] in ts;
    i :| 0 <= i < |ts| && ts[i] == us[n];
    forall j | i < j < |ts|
      ensures !Conflict(ts[i].cmd, ts[j].cmd)
    {
      assert ts[j] in us;
      var q :| 0 <= q < |us| && us[q] == ts[j];
      assert Precedes(us, ts[i], ts[j]) ==> n < q;
    }
  }

  /** Taking the same step out of both keeps a reordering. */
  lemma DropLast(ts: seq<Step>, us: seq<Step>, i: nat)
    requires Reorders(ts, us) && us != [] && i < |ts| && ts[i] == us[|us| - 1]
    ensures Reorders(Without(ts, i), us[..|us| - 1])
  {
    var n, rest := |us| - 1, Without(ts, i);
    RemoveOne(ts, i);
    RemoveOne(us, n);
    assert Without(us, n) == us[..n];
    forall a, b | 0 <= a < b < |rest| && Conflict(rest[a].cmd, rest[b].cmd)
      ensures Precedes(us[..n], rest[a], rest[b])
    {
      var a', b' := if a < i then a else a + 1, if b < i then b else b + 1;
      assert rest[a] == ts[a'] && rest[b] == ts[b'];
      assert Precedes(us, ts[a'], ts[b']);
    }
  }

  /** Every step returns the same value in both sequences. */
  ghost predicate SameReturns(d: Db, ts: seq<Step>, us: seq<Step>) {
    forall p, q :: 0 <= p < |us| && 0 <= q < |ts| && us[p] == ts[q] ==>
      Returned(d, Commands(us), p) == Returned(d, Commands(ts), q)
  }

  lemma AddLast(d: Db, ts: seq<Step>, us: seq<Step>, i: nat)
    requires Distinct(us) && us != [] && i < |ts| && ts[i] == us[|us| - 1] && Distinct(ts)
    requires ConflictsWithNone(ts[i].cmd, Commands(ts[i + 1..]))
    requires var n := |us| - 1;
             && SameReturns(d, Without(ts, i), us[..n])
             && Replay(d, Commands(Without(ts, i))) == Replay(d, Commands(us[..n]))
    ensures SameReturns(d, ts, us)
    ensures Replay(d, Commands(ts)) == Replay(d, Commands(us))
  {
    var n, rest := |us| - 1, Without(ts, i);
    MoveToEnd(d, ts, i);
    assert Commands(us)[..n] == Commands(us[..n]);
    forall p, q | 0 <= p < |us| && 0 <= q < |ts| && us[p] == ts[q]
      ensures Returned(d, Commands(us), p) == Returned(d, Commands(ts), q)
    {
      if p < n {
        var q' := if q < i then q else q - 1;
        assert us[p] != us[n];
        assert rest[q'] == ts[q] == us[..n][p];
        assert Commands(us)[..p] == Commands(us[..n])[..p];
        MoveReturns(d, ts, i, q);
        assert Returned(d, Commands(us[..n]), p) == Returned(d, Commands(rest), q');
      } else {
        assert q == i;
      }
    }
  }

  /**
   Any reordering that keeps the relative order of every conflicting pair ends in the same state,
   and every command returns the same value.
   */
  lemma {:induction false} ReorderingIsInvisible(d: Db, ts: seq<Step>, us: seq<Step>)
    requires Reorders(ts, us)
    ensures Replay(d, Commands(ts)) == Replay(d, Commands(us))
    ensures SameReturns(d, ts, us)
    decreases |us|
  {
    if us == [] {
      SameMembers(ts, us);
    } else {
      var i := FindLast(ts, us);
      DropLast(ts, us, i);
      ReorderingIsInvisible(d, Without(ts, i), us[..|us| - 1]);
      AddLast(d, ts, us, i);
    }
  }
}
