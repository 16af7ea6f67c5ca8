/** What every handler does to a single replica: exec in closed form, and what only ever grows. */
module ReplicaSteps {
  import opened Databases
  import opened Quorums
  import opened Cardinality
  import opened Ids
  import opened Replicas

  // ---------- exec ----------

  predicate ReadyAt(s: State, k: int) {
    k in s.log && s.log[k].commit && (s.log[k].voted || s.log[k].quorum.size < s.cfg.total)
  }

  /** How many slots exec runs. */
  function RunLength(s: State): nat
    decreases |s.log|
  {
    if Ready(s) then
      RemoveKeySize(s.log, s.execute);
      1 + RunLength(ExecuteOne(s))
    else 0
  }

  /** The slots exec runs are exactly the longest contiguous run of ready slots from the frontier. */
  lemma {:induction false} RunIsLongest(s: State)
    ensures forall j :: s.execute <= j < s.execute + RunLength(s) ==> ReadyAt(s, j)
    ensures !ReadyAt(s, s.execute + RunLength(s))
    decreases |s.log|
  {
    if Ready(s) {
      RemoveKeySize(s.log, s.execute);
      var t := ExecuteOne(s);
      RunIsLongest(t);
      forall j | s.execute <= j < s.execute + RunLength(s)
        ensures ReadyAt(s, j)
      {
        assert j != s.execute ==> ReadyAt(t, j);
      }
    }
  }

  predicate Within(s: State, j: int, k: nat) { s.execute <= j < s.execute + k }

  /** Executing k slots from the frontier: commands in slot order, applied to the database, slots forgotten. */
  ghost predicate Ran(s: State, t: State, k: nat) {
    && t.execute == s.execute + k
    && |t.executed| == |s.executed| + k && s.executed <= t.executed
    && (forall j :: s.execute <= j < s.execute + k ==>
          j in s.log && t.executed[|s.executed| + j - s.execute] == s.log[j].command)
    && t.db == Replay(s.db, t.executed[|s.executed|..])
    && (forall j :: j in t.l <==> j in s.l && !Within(s, j, k))
    && (forall j :: j in t.l ==> t.l[j] == s.l[j])
  }

  /** What is left of the log, and the vote request when the slot that stopped exec is committed. */
  ghost predicate Stopped(s: State, t: State, k: nat) {
    var stuck := s.execute + k;
    && (forall j :: j in t.log <==> j in s.log && !Within(s, j, k))
    && (forall j :: j in t.log ==>
          t.log[j] == if j == stuck && s.log[j].commit then s.log[j].(quorum := NoVotes) else s.log[j])
    && t.sent == s.sent + (if stuck in s.log && s.log[stuck].commit then [Vote(stuck, s.id, t.l)] else [])
    && t.cfg == s.cfg && t.id == s.id && t.ballot == s.ballot
    && t.slot == s.slot && t.count == s.count && t.flag2 == s.flag2
  }

  /** exec executes those slots and nothing else. */
  lemma {:induction false} ExecRuns(s: State)
    ensures Ran(s, Exec(s), RunLength(s)) && Stopped(s, Exec(s), RunLength(s))
    decreases |s.log|
  {
    if Ready(s) {
      RemoveKeySize(s.log, s.execute);
      ExecRuns(ExecuteOne(s));
      RanOneMore(s, Exec(s), RunLength(s));
      StoppedOneMore(s, Exec(s), RunLength(s));
    }
  }

  lemma RanCommands(s: State, t: State, k: nat)
    requires Ready(s) && k > 0 && Ran(ExecuteOne(s), t, k - 1)
    ensures |t.executed| == |s.executed| + k && s.executed <= t.executed
    ensures forall j :: s.execute <= j < s.execute + k ==>
              j in s.log && t.executed[|s.executed| + j - s.execute] == s.log[j].command
  {
    var u := ExecuteOne(s);
    forall j | s.execute <= j < s.execute + k
      ensures j in s.log && t.executed[|s.executed| + j - s.execute] == s.log[j].command
    {
      if j != s.execute {
        assert j in u.log && u.log[j] == s.log[j];
      }
    }
  }

  lemma RanDatabase(s: State, t: State, k: nat)
    requires Ready(s) && k > 0 && Ran(ExecuteOne(s), t, k - 1)
    ensures |s.executed| <= |t.executed| && t.db == Replay(s.db, t.executed[|s.executed|..])
  {
    var u, c := ExecuteOne(s), s.log[s.execute].command;
    var more := t.executed[|u.executed|..];
    assert t.executed[|s.executed|..] == [c] + more;
    assert Replay(s.db, [c]) == s.db.Execute(c);
    ReplaySplit(s.db, [c], more);
  }

  lemma RanOneMore(s: State, t: State, k: nat)
    requires Ready(s) && k > 0 && Ran(ExecuteOne(s), t, k - 1)
    ensures Ran(s, t, k)
  {
    RanCommands(s, t, k);
    RanDatabase(s, t, k);
    var u := ExecuteOne(s);
    assert forall j :: Within(s, j, k) <==> j == s.execute || Within(u, j, k - 1);
  }

  lemma StoppedOneMore(s: State, t: State, k: nat)
    requires Ready(s) && k > 0 && Stopped(ExecuteOne(s), t, k - 1)
    ensures Stopped(s, t, k)
  {
    var u := ExecuteOne(s);
    assert forall j :: Within(s, j, k) <==> j == s.execute || Within(u, j, k - 1);
    assert forall j :: j in u.log <==> j in s.log && j != s.execute;
  }

  /** exec sends something only when the slot that stopped it is committed and not voted for. */
  lemma AskedFor(s: State)
    requires Exec(s).sent != s.sent
    ensures var t := Exec(s);
            && t.execute in t.log && t.log[t.execute].commit && !t.log[t.execute].voted
            && t.log[t.execute].quorum == NoVotes && t.cfg == s.cfg
  {
    ExecRuns(s);
    RunIsLongest(s);
    assert Exec(s).execute == s.execute + RunLength(s);
  }

  lemma ReadyRuns(s: State)
    ensures Exec(s).execute > s.execute <==> Ready(s)
  {
    ExecRuns(s);
    assert RunLength(s) > 0 <==> Ready(s);
  }

  /**
   Whenever exec asks for votes it empties the quorum, so the next exec runs the slot although the replica has still
   not voted, unless the batch size is zero or less: then no quorum is ever small enough.
   */
  lemma AskingOnce(s: State)
    requires Exec(s).sent != s.sent
    ensures var t := Exec(s);
            && t.execute in t.log && !t.log[t.execute].voted
            && (Exec(t).execute > t.execute <==> s.cfg.total > 0)
  {
    AskedFor(s);
    ReadyRuns(Exec(s));
  }

  // ---------- HandleVote ----------

  /** An order of the votes comes to every slot that they list, and to each once. */
  lemma VoteOrderMeans(l: map<int, CommandBallot>, order: seq<int>)
    requires VoteOrder(l, order)
    ensures forall k :: k in l <==> k in order
    ensures |order| == |l.Keys|
  {
    var came := set k | k in order;
    assert |l| == |l.Keys|;
    DistinctCount(order);
    SubsetSize(came, l.Keys);
  }

  lemma {:induction false} DistinctCount(order: seq<int>)
    requires forall i, j :: 0 <= i < j < |order| ==> order[i] != order[j]
    ensures |set k | k in order| == |order|
  {
    if order != [] {
      var n := |order| - 1;
      DistinctCount(order[..n]);
      assert (set k | k in order) == (set k | k in order[..n]) + {order[n]};
    }
  }

  /**
   The slot has been executed, or the acknowledgement of id stands, and a majority has committed it; only asking
   for votes, on a committed slot not voted for, takes acknowledgements back.
   */
  ghost predicate Heeds(s: State, k: int, id: ID) {
    k < s.execute
    || (&& k in s.log
        && (s.log[k].quorum.Majority(s.cfg) ==> s.log[k].commit)
        && (id in s.log[k].quorum.acks || (s.log[k].commit && !s.log[k].voted)))
  }

  lemma ExecHeeds(s: State, k: int, id: ID)
    requires Heeds(s, k, id)
    ensures Heeds(Exec(s), k, id)
  {
    ExecRuns(s);
    if Exec(s).execute <= k {
      assert !Within(s, k, RunLength(s));
      StuckUnvoted(s, k);
    }
  }

  lemma StuckUnvoted(s: State, k: int)
    requires k in Exec(s).log && k in s.log
    ensures Exec(s).log[k] == s.log[k] || (s.log[k].commit && !s.log[k].voted)
    ensures Exec(s).log[k] == s.log[k].(quorum := Exec(s).log[k].quorum)
  {
    ExecRuns(s);
    RunIsLongest(s);
  }

  lemma VoteHeeds(s: State, k: int, cb: CommandBallot)
    ensures Heeds(VoteOne(s, k, cb), k, cb.id)
    ensures forall j, id :: Heeds(s, j, id) ==> Heeds(VoteOne(s, k, cb), j, id)
  {
    var u := Committed(s, k, cb);
    if k in s.log || s.execute <= k {
      forall j, id | Heeds(s, j, id) || (j == k && id == cb.id)
        ensures Heeds(VoteOne(s, k, cb), j, id)
      {
        if Acknowledged(s, k, cb).quorum.Majority(s.cfg) {
          assert Heeds(u, j, id);
          ExecHeeds(u, j, id);
        }
      }
    }
  }

  lemma {:induction false} SomeHeeded(s: State, l: map<int, CommandBallot>, order: seq<int>)
    ensures forall k :: k in order && k in l ==> Heeds(HandleVote(s, l, order), k, l[k].id)
    decreases |order|
  {
    if order != [] {
      var n := |order| - 1;
      SomeHeeded(s, l, order[..n]);
      if order[n] in l {
        VoteHeeds(HandleVote(s, l, order[..n]), order[n], l[order[n]]);
      }
      assert forall k :: k in order ==> k in order[..n] || k == order[n];
    }
  }

  /** Every slot that a vote lists is heeded, whatever the order. */
  lemma VotesHeeded(s: State, l: map<int, CommandBallot>, order: seq<int>)
    requires VoteOrder(l, order)
    ensures forall k :: k in l ==> Heeds(HandleVote(s, l, order), k, l[k].id)
  {
    VoteOrderMeans(l, order);
    SomeHeeded(s, l, order);
  }
}
