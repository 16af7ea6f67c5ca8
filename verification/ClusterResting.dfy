/**
 Between its handlers a replica rests. When it can rest on a slot that exec would ask votes for is settled here
 exactly: acknowledgements of that slot that no longer make a majority do not call exec.
 */
module ClusterResting {
  import opened Ids
  import opened Quorums
  import opened Cardinality
  import opened Sequences
  import opened Replicas
  import opened ReplicaSteps
  import opened ReplicaInvariant
  import opened ReplicaVoting
  import opened ReplicaUnvoted
  import opened Cluster
  import opened ClusterRuns
  import opened ClusterSafety
  import opened ClusterAsking

  // ---------- What rests at the frontier ----------

  /** A slot at the frontier that is committed and not voted for is short of a majority. */
  ghost predicate Settled(s: State) {
    s.execute in s.log && s.log[s.execute].commit && !s.log[s.execute].voted ==>
      s.log[s.execute].quorum.size < s.cfg.N() / 2
  }

  lemma ExecSettles(s: State)
    requires s.cfg.N() >= 2
    ensures Settled(Exec(s)) && Exec(s).cfg == s.cfg
  {
    ExecRuns(s);
  }

  lemma {:induction false} SweepSettles(s: State, order: seq<int>)
    requires s.cfg.N() >= 2 && Settled(s)
    ensures Settled(Sweep(s, order))
    decreases |order|
  {
    if order != [] {
      if order[0] in s.log {
        ExecSettles(MarkOne(s, order[0]));
        SweepSettles(SweepOne(s, order[0]), order[1..]);
      } else {
        SweepSettles(s, order[1..]);
      }
    }
  }

  lemma ProposeSettles(s: State, m: Message, order: seq<int>)
    requires s.cfg.N() >= 2 && Settled(s) && m.Propose?
    ensures Settled(HandlePropose(s, m, order))
  {
    MarkedKept(s, m);
    assert Settled(Accept(s, m));
    assert Settled(BeforeSweep(s, m));
    SweepSettles(BeforeSweep(s, m), order);
  }

  lemma {:induction false} VotesSettle(s: State, l: map<int, CommandBallot>, order: seq<int>)
    requires s.cfg.N() >= 2 && Settled(s)
    ensures var t := HandleVote(s, l, order); Settled(t) && t.cfg == s.cfg
    decreases |order|
  {
    if order != [] {
      var n := |order| - 1;
      VotesSettle(s, l, order[..n]);
      if order[n] in l {
        var t := HandleVote(s, l, order[..n]);
        ExecSettles(Committed(t, order[n], l[order[n]]));
      }
    }
  }

  lemma {:induction false} RunSettles(cfg: Config, run: seq<Action>, id: ID)
    requires IsRun(cfg, run) && id in After(cfg, run).replicas
    ensures Settled(After(cfg, run).replicas[id])
    decreases |run|
  {
    if run != [] {
      LastStep(cfg, run);
      var front, last := run[..|run| - 1], run[|run| - 1];
      OneStep(After(cfg, front), last);
      RunSettles(cfg, front, id);
      if id == last.to && !last.Ask? {
        NoLonelyDelivery(cfg, front, last);
        RunGood(cfg, front, id);
        if last.DeliverPropose? {
          ProposeSettles(After(cfg, front).replicas[id], last.m, last.order);
        } else {
          VotesSettle(After(cfg, front).replicas[id], last.m.l, last.order);
        }
      }
    }
  }

  // ---------- A run that comes to rest there ----------

  /**
   Slot 0 is stuck: committed, not voted for. Of the slots listed, itself included, those of done have the
   acknowledgements of more, the others those of some.
   */
  ghost predicate Stuck(s: State, cfg: Config, slots: set<int>, done: set<int>, more: set<ID>, some: set<ID>) {
    && s.cfg == cfg && s.execute == 0 && 0 in slots
    && (forall i :: i in slots ==>
          && i in s.log
          && var ids := if i in done then more else some;
             s.log[i].quorum.acks == ids && s.log[i].quorum.size == |ids|)
    && s.log[0].commit && !s.log[0].voted
  }

  lemma {:induction false} OthersCounted(s: State, cfg: Config, some: set<ID>, l: map<int, CommandBallot>,
                                         order: seq<int>)
    requires Late(s, cfg, some, {}) && 0 !in order && 1 !in order
    ensures Late(HandleVote(s, l, order), cfg, some, {})
    decreases |order|
  {
    if order != [] {
      var n := |order| - 1;
      OthersCounted(s, cfg, some, l, order[..n]);
      if order[n] in l {
        LateOther(HandleVote(s, l, order[..n]), cfg, some, {}, order[n], l[order[n]]);
      }
    }
  }

  /** The vote that makes a majority for slot 0, when that slot comes up last. */
  lemma VoteSticks(s: State, cfg: Config, some: set<ID>, v: ID, m: Message, slots: set<int>)
    returns (order: seq<int>)
    requires Late(s, cfg, some, {}) && v !in some && |some| + 1 >= cfg.N() / 2 > cfg.total
    requires IsVote(m, v, slots) && 0 in slots && 1 !in slots
    ensures VoteOrder(m.l, order) && Stuck(HandleVote(s, m.l, order), cfg, {0}, {}, {}, {})
  {
    var rest;
    order, rest := ZeroLast(slots);
    OrderOk(m, v, slots, order);
    OthersCounted(s, cfg, some, m.l, rest);
    DecisionSticks(HandleVote(s, m.l, rest), cfg, some, m.l[0]);
  }

  lemma ZeroLast(slots: set<int>) returns (order: seq<int>, rest: seq<int>)
    requires 0 in slots && 1 !in slots
    ensures Distinct(order) && Elems(order) == slots && |order| == |slots|
    ensures |order| == |rest| + 1 && order[..|rest|] == rest && order[|rest|] == 0 && 0 !in rest && 1 !in rest
  {
    rest := Enumerate(slots - {0});
    assert forall i :: 0 <= i < |rest| ==> rest[i] in Elems(rest);
    order := rest + [0];
    assert Elems(order) == Elems(rest) + {0};
  }

  lemma DecisionSticks(t: State, cfg: Config, some: set<ID>, cb: CommandBallot)
    requires Late(t, cfg, some, {}) && cb.id !in some && |some| + 1 >= cfg.N() / 2 > cfg.total
    ensures Stuck(VoteOne(t, 0, cb), cfg, {0}, {}, {}, {})
  {
    Decides(t, cfg, some, {}, cb);
    assert Unvoted(Committed(t, 0, cb));
  }

  /** x is asked again for these slots, which makes new entries for them. */
  lemma {:induction false} AskAgain(cfg: Config, run: seq<Action>, x: ID, slots: set<int>, wanted: set<int>)
    returns (more: seq<Action>)
    requires IsRun(cfg, run) && x in After(cfg, run).replicas && 0 !in wanted
    requires Stuck(After(cfg, run).replicas[x], cfg, slots, {}, {}, {})
    ensures IsRun(cfg, more) && Onward(After(cfg, run), After(cfg, more), {x})
    ensures Stuck(After(cfg, more).replicas[x], cfg, slots + wanted, {}, {}, {})
    decreases |wanted|
  {
    if |wanted| == 0 {
      more := run;
    } else {
      var i := Any(wanted);
      MoveOver(slots, wanted, i, slots + wanted);
      var one := AskOneAgain(cfg, run, x, slots, i);
      more := AskAgain(cfg, one, x, slots + {i}, wanted - {i});
      OnwardTwice(After(cfg, run), After(cfg, one), After(cfg, more), {x}, {x}, {x});
    }
  }

  lemma AskOneAgain(cfg: Config, run: seq<Action>, x: ID, slots: set<int>, i: int) returns (more: seq<Action>)
    requires IsRun(cfg, run) && x in After(cfg, run).replicas && i != 0
    requires Stuck(After(cfg, run).replicas[x], cfg, slots, {}, {}, {})
    ensures IsRun(cfg, more) && Onward(After(cfg, run), After(cfg, more), {x})
    ensures Stuck(After(cfg, more).replicas[x], cfg, slots + {i}, {}, {}, {})
  {
    StuckAsked(After(cfg, run).replicas[x], cfg, slots, i);
    more := run + [Ask(x, Plain(i))];
    Extend(cfg, run, Ask(x, Plain(i)));
  }

  lemma StuckAsked(s: State, cfg: Config, slots: set<int>, i: int)
    requires Stuck(s, cfg, slots, {}, {}, {}) && i != 0
    ensures Stuck(HandleRequest(s, Plain(i)), cfg, slots + {i}, {}, {}, {})
    ensures s.sent <= HandleRequest(s, Plain(i)).sent
  {}

  lemma StuckOne(s: State, cfg: Config, slots: set<int>, done: set<int>, some: set<ID>, k: int, cb: CommandBallot)
    requires cb.id !in some && |some| + 1 < cfg.N() / 2 && k in slots && k !in done
    requires Stuck(s, cfg, slots, done, some + {cb.id}, some)
    ensures Stuck(VoteOne(s, k, cb), cfg, slots, done + {k}, some + {cb.id}, some)
  {
    assert VoteOne(s, k, cb) == s.(log := s.log[k := Acknowledged(s, k, cb)]);
  }

  lemma {:induction false} StuckSome(s: State, cfg: Config, slots: set<int>, some: set<ID>, v: ID, m: Message,
                                     order: seq<int>, n: nat)
    requires v !in some && |some| + 1 < cfg.N() / 2 && IsVote(m, v, slots)
    requires Distinct(order) && Elems(order) <= slots && n <= |order|
    requires Stuck(s, cfg, slots, {}, some + {v}, some)
    ensures Stuck(HandleVote(s, m.l, order[..n]), cfg, slots, Elems(order[..n]), some + {v}, some)
  {
    if n > 0 {
      StuckSome(s, cfg, slots, some, v, m, order, n - 1);
      var k := order[n - 1];
      FrontOf(order, n);
      assert k in Elems(order);
      StuckOne(HandleVote(s, m.l, order[..n - 1]), cfg, slots, Elems(order[..n - 1]), some, k, m.l[k]);
    }
  }

  /** A vote short of a majority is acknowledged in every slot, and slot 0 stays stuck. */
  lemma StuckVote(s: State, cfg: Config, slots: set<int>, some: set<ID>, v: ID, m: Message)
    returns (order: seq<int>)
    requires v !in some && |some| + 1 < cfg.N() / 2 && IsVote(m, v, slots) && Stuck(s, cfg, slots, {}, {}, some)
    ensures VoteOrder(m.l, order) && Stuck(HandleVote(s, m.l, order), cfg, slots, {}, {}, some + {v})
  {
    order := Enumerate(slots);
    assert order[..|order|] == order;
    OrderOk(m, v, slots, order);
    assert Stuck(s, cfg, slots, {}, some + {v}, some);
    StuckSome(s, cfg, slots, some, v, m, order, |order|);
    assert Stuck(HandleVote(s, m.l, order), cfg, slots, slots, some + {v}, some);
  }

  /** Deliver votes to x until every acknowledgement that exec asks for is there. */
  lemma {:induction false} VotesPile(cfg: Config, run: seq<Action>, x: ID, slots: set<int>, voters: set<ID>,
                                     some: set<ID>) returns (more: seq<Action>)
    requires IsRun(cfg, run) && x in After(cfg, run).replicas && x !in voters && some <= voters
    requires cfg.total < cfg.N() / 2 == |voters| && |some| < cfg.N() / 2
    requires AllVoted(After(cfg, run), voters, slots) && Stuck(After(cfg, run).replicas[x], cfg, slots, {}, {}, some)
    ensures IsRun(cfg, more) && x in After(cfg, more).replicas && Unvoted(After(cfg, more).replicas[x])
    decreases cfg.total - |some|
  {
    if |some| >= cfg.total {
      more := run;
    } else {
      var v := NextVoter(voters, some);
      var m := VoteToward(After(cfg, run), x, v, slots);
      var order := StuckVote(After(cfg, run).replicas[x], cfg, slots, some, v, m);
      var one := DeliverTo(cfg, run, x, v, slots, m, order);
      StillVoted(After(cfg, run), After(cfg, one), {x}, voters, slots);
      more := VotesPile(cfg, one, x, slots, voters, some + {v});
    }
  }

  /** A majority for slot 0, which exec asks votes for, and x is asked again for all the other slots. */
  lemma Sticks(cfg: Config, x: ID, voters: set<ID>) returns (run: seq<Action>)
    requires x in cfg.ids && cfg.N() >= 2 && cfg.total < cfg.N() / 2 == |voters| && voters <= cfg.ids - {x}
    ensures IsRun(cfg, run) && x in After(cfg, run).replicas
    ensures AllVoted(After(cfg, run), voters, {0} + Filler(cfg))
    ensures Stuck(After(cfg, run).replicas[x], cfg, {0} + Filler(cfg), {}, {}, {})
  {
    FillerHolds(cfg, 0);
    FillerHolds(cfg, 1);
    var z := {0} + Filler(cfg);
    var one := Prepare(cfg, x);
    var two := AskAndVote(cfg, one, x, {}, z);
    assert Late(After(cfg, two).replicas[x], cfg, {}, {});
    VotersAmong(After(cfg, two), Others(cfg, x), voters, z);
    var three, some, v := LateVotes(cfg, two, x, z, {}, voters, {});
    StillVoted(After(cfg, two), After(cfg, three), {x}, voters, z);
    var four := StickingVote(cfg, three, x, z, some, v);
    StillVoted(After(cfg, three), After(cfg, four), {x}, voters, z);
    run := AskAgain(cfg, four, x, {0}, Filler(cfg));
    StillVoted(After(cfg, four), After(cfg, run), {x}, voters, z);
  }

  lemma StickingVote(cfg: Config, run: seq<Action>, x: ID, slots: set<int>, some: set<ID>, v: ID)
    returns (more: seq<Action>)
    requires IsRun(cfg, run) && x in After(cfg, run).replicas && v in After(cfg, run).replicas && v != x && v !in some
    requires HasVote(After(cfg, run).replicas[v], v, slots) && 0 in slots && 1 !in slots
    requires Late(After(cfg, run).replicas[x], cfg, some, {}) && |some| + 1 >= cfg.N() / 2 > cfg.total
    ensures IsRun(cfg, more) && Onward(After(cfg, run), After(cfg, more), {x})
    ensures Stuck(After(cfg, more).replicas[x], cfg, {0}, {}, {}, {})
  {
    var m := VoteToward(After(cfg, run), x, v, slots);
    var order := VoteSticks(After(cfg, run).replicas[x], cfg, some, v, m, slots);
    more := DeliverTo(cfg, run, x, v, slots, m, order);
  }

  // ---------- The exact condition ----------

  ghost predicate RestsUnvoted(cfg: Config, run: seq<Action>, id: ID) {
    IsRun(cfg, run) && id in After(cfg, run).replicas && Unvoted(After(cfg, run).replicas[id])
  }

  lemma RestingNeeds(cfg: Config, run: seq<Action>, id: ID)
    requires RestsUnvoted(cfg, run, id)
    ensures cfg.N() >= 2 && cfg.total < cfg.N() / 2
  {
    RunGood(cfg, run, id);
    RunSettles(cfg, run, id);
  }

  /**
   Some run leaves a replica with a slot that exec would ask votes for exactly in clusters of two or more replicas
   with a batch size below half of their number.
   */
  lemma RestingExactly(cfg: Config)
    ensures (exists run, id :: RestsUnvoted(cfg, run, id)) <==> cfg.N() >= 2 && cfg.total < cfg.N() / 2
  {
    if cfg.N() >= 2 && cfg.total < cfg.N() / 2 {
      var x := Any(cfg.ids);
      var voters := Enough(cfg, x);
      var run := Sticks(cfg, x, voters);
      run := VotesPile(cfg, run, x, {0} + Filler(cfg), voters, {});
      assert RestsUnvoted(cfg, run, x);
    } else if run, id :| RestsUnvoted(cfg, run, id) {
      RestingNeeds(cfg, run, id);
    }
  }
}
