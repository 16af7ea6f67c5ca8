/**
 A replica can execute a slot that it has neither proposed nor voted for. Which clusters and clients have runs
 in which one does is settled here exactly.
 */
module ClusterSkipping {
  import opened Ids
  import opened Databases
  import opened Quorums
  import opened Cardinality
  import opened Replicas
  import opened ReplicaInvariant
  import opened ReplicaVoting
  import opened ReplicaSkipping
  import opened Cluster
  import opened ClusterRuns
  import opened ClusterSafety
  import opened ClusterAsking
  import opened ClusterDisagreement

  /** The replica has executed slot k, and has neither proposed nor voted for it. */
  ghost predicate Skipped(c: System, id: ID, k: nat) {
    && id in c.replicas && k < c.replicas[id].execute
    && k !in VotedSlots(c.replicas[id]) && !HasProposal(c.replicas[id], k)
  }

  ghost predicate SkippingRun(cfg: Config, vocabulary: iset<Command>, run: seq<Action>, id: ID, k: nat) {
    IsRun(cfg, run) && From(After(cfg, run), vocabulary) && Skipped(After(cfg, run), id, k)
  }

  /** There are commands for slot 0, for another slot, and for as many slots as a vote lists. */
  ghost predicate Spares(vocabulary: iset<Command>, slots: set<int>, total: int) {
    0 in slots && |slots| >= 2 && Fills(vocabulary, slots, total)
  }

  // ---------- The run ----------

  /** x has been asked for z only; all others have voted for the slots and have proposed z. */
  ghost predicate Staged(c: System, cfg: Config, x: ID, z: int, slots: set<int>, vocabulary: iset<Command>) {
    && c.replicas.Keys == cfg.ids && x in cfg.ids && From(c, vocabulary)
    && Behind(c.replicas[x], cfg, z, {}, {}) && Silent(c.replicas[x], 0)
    && AllVoted(c, Others(cfg, x), slots) && AllProposed(c, Others(cfg, x), z)
  }

  lemma AskFirst(cfg: Config, x: ID, plans: ID -> (int -> Command), z: int, vocabulary: iset<Command>)
    returns (run: seq<Action>)
    requires x in cfg.ids && cfg.N() >= 2 && z != 0 && Fits(plans(x), {z}, vocabulary)
    ensures IsRun(cfg, run) && From(After(cfg, run), vocabulary) && After(cfg, run).replicas.Keys == cfg.ids
    ensures AllOwn(After(cfg, run), cfg, plans, Others(cfg, x), {}, {})
    ensures var s := After(cfg, run).replicas[x]; Behind(s, cfg, z, {}, {}) && Silent(s, 0) && HasProposal(s, z)
  {
    StartsAllOwn(cfg, plans, vocabulary);
    var s := After(cfg, []).replicas[x];
    assert Own(s, cfg, x, plans(x), {}, {}) && s.sent == [];
    assert z in {z};
    AskedOwn(s, cfg, x, plans(x), {}, {}, z);
    assert {} + {z} == {z};
    OwnIsBehind(HandleRequest(s, plans(x)(z)), cfg, x, plans(x), z);
    SilentAsked(s, plans(x)(z), 0);
    run := [] + [Ask(x, plans(x)(z))];
    Extend(cfg, [], Ask(x, plans(x)(z)));
    OwnElsewhere(After(cfg, []), After(cfg, run), cfg, plans, {x}, Others(cfg, x), {}, {});
  }

  lemma Stage(cfg: Config, x: ID, plans: ID -> (int -> Command), z: int, slots: set<int>, vocabulary: iset<Command>)
    returns (run: seq<Action>)
    requires x in cfg.ids && cfg.N() >= 2 && z != 0 && z in slots && |slots| >= cfg.total
    requires AllFit(plans, cfg.ids, slots, vocabulary)
    ensures IsRun(cfg, run) && Staged(After(cfg, run), cfg, x, z, slots, vocabulary)
  {
    var one := AskFirst(cfg, x, plans, z, vocabulary);
    var two := AskOthersToo(cfg, one, x, plans, z, slots, vocabulary);
    run := VoteEach(cfg, two, Others(cfg, x), x, x, plans, slots, slots, z);
    ProposedOnward(After(cfg, two), After(cfg, run), Others(cfg, x), Others(cfg, x), z);
    SameRequests(After(cfg, two), After(cfg, run), vocabulary);
  }

  lemma AskOthersToo(cfg: Config, run: seq<Action>, x: ID, plans: ID -> (int -> Command), z: int, slots: set<int>,
                     vocabulary: iset<Command>) returns (more: seq<Action>)
    requires IsRun(cfg, run) && From(After(cfg, run), vocabulary) && x in After(cfg, run).replicas && z in slots
    requires AllFit(plans, cfg.ids, slots, vocabulary)
    requires AllOwn(After(cfg, run), cfg, plans, Others(cfg, x), {}, {}) && HasProposal(After(cfg, run).replicas[x], z)
    ensures IsRun(cfg, more) && From(After(cfg, more), vocabulary)
    ensures Onward(After(cfg, run), After(cfg, more), Others(cfg, x))
    ensures AllOwn(After(cfg, more), cfg, plans, Others(cfg, x), slots, slots)
    ensures AllProposed(After(cfg, more), Others(cfg, x), z) && AllProposed(After(cfg, more), {x, x}, z)
  {
    NothingPlus(slots);
    more := AskEach(cfg, run, Others(cfg, x), plans, {}, slots, slots, z, vocabulary);
    StillProposed(After(cfg, run), After(cfg, more), Others(cfg, x), x, z);
  }

  lemma BehindNext(cfg: Config, run: seq<Action>, x: ID, z: int, slots: set<int>, some: set<ID>, v: ID)
    returns (more: seq<Action>)
    requires IsRun(cfg, run) && x in After(cfg, run).replicas && v in After(cfg, run).replicas && x != v && v !in some
    requires HasVote(After(cfg, run).replicas[v], v, slots) && 0 in slots && z in slots && |some| + 1 < cfg.N() / 2
    requires Behind(After(cfg, run).replicas[x], cfg, z, some, some) && Silent(After(cfg, run).replicas[x], 0)
    ensures IsRun(cfg, more) && After(cfg, more).requests == After(cfg, run).requests
    ensures Onward(After(cfg, run), After(cfg, more), {x})
    ensures var t := After(cfg, more).replicas[x]; Behind(t, cfg, z, some + {v}, some + {v}) && Silent(t, 0)
  {
    var s := After(cfg, run).replicas[x];
    var m := VoteToward(After(cfg, run), x, v, slots);
    var order := BehindVote(s, cfg, z, some, v, m, slots);
    SilentVotes(s, m.l, order, 0);
    more := DeliverTo(cfg, run, x, v, slots, m, order);
  }

  lemma BehindLast(cfg: Config, run: seq<Action>, x: ID, z: int, slots: set<int>, some: set<ID>, v: ID)
    returns (more: seq<Action>)
    requires IsRun(cfg, run) && x in After(cfg, run).replicas && v in After(cfg, run).replicas && x != v && v !in some
    requires HasVote(After(cfg, run).replicas[v], v, slots) && 0 in slots && z in slots && |some| + 1 >= cfg.N() / 2
    requires Behind(After(cfg, run).replicas[x], cfg, z, some, some) && Silent(After(cfg, run).replicas[x], 0)
    ensures IsRun(cfg, more) && After(cfg, more).requests == After(cfg, run).requests
    ensures Onward(After(cfg, run), After(cfg, more), {x})
    ensures var t := After(cfg, more).replicas[x]; Bound(t) && Silent(t, 0) && (cfg.total > 0 ==> t.execute > 0)
  {
    var s := After(cfg, run).replicas[x];
    var m := VoteToward(After(cfg, run), x, v, slots);
    var order := FinalVote(s, cfg, z, some, v, m, slots);
    SilentVotes(s, m.l, order, 0);
    more := DeliverTo(cfg, run, x, v, slots, m, order);
  }

  /** Deliver votes to x until there is a majority for slot 0. */
  lemma {:induction false} BehindAll(cfg: Config, run: seq<Action>, x: ID, z: int, slots: set<int>,
                                     voters: set<ID>, some: set<ID>) returns (more: seq<Action>)
    requires IsRun(cfg, run) && x in After(cfg, run).replicas && x !in voters && 0 in slots && z in slots
    requires AllVoted(After(cfg, run), voters, slots)
    requires some <= voters && |some| < |voters| == cfg.N() / 2
    requires Behind(After(cfg, run).replicas[x], cfg, z, some, some) && Silent(After(cfg, run).replicas[x], 0)
    ensures IsRun(cfg, more) && After(cfg, more).requests == After(cfg, run).requests
    ensures Onward(After(cfg, run), After(cfg, more), {x})
    ensures var t := After(cfg, more).replicas[x]; Bound(t) && Silent(t, 0) && (cfg.total > 0 ==> t.execute > 0)
    decreases |voters| - |some|
  {
    var v := NextVoter(voters, some);
    if |some| + 1 >= cfg.N() / 2 {
      more := BehindLast(cfg, run, x, z, slots, some, v);
    } else {
      var one := BehindNext(cfg, run, x, z, slots, some, v);
      StillVoted(After(cfg, run), After(cfg, one), {x}, voters, slots);
      more := BehindAll(cfg, one, x, z, slots, voters, some + {v});
      OnwardTwice(After(cfg, run), After(cfg, one), After(cfg, more), {x}, {x}, {x});
    }
  }

  lemma SilentSkips(c: System, x: ID)
    requires x in c.replicas && Silent(c.replicas[x], 0) && c.replicas[x].execute > 0
    ensures Skipped(c, x, 0)
  {}

  /** With a batch size of zero or less a proposal for z is needed as well. */
  lemma RunLast(cfg: Config, run: seq<Action>, x: ID, y: ID, z: int) returns (more: seq<Action>)
    requires IsRun(cfg, run) && x in After(cfg, run).replicas && y in After(cfg, run).replicas && x != y && z != 0
    requires HasProposal(After(cfg, run).replicas[y], z)
    requires var s := After(cfg, run).replicas[x];
             Bound(s) && Silent(s, 0) && s.cfg == cfg && (cfg.total > 0 ==> s.execute > 0)
    ensures IsRun(cfg, more) && After(cfg, more).requests == After(cfg, run).requests
    ensures Skipped(After(cfg, more), x, 0)
  {
    var s := After(cfg, run).replicas[x];
    if s.execute > 0 {
      more := run;
    } else {
      var m := ProposalToward(After(cfg, run), x, y, z);
      var order := ProposalRuns(s, m);
      SilentPropose(s, m, order, 0);
      AppendStep(cfg, run, DeliverPropose(x, m, order));
      more := run + [DeliverPropose(x, m, order)];
    }
    SilentSkips(After(cfg, more), x);
  }

  lemma SomeRunSkips(cfg: Config, vocabulary: iset<Command>, slots: set<int>) returns (run: seq<Action>, x: ID)
    requires cfg.N() >= 2 && Spares(vocabulary, slots, cfg.total)
    ensures SkippingRun(cfg, vocabulary, run, x, 0)
  {
    var y;
    x, y := TwoOf(cfg.ids);
    assert |slots - {0}| == |slots| - 1;
    var z := Any(slots - {0});
    var c := CommandFor(vocabulary, 0);
    PlansFit(vocabulary, x, c, c, cfg.ids, slots);
    var one := Stage(cfg, x, Plans(vocabulary, x, c, c), z, slots, vocabulary);
    var two := Outvoted(cfg, one, x, y, z, slots, vocabulary);
    run := RunLast(cfg, two, x, y, z);
    SameRequests(After(cfg, two), After(cfg, run), vocabulary);
  }

  lemma Outvoted(cfg: Config, run: seq<Action>, x: ID, y: ID, z: int, slots: set<int>, vocabulary: iset<Command>)
    returns (more: seq<Action>)
    requires cfg.N() >= 2 && y in cfg.ids && x != y && 0 in slots && z in slots
    requires IsRun(cfg, run) && Staged(After(cfg, run), cfg, x, z, slots, vocabulary)
    ensures IsRun(cfg, more) && From(After(cfg, more), vocabulary)
    ensures x in After(cfg, more).replicas && y in After(cfg, more).replicas
    ensures HasProposal(After(cfg, more).replicas[y], z)
    ensures var t := After(cfg, more).replicas[x];
            Bound(t) && Silent(t, 0) && t.cfg == cfg && (cfg.total > 0 ==> t.execute > 0)
  {
    var voters := Enough(cfg, x);
    VotersAmong(After(cfg, run), Others(cfg, x), voters, slots);
    more := BehindAll(cfg, run, x, z, slots, voters, {});
    assert y in Others(cfg, x);
    StillProposed(After(cfg, run), After(cfg, more), {x}, y, z);
    SameRequests(After(cfg, run), After(cfg, more), vocabulary);
    RunGood(cfg, more, x);
  }

  // ---------- Commands for slot 0 only ----------

  /** Slot 0 has not been executed, and nothing else is known. */
  ghost predicate Hushed(s: State) {
    && s.l == map[] && s.execute == 0
    && forall k :: k in s.log ==> k == 0 && !s.log[k].voted
  }

  /** A replica that has neither proposed nor voted for slot 0 is in that state. */
  ghost predicate Idle(s: State) {
    0 in VotedSlots(s) || HasProposal(s, 0) || Hushed(s)
  }

  lemma IdleGrows(s: State, t: State)
    requires Idle(s) && s.sent <= t.sent && (Hushed(s) ==> Idle(t))
    ensures Idle(t)
  {
    assert forall m :: m in s.sent ==> m in t.sent;
  }

  /** exec at most asks for votes: one acknowledgement is never short of a batch. */
  lemma HushedVote(x: Context, s: State, cb: CommandBallot)
    requires Good(x, s) && Hushed(s) && x.cfg.total <= 1
    ensures Hushed(VoteOne(s, 0, cb))
  {
    AckCounts(if 0 in s.log then s.log[0].quorum else NoVotes, cb.id);
    assert cb.id in Acknowledged(s, 0, cb).quorum.acks;
    assert !Ready(Committed(s, 0, cb));
  }

  lemma {:induction false} HushedVotes(x: Context, s: State, l: map<int, CommandBallot>, order: seq<int>)
    requires Good(x, s) && Hushed(s) && x.cfg.total <= 1
    requires forall k :: k in l ==> k == 0 && x.Proposes(k, l[k].command) && l[k].id in x.Voters(k)
    ensures Hushed(HandleVote(s, l, order))
    decreases |order|
  {
    if order != [] {
      var n := |order| - 1;
      HushedVotes(x, s, l, order[..n]);
      GoodHandleVote(x, s, l, order[..n]);
      if order[n] in l {
        HushedVote(x, HandleVote(s, l, order[..n]), l[order[n]]);
      }
    }
  }

  lemma ProposalVoted(s: State, m: Message, order: seq<int>)
    requires m.Propose? && m.slot == 0 && s.cfg.total <= 1
    ensures 0 in VotedSlots(HandlePropose(s, m, order))
  {
    var b := Marked(s, m);
    MarkedKept(s, m);
    assert 0 in b.l.Keys && |b.l| == |b.l.Keys|;
    var v := BeforeSweep(s, m);
    assert v.sent[|b.sent|] == Vote(0, b.id, b.l);
    assert 0 in VotedSlots(v);
    SweepFurther(v, order);
    SentPrefix(v, Sweep(v, order));
  }

  ghost predicate ZeroOnly(c: System) { forall r :: r in c.requests ==> r.command.counter == 0 }

  lemma StepIdle(c: System, a: Action)
    requires Inv(c) && Enabled(c, a) && ZeroOnly(Apply(c, a)) && c.cfg.total <= 1 && Hushed(c.replicas[a.to])
    ensures Idle(Handle(c.replicas[a.to], a))
  {
    var x, s := ContextOf(c, a.to), c.replicas[a.to];
    OneStep(c, a);
    if a.Ask? {
      assert Request(a.to, a.command) in Apply(c, a).requests;
      AskedProposes(s, a.command);
    } else {
      DeliveredAcceptable(c, a);
      assert forall command :: command in x.asked ==> command.counter == 0;
      if a.DeliverPropose? {
        ProposalVoted(s, a.m, a.order);
      } else {
        HushedVotes(x, s, a.m.l, a.order);
      }
    }
  }

  lemma AskedProposes(s: State, command: Command)
    ensures HasProposal(HandleRequest(s, command), command.counter)
  {
    var t := HandleRequest(s, command);
    assert t.sent[|s.sent|].Propose? && t.sent[|s.sent|].slot == command.counter;
  }

  lemma StepSends(c: System, a: Action)
    requires Inv(c) && Enabled(c, a)
    ensures c.replicas[a.to].sent <= Handle(c.replicas[a.to], a).sent
  {
    if !a.Ask? {
      DeliveryGrows(c, a);
    }
  }

  lemma {:induction false} RunIdle(cfg: Config, run: seq<Action>, id: ID)
    requires IsRun(cfg, run) && ZeroOnly(After(cfg, run)) && cfg.total <= 1 && id in After(cfg, run).replicas
    ensures Idle(After(cfg, run).replicas[id])
    decreases |run|
  {
    if run != [] {
      LastStep(cfg, run);
      var front, last := run[..|run| - 1], run[|run| - 1];
      var c := After(cfg, front);
      OneStep(c, last);
      RunKeepsInv(cfg, front);
      RunIdle(cfg, front, id);
      if id == last.to {
        StepSends(c, last);
        if Hushed(c.replicas[id]) {
          StepIdle(c, last);
        }
        IdleGrows(c.replicas[id], After(cfg, run).replicas[id]);
      }
    }
  }

  // ---------- The exact condition ----------

  lemma SkippedSlots(cfg: Config, vocabulary: iset<Command>, run: seq<Action>, id: ID, k: nat)
    requires SkippingRun(cfg, vocabulary, run, id, k)
    ensures HasSlot(vocabulary, 0) && HasSlot(vocabulary, k) && After(cfg, run).replicas[id].executed != []
  {
    RunGood(cfg, run, id);
    ExecutedFrom(cfg, vocabulary, run, id);
  }

  lemma OneSpare(vocabulary: iset<Command>, slots: set<int>, total: int, z: int)
    requires Fills(vocabulary, slots, total) && HasSlot(vocabulary, 0) && HasSlot(vocabulary, z) && z != 0
    ensures Spares(vocabulary, slots + {0, z}, total)
  {
    TwoMembers(slots + {0, z}, 0, z);
    SubsetSize(slots, slots + {0, z});
  }

  lemma NothingSpare(cfg: Config, vocabulary: iset<Command>, run: seq<Action>, id: ID, k: nat, slots: set<int>)
    requires SkippingRun(cfg, vocabulary, run, id, k) && Fills(vocabulary, slots, cfg.total)
    ensures exists z :: z != 0 && HasSlot(vocabulary, z)
  {
    if forall z :: HasSlot(vocabulary, z) ==> z == 0 {
      forall i | i in slots ensures i == 0 {
        assert HasSlot(vocabulary, i);
      }
      SubsetSize(slots, {0});
      var s := After(cfg, run).replicas[id];
      forall r | r in After(cfg, run).requests ensures r.command.counter == 0 {
        assert HasSlot(vocabulary, r.command.counter);
      }
      SkippedSlots(cfg, vocabulary, run, id, k);
      RunIdle(cfg, run, id);
      assert false;
    }
  }

  lemma SkippingNeeds(cfg: Config, vocabulary: iset<Command>, run: seq<Action>, id: ID, k: nat)
    requires SkippingRun(cfg, vocabulary, run, id, k)
    ensures cfg.N() >= 2 && exists slots :: Spares(vocabulary, slots, cfg.total)
  {
    if cfg.N() < 2 {
      LonelyNeverRuns(cfg, run, id);
      assert false;
    }
    SkippedSlots(cfg, vocabulary, run, id, k);
    if slots :| Fills(vocabulary, slots, cfg.total) {
      NothingSpare(cfg, vocabulary, run, id, k, slots);
      var z :| z != 0 && HasSlot(vocabulary, z);
      OneSpare(vocabulary, slots, cfg.total, z);
    } else {
      NothingRuns(cfg, vocabulary, run, id);
      assert false;
    }
  }

  /**
   For every cluster, every batch size and every set of commands that clients may ask for: some run makes a
   replica execute a slot that it has neither proposed nor voted for, exactly when there are two replicas or
   more and commands for slot 0, for another slot, and for as many slots as a vote lists.
   */
  lemma SkippingExactly(cfg: Config, vocabulary: iset<Command>)
    ensures (exists run, id, k :: SkippingRun(cfg, vocabulary, run, id, k))
       <==> cfg.N() >= 2 && exists slots :: Spares(vocabulary, slots, cfg.total)
  {
    if cfg.N() >= 2 && exists slots :: Spares(vocabulary, slots, cfg.total) {
      var slots :| Spares(vocabulary, slots, cfg.total);
      var run, x := SomeRunSkips(cfg, vocabulary, slots);
    } else if run, id, k :| SkippingRun(cfg, vocabulary, run, id, k) {
      SkippingNeeds(cfg, vocabulary, run, id, k);
    }
  }
}
