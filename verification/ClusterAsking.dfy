/**
 exec asks for votes before it runs a slot that the replica has not voted for, when every acknowledgement it
 counts on is there: which clusters have runs that come to this.
 */
module ClusterAsking {
  import opened Ids
  import opened Databases
  import opened Quorums
  import opened Cardinality
  import opened Replicas
  import opened ReplicaInvariant
  import opened ReplicaUnvoted
  import opened ReplicaVoting
  import opened Cluster
  import opened ClusterRuns
  import opened ClusterSafety

  /**
   exec, called by the handler of the action, asks for votes: what HandleVote broadcasts, and what HandlePropose
   broadcasts after its own vote, comes from there.
   */
  ghost predicate Asks(s: State, a: Action) {
    match a
    case Ask(_, _) => false
    case DeliverPropose(_, m, order) => m.Propose? && HandlePropose(s, m, order).sent != BeforeSweep(s, m).sent
    case DeliverVote(_, m, order) => m.Vote? && HandleVote(s, m.l, order).sent != s.sent
  }

  ghost predicate AskingStep(cfg: Config, run: seq<Action>, a: Action) {
    IsRun(cfg, run) && Enabled(After(cfg, run), a) && Asks(After(cfg, run).replicas[a.to], a)
  }

  // ---------- Too few others ----------

  /** Fewer than total other replicas can ever acknowledge a slot. */
  ghost predicate FewOthers(x: Context) { forall k :: |x.Voters(k)| < x.cfg.total }

  lemma {:induction false} ExecNeverAsks(x: Context, s: State)
    requires Good(x, s) && FewOthers(x)
    ensures Exec(s).sent == s.sent
    decreases |s.log|
  {
    if Ready(s) {
      RemoveKeySize(s.log, s.execute);
      GoodExecuteOne(x, s);
      ExecNeverAsks(x, ExecuteOne(s));
    } else if s.execute in s.log {
      assert EntryOk(x, s.execute, s.log[s.execute]);
      SubsetSize(s.log[s.execute].quorum.acks, x.Voters(s.execute));
    }
  }

  lemma {:induction false} SweepNeverAsks(x: Context, s: State, order: seq<int>)
    requires Good(x, s) && FewOthers(x)
    ensures Sweep(s, order).sent == s.sent
    decreases |order|
  {
    if order != [] {
      if order[0] in s.log {
        GoodMarkOne(x, s, order[0]);
        ExecNeverAsks(x, MarkOne(s, order[0]));
        GoodSweepOne(x, s, order[0]);
        SweepNeverAsks(x, SweepOne(s, order[0]), order[1..]);
      } else {
        SweepNeverAsks(x, s, order[1..]);
      }
    }
  }

  lemma VoteOneNeverAsks(x: Context, s: State, k: int, cb: CommandBallot)
    requires Good(x, s) && FewOthers(x) && x.Proposes(k, cb.command) && cb.id in x.Voters(k)
    ensures VoteOne(s, k, cb).sent == s.sent
  {
    if Acknowledged(s, k, cb).quorum.Majority(s.cfg) {
      GoodCommitted(x, s, k, cb);
      ExecNeverAsks(x, Committed(s, k, cb));
    }
  }

  lemma {:induction false} VotesNeverAsk(x: Context, s: State, l: map<int, CommandBallot>, order: seq<int>)
    requires Good(x, s) && FewOthers(x)
    requires forall k :: k in l ==> x.Proposes(k, l[k].command) && l[k].id in x.Voters(k)
    ensures HandleVote(s, l, order).sent == s.sent
    decreases |order|
  {
    if order != [] {
      var n := |order| - 1;
      VotesNeverAsk(x, s, l, order[..n]);
      GoodHandleVote(x, s, l, order[..n]);
      if order[n] in l {
        VoteOneNeverAsks(x, HandleVote(s, l, order[..n]), order[n], l[order[n]]);
      }
    }
  }

  lemma BeforeSweepGood(x: Context, s: State, m: Message)
    requires Good(x, s) && m.Propose? && x.Proposes(m.slot, m.command)
    ensures Good(x, BeforeSweep(s, m))
  {
    GoodAccept(x, s, m);
    GoodMarkAll(x, Accept(s, m));
    GoodSendVotes(x, Marked(s, m), m.slot);
  }

  lemma FewVoters(c: System, id: ID)
    requires Inv(c) && id in c.replicas && c.cfg.total >= c.cfg.N()
    ensures FewOthers(ContextOf(c, id))
  {
    var x := ContextOf(c, id);
    forall k ensures |x.Voters(k)| < x.cfg.total {
      assert x.Voters(k) <= c.cfg.ids - {id};
      SubsetSize(x.Voters(k), c.cfg.ids - {id});
      assert |c.cfg.ids - {id}| == c.cfg.N() - 1;
    }
  }

  lemma StepNeverAsks(c: System, a: Action)
    requires Inv(c) && Enabled(c, a) && c.cfg.total >= c.cfg.N()
    ensures !Asks(c.replicas[a.to], a)
  {
    var x, s := ContextOf(c, a.to), c.replicas[a.to];
    FewVoters(c, a.to);
    if !a.Ask? {
      DeliveredAcceptable(c, a);
      if a.DeliverPropose? {
        BeforeSweepGood(x, s, a.m);
        SweepNeverAsks(x, BeforeSweep(s, a.m), a.order);
      } else {
        VotesNeverAsk(x, s, a.m.l, a.order);
      }
    }
  }

  lemma AskingNeeds(cfg: Config, run: seq<Action>, a: Action)
    requires AskingStep(cfg, run, a)
    ensures cfg.N() >= 2 && cfg.total < cfg.N()
  {
    RunKeepsInv(cfg, run);
    if cfg.total >= cfg.N() {
      StepNeverAsks(After(cfg, run), a);
    }
    NoLonelyDelivery(cfg, run, a);
  }

  // ---------- A replica that others vote past ----------

  function Plain(i: int): Command { Command(0, Nil, ID(""), 0, i) }

  ghost predicate AnyCommand(c: Command) { c.key == c.key }

  ghost function Everything(): iset<Command> { iset c | AnyCommand(c) }

  /** The slots 2, 3, ..., m+3, which are there to fill a batch. */
  function Fill(m: nat): (s: set<int>)
    ensures forall i :: i in s <==> 2 <= i <= m + 3
    ensures |s| == m + 2
  {
    if m == 0 then {2, 3}
    else
      var less := Fill(m - 1);
      assert m + 3 !in less;
      less + {m + 3}
  }

  function Filler(cfg: Config): set<int> { Fill(if cfg.total > 0 then cfg.total else 0) }

  lemma FillerHolds(cfg: Config, k: int)
    requires k < 2
    ensures var z := Filler(cfg);
            && 2 in z && 3 in z && k !in z && |z| >= cfg.total
            && |{k} + z| >= cfg.total && forall i :: i in {k} + z && i < 2 ==> i == k
  {
    SubsetSize(Filler(cfg), {k} + Filler(cfg));
  }

  function Others(cfg: Config, x: ID): set<ID> { cfg.ids - {x} }

  ghost function PlainPlans(): ID -> (int -> Command) { x => Plain }

  lemma PlainFits(ids: set<ID>, wanted: set<int>)
    ensures AllFit(PlainPlans(), ids, wanted, Everything()) && Fits(Plain, wanted, Everything())
  {
    assert forall i: int :: Plain(i) in Everything();
  }

  /** x has been asked for the filling slots and has not voted. */
  ghost predicate Waiting(c: System, cfg: Config, x: ID) {
    && c.replicas.Keys == cfg.ids && x in cfg.ids
    && Own(c.replicas[x], cfg, x, Plain, Filler(cfg), Filler(cfg))
    && HasProposal(c.replicas[x], 2)
  }

  lemma PlainStart(cfg: Config, x: ID)
    requires x in cfg.ids
    ensures IsRun(cfg, []) && From(After(cfg, []), Everything()) && After(cfg, []).replicas.Keys == cfg.ids
    ensures var c := After(cfg, []);
            && AllOwn(c, cfg, PlainPlans(), Others(cfg, x), {}, {})
            && Own(c.replicas[x], cfg, x, Plain, {}, {})
  {
    StartsAllOwn(cfg, PlainPlans(), Everything());
    StartsOwn(cfg, x, Plain);
  }

  lemma Prepare(cfg: Config, x: ID) returns (run: seq<Action>)
    requires x in cfg.ids
    ensures IsRun(cfg, run) && Waiting(After(cfg, run), cfg, x) && From(After(cfg, run), Everything())
    ensures AllOwn(After(cfg, run), cfg, PlainPlans(), Others(cfg, x), {}, {})
  {
    PlainFits(cfg.ids, Filler(cfg));
    FillerHolds(cfg, 0);
    PlainStart(cfg, x);
    NothingPlus(Filler(cfg));
    run := AskBatch(cfg, [], x, Plain, {}, Filler(cfg), Filler(cfg), 2, Everything());
    OwnElsewhere(After(cfg, []), After(cfg, run), cfg, PlainPlans(), {x}, Others(cfg, x), {}, {});
  }

  /** The others' steps leave x waiting. */
  lemma StillWaiting(c: System, d: System, cfg: Config, x: ID)
    requires Waiting(c, cfg, x) && Onward(c, d, Others(cfg, x))
    ensures Waiting(d, cfg, x)
  {}

  /** The others are asked for these slots. */
  lemma AskOthers(cfg: Config, run: seq<Action>, x: ID, slots: set<int>, wanted: set<int>) returns (more: seq<Action>)
    requires IsRun(cfg, run) && Waiting(After(cfg, run), cfg, x) && From(After(cfg, run), Everything()) && 2 in wanted
    requires AllOwn(After(cfg, run), cfg, PlainPlans(), Others(cfg, x), slots, {})
    ensures IsRun(cfg, more) && Waiting(After(cfg, more), cfg, x) && From(After(cfg, more), Everything())
    ensures Onward(After(cfg, run), After(cfg, more), Others(cfg, x))
    ensures AllOwn(After(cfg, more), cfg, PlainPlans(), Others(cfg, x), slots + wanted, wanted)
    ensures AllProposed(After(cfg, more), Others(cfg, x), 2)
  {
    PlainFits(Others(cfg, x), wanted);
    more := AskEach(cfg, run, Others(cfg, x), PlainPlans(), slots, wanted, slots + wanted, 2, Everything());
    StillWaiting(After(cfg, run), After(cfg, more), cfg, x);
  }

  /** They vote for them on x's proposal. */
  lemma VoteOthers(cfg: Config, run: seq<Action>, x: ID, slots: set<int>, wanted: set<int>) returns (more: seq<Action>)
    requires IsRun(cfg, run) && Waiting(After(cfg, run), cfg, x) && From(After(cfg, run), Everything())
    requires AllOwn(After(cfg, run), cfg, PlainPlans(), Others(cfg, x), slots, wanted)
    requires 2 in slots && 2 in wanted && |wanted| >= cfg.total
    ensures IsRun(cfg, more) && Waiting(After(cfg, more), cfg, x) && From(After(cfg, more), Everything())
    ensures Onward(After(cfg, run), After(cfg, more), Others(cfg, x))
    ensures AllOwn(After(cfg, more), cfg, PlainPlans(), Others(cfg, x), slots, {})
    ensures AllVoted(After(cfg, more), Others(cfg, x), wanted)
  {
    more := VoteEach(cfg, run, Others(cfg, x), x, x, PlainPlans(), slots, wanted, 2);
    StillWaiting(After(cfg, run), After(cfg, more), cfg, x);
    SameRequests(After(cfg, run), After(cfg, more), Everything());
  }

  lemma AskAndVote(cfg: Config, run: seq<Action>, x: ID, slots: set<int>, wanted: set<int>) returns (more: seq<Action>)
    requires IsRun(cfg, run) && Waiting(After(cfg, run), cfg, x) && From(After(cfg, run), Everything())
    requires AllOwn(After(cfg, run), cfg, PlainPlans(), Others(cfg, x), slots, {})
    requires 2 in wanted && |wanted| >= cfg.total
    ensures IsRun(cfg, more) && Waiting(After(cfg, more), cfg, x) && From(After(cfg, more), Everything())
    ensures Onward(After(cfg, run), After(cfg, more), Others(cfg, x))
    ensures AllOwn(After(cfg, more), cfg, PlainPlans(), Others(cfg, x), slots + wanted, {})
    ensures AllVoted(After(cfg, more), Others(cfg, x), wanted) && AllProposed(After(cfg, more), Others(cfg, x), 2)
  {
    var one := AskOthers(cfg, run, x, slots, wanted);
    more := VoteOthers(cfg, one, x, slots + wanted, wanted);
    OnwardTwice(After(cfg, run), After(cfg, one), After(cfg, more), Others(cfg, x), Others(cfg, x), Others(cfg, x));
    ProposedOnward(After(cfg, one), After(cfg, more), Others(cfg, x), Others(cfg, x), 2);
  }

  /** x receives every other replica's vote for slot 1. */
  lemma {:induction false} EarlyVotes(cfg: Config, run: seq<Action>, x: ID, slots: set<int>, some: set<ID>)
    returns (more: seq<Action>)
    requires IsRun(cfg, run) && x in After(cfg, run).replicas && some <= Others(cfg, x)
    requires AllVoted(After(cfg, run), Others(cfg, x), slots) && 0 !in slots && 1 in slots
    requires Early(After(cfg, run).replicas[x], cfg, some)
    ensures IsRun(cfg, more) && Onward(After(cfg, run), After(cfg, more), {x})
    ensures Early(After(cfg, more).replicas[x], cfg, Others(cfg, x))
    decreases |Others(cfg, x)| - |some|
  {
    SubsetSize(some, Others(cfg, x));
    if some == Others(cfg, x) {
      more := run;
    } else {
      var v := NextVoter(Others(cfg, x), some);
      var one := EarlyNext(cfg, run, x, slots, some, v);
      StillVoted(After(cfg, run), After(cfg, one), {x}, Others(cfg, x), slots);
      more := EarlyVotes(cfg, one, x, slots, some + {v});
      OnwardTwice(After(cfg, run), After(cfg, one), After(cfg, more), {x}, {x}, {x});
    }
  }

  lemma EarlyNext(cfg: Config, run: seq<Action>, x: ID, slots: set<int>, some: set<ID>, v: ID)
    returns (more: seq<Action>)
    requires IsRun(cfg, run) && x in After(cfg, run).replicas && v in After(cfg, run).replicas && x != v && v !in some
    requires HasVote(After(cfg, run).replicas[v], v, slots) && 0 !in slots && 1 in slots
    requires Early(After(cfg, run).replicas[x], cfg, some)
    ensures IsRun(cfg, more) && Onward(After(cfg, run), After(cfg, more), {x})
    ensures Early(After(cfg, more).replicas[x], cfg, some + {v})
  {
    var m := VoteToward(After(cfg, run), x, v, slots);
    var order := EarlyVote(After(cfg, run).replicas[x], cfg, some, v, m, slots);
    more := DeliverTo(cfg, run, x, v, slots, m, order);
  }

  /** x receives votes for slot 0 until one is missing to a majority. */
  lemma {:induction false} LateVotes(cfg: Config, run: seq<Action>, x: ID, slots: set<int>, ahead: set<ID>,
                                     voters: set<ID>, some: set<ID>)
    returns (more: seq<Action>, last: set<ID>, v: ID)
    requires IsRun(cfg, run) && x in After(cfg, run).replicas && x !in voters && |voters| == cfg.N() / 2
    requires AllVoted(After(cfg, run), voters, slots) && 0 in slots && 1 !in slots && some <= voters
    requires Late(After(cfg, run).replicas[x], cfg, some, ahead)
    ensures IsRun(cfg, more) && Onward(After(cfg, run), After(cfg, more), {x})
    ensures Late(After(cfg, more).replicas[x], cfg, last, ahead)
    ensures v in voters && v !in last && |last| + 1 >= cfg.N() / 2
    decreases |voters| - |some|
  {
    v := NextVoter(voters, some);
    if |some| + 1 >= cfg.N() / 2 {
      more, last := run, some;
    } else {
      var one := LateNext(cfg, run, x, slots, ahead, some, v);
      StillVoted(After(cfg, run), After(cfg, one), {x}, voters, slots);
      more, last, v := LateVotes(cfg, one, x, slots, ahead, voters, some + {v});
      OnwardTwice(After(cfg, run), After(cfg, one), After(cfg, more), {x}, {x}, {x});
    }
  }

  lemma LateNext(cfg: Config, run: seq<Action>, x: ID, slots: set<int>, ahead: set<ID>, some: set<ID>, v: ID)
    returns (more: seq<Action>)
    requires IsRun(cfg, run) && x in After(cfg, run).replicas && v in After(cfg, run).replicas && x != v && v !in some
    requires HasVote(After(cfg, run).replicas[v], v, slots) && 0 in slots && 1 !in slots
    requires Late(After(cfg, run).replicas[x], cfg, some, ahead) && |some| + 1 < cfg.N() / 2
    ensures IsRun(cfg, more) && Onward(After(cfg, run), After(cfg, more), {x})
    ensures Late(After(cfg, more).replicas[x], cfg, some + {v}, ahead)
  {
    var m := VoteToward(After(cfg, run), x, v, slots);
    var order := LateVote(After(cfg, run).replicas[x], cfg, some, ahead, v, m, slots);
    more := DeliverTo(cfg, run, x, v, slots, m, order);
  }

  // ---------- exec asks for votes ----------

  lemma OwnIsEarly(s: State, cfg: Config, x: ID)
    requires Own(s, cfg, x, Plain, Filler(cfg), Filler(cfg)) && cfg.N() >= 2
    ensures Early(s, cfg, {})
  {
    FillerHolds(cfg, 0);
    FillerHolds(cfg, 1);
  }

  lemma OthersEnough(cfg: Config, x: ID)
    requires x in cfg.ids && cfg.N() >= 2
    ensures |Others(cfg, x)| == cfg.N() - 1 && Others(cfg, x) != {} && |Others(cfg, x)| >= cfg.N() / 2
  {
    assert |cfg.ids - {x}| == cfg.N() - 1;
  }

  /** All the others have voted, for slot 1 and for slot 0. */
  lemma VotedTwice(cfg: Config, x: ID) returns (run: seq<Action>)
    requires x in cfg.ids && cfg.N() >= 2
    ensures IsRun(cfg, run) && x in After(cfg, run).replicas && Early(After(cfg, run).replicas[x], cfg, {})
    ensures AllVoted(After(cfg, run), Others(cfg, x), {1} + Filler(cfg))
    ensures AllVoted(After(cfg, run), Others(cfg, x), {0} + Filler(cfg))
  {
    FillerHolds(cfg, 0);
    FillerHolds(cfg, 1);
    var one := Prepare(cfg, x);
    var two := AskAndVote(cfg, one, x, {}, {1} + Filler(cfg));
    run := AskAndVote(cfg, two, x, {} + ({1} + Filler(cfg)), {0} + Filler(cfg));
    StillVoted(After(cfg, two), After(cfg, run), Others(cfg, x), Others(cfg, x), {1} + Filler(cfg));
    OwnIsEarly(After(cfg, run).replicas[x], cfg, x);
  }

  lemma SomeRunAsks(cfg: Config) returns (run: seq<Action>, a: Action)
    requires cfg.N() >= 2 && cfg.total < cfg.N()
    ensures AskingStep(cfg, run, a)
  {
    var x := Any(cfg.ids);
    OthersEnough(cfg, x);
    FillerHolds(cfg, 0);
    FillerHolds(cfg, 1);
    var z := {0} + Filler(cfg);
    var one := VotedTwice(cfg, x);
    var two := EarlyVotes(cfg, one, x, {1} + Filler(cfg), {});
    StillVoted(After(cfg, one), After(cfg, two), {x}, Others(cfg, x), z);
    var voters := Enough(cfg, x);
    VotersAmong(After(cfg, two), Others(cfg, x), voters, z);
    assert Late(After(cfg, two).replicas[x], cfg, {}, Others(cfg, x));
    var some, v;
    run, some, v := LateVotes(cfg, two, x, z, Others(cfg, x), voters, {});
    StillVoted(After(cfg, two), After(cfg, run), {x}, voters, z);
    a := AskingVote(cfg, run, x, z, some, v);
  }

  lemma VotersAmong(c: System, ids: set<ID>, few: set<ID>, slots: set<int>)
    requires AllVoted(c, ids, slots) && few <= ids
    ensures AllVoted(c, few, slots)
  {}

  lemma AskingVote(cfg: Config, run: seq<Action>, x: ID, slots: set<int>, some: set<ID>, v: ID) returns (a: Action)
    requires IsRun(cfg, run) && x in cfg.ids && x in After(cfg, run).replicas && cfg.total < cfg.N() && cfg.N() >= 2
    requires v in After(cfg, run).replicas && v != x && v !in some && HasVote(After(cfg, run).replicas[v], v, slots)
    requires Late(After(cfg, run).replicas[x], cfg, some, Others(cfg, x)) && |some| + 1 >= cfg.N() / 2 && 0 in slots
    ensures AskingStep(cfg, run, a)
  {
    OthersEnough(cfg, x);
    var m := VoteToward(After(cfg, run), x, v, slots);
    var order := FinalVoteAsks(After(cfg, run).replicas[x], cfg, some, Others(cfg, x), v, m, slots);
    a := DeliverVote(x, m, order);
  }

  /**
   Some run makes exec ask for votes exactly in clusters of two or more replicas with a batch size below
   the number of replicas.
   */
  lemma AskingExactly(cfg: Config)
    ensures (exists run, a :: AskingStep(cfg, run, a)) <==> cfg.N() >= 2 && cfg.total < cfg.N()
  {
    if cfg.N() >= 2 && cfg.total < cfg.N() {
      var run, a := SomeRunAsks(cfg);
    } else if run, a :| AskingStep(cfg, run, a) {
      AskingNeeds(cfg, run, a);
    }
  }
}
