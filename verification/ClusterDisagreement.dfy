/**
 Agreement rests on clients never using a slot number for two commands: HandleVote counts votes for a
 slot without comparing commands. Which clients can make replicas disagree is settled here exactly.
 */
module ClusterDisagreement {
  import opened Ids
  import opened Databases
  import opened Quorums
  import opened Cardinality
  import opened Replicas
  import opened ReplicaInvariant
  import opened ReplicaVoting
  import opened Cluster
  import opened ClusterRuns
  import opened ClusterSafety

  ghost predicate Consistent(c: System, p: ID, q: ID)
    requires p in c.replicas && q in c.replicas
  {
    c.replicas[p].executed <= c.replicas[q].executed || c.replicas[q].executed <= c.replicas[p].executed
  }

  /** As long as clients only ask for commands of the vocabulary, any two replicas execute prefixes of one sequence. */
  ghost predicate AlwaysAgree(cfg: Config, vocabulary: iset<Command>) {
    forall run, p, q | IsRun(cfg, run) && From(After(cfg, run), vocabulary)
                       && p in After(cfg, run).replicas && q in After(cfg, run).replicas ::
      Consistent(After(cfg, run), p, q)
  }

  ghost predicate HasSlot(vocabulary: iset<Command>, k: int) {
    exists c :: c in vocabulary && c.counter == k
  }

  /** There are commands for as many slots as a replica votes for at a time. */
  ghost predicate Fills(vocabulary: iset<Command>, slots: set<int>, total: int) {
    |slots| >= total && forall i :: i in slots ==> HasSlot(vocabulary, i)
  }

  /** Two commands for a slot that can be reached: every slot before it has a command. */
  ghost predicate Clash(vocabulary: iset<Command>, c: Command, d: Command) {
    && c in vocabulary && d in vocabulary && c != d && c.counter == d.counter >= 0
    && forall i :: 0 <= i < c.counter ==> HasSlot(vocabulary, i)
  }

  // ---------- A run in which two replicas are asked for different commands ----------

  ghost function CommandFor(vocabulary: iset<Command>, k: int): (c: Command)
    requires HasSlot(vocabulary, k)
    ensures c in vocabulary && c.counter == k
  {
    var c :| c in vocabulary && c.counter == k; c
  }

  /** What a replica is asked for in slot i: c in its own slot, anything fitting elsewhere. */
  ghost function Planned(vocabulary: iset<Command>, c: Command, i: int): (p: Command)
    requires c in vocabulary
    ensures p in vocabulary && (HasSlot(vocabulary, i) ==> p.counter == i) && (i == c.counter ==> p == c)
  {
    if i == c.counter then c else if HasSlot(vocabulary, i) then CommandFor(vocabulary, i) else c
  }

  ghost predicate Holds(slots: set<int>, k: nat) { forall i :: 0 <= i <= k ==> i in slots }

  /** Deliver votes to x until it has a majority and executes slots 0..k as planned. */
  lemma {:induction false} CountAll(cfg: Config, run: seq<Action>, x: ID, plan: int -> Command, slots: set<int>, k: nat,
                                    voters: set<ID>, some: set<ID>) returns (more: seq<Action>)
    requires IsRun(cfg, run) && x in After(cfg, run).replicas && x !in voters && Holds(slots, k)
    requires AllVoted(After(cfg, run), voters, slots)
    requires some <= voters && |some| < |voters| && |voters| == cfg.N() / 2
    requires Counting(After(cfg, run).replicas[x], cfg, plan, slots, {}, {}, some)
    ensures IsRun(cfg, more) && After(cfg, more).requests == After(cfg, run).requests
    ensures Onward(After(cfg, run), After(cfg, more), {x})
    ensures ExecutedPlan(After(cfg, more).replicas[x], plan, k + 1)
    decreases |voters| - |some|
  {
    var v := NextVoter(voters, some);
    if |some| + 1 < cfg.N() / 2 {
      var one := CountNext(cfg, run, x, plan, slots, some, v);
      StillVoted(After(cfg, run), After(cfg, one), {x}, voters, slots);
      more := CountAll(cfg, one, x, plan, slots, k, voters, some + {v});
      OnwardTwice(After(cfg, run), After(cfg, one), After(cfg, more), {x}, {x}, {x});
    } else {
      more := RunNext(cfg, run, x, plan, slots, k, some, v);
    }
  }

  /** A vote short of the majority is acknowledged in every slot. */
  lemma Counts(s: State, cfg: Config, plan: int -> Command, slots: set<int>, some: set<ID>, v: ID, m: Message)
    returns (order: seq<int>)
    requires v !in some && |some| + 1 < cfg.N() / 2 && IsVote(m, v, slots)
    requires Counting(s, cfg, plan, slots, {}, {}, some)
    ensures VoteOrder(m.l, order) && Counting(HandleVote(s, m.l, order), cfg, plan, slots, {}, {}, some + {v})
  {
    order := Enumerate(slots);
    assert order[..|order|] == order;
    OrderOk(m, v, slots, order);
    CountStart(s, cfg, plan, slots, some + {v}, some);
    CountSome(s, cfg, plan, slots, some, v, m, order, |order|);
    CountedAll(HandleVote(s, m.l, order), cfg, plan, slots, some + {v}, some);
  }

  lemma CountNext(cfg: Config, run: seq<Action>, x: ID, plan: int -> Command, slots: set<int>, some: set<ID>, v: ID)
    returns (more: seq<Action>)
    requires IsRun(cfg, run) && x in After(cfg, run).replicas && v in After(cfg, run).replicas && x != v
    requires HasVote(After(cfg, run).replicas[v], v, slots) && v !in some && |some| + 1 < cfg.N() / 2
    requires Counting(After(cfg, run).replicas[x], cfg, plan, slots, {}, {}, some)
    ensures IsRun(cfg, more) && After(cfg, more).requests == After(cfg, run).requests
    ensures Onward(After(cfg, run), After(cfg, more), {x})
    ensures Counting(After(cfg, more).replicas[x], cfg, plan, slots, {}, {}, some + {v})
  {
    var s := After(cfg, run).replicas[x];
    var m := VoteToward(After(cfg, run), x, v, slots);
    var order := Counts(s, cfg, plan, slots, some, v, m);
    more := DeliverTo(cfg, run, x, v, slots, m, order);
  }

  lemma RunNext(cfg: Config, run: seq<Action>, x: ID, plan: int -> Command, slots: set<int>, k: nat, some: set<ID>,
                v: ID)
    returns (more: seq<Action>)
    requires IsRun(cfg, run) && x in After(cfg, run).replicas && v in After(cfg, run).replicas && x != v
    requires HasVote(After(cfg, run).replicas[v], v, slots) && v !in some && |some| + 1 >= cfg.N() / 2
    requires Counting(After(cfg, run).replicas[x], cfg, plan, slots, {}, {}, some) && Holds(slots, k)
    ensures IsRun(cfg, more) && After(cfg, more).requests == After(cfg, run).requests
    ensures Onward(After(cfg, run), After(cfg, more), {x})
    ensures ExecutedPlan(After(cfg, more).replicas[x], plan, k + 1)
  {
    var m := VoteToward(After(cfg, run), x, v, slots);
    var order := MajorityRuns(After(cfg, run).replicas[x], cfg, plan, slots, k, some, v, m);
    more := DeliverTo(cfg, run, x, v, slots, m, order);
  }

  /** Everybody is asked. */
  lemma AllAsk(cfg: Config, a: ID, b: ID, plans: ID -> (int -> Command), slots: set<int>, vocabulary: iset<Command>)
    returns (run: seq<Action>)
    requires a in cfg.ids && b in cfg.ids && 0 in slots && AllFit(plans, cfg.ids, slots, vocabulary)
    ensures IsRun(cfg, run) && From(After(cfg, run), vocabulary) && After(cfg, run).replicas.Keys == cfg.ids
    ensures AllOwn(After(cfg, run), cfg, plans, cfg.ids, slots, slots) && AllProposed(After(cfg, run), {a, b}, 0)
  {
    StartsAllOwn(cfg, plans, vocabulary);
    NothingPlus(slots);
    run := AskEach(cfg, [], cfg.ids, plans, {}, slots, slots, 0, vocabulary);
    ProposedAmong(After(cfg, run), cfg.ids, {a, b}, 0);
  }

  /** Everybody is asked, everybody votes. */
  lemma AllVote(cfg: Config, a: ID, b: ID, plans: ID -> (int -> Command), slots: set<int>, vocabulary: iset<Command>)
    returns (run: seq<Action>)
    requires a in cfg.ids && b in cfg.ids && a != b
    requires 0 in slots && |slots| >= cfg.total && AllFit(plans, cfg.ids, slots, vocabulary)
    ensures IsRun(cfg, run) && From(After(cfg, run), vocabulary) && After(cfg, run).replicas.Keys == cfg.ids
    ensures AllOwn(After(cfg, run), cfg, plans, cfg.ids, slots, {}) && AllVoted(After(cfg, run), cfg.ids, slots)
  {
    var one := AllAsk(cfg, a, b, plans, slots, vocabulary);
    run := VoteEach(cfg, one, cfg.ids, a, b, plans, slots, slots, 0);
    SameRequests(After(cfg, one), After(cfg, run), vocabulary);
  }

  /** One of the two executes what it was asked for. */
  lemma ExecuteFor(cfg: Config, run: seq<Action>, x: ID, plans: ID -> (int -> Command), slots: set<int>, k: nat)
    returns (more: seq<Action>)
    requires cfg.N() >= 2 && IsRun(cfg, run) && After(cfg, run).replicas.Keys == cfg.ids && x in cfg.ids
    requires AllVoted(After(cfg, run), cfg.ids, slots) && Holds(slots, k)
    requires Own(After(cfg, run).replicas[x], cfg, x, plans(x), slots, {})
    ensures IsRun(cfg, more) && After(cfg, more).requests == After(cfg, run).requests
    ensures Onward(After(cfg, run), After(cfg, more), {x})
    ensures ExecutedPlan(After(cfg, more).replicas[x], plans(x), k + 1)
  {
    var voters := Enough(cfg, x);
    OwnCounts(After(cfg, run).replicas[x], cfg, x, plans(x), slots, {});
    more := CountAll(cfg, run, x, plans(x), slots, k, voters, {});
  }

  /** Everybody is asked for c in its slot, only b for d. */
  ghost function Plans(vocabulary: iset<Command>, b: ID, c: Command, d: Command): ID -> (int -> Command)
    requires c in vocabulary && d in vocabulary
  {
    x => (i => Planned(vocabulary, if x == b then d else c, i))
  }

  lemma PlansFit(vocabulary: iset<Command>, b: ID, c: Command, d: Command, ids: set<ID>, slots: set<int>)
    requires c in vocabulary && d in vocabulary && forall i :: i in slots ==> HasSlot(vocabulary, i)
    ensures AllFit(Plans(vocabulary, b, c, d), ids, slots, vocabulary)
  {
    forall x | x in ids ensures Fits(Plans(vocabulary, b, c, d)(x), slots, vocabulary) {
      forall i | i in slots
        ensures var p := Plans(vocabulary, b, c, d)(x)(i); p.counter == i && p in vocabulary
      {
        assert Plans(vocabulary, b, c, d)(x)(i) == Planned(vocabulary, if x == b then d else c, i);
      }
    }
  }

  lemma PlansDiffer(vocabulary: iset<Command>, a: ID, b: ID, c: Command, d: Command)
    requires c in vocabulary && d in vocabulary && c.counter == d.counter && c != d && a != b
    ensures var plans := Plans(vocabulary, b, c, d); plans(a)(c.counter) != plans(b)(c.counter)
  {
    assert Plans(vocabulary, b, c, d)(a)(c.counter) == Planned(vocabulary, c, c.counter);
    assert Plans(vocabulary, b, c, d)(b)(c.counter) == Planned(vocabulary, d, c.counter);
  }

  lemma HoldsUpTo(slots: set<int>, k: nat)
    ensures Holds(slots + UpToSet(k), k)
  {}

  lemma Disagreement(cfg: Config, vocabulary: iset<Command>, slots: set<int>, c: Command, d: Command)
    requires cfg.N() >= 2 && Fills(vocabulary, slots, cfg.total) && Clash(vocabulary, c, d)
    ensures !AlwaysAgree(cfg, vocabulary)
  {
    var k := c.counter;
    var a, b := TwoOf(cfg.ids);
    var plans := Plans(vocabulary, b, c, d);
    AllHaveSlots(vocabulary, slots, c, d);
    SubsetSize(slots, slots + UpToSet(k));
    HoldsUpTo(slots, k);
    PlansFit(vocabulary, b, c, d, cfg.ids, slots + UpToSet(k));
    var run := AllVote(cfg, a, b, plans, slots + UpToSet(k), vocabulary);
    var more := Divided(cfg, run, a, b, plans, slots + UpToSet(k), k);
    PlansDiffer(vocabulary, a, b, c, d);
    Differ(After(cfg, more), a, b, plans, k);
    assert !Consistent(After(cfg, more), a, b);
  }

  lemma TwoOf(ids: set<ID>) returns (a: ID, b: ID)
    requires |ids| >= 2
    ensures a in ids && b in ids && a != b
  {
    a := Any(ids);
    assert |ids - {a}| == |ids| - 1;
    b := Any(ids - {a});
  }

  lemma Differ(c: System, a: ID, b: ID, plans: ID -> (int -> Command), k: nat)
    requires a in c.replicas && b in c.replicas && plans(a)(k) != plans(b)(k)
    requires ExecutedPlan(c.replicas[a], plans(a), k + 1) && ExecutedPlan(c.replicas[b], plans(b), k + 1)
    ensures !Consistent(c, a, b)
  {
    assert c.replicas[a].executed[k] == plans(a)(k) && c.replicas[b].executed[k] == plans(b)(k);
  }

  /** a and b execute slot k as planned for each. */
  lemma Divided(cfg: Config, run: seq<Action>, a: ID, b: ID, plans: ID -> (int -> Command), slots: set<int>, k: nat)
    returns (more: seq<Action>)
    requires cfg.N() >= 2 && IsRun(cfg, run) && After(cfg, run).replicas.Keys == cfg.ids
    requires a in cfg.ids && b in cfg.ids && a != b && Holds(slots, k)
    requires AllOwn(After(cfg, run), cfg, plans, cfg.ids, slots, {}) && AllVoted(After(cfg, run), cfg.ids, slots)
    ensures IsRun(cfg, more) && After(cfg, more).requests == After(cfg, run).requests
    ensures var d := After(cfg, more);
            && a in d.replicas && b in d.replicas
            && ExecutedPlan(d.replicas[a], plans(a), k + 1) && ExecutedPlan(d.replicas[b], plans(b), k + 1)
  {
    assert a in cfg.ids && b in cfg.ids;
    var one := ExecuteFor(cfg, run, a, plans, slots, k);
    StillVoted(After(cfg, run), After(cfg, one), {a}, cfg.ids, slots);
    Untouched(After(cfg, run), After(cfg, one), a, b);
    more := ExecuteFor(cfg, one, b, plans, slots, k);
    Untouched(After(cfg, one), After(cfg, more), b, a);
  }

  /** The slots 0..k. */
  function UpToSet(k: nat): (s: set<int>)
    ensures forall i :: i in s <==> 0 <= i <= k
  {
    if k == 0 then {0} else UpToSet(k - 1) + {k}
  }

  lemma AllHaveSlots(vocabulary: iset<Command>, slots: set<int>, c: Command, d: Command)
    requires forall i :: i in slots ==> HasSlot(vocabulary, i)
    requires Clash(vocabulary, c, d)
    ensures forall i :: i in slots + UpToSet(c.counter) ==> HasSlot(vocabulary, i)
  {
    assert HasSlot(vocabulary, c.counter);
  }

  // ---------- No votes ----------

  ghost predicate NoVoteSent(c: System) {
    forall q, m :: q in c.replicas && m in c.replicas[q].sent ==> !m.Vote?
  }

  lemma NothingCertified(c: System, id: ID)
    requires Inv(c) && NoVoteSent(c) && c.cfg.N() >= 2 && id in c.replicas
    ensures NoCommit(c.replicas[id])
  {
    var x := ContextOf(c, id);
    assert forall k :: x.Voters(k) == {};
    assert forall k :: !x.Certified(k);
  }

  /** The slots of a queue are slots that clients have asked for. */
  lemma QueueSmall(vocabulary: iset<Command>, x: Context, id: ID, l: map<int, CommandBallot>, total: int)
    requires QueueOk(x, id, l) && forall c :: c in x.asked ==> c in vocabulary
    requires forall slots :: !Fills(vocabulary, slots, total)
    ensures |l| < total
  {
    forall i | i in l.Keys ensures HasSlot(vocabulary, i) {
      assert l[i].command in vocabulary && l[i].command.counter == i;
    }
    assert !Fills(vocabulary, l.Keys, total);
    assert |l| == |l.Keys|;
  }

  lemma {:induction false} QuietSweeps(s: State, order: seq<int>)
    requires NoCommit(s)
    ensures Sweep(s, order).sent == s.sent
    decreases |order|
  {
    if order != [] {
      QuietSweeps(if order[0] in s.log then SweepOne(s, order[0]) else s, order[1..]);
    }
  }

  lemma ProposeStaysQuiet(x: Context, s: State, m: Message, order: seq<int>, vocabulary: iset<Command>)
    requires Good(x, s) && NoCommit(s) && m.Propose? && x.Proposes(m.slot, m.command)
    requires forall c :: c in x.asked ==> c in vocabulary
    requires forall slots :: !Fills(vocabulary, slots, s.cfg.total)
    ensures HandlePropose(s, m, order).sent == s.sent
  {
    var a, b := Accept(s, m), Marked(s, m);
    GoodAccept(x, s, m);
    MarkedKept(s, m);
    QueueSmall(vocabulary, x, a.id, a.l, s.cfg.total);
    assert NoCommit(a) && NoCommit(b);
    assert BeforeSweep(s, m) == b;
    QuietSweeps(b, order);
  }

  lemma DeliveryStaysQuiet(c: System, a: Action, vocabulary: iset<Command>)
    requires Inv(c) && NoVoteSent(c) && c.cfg.N() >= 2 && Enabled(c, a) && From(c, vocabulary) && a.DeliverPropose?
    requires forall slots :: !Fills(vocabulary, slots, c.cfg.total)
    ensures Handle(c.replicas[a.to], a).sent == c.replicas[a.to].sent
  {
    NothingCertified(c, a.to);
    DeliveredAcceptable(c, a);
    ProposeStaysQuiet(ContextOf(c, a.to), c.replicas[a.to], a.m, a.order, vocabulary);
  }

  lemma StepStaysQuiet(c: System, a: Action, vocabulary: iset<Command>)
    requires Inv(c) && NoVoteSent(c) && c.cfg.N() >= 2 && Enabled(c, a) && From(c, vocabulary)
    requires forall slots :: !Fills(vocabulary, slots, c.cfg.total)
    ensures NoVoteSent(Apply(c, a))
  {
    if a.DeliverPropose? {
      DeliveryStaysQuiet(c, a, vocabulary);
    }
    OneStep(c, a);
    SentQuiet(c, Apply(c, a), a.to);
  }

  lemma SentQuiet(c: System, d: System, id: ID)
    requires NoVoteSent(c) && OnlyAt(c, d, id) && id in c.replicas
    requires forall m :: m in d.replicas[id].sent && m !in c.replicas[id].sent ==> !m.Vote?
    ensures NoVoteSent(d)
  {}

  lemma {:induction false} RunStaysQuiet(cfg: Config, run: seq<Action>, vocabulary: iset<Command>)
    requires IsRun(cfg, run) && cfg.N() >= 2 && From(After(cfg, run), vocabulary)
    requires forall slots :: !Fills(vocabulary, slots, cfg.total)
    ensures NoVoteSent(After(cfg, run))
    decreases |run|
  {
    if run != [] {
      LastStep(cfg, run);
      var front, last := run[..|run| - 1], run[|run| - 1];
      FromBefore(After(cfg, front), last, vocabulary);
      RunStaysQuiet(cfg, front, vocabulary);
      RunKeepsInv(cfg, front);
      StepStaysQuiet(After(cfg, front), last, vocabulary);
    }
  }

  lemma FromBefore(c: System, a: Action, vocabulary: iset<Command>)
    requires Enabled(c, a) && From(Apply(c, a), vocabulary)
    ensures From(c, vocabulary)
  {
    assert forall r :: r in c.requests ==> r in Apply(c, a).requests;
  }

  // ---------- The exact condition ----------

  /** Clients can make replicas disagree. */
  ghost predicate Risky(cfg: Config, vocabulary: iset<Command>) {
    && cfg.N() >= 2
    && (exists slots :: Fills(vocabulary, slots, cfg.total))
    && (exists c, d :: Clash(vocabulary, c, d))
  }

  lemma AgreeUnlessRisky(cfg: Config, vocabulary: iset<Command>, run: seq<Action>, p: ID, q: ID)
    requires !Risky(cfg, vocabulary) && IsRun(cfg, run) && From(After(cfg, run), vocabulary)
    requires p in After(cfg, run).replicas && q in After(cfg, run).replicas
    ensures Consistent(After(cfg, run), p, q)
  {
    RunKeepsInv(cfg, run);
    if cfg.N() < 2 {
      if p != q {
        TwoMembers(cfg.ids, p, q);
      }
    } else if slots :| Fills(vocabulary, slots, cfg.total) {
      AgreeWithoutClash(cfg, vocabulary, run, p, q);
    } else {
      NothingRuns(cfg, vocabulary, run, p);
    }
  }

  lemma NothingRuns(cfg: Config, vocabulary: iset<Command>, run: seq<Action>, p: ID)
    requires IsRun(cfg, run) && cfg.N() >= 2 && From(After(cfg, run), vocabulary) && p in After(cfg, run).replicas
    requires forall slots :: !Fills(vocabulary, slots, cfg.total)
    ensures After(cfg, run).replicas[p].executed == []
  {
    RunStaysQuiet(cfg, run, vocabulary);
    NothingExecuted(cfg, run, p);
  }

  lemma NothingExecuted(cfg: Config, run: seq<Action>, p: ID)
    requires IsRun(cfg, run) && cfg.N() >= 2 && NoVoteSent(After(cfg, run)) && p in After(cfg, run).replicas
    ensures After(cfg, run).replicas[p].executed == []
  {
    RunGood(cfg, run, p);
    assert VotersFor(After(cfg, run), 0) - {p} == {};
    if After(cfg, run).replicas[p].execute > 0 {
      ExecutedSlotsAreCertified(cfg, run, p, 0);
      assert false;
    }
  }

  lemma AgreeWithoutClash(cfg: Config, vocabulary: iset<Command>, run: seq<Action>, p: ID, q: ID)
    requires IsRun(cfg, run) && From(After(cfg, run), vocabulary) && forall c, d :: !Clash(vocabulary, c, d)
    requires p in After(cfg, run).replicas && q in After(cfg, run).replicas
    ensures Consistent(After(cfg, run), p, q)
  {
    var s, t := After(cfg, run).replicas[p].executed, After(cfg, run).replicas[q].executed;
    forall j | 0 <= j < |s| && j < |t|
      ensures s[j] == t[j]
    {
      ExecutedFrom(cfg, vocabulary, run, p);
      ExecutedFrom(cfg, vocabulary, run, q);
      assert !Clash(vocabulary, s[j], t[j]);
    }
  }

  /** A replica executes commands of the vocabulary, each in its slot. */
  lemma ExecutedFrom(cfg: Config, vocabulary: iset<Command>, run: seq<Action>, p: ID)
    requires IsRun(cfg, run) && From(After(cfg, run), vocabulary) && p in After(cfg, run).replicas
    ensures var s := After(cfg, run).replicas[p].executed;
            forall i :: 0 <= i < |s| ==> s[i] in vocabulary && s[i].counter == i && HasSlot(vocabulary, i)
  {
    RunGood(cfg, run, p);
    var s := After(cfg, run).replicas[p].executed;
    forall i | 0 <= i < |s| ensures s[i] in vocabulary && s[i].counter == i && HasSlot(vocabulary, i) {
      ExecutedSlotsAreCertified(cfg, run, p, i);
    }
  }

  /**
   For every cluster, every batch size and every set of commands that clients may ask for: replicas always
   agree, unless there are two replicas, commands for as many slots as a vote has to list, and two commands
   for one slot before which no slot lacks a command.
   */
  lemma AgreementExactly(cfg: Config, vocabulary: iset<Command>)
    ensures AlwaysAgree(cfg, vocabulary) <==> !Risky(cfg, vocabulary)
  {
    if Risky(cfg, vocabulary) {
      var slots :| Fills(vocabulary, slots, cfg.total);
      var c, d :| Clash(vocabulary, c, d);
      Disagreement(cfg, vocabulary, slots, c, d);
    } else {
      forall run, p, q | IsRun(cfg, run) && From(After(cfg, run), vocabulary)
                         && p in After(cfg, run).replicas && q in After(cfg, run).replicas
        ensures Consistent(After(cfg, run), p, q)
      {
        AgreeUnlessRisky(cfg, vocabulary, run, p, q);
      }
    }
  }
}
