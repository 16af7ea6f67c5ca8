/**
 Building runs: replicas are asked for slots, vote for them on a proposal of another, and receive votes.
 Each lemma extends a run that it is given and says what the longer run has led to.
 */
module ClusterRuns {
  import opened Ids
  import opened Databases
  import opened Quorums
  import opened Cardinality
  import opened Replicas
  import opened ReplicaVoting
  import opened Cluster

  /** Clients have only asked for commands of the vocabulary. */
  ghost predicate From(c: System, vocabulary: iset<Command>) {
    forall r :: r in c.requests ==> r.command in vocabulary
  }

  /** d is c after steps of replicas in ids that have taken no message back. */
  ghost predicate Onward(c: System, d: System, ids: set<ID>) {
    && d.cfg == c.cfg && d.replicas.Keys == c.replicas.Keys
    && (forall q :: q in c.replicas && q !in ids ==> d.replicas[q] == c.replicas[q])
    && (forall q :: q in c.replicas ==> c.replicas[q].sent <= d.replicas[q].sent)
  }

  lemma OnwardTwice(c: System, d: System, e: System, ids: set<ID>, more: set<ID>, all: set<ID>)
    requires Onward(c, d, ids) && Onward(d, e, more) && ids <= all && more <= all
    ensures Onward(c, e, all)
  {}

  lemma MoveOver<T>(a: set<T>, rest: set<T>, i: T, end: set<T>)
    requires a + rest == end && i in rest
    ensures a + {i} + (rest - {i}) == end && |rest - {i}| < |rest|
  {}

  lemma OneOut<T>(ids: set<T>, x: T)
    requires x in ids
    ensures {x} <= ids && ids - {x} <= ids && {x} !! (ids - {x}) && |ids - {x}| < |ids|
  {}

  lemma AppendStep(cfg: Config, run: seq<Action>, x: Action)
    requires IsRun(cfg, run) && Enabled(After(cfg, run), x)
    ensures IsRun(cfg, run + [x]) && After(cfg, run + [x]) == Apply(After(cfg, run), x)
  {
    assert (run + [x])[..|run + [x]| - 1] == run;
  }

  lemma Extend(cfg: Config, run: seq<Action>, x: Action)
    requires IsRun(cfg, run) && Enabled(After(cfg, run), x)
    requires var s := After(cfg, run).replicas[x.to]; s.sent <= Handle(s, x).sent
    ensures IsRun(cfg, run + [x])
    ensures var c, d := After(cfg, run), After(cfg, run + [x]);
            && Onward(c, d, {x.to}) && d.replicas[x.to] == Handle(c.replicas[x.to], x)
            && d.requests == if x.Ask? then c.requests + [Request(x.to, x.command)] else c.requests
  {
    AppendStep(cfg, run, x);
    OneStep(After(cfg, run), x);
  }

  // ---------- Asking ----------

  /** What is planned for these slots carries their numbers and belongs to the vocabulary. */
  ghost predicate Fits(plan: int -> Command, wanted: set<int>, vocabulary: iset<Command>) {
    forall i :: i in wanted ==> plan(i).counter == i && plan(i) in vocabulary
  }

  ghost predicate AllFit(plans: ID -> (int -> Command), ids: set<ID>, wanted: set<int>, vocabulary: iset<Command>) {
    forall x :: x in ids ==> Fits(plans(x), wanted, vocabulary)
  }

  lemma AskOne(cfg: Config, run: seq<Action>, x: ID, plan: int -> Command, slots: set<int>, queued: set<int>, i: int,
               vocabulary: iset<Command>) returns (more: seq<Action>)
    requires IsRun(cfg, run) && From(After(cfg, run), vocabulary) && x in After(cfg, run).replicas
    requires plan(i).counter == i && plan(i) in vocabulary
    requires Own(After(cfg, run).replicas[x], cfg, x, plan, slots, queued)
    ensures IsRun(cfg, more) && From(After(cfg, more), vocabulary) && Onward(After(cfg, run), After(cfg, more), {x})
    ensures var t := After(cfg, more).replicas[x];
            && Own(t, cfg, x, plan, slots + {i}, queued + {i}) && HasProposal(t, i)
  {
    AskedOwn(After(cfg, run).replicas[x], cfg, x, plan, slots, queued, i);
    more := run + [Ask(x, plan(i))];
    Extend(cfg, run, Ask(x, plan(i)));
  }

  lemma StillProposed(c: System, d: System, ids: set<ID>, x: ID, i: int)
    requires Onward(c, d, ids) && x in c.replicas && HasProposal(c.replicas[x], i)
    ensures HasProposal(d.replicas[x], i)
  {
    var m :| m in c.replicas[x].sent && m.Propose? && m.slot == i;
    assert m in d.replicas[x].sent;
  }

  /** Ask one replica for the slots that are wanted, z first. */
  lemma {:induction false} AskSlots(cfg: Config, run: seq<Action>, x: ID, plan: int -> Command,
                                    slots: set<int>, queued: set<int>, wanted: set<int>,
                                    slotsEnd: set<int>, queuedEnd: set<int>, z: int,
                                    vocabulary: iset<Command>) returns (more: seq<Action>)
    requires IsRun(cfg, run) && From(After(cfg, run), vocabulary) && x in After(cfg, run).replicas
    requires Fits(plan, wanted, vocabulary)
    requires Own(After(cfg, run).replicas[x], cfg, x, plan, slots, queued)
    requires slots + wanted == slotsEnd && queued + wanted == queuedEnd
    requires z in wanted || HasProposal(After(cfg, run).replicas[x], z)
    ensures IsRun(cfg, more) && From(After(cfg, more), vocabulary) && Onward(After(cfg, run), After(cfg, more), {x})
    ensures Own(After(cfg, more).replicas[x], cfg, x, plan, slotsEnd, queuedEnd)
    ensures HasProposal(After(cfg, more).replicas[x], z)
    decreases |wanted|
  {
    if |wanted| == 0 {
      more := run;
      assert slots == slotsEnd && queued == queuedEnd;
    } else {
      var i := if z in wanted then z else Any(wanted);
      var one := AskOne(cfg, run, x, plan, slots, queued, i, vocabulary);
      if i != z {
        StillProposed(After(cfg, run), After(cfg, one), {x}, x, z);
      }
      MoveOver(slots, wanted, i, slotsEnd);
      MoveOver(queued, wanted, i, queuedEnd);
      more := AskSlots(cfg, one, x, plan, slots + {i}, queued + {i}, wanted - {i}, slotsEnd, queuedEnd, z, vocabulary);
      OnwardTwice(After(cfg, run), After(cfg, one), After(cfg, more), {x}, {x}, {x});
    }
  }

  lemma AskBatch(cfg: Config, run: seq<Action>, x: ID, plan: int -> Command, slots: set<int>, wanted: set<int>,
                 end: set<int>, z: int, vocabulary: iset<Command>) returns (more: seq<Action>)
    requires IsRun(cfg, run) && From(After(cfg, run), vocabulary) && x in After(cfg, run).replicas
    requires Fits(plan, wanted, vocabulary) && slots + wanted == end && z in wanted
    requires Own(After(cfg, run).replicas[x], cfg, x, plan, slots, {})
    ensures IsRun(cfg, more) && From(After(cfg, more), vocabulary) && Onward(After(cfg, run), After(cfg, more), {x})
    ensures Own(After(cfg, more).replicas[x], cfg, x, plan, end, wanted) && HasProposal(After(cfg, more).replicas[x], z)
  {
    assert {} + wanted == wanted;
    more := AskSlots(cfg, run, x, plan, slots, {}, wanted, end, wanted, z, vocabulary);
  }

  ghost predicate AllOwn(c: System, cfg: Config, plans: ID -> (int -> Command), ids: set<ID>, slots: set<int>,
                         queued: set<int>) {
    forall x :: x in ids ==> x in c.replicas && Own(c.replicas[x], cfg, x, plans(x), slots, queued)
  }

  ghost predicate AllProposed(c: System, ids: set<ID>, z: int) {
    forall x :: x in ids ==> x in c.replicas && HasProposal(c.replicas[x], z)
  }

  /** Between c and d the replicas that are not in ids have kept their state. */
  lemma OwnElsewhere(c: System, d: System, cfg: Config, plans: ID -> (int -> Command), ids: set<ID>, others: set<ID>,
                     slots: set<int>, queued: set<int>)
    requires AllOwn(c, cfg, plans, others, slots, queued) && Onward(c, d, ids) && ids !! others
    ensures AllOwn(d, cfg, plans, others, slots, queued)
  {}

  lemma ProposedOnward(c: System, d: System, ids: set<ID>, others: set<ID>, z: int)
    requires AllProposed(c, others, z) && Onward(c, d, ids)
    ensures AllProposed(d, others, z)
  {
    forall x | x in others ensures x in d.replicas && HasProposal(d.replicas[x], z) {
      StillProposed(c, d, ids, x, z);
    }
  }

  lemma OwnTogether(c: System, cfg: Config, plans: ID -> (int -> Command), ids: set<ID>, x: ID,
                    slots: set<int>, queued: set<int>)
    requires AllOwn(c, cfg, plans, ids - {x}, slots, queued)
    requires x in c.replicas && Own(c.replicas[x], cfg, x, plans(x), slots, queued)
    ensures AllOwn(c, cfg, plans, ids, slots, queued)
  {
    forall y | y in ids ensures y in c.replicas && Own(c.replicas[y], cfg, y, plans(y), slots, queued) {
      assert y != x ==> y in ids - {x};
    }
  }

  lemma ProposedTogether(c: System, d: System, ids: set<ID>, x: ID, z: int)
    requires Onward(c, d, ids - {x}) && AllProposed(d, ids - {x}, z)
    requires x in c.replicas && HasProposal(c.replicas[x], z)
    ensures AllProposed(d, ids, z)
  {
    StillProposed(c, d, ids - {x}, x, z);
    forall y | y in ids ensures y in d.replicas && HasProposal(d.replicas[y], z) {
      assert y == x || y in ids - {x};
    }
  }

  /** Ask every replica of ids for these slots. */
  lemma {:induction false} AskEach(cfg: Config, run: seq<Action>, ids: set<ID>, plans: ID -> (int -> Command),
                                   slots: set<int>, wanted: set<int>, end: set<int>, z: int, vocabulary: iset<Command>)
    returns (more: seq<Action>)
    requires IsRun(cfg, run) && From(After(cfg, run), vocabulary) && z in wanted && slots + wanted == end
    requires AllFit(plans, ids, wanted, vocabulary)
    requires AllOwn(After(cfg, run), cfg, plans, ids, slots, {})
    ensures IsRun(cfg, more) && From(After(cfg, more), vocabulary) && Onward(After(cfg, run), After(cfg, more), ids)
    ensures AllOwn(After(cfg, more), cfg, plans, ids, end, wanted) && AllProposed(After(cfg, more), ids, z)
    decreases |ids|
  {
    if |ids| == 0 {
      more := run;
    } else {
      var x := Any(ids);
      OneOut(ids, x);
      var one := AskBatch(cfg, run, x, plans(x), slots, wanted, end, z, vocabulary);
      OwnElsewhere(After(cfg, run), After(cfg, one), cfg, plans, {x}, ids - {x}, slots, {});
      more := AskEach(cfg, one, ids - {x}, plans, slots, wanted, end, z, vocabulary);
      OnwardTwice(After(cfg, run), After(cfg, one), After(cfg, more), {x}, ids - {x}, ids);
      OwnTogether(After(cfg, more), cfg, plans, ids, x, end, wanted);
      ProposedTogether(After(cfg, one), After(cfg, more), ids, x, z);
    }
  }

  lemma StartsAllOwn(cfg: Config, plans: ID -> (int -> Command), vocabulary: iset<Command>)
    ensures IsRun(cfg, []) && AllOwn(After(cfg, []), cfg, plans, cfg.ids, {}, {})
    ensures From(After(cfg, []), vocabulary) && After(cfg, []).replicas.Keys == cfg.ids
  {
    forall x | x in cfg.ids {
      StartsOwn(cfg, x, plans(x));
    }
  }

  lemma NothingPlus(slots: set<int>)
    ensures {} + slots == slots
  {}

  lemma ProposedAmong(c: System, ids: set<ID>, few: set<ID>, z: int)
    requires AllProposed(c, ids, z) && few <= ids
    ensures AllProposed(c, few, z)
  {}

  lemma SameRequests(c: System, d: System, vocabulary: iset<Command>)
    requires From(c, vocabulary) && d.requests == c.requests
    ensures From(d, vocabulary)
  {}

  lemma Untouched(c: System, d: System, x: ID, y: ID)
    requires Onward(c, d, {x}) && y in c.replicas && y != x
    ensures y in d.replicas && d.replicas[y] == c.replicas[y]
  {}

  // ---------- Voting ----------

  ghost predicate AllVoted(c: System, ids: set<ID>, slots: set<int>) {
    forall v :: v in ids ==> v in c.replicas && HasVote(c.replicas[v], v, slots)
  }

  lemma StillVoted(c: System, d: System, ids: set<ID>, voters: set<ID>, slots: set<int>)
    requires Onward(c, d, ids) && AllVoted(c, voters, slots)
    ensures AllVoted(d, voters, slots)
  {
    forall v | v in voters ensures v in d.replicas && HasVote(d.replicas[v], v, slots) {
      assert HasVote(c.replicas[v], v, slots);
      var m :| m in c.replicas[v].sent && IsVote(m, v, slots);
      assert m in d.replicas[v].sent;
    }
  }

  lemma VotedTogether(c: System, d: System, ids: set<ID>, x: ID, slots: set<int>)
    requires Onward(c, d, ids - {x}) && AllVoted(d, ids - {x}, slots)
    requires x in c.replicas && HasVote(c.replicas[x], x, slots)
    ensures AllVoted(d, ids, slots)
  {
    StillVoted(c, d, ids - {x}, {x}, slots);
    forall v | v in ids ensures v in d.replicas && HasVote(d.replicas[v], v, slots) {
      assert v in {x} || v in ids - {x};
    }
  }

  lemma ProposalToward(c: System, x: ID, y: ID, z: int) returns (m: Message)
    requires y in c.replicas && x != y && HasProposal(c.replicas[y], z)
    ensures m.Propose? && m.slot == z && SentToward(c, m, x)
  {
    m :| m in c.replicas[y].sent && m.Propose? && m.slot == z;
  }

  /** x receives a proposal of y and votes for all it has queued. */
  lemma VoteOnce(cfg: Config, run: seq<Action>, x: ID, y: ID, plan: int -> Command, slots: set<int>, queued: set<int>,
                 z: int) returns (more: seq<Action>)
    requires IsRun(cfg, run) && x != y && x in After(cfg, run).replicas && y in After(cfg, run).replicas
    requires Own(After(cfg, run).replicas[x], cfg, x, plan, slots, queued)
    requires HasProposal(After(cfg, run).replicas[y], z) && z in slots && z in queued && |queued| >= cfg.total
    ensures IsRun(cfg, more) && After(cfg, more).requests == After(cfg, run).requests
    ensures Onward(After(cfg, run), After(cfg, more), {x})
    ensures var t := After(cfg, more).replicas[x]; Own(t, cfg, x, plan, slots, {}) && HasVote(t, x, queued)
  {
    var m := ProposalToward(After(cfg, run), x, y, z);
    assert queued + {z} == queued;
    var order := VotesOwn(After(cfg, run).replicas[x], cfg, x, plan, slots, queued, m);
    more := run + [DeliverPropose(x, m, order)];
    Extend(cfg, run, DeliverPropose(x, m, order));
  }

  /** Every replica of ids votes, on a proposal of p, or of q when it is p itself. */
  lemma {:induction false} VoteEach(cfg: Config, run: seq<Action>, ids: set<ID>, p: ID, q: ID,
                                    plans: ID -> (int -> Command), slots: set<int>, queued: set<int>, z: int)
    returns (more: seq<Action>)
    requires IsRun(cfg, run) && AllProposed(After(cfg, run), {p, q}, z) && (p in ids ==> p != q)
    requires AllOwn(After(cfg, run), cfg, plans, ids, slots, queued)
    requires z in slots && z in queued && |queued| >= cfg.total
    ensures IsRun(cfg, more) && After(cfg, more).requests == After(cfg, run).requests
    ensures Onward(After(cfg, run), After(cfg, more), ids)
    ensures AllOwn(After(cfg, more), cfg, plans, ids, slots, {}) && AllVoted(After(cfg, more), ids, queued)
    decreases |ids|
  {
    if |ids| == 0 {
      more := run;
    } else {
      var x := Any(ids);
      OneOut(ids, x);
      var y := if x == p then q else p;
      assert y in {p, q};
      var one := VoteOnce(cfg, run, x, y, plans(x), slots, queued, z);
      ProposedOnward(After(cfg, run), After(cfg, one), {x}, {p, q}, z);
      OwnElsewhere(After(cfg, run), After(cfg, one), cfg, plans, {x}, ids - {x}, slots, queued);
      more := VoteEach(cfg, one, ids - {x}, p, q, plans, slots, queued, z);
      OnwardTwice(After(cfg, run), After(cfg, one), After(cfg, more), {x}, ids - {x}, ids);
      OwnTogether(After(cfg, more), cfg, plans, ids, x, slots, {});
      VotedTogether(After(cfg, one), After(cfg, more), ids, x, queued);
    }
  }

  /** A vote of v for these slots that x may receive. */
  lemma VoteToward(c: System, x: ID, v: ID, slots: set<int>) returns (m: Message)
    requires v in c.replicas && x != v && HasVote(c.replicas[v], v, slots)
    ensures IsVote(m, v, slots) && SentToward(c, m, x)
  {
    m :| m in c.replicas[v].sent && IsVote(m, v, slots);
  }

  /** Deliver a vote to x. */
  lemma DeliverTo(cfg: Config, run: seq<Action>, x: ID, v: ID, slots: set<int>, m: Message, order: seq<int>)
    returns (more: seq<Action>)
    requires IsRun(cfg, run) && x in After(cfg, run).replicas && SentToward(After(cfg, run), m, x)
    requires IsVote(m, v, slots) && VoteOrder(m.l, order)
    ensures IsRun(cfg, more) && After(cfg, more).requests == After(cfg, run).requests
    ensures Onward(After(cfg, run), After(cfg, more), {x})
    ensures After(cfg, more).replicas[x] == HandleVote(After(cfg, run).replicas[x], m.l, order)
  {
    VotesFurther(After(cfg, run).replicas[x], m.l, order, 0);
    assert order[..0] == [];
    more := run + [DeliverVote(x, m, order)];
    Extend(cfg, run, DeliverVote(x, m, order));
  }

  /** Enough voters for x's majority among the other replicas. */
  lemma Enough(cfg: Config, x: ID) returns (voters: set<ID>)
    requires x in cfg.ids && cfg.N() >= 2
    ensures voters <= cfg.ids - {x} && |voters| == cfg.N() / 2
    ensures |voters| > 0
  {
    assert |cfg.ids - {x}| == cfg.N() - 1;
    voters := TakeSome(cfg.ids - {x}, cfg.N() / 2);
  }

  /** One of the voters that are left. */
  lemma NextVoter(voters: set<ID>, some: set<ID>) returns (v: ID)
    requires some <= voters && |some| < |voters|
    ensures v in voters && v !in some && some + {v} <= voters && |some + {v}| == |some| + 1
  {
    assert |voters - some| == |voters| - |some| by {
      assert voters == some + (voters - some);
    }
    v := Any(voters - some);
  }
}
