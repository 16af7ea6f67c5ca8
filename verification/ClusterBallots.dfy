/** Ballots over whole runs: they only rise, and no two proposals share one. */
module ClusterBallots {
  import opened Ids
  import opened Ballots
  import opened Databases
  import opened Quorums
  import opened Cardinality
  import opened Replicas
  import opened ReplicaInvariant
  import opened Cluster
  import opened ClusterSafety

  predicate AllCanonical(cfg: Config) { forall id :: id in cfg.ids ==> Canonical(id) }

  /** The proposals of a replica carry its own identifier and rising counters from 1 on, none above its ballot's. */
  ghost predicate BallotsRise(s: State) {
    && (forall i :: 0 <= i < |s.sent| && s.sent[i].Propose? ==>
          BallotID(s.sent[i].ballot) == s.id && 0 < N(s.sent[i].ballot) <= N(s.ballot))
    && (forall i, j :: 0 <= i < j < |s.sent| && s.sent[i].Propose? && s.sent[j].Propose? ==>
          N(s.sent[i].ballot) < N(s.sent[j].ballot))
  }

  /** No counter is above the number of requests so far. */
  ghost predicate BallotInv(c: System) {
    forall id :: id in c.replicas ==> BallotsRise(c.replicas[id]) && N(c.replicas[id].ballot) <= |c.requests|
  }

  lemma RequestRaises(s: State, command: Command)
    requires BallotsRise(s) && Canonical(s.id) && N(s.ballot) < TWO32 - 1
    ensures var t := HandleRequest(s, command);
            BallotsRise(t) && N(t.ballot) == N(s.ballot) + 1 && s.ballot < t.ballot
  {
    NextIncreases(s.ballot, s.id);
    var b := Next(s.ballot, s.id);
    NextFields(s, command, b);
  }

  lemma NextFields(s: State, command: Command, b: Ballot)
    requires BallotsRise(s) && b == Next(s.ballot, s.id) && N(b) == N(s.ballot) + 1 && BallotID(b) == s.id
    ensures BallotsRise(HandleRequest(s, command)) && HandleRequest(s, command).ballot == b
  {}

  lemma GrowsKeepsRise(s: State, t: State, b: Ballot)
    requires BallotsRise(s) && s.ballot <= b && Grows(s.(ballot := b), t)
    ensures BallotsRise(t) && t.ballot == b
  {
    CounterMonotone(s.ballot, b);
    assert forall i :: 0 <= i < |s.sent| ==> t.sent[i] == s.sent[i];
  }

  lemma DeliveryRaises(c: System, a: Action)
    requires Inv(c) && BallotInv(c) && Enabled(c, a) && !a.Ask?
    ensures var s, t := c.replicas[a.to], Handle(c.replicas[a.to], a);
            BallotsRise(t) && N(t.ballot) <= |c.requests| && s.ballot <= t.ballot
  {
    var s, t := c.replicas[a.to], Handle(c.replicas[a.to], a);
    DeliveryGrows(c, a);
    var b := if a.DeliverPropose? then Later(s.ballot, a.m.ballot) else s.ballot;
    GrowsKeepsRise(s, t, b);
    assert N(b) <= |c.requests| by {
      var q :| q in c.replicas && q != a.to && a.m in c.replicas[q].sent;
      assert BallotsRise(c.replicas[q]);
    }
  }

  function RequestsAfter(c: System, a: Action): nat { |c.requests| + if a.Ask? then 1 else 0 }

  lemma RequestsCounted(c: System, a: Action)
    requires Enabled(c, a)
    ensures |Apply(c, a).requests| == RequestsAfter(c, a)
  {}

  lemma ReceiverRaises(c: System, a: Action)
    requires Inv(c) && BallotInv(c) && Enabled(c, a) && AllCanonical(c.cfg) && RequestsAfter(c, a) < TWO32
    ensures var s, t := c.replicas[a.to], Handle(c.replicas[a.to], a);
            BallotsRise(t) && N(t.ballot) <= RequestsAfter(c, a) && s.ballot <= t.ballot
  {
    if a.Ask? {
      assert N(c.replicas[a.to].ballot) < TWO32 - 1;
      RequestRaises(c.replicas[a.to], a.command);
    } else {
      DeliveryRaises(c, a);
    }
  }

  lemma StepKeepsBallots(c: System, a: Action)
    requires Inv(c) && BallotInv(c) && Enabled(c, a) && AllCanonical(c.cfg) && RequestsAfter(c, a) < TWO32
    ensures BallotInv(Apply(c, a))
  {
    ReceiverRaises(c, a);
    OneReplaced(c, a.to, Handle(c.replicas[a.to], a), Apply(c, a).requests);
  }

  lemma OneReplaced(c: System, id: ID, t: State, requests: seq<Request>)
    requires BallotInv(c) && BallotsRise(t) && N(t.ballot) <= |requests| && |c.requests| <= |requests|
    ensures BallotInv(System(c.cfg, c.replicas[id := t], requests))
  {}

  lemma StepRaises(c: System, a: Action, id: ID)
    requires Inv(c) && BallotInv(c) && Enabled(c, a) && AllCanonical(c.cfg) && RequestsAfter(c, a) < TWO32
    requires id in c.replicas
    ensures c.replicas[id].ballot <= Apply(c, a).replicas[id].ballot
  {
    OneStep(c, a);
    if id == a.to {
      ReceiverRaises(c, a);
    }
  }

  lemma {:induction false} RunKeepsBallots(cfg: Config, actions: seq<Action>)
    requires IsRun(cfg, actions) && AllCanonical(cfg) && |After(cfg, actions).requests| < TWO32
    ensures BallotInv(After(cfg, actions))
    decreases |actions|
  {
    if actions != [] {
      var n := |actions| - 1;
      LastStep(cfg, actions);
      var c := After(cfg, actions[..n]);
      RequestsCounted(c, actions[n]);
      RunKeepsBallots(cfg, actions[..n]);
      RunKeepsInv(cfg, actions[..n]);
      StepKeepsBallots(c, actions[n]);
    }
  }

  // ---------- Proposals with the same ballot ----------

  /** The proposals of a replica carry its own identifier and different counters. */
  ghost predicate CountersDiffer(s: State) {
    && (forall i :: 0 <= i < |s.sent| && s.sent[i].Propose? ==> BallotID(s.sent[i].ballot) == s.id)
    && (forall i, j :: 0 <= i < j < |s.sent| && s.sent[i].Propose? && s.sent[j].Propose? ==>
          N(s.sent[i].ballot) != N(s.sent[j].ballot))
  }

  /** The counter may wrap: no proposal so far carries the counter 0. */
  lemma RequestDiffers(s: State, command: Command)
    requires BallotsRise(s) && Canonical(s.id)
    ensures CountersDiffer(HandleRequest(s, command))
  {
    NextCounter(s.ballot, s.id);
    NewCounterDiffers(s, command, Next(s.ballot, s.id));
  }

  lemma NextCounter(b: Ballot, id: ID)
    requires Canonical(id)
    ensures BallotID(Next(b, id)) == id && (N(Next(b, id)) == 0 || N(Next(b, id)) == N(b) + 1)
  {
    NextIncreases(b, id);
    PackRoundTrip(N(b) + 1, id);
    Wrapped(N(b) + 1);
  }

  lemma NewCounterDiffers(s: State, command: Command, b: Ballot)
    requires BallotsRise(s) && b == Next(s.ballot, s.id)
    requires BallotID(b) == s.id && (N(b) == 0 || N(b) == N(s.ballot) + 1)
    ensures CountersDiffer(HandleRequest(s, command))
  {}

  lemma GrowsKeepsDiffer(s: State, t: State, b: Ballot)
    requires CountersDiffer(s) && Grows(s.(ballot := b), t)
    ensures CountersDiffer(t)
  {
    assert forall i :: 0 <= i < |s.sent| ==> t.sent[i] == s.sent[i];
  }

  lemma ReceiverDiffers(c: System, a: Action)
    requires Inv(c) && Enabled(c, a) && AllCanonical(c.cfg) && CountersDiffer(c.replicas[a.to])
    requires a.Ask? ==> BallotInv(c)
    ensures CountersDiffer(Handle(c.replicas[a.to], a))
  {
    var s := c.replicas[a.to];
    if a.Ask? {
      RequestDiffers(s, a.command);
    } else {
      DeliveryGrows(c, a);
      GrowsKeepsDiffer(s, Handle(s, a), if a.DeliverPropose? then Later(s.ballot, a.m.ballot) else s.ballot);
    }
  }

  lemma {:induction false} RunDiffers(cfg: Config, actions: seq<Action>, id: ID)
    requires IsRun(cfg, actions) && AllCanonical(cfg) && |After(cfg, actions).requests| <= TWO32
    requires id in After(cfg, actions).replicas
    ensures CountersDiffer(After(cfg, actions).replicas[id])
    decreases |actions|
  {
    if actions != [] {
      var front, last := actions[..|actions| - 1], actions[|actions| - 1];
      LastStep(cfg, actions);
      OneStep(After(cfg, front), last);
      RequestsCounted(After(cfg, front), last);
      RunDiffers(cfg, front, id);
      if id == last.to {
        RunGood(cfg, front, id);
        RunKeepsInv(cfg, front);
        if last.Ask? {
          RunKeepsBallots(cfg, front);
        }
        ReceiverDiffers(After(cfg, front), last);
      }
    }
  }

  /**
   Runs with at most 2^32 requests: two proposals made for different requests, by the same replica or
   by different ones, never carry the same ballot.
   */
  lemma ProposalBallotsAreUnique(cfg: Config, actions: seq<Action>, p: ID, i: nat, q: ID, j: nat)
    requires IsRun(cfg, actions) && AllCanonical(cfg) && |After(cfg, actions).requests| <= TWO32
    requires var c := After(cfg, actions);
             && p in c.replicas && i < |c.replicas[p].sent| && c.replicas[p].sent[i].Propose?
             && q in c.replicas && j < |c.replicas[q].sent| && c.replicas[q].sent[j].Propose?
    ensures var c := After(cfg, actions);
            c.replicas[p].sent[i].ballot == c.replicas[q].sent[j].ballot <==> p == q && i == j
  {
    RunDiffers(cfg, actions, p);
    RunDiffers(cfg, actions, q);
    RunGood(cfg, actions, p);
    RunGood(cfg, actions, q);
  }

  // ---------- Falling ballots ----------

  /** A replica's ballot never falls. */
  lemma {:induction false} BallotsNeverFall(cfg: Config, actions: seq<Action>, k: nat, id: ID)
    requires IsRun(cfg, actions) && AllCanonical(cfg) && |After(cfg, actions).requests| < TWO32
    requires k <= |actions| && id in cfg.ids
    ensures IsRun(cfg, actions[..k])
    ensures id in After(cfg, actions[..k]).replicas && id in After(cfg, actions).replicas
    ensures After(cfg, actions[..k]).replicas[id].ballot <= After(cfg, actions).replicas[id].ballot
    decreases |actions|
  {
    RunKeepsInv(cfg, actions);
    FrontPrefix(actions, k);
    if k < |actions| {
      LastStepRaises(cfg, actions, id);
      BallotsNeverFall(cfg, actions[..|actions| - 1], k, id);
    }
  }

  lemma LastStepRaises(cfg: Config, actions: seq<Action>, id: ID)
    requires IsRun(cfg, actions) && AllCanonical(cfg) && |After(cfg, actions).requests| < TWO32
    requires actions != [] && id in cfg.ids
    ensures var front := actions[..|actions| - 1];
            && id in After(cfg, front).replicas && id in After(cfg, actions).replicas
            && After(cfg, front).replicas[id].ballot <= After(cfg, actions).replicas[id].ballot
  {
    var front := actions[..|actions| - 1];
    LastStep(cfg, actions);
    RequestsCounted(After(cfg, front), actions[|actions| - 1]);
    RunKeepsInv(cfg, front);
    RunKeepsBallots(cfg, front);
    StepRaises(After(cfg, front), actions[|actions| - 1], id);
  }

  // ---------- The exact numbers of requests ----------

  /** In all runs with at most this many requests no ballot ever falls. */
  ghost predicate NeverFall(cfg: Config, bound: nat) {
    forall actions, k: nat, id | IsRun(cfg, actions) && |After(cfg, actions).requests| <= bound
                                 && k <= |actions| && id in cfg.ids :: NotBelow(cfg, actions, k, id)
  }

  /** The replica's ballot after the run is not below that after its first k actions. */
  ghost predicate NotBelow(cfg: Config, actions: seq<Action>, k: nat, id: ID)
    requires IsRun(cfg, actions) && k <= |actions|
  {
    && IsRun(cfg, actions[..k])
    && id in After(cfg, actions[..k]).replicas && id in After(cfg, actions).replicas
    && After(cfg, actions[..k]).replicas[id].ballot <= After(cfg, actions).replicas[id].ballot
  }

  ghost predicate IsProposal(c: System, p: ID, i: nat) {
    p in c.replicas && i < |c.replicas[p].sent| && c.replicas[p].sent[i].Propose?
  }

  ghost predicate AllUnique(c: System) {
    forall p, i: nat, q, j: nat | IsProposal(c, p, i) && IsProposal(c, q, j) ::
      c.replicas[p].sent[i].ballot == c.replicas[q].sent[j].ballot ==> p == q && i == j
  }

  /** In all runs with at most this many requests no two proposals carry the same ballot. */
  ghost predicate AlwaysUnique(cfg: Config, bound: nat) {
    forall actions | IsRun(cfg, actions) && |After(cfg, actions).requests| <= bound :: AllUnique(After(cfg, actions))
  }

  /** The same replica is asked n times. */
  function Asks(id: ID, n: nat): seq<Action> { seq(n, i => Ask(id, Command(0, Nil, id, 0, 0))) }

  lemma {:induction false} AsksRun(cfg: Config, id: ID, n: nat)
    requires id in cfg.ids
    ensures IsRun(cfg, Asks(id, n)) && |After(cfg, Asks(id, n)).requests| == n
    ensures var c := After(cfg, Asks(id, n));
            && id in c.replicas && c.replicas[id].id == id
            && c.replicas[id].ballot == NextTimes(0, id, n) && |c.replicas[id].sent| == n
            && forall i :: 0 <= i < n ==>
                 c.replicas[id].sent[i].Propose? && c.replicas[id].sent[i].ballot == NextTimes(0, id, i + 1)
  {
    if n > 0 {
      AsksRun(cfg, id, n - 1);
      assert Asks(id, n)[..n - 1] == Asks(id, n - 1);
    }
  }

  /** The wrapping request: the counter goes from its last value to 0. */
  lemma Falls(cfg: Config, id: ID, n: nat)
    requires id in cfg.ids && Canonical(id) && n == TWO32
    ensures IsRun(cfg, Asks(id, n)) && |After(cfg, Asks(id, n)).requests| == n
    ensures !NotBelow(cfg, Asks(id, n), n - 1, id)
  {
    AsksRun(cfg, id, n);
    AsksRun(cfg, id, n - 1);
    assert Asks(id, n)[..n - 1] == Asks(id, n - 1);
    LastCounterFalls(id, n);
  }

  lemma LastCounterFalls(id: ID, n: nat)
    requires Canonical(id) && n == TWO32
    ensures NextTimes(0, id, n) < NextTimes(0, id, n - 1)
  {
    CounterOf(id, n);
    CounterOf(id, n - 1);
    LowerCounter(NextTimes(0, id, n), NextTimes(0, id, n - 1));
  }

  lemma CounterOf(id: ID, n: nat)
    requires Canonical(id) && n <= TWO32
    ensures N(NextTimes(0, id, n)) == if n == TWO32 then 0 else n
  {
    CounterAfter(0, id, n);
    FirstCounter();
    Wrapped(n);
  }

  lemma FirstCounter()
    ensures N(0) == 0
  {}

  lemma Wrapped(n: nat)
    requires n <= TWO32
    ensures n % TWO32 == if n == TWO32 then 0 else n
  {}

  lemma LowerCounter(a: Ballot, b: Ballot)
    requires N(a) < N(b)
    ensures a < b
  {}

  /** For every cluster and every bound on the requests: ballots never fall exactly below 2^32 requests. */
  lemma NeverFallExactly(cfg: Config, bound: nat)
    requires AllCanonical(cfg) && cfg.ids != {}
    ensures NeverFall(cfg, bound) <==> bound < TWO32
  {
    if bound < TWO32 {
      forall actions, k: nat, id | IsRun(cfg, actions) && |After(cfg, actions).requests| <= bound
                                   && k <= |actions| && id in cfg.ids
        ensures NotBelow(cfg, actions, k, id)
      {
        BallotsNeverFall(cfg, actions, k, id);
      }
    } else {
      var id := Any(cfg.ids);
      Falls(cfg, id, TWO32);
    }
  }

  /** The same ballot returns after 2^32 further requests. */
  lemma Returns(cfg: Config, id: ID, n: nat)
    requires id in cfg.ids && Canonical(id) && n == TWO32
    ensures IsRun(cfg, Asks(id, n + 1)) && |After(cfg, Asks(id, n + 1)).requests| == n + 1
    ensures !AllUnique(After(cfg, Asks(id, n + 1)))
  {
    AsksRun(cfg, id, n + 1);
    CounterWraps(0, id, 1);
    var c := After(cfg, Asks(id, n + 1));
    assert IsProposal(c, id, 0) && IsProposal(c, id, n);
    assert c.replicas[id].sent[n].ballot == NextTimes(0, id, n + 1);
  }

  /** Proposals are told apart by their ballots exactly up to 2^32 requests. */
  lemma AlwaysUniqueExactly(cfg: Config, bound: nat)
    requires AllCanonical(cfg) && cfg.ids != {}
    ensures AlwaysUnique(cfg, bound) <==> bound <= TWO32
  {
    if bound <= TWO32 {
      forall actions | IsRun(cfg, actions) && |After(cfg, actions).requests| <= bound
        ensures AllUnique(After(cfg, actions))
      {
        forall p, i: nat, q, j: nat | IsProposal(After(cfg, actions), p, i) && IsProposal(After(cfg, actions), q, j)
          ensures After(cfg, actions).replicas[p].sent[i].ballot == After(cfg, actions).replicas[q].sent[j].ballot
              ==> p == q && i == j
        {
          ProposalBallotsAreUnique(cfg, actions, p, i, q, j);
        }
      }
    } else {
      var id := Any(cfg.ids);
      Returns(cfg, id, TWO32);
    }
  }
}
