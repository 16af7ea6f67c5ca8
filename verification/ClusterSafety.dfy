/** Safety of every run of the whole system. */
module ClusterSafety {
  import opened Ids
  import opened Databases
  import opened Quorums
  import opened Cardinality
  import opened Replicas
  import opened ReplicaInvariant
  import opened Cluster
  import HistoryCheck

  ghost function Commands(requests: seq<Request>): set<Command> { set r | r in requests :: r.command }

  ghost function CommandsAt(requests: seq<Request>, id: ID): set<Command> {
    set r | r in requests && r.to == id :: r.command
  }

  /** What replica id sees of the rest of the system. */
  ghost function ContextOf(c: System, id: ID): Context {
    Context(c.cfg, Commands(c.requests), CommandsAt(c.requests, id),
            set q, k | q in c.replicas && q != id && k in VotedSlots(c.replicas[q]) :: (q, k))
  }

  ghost predicate Inv(c: System) {
    && c.replicas.Keys == c.cfg.ids
    && forall id :: id in c.replicas ==> c.replicas[id].id == id && Good(ContextOf(c, id), c.replicas[id])
  }

  // ---------- Every step keeps the invariant ----------

  lemma AskedMore(c: System, a: Action)
    requires Enabled(c, a)
    ensures Commands(c.requests) <= Commands(Apply(c, a).requests)
    ensures forall id :: CommandsAt(c.requests, id) <= CommandsAt(Apply(c, a).requests, id)
    ensures a.Ask? ==> a.command in Commands(Apply(c, a).requests)
    ensures a.Ask? ==> a.command in CommandsAt(Apply(c, a).requests, a.to)
  {
    var d := Apply(c, a);
    assert forall r :: r in c.requests ==> r in d.requests;
    if a.Ask? {
      assert d.requests[|c.requests|] == Request(a.to, a.command);
      assert Request(a.to, a.command) in d.requests;
    }
  }

  /** What a handler needs to know about the action it handles. */
  ghost predicate Acceptable(x: Context, a: Action) {
    match a
    case Ask(_, command) => command in x.asked && command in x.own
    case DeliverPropose(_, m, _) => m.Propose? && x.Proposes(m.slot, m.command)
    case DeliverVote(_, m, _) =>
      m.Vote? && forall k :: k in m.l ==> x.Proposes(k, m.l[k].command) && m.l[k].id in x.Voters(k)
  }

  /** What a replica has executed, sent and replied stays, and its frontier never moves back. */
  ghost predicate Keeps(s: State, t: State) {
    s.execute <= t.execute && s.executed <= t.executed && s.sent <= t.sent && s.replies <= t.replies
  }

  lemma HandleOk(x: Context, s: State, a: Action)
    requires Good(x, s) && Acceptable(x, a)
    ensures Good(x, Handle(s, a)) && Keeps(s, Handle(s, a)) && Handle(s, a).id == s.id
  {
    match a {
      case Ask(to, command) => GoodHandleRequest(x, s, command);
      case DeliverPropose(to, m, order) => GoodHandlePropose(x, s, m, order);
      case DeliverVote(to, m, order) => GoodHandleVote(x, s, m.l, order);
    }
  }

  /** A delivered proposal was made for a requested command; a delivered vote lists its sender's votes. */
  lemma DeliveredAcceptable(c: System, a: Action)
    requires Inv(c) && Enabled(c, a) && !a.Ask?
    ensures Acceptable(ContextOf(c, a.to), a)
  {
    var q :| q in c.replicas && q != a.to && a.m in c.replicas[q].sent;
    assert MessageOk(ContextOf(c, q), q, a.m);
    if a.DeliverVote? {
      forall k | k in a.m.l
        ensures a.m.l[k].id in ContextOf(c, a.to).Voters(k)
      {
        assert k in VotedSlots(c.replicas[q]);
      }
    }
  }

  lemma AcceptableWithin(x: Context, y: Context, a: Action)
    requires Acceptable(x, a) && x.Within(y)
    ensures Acceptable(y, a)
  {
    if a.DeliverVote? {
      assert forall k :: x.Voters(k) <= y.Voters(k);
    }
  }

  /** The context of the receiver: only the requests can have grown. */
  lemma ReceiverWithin(c: System, a: Action)
    requires Enabled(c, a)
    ensures ContextOf(c, a.to).Within(ContextOf(Apply(c, a), a.to))
  {
    AskedMore(c, a);
    var d := Apply(c, a);
    assert forall q :: q in c.replicas && q != a.to ==> q in d.replicas && d.replicas[q] == c.replicas[q];
  }

  lemma ReceiverContext(c: System, a: Action)
    requires Inv(c) && Enabled(c, a)
    ensures ContextOf(c, a.to).Within(ContextOf(Apply(c, a), a.to))
    ensures Acceptable(ContextOf(Apply(c, a), a.to), a)
  {
    ReceiverWithin(c, a);
    AskedMore(c, a);
    var x, y := ContextOf(c, a.to), ContextOf(Apply(c, a), a.to);
    if !a.Ask? {
      DeliveredAcceptable(c, a);
      AcceptableWithin(x, y, a);
    }
  }

  lemma ReceiverStep(c: System, a: Action)
    requires Inv(c) && Enabled(c, a)
    ensures var d := Apply(c, a);
            && Good(ContextOf(d, a.to), d.replicas[a.to])
            && d.replicas[a.to].id == a.to
            && Keeps(c.replicas[a.to], d.replicas[a.to])
  {
    var x, y := ContextOf(c, a.to), ContextOf(Apply(c, a), a.to);
    ReceiverContext(c, a);
    GoodWithin(x, y, c.replicas[a.to]);
    HandleOk(y, c.replicas[a.to], a);
  }

  /** Deliveries make no proposal; a delivered proposal can raise the ballot. */
  lemma DeliveryGrows(c: System, a: Action)
    requires Inv(c) && Enabled(c, a) && !a.Ask?
    ensures var s := c.replicas[a.to];
            Grows(s.(ballot := if a.DeliverPropose? then Later(s.ballot, a.m.ballot) else s.ballot), Handle(s, a))
  {
    var x, s := ContextOf(c, a.to), c.replicas[a.to];
    DeliveredAcceptable(c, a);
    if a.DeliverPropose? {
      GoodHandlePropose(x, s, a.m, a.order);
    } else {
      GoodHandleVote(x, s, a.m.l, a.order);
    }
  }

  lemma BystanderContext(c: System, a: Action, id: ID)
    requires Enabled(c, a) && id != a.to
    requires c.replicas[a.to].sent <= Apply(c, a).replicas[a.to].sent
    ensures ContextOf(c, id).Within(ContextOf(Apply(c, a), id))
  {
    AskedMore(c, a);
    SentPrefix(c.replicas[a.to], Apply(c, a).replicas[a.to]);
  }

  lemma BystanderStep(c: System, a: Action, id: ID)
    requires Inv(c) && Enabled(c, a) && id in c.replicas && id != a.to
    ensures Good(ContextOf(Apply(c, a), id), c.replicas[id])
  {
    ReceiverStep(c, a);
    BystanderContext(c, a, id);
    GoodWithin(ContextOf(c, id), ContextOf(Apply(c, a), id), c.replicas[id]);
  }

  lemma StepKeepsInv(c: System, a: Action)
    requires Inv(c) && Enabled(c, a)
    ensures Inv(Apply(c, a))
  {
    var d := Apply(c, a);
    ReceiverStep(c, a);
    forall id | id in d.replicas && id != a.to
      ensures d.replicas[id].id == id && Good(ContextOf(d, id), d.replicas[id])
    {
      BystanderStep(c, a, id);
    }
  }

  lemma {:induction false} RunKeepsInv(cfg: Config, actions: seq<Action>)
    requires IsRun(cfg, actions)
    ensures Inv(After(cfg, actions)) && After(cfg, actions).cfg == cfg
    decreases |actions|
  {
    if actions == [] {
      forall id | id in cfg.ids {
        GoodInit(ContextOf(Start(cfg), id), id);
      }
    } else {
      var n := |actions| - 1;
      RunKeepsInv(cfg, actions[..n]);
      StepKeepsInv(After(cfg, actions[..n]), actions[n]);
    }
  }

  /** The invariant of one replica at the end of a run. */
  lemma RunGood(cfg: Config, actions: seq<Action>, id: ID)
    requires IsRun(cfg, actions) && id in After(cfg, actions).replicas
    ensures var c := After(cfg, actions);
            && c.cfg == cfg && c.replicas[id].id == id && id in cfg.ids
            && Good(ContextOf(c, id), c.replicas[id])
            && c.replicas[id].db == Replay(Empty(cfg.multiversion), c.replicas[id].executed)
  {
    RunKeepsInv(cfg, actions);
  }

  // ---------- Certificates and agreement ----------

  /** The replicas that have broadcast a vote listing slot k. */
  ghost function VotersFor(c: System, k: int): set<ID> {
    set q | q in c.replicas && k in VotedSlots(c.replicas[q])
  }

  /**
   In every run: a replica executes slots 0, 1, 2, ... without a gap, each a command some client asked for
   with that slot number, and only after half of the replicas, all of them others, have voted for the slot.
   */
  lemma ExecutedSlotsAreCertified(cfg: Config, actions: seq<Action>, id: ID, k: nat)
    requires IsRun(cfg, actions)
    requires var c := After(cfg, actions); id in c.replicas && k < c.replicas[id].execute
    ensures var c := After(cfg, actions); var s := c.replicas[id];
            && |s.executed| == s.execute
            && s.executed[k].counter == k
            && (exists r :: r in c.requests && r.command == s.executed[k])
            && |VotersFor(c, k) - {id}| >= cfg.N() / 2
  {
    var c := After(cfg, actions);
    RunGood(cfg, actions, id);
    assert ContextOf(c, id).Certified(k);
    OtherVoters(c, id, k);
  }

  lemma OtherVoters(c: System, id: ID, k: int)
    ensures |ContextOf(c, id).Voters(k)| <= |VotersFor(c, k) - {id}|
  {
    SubsetSize(ContextOf(c, id).Voters(k), VotersFor(c, k) - {id});
  }

  /** Every request for slot k carries the same command. */
  ghost predicate OneCommandFor(requests: seq<Request>, k: int) {
    forall r, q :: r in requests && q in requests && r.command.counter == k && q.command.counter == k ==>
      r.command == q.command
  }

  /** Replicas never execute different commands in a slot for which clients asked for one command. */
  lemma SlotAgreement(cfg: Config, actions: seq<Action>, p: ID, q: ID, k: nat)
    requires IsRun(cfg, actions)
    requires var c := After(cfg, actions);
             && p in c.replicas && q in c.replicas
             && k < c.replicas[p].execute && k < c.replicas[q].execute
             && OneCommandFor(c.requests, k)
    ensures var c := After(cfg, actions);
            && k < |c.replicas[p].executed| && k < |c.replicas[q].executed|
            && c.replicas[p].executed[k] == c.replicas[q].executed[k]
  {
    ExecutedSlotsAreCertified(cfg, actions, p, k);
    ExecutedSlotsAreCertified(cfg, actions, q, k);
  }

  ghost predicate OneCommandPerSlot(requests: seq<Request>) { forall k: nat :: OneCommandFor(requests, k) }

  /** Of any two replicas, one has executed a prefix of what the other has. */
  lemma ExecutedPrefixes(cfg: Config, actions: seq<Action>, p: ID, q: ID)
    requires IsRun(cfg, actions)
    requires var c := After(cfg, actions);
             p in c.replicas && q in c.replicas && OneCommandPerSlot(c.requests)
    ensures var c := After(cfg, actions); var a, b := c.replicas[p].executed, c.replicas[q].executed;
            if |a| <= |b| then a <= b else b <= a
  {
    RunGood(cfg, actions, p);
    RunGood(cfg, actions, q);
    var c := After(cfg, actions);
    var a, b := c.replicas[p].executed, c.replicas[q].executed;
    forall k | 0 <= k < |a| && k < |b|
      ensures a[k] == b[k]
    {
      SlotAgreement(cfg, actions, p, q, k);
    }
  }

  ghost function Histories(c: System, key: int): map<ID, seq<Value>> {
    map id | id in c.replicas :: c.replicas[id].db.History(key)
  }

  /** Hence any two replicas hold histories of a key of which one extends the other. */
  lemma HistoriesArePrefixes(cfg: Config, actions: seq<Action>, key: int, p: ID, q: ID)
    requires IsRun(cfg, actions) && OneCommandPerSlot(After(cfg, actions).requests)
    requires p in After(cfg, actions).replicas && q in After(cfg, actions).replicas
    ensures var h := Histories(After(cfg, actions), key); h[p] <= h[q] || h[q] <= h[p]
  {
    ExecutedPrefixes(cfg, actions, p, q);
    RunGood(cfg, actions, p);
    RunGood(cfg, actions, q);
    var c := After(cfg, actions);
    var a, b := c.replicas[p].executed, c.replicas[q].executed;
    ReplayFromEmpty(cfg.multiversion, a, key);
    ReplayFromEmpty(cfg.multiversion, b, key);
    if |a| <= |b| {
      WritesToPrefix(a, b, key);
    } else {
      WritesToPrefix(b, a, key);
    }
  }

  /** So the admin check across the replicas succeeds for every key. */
  lemma HistoriesAgree(cfg: Config, actions: seq<Action>, key: int)
    requires IsRun(cfg, actions) && OneCommandPerSlot(After(cfg, actions).requests)
    ensures HistoryCheck.AllAgree(Histories(After(cfg, actions), key))
  {
    var h := Histories(After(cfg, actions), key);
    forall p, q | p in h && q in h
      ensures h[p] <= h[q] || h[q] <= h[p]
    {
      HistoriesArePrefixes(cfg, actions, key, p, q);
    }
    HistoryCheck.PrefixesAgree(h);
  }

  /** Replicas that have executed equally many slots hold the same database. */
  lemma SameFrontierSameDatabase(cfg: Config, actions: seq<Action>, p: ID, q: ID)
    requires IsRun(cfg, actions)
    requires var c := After(cfg, actions);
             && p in c.replicas && q in c.replicas && OneCommandPerSlot(c.requests)
             && c.replicas[p].execute == c.replicas[q].execute
    ensures After(cfg, actions).replicas[p].db == After(cfg, actions).replicas[q].db
  {
    RunGood(cfg, actions, p);
    RunGood(cfg, actions, q);
    ExecutedPrefixes(cfg, actions, p, q);
    var c := After(cfg, actions);
    assert |c.replicas[p].executed| == |c.replicas[q].executed|;
    assert c.replicas[p].executed == c.replicas[q].executed;
  }

  // ---------- Nothing is undone ----------

  lemma StepKeeps(c: System, a: Action, id: ID)
    requires Inv(c) && Enabled(c, a) && id in c.replicas
    ensures Keeps(c.replicas[id], Apply(c, a).replicas[id])
  {
    ReceiverStep(c, a);
  }

  lemma {:induction false} RunsUndoNothing(cfg: Config, actions: seq<Action>, k: nat, id: ID)
    requires IsRun(cfg, actions) && k <= |actions| && id in cfg.ids
    ensures IsRun(cfg, actions[..k])
    ensures id in After(cfg, actions[..k]).replicas && id in After(cfg, actions).replicas
    ensures Keeps(After(cfg, actions[..k]).replicas[id], After(cfg, actions).replicas[id])
    decreases |actions|
  {
    RunKeepsInv(cfg, actions);
    FrontPrefix(actions, k);
    if k < |actions| {
      LastStepKeeps(cfg, actions, id);
      RunsUndoNothing(cfg, actions[..|actions| - 1], k, id);
    }
  }

  lemma LastStepKeeps(cfg: Config, actions: seq<Action>, id: ID)
    requires IsRun(cfg, actions) && actions != [] && id in cfg.ids
    ensures var front := actions[..|actions| - 1];
            && id in After(cfg, front).replicas && id in After(cfg, actions).replicas
            && Keeps(After(cfg, front).replicas[id], After(cfg, actions).replicas[id])
  {
    var front := actions[..|actions| - 1];
    RunKeepsInv(cfg, front);
    StepKeeps(After(cfg, front), actions[|actions| - 1], id);
  }

  // ---------- A single replica ----------

  /** A single replica never receives a message. */
  lemma NoLonelyDelivery(cfg: Config, run: seq<Action>, a: Action)
    requires IsRun(cfg, run) && Enabled(After(cfg, run), a) && !a.Ask?
    ensures cfg.N() >= 2
  {
    RunKeepsInv(cfg, run);
    var q := Sender(After(cfg, run), a);
    TwoMembers(cfg.ids, q, a.to);
  }

  lemma Sender(c: System, a: Action) returns (q: ID)
    requires Enabled(c, a) && !a.Ask?
    ensures q in c.replicas && q != a.to
  {
    q :| q in c.replicas && q != a.to && a.m in c.replicas[q].sent;
  }

  /** So it never executes anything. */
  lemma {:induction false} LonelyNeverRuns(cfg: Config, run: seq<Action>, id: ID)
    requires IsRun(cfg, run) && cfg.N() < 2 && id in After(cfg, run).replicas
    ensures After(cfg, run).replicas[id].execute == 0
    decreases |run|
  {
    if run != [] {
      LastStep(cfg, run);
      var front, last := run[..|run| - 1], run[|run| - 1];
      if !last.Ask? {
        NoLonelyDelivery(cfg, front, last);
      }
      OneStep(After(cfg, front), last);
      LonelyNeverRuns(cfg, front, id);
    }
  }
}
