/**
 The replicas together. Messages are never taken back: a message broadcast once may be delivered to
 every other replica any number of times, in any order, or never. A run is a list of actions.
 */
module Cluster {
  import opened Ids
  import opened Databases
  import opened Quorums
  import opened Replicas

  /** A client request and the replica it was given to. */
  datatype Request = Request(to: ID, command: Command)

  datatype System = System(cfg: Config, replicas: map<ID, State>, requests: seq<Request>)

  datatype Action =
    | Ask(to: ID, command: Command)
    | DeliverPropose(to: ID, m: Message, order: seq<int>)
    | DeliverVote(to: ID, m: Message, order: seq<int>)

  function Start(cfg: Config): System {
    System(cfg, map id | id in cfg.ids :: Init(cfg, id), [])
  }

  /** Some other replica has broadcast m. */
  ghost predicate SentToward(c: System, m: Message, to: ID) {
    exists q :: q in c.replicas && q != to && m in c.replicas[q].sent
  }

  ghost predicate Enabled(c: System, a: Action) {
    && a.to in c.replicas
    && match a
       case Ask(_, _) => true
       case DeliverPropose(to, m, order) => m.Propose? && SentToward(c, m, to) && ProposeOrder(c.replicas[to], m, order)
       case DeliverVote(to, m, order) => m.Vote? && SentToward(c, m, to) && VoteOrder(m.l, order)
  }

  /** What the receiving replica's handler does. */
  ghost function Handle(s: State, a: Action): State
    requires a.DeliverPropose? ==> a.m.Propose?
    requires a.DeliverVote? ==> a.m.Vote?
  {
    match a
    case Ask(_, command) => HandleRequest(s, command)
    case DeliverPropose(_, m, order) => HandlePropose(s, m, order)
    case DeliverVote(_, m, order) => HandleVote(s, m.l, order)
  }

  ghost function Apply(c: System, a: Action): System
    requires Enabled(c, a)
  {
    System(c.cfg,
           c.replicas[a.to := Handle(c.replicas[a.to], a)],
           if a.Ask? then c.requests + [Request(a.to, a.command)] else c.requests)
  }

  /** d is c with another state at one replica. */
  ghost predicate OnlyAt(c: System, d: System, id: ID) {
    && d.cfg == c.cfg && d.replicas.Keys == c.replicas.Keys
    && forall q :: q in c.replicas && q != id ==> d.replicas[q] == c.replicas[q]
  }

  /** A step changes the state of one replica and adds at most one request. */
  lemma OneStep(c: System, x: Action)
    requires Enabled(c, x)
    ensures var d := Apply(c, x);
            && OnlyAt(c, d, x.to) && d.replicas[x.to] == Handle(c.replicas[x.to], x)
            && d.requests == if x.Ask? then c.requests + [Request(x.to, x.command)] else c.requests
  {}

  ghost predicate IsRun(cfg: Config, actions: seq<Action>)
    decreases |actions|, 0
  {
    actions == [] ||
    (IsRun(cfg, actions[..|actions| - 1]) && Enabled(After(cfg, actions[..|actions| - 1]), actions[|actions| - 1]))
  }

  /** The system after a run. */
  ghost function After(cfg: Config, actions: seq<Action>): System
    requires IsRun(cfg, actions)
    decreases |actions|, 1
  {
    if actions == [] then Start(cfg)
    else Apply(After(cfg, actions[..|actions| - 1]), actions[|actions| - 1])
  }

  lemma LastStep(cfg: Config, actions: seq<Action>)
    requires IsRun(cfg, actions) && actions != []
    ensures var front, last := actions[..|actions| - 1], actions[|actions| - 1];
            && IsRun(cfg, front) && Enabled(After(cfg, front), last)
            && After(cfg, actions) == Apply(After(cfg, front), last)
  {}

  /** A prefix of the front of a list is a prefix of the list. */
  lemma FrontPrefix<T>(s: seq<T>, k: nat)
    requires k <= |s|
    ensures k < |s| ==> s[..|s| - 1][..k] == s[..k]
    ensures k == |s| ==> s[..k] == s
  {}
}
