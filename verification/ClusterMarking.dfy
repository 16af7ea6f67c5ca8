/**
 When a proposal marks all entries of a replica by their number: the count starts at -1 and rises with every
 request and every proposal for a slot that the replica does not know.
 */
module ClusterMarking {
  import opened Ids
  import opened Quorums
  import opened Replicas
  import opened ReplicaProposals
  import opened Cluster
  import opened ClusterRuns
  import opened ClusterSafety

  /** The action makes replica id enter a slot: on a request always, on a proposal when the slot is new to it. */
  ghost predicate Enters(c: System, a: Action, id: ID)
    requires Enabled(c, a)
  {
    a.to == id && (a.Ask? || (a.DeliverPropose? && a.m.slot !in c.replicas[id].log))
  }

  /** How often a run makes replica id enter a slot. */
  ghost function Entries(cfg: Config, run: seq<Action>, id: ID): nat
    requires IsRun(cfg, run)
    decreases |run|
  {
    if run == [] then 0
    else
      var front, last := run[..|run| - 1], run[|run| - 1];
      Entries(cfg, front, id) + if Enters(After(cfg, front), last, id) then 1 else 0
  }

  lemma {:induction false} VotesCountNothing(s: State, l: map<int, CommandBallot>, order: seq<int>)
    ensures HandleVote(s, l, order).count == s.count
    decreases |order|
  {
    if order != [] {
      var n := |order| - 1;
      VotesCountNothing(s, l, order[..n]);
      if order[n] in l {
        ExecAdvanced(Committed(HandleVote(s, l, order[..n]), order[n], l[order[n]]));
      }
    }
  }

  lemma ProposalCounts(s: State, m: Message, order: seq<int>)
    requires m.Propose?
    ensures HandlePropose(s, m, order).count == s.count + if m.slot in s.log then 0 else 1
  {
    BeforeLoop(s, m);
    SweepAdvanced(BeforeSweep(s, m), order);
  }

  /** The count of a replica is one less than the number of slots it has entered. */
  lemma {:induction false} RunCounts(cfg: Config, run: seq<Action>, id: ID)
    requires IsRun(cfg, run) && id in After(cfg, run).replicas
    ensures After(cfg, run).replicas[id].count == Entries(cfg, run, id) - 1
    decreases |run|
  {
    if run != [] {
      LastStep(cfg, run);
      var front, last := run[..|run| - 1], run[|run| - 1];
      var s := After(cfg, front).replicas[id];
      OneStep(After(cfg, front), last);
      RunCounts(cfg, front, id);
      if last.DeliverPropose? && last.to == id {
        ProposalCounts(s, last.m, last.order);
      } else if last.DeliverVote? && last.to == id {
        VotesCountNothing(s, last.m.l, last.order);
      }
    }
  }

  /**
   A delivered proposal leaves exactly the entries marked that were marked before, unless the replica has by then
   entered more slots than it has executed and a vote lists, or has votes queued for as many as a vote lists, or
   the second loop is due; then it leaves every entry marked.
   */
  lemma MarkedExactly(cfg: Config, run: seq<Action>, a: Action)
    requires IsRun(cfg, run) && Enabled(After(cfg, run), a) && a.DeliverPropose?
    ensures IsRun(cfg, run + [a])
    ensures var s, t := After(cfg, run).replicas[a.to], After(cfg, run + [a]).replicas[a.to];
            var all := || Entries(cfg, run + [a], a.to) > s.execute + cfg.total
                       || |s.l.Keys + {a.m.slot}| >= cfg.total || LoopDue(s, a.m.slot);
            forall k :: k in t.log ==> (t.log[k].voted <==> all || (k in s.log && s.log[k].voted))
  {
    var s := After(cfg, run).replicas[a.to];
    RunGood(cfg, run, a.to);
    ProposalEffect(s, a.m, a.order);
    RunCounts(cfg, run, a.to);
    AppendStep(cfg, run, a);
    assert (run + [a])[..|run + [a]| - 1] == run;
  }
}
