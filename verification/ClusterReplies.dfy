/** Which client requests are answered, by whom, when and with what value. */
module ClusterReplies {
  import opened Options
  import opened Ids
  import opened Databases
  import opened Quorums
  import opened Replicas
  import opened ReplicaInvariant
  import opened Cluster
  import opened ClusterSafety

  ghost predicate Answered(s: State, c: Command) { exists i :: 0 <= i < |s.replies| && s.replies[i].command == c }

  /** A request waits in the log as the leader's entry until its slot is executed; then it has been answered. */
  ghost predicate Pending(s: State, c: Command) {
    if c.counter < s.execute then Answered(s, c)
    else
      && c.counter in s.log
      && s.log[c.counter].request == Some(c) && s.log[c.counter].command == c && s.log[c.counter].leader
  }

  // ---------- One replica ----------

  lemma PendingExecuteOne(s: State, c: Command)
    requires Pending(s, c) && s.execute in s.log
    ensures Pending(ExecuteOne(s), c)
  {
    var t := ExecuteOne(s);
    if c.counter == s.execute {
      assert t.replies[|s.replies|].command == c;
    } else if c.counter < s.execute {
      var i :| 0 <= i < |s.replies| && s.replies[i].command == c;
      assert t.replies[i] == s.replies[i];
    }
  }

  lemma {:induction false} PendingExec(s: State, c: Command)
    requires Pending(s, c)
    ensures Pending(Exec(s), c)
    decreases |s.log|
  {
    if Ready(s) {
      RemoveKeySize(s.log, s.execute);
      PendingExecuteOne(s, c);
      PendingExec(ExecuteOne(s), c);
    }
  }

  lemma {:induction false} PendingSweep(s: State, order: seq<int>, c: Command)
    requires Pending(s, c)
    ensures Pending(Sweep(s, order), c)
    decreases |order|
  {
    if order != [] {
      if order[0] in s.log {
        PendingExec(MarkOne(s, order[0]), c);
        PendingSweep(SweepOne(s, order[0]), order[1..], c);
      } else {
        PendingSweep(s, order[1..], c);
      }
    }
  }

  lemma PendingHandlePropose(s: State, m: Message, order: seq<int>, c: Command)
    requires Pending(s, c) && m.Propose? && m.slot != c.counter
    ensures Pending(HandlePropose(s, m, order), c)
  {
    assert Pending(Accept(s, m), c);
    assert Pending(Marked(s, m), c);
    assert Pending(BeforeSweep(s, m), c);
    PendingSweep(BeforeSweep(s, m), order, c);
  }

  lemma {:induction false} PendingHandleVote(s: State, l: map<int, CommandBallot>, order: seq<int>, c: Command)
    requires Pending(s, c)
    ensures Pending(HandleVote(s, l, order), c)
    decreases |order|
  {
    if order != [] {
      var n := |order| - 1;
      PendingHandleVote(s, l, order[..n], c);
      var t, k := HandleVote(s, l, order[..n]), order[n];
      if k in l && (k in t.log || t.execute <= k) {
        PendingExec(Committed(t, k, l[k]), c);
      }
    }
  }

  lemma PendingHandleRequest(s: State, d: Command, c: Command)
    requires Pending(s, c) && d.counter != c.counter
    ensures Pending(HandleRequest(s, d), c)
  {}

  // ---------- The whole system ----------

  /** No slot number is given out twice. */
  ghost predicate OncePerSlot(requests: seq<Request>) {
    forall i, j :: 0 <= i < j < |requests| ==> requests[i].command.counter != requests[j].command.counter
  }

  ghost predicate AllPending(c: System) {
    forall i :: 0 <= i < |c.requests| && c.requests[i].command.counter >= 0 ==>
      c.requests[i].to in c.replicas && Pending(c.replicas[c.requests[i].to], c.requests[i].command)
  }

  lemma RequestIndex(requests: seq<Request>, id: ID, command: Command) returns (i: nat)
    requires command in CommandsAt(requests, id)
    ensures i < |requests| && requests[i] == Request(id, command)
  {
    var r :| r in requests && r.to == id && r.command == command;
    i :| 0 <= i < |requests| && requests[i] == r;
  }

  /** A proposal delivered to a replica is for another slot than the requests given to that replica. */
  lemma ProposalIsElsewhere(c: System, a: Action, i: nat)
    requires Inv(c) && Enabled(c, a) && a.DeliverPropose? && OncePerSlot(c.requests)
    requires i < |c.requests| && c.requests[i].to == a.to
    ensures a.m.slot != c.requests[i].command.counter
  {
    var q :| q in c.replicas && q != a.to && a.m in c.replicas[q].sent;
    assert MessageOk(ContextOf(c, q), q, a.m);
    var j := RequestIndex(c.requests, q, a.m.command);
    assert j != i;
  }

  /** A new request is for a slot the replica has not executed. */
  lemma NewRequestIsPending(c: System, a: Action)
    requires Inv(c) && Enabled(c, a) && a.Ask? && OncePerSlot(Apply(c, a).requests) && a.command.counter >= 0
    ensures Pending(Apply(c, a).replicas[a.to], a.command)
  {
    var s, k := c.replicas[a.to], a.command.counter;
    forall i | 0 <= i < |c.requests|
      ensures c.requests[i].command.counter != k
    {
      OtherSlot(c, a, i);
    }
    assert k < s.execute ==> ContextOf(c, a.to).Proposes(k, s.executed[k]);
  }

  lemma OldRequestStaysPending(c: System, a: Action, i: nat)
    requires Inv(c) && Enabled(c, a) && OncePerSlot(Apply(c, a).requests)
    requires i < |c.requests| && c.requests[i].to in c.replicas
    requires Pending(c.replicas[c.requests[i].to], c.requests[i].command)
    ensures Pending(Apply(c, a).replicas[c.requests[i].to], c.requests[i].command)
  {
    var s, command := c.replicas[a.to], c.requests[i].command;
    if c.requests[i].to == a.to {
      match a {
        case Ask(to, asked) =>
          OtherSlot(c, a, i);
          PendingHandleRequest(s, asked, command);
        case DeliverPropose(to, m, order) =>
          OncePerSlotBefore(c, a);
          ProposalIsElsewhere(c, a, i);
          PendingHandlePropose(s, m, order, command);
        case DeliverVote(to, m, order) =>
          PendingHandleVote(s, m.l, order, command);
      }
    }
  }

  lemma OncePerSlotBefore(c: System, a: Action)
    requires Enabled(c, a) && OncePerSlot(Apply(c, a).requests)
    ensures OncePerSlot(c.requests)
  {
    var d := Apply(c, a);
    assert forall j :: 0 <= j < |c.requests| ==> d.requests[j] == c.requests[j];
  }

  lemma OtherSlot(c: System, a: Action, i: nat)
    requires Enabled(c, a) && a.Ask? && OncePerSlot(Apply(c, a).requests) && i < |c.requests|
    ensures a.command.counter != c.requests[i].command.counter
  {
    var d := Apply(c, a);
    assert d.requests[i] == c.requests[i] && d.requests[|c.requests|] == Request(a.to, a.command);
  }

  lemma StepKeepsPending(c: System, a: Action)
    requires Inv(c) && AllPending(c) && Enabled(c, a) && OncePerSlot(Apply(c, a).requests)
    ensures AllPending(Apply(c, a))
  {
    var d := Apply(c, a);
    assert d.requests == c.requests || (a.Ask? && d.requests == c.requests + [Request(a.to, a.command)]);
    forall i | 0 <= i < |d.requests| && d.requests[i].command.counter >= 0
      ensures d.requests[i].to in d.replicas && Pending(d.replicas[d.requests[i].to], d.requests[i].command)
    {
      if i < |c.requests| {
        OldRequestStaysPending(c, a, i);
      } else {
        NewRequestIsPending(c, a);
      }
    }
  }

  lemma {:induction false} RunKeepsPending(cfg: Config, actions: seq<Action>)
    requires IsRun(cfg, actions) && OncePerSlot(After(cfg, actions).requests)
    ensures AllPending(After(cfg, actions))
    decreases |actions|
  {
    if actions != [] {
      var n := |actions| - 1;
      var c := After(cfg, actions[..n]);
      var d := After(cfg, actions);
      assert forall i :: 0 <= i < |c.requests| ==> c.requests[i] == d.requests[i];
      RunKeepsPending(cfg, actions[..n]);
      RunKeepsInv(cfg, actions[..n]);
      StepKeepsPending(c, actions[n]);
    }
  }

  /** The replies with which a replica has answered a command. */
  ghost function AnswersTo(s: State, c: Command): set<int> {
    set i | 0 <= i < |s.replies| && s.replies[i].command == c
  }

  /**
   When no slot number is given out twice, a request is answered exactly once its slot is executed at the
   replica that received it, by that replica alone, and once.
   */
  lemma AnsweredExactlyWhenExecuted(cfg: Config, actions: seq<Action>, i: nat, id: ID)
    requires IsRun(cfg, actions) && OncePerSlot(After(cfg, actions).requests)
    requires i < |After(cfg, actions).requests| && After(cfg, actions).requests[i].command.counter >= 0
    requires id in After(cfg, actions).replicas
    ensures var c := After(cfg, actions); var r, s := c.requests[i], c.replicas[id];
            && (Answered(s, r.command) <==> id == r.to && r.command.counter < s.execute)
            && (forall j, k :: j in AnswersTo(s, r.command) && k in AnswersTo(s, r.command) ==> j == k)
  {
    RunKeepsPending(cfg, actions);
    RunGood(cfg, actions, id);
    var c := After(cfg, actions);
    var r, s := c.requests[i], c.replicas[id];
    if j :| 0 <= j < |s.replies| && s.replies[j].command == r.command {
      assert ReplyOk(ContextOf(c, id), s, s.replies[j]);
      var k := RequestIndex(c.requests, id, r.command);
      assert k == i;
    }
  }

  /** Whatever clients do, every reply is the value its key held after the slots before its own. */
  lemma RepliesFollowTheLog(cfg: Config, actions: seq<Action>, id: ID, i: nat)
    requires IsRun(cfg, actions) && id in After(cfg, actions).replicas
    requires i < |After(cfg, actions).replicas[id].replies|
    ensures var c := After(cfg, actions); var s := c.replicas[id];
            var r := s.replies[i]; var k := r.command.counter;
            && 0 <= k < |s.executed| && s.executed[k] == r.command
            && Request(id, r.command) in c.requests
            && r.value == Replay(Empty(cfg.multiversion), s.executed[..k]).Get(r.command.key)
            && (i > 0 ==> s.replies[i - 1].command.counter < k)
  {
    RunGood(cfg, actions, id);
    var c := After(cfg, actions);
    var s := c.replicas[id];
    assert ReplyOk(ContextOf(c, id), s, s.replies[i]);
    var j := RequestIndex(c.requests, id, s.replies[i].command);
  }
}
