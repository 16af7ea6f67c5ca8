/**
 What every handler of a replica keeps, whatever the other replicas do. The rest of the system appears
 only as a context: the commands clients have asked for and the votes the other replicas have broadcast.
 */
module ReplicaInvariant {
  import opened Ids
  import opened Databases
  import opened Quorums
  import opened Cardinality
  import opened Replicas

  /** Commands asked for anywhere, commands asked for here, and who else has voted for which slot. */
  datatype Context = Context(cfg: Config, asked: set<Command>, own: set<Command>, votes: set<(ID, int)>) {
    ghost predicate Within(that: Context) {
      cfg == that.cfg && asked <= that.asked && own <= that.own && votes <= that.votes
    }

    ghost predicate Proposes(k: int, c: Command) { c.counter == k && c in asked }

    ghost function Voters(k: int): set<ID> { set q | q in cfg.ids && (q, k) in votes }

    /** At least half of all replicas, counted among the others, have voted for slot k. */
    ghost predicate Certified(k: int) { |Voters(k)| >= cfg.N() / 2 }
  }

  ghost predicate EntryOk(x: Context, k: int, e: Entry) {
    && x.Proposes(k, e.command)
    && (e.request.Some? ==> e.request.value == e.command && e.command in x.own)
    && e.quorum.Counts() && e.quorum.acks <= x.Voters(k)
    && (e.commit ==> x.Certified(k))
  }

  ghost predicate LogOk(x: Context, s: State) { forall k :: k in s.log ==> EntryOk(x, k, s.log[k]) }

  ghost predicate QueueOk(x: Context, id: ID, l: map<int, CommandBallot>) {
    forall k :: k in l ==> l[k].id == id && l[k].slot == k && x.Proposes(k, l[k].command)
  }

  ghost predicate MessageOk(x: Context, id: ID, m: Message) {
    && m.id == id
    && match m
       case Propose(_, command, slot, _, _) => x.Proposes(slot, command) && command in x.own
       case Vote(_, _, l) => QueueOk(x, id, l)
  }

  ghost predicate SentOk(x: Context, s: State) { forall m :: m in s.sent ==> MessageOk(x, s.id, m) }

  /** Executed in slot order without a gap, each command asked for, each slot certified. */
  ghost predicate ExecutedOk(x: Context, s: State) {
    && |s.executed| == s.execute
    && s.db == Replay(Empty(s.cfg.multiversion), s.executed)
    && forall k :: 0 <= k < |s.executed| ==> x.Proposes(k, s.executed[k]) && x.Certified(k)
  }

  /** The reply to the command of an executed slot: what its key held after the slots before it. */
  ghost predicate ReplyOk(x: Context, s: State, r: Reply) {
    var k := r.command.counter;
    && 0 <= k < |s.executed| && s.executed[k] == r.command && r.command in x.own
    && r.value == Replay(Empty(s.cfg.multiversion), s.executed[..k]).Get(r.command.key)
  }

  ghost predicate RepliesOk(x: Context, s: State) {
    && (forall i :: 0 <= i < |s.replies| ==> ReplyOk(x, s, s.replies[i]))
    && (forall i, j :: 0 <= i < j < |s.replies| ==> s.replies[i].command.counter < s.replies[j].command.counter)
  }

  ghost predicate Good(x: Context, s: State) {
    && s.cfg == x.cfg && LogOk(x, s) && QueueOk(x, s.id, s.l) && SentOk(x, s) && ExecutedOk(x, s) && RepliesOk(x, s)
  }

  /** What only ever grows; no proposal is made and the ballot stays. */
  ghost predicate Grows(s: State, t: State) {
    && t.cfg == s.cfg && t.id == s.id && t.ballot == s.ballot
    && s.execute <= t.execute
    && s.executed <= t.executed && s.sent <= t.sent && s.replies <= t.replies
    && forall i :: |s.sent| <= i < |t.sent| ==> t.sent[i].Vote?
  }

  function Later(a: Ballots.Ballot, b: Ballots.Ballot): Ballots.Ballot { if a < b then b else a }

  // ---------- The single steps ----------

  lemma GoodInit(x: Context, id: ID)
    ensures Good(x, Init(x.cfg, id))
  {}

  /** The invariant survives when the rest of the system moves on. */
  lemma GoodWithin(x: Context, y: Context, s: State)
    requires Good(x, s) && x.Within(y)
    ensures Good(y, s)
  {
    forall k
      ensures x.Voters(k) <= y.Voters(k)
      ensures x.Certified(k) ==> y.Certified(k)
    {
      SubsetSize(x.Voters(k), y.Voters(k));
    }
  }

  lemma ExecuteOneExecuted(x: Context, s: State)
    requires ExecutedOk(x, s) && s.execute in s.log && EntryOk(x, s.execute, s.log[s.execute])
    requires s.log[s.execute].commit
    ensures ExecutedOk(x, ExecuteOne(s))
  {
    var t := ExecuteOne(s);
    assert t.executed[..|t.executed| - 1] == s.executed;
  }

  lemma OldReplyOk(x: Context, s: State, t: State, r: Reply)
    requires ReplyOk(x, s, r) && t.cfg == s.cfg && s.executed <= t.executed
    ensures ReplyOk(x, t, r)
  {
    var k := r.command.counter;
    assert t.executed[..k] == s.executed[..k];
  }

  lemma ExecuteOneReplies(x: Context, s: State)
    requires RepliesOk(x, s) && ExecutedOk(x, s) && s.execute in s.log && EntryOk(x, s.execute, s.log[s.execute])
    ensures RepliesOk(x, ExecuteOne(s))
  {
    var t := ExecuteOne(s);
    forall i | 0 <= i < |t.replies|
      ensures ReplyOk(x, t, t.replies[i])
      ensures i < |s.replies| ==> t.replies[i].command.counter < s.execute
    {
      if i < |s.replies| {
        assert ReplyOk(x, s, s.replies[i]);
        OldReplyOk(x, s, t, s.replies[i]);
      } else {
        assert t.executed[..s.execute] == s.executed;
      }
    }
  }

  lemma GoodExecuteOne(x: Context, s: State)
    requires Good(x, s) && s.execute in s.log && s.log[s.execute].commit
    ensures Good(x, ExecuteOne(s)) && Grows(s, ExecuteOne(s))
  {
    var t := ExecuteOne(s);
    ExecuteOneExecuted(x, s);
    ExecuteOneReplies(x, s);
    assert LogOk(x, t) && QueueOk(x, t.id, t.l) && SentOk(x, t);
  }

  lemma GoodAskForVotes(x: Context, s: State)
    requires Good(x, s) && s.execute in s.log
    ensures Good(x, AskForVotes(s)) && Grows(s, AskForVotes(s))
  {}

  lemma {:induction false} GoodExec(x: Context, s: State)
    requires Good(x, s)
    ensures Good(x, Exec(s)) && Grows(s, Exec(s))
    decreases |s.log|
  {
    if Ready(s) {
      RemoveKeySize(s.log, s.execute);
      GoodExecuteOne(x, s);
      GoodExec(x, ExecuteOne(s));
    } else if Unvoted(s) {
      GoodAskForVotes(x, s);
    }
  }

  lemma GoodAccept(x: Context, s: State, m: Message)
    requires Good(x, s) && m.Propose? && x.Proposes(m.slot, m.command)
    ensures Good(x, Accept(s, m)) && Grows(s.(ballot := Later(s.ballot, m.ballot)), Accept(s, m))
  {}

  lemma GoodMarkAll(x: Context, s: State)
    requires Good(x, s)
    ensures Good(x, MarkAll(s)) && Grows(s, MarkAll(s))
  {}

  lemma GoodSendVotes(x: Context, s: State, slot: int)
    requires Good(x, s)
    ensures Good(x, SendVotes(s, slot)) && Grows(s, SendVotes(s, slot))
  {}

  lemma GoodMarkOne(x: Context, s: State, k: int)
    requires Good(x, s) && k in s.log
    ensures Good(x, MarkOne(s, k)) && Grows(s, MarkOne(s, k))
  {}

  lemma GoodSweepOne(x: Context, s: State, k: int)
    requires Good(x, s) && k in s.log
    ensures Good(x, SweepOne(s, k)) && Grows(s, SweepOne(s, k))
  {
    GoodMarkOne(x, s, k);
    GoodExec(x, MarkOne(s, k));
  }

  lemma {:induction false} GoodSweep(x: Context, s: State, order: seq<int>)
    requires Good(x, s)
    ensures Good(x, Sweep(s, order)) && Grows(s, Sweep(s, order))
    decreases |order|
  {
    if order != [] {
      if order[0] in s.log {
        GoodSweepOne(x, s, order[0]);
        GoodSweep(x, SweepOne(s, order[0]), order[1..]);
      } else {
        GoodSweep(x, s, order[1..]);
      }
    }
  }

  lemma GoodCommitted(x: Context, s: State, k: int, cb: CommandBallot)
    requires Good(x, s) && x.Proposes(k, cb.command) && cb.id in x.Voters(k)
    requires Acknowledged(s, k, cb).quorum.Majority(s.cfg)
    ensures Good(x, Committed(s, k, cb)) && Grows(s, Committed(s, k, cb))
  {
    var f := Acknowledged(s, k, cb);
    var before := if k in s.log then s.log[k].quorum else NoVotes;
    AckCounts(before, cb.id);
    SubsetSize(f.quorum.acks, x.Voters(k));
  }

  lemma GoodVoteOne(x: Context, s: State, k: int, cb: CommandBallot)
    requires Good(x, s) && x.Proposes(k, cb.command) && cb.id in x.Voters(k)
    ensures Good(x, VoteOne(s, k, cb)) && Grows(s, VoteOne(s, k, cb))
  {
    if k in s.log || s.execute <= k {
      var f := Acknowledged(s, k, cb);
      var before := if k in s.log then s.log[k].quorum else NoVotes;
      AckCounts(before, cb.id);
      if f.quorum.Majority(s.cfg) {
        GoodCommitted(x, s, k, cb);
        GoodExec(x, Committed(s, k, cb));
      }
    }
  }

  // ---------- The handlers ----------

  lemma GoodHandleRequest(x: Context, s: State, c: Command)
    requires Good(x, s) && c in x.asked && c in x.own
    ensures Good(x, HandleRequest(s, c))
    ensures var t := HandleRequest(s, c);
            t.cfg == s.cfg && t.id == s.id && t.execute == s.execute && t.executed == s.executed
            && s.sent <= t.sent && t.replies == s.replies
  {}

  lemma GoodHandlePropose(x: Context, s: State, m: Message, order: seq<int>)
    requires Good(x, s) && m.Propose? && x.Proposes(m.slot, m.command)
    ensures Good(x, HandlePropose(s, m, order))
    ensures Grows(s.(ballot := Later(s.ballot, m.ballot)), HandlePropose(s, m, order))
  {
    var a := Accept(s, m);
    GoodAccept(x, s, m);
    GoodMarkAll(x, a);
    var b := Marked(s, m);
    GoodSendVotes(x, b, m.slot);
    var c := BeforeSweep(s, m);
    assert Good(x, c) && Grows(s.(ballot := Later(s.ballot, m.ballot)), c);
    GoodSweep(x, c, order);
  }

  lemma {:induction false} GoodHandleVote(x: Context, s: State, l: map<int, CommandBallot>, order: seq<int>)
    requires Good(x, s)
    requires forall k :: k in l ==> x.Proposes(k, l[k].command) && l[k].id in x.Voters(k)
    ensures Good(x, HandleVote(s, l, order)) && Grows(s, HandleVote(s, l, order))
    decreases |order|
  {
    if order != [] {
      var n := |order| - 1;
      GoodHandleVote(x, s, l, order[..n]);
      if order[n] in l {
        GoodVoteOne(x, HandleVote(s, l, order[..n]), order[n], l[order[n]]);
      }
    }
  }
}
