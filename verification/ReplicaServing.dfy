/**
 One replica while a batch of slots goes through: it is asked for some, hears the proposals for the others, votes
 for all of them, and counts the votes of the others until it has executed every one.
 */
module ReplicaServing {
  import opened Ids
  import opened Databases
  import opened Quorums
  import opened Cardinality
  import opened Replicas
  import opened ReplicaVoting

  /** Everything before slot k has been executed, and nothing is known of the slots from k on. */
  ghost predicate Resting(s: State, cfg: Config, id: ID, k: int) {
    s.cfg == cfg && s.id == id && s.execute == k && s.log == map[] && s.l == map[]
  }

  // ---------- Hearing proposals ----------

  /** These slots are in the log, none of them committed or acknowledged by anybody. */
  ghost predicate Known(s: State, cfg: Config, id: ID, k: int, known: set<int>) {
    && s.cfg == cfg && s.id == id && s.execute == k
    && (forall i :: i in s.log <==> i in known)
    && forall i :: i in s.log ==> !s.log[i].commit && s.log[i].quorum == NoVotes
  }

  /** Votes for all of them are queued. */
  ghost predicate Queued(s: State, cfg: Config, id: ID, k: int, known: set<int>) {
    Known(s, cfg, id, k, known) && forall i :: i in s.l <==> i in known
  }

  /** Votes for all of them have been sent. */
  ghost predicate Voted(s: State, cfg: Config, id: ID, k: int, known: set<int>) {
    && Known(s, cfg, id, k, known) && s.l == map[] && known <= VotedSlots(s)
    && forall i :: i in s.log ==> s.log[i].voted
  }

  lemma RestingQueued(s: State, cfg: Config, id: ID, k: int)
    requires Resting(s, cfg, id, k)
    ensures Queued(s, cfg, id, k, {})
  {}

  lemma AskedQueued(s: State, cfg: Config, id: ID, k: int, known: set<int>, c: Command)
    requires Queued(s, cfg, id, k, known)
    ensures var t := HandleRequest(s, c);
            Queued(t, cfg, id, k, known + {c.counter}) && HasProposal(t, c.counter) && s.sent <= t.sent
  {
    var t := HandleRequest(s, c);
    assert t.sent[|s.sent|].slot == c.counter && t.sent[|s.sent|] in t.sent;
  }

  lemma AcceptKnown(s: State, cfg: Config, id: ID, k: int, known: set<int>, m: Message)
    requires Known(s, cfg, id, k, known) && m.Propose?
    ensures var a := Accept(s, m);
            && Known(a, cfg, id, k, known + {m.slot}) && a.sent == s.sent && a.l.Keys == s.l.Keys + {m.slot}
  {}

  lemma KeptKnown(s: State, t: State, cfg: Config, id: ID, k: int, known: set<int>)
    requires Known(s, cfg, id, k, known) && Kept(s, t)
    ensures Known(t, cfg, id, k, known)
  {}

  lemma SendsQueue(b: State, slot: int)
    ensures forall i :: i in VotedSlots(b) || i in b.l ==> i in VotedSlots(SendVotes(b, slot))
  {
    var t := SendVotes(b, slot);
    var m := Vote(slot, b.id, b.l);
    assert t.sent[|b.sent|] == m && m in t.sent;
    SentPrefix(b, t);
    forall i | i in b.l ensures i in VotedSlots(t) {
      assert m.Vote? && i in m.l;
    }
  }

  /** A proposal for a new slot: its vote is queued, or with a full queue all votes go out. */
  lemma Hears(s: State, cfg: Config, id: ID, k: int, known: set<int>, m: Message) returns (order: seq<int>)
    requires Queued(s, cfg, id, k, known) || (Voted(s, cfg, id, k, known) && cfg.total <= 1)
    requires m.Propose? && m.slot !in known
    ensures ProposeOrder(s, m, order)
    ensures var t := HandlePropose(s, m, order);
            && s.sent <= t.sent
            && if |known| + 1 >= cfg.total then Voted(t, cfg, id, k, known + {m.slot})
               else Queued(t, cfg, id, k, known + {m.slot})
  {
    var all := known + {m.slot};
    var b, v := Marked(s, m), BeforeSweep(s, m);
    HeardBefore(s, cfg, id, k, known, m);
    if Sweeps(s, m) {
      order := QuietSweep(v, {});
      SweepKeeps(v, Sweep(v, order), cfg, id, k, all);
    } else {
      order := [];
    }
  }

  /** The queue is full with as many slots as a vote lists, or at once when that is one or less. */
  lemma HeardQueue(s: State, cfg: Config, id: ID, k: int, known: set<int>, m: Message)
    requires m.Propose? && m.slot !in known && s.cfg == cfg
    ensures var b := Marked(s, m);
            && m.slot in b.l
            && (Queued(s, cfg, id, k, known) ==>
                  (forall i :: i in b.l <==> i in known + {m.slot}) && (Full(b) <==> |known| + 1 >= cfg.total))
            && (cfg.total <= 1 ==> Full(b))
  {
    var b := Marked(s, m);
    MarkedKept(s, m);
    assert m.slot in b.l.Keys && |b.l| == |b.l.Keys|;
    if Queued(s, cfg, id, k, known) {
      KeysAre(b.l, known + {m.slot});
    }
  }

  lemma KeysAre<V>(m: map<int, V>, s: set<int>)
    requires forall i :: i in m <==> i in s
    ensures m.Keys == s && |m| == |s|
  {
    forall i ensures i in m.Keys <==> i in s {
      assert i in m.Keys <==> i in m;
    }
    assert |m| == |m.Keys|;
  }

  lemma HeardKnown(s: State, cfg: Config, id: ID, k: int, known: set<int>, m: Message)
    requires Known(s, cfg, id, k, known) && m.Propose?
    ensures Known(Marked(s, m), cfg, id, k, known + {m.slot}) && Marked(s, m).sent == s.sent
  {
    AcceptKnown(s, cfg, id, k, known, m);
    MarkedKept(s, m);
    KeptKnown(Accept(s, m), Marked(s, m), cfg, id, k, known + {m.slot});
  }

  lemma HeardFull(s: State, cfg: Config, id: ID, k: int, known: set<int>, m: Message)
    requires m.Propose? && Known(s, cfg, id, k, known) && Full(Marked(s, m))
    requires forall i :: i in known || i == m.slot ==> i in VotedSlots(s) || i in Marked(s, m).l
    ensures Voted(BeforeSweep(s, m), cfg, id, k, known + {m.slot})
  {
    var b := Marked(s, m);
    HeardKnown(s, cfg, id, k, known, m);
    SentPrefix(s, b);
    SendsQueue(b, m.slot);
    forall i | i in known + {m.slot} ensures i in VotedSlots(BeforeSweep(s, m)) {
      assert i in VotedSlots(b) || i in b.l;
    }
  }

  lemma HeardBefore(s: State, cfg: Config, id: ID, k: int, known: set<int>, m: Message)
    requires Queued(s, cfg, id, k, known) || (Voted(s, cfg, id, k, known) && cfg.total <= 1)
    requires m.Propose? && m.slot !in known
    ensures var v := BeforeSweep(s, m);
            && s.sent <= v.sent
            && if |known| + 1 >= cfg.total then Voted(v, cfg, id, k, known + {m.slot})
               else Queued(v, cfg, id, k, known + {m.slot})
  {
    HeardKnown(s, cfg, id, k, known, m);
    HeardQueue(s, cfg, id, k, known, m);
    if |known| + 1 >= cfg.total {
      HeardFull(s, cfg, id, k, known, m);
    }
  }

  lemma SweepKeeps(v: State, t: State, cfg: Config, id: ID, k: int, known: set<int>)
    requires Kept(v, t) && t.l == v.l && t.sent == v.sent
    ensures Voted(v, cfg, id, k, known) ==> Voted(t, cfg, id, k, known)
    ensures Queued(v, cfg, id, k, known) ==> Queued(t, cfg, id, k, known)
  {}

  // ---------- Counting votes ----------

  /**
   Slots from the frontier to the end are in the log, all voted for, and committed exactly when a majority has
   acknowledged them; the frontier is not committed.
   */
  ghost predicate Tallying(s: State, cfg: Config, id: ID, end: int) {
    && s.cfg == cfg && s.id == id && s.execute <= end && s.l == map[]
    && (forall i :: i in s.log <==> s.execute <= i < end)
    && (forall i :: i in s.log ==>
          s.log[i].voted && s.log[i].quorum.Counts() && (s.log[i].commit <==> s.log[i].quorum.Majority(cfg)))
    && (s.execute in s.log ==> !s.log[s.execute].commit)
  }

  /** Slot i is executed, or v's vote for it has been counted. */
  ghost predicate Heeded(s: State, v: ID, i: int) { i < s.execute || (i in s.log && v in s.log[i].quorum.acks) }

  /** Counting goes on and takes nothing back. */
  ghost predicate HeedsMore(s: State, t: State) {
    s.execute <= t.execute && forall v, i :: Heeded(s, v, i) ==> Heeded(t, v, i)
  }

  lemma VotedCounts(s: State, cfg: Config, id: ID, k: int, known: set<int>, end: int)
    requires Voted(s, cfg, id, k, known) && cfg.N() >= 2 && k <= end && forall i :: i in known <==> k <= i < end
    ensures Tallying(s, cfg, id, end)
  {}

  /** Between the acknowledgement and exec the frontier may be committed. */
  ghost predicate Poised(u: State, cfg: Config, id: ID, end: int) {
    && u.cfg == cfg && u.id == id && u.execute <= end && u.l == map[]
    && (forall i :: i in u.log <==> u.execute <= i < end)
    && (forall i :: i in u.log ==>
          u.log[i].voted && u.log[i].quorum.Counts() && (u.log[i].commit <==> u.log[i].quorum.Majority(cfg)))
  }

  lemma PoisedNext(u: State, cfg: Config, id: ID, end: int)
    requires Poised(u, cfg, id, end) && Ready(u)
    ensures Poised(ExecuteOne(u), cfg, id, end) && HeedsMore(u, ExecuteOne(u)) && ExecuteOne(u).sent == u.sent
  {
    assert u.l - {u.execute} == map[];
  }

  /** exec stops at the end or at a slot that is not committed, and asks for no votes. */
  lemma {:induction false} ExecCounts(u: State, cfg: Config, id: ID, end: int)
    requires Poised(u, cfg, id, end)
    ensures Tallying(Exec(u), cfg, id, end) && HeedsMore(u, Exec(u)) && Exec(u).sent == u.sent
    decreases |u.log|
  {
    if Ready(u) {
      RemoveKeySize(u.log, u.execute);
      PoisedNext(u, cfg, id, end);
      ExecCounts(ExecuteOne(u), cfg, id, end);
    }
  }

  lemma CountsOne(s: State, cfg: Config, id: ID, end: int, i: int, cb: CommandBallot)
    requires Tallying(s, cfg, id, end) && i < end
    ensures var t := VoteOne(s, i, cb);
            Tallying(t, cfg, id, end) && HeedsMore(s, t) && Heeded(t, cb.id, i) && t.sent == s.sent
  {
    if i in s.log {
      AckCounts(s.log[i].quorum, cb.id);
      var f := Acknowledged(s, i, cb);
      if f.quorum.Majority(cfg) {
        var u := Committed(s, i, cb);
        ExecCounts(u, cfg, id, end);
        assert HeedsMore(s, u) && Heeded(u, cb.id, i);
      } else {
        assert VoteOne(s, i, cb) == s.(log := s.log[i := f]);
      }
    }
  }

  lemma {:induction false} CountsVote(s: State, cfg: Config, id: ID, end: int, l: map<int, CommandBallot>,
                                      order: seq<int>)
    requires Tallying(s, cfg, id, end) && forall i :: i in l ==> i < end
    ensures var t := HandleVote(s, l, order);
            && Tallying(t, cfg, id, end) && HeedsMore(s, t) && t.sent == s.sent
            && forall i :: i in order && i in l ==> Heeded(t, l[i].id, i)
    decreases |order|
  {
    if order != [] {
      var n := |order| - 1;
      CountsVote(s, cfg, id, end, l, order[..n]);
      var t := HandleVote(s, l, order[..n]);
      if order[n] in l {
        CountsOne(t, cfg, id, end, order[n], l[order[n]]);
      }
      assert forall i :: i in order ==> i in order[..n] || i == order[n];
    }
  }

  /** With votes from a majority for every slot all of them have been executed. */
  lemma AllExecuted(s: State, cfg: Config, id: ID, end: int, voters: set<ID>)
    requires Tallying(s, cfg, id, end) && |voters| >= cfg.N() / 2
    requires forall v, i :: v in voters && s.execute <= i < end ==> Heeded(s, v, i)
    ensures Resting(s, cfg, id, end)
  {
    if s.execute < end {
      assert s.execute in s.log;
      assert forall v :: v in voters ==> Heeded(s, v, s.execute);
      SubsetSize(voters, s.log[s.execute].quorum.acks);
      assert false;
    }
    assert forall i :: i !in s.log;
    assert s.log == map[];
  }
}
