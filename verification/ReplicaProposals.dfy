/**
 What a proposal does to a replica, in closed form: which entries it marks, which votes it sends, and how far the
 frontier moves, for every order in which the second loop may go.
 */
module ReplicaProposals {
  import opened Options
  import opened Quorums
  import opened Replicas
  import opened ReplicaSteps
  import opened ReplicaVoting

  ghost predicate CommittedAt(s: State, k: int) { k in s.log && s.log[k].commit }

  // ---------- The second loop ----------

  ghost predicate Passed(s: State, t: State, j: int) { s.execute <= j < t.execute }

  /** An answer for a slot that has been passed, which the replica led for a client. */
  ghost predicate AnswerFor(s: State, t: State, r: Reply, j: int) {
    Passed(s, t, j) && j in s.log && s.log[j].leader && s.log[j].request.Some? && r.command == s.log[j].command
  }

  ghost predicate Answers(s: State, t: State, r: Reply) { exists j :: AnswerFor(s, t, r, j) }

  /** Some committed slots from the frontier on have been executed; of the rest only marks and quorums may differ. */
  ghost predicate Advanced(s: State, t: State) {
    && s.execute <= t.execute
    && (forall j :: Passed(s, t, j) ==> CommittedAt(s, j))
    && |t.executed| == |s.executed| + (t.execute - s.execute) && s.executed <= t.executed
    && (forall j :: Passed(s, t, j) ==> t.executed[|s.executed| + j - s.execute] == s.log[j].command)
    && (forall j :: j in t.log <==> j in s.log && !Passed(s, t, j))
    && (forall j :: j in t.log ==> SameEntry(s.log[j], t.log[j]))
    && (forall j :: j in t.l <==> j in s.l && !Passed(s, t, j))
    && t.cfg == s.cfg && t.id == s.id && t.ballot == s.ballot && t.slot == s.slot && t.count == s.count
    && s.sent <= t.sent && s.replies <= t.replies
    && (forall i :: |s.replies| <= i < |t.replies| ==> Answers(s, t, t.replies[i]))
  }

  /** The same entry, marked perhaps, and with another quorum perhaps. */
  ghost predicate SameEntry(e: Entry, f: Entry) {
    && f == e.(voted := f.voted, quorum := f.quorum)
    && (e.voted ==> f.voted)
  }

  lemma AdvancedTwice(s: State, t: State, u: State)
    requires Advanced(s, t) && Advanced(t, u)
    ensures Advanced(s, u)
  {
    forall j | Passed(s, u, j)
      ensures CommittedAt(s, j) && u.executed[|s.executed| + j - s.execute] == s.log[j].command
    {
      assert Passed(s, t, j) || Passed(t, u, j);
      if Passed(s, t, j) {
        assert t.executed[|s.executed| + j - s.execute] == s.log[j].command;
      } else {
        assert CommittedAt(t, j) && u.executed[|t.executed| + j - t.execute] == t.log[j].command;
      }
    }
    AnswersTwice(s, t, u);
  }

  lemma AnswersTwice(s: State, t: State, u: State)
    requires Advanced(s, t) && Advanced(t, u)
    ensures forall i :: |s.replies| <= i < |u.replies| ==> Answers(s, u, u.replies[i])
  {
    forall i | |s.replies| <= i < |u.replies| ensures Answers(s, u, u.replies[i]) {
      if i < |t.replies| {
        assert u.replies[i] == t.replies[i];
        var j :| AnswerFor(s, t, t.replies[i], j);
        assert AnswerFor(s, u, u.replies[i], j);
      } else {
        var j :| AnswerFor(t, u, u.replies[i], j);
        assert SameEntry(s.log[j], t.log[j]);
        assert AnswerFor(s, u, u.replies[i], j);
      }
    }
  }

  lemma OneAdvanced(s: State)
    requires Ready(s)
    ensures Advanced(s, ExecuteOne(s))
  {
    var t := ExecuteOne(s);
    assert forall j :: Passed(s, t, j) <==> j == s.execute;
    forall i | |s.replies| <= i < |t.replies| ensures Answers(s, t, t.replies[i]) {
      assert AnswerFor(s, t, t.replies[i], s.execute);
    }
  }

  lemma {:induction false} ExecAdvanced(s: State)
    ensures Advanced(s, Exec(s))
    decreases |s.log|
  {
    if Ready(s) {
      RemoveKeySize(s.log, s.execute);
      OneAdvanced(s);
      ExecAdvanced(ExecuteOne(s));
      AdvancedTwice(s, ExecuteOne(s), Exec(s));
    }
  }

  lemma OneSwept(s: State, k: int)
    requires k in s.log
    ensures Advanced(s, SweepOne(s, k))
  {
    ExecAdvanced(MarkOne(s, k));
    AdvancedTwice(s, MarkOne(s, k), SweepOne(s, k));
  }

  lemma {:induction false} SweepAdvanced(s: State, order: seq<int>)
    ensures Advanced(s, Sweep(s, order))
    decreases |order|
  {
    if order != [] {
      var t := if order[0] in s.log then SweepOne(s, order[0]) else s;
      if order[0] in s.log {
        OneSwept(s, order[0]);
      }
      SweepAdvanced(t, order[1..]);
      AdvancedTwice(s, t, Sweep(s, order));
    }
  }

  /** A slot that exec leaves committed at the frontier has not been voted for. */
  lemma ExecLeaves(s: State)
    ensures CommittedAt(Exec(s), Exec(s).execute) ==> !Exec(s).log[Exec(s).execute].voted
    ensures forall j :: j in Exec(s).log ==> j in s.log && Exec(s).log[j].voted == s.log[j].voted
  {
    ExecRuns(s);
    RunIsLongest(s);
    assert Exec(s).execute == s.execute + RunLength(s);
  }

  /** The keys that have come up are marked, and the frontier is not among them when it is ready. */
  ghost predicate Seen(s: State, seen: set<int>) {
    && (forall j :: j in s.log && j in seen ==> s.log[j].voted)
    && (s.execute in seen ==> !Ready(s))
  }

  lemma SeenOne(s: State, seen: set<int>, k: int)
    requires Seen(s, seen) && k in s.log && k !in seen
    ensures Seen(SweepOne(s, k), seen + {k})
  {
    ExecLeaves(MarkOne(s, k));
  }

  /** When the loop ends every entry left is marked and the slot at the frontier is not committed. */
  lemma {:induction false} SweepLeaves(s: State, seen: set<int>, order: seq<int>)
    requires SweepOrder(s, seen, order) && Seen(s, seen)
    ensures var t := Sweep(s, order);
            (forall j :: j in t.log ==> t.log[j].voted) && !CommittedAt(t, t.execute)
    decreases |order|
  {
    if order != [] {
      SeenOne(s, seen, order[0]);
      SweepLeaves(SweepOne(s, order[0]), seen + {order[0]}, order[1..]);
    }
  }

  lemma AllVotedQuiet(s: State)
    requires forall j :: j in s.log ==> s.log[j].voted
    ensures Exec(s).sent == s.sent && forall j :: j in Exec(s).log ==> Exec(s).log[j].voted
  {
    ExecLeaves(s);
    if Exec(s).sent != s.sent {
      AskedFor(s);
      assert false;
    }
  }

  /** When everything is marked beforehand the loop asks for no votes. */
  lemma {:induction false} SweepQuiet(s: State, order: seq<int>)
    requires forall j :: j in s.log ==> s.log[j].voted
    ensures Sweep(s, order).sent == s.sent
    decreases |order|
  {
    if order != [] {
      if order[0] in s.log {
        AllVotedQuiet(MarkOne(s, order[0]));
        SweepQuiet(SweepOne(s, order[0]), order[1..]);
      } else {
        SweepQuiet(s, order[1..]);
      }
    }
  }

  /** As long as only slots come up that are not committed, the loop marks them and does nothing else. */
  lemma {:induction false} UncommittedQuiet(s: State, order: seq<int>)
    requires forall k :: k in order ==> k in s.log && !s.log[k].commit
    ensures var t := Sweep(s, order);
            && t == s.(log := t.log, flag2 := t.flag2) && t.log.Keys == s.log.Keys
            && forall j :: j in t.log ==> t.log[j] == s.log[j].(voted := s.log[j].voted || j in order)
    decreases |order|
  {
    if order != [] {
      var u := MarkOne(s, order[0]);
      assert SweepOne(s, order[0]) == u && u.log.Keys == s.log.Keys;
      UncommittedQuiet(u, order[1..]);
      assert forall j :: j in order <==> j == order[0] || j in order[1..];
    }
  }

  // ---------- Up to the second loop ----------

  /** With the slot of the proposal there are votes queued for as many slots as a vote lists. */
  ghost predicate QueueFull(s: State, slot: int) { |s.l.Keys + {slot}| >= s.cfg.total }

  /** Entries made here so far, less one, that of the proposal included. */
  function Made(s: State, slot: int): int { if slot in s.log then s.count else s.count + 1 }

  /** When all entries are marked at once. */
  ghost predicate MarkingDue(s: State, slot: int) {
    Made(s, slot) >= s.execute + s.cfg.total || QueueFull(s, slot)
  }

  /** When the second loop runs: for a slot below the largest one marked so far, or a batch size of zero or less. */
  ghost predicate LoopDue(s: State, slot: int) {
    || s.cfg.total <= 0
    || slot < s.flag2
    || (MarkingDue(s, slot) && exists k :: k in s.log && slot < k)
  }

  /** The entries are those of before and that of the proposal, which this replica does not lead. */
  ghost predicate Entered(s: State, v: State, m: Message)
    requires m.Propose?
  {
    && (forall j :: j in v.log <==> j in s.log || j == m.slot)
    && (forall j :: j in v.log ==>
          v.log[j] == (if j in s.log then s.log[j] else NewEntry(m))
                        .(leader := j in s.log && j != m.slot && s.log[j].leader, voted := v.log[j].voted))
    && (forall j :: j in v.log ==> (v.log[j].voted <==> MarkingDue(s, m.slot) || (j in s.log && s.log[j].voted)))
  }

  function NewEntry(m: Message): Entry
    requires m.Propose?
  {
    Entry(m.ballot, false, None, m.command, NoVotes, false, false, false, m.slot)
  }

  /** The queue with the proposal's slot, which holds a vote for the proposed command. */
  function Queue(s: State, m: Message): map<int, CommandBallot>
    requires m.Propose?
  {
    s.l[m.slot := CommandBallot(m.command, m.slot, s.id)]
  }

  ghost predicate Highest(s: State, v: State, slot: int) {
    if MarkingDue(s, slot) then IsMax(v.flag2, s.flag2, s.log.Keys + {slot}) else v.flag2 == s.flag2
  }

  lemma QueueSize(s: State, m: Message)
    requires m.Propose?
    ensures Full(Accept(s, m)) <==> QueueFull(s, m.slot)
    ensures Marked(s, m) == if MarkingDue(s, m.slot) then MarkAll(Accept(s, m)) else Accept(s, m)
  {
    var a := Accept(s, m);
    assert a.l.Keys == s.l.Keys + {m.slot};
    assert |a.l| == |a.l.Keys|;
  }

  lemma MarkedEntries(s: State, m: Message)
    requires m.Propose?
    ensures Entered(s, Marked(s, m), m) && Marked(s, m).count == Made(s, m.slot)
  {
    QueueSize(s, m);
  }

  lemma MarkedHighest(s: State, m: Message)
    requires m.Propose?
    ensures Highest(s, Marked(s, m), m.slot)
  {
    QueueSize(s, m);
    assert Accept(s, m).log.Keys == s.log.Keys + {m.slot};
  }

  lemma BeforeLoop(s: State, m: Message)
    requires m.Propose?
    ensures var v, full := BeforeSweep(s, m), QueueFull(s, m.slot);
            && Entered(s, v, m) && Highest(s, v, m.slot)
            && v.execute == s.execute && v.executed == s.executed && v.replies == s.replies && v.cfg == s.cfg
            && v.count == Made(s, m.slot) && v.id == s.id
            && v.l == (if full then map[] else Queue(s, m))
            && v.sent == s.sent + (if full then [Vote(m.slot, s.id, Queue(s, m))] else [])
  {
    MarkedEntries(s, m);
    MarkedHighest(s, m);
    QueueSize(s, m);
    MarkedKept(s, m);
  }

  lemma LoopsExactly(s: State, m: Message)
    requires m.Propose?
    ensures Sweeps(s, m) <==> LoopDue(s, m.slot)
  {
    BeforeLoop(s, m);
    QueueSize(s, m);
    var v := BeforeSweep(s, m);
    if MarkingDue(s, m.slot) {
      assert m.slot < v.flag2 <==> m.slot < s.flag2 || exists k :: k in s.log && m.slot < k;
    }
    QueueLeft(s, m);
  }

  lemma QueueLeft(s: State, m: Message)
    requires m.Propose?
    ensures Full(BeforeSweep(s, m)) <==> s.cfg.total <= 0
  {
    QueueSize(s, m);
  }

  // ---------- The whole handler ----------

  /** The frontier has passed the longest contiguous run of committed slots, and nothing else. */
  ghost predicate FrontierPast(s: State, t: State) {
    && s.execute <= t.execute
    && (forall j :: Passed(s, t, j) ==> CommittedAt(s, j))
    && !CommittedAt(s, t.execute)
  }

  /** Exactly these slots have been executed, in order. */
  ghost predicate RanPassed(s: State, t: State) {
    && |t.executed| == |s.executed| + (t.execute - s.execute) && s.executed <= t.executed
    && forall j :: Passed(s, t, j) ==> j in s.log && t.executed[|s.executed| + j - s.execute] == s.log[j].command
  }

  /**
   Whatever the order of the loops: when the second one is due, every entry left is marked and the frontier has
   passed exactly the longest run of committed slots; otherwise nothing is executed, and entries are marked
   exactly when the marking is due.
   */
  lemma ProposalEffect(s: State, m: Message, order: seq<int>)
    requires m.Propose? && ProposeOrder(s, m, order)
    ensures var t := HandlePropose(s, m, order);
            && RanPassed(s, t)
            && (if LoopDue(s, m.slot) then FrontierPast(s, t) else t.execute == s.execute)
            && (forall j :: j in t.log <==> (j in s.log || j == m.slot) && !Passed(s, t, j))
            && (forall j :: j in t.log ==>
                  (t.log[j].voted <==>
                   LoopDue(s, m.slot) || MarkingDue(s, m.slot) || (j in s.log && s.log[j].voted)))
  {
    BeforeLoop(s, m);
    LoopsExactly(s, m);
    var v := BeforeSweep(s, m);
    assert forall j :: CommittedAt(v, j) <==> CommittedAt(s, j);
    if Sweeps(s, m) {
      SweepAdvanced(v, order);
      SweepLeaves(v, {}, order);
      PastCommitted(s, v, Sweep(v, order), m);
      RanEntered(s, v, Sweep(v, order), m);
    }
  }

  lemma EnteredKeeps(s: State, v: State, m: Message, j: int)
    requires m.Propose? && Entered(s, v, m)
    ensures CommittedAt(v, j) <==> CommittedAt(s, j)
    ensures j in s.log ==> j in v.log && v.log[j].command == s.log[j].command
  {}

  lemma PastCommitted(s: State, v: State, t: State, m: Message)
    requires m.Propose? && Entered(s, v, m) && v.execute == s.execute
    requires Advanced(v, t) && !CommittedAt(t, t.execute)
    ensures FrontierPast(s, t)
  {
    StopsUncommitted(v, t);
    EnteredKeeps(s, v, m, t.execute);
    forall j | Passed(s, t, j) ensures CommittedAt(s, j) {
      RanAt(v, t, j);
      EnteredKeeps(s, v, m, j);
    }
  }

  lemma RanEntered(s: State, v: State, t: State, m: Message)
    requires m.Propose? && Entered(s, v, m) && v.execute == s.execute && v.executed == s.executed && Advanced(v, t)
    requires forall j :: Passed(s, t, j) ==> CommittedAt(s, j)
    ensures RanPassed(s, t)
  {
    forall j | Passed(s, t, j) ensures t.executed[|s.executed| + j - s.execute] == s.log[j].command {
      RanAt(v, t, j);
      EnteredKeeps(s, v, m, j);
    }
  }

  lemma RanAt(v: State, t: State, j: int)
    requires Advanced(v, t) && Passed(v, t, j)
    ensures CommittedAt(v, j) && t.executed[|v.executed| + j - v.execute] == v.log[j].command
  {}

  lemma StopsUncommitted(v: State, t: State)
    requires Advanced(v, t) && !CommittedAt(t, t.execute)
    ensures !CommittedAt(v, t.execute)
  {
    if t.execute in v.log {
      assert SameEntry(v.log[t.execute], t.log[t.execute]);
    }
  }

  /**
   A full queue goes out as one vote, for the queued slots and that of the proposal; when the marking is due that
   is all that is sent.
   */
  lemma ProposalSends(s: State, m: Message, order: seq<int>)
    requires m.Propose? && ProposeOrder(s, m, order)
    ensures var t, full := HandlePropose(s, m, order), QueueFull(s, m.slot);
            var vote := if full then [Vote(m.slot, s.id, Queue(s, m))] else [];
            && s.sent + vote <= t.sent
            && (MarkingDue(s, m.slot) || !LoopDue(s, m.slot) ==> t.sent == s.sent + vote)
            && (forall j :: j in t.l <==> !full && j in Queue(s, m) && !Passed(s, t, j))
  {
    BeforeLoop(s, m);
    LoopsExactly(s, m);
    var v := BeforeSweep(s, m);
    if Sweeps(s, m) {
      SweepAdvanced(v, order);
      if MarkingDue(s, m.slot) {
        SweepQuiet(v, order);
      }
    }
  }

  ghost predicate AnswersOther(s: State, t: State, r: Reply, slot: int) {
    exists j :: j != slot && AnswerFor(s, t, r, j)
  }

  /** Another's proposal for its own slot makes a replica give the slot up: it will not answer the client. */
  lemma ProposalTakesOver(s: State, m: Message, order: seq<int>)
    requires m.Propose? && ProposeOrder(s, m, order)
    ensures var t := HandlePropose(s, m, order);
            && (m.slot in t.log ==> !t.log[m.slot].leader)
            && (forall j :: j in t.log && j in s.log && j != m.slot ==> t.log[j].leader == s.log[j].leader)
            && s.replies <= t.replies
            && (forall i :: |s.replies| <= i < |t.replies| ==> AnswersOther(s, t, t.replies[i], m.slot))
  {
    BeforeLoop(s, m);
    var v := BeforeSweep(s, m);
    if Sweeps(s, m) {
      SweepAdvanced(v, order);
      var t := Sweep(v, order);
      forall i | |s.replies| <= i < |t.replies|
        ensures AnswersOther(s, t, t.replies[i], m.slot)
      {
        assert Answers(v, t, t.replies[i]);
        var j :| AnswerFor(v, t, t.replies[i], j);
        assert AnswerFor(s, t, t.replies[i], j);
      }
    }
  }

  lemma {:induction false} SweepHighest(s: State, seen: set<int>, order: seq<int>)
    requires SweepOrder(s, seen, order)
    ensures IsMax(Sweep(s, order).flag2, s.flag2, KeysOf(order))
    decreases |order|
  {
    if order != [] {
      var u := SweepOne(s, order[0]);
      ExecRuns(MarkOne(s, order[0]));
      SweepHighest(u, seen + {order[0]}, order[1..]);
      var m := Sweep(s, order).flag2;
      assert IsMax(m, u.flag2, KeysOf(order[1..]));
      assert forall k :: k in KeysOf(order) ==> k == order[0] || k in KeysOf(order[1..]);
    }
  }

  /** The largest slot marked so far: all slots when the marking is due, and what the second loop comes to. */
  lemma ProposalHighest(s: State, m: Message, order: seq<int>)
    requires m.Propose? && ProposeOrder(s, m, order)
    ensures var due := if MarkingDue(s, m.slot) then s.log.Keys + {m.slot} else {};
            IsMax(HandlePropose(s, m, order).flag2, s.flag2, due + KeysOf(order))
  {
    BeforeLoop(s, m);
    var v := BeforeSweep(s, m);
    var due := if MarkingDue(s, m.slot) then s.log.Keys + {m.slot} else {};
    assert IsMax(v.flag2, s.flag2, due);
    if Sweeps(s, m) {
      SweepHighest(v, {}, order);
    }
    MaxOfBoth(HandlePropose(s, m, order).flag2, v.flag2, s.flag2, KeysOf(order), due);
  }

  lemma MaxOfBoth(m: int, base: int, first: int, keys: set<int>, more: set<int>)
    requires IsMax(m, base, keys) && IsMax(base, first, more)
    ensures IsMax(m, first, more + keys)
  {}
}
