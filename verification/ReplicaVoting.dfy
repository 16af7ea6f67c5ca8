/**
 How a replica comes to vote, and what votes make of its log: being asked for slots, voting for all of them
 on one proposal, counting the votes of others, and executing.
 */
module ReplicaVoting {
  import opened Ids
  import opened Databases
  import opened Quorums
  import opened Cardinality
  import opened Sequences
  import opened Replicas
  import opened ReplicaSteps

  /** The members of a set in some order. */
  lemma {:induction false} Enumerate(slots: set<int>) returns (order: seq<int>)
    ensures Distinct(order) && Elems(order) == slots && |order| == |slots|
    decreases |slots|
  {
    if |slots| == 0 {
      order := [];
    } else {
      var k := Any(slots);
      assert k in slots;
      var rest := Enumerate(slots - {k});
      order := [k] + rest;
      Prepended(k, rest);
    }
  }

  lemma Prepended(k: int, rest: seq<int>)
    requires Distinct(rest) && k !in Elems(rest)
    ensures Distinct([k] + rest) && Elems([k] + rest) == {k} + Elems(rest)
  {
    assert forall i :: 0 <= i < |rest| ==> rest[i] in Elems(rest);
  }

  // ---------- Handlers that execute nothing ----------

  /** The same entries, except that more of them may be marked as voted. */
  ghost predicate Kept(s: State, t: State) {
    && t.cfg == s.cfg && t.id == s.id && t.execute == s.execute && t.executed == s.executed
    && t.log.Keys == s.log.Keys
    && forall i :: i in s.log ==>
         && t.log[i].command == s.log[i].command && t.log[i].commit == s.log[i].commit
         && t.log[i].quorum == s.log[i].quorum && (s.log[i].voted ==> t.log[i].voted)
  }

  ghost predicate NoCommit(s: State) { forall i :: i in s.log ==> !s.log[i].commit }

  /** The second loop of HandlePropose executes nothing when nothing has committed. */
  lemma {:induction false} QuietSweep(s: State, seen: set<int>) returns (order: seq<int>)
    requires NoCommit(s)
    ensures SweepOrder(s, seen, order)
    ensures var t := Sweep(s, order); Kept(s, t) && t.l == s.l && t.sent == s.sent
    decreases |s.log.Keys - seen|
  {
    var left := s.log.Keys - seen;
    if |left| == 0 {
      NothingLeft(s.log.Keys, seen);
      order := [];
    } else {
      var k := Any(left);
      assert k in left;
      var t := MarkOne(s, k);
      assert SweepOne(s, k) == t && t.log.Keys == s.log.Keys;
      assert t.log.Keys - (seen + {k}) == left - {k};
      var rest := QuietSweep(t, seen + {k});
      order := [k] + rest;
    }
  }

  lemma MarkedKept(s: State, m: Message)
    requires m.Propose?
    ensures var a, b := Accept(s, m), Marked(s, m); Kept(a, b) && b.l == a.l && b.sent == a.sent
  {
    var a := Accept(s, m);
    assert MarkAll(a).log.Keys == a.log.Keys;
  }

  // ---------- A replica's own requests ----------

  ghost predicate HasProposal(s: State, slot: int) {
    exists m :: m in s.sent && m.Propose? && m.slot == slot
  }

  /** A vote by id for exactly these slots. */
  ghost predicate IsVote(m: Message, id: ID, slots: set<int>) {
    m.Vote? && m.l.Keys == slots && forall i :: i in m.l ==> m.l[i].id == id
  }

  ghost predicate HasVote(s: State, id: ID, slots: set<int>) {
    exists m :: m in s.sent && IsVote(m, id, slots)
  }

  /**
   A replica that has been asked for plan(i) in every slot i of slots, has queued votes for the slots of queued,
   and has seen no vote.
   */
  ghost predicate Own(s: State, cfg: Config, id: ID, plan: int -> Command, slots: set<int>, queued: set<int>) {
    && s.cfg == cfg && s.id == id && s.execute == 0 && s.executed == []
    && s.log.Keys == slots && s.l.Keys == queued
    && (forall i :: i in s.log ==>
          s.log[i].command == plan(i) && s.log[i].voted && !s.log[i].commit && s.log[i].quorum == NoVotes)
    && (forall i :: i in s.l ==> s.l[i].id == id)
  }

  lemma StartsOwn(cfg: Config, id: ID, plan: int -> Command)
    ensures Own(Init(cfg, id), cfg, id, plan, {}, {})
  {}

  lemma AskedOwn(s: State, cfg: Config, id: ID, plan: int -> Command, slots: set<int>, queued: set<int>, i: int)
    requires Own(s, cfg, id, plan, slots, queued) && plan(i).counter == i
    ensures var t := HandleRequest(s, plan(i));
            && Own(t, cfg, id, plan, slots + {i}, queued + {i})
            && HasProposal(t, i) && s.sent <= t.sent
  {
    var t := HandleRequest(s, plan(i));
    assert t.sent[|s.sent|].slot == i && t.sent[|s.sent|] in t.sent;
  }

  lemma AcceptKept(s: State, m: Message)
    requires m.Propose? && m.slot in s.log
    ensures var a := Accept(s, m);
            && Kept(s, a) && a.sent == s.sent
            && a.l == s.l[m.slot := CommandBallot(m.command, m.slot, s.id)]
  {}

  lemma KeptTwice(s: State, t: State, u: State)
    requires Kept(s, t) && Kept(t, u)
    ensures Kept(s, u)
  {}

  lemma KeptOwn(s: State, t: State, cfg: Config, id: ID, plan: int -> Command, slots: set<int>, queued: set<int>)
    requires Own(s, cfg, id, plan, slots, queued) && Kept(s, t) && t.l == map[]
    ensures Own(t, cfg, id, plan, slots, {})
  {}

  /** Once enough votes are queued, a proposal makes the replica vote for all the queued slots and its own. */
  lemma VotesOwn(s: State, cfg: Config, id: ID, plan: int -> Command, slots: set<int>, queued: set<int>, m: Message)
    returns (order: seq<int>)
    requires Own(s, cfg, id, plan, slots, queued)
    requires m.Propose? && m.slot in slots && |queued + {m.slot}| >= cfg.total
    ensures ProposeOrder(s, m, order)
    ensures var t := HandlePropose(s, m, order);
            && Own(t, cfg, id, plan, slots, {})
            && HasVote(t, id, queued + {m.slot}) && s.sent <= t.sent
  {
    var b := Marked(s, m);
    AcceptKept(s, m);
    MarkedKept(s, m);
    KeptTwice(s, Accept(s, m), b);
    assert b.l.Keys == queued + {m.slot};
    assert |b.l| == |b.l.Keys|;
    var v := SendVotes(b, m.slot);
    assert BeforeSweep(s, m) == v;
    assert Kept(s, v);
    SentOne(b.sent, Vote(m.slot, id, b.l), id, queued + {m.slot});
    if Sweeps(s, m) {
      order := QuietSweep(v, {});
      KeptTwice(s, v, Sweep(v, order));
      KeptOwn(s, Sweep(v, order), cfg, id, plan, slots, queued);
    } else {
      order := [];
      KeptOwn(s, v, cfg, id, plan, slots, queued);
    }
  }

  lemma SentOne(sent: seq<Message>, m: Message, id: ID, slots: set<int>)
    requires IsVote(m, id, slots)
    ensures sent <= sent + [m] && exists x :: x in sent + [m] && IsVote(x, id, slots)
  {
    assert (sent + [m])[|sent|] == m;
  }

  // ---------- Counting votes ----------

  /**
   The entries of slots: those of done have the acknowledgements of more, the others those of some, and none
   has committed.
   */
  ghost predicate Counting(s: State, cfg: Config, plan: int -> Command, slots: set<int>, done: set<int>,
                           more: set<ID>, some: set<ID>) {
    && s.cfg == cfg && s.execute == 0 && s.executed == [] && s.log.Keys == slots
    && (forall i :: i in s.log ==> s.log[i].command == plan(i) && s.log[i].voted && !s.log[i].commit)
    && (forall i :: i in s.log ==>
          var ids := if i in done then more else some;
          s.log[i].quorum.acks == ids && s.log[i].quorum.size == |ids|)
  }

  lemma OwnCounts(s: State, cfg: Config, id: ID, plan: int -> Command, slots: set<int>, queued: set<int>)
    requires Own(s, cfg, id, plan, slots, queued)
    ensures Counting(s, cfg, plan, slots, {}, {}, {})
  {}

  lemma CountOne(s: State, cfg: Config, plan: int -> Command, slots: set<int>, done: set<int>, some: set<ID>, k: int,
                 cb: CommandBallot)
    requires cb.id !in some && |some| + 1 < cfg.N() / 2 && k in slots && k !in done
    requires Counting(s, cfg, plan, slots, done, some + {cb.id}, some)
    ensures Counting(VoteOne(s, k, cb), cfg, plan, slots, done + {k}, some + {cb.id}, some)
    ensures VoteOne(s, k, cb).sent == s.sent
  {
    assert VoteOne(s, k, cb) == s.(log := s.log[k := Acknowledged(s, k, cb)]);
    assert s.log[k := Acknowledged(s, k, cb)].Keys == slots;
  }

  /** A vote that makes no majority. */
  lemma {:induction false} CountSome(s: State, cfg: Config, plan: int -> Command, slots: set<int>, some: set<ID>, v: ID,
                                     m: Message, order: seq<int>, n: nat)
    requires v !in some && |some| + 1 < cfg.N() / 2 && IsVote(m, v, slots)
    requires Distinct(order) && Elems(order) <= slots && n <= |order|
    requires Counting(s, cfg, plan, slots, {}, some + {v}, some)
    ensures var t := HandleVote(s, m.l, order[..n]);
            Counting(t, cfg, plan, slots, Elems(order[..n]), some + {v}, some) && t.sent == s.sent
  {
    if n > 0 {
      CountSome(s, cfg, plan, slots, some, v, m, order, n - 1);
      var t, k := HandleVote(s, m.l, order[..n - 1]), order[n - 1];
      FrontOf(order, n);
      assert k in Elems(order);
      CountOne(t, cfg, plan, slots, Elems(order[..n - 1]), some, k, m.l[k]);
    }
  }

  lemma FrontOf(order: seq<int>, n: nat)
    requires Distinct(order) && 0 < n <= |order|
    ensures order[..n][..n - 1] == order[..n - 1] && order[..n][n - 1] == order[n - 1]
    ensures Elems(order[..n]) == Elems(order[..n - 1]) + {order[n - 1]}
    ensures order[n - 1] !in Elems(order[..n - 1])
  {
    assert order[..n] == order[..n - 1] + [order[n - 1]];
    assert forall i :: 0 <= i < n - 1 ==> order[..n - 1][i] == order[i];
  }

  lemma CountStart(s: State, cfg: Config, plan: int -> Command, slots: set<int>, more: set<ID>, some: set<ID>)
    requires Counting(s, cfg, plan, slots, {}, {}, some)
    ensures Counting(s, cfg, plan, slots, {}, more, some)
  {}

  lemma CountedAll(s: State, cfg: Config, plan: int -> Command, slots: set<int>, more: set<ID>, some: set<ID>)
    requires Counting(s, cfg, plan, slots, slots, more, some)
    ensures Counting(s, cfg, plan, slots, {}, {}, more)
  {}

  // ---------- Executing ----------

  /** Slots 0..i-1 have been executed as planned; i..k wait, each one acknowledgement short of executing. */
  ghost predicate Line(s: State, cfg: Config, plan: int -> Command, i: nat, k: nat, some: set<ID>) {
    && s.cfg == cfg && s.execute == i && |s.executed| == i
    && (forall j :: 0 <= j < i ==> s.executed[j] == plan(j))
    && (forall j :: i <= j <= k ==>
          && j in s.log && s.log[j].command == plan(j) && s.log[j].voted && !s.log[j].commit
          && s.log[j].quorum.acks == some && s.log[j].quorum.size == |some|)
  }

  ghost predicate ExecutedPlan(s: State, plan: int -> Command, k: nat) {
    |s.executed| >= k && forall j :: 0 <= j < k ==> s.executed[j] == plan(j)
  }

  lemma OneVoteRuns(s: State, cfg: Config, plan: int -> Command, i: nat, k: nat, some: set<ID>, cb: CommandBallot)
    requires Line(s, cfg, plan, i, k, some) && i <= k && cb.id !in some && |some| + 1 >= cfg.N() / 2
    ensures ExecutedPlan(VoteOne(s, i, cb), plan, i + 1)
    ensures i < k ==> Line(VoteOne(s, i, cb), cfg, plan, i + 1, k, some)
  {
    var u := Committed(s, i, cb);
    var t := ExecuteOne(u);
    assert Ready(u);
    assert VoteOne(s, i, cb) == Exec(u) == Exec(t);
    if i < k {
      assert i + 1 in t.log && !t.log[i + 1].commit;
    }
    ExecRuns(t);
  }

  /** The slots 0..n-1. */
  function UpTo(n: nat): seq<int> { seq(n, i => i) }

  lemma {:induction false} VoteRuns(s: State, cfg: Config, plan: int -> Command, k: nat, some: set<ID>, v: ID,
                                    m: Message, slots: set<int>, n: nat)
    requires Line(s, cfg, plan, 0, k, some) && v !in some && |some| + 1 >= cfg.N() / 2
    requires IsVote(m, v, slots) && (forall i :: 0 <= i <= k ==> i in slots) && n <= k + 1
    ensures var t := HandleVote(s, m.l, UpTo(n));
            ExecutedPlan(t, plan, n) && (n <= k ==> Line(t, cfg, plan, n, k, some))
  {
    if n > 0 {
      VoteRuns(s, cfg, plan, k, some, v, m, slots, n - 1);
      assert UpTo(n)[..n - 1] == UpTo(n - 1);
      OneVoteRuns(HandleVote(s, m.l, UpTo(n - 1)), cfg, plan, n - 1, k, some, m.l[n - 1]);
    }
  }

  /** Votes only ever add to what has been executed and sent. */
  ghost predicate Further(s: State, t: State) {
    s.executed <= t.executed && s.sent <= t.sent && s.execute <= t.execute
  }

  lemma VoteOneFurther(s: State, k: int, cb: CommandBallot)
    ensures Further(s, VoteOne(s, k, cb))
  {
    ExecRuns(Committed(s, k, cb));
  }

  lemma {:induction false} VotesFurther(s: State, l: map<int, CommandBallot>, order: seq<int>, n: nat)
    requires n <= |order|
    ensures Further(HandleVote(s, l, order[..n]), HandleVote(s, l, order))
    decreases |order|
  {
    if n == |order| {
      assert order[..n] == order;
    } else {
      var last := |order| - 1;
      VotesFurther(s, l, order[..last], n);
      assert order[..last][..n] == order[..n];
      if order[last] in l {
        VoteOneFurther(HandleVote(s, l, order[..last]), order[last], l[order[last]]);
      }
    }
  }

  /** An order in which the slots of first come up first. */
  lemma OrderFrom(first: seq<int>, slots: set<int>) returns (order: seq<int>)
    requires Distinct(first) && Elems(first) <= slots
    ensures Distinct(order) && Elems(order) == slots && |order| == |slots|
    ensures |first| <= |order| && order[..|first|] == first
  {
    var rest := Enumerate(slots - Elems(first));
    order := first + rest;
    assert Distinct(order) by {
      assert forall i :: 0 <= i < |first| ==> first[i] in Elems(first);
      assert forall i :: 0 <= i < |rest| ==> rest[i] in Elems(rest);
    }
    assert Elems(order) == Elems(first) + Elems(rest);
    assert Elems(order) == slots;
    DistinctSize(order);
  }

  lemma {:induction false} DistinctSize(order: seq<int>)
    requires Distinct(order)
    ensures |Elems(order)| == |order|
  {
    if order != [] {
      var n := |order|;
      FrontOf(order, n);
      DistinctSize(order[..n - 1]);
      assert order[..n] == order;
    }
  }

  lemma OrderOk(m: Message, v: ID, slots: set<int>, order: seq<int>)
    requires IsVote(m, v, slots) && Distinct(order) && Elems(order) == slots && |order| == |slots|
    ensures VoteOrder(m.l, order)
  {
    assert |m.l| == |m.l.Keys|;
    assert forall i :: 0 <= i < |order| ==> order[i] in Elems(order);
  }

  /** The vote that makes a majority for slots 0..k executes them as planned. */
  lemma MajorityRuns(s: State, cfg: Config, plan: int -> Command, slots: set<int>, k: nat, some: set<ID>, v: ID,
                     m: Message)
    returns (order: seq<int>)
    requires Counting(s, cfg, plan, slots, {}, {}, some) && v !in some && |some| + 1 >= cfg.N() / 2
    requires IsVote(m, v, slots) && forall i :: 0 <= i <= k ==> i in slots
    ensures VoteOrder(m.l, order) && ExecutedPlan(HandleVote(s, m.l, order), plan, k + 1)
  {
    assert Line(s, cfg, plan, 0, k, some);
    VoteRuns(s, cfg, plan, k, some, v, m, slots, k + 1);
    order := OrderFrom(UpTo(k + 1), slots);
    OrderOk(m, v, slots, order);
    VotesFurther(s, m.l, order, k + 1);
  }
}
