/**
 How a replica comes to execute slot 0 without having had a part in it: it has been asked for another slot z
 only, and counts the votes of others for both.
 */
module ReplicaSkipping {
  import opened Ids
  import opened Databases
  import opened Quorums
  import opened Cardinality
  import opened Sequences
  import opened Replicas
  import opened ReplicaSteps
  import opened ReplicaVoting
  import opened ReplicaUnvoted

  // ---------- No part in a slot ----------

  /** The replica has neither proposed nor voted for slot k, and has no vote for it queued. */
  ghost predicate Silent(s: State, k: int) {
    && k !in s.l
    && forall m :: m in s.sent ==> if m.Vote? then k !in m.l else m.slot != k
  }

  lemma SilentAsked(s: State, c: Command, k: int)
    requires Silent(s, k) && c.counter != k
    ensures Silent(HandleRequest(s, c), k)
  {}

  lemma SilentExec(s: State, k: int)
    requires Silent(s, k)
    ensures Silent(Exec(s), k)
  {
    ExecRuns(s);
  }

  lemma SilentVoteOne(s: State, i: int, cb: CommandBallot, k: int)
    requires Silent(s, k)
    ensures Silent(VoteOne(s, i, cb), k)
  {
    SilentExec(Committed(s, i, cb), k);
  }

  lemma {:induction false} SilentVotes(s: State, l: map<int, CommandBallot>, order: seq<int>, k: int)
    requires Silent(s, k)
    ensures Silent(HandleVote(s, l, order), k)
    decreases |order|
  {
    if order != [] {
      var n := |order| - 1;
      SilentVotes(s, l, order[..n], k);
      if order[n] in l {
        SilentVoteOne(HandleVote(s, l, order[..n]), order[n], l[order[n]], k);
      }
    }
  }

  lemma {:induction false} SilentSweep(s: State, order: seq<int>, k: int)
    requires Silent(s, k)
    ensures Silent(Sweep(s, order), k)
    decreases |order|
  {
    if order != [] {
      if order[0] in s.log {
        SilentExec(MarkOne(s, order[0]), k);
        SilentSweep(SweepOne(s, order[0]), order[1..], k);
      } else {
        SilentSweep(s, order[1..], k);
      }
    }
  }

  lemma SilentPropose(s: State, m: Message, order: seq<int>, k: int)
    requires Silent(s, k) && m.Propose? && m.slot != k
    ensures Silent(HandlePropose(s, m, order), k)
  {
    var b := Marked(s, m);
    MarkedKept(s, m);
    assert Silent(b, k);
    var v := BeforeSweep(s, m);
    assert forall x :: x in v.sent && x !in b.sent ==> x == Vote(m.slot, b.id, b.l);
    assert Silent(v, k);
    SilentSweep(v, order, k);
  }

  // ---------- Counting up to one vote less than a majority ----------

  /** Slot 0 is known from the votes of those in a only; the replica's own slot z has the votes of those in b. */
  ghost predicate Behind(s: State, cfg: Config, z: int, a: set<ID>, b: set<ID>) {
    && s.cfg == cfg && cfg.N() >= 2 && s.execute == 0 && z != 0
    && |a| < cfg.N() / 2 && |b| < cfg.N() / 2
    && Tallied(s, 0, a)
    && z in s.log && s.log[z].voted && !s.log[z].commit
    && s.log[z].quorum.acks == b && s.log[z].quorum.size == |b|
  }

  lemma OwnIsBehind(s: State, cfg: Config, id: ID, plan: int -> Command, z: int)
    requires Own(s, cfg, id, plan, {z}, {z}) && cfg.N() >= 2 && z != 0
    ensures Behind(s, cfg, z, {}, {})
  {}

  lemma BehindZero(s: State, cfg: Config, z: int, a: set<ID>, b: set<ID>, cb: CommandBallot)
    requires Behind(s, cfg, z, a, b) && cb.id !in a && |a| + 1 < cfg.N() / 2
    ensures Behind(VoteOne(s, 0, cb), cfg, z, a + {cb.id}, b)
  {
    assert VoteOne(s, 0, cb) == s.(log := s.log[0 := Acknowledged(s, 0, cb)]);
  }

  lemma BehindOwn(s: State, cfg: Config, z: int, a: set<ID>, b: set<ID>, cb: CommandBallot)
    requires Behind(s, cfg, z, a, b) && cb.id !in b && |b| + 1 < cfg.N() / 2
    ensures Behind(VoteOne(s, z, cb), cfg, z, a, b + {cb.id})
  {
    assert VoteOne(s, z, cb) == s.(log := s.log[z := Acknowledged(s, z, cb)]);
  }

  /** A vote for another slot changes that slot only: exec has nothing to do. */
  lemma BehindOther(s: State, cfg: Config, z: int, a: set<ID>, b: set<ID>, k: int, cb: CommandBallot)
    requires Behind(s, cfg, z, a, b) && k != 0 && k != z
    ensures Behind(VoteOne(s, k, cb), cfg, z, a, b)
  {
    var u := Committed(s, k, cb);
    assert Exec(u) == u;
  }

  /** Those in some, and v once slot k has come up. */
  function Counted(some: set<ID>, v: ID, k: int, order: seq<int>): set<ID> {
    if k in Elems(order) then some + {v} else some
  }

  lemma {:induction false} BehindSome(s: State, cfg: Config, z: int, some: set<ID>, v: ID, m: Message,
                                      slots: set<int>, order: seq<int>, n: nat)
    requires Behind(s, cfg, z, some, some) && v !in some && |some| + 1 < cfg.N() / 2 && IsVote(m, v, slots)
    requires Distinct(order) && Elems(order) <= slots && n <= |order|
    ensures Behind(HandleVote(s, m.l, order[..n]), cfg, z,
                   Counted(some, v, 0, order[..n]), Counted(some, v, z, order[..n]))
  {
    if n > 0 {
      BehindSome(s, cfg, z, some, v, m, slots, order, n - 1);
      var t, k := HandleVote(s, m.l, order[..n - 1]), order[n - 1];
      FrontOf(order, n);
      assert k in Elems(order);
      var a, b := Counted(some, v, 0, order[..n - 1]), Counted(some, v, z, order[..n - 1]);
      if k == 0 {
        BehindZero(t, cfg, z, a, b, m.l[k]);
      } else if k == z {
        BehindOwn(t, cfg, z, a, b, m.l[k]);
      } else {
        BehindOther(t, cfg, z, a, b, k, m.l[k]);
      }
    }
  }

  lemma BehindVote(s: State, cfg: Config, z: int, some: set<ID>, v: ID, m: Message, slots: set<int>)
    returns (order: seq<int>)
    requires Behind(s, cfg, z, some, some) && v !in some && |some| + 1 < cfg.N() / 2
    requires IsVote(m, v, slots) && 0 in slots && z in slots
    ensures VoteOrder(m.l, order) && Behind(HandleVote(s, m.l, order), cfg, z, some + {v}, some + {v})
  {
    order := Enumerate(slots);
    assert order[..|order|] == order;
    OrderOk(m, v, slots, order);
    BehindSome(s, cfg, z, some, v, m, slots, order, |order|);
  }

  // ---------- The vote that makes a majority ----------

  /** Slot 0 has been executed or is committed. */
  ghost predicate Bound(s: State) {
    s.execute >= 0 && (s.execute == 0 ==> 0 in s.log && s.log[0].commit)
  }

  lemma ExecBinds(s: State)
    requires Bound(s)
    ensures Bound(Exec(s))
  {
    ExecRuns(s);
  }

  lemma {:induction false} VotesBind(s: State, l: map<int, CommandBallot>, order: seq<int>, n: nat)
    requires n <= |order| && Bound(HandleVote(s, l, order[..n]))
    ensures Bound(HandleVote(s, l, order))
    decreases |order|
  {
    if n == |order| {
      assert order[..n] == order;
    } else {
      var last := |order| - 1;
      assert order[..last][..n] == order[..n];
      VotesBind(s, l, order[..last], n);
      var t := HandleVote(s, l, order[..last]);
      if order[last] in l {
        ExecBinds(Committed(t, order[last], l[order[last]]));
      }
    }
  }

  /** exec either runs slot 0 or asks for votes, which empties its quorum. */
  lemma ZeroDecided(s: State, cfg: Config, z: int, some: set<ID>, cb: CommandBallot)
    requires Behind(s, cfg, z, some, some) && cb.id !in some && |some| + 1 >= cfg.N() / 2
    ensures var t := VoteOne(s, 0, cb); t.cfg == cfg && (t.execute > 0 || Emptied(t, z, some))
  {
    var u := Committed(s, 0, cb);
    assert VoteOne(s, 0, cb) == Exec(u);
    ExecRuns(u);
    if !Ready(u) {
      assert Exec(u) == AskForVotes(u);
    } else {
      assert RunLength(u) > 0;
    }
  }

  ghost predicate Emptied(t: State, z: int, some: set<ID>) {
    && t.execute == 0 && 0 in t.log && t.log[0].commit && t.log[0].quorum == NoVotes
    && z in t.log && z != 0 && t.log[z].quorum.acks == some && t.log[z].quorum.size == |some|
  }

  /** The majority for slot z then calls exec again, which runs slot 0. */
  lemma ZeroRuns(t: State, z: int, some: set<ID>, cb: CommandBallot)
    requires Emptied(t, z, some) && t.cfg.total > 0 && cb.id !in some && |some| + 1 >= t.cfg.N() / 2
    ensures VoteOne(t, z, cb).execute > 0
  {
    var u := Committed(t, z, cb);
    assert VoteOne(t, z, cb) == Exec(u);
    assert Ready(u);
    ReadyRuns(u);
  }

  lemma FirstTwo(s: State, l: map<int, CommandBallot>, order: seq<int>)
    requires |order| >= 2 && order[0] in l && order[1] in l
    ensures HandleVote(s, l, order[..1]) == VoteOne(s, order[0], l[order[0]])
    ensures HandleVote(s, l, order[..2]) == VoteOne(HandleVote(s, l, order[..1]), order[1], l[order[1]])
  {
    FirstVote(s, l, order);
    assert order[..2][..1] == order[..1];
  }

  /** The vote that makes the majority, slots 0 and z first. */
  lemma FinalVote(s: State, cfg: Config, z: int, some: set<ID>, v: ID, m: Message, slots: set<int>)
    returns (order: seq<int>)
    requires Behind(s, cfg, z, some, some) && v !in some && |some| + 1 >= cfg.N() / 2
    requires IsVote(m, v, slots) && 0 in slots && z in slots
    ensures VoteOrder(m.l, order)
    ensures var t := HandleVote(s, m.l, order); Bound(t) && (cfg.total > 0 ==> t.execute > 0)
  {
    order := OrderFrom([0, z], slots);
    OrderOk(m, v, slots, order);
    assert order[0] == order[..2][0] && order[1] == order[..2][1];
    FirstTwo(s, m.l, order);
    var t := HandleVote(s, m.l, order[..1]);
    ZeroDecided(s, cfg, z, some, m.l[0]);
    VotesBind(s, m.l, order, 1);
    if t.execute > 0 {
      VotesFurther(s, m.l, order, 1);
    } else if cfg.total > 0 {
      ZeroRuns(t, z, some, m.l[z]);
      VotesFurther(s, m.l, order, 2);
    }
  }

  // ---------- With a batch size of zero or less ----------

  /** Some order in which the second loop of HandlePropose may go. */
  lemma {:induction false} SomeSweep(s: State, seen: set<int>) returns (order: seq<int>)
    ensures SweepOrder(s, seen, order)
    decreases |s.log.Keys - seen|
  {
    var left := s.log.Keys - seen;
    if |left| == 0 {
      NothingLeft(s.log.Keys, seen);
      order := [];
    } else {
      var k := Any(left);
      assert k in left;
      var t := SweepOne(s, k);
      ExecShrinks(MarkOne(s, k));
      assert MarkOne(s, k).log.Keys == s.log.Keys;
      SubsetSize(t.log.Keys - (seen + {k}), left - {k});
      var rest := SomeSweep(t, seen + {k});
      order := [k] + rest;
    }
  }

  lemma {:induction false} SweepFurther(s: State, order: seq<int>)
    ensures s.execute <= Sweep(s, order).execute && s.sent <= Sweep(s, order).sent
    decreases |order|
  {
    if order != [] {
      if order[0] in s.log {
        ExecRuns(MarkOne(s, order[0]));
        SweepFurther(SweepOne(s, order[0]), order[1..]);
      } else {
        SweepFurther(s, order[1..]);
      }
    }
  }

  /** Any proposal then marks slot 0 as voted, and the second loop executes it. */
  lemma ProposalRuns(s: State, m: Message) returns (order: seq<int>)
    requires Bound(s) && s.execute == 0 && s.cfg.total <= 0 && m.Propose? && m.slot != 0
    ensures ProposeOrder(s, m, order) && HandlePropose(s, m, order).execute > 0
  {
    var a := Accept(s, m);
    assert Full(a) && Marked(s, m) == MarkAll(a);
    var v := SendVotes(MarkAll(a), m.slot);
    assert BeforeSweep(s, m) == v && Sweeps(s, m);
    assert 0 in v.log && v.log[0].commit;
    var t := SweepOne(v, 0);
    assert Ready(MarkOne(v, 0));
    ReadyRuns(MarkOne(v, 0));
    var rest := SomeSweep(t, {} + {0});
    order := [0] + rest;
    SweepFurther(t, rest);
  }
}
