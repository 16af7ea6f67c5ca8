/**
 What votes make of slots that a replica has no proposal for: it acknowledges and commits them without having
 voted, and exec either executes them or asks for votes.
 */
module ReplicaUnvoted {
  import opened Ids
  import opened Quorums
  import opened Sequences
  import opened Replicas
  import opened ReplicaVoting

  /** Slot k is known from the votes of some only. */
  ghost predicate Tallied(s: State, k: int, some: set<ID>) {
    if some == {} then k !in s.log
    else
      && k in s.log && !s.log[k].voted
      && s.log[k].quorum.acks == some && s.log[k].quorum.size == |some|
      && (s.log[k].commit <==> |some| >= s.cfg.N() / 2)
  }

  // ---------- Slot 1 is counted while slot 0 is unknown ----------

  ghost predicate Early(s: State, cfg: Config, some: set<ID>) {
    s.cfg == cfg && cfg.N() >= 2 && s.execute == 0 && 0 !in s.log && Tallied(s, 1, some)
  }

  lemma EarlyOne(s: State, cfg: Config, some: set<ID>, k: int, cb: CommandBallot)
    requires Early(s, cfg, some) && k != 0 && (k == 1 ==> cb.id !in some)
    ensures var t := VoteOne(s, k, cb); Early(t, cfg, if k == 1 then some + {cb.id} else some) && t.sent == s.sent
  {
    var u := Committed(s, k, cb);
    assert Exec(u) == u;
  }

  lemma {:induction false} EarlySome(s: State, cfg: Config, some: set<ID>, v: ID, m: Message, slots: set<int>,
                                     order: seq<int>, n: nat)
    requires Early(s, cfg, some) && v !in some && IsVote(m, v, slots) && 0 !in slots
    requires Distinct(order) && Elems(order) <= slots && n <= |order|
    ensures var t := HandleVote(s, m.l, order[..n]);
            Early(t, cfg, if 1 in Elems(order[..n]) then some + {v} else some) && t.sent == s.sent
  {
    if n > 0 {
      EarlySome(s, cfg, some, v, m, slots, order, n - 1);
      var t, k := HandleVote(s, m.l, order[..n - 1]), order[n - 1];
      FrontOf(order, n);
      assert k in Elems(order);
      EarlyOne(t, cfg, if 1 in Elems(order[..n - 1]) then some + {v} else some, k, m.l[k]);
    }
  }

  lemma EarlyVote(s: State, cfg: Config, some: set<ID>, v: ID, m: Message, slots: set<int>) returns (order: seq<int>)
    requires Early(s, cfg, some) && v !in some && IsVote(m, v, slots) && 0 !in slots && 1 in slots
    ensures VoteOrder(m.l, order)
    ensures var t := HandleVote(s, m.l, order); Early(t, cfg, some + {v}) && t.sent == s.sent
  {
    order := Enumerate(slots);
    OrderOk(m, v, slots, order);
    EarlySome(s, cfg, some, v, m, slots, order, |order|);
    assert order[..|order|] == order;
  }

  // ---------- Slot 0 is counted up to one vote less than a majority ----------

  ghost predicate Late(s: State, cfg: Config, some: set<ID>, ahead: set<ID>) {
    && s.cfg == cfg && cfg.N() >= 2 && s.execute == 0 && |some| < cfg.N() / 2
    && Tallied(s, 0, some) && Tallied(s, 1, ahead)
  }

  /** A vote for another slot changes that slot only: exec has nothing to do. */
  lemma LateOther(s: State, cfg: Config, some: set<ID>, ahead: set<ID>, k: int, cb: CommandBallot)
    requires Late(s, cfg, some, ahead) && k != 0 && k != 1
    ensures Late(VoteOne(s, k, cb), cfg, some, ahead) && VoteOne(s, k, cb).sent == s.sent
  {
    var u := Committed(s, k, cb);
    assert Exec(u) == u;
  }

  lemma LateZero(s: State, cfg: Config, some: set<ID>, ahead: set<ID>, cb: CommandBallot)
    requires Late(s, cfg, some, ahead) && cb.id !in some && |some| + 1 < cfg.N() / 2
    ensures Late(VoteOne(s, 0, cb), cfg, some + {cb.id}, ahead) && VoteOne(s, 0, cb).sent == s.sent
  {
    assert VoteOne(s, 0, cb) == s.(log := s.log[0 := Acknowledged(s, 0, cb)]);
  }

  lemma {:induction false} LateSome(s: State, cfg: Config, some: set<ID>, ahead: set<ID>, v: ID, m: Message,
                                    slots: set<int>, order: seq<int>, n: nat)
    requires Late(s, cfg, some, ahead) && v !in some && |some| + 1 < cfg.N() / 2 && IsVote(m, v, slots) && 1 !in slots
    requires Distinct(order) && Elems(order) <= slots && n <= |order|
    ensures var t := HandleVote(s, m.l, order[..n]);
            Late(t, cfg, if 0 in Elems(order[..n]) then some + {v} else some, ahead) && t.sent == s.sent
  {
    if n > 0 {
      LateSome(s, cfg, some, ahead, v, m, slots, order, n - 1);
      var t, k := HandleVote(s, m.l, order[..n - 1]), order[n - 1];
      FrontOf(order, n);
      assert k in Elems(order);
      if k == 0 {
        LateZero(t, cfg, some, ahead, m.l[k]);
      } else {
        LateOther(t, cfg, if 0 in Elems(order[..n - 1]) then some + {v} else some, ahead, k, m.l[k]);
      }
    }
  }

  lemma LateVote(s: State, cfg: Config, some: set<ID>, ahead: set<ID>, v: ID, m: Message, slots: set<int>)
    returns (order: seq<int>)
    requires Late(s, cfg, some, ahead) && v !in some && |some| + 1 < cfg.N() / 2
    requires IsVote(m, v, slots) && 0 in slots && 1 !in slots
    ensures VoteOrder(m.l, order)
    ensures var t := HandleVote(s, m.l, order); Late(t, cfg, some + {v}, ahead) && t.sent == s.sent
  {
    order := Enumerate(slots);
    OrderOk(m, v, slots, order);
    LateSome(s, cfg, some, ahead, v, m, slots, order, |order|);
    assert order[..|order|] == order;
  }

  // ---------- The vote that makes a majority for slot 0 ----------

  /** Slot 0 in the log after that vote, before exec. */
  ghost predicate Decided(u: State, cfg: Config, some: set<ID>) {
    && u.cfg == cfg && u.execute == 0 && 0 in u.log && u.log[0].commit && !u.log[0].voted
    && u.log[0].quorum.size == |some| + 1
  }

  lemma Decides(s: State, cfg: Config, some: set<ID>, ahead: set<ID>, cb: CommandBallot)
    requires Late(s, cfg, some, ahead) && cb.id !in some && |some| + 1 >= cfg.N() / 2
    ensures VoteOne(s, 0, cb) == Exec(Committed(s, 0, cb)) && Decided(Committed(s, 0, cb), cfg, some)
    ensures Tallied(Committed(s, 0, cb), 1, ahead)
  {}

  /** With every other replica's vote for slot 1 exec asks for votes, for slot 0 or for slot 1. */
  lemma ExecAsks(u: State, cfg: Config, some: set<ID>, ahead: set<ID>)
    requires Decided(u, cfg, some) && Tallied(u, 1, ahead) && ahead != {}
    requires |ahead| >= cfg.N() / 2 && |ahead| >= cfg.total
    ensures u.sent < Exec(u).sent
  {
    if |some| + 1 < cfg.total {
      var t := ExecuteOne(u);
      assert Ready(u) && Unvoted(t) && !Ready(t);
      assert Exec(u) == Exec(t) == AskForVotes(t);
    } else {
      assert Unvoted(u) && !Ready(u);
    }
  }

  lemma FinalVoteAsks(s: State, cfg: Config, some: set<ID>, ahead: set<ID>, v: ID, m: Message, slots: set<int>)
    returns (order: seq<int>)
    requires Late(s, cfg, some, ahead) && v !in some && |some| + 1 >= cfg.N() / 2
    requires IsVote(m, v, slots) && 0 in slots
    requires ahead != {} && |ahead| >= cfg.N() / 2 && |ahead| >= cfg.total
    ensures VoteOrder(m.l, order) && HandleVote(s, m.l, order).sent != s.sent
  {
    order := OrderFrom([0], slots);
    OrderOk(m, v, slots, order);
    Decides(s, cfg, some, ahead, m.l[0]);
    ExecAsks(Committed(s, 0, m.l[0]), cfg, some, ahead);
    FirstVote(s, m.l, order);
    VotesFurther(s, m.l, order, 1);
  }

  lemma FirstVote(s: State, l: map<int, CommandBallot>, order: seq<int>)
    requires |order| > 0 && order[0] in l
    ensures HandleVote(s, l, order[..1]) == VoteOne(s, order[0], l[order[0]])
  {
    assert order[..1][..0] == [] && order[..1][0] == order[0];
    assert HandleVote(s, l, []) == s;
  }
}
