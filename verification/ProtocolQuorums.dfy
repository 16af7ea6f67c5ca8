/** Quorums of the round protocol, for every F: what votes, commits and progress prove about the voters. */
module ProtocolQuorums {
  import opened Cardinality
  import opened Protocol
  import opened ProtocolInvariant

  ghost function Voters(votes: set<Vote>): set<nat> { set m | m in votes :: m.voter }

  ghost function Proposers(votes: set<Vote>): set<nat> { set m | m in votes :: m.proposer }

  ghost function Pairs(votes: set<Vote>): set<(nat, nat)> { set m | m in votes :: (m.voter, m.proposer) }

  /** Votes of one round in which slot and proposer are one number. */
  ghost predicate OfRound(votes: set<Vote>, r: nat) { forall m :: m in votes ==> m.round == r && m.slot == m.proposer }

  // ---------- Counting votes ----------

  /** A voter votes at most once for a proposer, so votes of a round are counted by their pairs. */
  lemma {:induction false} PairsCount(votes: set<Vote>, r: nat)
    requires OfRound(votes, r)
    ensures |Pairs(votes)| == |votes|
  {
    if |votes| == 0 {
      assert Pairs(votes) == {};
    } else {
      var m :| m in votes;
      var rest := votes - {m};
      PairsCount(rest, r);
      assert Pairs(votes) == Pairs(rest) + {(m.voter, m.proposer)};
      assert |rest| == |votes| - 1;
    }
  }

  lemma PairsInGrid(votes: set<Vote>, xs: set<nat>, ys: set<nat>, r: nat)
    requires OfRound(votes, r) && Voters(votes) <= xs && Proposers(votes) <= ys
    ensures |votes| <= |xs| * |ys|
    ensures |votes| == |xs| * |ys| ==> Pairs(votes) == Grid(xs, ys)
  {
    assert Pairs(votes) <= Grid(xs, ys) by {
      forall m | m in votes
        ensures (m.voter, m.proposer) in Grid(xs, ys)
      {
        assert m.voter in Voters(votes) && m.proposer in Proposers(votes);
      }
    }
    PairsCount(votes, r);
    GridSize(xs, ys);
    SubsetSize(Pairs(votes), Grid(xs, ys));
  }

  lemma MessagesInRange(c: Constants, s: State, r: nat)
    requires MessagesOk(c, s)
    ensures OfRound(s.VotesIn(r), r)
    ensures Voters(s.VotesIn(r)) <= Below(c.N()) && Proposers(s.VotesIn(r)) <= Below(c.N())
  {}

  ghost predicate AllVoted(c: Constants, s: State, r: nat) {
    forall v: nat, p: nat :: v < c.N() && p < c.N() ==> Vote(r, p, v, p) in s.votes
  }

  /** A round has N*N votes exactly when every process has voted for every leader. */
  lemma FullRound(c: Constants, s: State, r: nat)
    requires MessagesOk(c, s)
    ensures |s.VotesIn(r)| <= c.N() * c.N()
    ensures |s.VotesIn(r)| >= c.N() * c.N() <==> AllVoted(c, s, r)
  {
    var all, votes := Below(c.N()), s.VotesIn(r);
    MessagesInRange(c, s, r);
    PairsInGrid(votes, all, all, r);
    if |votes| >= c.N() * c.N() {
      forall v: nat, p: nat | v < c.N() && p < c.N()
        ensures Vote(r, p, v, p) in s.votes
      {
        assert (v, p) in Pairs(votes);
        var m :| m in votes && (m.voter, m.proposer) == (v, p);
        assert m == Vote(r, p, v, p);
      }
    } else if AllVoted(c, s, r) {
      PairsCount(votes, r);
      GridSize(all, all);
      forall v, p | v in all && p in all
        ensures (v, p) in Pairs(votes)
      {
        assert Vote(r, p, v, p) in votes;
      }
      assert Grid(all, all) <= Pairs(votes);
      SubsetSize(Grid(all, all), Pairs(votes));
    }
  }

  /** Pigeonhole: (N-F)*N votes of a round come from at least N-F voters and name at least N-F leaders. */
  lemma ManyVoters(c: Constants, s: State, r: nat)
    requires MessagesOk(c, s) && |s.VotesIn(r)| >= Quorum(c)
    ensures |Voters(s.VotesIn(r))| >= c.N() - c.f && |Proposers(s.VotesIn(r))| >= c.N() - c.f
  {
    var all, votes := Below(c.N()), s.VotesIn(r);
    MessagesInRange(c, s, r);
    var vs, ps := Voters(votes), Proposers(votes);
    PairsInGrid(votes, vs, all, r);
    Pigeonhole(|votes|, |vs|, c.N() - c.f, c.N());
    PairsInGrid(votes, all, ps, r);
    Pigeonhole(|votes|, |ps|, c.N() - c.f, c.N());
  }

  lemma Pigeonhole(total: nat, holes: nat, q: nat, n: nat)
    requires q * n <= total && (total <= holes * n || total <= n * holes) && n > 0
    ensures holes >= q
  {
    Factor(holes, q, n);
  }

  lemma Factor(a: nat, b: nat, n: nat)
    requires n > 0
    ensures a < b ==> a * n < b * n
  {
    assert b * n == a * n + (b - a) * n;
  }

  /** Votes for one slot are counted by their voters. */
  lemma SlotVoters(c: Constants, s: State, k: nat, r: nat)
    requires MessagesOk(c, s)
    ensures |Voters(s.VotesAt(k, r))| == |s.VotesAt(k, r)|
    ensures Voters(s.VotesAt(k, r)) <= Below(c.N())
  {
    var votes := s.VotesAt(k, r);
    var vs := Voters(votes);
    assert OfRound(votes, r) && Proposers(votes) <= {k};
    PairsInGrid(votes, vs, {k}, r);
    PairsCount(votes, r);
    GridSize(vs, {k});
    assert Grid(vs, {k}) <= Pairs(votes) by {
      forall v | v in vs
        ensures (v, k) in Pairs(votes)
      {
        var m :| m in votes && m.voter == v;
        assert (m.voter, m.proposer) in Pairs(votes);
      }
    }
    SubsetSize(Grid(vs, {k}), Pairs(votes));
  }

  // ---------- What commits and progress prove ----------

  /** A vote is determined by its round, its voter and its proposer. */
  lemma VotesAreUnique(c: Constants, s: State, m: Vote, w: Vote)
    requires Reachable(c, s) && m in s.votes && w in s.votes
    requires m.round == w.round && m.voter == w.voter && m.proposer == w.proposer
    ensures m == w
  {
    ReachableInv(c, s);
  }

  /** A process has left a round only when every process has voted for every leader in it. */
  lemma LeavingARound(c: Constants, s: State, i: nat, r: nat)
    requires Reachable(c, s) && i < |s.procs| && r < s.procs[i].round
    ensures AllVoted(c, s, r)
  {
    ReachableInv(c, s);
    FullRound(c, s, r);
  }

  /**
   A commit before the last round proves that every process voted for every leader of the round; a commit in
   the last round proves that at least N-F processes voted, and for at least N-F leaders.
   */
  lemma CommitProves(c: Constants, s: State, r: nat, p: nat)
    requires Reachable(c, s) && s.At(r, p).commit
    ensures s.At(r, p).v == [p]
    ensures r < c.maxRound ==> AllVoted(c, s, r)
    ensures r >= c.maxRound ==>
              |Voters(s.VotesIn(r))| >= c.N() - c.f && |Proposers(s.VotesIn(r))| >= c.N() - c.f
  {
    ReachableInv(c, s);
    FullRound(c, s, r);
    if r >= c.maxRound {
      ManyVoters(c, s, r);
    }
  }

  /** A vote for a slot proves a quorum of N-F voters behind every earlier slot of the round. */
  lemma EarlierSlotsHaveQuorums(c: Constants, s: State, m: Vote, k: nat)
    requires Reachable(c, s) && m in s.votes && k < m.slot
    ensures |Voters(s.VotesAt(k, m.round))| >= c.N() - c.f
  {
    ReachableInv(c, s);
    SlotVoters(c, s, k, m.round);
  }

  /** Any two of these quorums share F+1 voters: one more than can fail. */
  lemma SlotQuorumsMeet(c: Constants, s: State, m: Vote, j: nat, k: nat)
    requires Reachable(c, s) && m in s.votes && j < m.slot && k < m.slot
    ensures |Voters(s.VotesAt(j, m.round)) * Voters(s.VotesAt(k, m.round))| >= c.f + 1
  {
    ReachableInv(c, s);
    EarlierSlotsHaveQuorums(c, s, m, j);
    EarlierSlotsHaveQuorums(c, s, m, k);
    SlotVoters(c, s, j, m.round);
    SlotVoters(c, s, k, m.round);
    Overlap(Voters(s.VotesAt(j, m.round)), Voters(s.VotesAt(k, m.round)), Below(c.N()));
  }

  /** Quorums of N-F voters of any two slots of any two rounds share F+1 processes. */
  lemma QuorumsMeet(c: Constants, s: State, j: nat, q: nat, k: nat, r: nat)
    requires Reachable(c, s) && |s.VotesAt(j, q)| >= c.N() - c.f && |s.VotesAt(k, r)| >= c.N() - c.f
    ensures |Voters(s.VotesAt(j, q)) * Voters(s.VotesAt(k, r))| >= c.f + 1
  {
    ReachableInv(c, s);
    SlotVoters(c, s, j, q);
    SlotVoters(c, s, k, r);
    Overlap(Voters(s.VotesAt(j, q)), Voters(s.VotesAt(k, r)), Below(c.N()));
  }

  /**
   Provenance: a vote answers the one proposal of its slot, a proposal the one assignment of its slot, made
   by the coordinator of the round; a log entry is its leader's value exactly when that leader proposed.
   */
  lemma Provenance(c: Constants, s: State)
    requires Reachable(c, s)
    ensures forall m :: m in s.votes ==> Proposal(m.round, m.slot, m.slot, m.round) in s.proposals
    ensures forall m :: m in s.proposals ==>
              m == Proposal(m.round, m.slot, m.slot, m.round) && Assign(m.round, m.slot, m.slot, m.round) in s.assigns
    ensures forall m :: m in s.assigns ==> m == Assign(m.round, m.slot, m.slot, m.round) && m.round < c.N()
    ensures forall r: nat, p: nat :: s.At(r, p).v == if Proposal(r, p, p, r) in s.proposals then [p] else []
  {
    ReachableInv(c, s);
  }

  /** Messages are never taken back, log values are written once, commits are never undone. */
  ghost predicate Extends(s: State, t: State) {
    && s.assigns <= t.assigns && s.proposals <= t.proposals && s.votes <= t.votes
    && forall r: nat, p: nat ::
         && (s.At(r, p).v != [] ==> t.At(r, p).v == s.At(r, p).v)
         && (s.At(r, p).commit ==> t.At(r, p).commit)
  }

  lemma VoteExtends(c: Constants, s: State, t: State, self: nat)
    requires self < |s.procs| && IsVote(c, s, t, self)
    ensures Extends(s, t)
  {
    CommitEffect(c, s, t, self);
  }

  lemma ProposeExtends(s: State, t: State, self: nat)
    requires self < |s.procs| && IsPropose(s, t, self)
    requires forall m :: m in s.assigns ==> m.leader == m.slot
    ensures Extends(s, t)
  {
    var m :| m in s.assigns && self == m.leader && s.At(m.round, m.slot).v == []
      && t.log == s.log[Cell(m.round, self) := s.At(m.round, self).(v := [self])];
    assert s.At(m.round, self).v == [];
  }

  lemma OthersExtend(s: State, t: State)
    requires t.log == s.log && s.assigns <= t.assigns && t.proposals == s.proposals && t.votes == s.votes
    ensures Extends(s, t)
  {}

  lemma StepExtends(c: Constants, s: State, t: State)
    requires Inv(c, s) && Next(c, s, t)
    ensures Extends(s, t)
  {
    if AllDone(s) && t == s {
      OthersExtend(s, t);
    } else {
      var self: nat :| self < |s.procs| && Step(c, s, t, self);
      if s.procs[self].pc == P2 && IsVote(c, s, t, self) {
        VoteExtends(c, s, t, self);
      } else if s.procs[self].pc == P2 && IsPropose(s, t, self) {
        ProposeExtends(s, t, self);
      } else {
        OthersExtend(s, t);
      }
    }
  }

  lemma ExtendsTransitive(s: State, t: State, u: State)
    requires Extends(s, t) && Extends(t, u)
    ensures Extends(s, u)
  {}

  lemma StepOf(c: Constants, trace: seq<State>, j: nat)
    requires Behaviour(c, trace) && trace[0] == Init(c) && 0 < j < |trace|
    ensures Extends(trace[j - 1], trace[j])
  {
    InitInv(c);
    BehaviourInv(c, trace, j - 1);
    assert Next(c, trace[j - 1], trace[j]);
    StepExtends(c, trace[j - 1], trace[j]);
  }

  lemma {:induction false} BehavioursExtend(c: Constants, trace: seq<State>, i: nat, j: nat)
    requires Behaviour(c, trace) && trace[0] == Init(c) && i <= j < |trace|
    ensures Extends(trace[i], trace[j])
  {
    if i < j {
      BehavioursExtend(c, trace, i, j - 1);
      StepOf(c, trace, j);
      ExtendsTransitive(trace[i], trace[j - 1], trace[j]);
    }
  }

  // ---------- The invariants of the specification, for every F ----------

  /** Progress of the specification (slot < 5 for F = 1): no process gets past slot N. */
  lemma SlotsAreBounded(c: Constants, s: State, i: nat)
    requires Reachable(c, s) && i < |s.procs|
    ensures s.procs[i].slot <= c.N()
  {
    ReachableInv(c, s);
  }

  ghost function VotesBelow(s: State, r: nat): set<Vote> { set m | m in s.votes && m.round < r }

  lemma {:induction false} VotesBelowBound(c: Constants, s: State, r: nat)
    requires MessagesOk(c, s)
    ensures |VotesBelow(s, r)| <= r * (c.N() * c.N())
  {
    if r == 0 {
      assert VotesBelow(s, 0) == {};
    } else {
      VotesBelowBound(c, s, r - 1);
      FullRound(c, s, r - 1);
      assert VotesBelow(s, r) == VotesBelow(s, r - 1) + s.VotesIn(r - 1);
      assert |VotesBelow(s, r)| <= |VotesBelow(s, r - 1)| + |s.VotesIn(r - 1)|;
      assert r * (c.N() * c.N()) == (r - 1) * (c.N() * c.N()) + c.N() * c.N();
    }
  }

  /** AllVote of the specification (32 votes for F = 1 and two rounds): N*N votes a round at most. */
  lemma VotesAreBounded(c: Constants, s: State)
    requires Reachable(c, s)
    ensures |s.votes| <= (c.maxRound + 1) * (c.N() * c.N())
  {
    ReachableInv(c, s);
    VotesBelowBound(c, s, c.maxRound + 1);
    assert VotesBelow(s, c.maxRound + 1) == s.votes;
  }

  // ---------- When the protocol cannot finish ----------

  /** A process leaves a round only when slots are exactly the leaders, and only rounds with a coordinator. */
  lemma LeavingNeeds(c: Constants, s: State, i: nat, r: nat)
    requires Reachable(c, s) && i < |s.procs| && r < s.procs[i].round
    ensures c.maxSlot == c.N() - 1 && r < c.N()
  {
    ReachableInv(c, s);
    LeavingARound(c, s, i, r);
    var last := c.N() - 1;
    assert Vote(r, last, last, last) in s.votes;
    assert Proposal(r, last, last, r) in s.proposals;
    assert Assign(r, last, last, r) in s.assigns;
  }

  /** When MaxSlot is not N-1 all processes stay in round 0, and with more than one round nothing ever commits. */
  lemma OtherSlotsNeverCommit(c: Constants, s: State)
    requires Reachable(c, s) && c.maxSlot != c.N() - 1
    ensures forall i :: 0 <= i < |s.procs| ==> s.procs[i].round == 0
    ensures c.maxRound > 0 ==> forall r: nat, p: nat :: !s.At(r, p).commit
  {
    ReachableInv(c, s);
    forall i | 0 <= i < |s.procs|
      ensures s.procs[i].round == 0
    {
      if s.procs[i].round > 0 {
        LeavingNeeds(c, s, i, 0);
      }
    }
  }

  lemma DoneNeeds(c: Constants, s: State)
    requires Reachable(c, s) && AllDone(s)
    ensures c.maxSlot == c.N() - 1 && c.maxRound < c.N()
  {
    ReachableInv(c, s);
    LeavingNeeds(c, s, 0, c.maxRound);
  }
}
