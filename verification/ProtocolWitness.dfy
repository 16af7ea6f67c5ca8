/**
 The round protocol can finish: for every F, when the slots are exactly the leaders and every round has a
 coordinator, there is a run in which every entry of every round commits and every process is done.
 In each slot the coordinator assigns, the leader proposes, then everybody votes, then everybody moves on.
 The run is followed from state to state: each lemma returns the state it leads to.
 */
module ProtocolWitness {
  import opened Cardinality
  import opened Protocol
  import opened ProtocolInvariant
  import opened ProtocolQuorums

  // ---------- Runs ----------

  ghost predicate Reaches(c: Constants, s: State, t: State) {
    exists trace :: Behaviour(c, trace) && trace[0] == s && trace[|trace| - 1] == t
  }

  lemma ReachesItself(c: Constants, s: State)
    ensures Reaches(c, s, s)
  {
    assert Behaviour(c, [s]);
  }

  lemma ReachesNext(c: Constants, s: State, t: State, self: nat)
    requires self < |s.procs| && Step(c, s, t, self)
    ensures Reaches(c, s, t)
  {
    var trace := [s, t];
    assert Behaviour(c, trace);
  }

  lemma Joined(c: Constants, one: seq<State>, two: seq<State>)
    requires Behaviour(c, one) && Behaviour(c, two) && one[|one| - 1] == two[0]
    ensures Behaviour(c, one + two[1..])
  {
    var trace := one + two[1..];
    forall i | 0 < i < |trace|
      ensures Next(c, trace[i - 1], trace[i])
    {
      if i < |one| {
        assert Next(c, one[i - 1], one[i]);
      } else {
        var j := i - |one| + 1;
        assert Next(c, two[j - 1], two[j]);
        assert trace[i - 1] == two[j - 1] && trace[i] == two[j];
      }
    }
  }

  lemma ReachesOnward(c: Constants, s: State, t: State, u: State)
    requires Reaches(c, s, t) && Reaches(c, t, u)
    ensures Reaches(c, s, u)
  {
    var one :| Behaviour(c, one) && one[0] == s && one[|one| - 1] == t;
    var two :| Behaviour(c, two) && two[0] == t && two[|two| - 1] == u;
    var trace := one + two[1..];
    Joined(c, one, two);
    assert Behaviour(c, trace) && trace[0] == s && trace[|trace| - 1] == u;
  }

  /** Processes below v are in a, the others in b. */
  predicate Halves(s: State, v: nat, a: Process, b: Process) {
    forall p: nat :: p < |s.procs| ==> s.procs[p] == if p < v then a else b
  }

  function AllIn(s: State, a: Process): State { s.(procs := seq(|s.procs|, _ => a)) }

  /** Whatever the others do in the meantime, a process in b can move to a by itself. */
  ghost predicate CanMove(c: Constants, s: State, b: Process, a: Process) {
    forall u: State, p: nat :: u == s.(procs := u.procs) && p < |u.procs| && u.procs[p] == b ==>
      Step(c, u, u.Go(p, a), p)
  }

  /** Then all processes can move there, one after the other. */
  lemma {:induction false} MoveAll(c: Constants, s: State, v: nat, b: Process, a: Process)
    requires CanMove(c, s, b, a) && Halves(s, v, a, b) && v <= |s.procs|
    ensures Reaches(c, s, AllIn(s, a))
    decreases |s.procs| - v
  {
    if v == |s.procs| {
      assert AllIn(s, a).procs == s.procs;
      ReachesItself(c, s);
    } else {
      var t := s.Go(v, a);
      ReachesNext(c, s, t, v);
      assert CanMove(c, t, b, a) by {
        forall u: State, p: nat | u == t.(procs := u.procs) && p < |u.procs| && u.procs[p] == b
          ensures Step(c, u, u.Go(p, a), p)
        {
          assert u == s.(procs := u.procs);
        }
      }
      MoveAll(c, t, v + 1, b, a);
      assert AllIn(t, a) == AllIn(s, a);
      ReachesOnward(c, s, t, AllIn(s, a));
    }
  }

  // ---------- One slot ----------

  /** The leaders below v have committed their entries of round r. */
  ghost predicate CommittedBelow(s: State, r: nat, v: nat) {
    forall p: nat :: p < v ==> s.At(r, p).commit
  }

  ghost predicate Committed(c: Constants, s: State, r: nat) { CommittedBelow(s, r, c.N()) }

  /** What has committed when round r has come to slot k. */
  ghost predicate CommittedSoFar(c: Constants, s: State, r: nat, k: nat) {
    && (forall q: nat :: q + 1 < r ==> Committed(c, s, q))
    && (r > 0 && k > 0 ==> Committed(c, s, r - 1))
    && (r == c.maxRound && k == c.N() ==> Committed(c, s, c.maxRound))
  }

  /** All processes stand at slot k of round r; everyone has voted for every earlier slot, nobody for later ones. */
  ghost predicate AtSlot(c: Constants, s: State, r: nat, k: nat) {
    && c.f >= 1 && Inv(c, s) && r <= c.maxRound && r < c.N() && k <= c.N() && k <= c.maxSlot + 1
    && Halves(s, 0, Process(P2, r, k), Process(P2, r, k))
    && (forall m :: m in s.assigns ==> m.round < r || (m.round == r && m.slot < k))
    && (forall v: nat, j: nat :: v < c.N() && j < k ==> Vote(r, j, v, j) in s.votes)
    && CommittedSoFar(c, s, r, k)
  }

  /** In slot k, processes below v have voted. */
  ghost predicate Voting(c: Constants, s: State, r: nat, k: nat, v: nat) {
    && c.f >= 1 && Inv(c, s) && r <= c.maxRound && r < c.N() && k < c.N() && k <= c.maxSlot && v <= c.N()
    && Halves(s, v, Process(P3, r, k), Process(P2, r, k))
    && (forall m :: m in s.assigns ==> m.round < r || (m.round == r && m.slot <= k))
    && Proposal(r, k, k, r) in s.proposals
    && (forall w: nat, j: nat :: w < c.N() && j < k ==> Vote(r, j, w, j) in s.votes)
    && (forall w: nat :: w < c.N() ==> (Vote(r, k, w, k) in s.votes <==> w < v))
    && CommittedSoFar(c, s, r, k)
    && (r > 0 && k == 0 ==> CommittedBelow(s, r - 1, v))
    && (r == c.maxRound && k == c.N() - 1 ==> CommittedBelow(s, r, v))
  }

  lemma NoVotesYet(c: Constants, s: State, r: nat, k: nat)
    requires MessagesOk(c, s) && c.f >= 1
    requires forall m :: m in s.votes ==> !(m.round == r && m.slot == k)
    ensures |s.VotesAt(k, r)| == 0 < c.N() - c.f
  {
    assert s.VotesAt(k, r) == {};
  }

  lemma ReachesInv(c: Constants, s: State, t: State)
    requires Inv(c, s) && Reaches(c, s, t)
    ensures Inv(c, t)
  {
    var trace :| Behaviour(c, trace) && trace[0] == s && trace[|trace| - 1] == t;
    BehaviourInv(c, trace, |trace| - 1);
  }

  /** The coordinator assigns the slot and, with no votes yet, stays at it. */
  lemma Assigning(c: Constants, s: State, r: nat, k: nat) returns (t: State)
    requires AtSlot(c, s, r, k) && k < c.N() && k <= c.maxSlot
    ensures Reaches(c, s, t) && Inv(c, t) && t == s.(assigns := s.assigns + {Assign(r, k, k, r)})
  {
    var there, back := Process(P3, r, k), Process(P2, r, k);
    assert s.procs[r] == back;
    t := s.(assigns := s.assigns + {Assign(r, k, k, r)});
    var u := t.Go(r, there);
    assert IsStart(s, u, r);
    ReachesNext(c, s, u, r);
    ReachesInv(c, s, u);
    NoVotesYet(c, u, r, k);
    assert u.Go(r, back) == t by {
      assert u.Go(r, back).procs == s.procs;
    }
    assert IsP3(c, u, t, r);
    ReachesNext(c, u, t, r);
    ReachesOnward(c, s, u, t);
    ReachesInv(c, s, t);
  }

  /** The leader of the slot proposes, and stays at it too. */
  lemma Proposing(c: Constants, s0: State, s: State, r: nat, k: nat) returns (t: State)
    requires AtSlot(c, s0, r, k) && k < c.N() && k <= c.maxSlot
    requires Inv(c, s) && s == s0.(assigns := s0.assigns + {Assign(r, k, k, r)})
    ensures Reaches(c, s, t) && Inv(c, t)
    ensures t == s.(log := t.log, proposals := s.proposals + {Proposal(r, k, k, r)})
    ensures forall q: nat, p: nat :: t.At(q, p).commit == s.At(q, p).commit
  {
    var there, back := Process(P3, r, k), Process(P2, r, k);
    assert s.procs[k] == back;
    var m := Assign(r, k, k, r);
    assert Proposal(r, k, k, r) !in s.proposals;
    assert m in s.assigns && s.At(m.round, m.slot).v == [];
    t := s.(log := s.log[Cell(r, k) := s.At(r, k).(v := [k])], proposals := s.proposals + {Proposal(r, k, k, r)});
    var u := t.Go(k, there);
    assert IsPropose(s, u, k);
    ReachesNext(c, s, u, k);
    ReachesInv(c, s, u);
    NoVotesYet(c, u, r, k);
    assert u.Go(k, back) == t by {
      assert u.Go(k, back).procs == s.procs;
    }
    assert IsP3(c, u, t, k);
    ReachesNext(c, u, t, k);
    ReachesOnward(c, s, u, t);
    ReachesInv(c, s, t);
  }

  /** Commits are never undone. */
  lemma CommittedStays(c: Constants, s: State, t: State, r: nat, k: nat)
    requires CommittedSoFar(c, s, r, k)
    requires forall q: nat, p: nat :: s.At(q, p).commit ==> t.At(q, p).commit
    ensures CommittedSoFar(c, t, r, k)
  {
    forall q: nat | q + 1 < r
      ensures Committed(c, t, q)
    {
      assert Committed(c, s, q);
    }
  }

  lemma Opening(c: Constants, s: State, r: nat, k: nat) returns (t: State)
    requires AtSlot(c, s, r, k) && k < c.N() && k <= c.maxSlot
    ensures Reaches(c, s, t) && Voting(c, t, r, k, 0)
  {
    var u := Assigning(c, s, r, k);
    t := Proposing(c, s, u, r, k);
    ReachesOnward(c, s, u, t);
    SameLog(s, u);
    CommittedStays(c, s, t, r, k);
    NobodyVoted(c, s, r, k);
  }

  lemma NobodyVoted(c: Constants, s: State, r: nat, k: nat)
    requires AtSlot(c, s, r, k)
    ensures forall w: nat :: Vote(r, k, w, k) !in s.votes
  {
    forall w: nat
      ensures Vote(r, k, w, k) !in s.votes
    {
      assert Vote(r, k, w, k) in s.votes ==> Assign(r, k, k, r) in s.assigns;
    }
  }

  // ---------- Voting ----------

  /** While the first slot is being voted for, the round has far fewer votes than a quorum. */
  lemma FewVotes(c: Constants, s: State, r: nat)
    requires MessagesOk(c, s) && c.f >= 1
    requires forall m :: m in s.votes && m.round == r ==> m.slot == 0
    ensures |s.VotesIn(r)| < Quorum(c)
  {
    MessagesInRange(c, s, r);
    PairsInGrid(s.VotesIn(r), Below(c.N()), {0}, r);
    assert Quorum(c) == (2 * c.f + 1) * c.N();
    Factor(1, 2 * c.f + 1, c.N());
  }

  /** Slots that have everybody's vote give N votes each. */
  lemma SlotsGiveVotes(c: Constants, s: State, r: nat, k: nat)
    requires MessagesOk(c, s) && forall w: nat, j: nat :: w < c.N() && j < k ==> Vote(r, j, w, j) in s.votes
    ensures |s.VotesIn(r)| >= c.N() * k
  {
    var votes, grid := s.VotesIn(r), Grid(Below(c.N()), Below(k));
    MessagesInRange(c, s, r);
    PairsCount(votes, r);
    assert grid <= Pairs(votes) by {
      forall w, j | w in Below(c.N()) && j in Below(k)
        ensures (w, j) in Pairs(votes)
      {
        assert Vote(r, j, w, j) in votes;
      }
    }
    SubsetSize(grid, Pairs(votes));
    BelowGridSize(c.N(), k);
  }

  /** When all slots but the last have everybody's vote, the round has a quorum of votes. */
  lemma EnoughVotes(c: Constants, s: State, r: nat)
    requires MessagesOk(c, s) && c.f >= 1
    requires forall w: nat, j: nat :: w < c.N() && j < c.N() - 1 ==> Vote(r, j, w, j) in s.votes
    ensures |s.VotesIn(r)| >= Quorum(c)
  {
    SlotsGiveVotes(c, s, r, c.N() - 1);
    AllButOneSlot(c);
  }

  lemma AllButOneSlot(c: Constants)
    requires c.f >= 1
    ensures c.N() * (c.N() - 1) >= Quorum(c)
  {
    AtMostOneLess(c.N(), c.f);
  }

  lemma BelowGridSize(n: nat, m: nat)
    ensures |Grid(Below(n), Below(m))| == n * m
  {
    GridSize(Below(n), Below(m));
  }

  lemma AtMostOneLess(n: nat, f: nat)
    requires 1 <= f <= n
    ensures (n - f) * n <= n * (n - 1)
  {
    var d := f - 1;
    assert n * (n - 1) == (n - f) * n + d * n;
  }

  /** What a vote commits: the previous round in the first slot, the last round in its last slot. */
  lemma VoteCommits(c: Constants, s: State, t: State, r: nat, k: nat, v: nat)
    requires Voting(c, s, r, k, v) && v < c.N() && t.log == CommitLog(c, s, v)
    ensures r > 0 && k == 0 ==> t.At(r - 1, v).commit
    ensures r == c.maxRound && k == c.N() - 1 ==> t.At(r, v).commit
  {
    assert ProcessOk(c, s, s.procs[v]);
    if r > 0 && k == 0 {
      FewVotes(c, s, r);
      FullRound(c, s, r - 1);
      assert Vote(r - 1, v, v, v) in s.votes;
      assert s.At(r - 1, v).v == [v];
      Factor(c.N() - c.f, c.N(), c.N());
    }
    if r == c.maxRound && k == c.N() - 1 {
      EnoughVotes(c, s, r);
      assert v < k ==> Vote(r, v, v, v) in s.votes;
      assert s.At(r, v).v == [v];
    }
  }

  lemma VoteOnce(c: Constants, s: State, r: nat, k: nat, v: nat) returns (t: State)
    requires Voting(c, s, r, k, v) && v < c.N()
    ensures Reaches(c, s, t) && Voting(c, t, r, k, v + 1)
    ensures t.log == CommitLog(c, s, v)
  {
    t := s.(votes := s.votes + {Vote(r, k, v, k)}, log := CommitLog(c, s, v)).Go(v, Process(P3, r, k));
    CanVote(c, s, t, r, k, v);
    ReachesNext(c, s, t, v);
    ReachesInv(c, s, t);
    CommitEffect(c, s, t, v);
    CommittedStays(c, s, t, r, k);
    NewCommits(c, s, t, r, k, v);
    VotedOnce(c, s, t, r, k, v);
  }

  lemma NewCommits(c: Constants, s: State, t: State, r: nat, k: nat, v: nat)
    requires Voting(c, s, r, k, v) && v < c.N() && t.log == CommitLog(c, s, v)
    ensures r > 0 && k == 0 ==> CommittedBelow(t, r - 1, v + 1)
    ensures r == c.maxRound && k == c.N() - 1 ==> CommittedBelow(t, r, v + 1)
  {
    CommitEffect(c, s, t, v);
    VoteCommits(c, s, t, r, k, v);
    if r > 0 && k == 0 {
      OneMore(s, t, r - 1, v);
    }
    if r == c.maxRound && k == c.N() - 1 {
      OneMore(s, t, r, v);
    }
  }

  lemma VotedOnce(c: Constants, s: State, t: State, r: nat, k: nat, v: nat)
    requires Voting(c, s, r, k, v) && v < c.N()
    requires t.votes == s.votes + {Vote(r, k, v, k)} && t.procs == s.procs[v := Process(P3, r, k)]
    ensures forall w: nat, j: nat :: w < c.N() && j < k ==> Vote(r, j, w, j) in t.votes
    ensures forall w: nat :: w < c.N() ==> (Vote(r, k, w, k) in t.votes <==> w < v + 1)
    ensures Halves(t, v + 1, Process(P3, r, k), Process(P2, r, k))
  {}

  lemma OneMore(s: State, t: State, r: nat, v: nat)
    requires CommittedBelow(s, r, v) && t.At(r, v).commit
    requires forall q: nat, p: nat :: s.At(q, p).commit ==> t.At(q, p).commit
    ensures CommittedBelow(t, r, v + 1)
  {}

  lemma CanVote(c: Constants, s: State, t: State, r: nat, k: nat, v: nat)
    requires Voting(c, s, r, k, v) && v < c.N()
    requires t == s.(votes := s.votes + {Vote(r, k, v, k)}, log := CommitLog(c, s, v)).Go(v, Process(P3, r, k))
    ensures Step(c, s, t, v)
  {
    var m := Proposal(r, k, k, r);
    assert s.procs[v] == Process(P2, r, k);
    assert m in s.proposals && forall w :: w in s.votes ==> !(w.round == r && w.voter == v && w.proposer == k);
    assert IsVote(c, s, t, v);
  }

  lemma {:induction false} VoteAll(c: Constants, s: State, r: nat, k: nat, v: nat) returns (t: State)
    requires Voting(c, s, r, k, v)
    ensures Reaches(c, s, t) && Voting(c, t, r, k, c.N())
    decreases c.N() - v
  {
    if v == c.N() {
      t := s;
      ReachesItself(c, s);
    } else {
      var u := VoteOnce(c, s, r, k, v);
      t := VoteAll(c, u, r, k, v + 1);
      ReachesOnward(c, s, u, t);
    }
  }

  lemma AllVotedForSlot(c: Constants, s: State, r: nat, k: nat)
    requires MessagesOk(c, s) && forall w: nat :: w < c.N() ==> Vote(r, k, w, k) in s.votes
    ensures |s.VotesAt(k, r)| >= c.N()
  {
    SlotVoters(c, s, k, r);
    var vs := Voters(s.VotesAt(k, r));
    forall w | w in Below(c.N())
      ensures w in vs
    {
      assert Vote(r, k, w, k) in s.VotesAt(k, r);
    }
    SubsetSize(Below(c.N()), vs);
  }

  lemma CanClose(c: Constants, s: State, r: nat, k: nat)
    requires |s.VotesAt(k, r)| >= c.N() - c.f
    ensures CanMove(c, s, Process(P3, r, k), Process(P2, r, k + 1))
  {
    var b, a := Process(P3, r, k), Process(P2, r, k + 1);
    forall u: State, p: nat | u == s.(procs := u.procs) && p < |u.procs| && u.procs[p] == b
      ensures Step(c, u, u.Go(p, a), p)
    {
      assert u.VotesAt(k, r) == s.VotesAt(k, r);
      assert IsP3(c, u, u.Go(p, a), p);
    }
  }

  /** With all votes in, everybody moves on to the next slot. */
  lemma Closing(c: Constants, s: State, r: nat, k: nat) returns (t: State)
    requires Voting(c, s, r, k, c.N())
    ensures Reaches(c, s, t) && AtSlot(c, t, r, k + 1)
  {
    var b, a := Process(P3, r, k), Process(P2, r, k + 1);
    AllVotedForSlot(c, s, r, k);
    CanClose(c, s, r, k);
    MoveAll(c, s, 0, b, a);
    t := AllIn(s, a);
    ReachesInv(c, s, t);
    SameLog(s, t);
    ClosedCommits(c, s, t, r, k);
    ClosedVotes(c, s, r, k);
  }

  lemma ClosedCommits(c: Constants, s: State, t: State, r: nat, k: nat)
    requires Voting(c, s, r, k, c.N()) && forall q: nat, p: nat :: t.At(q, p) == s.At(q, p)
    ensures CommittedSoFar(c, t, r, k + 1)
  {
    CommittedStays(c, s, t, r, k);
  }

  lemma ClosedVotes(c: Constants, s: State, r: nat, k: nat)
    requires Voting(c, s, r, k, c.N())
    ensures forall v: nat, j: nat :: v < c.N() && j < k + 1 ==> Vote(r, j, v, j) in s.votes
  {}

  /** From one slot of a round to a later one. */
  lemma {:induction false} SomeSlots(c: Constants, s: State, r: nat, k: nat, end: nat) returns (t: State)
    requires AtSlot(c, s, r, k) && k <= end <= c.N() && end <= c.maxSlot + 1
    ensures Reaches(c, s, t) && AtSlot(c, t, r, end)
    decreases end - k
  {
    if k == end {
      t := s;
      ReachesItself(c, s);
    } else {
      var u := Opening(c, s, r, k);
      var v := VoteAll(c, u, r, k, 0);
      var w := Closing(c, v, r, k);
      t := SomeSlots(c, w, r, k + 1, end);
      ReachesOnward(c, s, u, v);
      ReachesOnward(c, s, v, w);
      ReachesOnward(c, s, w, t);
    }
  }

  // ---------- All rounds ----------

  /** All processes leave a round whose slots have everybody's vote. */
  lemma Leaving(c: Constants, s: State, r: nat) returns (t: State)
    requires AtSlot(c, s, r, c.N()) && c.maxSlot == c.N() - 1
    ensures Reaches(c, s, t) && t == AllIn(s, Process(P1, r + 1, c.N()))
  {
    var n := c.N();
    var a, b, d := Process(P2, r, n), Process(P4, r, n), Process(P1, r + 1, n);
    assert CanMove(c, s, a, b) by {
      forall u: State, p: nat | u == s.(procs := u.procs) && p < |u.procs| && u.procs[p] == a
        ensures Step(c, u, u.Go(p, b), p)
      {
        assert IsP2(c, u, u.Go(p, b), p);
      }
    }
    MoveAll(c, s, 0, a, b);
    var u := AllIn(s, b);
    FullRound(c, s, r);
    assert CanMove(c, u, b, d) by {
      forall w: State, p: nat | w == u.(procs := w.procs) && p < |w.procs| && w.procs[p] == b
        ensures Step(c, w, w.Go(p, d), p)
      {
        assert w.VotesIn(r) == s.VotesIn(r);
        assert IsP4(c, w, w.Go(p, d), p);
      }
    }
    MoveAll(c, u, 0, b, d);
    t := AllIn(u, d);
    assert t == AllIn(s, d);
    ReachesOnward(c, s, u, t);
  }

  lemma Entering(c: Constants, s: State, idle: Process, r: nat) returns (t: State)
    requires |s.procs| == c.N() && Halves(s, 0, idle, idle) && idle.pc == P1 && idle.round == r
    ensures Reaches(c, s, t)
    ensures t == AllIn(s, if r <= c.maxRound then Process(P2, r, 0) else Process(Done, r, idle.slot))
  {
    var a := if r <= c.maxRound then Process(P2, r, 0) else Process(Done, r, idle.slot);
    assert CanMove(c, s, idle, a) by {
      forall u: State, p: nat | u == s.(procs := u.procs) && p < |u.procs| && u.procs[p] == idle
        ensures Step(c, u, u.Go(p, a), p)
      {
        assert IsP1(c, u, u.Go(p, a), p);
      }
    }
    MoveAll(c, s, 0, idle, a);
    t := AllIn(s, a);
  }

  /** Slots and leaders coincide and every round has a coordinator. */
  ghost predicate Finishable(c: Constants) { c.f >= 1 && c.maxSlot == c.N() - 1 && c.maxRound < c.N() }

  ghost predicate Finished(c: Constants, s: State) {
    AllDone(s) && forall r: nat :: r <= c.maxRound ==> Committed(c, s, r)
  }

  lemma {:induction false} AllRounds(c: Constants, s: State, r: nat) returns (t: State)
    requires AtSlot(c, s, r, 0) && Finishable(c)
    ensures Reaches(c, s, t) && Finished(c, t)
    decreases c.maxRound - r
  {
    var u := SomeSlots(c, s, r, 0, c.N());
    var w := Turning(c, u, r);
    ReachesOnward(c, s, u, w);
    ReachesInv(c, s, w);
    if r < c.maxRound {
      NextRound(c, u, w, r);
      t := AllRounds(c, w, r + 1);
      ReachesOnward(c, s, w, t);
    } else {
      LastRound(c, u, w);
      t := w;
    }
  }

  /** From the end of a round into the next one, or to the end. */
  lemma Turning(c: Constants, u: State, r: nat) returns (w: State)
    requires AtSlot(c, u, r, c.N()) && c.maxSlot == c.N() - 1
    ensures Reaches(c, u, w)
    ensures w == AllIn(u, if r < c.maxRound then Process(P2, r + 1, 0) else Process(Done, r + 1, c.N()))
  {
    var v := Leaving(c, u, r);
    w := Entering(c, v, Process(P1, r + 1, c.N()), r + 1);
    ReachesOnward(c, u, v, w);
    assert w.procs == AllIn(u, w.procs[0]).procs;
  }

  lemma LastRound(c: Constants, u: State, w: State)
    requires AtSlot(c, u, c.maxRound, c.N()) && w == AllIn(u, Process(Done, c.maxRound + 1, c.N()))
    ensures Finished(c, w)
  {
    SameLog(u, w);
    forall q: nat | q <= c.maxRound
      ensures Committed(c, w, q)
    {
      assert Committed(c, u, q);
    }
  }

  lemma NextRound(c: Constants, u: State, w: State, r: nat)
    requires AtSlot(c, u, r, c.N()) && r < c.maxRound && r + 1 < c.N() && Inv(c, w)
    requires w == AllIn(u, Process(P2, r + 1, 0))
    ensures AtSlot(c, w, r + 1, 0)
  {
    SameLog(u, w);
    forall q: nat | q + 1 < r + 1
      ensures Committed(c, w, q)
    {
      assert Committed(c, u, q);
    }
  }

  lemma EnterFirst(c: Constants) returns (u: State)
    requires c.f >= 1
    ensures Reaches(c, Init(c), u) && AtSlot(c, u, 0, 0)
  {
    var s := Init(c);
    InitInv(c);
    u := Entering(c, s, Process(P1, 0, 0), 0);
    ReachesInv(c, s, u);
  }

  /** There is a run in which every entry of every round commits and every process is done. */
  lemma FinishingRun(c: Constants) returns (t: State)
    requires Finishable(c)
    ensures Reachable(c, t) && Finished(c, t)
  {
    var u := EnterFirst(c);
    t := AllRounds(c, u, 0);
    ReachesOnward(c, Init(c), u, t);
  }

  /** All processes can be done exactly when slots and leaders coincide and every round has a coordinator. */
  lemma FinishesExactly(c: Constants)
    requires c.f >= 1
    ensures (exists s :: Reachable(c, s) && AllDone(s)) <==> c.maxSlot == c.N() - 1 && c.maxRound < c.N()
  {
    if Finishable(c) {
      var t := FinishingRun(c);
    } else if s :| Reachable(c, s) && AllDone(s) {
      DoneNeeds(c, s);
    }
  }

  // ---------- When something commits ----------

  ghost predicate SomeCommit(s: State) { exists r: nat, p: nat :: s.At(r, p).commit }

  lemma FirstVoteCommits(c: Constants, v: State, t: State)
    requires Voting(c, v, 0, c.N() - c.f, 0) && c.maxRound == 0 && t.log == CommitLog(c, v, 0)
    ensures t.At(0, 0).commit
  {
    SlotsGiveVotes(c, v, 0, c.N() - c.f);
    assert Vote(0, 0, 0, 0) in v.votes;
    assert v.At(0, 0).v == [0];
  }

  /** With a single round, the first vote for slot N-F commits, once all earlier slots have everybody's vote. */
  lemma CommitInOnlyRound(c: Constants) returns (t: State)
    requires c.f >= 1 && c.maxRound == 0 && c.maxSlot >= c.N() - c.f
    ensures Reachable(c, t) && SomeCommit(t)
  {
    var k := c.N() - c.f;
    var s := EnterFirst(c);
    var u := SomeSlots(c, s, 0, 0, k);
    t := CommitInSlot(c, u, k);
    ReachesOnward(c, Init(c), s, u);
    ReachesOnward(c, Init(c), u, t);
  }

  lemma CommitInSlot(c: Constants, u: State, k: nat) returns (t: State)
    requires AtSlot(c, u, 0, k) && c.maxRound == 0 && k == c.N() - c.f <= c.maxSlot
    ensures Reaches(c, u, t) && SomeCommit(t)
  {
    var v := Opening(c, u, 0, k);
    t := VoteOnce(c, v, 0, k, 0);
    FirstVoteCommits(c, v, t);
    ReachesOnward(c, u, v, t);
  }

  /** All processes come to the first slot of round 1. */
  lemma EnterSecond(c: Constants) returns (w: State)
    requires c.f >= 1 && c.maxRound > 0 && c.maxSlot == c.N() - 1
    ensures Reaches(c, Init(c), w) && AtSlot(c, w, 1, 0)
  {
    var s := EnterFirst(c);
    var u := SomeSlots(c, s, 0, 0, c.N());
    w := Turning(c, u, 0);
    ReachesInv(c, u, w);
    NextRound(c, u, w, 0);
    ReachesOnward(c, s, u, w);
    ReachesOnward(c, Init(c), s, w);
  }

  /** With more rounds, the first vote of round 1 commits an entry of round 0. */
  lemma CommitInNextRound(c: Constants) returns (t: State)
    requires c.f >= 1 && c.maxRound > 0 && c.maxSlot == c.N() - 1
    ensures Reachable(c, t) && SomeCommit(t)
  {
    var w := EnterSecond(c);
    var v := Opening(c, w, 1, 0);
    t := VoteOnce(c, v, 1, 0, 0);
    assert CommittedBelow(t, 0, 1);
    assert t.At(0, 0).commit;
    ReachesOnward(c, w, v, t);
    ReachesOnward(c, Init(c), w, t);
  }

  lemma CommitNeeds(c: Constants, s: State)
    requires Reachable(c, s) && SomeCommit(s)
    ensures c.maxSlot == c.N() - 1 || (c.maxRound == 0 && c.maxSlot >= c.N() - c.f)
  {
    ReachableInv(c, s);
    if c.maxSlot != c.N() - 1 {
      OtherSlotsNeverCommit(c, s);
      var r: nat, p: nat :| s.At(r, p).commit;
      LeavesQuorum(c, s, r);
    }
  }

  lemma VotesOfSlots(c: Constants, s: State, r: nat)
    requires MessagesOk(c, s)
    ensures |s.VotesIn(r)| <= c.N() * (c.maxSlot + 1)
  {
    MessagesInRange(c, s, r);
    var votes := s.VotesIn(r);
    forall m | m in votes
      ensures m.proposer in Below(c.maxSlot + 1)
    {
      assert Proposal(m.round, m.slot, m.slot, m.round) in s.proposals;
      assert Assign(m.round, m.slot, m.slot, m.round) in s.assigns;
    }
    PairsInGrid(votes, Below(c.N()), Below(c.maxSlot + 1), r);
  }

  lemma NoMoreTimes(m: nat, k: nat, n: nat)
    ensures m <= k ==> m * n <= k * n
  {
    if m <= k {
      assert k * n == m * n + (k - m) * n;
    }
  }

  /** More than (N-F)*N votes of a round need proposers above slot N-F-1. */
  lemma LeavesQuorum(c: Constants, s: State, r: nat)
    requires MessagesOk(c, s) && |s.VotesIn(r)| > Quorum(c)
    ensures c.maxSlot >= c.N() - c.f
  {
    VotesOfSlots(c, s, r);
    NoMoreTimes(c.maxSlot + 1, c.N() - c.f, c.N());
  }

  /** Exactly when some entry can commit at all. */
  lemma CommitsExactly(c: Constants)
    requires c.f >= 1
    ensures (exists s :: Reachable(c, s) && SomeCommit(s))
       <==> c.maxSlot == c.N() - 1 || (c.maxRound == 0 && c.maxSlot >= c.N() - c.f)
  {
    if c.maxRound == 0 && c.maxSlot >= c.N() - c.f {
      var t := CommitInOnlyRound(c);
    } else if c.maxSlot == c.N() - 1 {
      var t := CommitInNextRound(c);
    } else if s :| Reachable(c, s) && SomeCommit(s) {
      CommitNeeds(c, s);
    }
  }
}
