/** What every step of the round protocol keeps. */
module ProtocolInvariant {
  import opened Cardinality
  import opened Protocol

  /** Every vote answers a proposal, every proposal an assignment; slot, leader and proposer are one number. */
  ghost predicate MessagesOk(c: Constants, s: State) {
    && (forall m :: m in s.assigns ==>
          && m.leader == m.slot && m.coordinator == m.round && m.round < c.N()
          && m.round <= c.maxRound && m.slot <= c.maxSlot)
    && (forall m :: m in s.proposals ==>
          && m.leader == m.slot && m.slot < c.N() && m.coordinator == m.round
          && Assign(m.round, m.slot, m.slot, m.round) in s.assigns)
    && (forall m :: m in s.votes ==>
          && m.proposer == m.slot && m.voter < c.N()
          && Proposal(m.round, m.slot, m.slot, m.round) in s.proposals)
  }

  /** A log entry holds its leader's value exactly when that leader has proposed in that round. */
  ghost predicate ValuesOk(s: State) {
    forall r: nat, p: nat :: s.At(r, p).v == if Proposal(r, p, p, r) in s.proposals then [p] else []
  }

  function Quorum(c: Constants): nat { (c.N() - c.f) * c.N() }

  /** A leader commits its entry in the next round, or in the last round itself with a vote beyond the quorum. */
  ghost predicate CommitsOk(c: Constants, s: State) {
    forall r: nat, p: nat :: s.At(r, p).commit ==>
      && s.At(r, p).v != []
      && p < |s.procs| && s.procs[p].round >= (if r < c.maxRound then r + 1 else c.maxRound)
      && (if r < c.maxRound then |s.VotesIn(r)| >= c.N() * c.N() else |s.VotesIn(r)| > Quorum(c))
  }

  predicate Inside(pc: PC) { pc == P2 || pc == P3 || pc == P4 }

  ghost predicate ProcessOk(c: Constants, s: State, p: Process) {
    && p.round <= c.maxRound + 1 && p.slot <= c.N()
    && (Inside(p.pc) ==> p.round <= c.maxRound)
    && (p.pc == P3 ==> p.slot <= c.maxSlot)
    && (p.pc == P4 ==> p.slot > c.maxSlot)
    && (p.pc == Done ==> p.round == c.maxRound + 1)
    && (p.round > 0 ==> c.maxSlot < c.N())
    && (forall r: nat :: r < p.round ==> |s.VotesIn(r)| >= c.N() * c.N())
    && (Inside(p.pc) ==> forall k: nat :: k < p.slot ==> |s.VotesAt(k, p.round)| >= c.N() - c.f)
  }

  ghost predicate ProcessesOk(c: Constants, s: State) {
    |s.procs| == c.N() && forall i :: 0 <= i < |s.procs| ==> ProcessOk(c, s, s.procs[i])
  }

  /** Votes for a slot are cast only when every earlier slot of the round has a quorum of votes. */
  ghost predicate VotesInOrder(c: Constants, s: State) {
    forall m, k: nat :: m in s.votes && k < m.slot ==> |s.VotesAt(k, m.round)| >= c.N() - c.f
  }

  ghost predicate Inv(c: Constants, s: State) {
    && MessagesOk(c, s) && ValuesOk(s) && CommitsOk(c, s) && ProcessesOk(c, s) && VotesInOrder(c, s)
  }

  lemma InitInv(c: Constants)
    ensures Inv(c, Init(c))
  {}

  // ---------- Votes only accumulate ----------

  lemma MoreVotes(s: State, t: State)
    requires s.votes <= t.votes
    ensures forall r: nat :: |s.VotesIn(r)| <= |t.VotesIn(r)|
    ensures forall k: nat, r: nat :: |s.VotesAt(k, r)| <= |t.VotesAt(k, r)|
  {
    forall r: nat
      ensures |s.VotesIn(r)| <= |t.VotesIn(r)|
    {
      SubsetSize(s.VotesIn(r), t.VotesIn(r));
    }
    forall k: nat, r: nat
      ensures |s.VotesAt(k, r)| <= |t.VotesAt(k, r)|
    {
      SubsetSize(s.VotesAt(k, r), t.VotesAt(k, r));
    }
  }

  /** A step that moves one process and adds votes keeps the processes in order if it keeps that one. */
  lemma ProcessesKeep(c: Constants, s: State, t: State, self: nat)
    requires ProcessesOk(c, s) && self < |s.procs|
    requires |t.procs| == |s.procs| && ProcessOk(c, t, t.procs[self])
    requires forall i :: 0 <= i < |s.procs| && i != self ==> t.procs[i] == s.procs[i]
    requires s.votes <= t.votes
    ensures ProcessesOk(c, t)
  {
    MoreVotes(s, t);
  }

  /** Commits stay in order when votes are added and no process goes back a round. */
  lemma CommitsKeep(c: Constants, s: State, t: State)
    requires CommitsOk(c, s) && s.votes <= t.votes && |t.procs| == |s.procs|
    requires forall i :: 0 <= i < |s.procs| ==> t.procs[i].round >= s.procs[i].round
    requires forall r: nat, q: nat :: t.At(r, q) == s.At(r, q)
    ensures CommitsOk(c, t)
  {
    MoreVotes(s, t);
  }

  // ---------- The steps that only move a process ----------

  lemma MoveKeepsInv(c: Constants, s: State, t: State, self: nat, p: Process)
    requires Inv(c, s) && self < |s.procs| && t == s.Go(self, p) && ProcessOk(c, s, p)
    requires p.round >= s.procs[self].round
    ensures Inv(c, t)
  {
    assert forall r: nat :: t.VotesIn(r) == s.VotesIn(r);
    assert forall k: nat, r: nat :: t.VotesAt(k, r) == s.VotesAt(k, r);
    SameLog(s, t);
    ProcessesKeep(c, s, t, self);
    CommitsKeep(c, s, t);
  }

  lemma SameLog(s: State, t: State)
    requires t.log == s.log
    ensures forall r: nat, q: nat :: t.At(r, q) == s.At(r, q)
  {}

  /** A slot with a quorum of votes is the slot of some leader. */
  lemma VotedSlotHasLeader(c: Constants, s: State, k: nat, r: nat)
    requires MessagesOk(c, s) && |s.VotesAt(k, r)| > 0
    ensures k < c.N()
  {
    var m :| m in s.VotesAt(k, r);
  }

  lemma P3KeepsInv(c: Constants, s: State, t: State, self: nat)
    requires Inv(c, s) && self < |s.procs| && IsP3(c, s, t, self)
    ensures Inv(c, t)
  {
    var p := s.procs[self];
    if |s.VotesAt(p.slot, p.round)| >= c.N() - c.f {
      VotedSlotHasLeader(c, s, p.slot, p.round);
    }
    MoveKeepsInv(c, s, t, self, t.procs[self]);
  }

  lemma P4KeepsInv(c: Constants, s: State, t: State, self: nat)
    requires Inv(c, s) && self < |s.procs| && IsP4(c, s, t, self)
    ensures Inv(c, t)
  {
    MoveKeepsInv(c, s, t, self, t.procs[self]);
  }

  lemma P1KeepsInv(c: Constants, s: State, t: State, self: nat)
    requires Inv(c, s) && self < |s.procs| && IsP1(c, s, t, self)
    ensures Inv(c, t)
  {
    MoveKeepsInv(c, s, t, self, t.procs[self]);
  }

  // ---------- The steps that send ----------

  lemma StartKeepsInv(c: Constants, s: State, t: State, self: nat)
    requires Inv(c, s) && self < |s.procs| && s.procs[self].pc == P2 && s.procs[self].slot <= c.maxSlot
    requires IsStart(s, t, self)
    ensures Inv(c, t)
  {
    assert forall r: nat :: t.VotesIn(r) == s.VotesIn(r);
    assert forall k: nat, r: nat :: t.VotesAt(k, r) == s.VotesAt(k, r);
    SameLog(s, t);
    ProcessesKeep(c, s, t, self);
    CommitsKeep(c, s, t);
  }

  lemma ProposeKeepsInv(c: Constants, s: State, t: State, self: nat)
    requires Inv(c, s) && self < |s.procs| && s.procs[self].pc == P2 && s.procs[self].slot <= c.maxSlot
    requires IsPropose(s, t, self)
    ensures Inv(c, t)
  {
    var m :| m in s.assigns
      && self == m.leader && s.procs[self].slot == m.slot && s.At(m.round, m.slot).v == []
      && t == s.(log := s.log[Cell(m.round, self) := s.At(m.round, self).(v := [self])],
                 proposals := s.proposals + {Proposal(m.round, s.procs[self].slot, self, m.coordinator)})
               .Go(self, s.procs[self].(pc := P3));
    assert forall r: nat :: t.VotesIn(r) == s.VotesIn(r);
    assert forall k: nat, r: nat :: t.VotesAt(k, r) == s.VotesAt(k, r);
    assert forall r: nat, q: nat ::
      t.At(r, q) == if r == m.round && q == self then s.At(r, q).(v := [self]) else s.At(r, q);
    ProcessesKeep(c, s, t, self);
  }

  lemma VoteKeepsInv(c: Constants, s: State, t: State, self: nat)
    requires Inv(c, s) && self < |s.procs| && s.procs[self].pc == P2 && s.procs[self].slot <= c.maxSlot
    requires IsVote(c, s, t, self)
    ensures Inv(c, t)
  {
    var p := s.procs[self];
    MoreVotes(s, t);
    OneVoteMore(s, t, p.round);
    ProcessesKeep(c, s, t, self);
    CommitKeepsLog(c, s, t, self);
    forall w, k: nat | w in t.votes && k < w.slot
      ensures |t.VotesAt(k, w.round)| >= c.N() - c.f
    {
      if w !in s.votes {
        assert w.slot == p.slot && w.round == p.round;
      }
    }
  }

  lemma OneVoteMore(s: State, t: State, r: nat)
    requires s.votes < t.votes && forall m :: m in t.votes && m !in s.votes ==> m.round == r
    ensures |t.VotesIn(r)| > |s.VotesIn(r)|
  {
    SubsetSize(s.VotesIn(r), t.VotesIn(r));
    var m :| m in t.votes && m !in s.votes;
    assert m in t.VotesIn(r);
  }

  /** What the commit part of a vote changes in the log. */
  lemma CommitEffect(c: Constants, s: State, t: State, self: nat)
    requires self < |s.procs| && t.log == CommitLog(c, s, self)
    ensures forall r: nat, q: nat :: t.At(r, q).v == s.At(r, q).v && (s.At(r, q).commit ==> t.At(r, q).commit)
    ensures forall r: nat, q: nat :: t.At(r, q).commit && !s.At(r, q).commit ==>
              && s.At(r, q).v != [] && q == self && |s.VotesIn(r)| >= Quorum(c)
              && (r == s.procs[self].round == c.maxRound || r + 1 == s.procs[self].round)
  {}

  lemma CommitKeepsLog(c: Constants, s: State, t: State, self: nat)
    requires Inv(c, s) && self < |s.procs| && s.procs[self].pc == P2
    requires s.votes <= t.votes && |t.VotesIn(s.procs[self].round)| > |s.VotesIn(s.procs[self].round)|
    requires t.proposals == s.proposals && t.log == CommitLog(c, s, self)
    requires |t.procs| == |s.procs| && forall i :: 0 <= i < |s.procs| ==> t.procs[i].round == s.procs[i].round
    ensures ValuesOk(t) && CommitsOk(c, t)
  {
    MoreVotes(s, t);
    CommitEffect(c, s, t, self);
    var p := s.procs[self];
    assert ProcessOk(c, s, p);
    forall r: nat, q: nat | t.At(r, q).commit
      ensures if r < c.maxRound then |s.VotesIn(r)| >= c.N() * c.N() else |t.VotesIn(r)| > Quorum(c)
      ensures q < |s.procs| && s.procs[q].round >= (if r < c.maxRound then r + 1 else c.maxRound)
    {
      if !s.At(r, q).commit && r != c.maxRound {
        assert r + 1 == p.round;
      }
    }
  }

  lemma StepKeepsInv(c: Constants, s: State, t: State)
    requires Inv(c, s) && Next(c, s, t)
    ensures Inv(c, t)
  {
    if !(AllDone(s) && t == s) {
      var self: nat :| self < |s.procs| && Step(c, s, t, self);
      if IsP1(c, s, t, self) {
        P1KeepsInv(c, s, t, self);
      } else if IsP3(c, s, t, self) {
        P3KeepsInv(c, s, t, self);
      } else if IsP4(c, s, t, self) {
        P4KeepsInv(c, s, t, self);
      } else if s.procs[self].slot > c.maxSlot {
        MoveKeepsInv(c, s, t, self, t.procs[self]);
      } else if IsStart(s, t, self) {
        StartKeepsInv(c, s, t, self);
      } else if IsPropose(s, t, self) {
        ProposeKeepsInv(c, s, t, self);
      } else {
        VoteKeepsInv(c, s, t, self);
      }
    }
  }

  lemma {:induction false} BehaviourInv(c: Constants, trace: seq<State>, i: nat)
    requires Behaviour(c, trace) && Inv(c, trace[0]) && i < |trace|
    ensures Inv(c, trace[i])
  {
    if i > 0 {
      BehaviourInv(c, trace, i - 1);
      assert Next(c, trace[i - 1], trace[i]);
      StepKeepsInv(c, trace[i - 1], trace[i]);
    }
  }

  lemma ReachableInv(c: Constants, s: State)
    requires Reachable(c, s)
    ensures Inv(c, s)
  {
    var trace :| Behaviour(c, trace) && trace[0] == Init(c) && trace[|trace| - 1] == s;
    InitInv(c);
    BehaviourInv(c, trace, |trace| - 1);
  }
}
