/**
 What single steps of the round protocol do and when a process has one: every step at P2 within the slots adds
 exactly one message, except the empty step of a process that does not coordinate its round. A coordinator that
 has voted for its slot and stands at P2 again therefore has at most a proposal left, and never finishes.
 */
module ProtocolSteps {
  import opened Cardinality
  import opened Protocol
  import opened ProtocolInvariant
  import opened ProtocolQuorums
  import opened ProtocolWitness

  // ---------- What a step adds ----------

  /** The process is at P2, within the slots. */
  ghost predicate AtP2(c: Constants, s: State, self: nat) {
    self < |s.procs| && s.procs[self].pc == P2 && s.procs[self].slot <= c.maxSlot
  }

  ghost predicate Coordinates(s: State, self: nat)
    requires self < |s.procs|
  {
    s.procs[self].round == self
  }

  /** The coordinator has assigned slot k of round r. */
  ghost predicate Assigned(s: State, r: nat, k: nat) { Assign(r, k, k, r) in s.assigns }

  /** Its leader has proposed a value. */
  ghost predicate Proposed(s: State, r: nat, k: nat) { Proposal(r, k, k, r) in s.proposals }

  ghost predicate VotedBy(s: State, r: nat, k: nat, v: nat) { Vote(r, k, v, k) in s.votes }

  /** Everything but the process's own program counter is as before. */
  ghost predicate Passed(s: State, t: State, self: nat)
    requires self < |s.procs|
  {
    t.procs == s.procs[self := s.procs[self].(pc := P3)]
  }

  ghost predicate AddsAssign(s: State, t: State, r: nat, k: nat) {
    !Assigned(s, r, k)
    && t.assigns == s.assigns + {Assign(r, k, k, r)} && t.proposals == s.proposals && t.votes == s.votes
    && t.log == s.log
  }

  /** The leader's value enters the log with the proposal. */
  ghost predicate AddsProposal(s: State, t: State, r: nat, k: nat) {
    Assigned(s, r, k) && !Proposed(s, r, k)
    && t.proposals == s.proposals + {Proposal(r, k, k, r)} && t.assigns == s.assigns && t.votes == s.votes
    && forall q: nat, p: nat :: t.At(q, p) == if q == r && p == k then s.At(q, p).(v := [k]) else s.At(q, p)
  }

  /** A vote changes the values of the log in no way. */
  ghost predicate AddsVote(s: State, t: State, r: nat, k: nat, v: nat) {
    Proposed(s, r, k) && !VotedBy(s, r, k, v)
    && t.votes == s.votes + {Vote(r, k, v, k)} && t.assigns == s.assigns && t.proposals == s.proposals
    && forall q: nat, p: nat :: t.At(q, p).v == s.At(q, p).v
  }

  ghost predicate AddsNothing(s: State, t: State) {
    t.assigns == s.assigns && t.proposals == s.proposals && t.votes == s.votes && t.log == s.log
  }

  /** A step from P2 adds one message that was not there, or nothing when the process does not coordinate. */
  lemma StepAdds(c: Constants, s: State, t: State, self: nat)
    requires Reachable(c, s) && AtP2(c, s, self) && Step(c, s, t, self)
    ensures Passed(s, t, self)
    ensures var p := s.procs[self];
            || (Coordinates(s, self) && AddsAssign(s, t, p.round, p.slot))
            || (self == p.slot && exists r: nat :: AddsProposal(s, t, r, self))
            || AddsVote(s, t, p.round, p.slot, self)
            || (!Coordinates(s, self) && AddsNothing(s, t))
  {
    ReachableInv(c, s);
    if IsVote(c, s, t, self) {
      VoteAdds(c, s, t, self);
    } else if IsPropose(s, t, self) {
      var r := ProposeAdds(c, s, t, self);
    } else if Coordinates(s, self) {
      assert Assign(s.procs[self].round, s.procs[self].slot, s.procs[self].slot, self) in t.assigns;
    }
  }

  lemma ProposeAdds(c: Constants, s: State, t: State, self: nat) returns (r: nat)
    requires Inv(c, s) && AtP2(c, s, self) && IsPropose(s, t, self)
    ensures Passed(s, t, self) && self == s.procs[self].slot && AddsProposal(s, t, r, self)
  {
    var m :| m in s.assigns && self == m.leader && s.procs[self].slot == m.slot && s.At(m.round, m.slot).v == []
      && t == s.(log := s.log[Cell(m.round, self) := s.At(m.round, self).(v := [self])],
                 proposals := s.proposals + {Proposal(m.round, s.procs[self].slot, self, m.coordinator)})
               .Go(self, s.procs[self].(pc := P3));
    r := m.round;
    assert m == Assign(r, self, self, r);
  }

  lemma VoteAdds(c: Constants, s: State, t: State, self: nat)
    requires Inv(c, s) && AtP2(c, s, self) && IsVote(c, s, t, self)
    ensures Passed(s, t, self) && AddsVote(s, t, s.procs[self].round, s.procs[self].slot, self)
  {
    var p := s.procs[self];
    var m :| m in s.proposals
      && (forall w :: w in s.votes ==> !(w.round == p.round && w.voter == self && w.proposer == m.leader))
      && m.slot == p.slot && m.round == p.round
      && t == s.(votes := s.votes + {Vote(p.round, p.slot, self, m.leader)},
                 log := CommitLog(c, s, self)).Go(self, p.(pc := P3));
    assert m == Proposal(p.round, p.slot, p.slot, p.round);
    CommitEffect(c, s, t, self);
  }

  // ---------- When there is a step ----------

  /** The process leads its slot, which some coordinator has assigned and it has not proposed for. */
  ghost predicate MayPropose(s: State, self: nat, k: nat) {
    self == k && exists r: nat :: Assigned(s, r, k) && !Proposed(s, r, k)
  }

  ghost predicate MayVote(s: State, self: nat, r: nat, k: nat) { Proposed(s, r, k) && !VotedBy(s, r, k, self) }

  ghost predicate HasStep(c: Constants, s: State, self: nat)
    requires self < |s.procs|
  {
    exists t :: Step(c, s, t, self)
  }

  /**
   At P2 a process that does not coordinate its round always has a step; the coordinator has one exactly while it
   has not assigned its slot, or leads it and has not proposed, or has not voted for its proposal.
   */
  lemma StepsExactly(c: Constants, s: State, self: nat)
    requires Reachable(c, s) && AtP2(c, s, self)
    ensures var p := s.procs[self];
            HasStep(c, s, self) <==>
              || !Coordinates(s, self) || !Assigned(s, p.round, p.slot)
              || MayPropose(s, self, p.slot) || MayVote(s, self, p.round, p.slot)
  {
    ReachableInv(c, s);
    var p := s.procs[self];
    if t :| Step(c, s, t, self) {
      StepAdds(c, s, t, self);
    }
    if MayVote(s, self, p.round, p.slot) {
      CanStillVote(c, s, self);
    } else if MayPropose(s, self, p.slot) {
      CanStillPropose(c, s, self);
    } else if !Coordinates(s, self) || !Assigned(s, p.round, p.slot) {
      CanStart(c, s, self);
    }
  }

  lemma CanStart(c: Constants, s: State, self: nat)
    requires Inv(c, s) && AtP2(c, s, self)
    requires !Coordinates(s, self) || !Assigned(s, s.procs[self].round, s.procs[self].slot)
    ensures HasStep(c, s, self)
  {
    var p := s.procs[self];
    var t := if self == p.round then s.(assigns := s.assigns + {Assign(p.round, p.slot, p.slot, self)}) else s;
    assert IsStart(s, t.Go(self, p.(pc := P3)), self);
    assert Step(c, s, t.Go(self, p.(pc := P3)), self);
  }

  lemma CanStillPropose(c: Constants, s: State, self: nat)
    requires Inv(c, s) && AtP2(c, s, self) && MayPropose(s, self, s.procs[self].slot)
    ensures HasStep(c, s, self)
  {
    var p := s.procs[self];
    var r: nat :| Assigned(s, r, self) && !Proposed(s, r, self);
    var m := Assign(r, self, self, r);
    var t := s.(log := s.log[Cell(m.round, self) := s.At(m.round, self).(v := [self])],
                proposals := s.proposals + {Proposal(m.round, p.slot, self, m.coordinator)}).Go(self, p.(pc := P3));
    assert IsPropose(s, t, self) && Step(c, s, t, self);
  }

  lemma CanStillVote(c: Constants, s: State, self: nat)
    requires Inv(c, s) && AtP2(c, s, self) && MayVote(s, self, s.procs[self].round, s.procs[self].slot)
    ensures HasStep(c, s, self)
  {
    var p := s.procs[self];
    var m := Proposal(p.round, p.slot, p.slot, p.round);
    var t := s.(votes := s.votes + {Vote(p.round, p.slot, self, m.leader)}, log := CommitLog(c, s, self))
              .Go(self, p.(pc := P3));
    forall w | w in s.votes ensures !(w.round == p.round && w.voter == self && w.proposer == m.leader) {
      assert w.proposer == w.slot;
    }
    assert IsVote(c, s, t, self) && Step(c, s, t, self);
  }

  // ---------- Where the other steps lead ----------

  /** At P3 a process goes on to the next slot exactly when N-F different processes have voted for its own. */
  lemma NextSlotExactly(c: Constants, s: State, t: State, self: nat)
    requires Reachable(c, s) && self < |s.procs| && s.procs[self].pc == P3 && Step(c, s, t, self)
    ensures var p := s.procs[self];
            var voters := set v: nat | v in Below(c.N()) && VotedBy(s, p.round, p.slot, v);
            && AddsNothing(s, t)
            && t.procs == s.procs[self := Process(P2, p.round, if |voters| >= c.N() - c.f then p.slot + 1 else p.slot)]
  {
    ReachableInv(c, s);
    var p := s.procs[self];
    SlotVoters(c, s, p.slot, p.round);
    SameVoters(c, s, p.round, p.slot);
  }

  lemma SameVoters(c: Constants, s: State, r: nat, k: nat)
    requires MessagesOk(c, s)
    ensures Voters(s.VotesAt(k, r)) == set v: nat | v in Below(c.N()) && VotedBy(s, r, k, v)
  {
    forall v: nat | v in Below(c.N()) && VotedBy(s, r, k, v) ensures v in Voters(s.VotesAt(k, r)) {
      assert Vote(r, k, v, k) in s.VotesAt(k, r);
    }
    forall m | m in s.VotesAt(k, r) ensures VotedBy(s, r, k, m.voter) {
      assert m == Vote(r, k, m.voter, k);
    }
  }

  /** At P4 a process goes on to the next round exactly when every process has voted for every leader. */
  lemma NextRoundExactly(c: Constants, s: State, t: State, self: nat)
    requires Reachable(c, s) && self < |s.procs| && s.procs[self].pc == P4 && Step(c, s, t, self)
    ensures var p := s.procs[self];
            && AddsNothing(s, t)
            && t.procs == s.procs[self := Process(P1, if AllVoted(c, s, p.round) then p.round + 1 else p.round, p.slot)]
  {
    ReachableInv(c, s);
    FullRound(c, s, s.procs[self].round);
  }

  // ---------- A coordinator that has voted too early ----------

  /** The process will come to P2 of the round that it coordinates at a slot for which it has voted. */
  ghost predicate Spent(c: Constants, s: State, self: nat) {
    && self < |s.procs| && Coordinates(s, self) && s.procs[self].round <= c.maxRound
    && var p := s.procs[self];
       || (p.pc == P2 && p.slot <= c.maxSlot && VotedBy(s, p.round, p.slot, self))
       || (p.pc == P1 && VotedBy(s, p.round, 0, self))
       || (p.pc == P3 && p.slot == self && AllVoted(c, s, p.round) && p.slot + 1 < c.N() == c.maxSlot + 1)
  }

  /** An assignment comes from a coordinator that has reached its round. */
  ghost predicate CoordinatorsThere(s: State) {
    forall m :: m in s.assigns ==> m.round < |s.procs| && s.procs[m.round].round >= m.round
  }

  lemma StepKeepsCoordinators(c: Constants, s: State, t: State)
    requires Inv(c, s) && CoordinatorsThere(s) && Next(c, s, t)
    ensures CoordinatorsThere(t)
  {
    if !(AllDone(s) && t == s) {
      var self: nat :| self < |s.procs| && Step(c, s, t, self);
      RoundsRise(c, s, t, self);
    }
  }

  lemma RoundsRise(c: Constants, s: State, t: State, self: nat)
    requires Inv(c, s) && self < |s.procs| && Step(c, s, t, self)
    ensures |t.procs| == |s.procs| && t.procs[self].round >= s.procs[self].round
    ensures forall i :: 0 <= i < |s.procs| && i != self ==> t.procs[i] == s.procs[i]
    ensures forall m :: m in t.assigns ==> m in s.assigns || (m.round == self && s.procs[self].round == self)
  {}

  lemma {:induction false} TraceKeepsCoordinators(c: Constants, trace: seq<State>, i: nat)
    requires Behaviour(c, trace) && Inv(c, trace[0]) && CoordinatorsThere(trace[0]) && i < |trace|
    ensures CoordinatorsThere(trace[i])
  {
    if i > 0 {
      TraceKeepsCoordinators(c, trace, i - 1);
      BehaviourInv(c, trace, i - 1);
      assert Next(c, trace[i - 1], trace[i]);
      StepKeepsCoordinators(c, trace[i - 1], trace[i]);
    }
  }

  lemma ReachableCoordinators(c: Constants, s: State)
    requires Reachable(c, s)
    ensures CoordinatorsThere(s)
  {
    var trace :| Behaviour(c, trace) && trace[0] == Init(c) && trace[|trace| - 1] == s;
    InitInv(c);
    TraceKeepsCoordinators(c, trace, |trace| - 1);
  }

  lemma LeftProposed(c: Constants, s: State, i: nat, r: nat, k: nat)
    requires Reachable(c, s) && i < |s.procs| && r < s.procs[i].round && k < c.N()
    ensures Proposed(s, r, k)
  {
    ReachableInv(c, s);
    LeavingARound(c, s, i, r);
    assert Vote(r, k, k, k) in s.votes;
  }

  /** A spent coordinator can at most propose for a later round, when its own is complete. */
  lemma SpentProposes(c: Constants, s: State, self: nat, r: nat)
    requires Reachable(c, s) && AtP2(c, s, self) && Spent(c, s, self) && s.procs[self].slot == self
    requires Assigned(s, r, self) && !Proposed(s, r, self)
    ensures AllVoted(c, s, s.procs[self].round) && self + 1 < c.N() == c.maxSlot + 1
  {
    ReachableInv(c, s);
    ReachableCoordinators(c, s);
    if r < self {
      LeftProposed(c, s, self, r, self);
      assert false;
    }
    assert Vote(self, self, self, self) in s.votes;
    assert r > self;
    assert Assign(r, self, self, r) in s.assigns;
    LeavingARound(c, s, r, self);
    LeavingNeeds(c, s, r, self);
  }

  lemma SpentStays(c: Constants, s: State, t: State, self: nat)
    requires Reachable(c, s) && Spent(c, s, self) && Next(c, s, t)
    ensures Spent(c, t, self) && t.procs[self].round == s.procs[self].round
  {
    ReachableInv(c, s);
    StepExtends(c, s, t);
    if !(AllDone(s) && t == s) {
      var other: nat :| other < |s.procs| && Step(c, s, t, other);
      if other == self {
        SpentMoves(c, s, t, self);
      } else {
        RoundsRise(c, s, t, other);
        SpentAside(c, s, t, self);
      }
    }
  }

  lemma SpentAside(c: Constants, s: State, t: State, self: nat)
    requires Spent(c, s, self) && |t.procs| == |s.procs| && t.procs[self] == s.procs[self] && s.votes <= t.votes
    ensures Spent(c, t, self)
  {}

  lemma SpentMoves(c: Constants, s: State, t: State, self: nat)
    requires Reachable(c, s) && Spent(c, s, self) && Step(c, s, t, self)
    ensures Spent(c, t, self) && t.procs[self].round == s.procs[self].round
  {
    ReachableInv(c, s);
    var p := s.procs[self];
    if p.pc == P2 {
      StepAdds(c, s, t, self);
      var r: nat :| AddsProposal(s, t, r, self);
      SpentProposes(c, s, self, r);
    } else if p.pc == P3 {
      NextSlotExactly(c, s, t, self);
      var voters := set v: nat | v in Below(c.N()) && VotedBy(s, p.round, p.slot, v);
      assert voters == Below(c.N());
      assert VotedBy(s, p.round, p.slot + 1, self);
    }
  }

  lemma ReachableNext(c: Constants, s: State, t: State)
    requires Reachable(c, s) && Reaches(c, s, t)
    ensures Reachable(c, t)
  {
    ReachesOnward(c, Init(c), s, t);
  }

  lemma {:induction false} SpentForGood(c: Constants, trace: seq<State>, self: nat, i: nat)
    requires Behaviour(c, trace) && Reachable(c, trace[0]) && Spent(c, trace[0], self) && i < |trace|
    ensures Reachable(c, trace[i]) && Spent(c, trace[i], self)
  {
    if i > 0 {
      SpentForGood(c, trace, self, i - 1);
      assert Next(c, trace[i - 1], trace[i]);
      assert Behaviour(c, [trace[i - 1], trace[i]]);
      ReachableNext(c, trace[i - 1], trace[i]);
      SpentStays(c, trace[i - 1], trace[i], self);
    }
  }

  /** Whatever happens, a spent coordinator never leaves its round, and the protocol never finishes. */
  lemma NeverFinishes(c: Constants, s: State, t: State, self: nat)
    requires Reachable(c, s) && Spent(c, s, self) && Reaches(c, s, t)
    ensures self < |t.procs| && t.procs[self].round == self && !AllDone(t)
  {
    var trace :| Behaviour(c, trace) && trace[0] == s && trace[|trace| - 1] == t;
    SpentForGood(c, trace, self, |trace| - 1);
    assert t.procs[self].pc != Done;
  }

  // ---------- How a coordinator is spent at once ----------

  /** Coordinator 0 is at P3 of slot 0 with fewer votes than it takes to go on: it goes back to P2. */
  lemma GoesBack(c: Constants, s: State, t: State)
    requires Reachable(c, s) && 0 < |s.procs| && s.procs[0] == Process(P3, 0, 0) && t == s.Go(0, Process(P2, 0, 0))
    requires |s.votes| <= 1 && c.f >= 1
    ensures Reachable(c, t)
  {
    SubsetSize(s.VotesAt(0, 0), s.votes);
    assert IsP3(c, s, t, 0);
    ReachesNext(c, s, t, 0);
    ReachableNext(c, s, t);
  }

  lemma TakesStep(c: Constants, s: State, t: State, self: nat)
    requires Reachable(c, s) && self < |s.procs| && Step(c, s, t, self)
    ensures Reachable(c, t)
  {
    ReachesNext(c, s, t, self);
    ReachableNext(c, s, t);
  }

  lemma StartReachable(c: Constants)
    ensures Reachable(c, Init(c))
  {
    assert Behaviour(c, [Init(c)]);
  }

  /** Coordinator 0 has assigned slot 0, which it leads. */
  lemma FirstAssigned(c: Constants) returns (s: State)
    requires c.f >= 1
    ensures Reachable(c, s) && |s.procs| == c.N() && s.procs[0] == Process(P2, 0, 0)
    ensures s.assigns == {Assign(0, 0, 0, 0)} && s.proposals == {} && s.votes == {}
  {
    StartReachable(c);
    var i := Init(c);
    var one := i.Go(0, Process(P2, 0, 0));
    TakesStep(c, i, one, 0);
    var two := one.(assigns := {Assign(0, 0, 0, 0)}).Go(0, Process(P3, 0, 0));
    assert one.assigns + {Assign(0, 0, 0, 0)} == {Assign(0, 0, 0, 0)};
    assert IsStart(one, two, 0);
    TakesStep(c, one, two, 0);
    s := two.Go(0, Process(P2, 0, 0));
    GoesBack(c, two, s);
  }

  lemma FirstProposed(c: Constants) returns (s: State)
    requires c.f >= 1
    ensures Reachable(c, s) && |s.procs| == c.N() && s.procs[0] == Process(P2, 0, 0)
    ensures s.proposals == {Proposal(0, 0, 0, 0)} && s.votes == {}
  {
    var i := FirstAssigned(c);
    ReachableInv(c, i);
    var m := Assign(0, 0, 0, 0);
    var one := i.(log := i.log[Cell(m.round, 0) := i.At(m.round, 0).(v := [0])],
                  proposals := i.proposals + {Proposal(m.round, 0, 0, m.coordinator)}).Go(0, Process(P3, 0, 0));
    assert m in i.assigns && IsPropose(i, one, 0);
    TakesStep(c, i, one, 0);
    s := one.Go(0, Process(P2, 0, 0));
    GoesBack(c, one, s);
  }

  /**
   For all constants a state can be reached from which the protocol cannot finish, whatever is assumed of the
   scheduling of the processes: the coordinator of round 0 has voted first of all.
   */
  lemma DeadEnd(c: Constants) returns (s: State)
    requires c.f >= 1
    ensures Reachable(c, s) && 0 < |s.procs| && !HasStep(c, s, 0)
    ensures forall t :: Reaches(c, s, t) ==> !AllDone(t)
  {
    var i := FirstProposed(c);
    var m := Proposal(0, 0, 0, 0);
    var one := i.(votes := i.votes + {Vote(0, 0, 0, m.leader)}, log := CommitLog(c, i, 0)).Go(0, Process(P3, 0, 0));
    assert m in i.proposals && IsVote(c, i, one, 0);
    TakesStep(c, i, one, 0);
    s := one.Go(0, Process(P2, 0, 0));
    GoesBack(c, one, s);
    ReachableInv(c, s);
    assert VotedBy(s, 0, 0, 0);
    assert Spent(c, s, 0);
    NoStep(c, s);
    forall t | Reaches(c, s, t) ensures !AllDone(t) {
      NeverFinishes(c, s, t, 0);
    }
  }

  lemma NoStep(c: Constants, s: State)
    requires Reachable(c, s) && 0 < |s.procs| && s.procs[0] == Process(P2, 0, 0)
    requires s.votes == {Vote(0, 0, 0, 0)} && c.f >= 1
    ensures !HasStep(c, s, 0)
  {
    ReachableInv(c, s);
    assert VotedBy(s, 0, 0, 0) && Spent(c, s, 0);
    StepsExactly(c, s, 0);
    assert Vote(0, 1, 0, 1) !in s.votes;
    if MayPropose(s, 0, 0) {
      var r: nat :| Assigned(s, r, 0) && !Proposed(s, r, 0);
      SpentProposes(c, s, 0, r);
      assert false;
    }
  }
}
