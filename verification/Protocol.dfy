/**
 The BigBFT round protocol of tla/BigBFT.tla, for arbitrary F, MaxSlot and MAXROUND: the initial state and
 the next-state relation of its TLA+ translation. A message is a record; sending adds it to a set.
 */
module Protocol {
  /** The constants; the specification assumes F >= 1. */
  datatype Constants = Constants(maxSlot: nat, f: nat, maxRound: nat) {
    function N(): nat { 3 * f + 1 }
  }

  datatype Assign = Assign(round: nat, slot: nat, leader: nat, coordinator: nat)

  datatype Proposal = Proposal(round: nat, slot: nat, leader: nat, coordinator: nat)

  datatype Vote = Vote(round: nat, slot: nat, voter: nat, proposer: nat)

  /** log[round][leader]; the value is empty until the leader proposes. */
  datatype Cell = Cell(round: nat, leader: nat)

  datatype Entry = Entry(v: seq<nat>, commit: bool)

  datatype PC = P1 | P2 | P3 | P4 | Done

  datatype Process = Process(pc: PC, round: nat, slot: nat)

  datatype State = State(
    assigns: set<Assign>,
    proposals: set<Proposal>,
    votes: set<Vote>,
    log: map<Cell, Entry>,
    procs: seq<Process>)
  {
    function At(round: nat, leader: nat): Entry {
      if Cell(round, leader) in log then log[Cell(round, leader)] else Entry([], false)
    }

    /** Commit_Round and Increse_round. */
    function VotesIn(r: nat): set<Vote> { set m | m in votes && m.round == r }

    /** Increse_slot. */
    function VotesAt(k: nat, r: nat): set<Vote> { set m | m in votes && m.slot == k && m.round == r }

    function Go(self: nat, p: Process): State
      requires self < |procs|
    {
      this.(procs := procs[self := p])
    }
  }

  function Init(c: Constants): State {
    State({}, {}, {},
          map r: nat, l: nat | r <= c.maxRound && l < c.N() :: Cell(r, l) := Entry([], false),
          seq(c.N(), _ => Process(P1, 0, 0)))
  }

  predicate IsP1(c: Constants, s: State, t: State, self: nat)
    requires self < |s.procs|
  {
    var p := s.procs[self];
    && p.pc == P1
    && t == if p.round <= c.maxRound then s.Go(self, p.(slot := 0, pc := P2)) else s.Go(self, p.(pc := Done))
  }

  /** The coordinator of a round assigns a slot to the leader of the same number; others may skip. */
  predicate IsStart(s: State, t: State, self: nat)
    requires self < |s.procs|
  {
    var p := s.procs[self];
    if self == p.round then
      && (forall m :: m in s.assigns ==> !(m.round == p.round && m.slot == p.slot))
      && t == s.(assigns := s.assigns + {Assign(p.round, p.slot, p.slot, self)}).Go(self, p.(pc := P3))
    else t == s.Go(self, p.(pc := P3))
  }

  /** The leader of an assigned slot proposes its value, which is its own number. */
  predicate IsPropose(s: State, t: State, self: nat)
    requires self < |s.procs|
  {
    var p := s.procs[self];
    exists m :: m in s.assigns
      && self == m.leader && p.slot == m.slot && s.At(m.round, m.slot).v == []
      && t == s.(log := s.log[Cell(m.round, self) := s.At(m.round, self).(v := [self])],
                 proposals := s.proposals + {Proposal(m.round, p.slot, self, m.coordinator)}).Go(self, p.(pc := P3))
  }

  /** The log after a vote of self; the commit test reads the votes without that vote. */
  function CommitLog(c: Constants, s: State, self: nat): map<Cell, Entry>
    requires self < |s.procs|
  {
    var r := s.procs[self].round;
    var quorum := (c.N() - c.f) * c.N();
    if r == c.maxRound && s.At(r, self).v != [] && |s.VotesIn(r)| >= quorum then
      s.log[Cell(r, self) := s.At(r, self).(commit := true)]
    else if r > 0 && |s.VotesIn(r - 1)| >= quorum && s.At(r - 1, self).v != [] then
      s.log[Cell(r - 1, self) := s.At(r - 1, self).(commit := true)]
    else s.log
  }

  predicate IsVote(c: Constants, s: State, t: State, self: nat)
    requires self < |s.procs|
  {
    var p := s.procs[self];
    exists m :: m in s.proposals
      && (forall w :: w in s.votes ==> !(w.round == p.round && w.voter == self && w.proposer == m.leader))
      && m.slot == p.slot && m.round == p.round
      && t == s.(votes := s.votes + {Vote(p.round, p.slot, self, m.leader)},
                 log := CommitLog(c, s, self)).Go(self, p.(pc := P3))
  }

  predicate IsP2(c: Constants, s: State, t: State, self: nat)
    requires self < |s.procs|
  {
    var p := s.procs[self];
    && p.pc == P2
    && if p.slot <= c.maxSlot then IsStart(s, t, self) || IsPropose(s, t, self) || IsVote(c, s, t, self)
       else t == s.Go(self, p.(pc := P4))
  }

  predicate IsP3(c: Constants, s: State, t: State, self: nat)
    requires self < |s.procs|
  {
    var p := s.procs[self];
    && p.pc == P3
    && t == s.Go(self, p.(pc := P2, slot := if |s.VotesAt(p.slot, p.round)| >= c.N() - c.f then p.slot + 1 else p.slot))
  }

  predicate IsP4(c: Constants, s: State, t: State, self: nat)
    requires self < |s.procs|
  {
    var p := s.procs[self];
    && p.pc == P4
    && t == s.Go(self, p.(pc := P1, round := if |s.VotesIn(p.round)| >= c.N() * c.N() then p.round + 1 else p.round))
  }

  predicate Step(c: Constants, s: State, t: State, self: nat)
    requires self < |s.procs|
  {
    IsP1(c, s, t, self) || IsP2(c, s, t, self) || IsP3(c, s, t, self) || IsP4(c, s, t, self)
  }

  ghost predicate AllDone(s: State) { forall p :: 0 <= p < |s.procs| ==> s.procs[p].pc == Done }

  ghost predicate Next(c: Constants, s: State, t: State) {
    || (exists self: nat :: self < |s.procs| && Step(c, s, t, self))
    || (AllDone(s) && t == s)
  }

  /** A finite behaviour: each state steps to the one after it. */
  ghost predicate Behaviour(c: Constants, trace: seq<State>) {
    trace != [] && forall i :: 0 < i < |trace| ==> Next(c, trace[i - 1], trace[i])
  }

  ghost predicate Reachable(c: Constants, s: State) {
    exists trace :: Behaviour(c, trace) && trace[0] == Init(c) && trace[|trace| - 1] == s
  }
}
