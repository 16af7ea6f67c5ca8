/**
 One BigBFT replica as values (consensus/consensus.go): what each handler does to the replica's state.
 The handlers of Engine.dfy, which update objects in place, are proved against these functions.
 Where Go ranges over a map, the function takes the order in which the keys came up.
 */
module Replicas {
  import opened Options
  import opened Ids
  import opened Databases
  import opened Quorums
  import opened Cardinality
  import Ballots

  datatype Entry = Entry(
    ballot: Ballots.Ballot,
    commit: bool,
    request: Option<Command>,
    command: Command,
    quorum: Votes,
    received: bool,
    voted: bool,
    leader: bool,
    slot: int)

  datatype CommandBallot = CommandBallot(command: Command, slot: int, id: ID)

  datatype Message =
    | Propose(ballot: Ballots.Ballot, command: Command, slot: int, id: ID, leader: bool)
    | Vote(slot: int, id: ID, l: map<int, CommandBallot>)

  datatype Reply = Reply(command: Command, value: Value)

  /** The fields of a replica; sent and replies record its output, executed the commands it has run. */
  datatype State = State(
    cfg: Config,
    id: ID,
    log: map<int, Entry>,
    l: map<int, CommandBallot>,
    execute: int,
    ballot: Ballots.Ballot,
    slot: int,
    count: int,
    flag2: int,
    db: Db,
    sent: seq<Message>,
    replies: seq<Reply>,
    executed: seq<Command>)

  function Init(cfg: Config, id: ID): State {
    State(cfg, id, map[], map[], 0, 0, -1, -1, 0, Empty(cfg.multiversion), [], [], [])
  }

  /** The slots a replica has broadcast a vote for. */
  function VotedSlots(s: State): set<int> { set m, k | m in s.sent && m.Vote? && k in m.l :: k }

  lemma SentPrefix(s: State, t: State)
    requires s.sent <= t.sent
    ensures VotedSlots(s) <= VotedSlots(t)
  {
    assert forall m :: m in s.sent ==> m in t.sent;
  }

  // ---------- exec ----------

  /** exec runs the slot at the frontier. */
  predicate Ready(s: State) {
    && s.execute in s.log
    && s.log[s.execute].commit
    && (s.log[s.execute].voted || s.log[s.execute].quorum.size < s.cfg.total)
  }

  /** exec finds the slot at the frontier committed but not voted for, with total acknowledgements or more. */
  predicate Unvoted(s: State) {
    && s.execute in s.log
    && s.log[s.execute].commit
    && !s.log[s.execute].voted
    && s.log[s.execute].quorum.size >= s.cfg.total
  }

  function ExecuteOne(s: State): State
    requires s.execute in s.log
  {
    var e := s.log[s.execute];
    var reply := if e.request.Some? && e.leader then [Reply(e.command, s.db.Get(e.command.key))] else [];
    s.(db := s.db.Execute(e.command),
       replies := s.replies + reply,
       log := s.log - {s.execute},
       l := s.l - {s.execute},
       execute := s.execute + 1,
       executed := s.executed + [e.command])
  }

  function AskForVotes(s: State): State
    requires s.execute in s.log
  {
    s.(log := s.log[s.execute := s.log[s.execute].(quorum := NoVotes)],
       sent := s.sent + [Vote(s.execute, s.id, s.l)])
  }

  function Exec(s: State): State
    decreases |s.log|
  {
    if Ready(s) then
      assert |s.log - {s.execute}| < |s.log| by { RemoveKeySize(s.log, s.execute); }
      Exec(ExecuteOne(s))
    else if Unvoted(s) then AskForVotes(s)
    else s
  }

  lemma RemoveKeySize<V>(m: map<int, V>, k: int)
    requires k in m
    ensures |m - {k}| == |m| - 1
  {
    assert (m - {k}).Keys == m.Keys - {k};
    assert |m.Keys - {k}| == |m.Keys| - 1;
    assert |m - {k}| == |(m - {k}).Keys|;
  }

  /** Assigning a key twice. */
  lemma Overwrite<V>(m: map<int, V>, k: int, a: V, b: V)
    ensures m[k := a][k := b] == m[k := b]
  {}

  // ---------- HandleRequest ----------

  function OwnEntry(ballot: Ballots.Ballot, c: Command): Entry {
    Entry(ballot, false, Some(c), c, NoVotes, false, true, true, 0)
  }

  /** Enter the command under the current slot, queue a vote for it and broadcast the proposal. */
  function Proposed(s: State, c: Command): State {
    s.(log := s.log[s.slot := OwnEntry(s.ballot, c)],
       l := s.l[s.slot := CommandBallot(c, s.slot, s.id)],
       count := s.count + 1,
       sent := s.sent + [Propose(s.ballot, c, s.slot, s.id, true)])
  }

  /** The slot of a command is its counter. */
  function HandleRequest(s: State, c: Command): State {
    Proposed(s.(slot := c.counter, ballot := Ballots.Next(s.ballot, s.id)), c)
  }

  // ---------- HandlePropose ----------

  /** Take over the ballot, make or update the entry of the slot, and queue a vote for it. */
  function Accept(s: State, m: Message): State
    requires m.Propose?
  {
    var known := m.slot in s.log;
    var e := if known then s.log[m.slot]
             else Entry(m.ballot, false, None, m.command, NoVotes, false, false, false, m.slot);
    s.(ballot := if s.ballot < m.ballot then m.ballot else s.ballot,
       log := s.log[m.slot := e.(leader := false)],
       count := if known then s.count else s.count + 1,
       l := s.l[m.slot := CommandBallot(m.command, m.slot, s.id)])
  }

  /** The largest of base and the keys. */
  predicate IsMax(m: int, base: int, keys: set<int>) {
    && m >= base
    && (forall k :: k in keys ==> k <= m)
    && (m == base || m in keys)
  }

  ghost function MaxKey(base: int, keys: set<int>): (m: int)
    ensures IsMax(m, base, keys)
  {
    if |keys| == 0 then base
    else
      var k := Any(keys);
      var m := MaxKey(base, keys - {k});
      assert forall x :: x in keys ==> x == k || x in keys - {k};
      if k > m then k else m
  }

  lemma MaxUnique(m: int, n: int, base: int, keys: set<int>)
    requires IsMax(m, base, keys) && IsMax(n, base, keys)
    ensures m == n
  {}

  ghost function MarkAll(s: State): State {
    s.(log := map k | k in s.log :: s.log[k].(voted := true),
       flag2 := MaxKey(s.flag2, s.log.Keys))
  }

  function MarkOne(s: State, k: int): State
    requires k in s.log
  {
    s.(log := s.log[k := s.log[k].(voted := true)], flag2 := if k > s.flag2 then k else s.flag2)
  }

  /** MarkAll when the loop has come to some of the keys. */
  function MarkSome(s: State, seen: set<int>, flag2: int): State {
    s.(log := map k | k in s.log :: if k in seen then s.log[k].(voted := true) else s.log[k], flag2 := flag2)
  }

  lemma MarkStarts(s: State)
    ensures MarkSome(s, {}, s.flag2) == s
  {
    assert MarkSome(s, {}, s.flag2).log == s.log;
  }

  lemma MarkMore(s: State, seen: set<int>, m: int, k: int)
    requires k in s.log && IsMax(m, s.flag2, seen)
    ensures var m' := if k > m then k else m;
            && MarkOne(MarkSome(s, seen, m), k) == MarkSome(s, seen + {k}, m')
            && IsMax(m', s.flag2, seen + {k})
  {
    var t := MarkSome(s, seen, m);
    assert t.log[k := t.log[k].(voted := true)] == MarkSome(s, seen + {k}, m).log;
  }

  lemma MarkEnds(s: State, m: int)
    requires IsMax(m, s.flag2, s.log.Keys)
    ensures MarkSome(s, s.log.Keys, m) == MarkAll(s)
  {
    MaxUnique(m, MaxKey(s.flag2, s.log.Keys), s.flag2, s.log.Keys);
    assert MarkSome(s, s.log.Keys, m).log == MarkAll(s).log;
  }

  predicate Full(s: State) { |s.l| >= s.cfg.total }

  function SendVotes(s: State, slot: int): State {
    s.(sent := s.sent + [Vote(slot, s.id, s.l)], l := map[])
  }

  function SweepOne(s: State, k: int): State
    requires k in s.log
  {
    var t := MarkOne(s, k);
    if t.log[k].commit then Exec(t) else t
  }

  /**
   Ranging over the log while exec deletes from it: every key that comes up is still in the log and new,
   and at the end no key is left that did not come up.
   */
  predicate SweepOrder(s: State, seen: set<int>, order: seq<int>)
    decreases |order|
  {
    if order == [] then s.log.Keys <= seen
    else
      && order[0] in s.log && order[0] !in seen
      && SweepOrder(SweepOne(s, order[0]), seen + {order[0]}, order[1..])
  }

  function Sweep(s: State, order: seq<int>): State
    decreases |order|
  {
    if order == [] then s
    else Sweep(if order[0] in s.log then SweepOne(s, order[0]) else s, order[1..])
  }

  /** SweepOrder without the demand that the loop has ended. */
  predicate SweepPrefix(s: State, seen: set<int>, order: seq<int>)
    decreases |order|
  {
    order == [] ||
    (order[0] in s.log && order[0] !in seen && SweepPrefix(SweepOne(s, order[0]), seen + {order[0]}, order[1..]))
  }

  /** One more key at the end. */
  lemma {:induction false} SweepMore(s: State, seen: set<int>, order: seq<int>, k: int)
    requires SweepPrefix(s, seen, order)
    requires k in Sweep(s, order).log && k !in seen && k !in KeysOf(order)
    ensures SweepPrefix(s, seen, order + [k])
    ensures Sweep(s, order + [k]) == SweepOne(Sweep(s, order), k)
    decreases |order|
  {
    if order == [] {
      assert order + [k] == [k];
    } else {
      assert (order + [k])[1..] == order[1..] + [k];
      SweepMore(SweepOne(s, order[0]), seen + {order[0]}, order[1..], k);
    }
  }

  /** The keys that have come up. */
  function KeysOf(order: seq<int>): set<int> {
    if order == [] then {} else {order[0]} + KeysOf(order[1..])
  }

  lemma {:induction false} KeysOfMore(order: seq<int>, k: int)
    ensures KeysOf(order + [k]) == KeysOf(order) + {k}
  {
    if order == [] {
      assert order + [k] == [k];
    } else {
      assert (order + [k])[1..] == order[1..] + [k];
      KeysOfMore(order[1..], k);
    }
  }

  lemma {:induction false} SweepEnds(s: State, seen: set<int>, order: seq<int>)
    requires SweepPrefix(s, seen, order)
    requires Sweep(s, order).log.Keys <= seen + KeysOf(order)
    ensures SweepOrder(s, seen, order)
    decreases |order|
  {
    if order != [] {
      assert seen + KeysOf(order) == seen + {order[0]} + KeysOf(order[1..]);
      SweepEnds(SweepOne(s, order[0]), seen + {order[0]}, order[1..]);
    }
  }

  lemma {:induction false} ExecShrinks(s: State)
    ensures Exec(s).log.Keys <= s.log.Keys
    decreases |s.log|
  {
    if Ready(s) {
      RemoveKeySize(s.log, s.execute);
      ExecShrinks(ExecuteOne(s));
    }
  }

  /** HandlePropose up to the first loop, that loop included. */
  ghost function Marked(s: State, m: Message): State
    requires m.Propose?
  {
    var a := Accept(s, m);
    if a.count >= a.execute + a.cfg.total || Full(a) then MarkAll(a) else a
  }

  /** HandlePropose up to the second loop. */
  ghost function BeforeSweep(s: State, m: Message): State
    requires m.Propose?
  {
    var b := Marked(s, m);
    if Full(b) then SendVotes(b, m.slot) else b
  }

  /** Whether HandlePropose goes through the second loop: the flag is set before the votes are sent. */
  ghost predicate Sweeps(s: State, m: Message)
    requires m.Propose?
  {
    var b := BeforeSweep(s, m);
    Full(b) || m.slot < b.flag2
  }

  ghost function HandlePropose(s: State, m: Message, order: seq<int>): State
    requires m.Propose?
  {
    if Sweeps(s, m) then Sweep(BeforeSweep(s, m), order) else BeforeSweep(s, m)
  }

  ghost predicate ProposeOrder(s: State, m: Message, order: seq<int>)
    requires m.Propose?
  {
    if Sweeps(s, m) then SweepOrder(BeforeSweep(s, m), {}, order) else order == []
  }

  // ---------- HandleVote ----------

  /** The entry of slot k, made if there is none, with one more acknowledgement. */
  function Acknowledged(s: State, k: int, cb: CommandBallot): Entry {
    var e := if k in s.log then s.log[k]
             else Entry(0, false, None, cb.command, NoVotes, false, false, false, 0);
    e.(quorum := e.quorum.Ack(cb.id))
  }

  /** Slot k acknowledged and committed, before exec. */
  function Committed(s: State, k: int, cb: CommandBallot): State {
    s.(log := s.log[k := Acknowledged(s, k, cb).(commit := true, received := true)])
  }

  function VoteOne(s: State, k: int, cb: CommandBallot): State {
    if k !in s.log && s.execute > k then s
    else
      var f := Acknowledged(s, k, cb);
      if f.quorum.Majority(s.cfg) then Exec(s.(log := s.log[k := f.(commit := true, received := true)]))
      else s.(log := s.log[k := f])
  }

  /** The second half of VoteOne, on the state that the first half leaves. */
  function OnMajority(s: State, k: int): State
    requires k in s.log
  {
    var f := s.log[k];
    if f.quorum.Majority(s.cfg) then Exec(s.(log := s.log[k := f.(commit := true, received := true)])) else s
  }

  lemma VoteSplits(s: State, k: int, cb: CommandBallot)
    requires k in s.log || s.execute <= k
    ensures VoteOne(s, k, cb) == OnMajority(s.(log := s.log[k := Acknowledged(s, k, cb)]), k)
  {
    var f := Acknowledged(s, k, cb);
    Overwrite(s.log, k, f, f.(commit := true, received := true));
  }

  function HandleVote(s: State, l: map<int, CommandBallot>, order: seq<int>): State
    decreases |order|
  {
    if order == [] then s
    else
      var n := |order| - 1;
      var t := HandleVote(s, l, order[..n]);
      if order[n] in l then VoteOne(t, order[n], l[order[n]]) else t
  }

  predicate VoteOrder(l: map<int, CommandBallot>, order: seq<int>) {
    && (forall i, j :: 0 <= i < j < |order| ==> order[i] != order[j])
    && (forall i :: 0 <= i < |order| ==> order[i] in l)
    && |order| == |l|
  }
}
