/**
 The replica object of consensus/consensus.go. Log entries and their quorums are objects updated in
 place; Go's map iteration order is chosen by the loops and handed out as a ghost result.
 */
module Engine {
  import opened Options
  import opened Ids
  import opened Databases
  import opened Quorums
  import opened Cardinality
  import opened Replicas
  import ReplicaProposals

  class LogEntry {
    var ballot: Ballots.Ballot
    var commit: bool
    const request: Option<Command>
    const command: Command
    const quorum: Quorum
    var received: bool
    var voted: bool
    var leader: bool
    const slot: int

    ghost function View(): Entry
      reads this, quorum
    {
      Entry(ballot, commit, request, command, quorum.View(), received, voted, leader, slot)
    }

    constructor (ballot: Ballots.Ballot, request: Option<Command>, command: Command, voted: bool, leader: bool,
                 slot: int)
      ensures fresh(quorum)
      ensures View() == Entry(ballot, false, request, command, NoVotes, false, voted, leader, slot)
    {
      this.ballot, this.request, this.command, this.voted, this.leader, this.slot :=
        ballot, request, command, voted, leader, slot;
      commit, received := false, false;
      quorum := new Quorum();
    }
  }

  class Consensus {
    const cfg: Config
    const id: ID
    const db: Database
    var log: map<int, LogEntry>
    var l: map<int, CommandBallot>
    var execute: int
    var ballot: Ballots.Ballot
    var slot: int
    var count: int
    var flag2: int
    var sent: seq<Message>
    var replies: seq<Reply>
    ghost var executed: seq<Command>

    /** The entry and quorum objects this replica has allocated. */
    ghost var entries: set<LogEntry>
    ghost var tallies: set<Quorum>

    /** No two slots share an entry or a quorum. */
    ghost predicate Valid()
      reads this
    {
      && (forall k :: k in log ==> log[k] in entries && log[k].quorum in tallies)
      && (forall i, j :: i in log && j in log && i != j ==> log[i] != log[j] && log[i].quorum != log[j].quorum)
    }

    ghost function Log(): map<int, Entry>
      requires Valid()
      reads this, entries, tallies
    {
      map k | k in log :: log[k].View()
    }

    ghost function View(): State
      requires Valid()
      reads this, db, entries, tallies
    {
      State(cfg, id, Log(), l, execute, ballot, slot, count, flag2, db.View(), sent, replies, executed)
    }

    /** When only the entry of one slot has changed, so has the log. */
    twostate lemma OneChanged(k: int)
      requires old(Valid()) && Valid() && log == old(log) && k in log
      requires forall j :: j in log && j != k ==> log[j].View() == old(log[j].View())
      ensures Log() == old(Log())[k := log[k].View()]
    {}

    constructor (cfg: Config, id: ID)
      ensures Valid() && View() == Init(cfg, id)
      ensures fresh(db) && fresh(entries) && fresh(tallies)
      ensures log == map[] && l == map[] && execute == 0 && ballot == 0 && slot == -1 && count == -1 && flag2 == 0
    {
      this.cfg, this.id := cfg, id;
      db := new Database(cfg.multiversion);
      log, l, execute, ballot, slot, count, flag2 := map[], map[], 0, 0, -1, -1, 0;
      sent, replies, executed := [], [], [];
      entries, tallies := {}, {};
    }

    method Broadcast(m: Message)
      requires Valid()
      modifies this`sent
      ensures Valid() && View() == old(View()).(sent := old(sent) + [m])
    {
      sent := sent + [m];
      assert Log() == old(Log());
    }

    /** Put a new entry under a slot. */
    method Store(k: int, e: LogEntry)
      requires Valid()
      requires e !in entries && e.quorum !in tallies
      modifies this`log, this`entries, this`tallies
      ensures log == old(log)[k := e] && entries == old(entries) + {e} && tallies == old(tallies) + {e.quorum}
      ensures Valid() && View() == old(View()).(log := old(Log())[k := e.View()])
    {
      log := log[k := e];
      entries, tallies := entries + {e}, tallies + {e.quorum};
      assert Log() == old(Log())[k := e.View()];
    }

    /** Queue a vote of this replica. */
    method Queue(k: int, command: Command)
      requires Valid()
      modifies this`l
      ensures Valid() && View() == old(View()).(l := old(l)[k := CommandBallot(command, k, id)])
    {
      l := l[k := CommandBallot(command, k, id)];
      assert Log() == old(Log());
    }

    method HandleRequest(r: Command)
      requires Valid()
      modifies this
      ensures Valid() && View() == Replicas.HandleRequest(old(View()), r)
      ensures fresh(entries - old(entries)) && fresh(tallies - old(tallies))
    {
      slot := r.counter;
      ballot := Ballots.Next(ballot, id);
      assert Log() == old(Log());
      Propose(r);
    }

    method Propose(r: Command)
      requires Valid() && slot == r.counter
      modifies this
      ensures Valid() && View() == Proposed(old(View()), r)
      ensures fresh(entries - old(entries)) && fresh(tallies - old(tallies))
    {
      Record(r);
      Broadcast(Message.Propose(ballot, r, slot, id, log[slot].leader));
    }

    /** Propose up to the broadcast. */
    method Record(r: Command)
      requires Valid()
      modifies this`log, this`l, this`count, this`entries, this`tallies
      ensures Valid() && slot in log && log[slot].leader
      ensures View() == old(View()).(
        log := old(Log())[slot := OwnEntry(ballot, r)],
        l := old(l)[slot := CommandBallot(r, slot, id)],
        count := old(count) + 1)
      ensures fresh(entries - old(entries)) && fresh(tallies - old(tallies))
    {
      Enter(r);
      Queue(slot, r);
      CountOne();
    }

    method CountOne()
      requires Valid()
      modifies this`count
      ensures Valid() && View() == old(View()).(count := old(count) + 1)
    {
      count := count + 1;
      assert Log() == old(Log());
    }

    /** The entry of the leader of a slot. */
    method Enter(r: Command)
      requires Valid()
      modifies this`log, this`entries, this`tallies
      ensures Valid() && View() == old(View()).(log := old(Log())[slot := OwnEntry(ballot, r)])
      ensures fresh(entries - old(entries)) && fresh(tallies - old(tallies))
      ensures slot in log && log[slot].leader
    {
      var e := new LogEntry(ballot, Some(r), r, true, true, 0);
      assert Log() == old(Log());
      Store(slot, e);
    }

    /** Delete the slot at the frontier from both maps and move on. */
    method Forget()
      requires Valid() && execute in log
      modifies this`log, this`l, this`execute
      ensures Valid()
      ensures View() == old(View()).(
        log := old(Log()) - {old(execute)}, l := old(l) - {old(execute)}, execute := old(execute) + 1)
      ensures |log| < |old(log)|
    {
      RemoveKeySize(log, execute);
      log := log - {execute};
      l := l - {execute};
      execute := execute + 1;
      assert Log() == old(Log()) - {old(execute)};
    }

    /** Execute the entry at the frontier and reply if this replica proposed it. */
    method Run(e: LogEntry)
      requires Valid() && execute in log && log[execute] == e
      modifies this`executed, this`replies, db
      ensures Valid()
      ensures View() == old(View()).(
        db := old(db.View()).Execute(e.command),
        executed := old(executed) + [e.command],
        replies := old(replies) +
          if e.request.Some? && e.leader then [Reply(e.command, old(db.View()).Get(e.command.key))] else [])
    {
      var value := db.Execute(e.command);
      executed := executed + [e.command];
      if e.request.Some? {
        if e.leader {
          replies := replies + [Reply(e.command, value)];
        }
      }
      assert Log() == old(Log());
    }

    /** Empty the quorum of a slot. */
    method ResetQuorum(k: int)
      requires Valid() && k in log
      modifies log[k].quorum
      ensures Valid() && View() == old(View()).(log := old(Log())[k := old(Log())[k].(quorum := NoVotes)])
    {
      log[k].quorum.Reset();
      OneChanged(k);
    }

    method ExecuteFrontier()
      requires Valid() && execute in log
      modifies this, db
      ensures Valid() && View() == ExecuteOne(old(View()))
      ensures entries == old(entries) && tallies == old(tallies)
      ensures |log| < |old(log)|
    {
      Run(log[execute]);
      Forget();
    }

    method AskVotes()
      requires Valid() && execute in log
      modifies this`sent, log[execute].quorum
      ensures Valid() && View() == AskForVotes(old(View()))
    {
      ResetQuorum(execute);
      Broadcast(Vote(execute, id, l));
    }

    method exec()
      requires Valid()
      modifies this, db, tallies
      ensures Valid() && View() == Exec(old(View()))
      ensures entries == old(entries) && tallies == old(tallies)
    {
      while true
        invariant Valid() && Exec(View()) == Exec(old(View()))
        invariant entries == old(entries) && tallies == old(tallies)
        decreases |log|
      {
        if execute !in log {
          break;
        }
        var e := log[execute];
        assert View().log[execute] == e.View();
        if !e.commit {
          break;
        }
        if !e.voted {
          if e.quorum.size >= cfg.total {
            AskVotes();
            return;
          }
        }
        ExecuteFrontier();
      }
    }

    // ---------- HandleVote ----------

    method Ack(k: int, id: ID)
      requires Valid() && k in log
      modifies log[k].quorum
      ensures Valid()
      ensures View() == old(View()).(log := old(Log())[k := old(Log())[k].(quorum := old(Log())[k].quorum.Ack(id))])
    {
      log[k].quorum.ACK(id);
      OneChanged(k);
    }

    method Commit(k: int)
      requires Valid() && k in log
      modifies log[k]
      ensures Valid()
      ensures View() == old(View()).(log := old(Log())[k := old(Log())[k].(commit := true, received := true)])
    {
      log[k].commit := true;
      log[k].received := true;
      OneChanged(k);
    }

    /** Make an entry without a proposal when the slot has none. */
    method Admit(k: int, command: Command)
      requires Valid()
      modifies this, entries, tallies
      ensures Valid() && k in log
      ensures View() == old(View()).(log :=
        if k in old(log) then old(Log())
        else old(Log())[k := Entry(0, false, None, command, NoVotes, false, false, false, 0)])
      ensures fresh(entries - old(entries)) && fresh(tallies - old(tallies))
    {
      if k !in log {
        var e := new LogEntry(0, None, command, false, false, 0);
        assert Log() == old(Log());
        Store(k, e);
      }
    }

    method AdmitAndAck(k: int, sc: CommandBallot)
      requires Valid()
      modifies this, entries, tallies
      ensures Valid() && k in log
      ensures View() == old(View()).(log := old(Log())[k := Acknowledged(old(View()), k, sc)])
      ensures fresh(entries - old(entries)) && fresh(tallies - old(tallies))
    {
      Admit(k, sc.command);
      ghost var e := Log()[k];
      Ack(k, sc.id);
      Overwrite(old(Log()), k, e, e.(quorum := e.quorum.Ack(sc.id)));
    }

    /** The body of HandleVote's loop. */
    method CountVote(k: int, sc: CommandBallot)
      requires Valid()
      modifies this, db, entries, tallies
      ensures Valid() && View() == VoteOne(old(View()), k, sc)
      ensures fresh(entries - old(entries)) && fresh(tallies - old(tallies))
    {
      if k !in log && execute > k {
        return;
      }
      VoteSplits(View(), k, sc);
      AdmitAndAck(k, sc);
      CommitOnMajority(k);
    }

    /** The end of that body: commit the slot and execute once it has enough acknowledgements. */
    method CommitOnMajority(k: int)
      requires Valid() && k in log
      modifies this, db, entries, tallies
      ensures Valid() && View() == OnMajority(old(View()), k)
      ensures entries == old(entries) && tallies == old(tallies)
    {
      var majority := log[k].quorum.Majority(cfg);
      if majority {
        Commit(k);
        exec();
      }
    }

    method HandleVote(m: Message) returns (ghost order: seq<int>)
      requires Valid() && m.Vote?
      modifies this, db, entries, tallies
      ensures VoteOrder(m.l, order)
      ensures Valid() && View() == Replicas.HandleVote(old(View()), m.l, order)
      ensures fresh(entries - old(entries)) && fresh(tallies - old(tallies))
    {
      var rest := m.l.Keys;
      order := [];
      while |rest| > 0
        invariant Valid() && View() == Replicas.HandleVote(old(View()), m.l, order)
        invariant fresh(entries - old(entries)) && fresh(tallies - old(tallies))
        invariant rest <= m.l.Keys && |rest| + |order| == |m.l|
        invariant forall i :: 0 <= i < |order| ==> order[i] in m.l && order[i] !in rest
        invariant forall i, j :: 0 <= i < j < |order| ==> order[i] != order[j]
        decreases |rest|
      {
        ghost var w := Any(rest);
        assert w in rest;
        var k :| k in rest;
        rest := rest - {k};
        CountVote(k, m.l[k]);
        assert (order + [k])[..|order|] == order;
        order := order + [k];
      }
    }

    // ---------- HandlePropose ----------

    method Demote(k: int)
      requires Valid() && k in log
      modifies log[k]
      ensures Valid()
      ensures View() == old(View()).(log := old(Log())[k := old(Log())[k].(leader := false)])
    {
      log[k].leader := false;
      OneChanged(k);
    }

    method Introduce(m: Message)
      requires Valid() && m.Propose?
      modifies this
      ensures Valid() && m.slot in log
      ensures View() == old(View()).(
        log := if m.slot in old(log) then old(Log())
               else old(Log())[m.slot := Entry(m.ballot, false, None, m.command, NoVotes, false, false, false, m.slot)],
        count := if m.slot in old(log) then old(count) else old(count) + 1)
      ensures fresh(entries - old(entries)) && fresh(tallies - old(tallies))
    {
      if m.slot !in log {
        var e := new LogEntry(m.ballot, None, m.command, false, false, m.slot);
        assert Log() == old(Log());
        Store(m.slot, e);
        count := count + 1;
      }
    }

    method RaiseBallot(b: Ballots.Ballot)
      requires Valid()
      modifies this`ballot
      ensures Valid() && View() == old(View()).(ballot := if old(ballot) < b then b else old(ballot))
    {
      if ballot < b {
        ballot := b;
      }
      assert Log() == old(Log());
    }

    /** HandlePropose up to the first loop. */
    method AcceptProposal(m: Message)
      requires Valid() && m.Propose?
      modifies this, entries
      ensures Valid() && View() == Accept(old(View()), m)
      ensures fresh(entries - old(entries)) && fresh(tallies - old(tallies))
    {
      RaiseBallot(m.ballot);
      Introduce(m);
      ghost var e := Log()[m.slot];
      Demote(m.slot);
      Overwrite(old(Log()), m.slot, e, e.(leader := false));
      Queue(m.slot, m.command);
    }

    method MarkVoted(k: int)
      requires Valid() && k in log
      modifies log[k], this`flag2
      ensures Valid()
      ensures View() == MarkOne(old(View()), k)
    {
      log[k].voted := true;
      if k > flag2 {
        flag2 := k;
      }
      OneChanged(k);
    }

    /** The body of the first loop of HandlePropose. */
    method MarkVisit(k: int, ghost s: State, ghost seen: set<int>)
      requires Valid() && k in log && View() == MarkSome(s, seen, flag2) && IsMax(flag2, s.flag2, seen)
      modifies entries, this`flag2
      ensures Valid() && View() == MarkSome(s, seen + {k}, flag2) && IsMax(flag2, s.flag2, seen + {k})
      ensures log == old(log)
    {
      assert k in View().log && View().log.Keys == s.log.Keys;
      MarkMore(s, seen, flag2, k);
      MarkVoted(k);
    }

    /** The first loop of HandlePropose. */
    method MarkAllVoted()
      requires Valid()
      modifies this`flag2, entries
      ensures Valid() && View() == MarkAll(old(View()))
    {
      ghost var s := View();
      ghost var keys: set<int> := log.Keys;
      assert keys == s.log.Keys;
      var rest := log.Keys;
      MarkStarts(s);
      while |rest| > 0
        invariant log == old(log) && rest <= keys
        invariant Valid() && View() == MarkSome(s, keys - rest, flag2)
        invariant IsMax(flag2, s.flag2, keys - rest)
        decreases |rest|
      {
        ghost var w := Any(rest);
        assert w in rest;
        var k :| k in rest;
        TakeOut(keys, rest, k);
        MarkVisit(k, s, keys - rest);
        rest := rest - {k};
      }
      assert keys - rest == keys;
      MarkEnds(s, flag2);
    }

    /** The body of the second loop. */
    method SweepVisit(k: int)
      requires Valid() && k in log
      modifies this, db, entries, tallies
      ensures Valid() && View() == SweepOne(old(View()), k)
      ensures entries == old(entries) && tallies == old(tallies)
      ensures log.Keys <= old(log).Keys
    {
      MarkVoted(k);
      ghost var t := View();
      assert t.log[k] == log[k].View() && t.log.Keys == log.Keys;
      ExecShrinks(t);
      if log[k].commit {
        exec();
      }
      assert Log().Keys == log.Keys;
    }

    /** One turn of that loop, after the keys of order. */
    method SweepTurn(k: int, ghost s: State, ghost order: seq<int>)
      requires Valid() && k in log && k !in KeysOf(order)
      requires View() == Sweep(s, order) && SweepPrefix(s, {}, order)
      modifies this, db, entries, tallies
      ensures Valid() && View() == Sweep(s, order + [k]) && SweepPrefix(s, {}, order + [k])
      ensures KeysOf(order + [k]) == KeysOf(order) + {k}
      ensures entries == old(entries) && tallies == old(tallies)
      ensures log.Keys <= old(log).Keys
    {
      assert k in View().log;
      SweepMore(s, {}, order, k);
      KeysOfMore(order, k);
      SweepVisit(k);
    }

    /** The second loop of HandlePropose: exec may delete keys that have not come up yet. */
    method SweepLog() returns (ghost order: seq<int>)
      requires Valid()
      modifies this, db, entries, tallies
      ensures SweepOrder(old(View()), {}, order)
      ensures Valid() && View() == Sweep(old(View()), order)
      ensures entries == old(entries) && tallies == old(tallies)
    {
      order := [];
      ghost var s := View();
      var seen: set<int> := {};
      while |log.Keys - seen| > 0
        invariant Valid() && entries == old(entries) && tallies == old(tallies)
        invariant View() == Sweep(s, order) && SweepPrefix(s, {}, order)
        invariant seen == KeysOf(order)
        decreases |log.Keys - seen|
      {
        var left := log.Keys - seen;
        ghost var w := Any(left);
        assert w in left;
        var k :| k in left;
        SweepTurn(k, s, order);
        seen := seen + {k};
        order := order + [k];
        SubsetSize(log.Keys - seen, left - {k});
      }
      SweepDone(s, order);
    }

    /** The loop ends when every key that is left has come up. */
    lemma SweepDone(s: State, order: seq<int>)
      requires Valid() && View() == Sweep(s, order) && SweepPrefix(s, {}, order) && |log.Keys - KeysOf(order)| == 0
      ensures SweepOrder(s, {}, order)
    {
      NothingLeft(log.Keys, KeysOf(order));
      assert View().log.Keys == log.Keys;
      SweepEnds(s, {}, order);
    }

    method SendVote(slot: int)
      requires Valid()
      modifies this`sent, this`l
      ensures Valid() && View() == SendVotes(old(View()), slot)
    {
      Broadcast(Vote(slot, id, l));
      l := map[];
      assert Log() == old(Log());
    }

    /** HandlePropose up to the first loop, that loop included. */
    method AcceptAndMark(m: Message) returns (t: int)
      requires Valid() && m.Propose?
      modifies this, entries
      ensures Valid() && View() == Marked(old(View()), m)
      ensures fresh(entries - old(entries)) && fresh(tallies - old(tallies))
      ensures t == execute + cfg.total && m.slot in log && !log[m.slot].leader
    {
      AcceptProposal(m);
      t := execute + cfg.total;
      assert !View().log[m.slot].leader;
      if count >= t || |l| >= cfg.total {
        MarkAllVoted();
      }
      assert m.slot in View().log && !View().log[m.slot].leader;
    }

    /** The effect, whatever the order: when the second loop is due it runs every committed slot in a row. */
    method HandlePropose(m: Message) returns (ghost order: seq<int>)
      requires Valid() && m.Propose?
      modifies this, db, entries, tallies
      ensures ProposeOrder(old(View()), m, order)
      ensures Valid() && View() == Replicas.HandlePropose(old(View()), m, order)
      ensures if ReplicaProposals.LoopDue(old(View()), m.slot)
              then ReplicaProposals.FrontierPast(old(View()), View()) else execute == old(execute)
      ensures fresh(entries - old(entries)) && fresh(tallies - old(tallies))
    {
      order := [];
      var t := AcceptAndMark(m);
      var e := log[m.slot];
      var flag := m.slot < flag2;
      if count >= t || |l| >= cfg.total {
        if !e.leader && |l| >= cfg.total {
          SendVote(m.slot);
        }
      }
      ghost var s := View();
      assert s == BeforeSweep(old(View()), m);
      if |l| >= cfg.total || flag {
        order := SweepLog();
      }
      ReplicaProposals.ProposalEffect(old(View()), m, order);
    }
  }
}
