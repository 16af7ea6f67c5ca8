/** The multi-version key-value store that replicas execute commands on (db.go). */
module Databases {
  import opened Ids

  /** A Go byte slice: nil and the empty slice differ. */
  datatype Value = Nil | Bytes(data: seq<bv8>)

  datatype Command = Command(key: int, value: Value, clientID: ID, commandID: int, counter: int) {
    predicate IsRead() { value == Nil }
  }

  /** The contents of a database. */
  datatype Db = Db(data: map<int, Value>, version: nat, multiversion: bool, history: map<int, seq<Value>>) {
    function Get(k: int): Value { if k in data then data[k] else Nil }

    function History(k: int): seq<Value> { if k in history then history[k] else [] }

    function Put(k: int, v: Value): Db {
      if v == Nil then this
      else Db(data[k := v], version + 1, multiversion,
              if multiversion then history[k := History(k) + [v]] else history)
    }

    /** The state after a command; the command returns the previous value of its key. */
    function Execute(c: Command): Db { Put(c.key, c.value) }
  }

  function Empty(multiversion: bool): Db { Db(map[], 0, multiversion, map[]) }

  /** The state after a sequence of commands. */
  function Replay(d: Db, cs: seq<Command>): Db {
    if cs == [] then d else Replay(d, cs[..|cs| - 1]).Execute(cs[|cs| - 1])
  }

  lemma {:induction false} ReplaySplit(d: Db, xs: seq<Command>, ys: seq<Command>)
    ensures Replay(d, xs + ys) == Replay(Replay(d, xs), ys)
  {
    if ys == [] {
      assert xs + ys == xs;
    } else {
      var n := |ys| - 1;
      assert (xs + ys)[..|xs + ys| - 1] == xs + ys[..n];
      ReplaySplit(d, xs, ys[..n]);
    }
  }

  /** The values that a sequence of commands writes to a key, in order. */
  function WritesTo(cs: seq<Command>, k: int): seq<Value> {
    if cs == [] then []
    else
      var c := cs[|cs| - 1];
      WritesTo(cs[..|cs| - 1], k) + (if c.key == k && !c.IsRead() then [c.value] else [])
  }

  /** What the state means: last write, number of writes, and with multiversion every write in order. */
  lemma {:induction false} ReplayFromEmpty(multiversion: bool, cs: seq<Command>, k: int)
    ensures var d, ws := Replay(Empty(multiversion), cs), WritesTo(cs, k);
            && d.multiversion == multiversion
            && d.Get(k) == (if ws == [] then Nil else ws[|ws| - 1])
            && d.History(k) == (if multiversion then ws else [])
            && d.version == |Writes(cs)|
            && Nil !in ws
  {
    if cs != [] {
      ReplayFromEmpty(multiversion, cs[..|cs| - 1], k);
    }
  }

  function Writes(cs: seq<Command>): seq<Command> {
    if cs == [] then []
    else Writes(cs[..|cs| - 1]) + (if cs[|cs| - 1].IsRead() then [] else [cs[|cs| - 1]])
  }

  lemma {:induction false} WritesToPrefix(cs: seq<Command>, ds: seq<Command>, k: int)
    requires cs <= ds
    ensures WritesTo(cs, k) <= WritesTo(ds, k)
  {
    if |cs| < |ds| {
      assert cs <= ds[..|ds| - 1];
      WritesToPrefix(cs, ds[..|ds| - 1], k);
    } else {
      assert cs == ds;
    }
  }

  /** The database object: its methods update the fields in place. */
  class Database {
    var data: map<int, Value>
    var version: nat
    const multiversion: bool
    var history: map<int, seq<Value>>

    ghost function View(): Db
      reads this
    {
      Db(data, version, multiversion, history)
    }

    constructor (multiversion: bool)
      ensures View() == Empty(multiversion)
    {
      this.multiversion := multiversion;
      data, version, history := map[], 0, map[];
    }

    /** Returns the previous value of the key and applies the command. */
    method Execute(c: Command) returns (v: Value)
      modifies this
      ensures v == old(View()).Get(c.key)
      ensures View() == old(View()).Execute(c)
    {
      v := Nil;
      if c.key in data {
        v := data[c.key];
      }
      Put(c.key, c.value);
    }

    method Put(k: int, v: Value)
      modifies this
      ensures View() == old(View()).Put(k, v)
    {
      if v != Nil {
        data := data[k := v];
        version := version + 1;
        if multiversion {
          if k !in history {
            history := history[k := []];
          }
          history := history[k := history[k] + [v]];
        }
      }
    }

    method History(k: int) returns (h: seq<Value>)
      ensures h == View().History(k)
    {
      h := if k in history then history[k] else [];
    }
  }
}
