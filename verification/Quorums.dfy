/** Acknowledgement counting (quorum.go). */
module Quorums {
  import opened Ids
  import opened Cardinality

  /**
   The part of the configuration the replicas read: the node addresses, Benchmark.Concurrency,
   and whether databases keep histories.
   */
  datatype Config = Config(ids: set<ID>, total: int, multiversion: bool) {
    function N(): nat { |ids| }

    /** config.npz and config.z as Config.Load computes them. */
    function NodesIn(zone: int): set<ID> { set i | i in ids && Zone(i) == zone }

    function Zones(): set<int> { set i | i in ids :: Zone(i) }
  }

  /** The contents of a quorum. */
  datatype Votes = Votes(size: int, acks: set<ID>, zones: map<int, int>) {
    function Zoned(zone: int): int { if zone in zones then zones[zone] else 0 }

    function Ack(id: ID): Votes {
      if id in acks then this
      else Votes(size + 1, acks + {id}, zones[Zone(id) := Zoned(Zone(id)) + 1])
    }

    predicate Majority(cfg: Config) { size >= cfg.N() / 2 }

    predicate AllZones(cfg: Config) { |zones| == |cfg.Zones()| }

    predicate ZoneMajority(cfg: Config) { exists z :: z in zones && zones[z] > |cfg.NodesIn(z)| / 2 }

    /** The counters are those of the acknowledged identifiers. */
    ghost predicate Counts() {
      && size == |acks|
      && zones.Keys == (set i | i in acks :: Zone(i))
      && forall z :: z in zones ==> zones[z] == |AcksIn(acks, z)|
    }
  }

  function AcksIn(acks: set<ID>, zone: int): set<ID> { set i | i in acks && Zone(i) == zone }

  const NoVotes := Votes(0, {}, map[])

  lemma AckCounts(v: Votes, id: ID)
    requires v.Counts()
    ensures v.Ack(id).Counts() && v.Ack(id).acks == v.acks + {id}
    ensures v.Ack(id).Ack(id) == v.Ack(id)
  {
    if id !in v.acks {
      ZonesCount(v, id);
      assert v.Ack(id).acks == v.acks + {id};
    }
  }

  lemma ZonesCount(v: Votes, id: ID)
    requires v.Counts() && id !in v.acks
    ensures var zones := v.Ack(id).zones;
            && zones.Keys == (set i | i in v.acks + {id} :: Zone(i))
            && forall z :: z in zones ==> zones[z] == |AcksIn(v.acks + {id}, z)|
  {
    OneMoreAck(v.acks, id);
    assert Zone(id) !in v.zones ==> AcksIn(v.acks, Zone(id)) == {};
  }

  lemma OneMoreAck(acks: set<ID>, id: ID)
    requires id !in acks
    ensures forall z :: |AcksIn(acks + {id}, z)| == |AcksIn(acks, z)| + if z == Zone(id) then 1 else 0
  {
    forall z
      ensures |AcksIn(acks + {id}, z)| == |AcksIn(acks, z)| + if z == Zone(id) then 1 else 0
    {
      assert AcksIn(acks + {id}, z) == if z == Zone(id) then AcksIn(acks, z) + {id} else AcksIn(acks, z);
    }
  }

  /** The state of a quorum after acknowledgements in some order, repeats included. */
  function AckAll(v: Votes, ids: seq<ID>): Votes {
    if ids == [] then v else AckAll(v, ids[..|ids| - 1]).Ack(ids[|ids| - 1])
  }

  /** Repeats and order do not matter: the size is the number of distinct senders. */
  lemma {:induction false} AckAllCounts(ids: seq<ID>)
    ensures AckAll(NoVotes, ids).Counts() && AckAll(NoVotes, ids).acks == (set i | i in ids)
  {
    if ids != [] {
      AckAllCounts(ids[..|ids| - 1]);
      AckCounts(AckAll(NoVotes, ids[..|ids| - 1]), ids[|ids| - 1]);
    }
  }

  /** Whatever was acknowledged in whatever order, Majority asks whether half of the nodes are among the senders. */
  lemma MajorityMeans(cfg: Config, ids: seq<ID>)
    ensures AckAll(NoVotes, ids).Majority(cfg) <==> |set i | i in ids| >= cfg.N() / 2
  {
    AckAllCounts(ids);
  }

  /** ZoneMajority asks for a zone more than half of whose nodes are among the senders. */
  lemma ZoneMajorityMeans(v: Votes, cfg: Config)
    requires v.Counts()
    ensures v.ZoneMajority(cfg) <==> exists z :: 2 * |AcksIn(v.acks, z)| > |cfg.NodesIn(z)|
  {
    forall z ensures z !in v.zones ==> AcksIn(v.acks, z) == {} {}
    if z :| z in v.zones && v.zones[z] > |cfg.NodesIn(z)| / 2 {
      assert 2 * |AcksIn(v.acks, z)| > |cfg.NodesIn(z)|;
    }
    if z :| 2 * |AcksIn(v.acks, z)| > |cfg.NodesIn(z)| {
      assert z in v.zones;
    }
  }

  /** With acknowledgements of configured nodes only, AllZones says that every zone has one. */
  lemma AllZonesMeans(v: Votes, cfg: Config)
    requires v.Counts() && v.acks <= cfg.ids
    ensures v.AllZones(cfg) <==> forall z :: z in cfg.Zones() ==> exists i :: i in v.acks && Zone(i) == z
  {
    var acked := v.zones.Keys;
    assert |v.zones| == |acked|;
    assert acked <= cfg.Zones();
    SubsetSize(acked, cfg.Zones());
    assert forall z :: z in acked <==> exists i :: i in v.acks && Zone(i) == z;
    assert v.AllZones(cfg) <==> acked == cfg.Zones();
  }

  /** Two quorums with a majority in the same zone share a node of it. */
  lemma ZoneMajoritiesMeet(v: Votes, w: Votes, cfg: Config, z: int) returns (i: ID)
    requires v.Counts() && w.Counts() && v.acks <= cfg.ids && w.acks <= cfg.ids
    requires z in v.zones && v.zones[z] > |cfg.NodesIn(z)| / 2
    requires z in w.zones && w.zones[z] > |cfg.NodesIn(z)| / 2
    ensures i in v.acks && i in w.acks && Zone(i) == z
  {
    var a, b := AcksIn(v.acks, z), AcksIn(w.acks, z);
    Overlap(a, b, cfg.NodesIn(z));
    assert a * b != {};
    i :| i in a * b;
  }

  /** Majority asks for half of the nodes, not more: for every cluster two disjoint sets pass it. */
  lemma MajoritiesNeedNotMeet(cfg: Config) returns (v: Votes, w: Votes)
    ensures v.Counts() && w.Counts() && v.acks <= cfg.ids && w.acks <= cfg.ids
    ensures v.Majority(cfg) && w.Majority(cfg) && v.acks !! w.acks
  {
    var half := cfg.N() / 2;
    var a := TakeSome(cfg.ids, half);
    assert |cfg.ids - a| == cfg.N() - half;
    var b := TakeSome(cfg.ids - a, half);
    v := VotesOf(a);
    w := VotesOf(b);
  }

  lemma {:induction false} VotesOf(acks: set<ID>) returns (v: Votes)
    ensures v.Counts() && v.acks == acks
  {
    if acks == {} {
      v := NoVotes;
    } else {
      var i :| i in acks;
      var u := VotesOf(acks - {i});
      AckCounts(u, i);
      v := u.Ack(i);
    }
  }

  /** The quorum object. */
  class Quorum {
    var size: int
    var acks: set<ID>
    var zones: map<int, int>

    ghost function View(): Votes
      reads this
    {
      Votes(size, acks, zones)
    }

    constructor ()
      ensures View() == NoVotes
    {
      size, acks, zones := 0, {}, map[];
    }

    method ACK(id: ID)
      modifies this
      ensures View() == old(View()).Ack(id)
    {
      if id !in acks {
        acks := acks + {id};
        size := size + 1;
        var z := Zone(id);
        zones := zones[z := (if z in zones then zones[z] else 0) + 1];
      }
    }

    method Reset()
      modifies this
      ensures View() == NoVotes
    {
      size, acks, zones := 0, {}, map[];
    }

    /** For a quorum that only ACK and Reset have changed, size is the number of distinct senders. */
    method Majority(cfg: Config) returns (r: bool)
      ensures r == View().Majority(cfg)
      ensures View().Counts() ==> (r <==> |acks| >= cfg.N() / 2)
    {
      r := size >= cfg.N() / 2;
    }

    method AllZones(cfg: Config) returns (r: bool)
      ensures r == View().AllZones(cfg)
    {
      r := |zones| == |cfg.Zones()|;
    }

    method ZoneMajority(cfg: Config) returns (r: bool)
      ensures r == View().ZoneMajority(cfg)
      ensures View().Counts() ==> (r <==> exists z :: 2 * |AcksIn(acks, z)| > |cfg.NodesIn(z)|)
    {
      if View().Counts() {
        ZoneMajorityMeans(View(), cfg);
      }
      var rest: set<int> := zones.Keys;
      while |rest| > 0
        invariant rest <= zones.Keys
        invariant forall z :: z in zones.Keys - rest ==> zones[z] <= |cfg.NodesIn(z)| / 2
        decreases rest
      {
        ghost var w := Any(rest);
        assert w in rest;
        var z :| z in rest;
        if zones[z] > |cfg.NodesIn(z)| / 2 {
          return true;
        }
        rest := rest - {z};
      }
      return false;
    }
  }
}
