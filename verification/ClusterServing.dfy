/**
 Runs in which everything goes well: slot numbers are given out once, every replica hears every proposal and every
 vote, and every request is executed by all replicas and answered.
 */
module ClusterServing {
  import opened Ids
  import opened Databases
  import opened Quorums
  import opened Cardinality
  import opened Sequences
  import opened Replicas
  import opened ReplicaInvariant
  import opened ReplicaVoting
  import opened ReplicaServing
  import opened Cluster
  import opened ClusterRuns
  import opened ClusterSafety
  import opened ClusterReplies

  /** How many slots go through together: what fills a queue, and one for each of two leaders at least. */
  function Width(cfg: Config): nat { if cfg.total > 2 then cfg.total else 2 }

  /** The slots k, ..., k+n-1. */
  function Span(k: int, n: nat): set<int> { set i: int | k <= i < k + n && Among(i, k, n) }

  predicate Among(i: int, k: int, n: nat) { k <= i < k + n }

  lemma {:induction false} SpanSize(k: int, n: nat)
    ensures |Span(k, n)| == n
  {
    if n > 0 {
      SpanSize(k, n - 1);
      assert Span(k, n) == Span(k, n - 1) + {k + n - 1};
    }
  }

  /** The command for slot i carries that number. */
  ghost predicate Numbered(plan: int -> Command) { forall i :: plan(i).counter == i }

  /** Clients have asked for the first k commands, in this order, each once. */
  ghost predicate Asked(c: System, plan: int -> Command, k: nat) {
    |c.requests| == k && forall i :: 0 <= i < k ==> c.requests[i].command == plan(i)
  }

  ghost predicate AllResting(c: System, cfg: Config, k: int) {
    c.replicas.Keys == cfg.ids && forall x :: x in c.replicas ==> Resting(c.replicas[x], cfg, x, k)
  }

  // ---------- Asking ----------

  lemma AskNext(cfg: Config, run: seq<Action>, x: ID, plan: int -> Command, k: int, known: set<int>, i: nat)
    returns (more: seq<Action>)
    requires IsRun(cfg, run) && x in After(cfg, run).replicas && Numbered(plan) && Asked(After(cfg, run), plan, i)
    requires Queued(After(cfg, run).replicas[x], cfg, x, k, known)
    ensures IsRun(cfg, more) && Asked(After(cfg, more), plan, i + 1) && Onward(After(cfg, run), After(cfg, more), {x})
    ensures var t := After(cfg, more).replicas[x]; Queued(t, cfg, x, k, known + {i}) && HasProposal(t, i)
  {
    AskedQueued(After(cfg, run).replicas[x], cfg, x, k, known, plan(i));
    more := AskStep(cfg, run, x, plan, i);
  }

  lemma AskStep(cfg: Config, run: seq<Action>, x: ID, plan: int -> Command, i: nat) returns (more: seq<Action>)
    requires IsRun(cfg, run) && x in After(cfg, run).replicas && Asked(After(cfg, run), plan, i)
    ensures IsRun(cfg, more) && Asked(After(cfg, more), plan, i + 1) && Onward(After(cfg, run), After(cfg, more), {x})
    ensures After(cfg, more).replicas[x] == HandleRequest(After(cfg, run).replicas[x], plan(i))
  {
    more := run + [Ask(x, plan(i))];
    Extend(cfg, run, Ask(x, plan(i)));
  }

  ghost predicate Offers(s: State, slots: set<int>) { forall i :: i in slots ==> HasProposal(s, i) }

  /** The replica has been asked for these slots. */
  ghost predicate OpenedAt(s: State, cfg: Config, x: ID, k: int, slots: set<int>) {
    Queued(s, cfg, x, k, slots) && Offers(s, slots)
  }

  lemma StillOffers(s: State, t: State, slots: set<int>)
    requires Offers(s, slots) && s.sent <= t.sent
    ensures Offers(t, slots)
  {
    forall i | i in slots ensures HasProposal(t, i) {
      assert HasProposal(s, i);
      var m :| m in s.sent && m.Propose? && m.slot == i;
      assert m in t.sent;
    }
  }

  lemma OfferedToo(s: State, t: State, k: int, n: nat)
    requires n > 0 && Offers(s, Span(k, n - 1)) && s.sent <= t.sent && HasProposal(t, k + n - 1)
    ensures Offers(t, Span(k, n)) && Span(k, n - 1) + {k + n - 1} == Span(k, n)
  {
    StillOffers(s, t, Span(k, n - 1));
  }

  lemma AskMore(cfg: Config, c: System, run: seq<Action>, x: ID, plan: int -> Command, k: nat, i: nat)
    returns (more: seq<Action>)
    requires IsRun(cfg, run) && x in c.replicas && Onward(c, After(cfg, run), {x})
    requires Numbered(plan) && Asked(After(cfg, run), plan, k + i)
    requires OpenedAt(After(cfg, run).replicas[x], cfg, x, k, Span(k, i))
    ensures IsRun(cfg, more) && Onward(c, After(cfg, more), {x}) && Asked(After(cfg, more), plan, k + (i + 1))
    ensures OpenedAt(After(cfg, more).replicas[x], cfg, x, k, Span(k, i + 1))
  {
    more := AskNext(cfg, run, x, plan, k, Span(k, i), k + i);
    OfferedToo(After(cfg, run).replicas[x], After(cfg, more).replicas[x], k, i + 1);
    OnwardTwice(c, After(cfg, run), After(cfg, more), {x}, {x}, {x});
  }

  /** x has been asked for slots k, ..., k+i-1, and is asked for the others up to k+n-1. */
  lemma {:induction false} AskSpan(cfg: Config, c: System, run: seq<Action>, x: ID, plan: int -> Command,
                                   k: nat, i: nat, n: nat) returns (more: seq<Action>)
    requires i <= n && IsRun(cfg, run) && x in c.replicas && Onward(c, After(cfg, run), {x})
    requires Numbered(plan) && Asked(After(cfg, run), plan, k + i)
    requires OpenedAt(After(cfg, run).replicas[x], cfg, x, k, Span(k, i))
    ensures IsRun(cfg, more) && Onward(c, After(cfg, more), {x}) && Asked(After(cfg, more), plan, k + n)
    ensures OpenedAt(After(cfg, more).replicas[x], cfg, x, k, Span(k, n))
    decreases n - i
  {
    if i == n {
      more := run;
    } else {
      var one := AskMore(cfg, c, run, x, plan, k, i);
      more := AskSpan(cfg, c, one, x, plan, k, i + 1, n);
    }
  }

  /** The slots k, ..., k+n-1 and their leaders: p of all but the last, q of the last. */
  datatype Batch = Batch(p: ID, q: ID, k: nat, n: nat) {
    function Slots(): set<int> { Span(k, n) }

    function Leads(x: ID): set<int> {
      if x == q then set i | i in Slots() && i == k + n - 1
      else if x == p then set i | i in Slots() && i != k + n - 1
      else {}
    }

    ghost predicate For(cfg: Config) { p in cfg.ids && q in cfg.ids && p != q && n == Width(cfg) }
  }

  /** Every replica has been asked for the slots it leads. */
  ghost predicate Opened(c: System, cfg: Config, b: Batch) {
    c.replicas.Keys == cfg.ids && forall x :: x in c.replicas ==> OpenedAt(c.replicas[x], cfg, x, b.k, b.Leads(x))
  }

  /** Every slot has been proposed by its leader. */
  ghost predicate Led(c: System, b: Batch) { forall y :: y in c.replicas ==> Offers(c.replicas[y], b.Leads(y)) }

  lemma StillLed(c: System, d: System, ids: set<ID>, b: Batch)
    requires Led(c, b) && Onward(c, d, ids)
    ensures Led(d, b)
  {
    forall y | y in d.replicas ensures Offers(d.replicas[y], b.Leads(y)) {
      StillOffers(c.replicas[y], d.replicas[y], b.Leads(y));
    }
  }

  /** p has been asked for its slots, nobody else for anything. */
  ghost predicate HalfOpened(c: System, cfg: Config, b: Batch) {
    && c.replicas.Keys == cfg.ids
    && forall x :: x in c.replicas ==> OpenedAt(c.replicas[x], cfg, x, b.k, if x == b.p then b.Leads(x) else {})
  }

  lemma OpensHalf(c: System, d: System, cfg: Config, b: Batch)
    requires AllResting(c, cfg, b.k) && Onward(c, d, {b.p}) && b.For(cfg)
    requires OpenedAt(d.replicas[b.p], cfg, b.p, b.k, b.Leads(b.p))
    ensures HalfOpened(d, cfg, b)
  {
    forall x | x in d.replicas && x != b.p ensures OpenedAt(d.replicas[x], cfg, x, b.k, {}) {
      RestingQueued(c.replicas[x], cfg, x, b.k);
      assert d.replicas[x] == c.replicas[x];
    }
  }

  lemma OpensRest(c: System, d: System, cfg: Config, b: Batch)
    requires HalfOpened(c, cfg, b) && Onward(c, d, {b.q}) && b.For(cfg)
    requires OpenedAt(d.replicas[b.q], cfg, b.q, b.k, b.Leads(b.q))
    ensures Opened(d, cfg, b)
  {
    forall x | x in d.replicas ensures OpenedAt(d.replicas[x], cfg, x, b.k, b.Leads(x)) {
      if x != b.q {
        assert d.replicas[x] == c.replicas[x];
      }
    }
  }

  lemma LeadersSlots(b: Batch)
    requires b.n > 0 && b.p != b.q
    ensures b.Leads(b.p) == Span(b.k, b.n - 1) && b.Leads(b.q) == {b.k + b.n - 1}
  {}

  lemma AskFirstLeader(cfg: Config, run: seq<Action>, plan: int -> Command, b: Batch) returns (more: seq<Action>)
    requires IsRun(cfg, run) && AllResting(After(cfg, run), cfg, b.k) && Asked(After(cfg, run), plan, b.k)
    requires b.For(cfg) && Numbered(plan)
    ensures IsRun(cfg, more) && Asked(After(cfg, more), plan, b.k + b.n - 1)
    ensures HalfOpened(After(cfg, more), cfg, b)
  {
    LeadersSlots(b);
    RestingQueued(After(cfg, run).replicas[b.p], cfg, b.p, b.k);
    assert Span(b.k, 0) == {};
    more := AskSpan(cfg, After(cfg, run), run, b.p, plan, b.k, 0, b.n - 1);
    OpensHalf(After(cfg, run), After(cfg, more), cfg, b);
  }

  lemma AskSecondLeader(cfg: Config, run: seq<Action>, plan: int -> Command, b: Batch) returns (more: seq<Action>)
    requires b.For(cfg) && Numbered(plan)
    requires IsRun(cfg, run) && HalfOpened(After(cfg, run), cfg, b) && Asked(After(cfg, run), plan, b.k + b.n - 1)
    ensures IsRun(cfg, more) && Asked(After(cfg, more), plan, b.k + b.n) && Opened(After(cfg, more), cfg, b)
  {
    NotAsked(After(cfg, run), cfg, b);
    more := AskNext(cfg, run, b.q, plan, b.k, {}, b.k + b.n - 1);
    OpensLast(After(cfg, more).replicas[b.q], cfg, b);
    OpensRest(After(cfg, run), After(cfg, more), cfg, b);
  }

  lemma NotAsked(c: System, cfg: Config, b: Batch)
    requires HalfOpened(c, cfg, b) && b.For(cfg)
    ensures Queued(c.replicas[b.q], cfg, b.q, b.k, {})
  {
    assert OpenedAt(c.replicas[b.q], cfg, b.q, b.k, {});
  }

  lemma OpensLast(t: State, cfg: Config, b: Batch)
    requires b.For(cfg) && Queued(t, cfg, b.q, b.k, {} + {b.k + b.n - 1}) && HasProposal(t, b.k + b.n - 1)
    ensures OpenedAt(t, cfg, b.q, b.k, b.Leads(b.q))
  {
    assert b.Leads(b.q) == {} + {b.k + b.n - 1};
  }

  lemma AskRound(cfg: Config, run: seq<Action>, plan: int -> Command, b: Batch) returns (more: seq<Action>)
    requires IsRun(cfg, run) && AllResting(After(cfg, run), cfg, b.k) && Asked(After(cfg, run), plan, b.k)
    requires b.For(cfg) && Numbered(plan)
    ensures IsRun(cfg, more) && Asked(After(cfg, more), plan, b.k + b.n) && Opened(After(cfg, more), cfg, b)
  {
    var one := AskFirstLeader(cfg, run, plan, b);
    more := AskSecondLeader(cfg, one, plan, b);
  }

  // ---------- Hearing and voting ----------

  lemma HearNext(cfg: Config, run: seq<Action>, x: ID, y: ID, k: int, known: set<int>, i: int)
    returns (more: seq<Action>)
    requires IsRun(cfg, run) && x in After(cfg, run).replicas && y in After(cfg, run).replicas && x != y
    requires HasProposal(After(cfg, run).replicas[y], i) && i !in known
    requires var s := After(cfg, run).replicas[x];
             Queued(s, cfg, x, k, known) || (Voted(s, cfg, x, k, known) && cfg.total <= 1)
    ensures IsRun(cfg, more) && After(cfg, more).requests == After(cfg, run).requests
    ensures Onward(After(cfg, run), After(cfg, more), {x})
    ensures var t := After(cfg, more).replicas[x];
            if |known| + 1 >= cfg.total then Voted(t, cfg, x, k, known + {i}) else Queued(t, cfg, x, k, known + {i})
  {
    var m := ProposalToward(After(cfg, run), x, y, i);
    var order := Hears(After(cfg, run).replicas[x], cfg, x, k, known, m);
    more := run + [DeliverPropose(x, m, order)];
    Extend(cfg, run, DeliverPropose(x, m, order));
  }

  /** What x may still hear of the batch. */
  ghost predicate Ears(s: State, cfg: Config, x: ID, b: Batch, known: set<int>) {
    Queued(s, cfg, x, b.k, known) || (Voted(s, cfg, x, b.k, known) && cfg.total <= 1)
  }

  /** x hears the proposals that are left, and with the last one has voted for all slots. */
  lemma {:induction false} HearAll(cfg: Config, run: seq<Action>, x: ID, b: Batch, known: set<int>)
    returns (more: seq<Action>)
    requires IsRun(cfg, run) && x in cfg.ids && After(cfg, run).replicas.Keys == cfg.ids && Led(After(cfg, run), b)
    requires b.For(cfg) && b.Leads(x) <= known < b.Slots() && Ears(After(cfg, run).replicas[x], cfg, x, b, known)
    ensures IsRun(cfg, more) && After(cfg, more).requests == After(cfg, run).requests
    ensures Onward(After(cfg, run), After(cfg, more), {x})
    ensures Voted(After(cfg, more).replicas[x], cfg, x, b.k, b.Slots())
    decreases |b.Slots() - known|
  {
    var one, i := HearMore(cfg, run, x, b, known);
    if known + {i} == b.Slots() {
      more := one;
    } else {
      StillLed(After(cfg, run), After(cfg, one), {x}, b);
      more := HearAll(cfg, one, x, b, known + {i});
      OnwardTwice(After(cfg, run), After(cfg, one), After(cfg, more), {x}, {x}, {x});
    }
  }

  lemma HearMore(cfg: Config, run: seq<Action>, x: ID, b: Batch, known: set<int>) returns (more: seq<Action>, i: int)
    requires IsRun(cfg, run) && x in cfg.ids && After(cfg, run).replicas.Keys == cfg.ids && Led(After(cfg, run), b)
    requires b.For(cfg) && b.Leads(x) <= known < b.Slots() && Ears(After(cfg, run).replicas[x], cfg, x, b, known)
    ensures IsRun(cfg, more) && After(cfg, more).requests == After(cfg, run).requests
    ensures Onward(After(cfg, run), After(cfg, more), {x})
    ensures i in b.Slots() && i !in known && |b.Slots() - (known + {i})| < |b.Slots() - known|
    ensures b.Leads(x) <= known + {i} && (known + {i} == b.Slots() || known + {i} < b.Slots())
    ensures var t := After(cfg, more).replicas[x];
            if known + {i} == b.Slots() then Voted(t, cfg, x, b.k, b.Slots()) else Ears(t, cfg, x, b, known + {i})
  {
    SpanSize(b.k, b.n);
    i := Missing(b.Slots(), known);
    var y := Leader(After(cfg, run), cfg, b, x, i);
    more := HearNext(cfg, run, x, y, b.k, known, i);
  }

  lemma Leader(c: System, cfg: Config, b: Batch, x: ID, i: int) returns (y: ID)
    requires c.replicas.Keys == cfg.ids && b.For(cfg) && Led(c, b) && i in b.Slots() && i !in b.Leads(x)
    ensures y in c.replicas && y != x && HasProposal(c.replicas[y], i)
  {
    y := if i == b.k + b.n - 1 then b.q else b.p;
    assert i in b.Leads(y) && Offers(c.replicas[y], b.Leads(y));
  }

  lemma Missing(slots: set<int>, known: set<int>) returns (i: int)
    requires known < slots
    ensures i in slots && i !in known && known + {i} <= slots
    ensures |slots - (known + {i})| < |slots - known|
    ensures |known + {i}| == |known| + 1 && (known + {i} != slots ==> |known| + 1 < |slots|)
  {
    assert slots - known != {} by {
      if slots - known == {} {
        NothingLeft(slots, known);
      }
    }
    i := Any(slots - known);
    assert slots - known == slots - (known + {i}) + {i};
    SubsetSize(known + {i}, slots);
  }

  /** These replicas have still to hear what they do not lead, the others have voted for all slots. */
  ghost predicate Hearing(c: System, cfg: Config, b: Batch, rest: set<ID>) {
    && c.replicas.Keys == cfg.ids && Led(c, b)
    && forall x :: x in c.replicas ==> HearingOf(c.replicas[x], cfg, x, b, x in rest)
  }

  ghost predicate HearingOf(s: State, cfg: Config, x: ID, b: Batch, before: bool) {
    if before then Queued(s, cfg, x, b.k, b.Leads(x)) else Voted(s, cfg, x, b.k, b.Slots())
  }

  /** All have voted for all slots. */
  ghost predicate AllHeard(c: System, cfg: Config, b: Batch) {
    forall x :: x in cfg.ids ==> x in c.replicas && Voted(c.replicas[x], cfg, x, b.k, b.Slots())
  }

  lemma HearingNext(c: System, d: System, cfg: Config, b: Batch, rest: set<ID>, x: ID)
    requires Hearing(c, cfg, b, rest) && Onward(c, d, {x}) && x in c.replicas
    requires Voted(d.replicas[x], cfg, x, b.k, b.Slots())
    ensures Hearing(d, cfg, b, rest - {x})
  {
    StillLed(c, d, {x}, b);
    forall y | y in d.replicas ensures HearingOf(d.replicas[y], cfg, y, b, y in rest - {x}) {
      if y != x {
        assert d.replicas[y] == c.replicas[y] && HearingOf(c.replicas[y], cfg, y, b, y in rest);
      }
    }
  }

  lemma NobodyLeft(c: System, cfg: Config, b: Batch)
    requires Hearing(c, cfg, b, {})
    ensures c.replicas.Keys == cfg.ids && AllHeard(c, cfg, b)
  {
    forall x | x in cfg.ids ensures Voted(c.replicas[x], cfg, x, b.k, b.Slots()) {
      assert HearingOf(c.replicas[x], cfg, x, b, x in {});
    }
  }

  lemma OpenedHears(c: System, cfg: Config, b: Batch)
    requires Opened(c, cfg, b)
    ensures Hearing(c, cfg, b, cfg.ids)
  {
    forall x | x in c.replicas
      ensures HearingOf(c.replicas[x], cfg, x, b, x in cfg.ids) && Offers(c.replicas[x], b.Leads(x))
    {
      assert OpenedAt(c.replicas[x], cfg, x, b.k, b.Leads(x));
    }
  }

  lemma LeadsPart(b: Batch, x: ID)
    requires b.n >= 2
    ensures b.Leads(x) < b.Slots()
  {
    assert b.k in b.Slots() && b.k + b.n - 1 in b.Slots();
  }

  lemma HearsFirst(c: System, cfg: Config, b: Batch, rest: set<ID>, x: ID)
    requires Hearing(c, cfg, b, rest) && x in rest && x in cfg.ids && b.For(cfg)
    ensures b.Leads(x) < b.Slots() && Ears(c.replicas[x], cfg, x, b, b.Leads(x))
  {
    LeadsPart(b, x);
    assert HearingOf(c.replicas[x], cfg, x, b, x in rest);
  }

  lemma HearOne(cfg: Config, run: seq<Action>, b: Batch, rest: set<ID>, x: ID) returns (more: seq<Action>)
    requires IsRun(cfg, run) && Hearing(After(cfg, run), cfg, b, rest) && x in rest && x in cfg.ids && b.For(cfg)
    ensures IsRun(cfg, more) && After(cfg, more).requests == After(cfg, run).requests
    ensures Hearing(After(cfg, more), cfg, b, rest - {x})
  {
    HearsFirst(After(cfg, run), cfg, b, rest, x);
    more := HearAll(cfg, run, x, b, b.Leads(x));
    HearingNext(After(cfg, run), After(cfg, more), cfg, b, rest, x);
  }

  lemma {:induction false} HearEach(cfg: Config, run: seq<Action>, b: Batch, rest: set<ID>) returns (more: seq<Action>)
    requires IsRun(cfg, run) && Hearing(After(cfg, run), cfg, b, rest) && rest <= cfg.ids && b.For(cfg)
    ensures IsRun(cfg, more) && After(cfg, more).requests == After(cfg, run).requests
    ensures Hearing(After(cfg, more), cfg, b, {})
    decreases |rest|
  {
    if |rest| == 0 {
      more := run;
      assert rest == {};
    } else {
      var x := Any(rest);
      OneOut(rest, x);
      var one := HearOne(cfg, run, b, rest, x);
      more := HearEach(cfg, one, b, rest - {x});
    }
  }

  // ---------- Counting and executing ----------

  /** No slot from end on has been asked for. */
  ghost predicate Before(c: System, end: int) { forall r :: r in c.requests ==> r.command.counter < end }

  /** A vote of v for slot i, of which x may make what it makes of any vote. */
  lemma VoteFor(cfg: Config, run: seq<Action>, x: ID, v: ID, i: int, end: int) returns (m: Message, order: seq<int>)
    requires IsRun(cfg, run) && x in After(cfg, run).replicas && v in After(cfg, run).replicas && x != v
    requires Before(After(cfg, run), end) && i in VotedSlots(After(cfg, run).replicas[v])
    ensures m.Vote? && i in m.l && m.l[i].id == v && SentToward(After(cfg, run), m, x)
    ensures IsVote(m, v, m.l.Keys) && VoteOrder(m.l, order) && i in order && forall j :: j in m.l ==> j < end
  {
    m :| m in After(cfg, run).replicas[v].sent && m.Vote? && i in m.l;
    RunGood(cfg, run, v);
    assert MessageOk(ContextOf(After(cfg, run), v), v, m);
    order := Enumerate(m.l.Keys);
    OrderOk(m, v, m.l.Keys, order);
    assert i in Elems(order);
  }

  lemma HeedNext(cfg: Config, run: seq<Action>, x: ID, v: ID, i: int, end: int) returns (more: seq<Action>)
    requires IsRun(cfg, run) && x in After(cfg, run).replicas && v in After(cfg, run).replicas && x != v
    requires Before(After(cfg, run), end) && i in VotedSlots(After(cfg, run).replicas[v])
    requires Tallying(After(cfg, run).replicas[x], cfg, x, end)
    ensures IsRun(cfg, more) && After(cfg, more).requests == After(cfg, run).requests
    ensures Onward(After(cfg, run), After(cfg, more), {x})
    ensures var s, t := After(cfg, run).replicas[x], After(cfg, more).replicas[x];
            Tallying(t, cfg, x, end) && HeedsMore(s, t) && Heeded(t, v, i)
  {
    var m, order := VoteFor(cfg, run, x, v, i, end);
    CountsVote(After(cfg, run).replicas[x], cfg, x, end, m.l, order);
    more := DeliverTo(cfg, run, x, v, m.l.Keys, m, order);
  }

  /** x has counted the votes of these replicas for these slots. */
  ghost predicate HeedsAll(s: State, voters: set<ID>, slots: set<int>) {
    forall v, i :: v in voters && i in slots ==> Heeded(s, v, i)
  }

  lemma {:induction false} HeedSlots(cfg: Config, run: seq<Action>, x: ID, v: ID, slots: set<int>, end: int)
    returns (more: seq<Action>)
    requires IsRun(cfg, run) && x in After(cfg, run).replicas && v in After(cfg, run).replicas && x != v
    requires Before(After(cfg, run), end) && slots <= VotedSlots(After(cfg, run).replicas[v])
    requires Tallying(After(cfg, run).replicas[x], cfg, x, end)
    ensures IsRun(cfg, more) && After(cfg, more).requests == After(cfg, run).requests
    ensures Onward(After(cfg, run), After(cfg, more), {x})
    ensures var s, t := After(cfg, run).replicas[x], After(cfg, more).replicas[x];
            Tallying(t, cfg, x, end) && HeedsMore(s, t) && HeedsAll(t, {v}, slots)
    decreases |slots|
  {
    if |slots| == 0 {
      more := run;
    } else {
      var i := Any(slots);
      assert |slots - {i}| < |slots|;
      var less := HeedSlots(cfg, run, x, v, slots - {i}, end);
      assert After(cfg, less).replicas[v] == After(cfg, run).replicas[v];
      more := HeedNext(cfg, less, x, v, i, end);
      OnwardTwice(After(cfg, run), After(cfg, less), After(cfg, more), {x}, {x}, {x});
      HeedsOneMore(After(cfg, less).replicas[x], After(cfg, more).replicas[x], v, slots, i);
    }
  }

  lemma HeedsOneMore(s: State, t: State, v: ID, slots: set<int>, i: int)
    requires HeedsMore(s, t) && HeedsAll(s, {v}, slots - {i}) && Heeded(t, v, i)
    ensures HeedsAll(t, {v}, slots)
  {
    forall w, j | w in {v} && j in slots ensures Heeded(t, w, j) {
      assert j == i || j in slots - {i};
    }
  }

  ghost predicate AllVotedFor(c: System, voters: set<ID>, slots: set<int>) {
    forall v :: v in voters ==> v in c.replicas && slots <= VotedSlots(c.replicas[v])
  }

  lemma StillVotedFor(c: System, d: System, ids: set<ID>, voters: set<ID>, slots: set<int>)
    requires AllVotedFor(c, voters, slots) && Onward(c, d, ids)
    ensures AllVotedFor(d, voters, slots)
  {
    forall v | v in voters ensures v in d.replicas && slots <= VotedSlots(d.replicas[v]) {
      SentPrefix(c.replicas[v], d.replicas[v]);
    }
  }

  lemma {:induction false} HeedVoters(cfg: Config, run: seq<Action>, x: ID, voters: set<ID>, slots: set<int>,
                                      end: int) returns (more: seq<Action>)
    requires IsRun(cfg, run) && x in After(cfg, run).replicas && x !in voters
    requires Before(After(cfg, run), end) && AllVotedFor(After(cfg, run), voters, slots)
    requires Tallying(After(cfg, run).replicas[x], cfg, x, end)
    ensures IsRun(cfg, more) && After(cfg, more).requests == After(cfg, run).requests
    ensures Onward(After(cfg, run), After(cfg, more), {x})
    ensures var s, t := After(cfg, run).replicas[x], After(cfg, more).replicas[x];
            Tallying(t, cfg, x, end) && HeedsMore(s, t) && HeedsAll(t, voters, slots)
    decreases |voters|
  {
    if |voters| == 0 {
      more := run;
    } else {
      var v := Any(voters);
      OneOut(voters, v);
      var less := HeedVoters(cfg, run, x, voters - {v}, slots, end);
      StillVotedFor(After(cfg, run), After(cfg, less), {x}, voters, slots);
      more := HeedSlots(cfg, less, x, v, slots, end);
      OnwardTwice(After(cfg, run), After(cfg, less), After(cfg, more), {x}, {x}, {x});
      HeedsBoth(After(cfg, less).replicas[x], After(cfg, more).replicas[x], voters, v, slots);
    }
  }

  lemma HeedsBoth(s: State, t: State, voters: set<ID>, v: ID, slots: set<int>)
    requires HeedsMore(s, t) && HeedsAll(s, voters - {v}, slots) && HeedsAll(t, {v}, slots)
    ensures HeedsAll(t, voters, slots)
  {
    forall w, i | w in voters && i in slots ensures Heeded(t, w, i) {
      assert w in {v} || w in voters - {v};
    }
  }

  /** x counts the votes of all others and executes every slot. */
  lemma ExecuteAll(cfg: Config, run: seq<Action>, x: ID, k: nat, n: nat) returns (more: seq<Action>)
    requires IsRun(cfg, run) && x in cfg.ids && x in After(cfg, run).replicas && cfg.N() >= 2
    requires Before(After(cfg, run), k + n) && AllVotedFor(After(cfg, run), cfg.ids, Span(k, n))
    requires Voted(After(cfg, run).replicas[x], cfg, x, k, Span(k, n))
    ensures IsRun(cfg, more) && After(cfg, more).requests == After(cfg, run).requests
    ensures Onward(After(cfg, run), After(cfg, more), {x}) && Resting(After(cfg, more).replicas[x], cfg, x, k + n)
  {
    var voters := Enough(cfg, x);
    VotedCounts(After(cfg, run).replicas[x], cfg, x, k, Span(k, n), k + n);
    more := HeedVoters(cfg, run, x, voters, Span(k, n), k + n);
    AllExecuted(After(cfg, more).replicas[x], cfg, x, k + n, voters);
  }

  /** These replicas have still to count votes, the others have executed everything. */
  ghost predicate Executing(c: System, cfg: Config, k: nat, n: nat, rest: set<ID>) {
    && c.replicas.Keys == cfg.ids && Before(c, k + n) && AllVotedFor(c, cfg.ids, Span(k, n))
    && Stages(c, cfg, k, n, rest)
  }

  ghost predicate Stages(c: System, cfg: Config, k: nat, n: nat, rest: set<ID>) {
    forall x :: x in c.replicas ==> StageOf(c.replicas[x], cfg, x, k, n, x in rest)
  }

  ghost predicate StageOf(s: State, cfg: Config, x: ID, k: nat, n: nat, before: bool) {
    if before then Voted(s, cfg, x, k, Span(k, n)) else Resting(s, cfg, x, k + n)
  }

  lemma ExecutingNext(c: System, d: System, cfg: Config, k: nat, n: nat, rest: set<ID>, x: ID)
    requires Executing(c, cfg, k, n, rest) && Onward(c, d, {x}) && x in c.replicas && d.requests == c.requests
    requires Resting(d.replicas[x], cfg, x, k + n)
    ensures Executing(d, cfg, k, n, rest - {x})
  {
    StillVotedFor(c, d, {x}, cfg.ids, Span(k, n));
    StagesNext(c, d, cfg, k, n, rest, x);
  }

  lemma StagesNext(c: System, d: System, cfg: Config, k: nat, n: nat, rest: set<ID>, x: ID)
    requires Stages(c, cfg, k, n, rest) && Onward(c, d, {x}) && x in c.replicas
    requires Resting(d.replicas[x], cfg, x, k + n)
    ensures Stages(d, cfg, k, n, rest - {x})
  {
    forall y | y in d.replicas ensures StageOf(d.replicas[y], cfg, y, k, n, y in rest - {x}) {
      if y != x {
        assert d.replicas[y] == c.replicas[y] && StageOf(c.replicas[y], cfg, y, k, n, y in rest);
      }
    }
  }

  lemma BeforeEnd(c: System, plan: int -> Command, end: nat)
    requires Asked(c, plan, end) && Numbered(plan)
    ensures Before(c, end)
  {}

  lemma HeardStages(c: System, cfg: Config, b: Batch)
    requires AllHeard(c, cfg, b) && c.replicas.Keys == cfg.ids
    ensures AllVotedFor(c, cfg.ids, Span(b.k, b.n)) && Stages(c, cfg, b.k, b.n, cfg.ids)
  {}

  lemma {:induction false} ExecuteEach(cfg: Config, run: seq<Action>, k: nat, n: nat, rest: set<ID>)
    returns (more: seq<Action>)
    requires IsRun(cfg, run) && Executing(After(cfg, run), cfg, k, n, rest) && rest <= cfg.ids && cfg.N() >= 2
    ensures IsRun(cfg, more) && After(cfg, more).requests == After(cfg, run).requests
    ensures AllResting(After(cfg, more), cfg, k + n)
    decreases |rest|
  {
    if |rest| == 0 {
      more := run;
      assert rest == {};
    } else {
      var x := Any(rest);
      OneOut(rest, x);
      var one := ExecuteAll(cfg, run, x, k, n);
      ExecutingNext(After(cfg, run), After(cfg, one), cfg, k, n, rest, x);
      more := ExecuteEach(cfg, one, k, n, rest - {x});
    }
  }

  // ---------- Round after round ----------

  lemma HearRound(cfg: Config, run: seq<Action>, plan: int -> Command, b: Batch) returns (more: seq<Action>)
    requires IsRun(cfg, run) && Opened(After(cfg, run), cfg, b) && Asked(After(cfg, run), plan, b.k + b.n)
    requires b.For(cfg) && Numbered(plan)
    ensures IsRun(cfg, more) && After(cfg, more).requests == After(cfg, run).requests
    ensures Executing(After(cfg, more), cfg, b.k, b.n, cfg.ids)
  {
    OpenedHears(After(cfg, run), cfg, b);
    more := HearEach(cfg, run, b, cfg.ids);
    BeforeEnd(After(cfg, more), plan, b.k + b.n);
    NobodyLeft(After(cfg, more), cfg, b);
    HeardStages(After(cfg, more), cfg, b);
  }

  /** Requests for a batch of slots are made, heard, voted for, executed everywhere. */
  lemma Round(cfg: Config, run: seq<Action>, plan: int -> Command, b: Batch) returns (more: seq<Action>)
    requires IsRun(cfg, run) && AllResting(After(cfg, run), cfg, b.k) && Asked(After(cfg, run), plan, b.k)
    requires b.For(cfg) && Numbered(plan) && cfg.N() >= 2
    ensures IsRun(cfg, more) && Asked(After(cfg, more), plan, b.k + b.n) && AllResting(After(cfg, more), cfg, b.k + b.n)
  {
    var one := AskRound(cfg, run, plan, b);
    var two := HearRound(cfg, one, plan, b);
    more := ExecuteEach(cfg, two, b.k, b.n, cfg.ids);
  }

  /** b rounds. */
  lemma {:induction false} Rounds(cfg: Config, p: ID, q: ID, plan: int -> Command, b: nat, k: nat)
    returns (run: seq<Action>)
    requires p in cfg.ids && q in cfg.ids && p != q && cfg.N() >= 2 && Numbered(plan) && k == b * Width(cfg)
    ensures IsRun(cfg, run) && Asked(After(cfg, run), plan, k) && AllResting(After(cfg, run), cfg, k)
  {
    if b == 0 {
      run := [];
    } else {
      OneRowMore(b - 1, Width(cfg));
      var less := Rounds(cfg, p, q, plan, b - 1, k - Width(cfg));
      run := Round(cfg, less, plan, Batch(p, q, k - Width(cfg), Width(cfg)));
    }
  }

  /** Each of the first k commands has been executed by every replica, in order, and answered where it was asked for. */
  ghost predicate Served(c: System, plan: int -> Command, k: nat) {
    && Asked(c, plan, k) && OncePerSlot(c.requests)
    && (forall x :: x in c.replicas ==> c.replicas[x].executed == seq(k, i => plan(i)))
    && (forall r :: r in c.requests ==> r.to in c.replicas && Answered(c.replicas[r.to], r.command))
  }

  lemma RestingServed(cfg: Config, run: seq<Action>, plan: int -> Command, k: nat)
    requires IsRun(cfg, run) && AllResting(After(cfg, run), cfg, k) && Asked(After(cfg, run), plan, k) && Numbered(plan)
    ensures Served(After(cfg, run), plan, k)
  {
    var c := After(cfg, run);
    assert OncePerSlot(c.requests);
    forall x | x in c.replicas ensures c.replicas[x].executed == seq(k, i => plan(i)) {
      RunGood(cfg, run, x);
      forall i | 0 <= i < k ensures c.replicas[x].executed[i] == plan(i) {
        ExecutedSlotsAreCertified(cfg, run, x, i);
        var j :| 0 <= j < k && c.requests[j].command == c.replicas[x].executed[i];
      }
    }
    forall r | r in c.requests ensures r.to in c.replicas && Answered(c.replicas[r.to], r.command) {
      var i :| 0 <= i < k && c.requests[i] == r;
      RequestedAt(cfg, run, i);
      AnsweredExactlyWhenExecuted(cfg, run, i, r.to);
    }
  }

  /** A request was given to a replica. */
  lemma {:induction false} RequestedAt(cfg: Config, run: seq<Action>, i: nat)
    requires IsRun(cfg, run) && i < |After(cfg, run).requests|
    ensures After(cfg, run).requests[i].to in After(cfg, run).replicas
    decreases |run|
  {
    if run != [] {
      LastStep(cfg, run);
      var front, last := run[..|run| - 1], run[|run| - 1];
      OneStep(After(cfg, front), last);
      if i < |After(cfg, front).requests| {
        RequestedAt(cfg, front, i);
      }
    }
  }

  /**
   In every cluster of two replicas or more, of any batch size, and for commands of any number and kind: some run
   has them executed by every replica, in the order of their slots, and answered.
   */
  lemma ServingRun(cfg: Config, plan: int -> Command, b: nat) returns (run: seq<Action>)
    requires cfg.N() >= 2 && Numbered(plan)
    ensures IsRun(cfg, run) && Served(After(cfg, run), plan, b * Width(cfg))
  {
    var p := Any(cfg.ids);
    assert |cfg.ids - {p}| == cfg.N() - 1;
    var q := Any(cfg.ids - {p});
    run := Rounds(cfg, p, q, plan, b, b * Width(cfg));
    RestingServed(cfg, run, plan, b * Width(cfg));
  }

  ghost predicate AnsweredRun(cfg: Config, run: seq<Action>, id: ID, c: Command) {
    IsRun(cfg, run) && id in After(cfg, run).replicas && Answered(After(cfg, run).replicas[id], c)
  }

  lemma AnsweringNeeds(cfg: Config, run: seq<Action>, id: ID, c: Command)
    requires AnsweredRun(cfg, run, id, c)
    ensures cfg.N() >= 2
  {
    var s := After(cfg, run).replicas[id];
    var i :| 0 <= i < |s.replies| && s.replies[i].command == c;
    RepliesFollowTheLog(cfg, run, id, i);
    RunGood(cfg, run, id);
    if cfg.N() < 2 {
      LonelyNeverRuns(cfg, run, id);
      assert false;
    }
  }

  /** Some request is answered in some run exactly when there are two replicas or more. */
  lemma AnsweringExactly(cfg: Config)
    ensures (exists run, id, c :: AnsweredRun(cfg, run, id, c)) <==> cfg.N() >= 2
  {
    if cfg.N() >= 2 {
      var plan := (i: int) => Command(0, Nil, ID(""), 0, i);
      var run := ServingRun(cfg, plan, 1);
      var r := After(cfg, run).requests[0];
      assert r in After(cfg, run).requests;
      assert AnsweredRun(cfg, run, r.to, r.command);
    } else if run, id, c :| AnsweredRun(cfg, run, id, c) {
      AnsweringNeeds(cfg, run, id, c);
    }
  }
}
