/**
 The rate limiter of rate.go. Times and durations are integers in nanoseconds; the clock is a
 parameter. A grant is the moment that Wait records in last, the earliest at which it returns.
 */
module Limiters {
  import opened Options

  const SECOND := 1_000_000_000

  /** Go's integer division, which truncates towards zero. */
  function Divide(a: int, b: int): int
    requires b != 0
  {
    if a >= 0 then (if b > 0 then a / b else -(a / -b))
    else if b > 0 then -(-a / b) else -a / -b
  }

  function Magnitude(a: int): nat { if a < 0 then -a else a }

  /** q is the quotient of d by n towards zero, signs aside. */
  ghost predicate Fits(q: int, d: nat, n: int) {
    var m, k := Magnitude(q), Magnitude(n);
    m * k <= d < m * k + k
  }

  lemma DivideMeans(a: int, b: int)
    requires b != 0
    ensures Fits(Divide(a, b), Magnitude(a), b)
    ensures Divide(a, b) == 0 || (Divide(a, b) > 0 <==> (a > 0 <==> b > 0))
  {
    QuotientFits(Magnitude(a), Magnitude(b));
    QuotientSign(Magnitude(a), Magnitude(b));
  }

  lemma QuotientSign(d: nat, k: nat)
    requires k > 0
    ensures d / k >= 0
  {}

  function Interval(rate: int): int
    requires rate != 0
  {
    Divide(SECOND, rate)
  }

  function Slack(rate: int): int
    requires rate != 0
  {
    Divide(-10 * SECOND, rate)
  }

  /** What a rate of operations a second comes to: the interval between them, and ten of those as slack. */
  lemma RateMeans(rate: int)
    requires rate != 0
    ensures Fits(Interval(rate), 1_000_000_000, rate) && Fits(Slack(rate), 10_000_000_000, rate)
    ensures if rate > 0 then Slack(rate) <= 0 <= Interval(rate) else Interval(rate) <= 0 <= Slack(rate)
  {
    DivideMeans(SECOND, rate);
    DivideMeans(-10 * SECOND, rate);
  }

  /** last is None until the first call: Go's zero time. */
  datatype State = State(last: Option<int>, sleep: int)

  /** How long a call at time now has to sleep after an earlier call: the debt, never below the slack. */
  function Debt(interval: int, slack: int, s: State, now: int): int
    requires s.last.Some?
  {
    var d := s.sleep + (interval - (now - s.last.value));
    if d < slack then slack else d
  }

  function Step(interval: int, slack: int, s: State, now: int): State {
    if s.last.None? then
      State(Some(now), s.sleep)
    else
      var d := Debt(interval, slack, s, now);
      if d > 0 then State(Some(now + d), 0) else State(Some(now), d)
  }

  class Limiter {
    var last: Option<int>
    var sleep: int
    const interval: int
    const slack: int

    ghost function View(): State
      reads this
    {
      State(last, sleep)
    }

    constructor (interval: int, slack: int)
      ensures this.interval == interval && this.slack == slack && View() == State(None, 0)
    {
      this.interval, this.slack := interval, slack;
      last, sleep := None, 0;
    }

    /** No limiter for a rate of zero: there Go panics on the division. */
    static method NewLimiter(rate: int) returns (l: Limiter?)
      ensures l == null <==> rate == 0
      ensures l != null ==> fresh(l) && l.View() == State(None, 0)
                            && l.interval == Interval(rate) && l.slack == Slack(rate)
      ensures l != null ==> Fits(l.interval, 1_000_000_000, rate) && Fits(l.slack, 10_000_000_000, rate)
    {
      if rate == 0 {
        return null;
      }
      RateMeans(rate);
      l := new Limiter(Interval(rate), Slack(rate));
    }

    /** now is the time of the call; slept is how long it blocks. */
    method Wait(now: int) returns (slept: int)
      modifies this
      ensures View() == Step(interval, slack, old(View()), now)
      ensures slept >= 0 && last == Some(now + slept)
    {
      if last.None? {
        last := Some(now);
        return 0;
      }
      sleep := sleep + (interval - (now - last.value));
      if sleep < slack {
        sleep := slack;
      }
      slept := 0;
      if sleep > 0 {
        slept := sleep;
        last := Some(now + sleep);
        sleep := 0;
      } else {
        last := Some(now);
      }
    }
  }

  // ---------- Runs ----------

  /** The state after calls at these times, in this order, on a new limiter. */
  function Run(interval: int, slack: int, nows: seq<int>): (s: State)
    ensures s.last.Some? <==> nows != []
  {
    if nows == [] then State(None, 0)
    else Step(interval, slack, Run(interval, slack, nows[..|nows| - 1]), nows[|nows| - 1])
  }

  /** The grant of call i. */
  function Grant(interval: int, slack: int, nows: seq<int>, i: nat): int
    requires i < |nows|
  {
    Run(interval, slack, nows[..i + 1]).last.value
  }

  lemma RunStep(interval: int, slack: int, nows: seq<int>, i: nat)
    requires i < |nows|
    ensures Run(interval, slack, nows[..i + 1]) == Step(interval, slack, Run(interval, slack, nows[..i]), nows[i])
  {
    assert nows[..i + 1][..i] == nows[..i];
  }

  lemma {:induction false} SleepBounds(interval: int, slack: int, nows: seq<int>)
    requires slack <= 0
    ensures slack <= Run(interval, slack, nows).sleep <= 0
  {
    if nows != [] {
      SleepBounds(interval, slack, nows[..|nows| - 1]);
    }
  }

  /** What telescopes: last plus the unspent slack rises by at least an interval with every call. */
  lemma {:induction false} CreditRises(interval: int, slack: int, nows: seq<int>, i: nat, j: nat)
    requires slack <= 0 && i <= j < |nows|
    ensures var a, b := Run(interval, slack, nows[..i + 1]), Run(interval, slack, nows[..j + 1]);
            b.last.value + b.sleep >= a.last.value + a.sleep + (j - i) * interval
    decreases j
  {
    if i < j {
      CreditRises(interval, slack, nows, i, j - 1);
      RunStep(interval, slack, nows, j);
      assert (j - i) * interval == (j - 1 - i) * interval + interval;
    }
  }

  /**
   Whatever the clock does: two grants that are k calls apart are at least k intervals apart, less the
   slack (a negative duration).
   */
  lemma GrantsAreSpaced(interval: int, slack: int, nows: seq<int>, i: nat, j: nat)
    requires slack <= 0 && i <= j < |nows|
    ensures Grant(interval, slack, nows, j) - Grant(interval, slack, nows, i) >= (j - i) * interval + slack
  {
    CreditRises(interval, slack, nows, i, j);
    SleepBounds(interval, slack, nows[..i + 1]);
    SleepBounds(interval, slack, nows[..j + 1]);
  }

  /** No call is made before the one before it has been granted: Wait holds the lock while it sleeps. */
  ghost predicate InTurn(interval: int, slack: int, nows: seq<int>) {
    forall i: nat, j: nat :: j == i + 1 && j < |nows| ==> Grant(interval, slack, nows, i) <= nows[j]
  }

  ghost predicate Spaced(interval: int, slack: int, nows: seq<int>, i: nat, j: nat)
    requires i < j < |nows|
  {
    Grant(interval, slack, nows, j) - Grant(interval, slack, nows, i) >= (j - i) * interval + slack
  }

  /** Two calls on a new limiter. */
  lemma TwoCalls(interval: int, slack: int, t: int, u: int)
    ensures Run(interval, slack, [t, u]) == Step(interval, slack, State(Some(t), 0), u)
    ensures Grant(interval, slack, [t, u], 0) == t
  {
    FirstCall(interval, slack, t);
    assert [t, u][..1] == [t] && [t, u][..2] == [t, u];
  }

  /** Under every clock, one that runs backwards included, the spacing takes a slack that is not positive. */
  lemma SpacedExactly(interval: int, slack: int)
    ensures (forall nows, i: nat, j: nat | i < j < |nows| :: Spaced(interval, slack, nows, i, j)) <==> slack <= 0
  {
    if slack <= 0 {
      forall nows, i: nat, j: nat | i < j < |nows|
        ensures Spaced(interval, slack, nows, i, j)
      {
        GrantsAreSpaced(interval, slack, nows, i, j);
      }
    } else {
      var nows := [0, interval - slack];
      TwoCalls(interval, slack, 0, interval - slack);
      assert nows[..2] == nows;
      assert !Spaced(interval, slack, nows, 0, 1);
    }
  }

  /** With a positive slack a call is granted no earlier than the slack after the call before it. */
  lemma {:induction false} PositiveSlack(interval: int, slack: int, nows: seq<int>, i: nat, j: nat)
    requires interval <= 0 < slack && InTurn(interval, slack, nows) && i < j < |nows|
    ensures Grant(interval, slack, nows, j) >= Grant(interval, slack, nows, i) + slack
    decreases j
  {
    RunStep(interval, slack, nows, j);
    assert nows[..j] == nows[..j - 1 + 1];
    assert Grant(interval, slack, nows, j - 1) <= nows[j];
    if i < j - 1 {
      PositiveSlack(interval, slack, nows, i, j - 1);
    }
  }

  /**
   When calls are made in turn it fails only if both are positive, which no rate gives: interval and slack
   have opposite signs.
   */
  lemma SpacedInTurnExactly(interval: int, slack: int)
    ensures (forall nows, i: nat, j: nat | InTurn(interval, slack, nows) && i < j < |nows| ::
               Spaced(interval, slack, nows, i, j))
            <==> slack <= 0 || interval <= 0
  {
    if slack <= 0 || interval <= 0 {
      forall nows, i: nat, j: nat | InTurn(interval, slack, nows) && i < j < |nows|
        ensures Spaced(interval, slack, nows, i, j)
      {
        if slack <= 0 {
          GrantsAreSpaced(interval, slack, nows, i, j);
        } else {
          PositiveSlack(interval, slack, nows, i, j);
          assert (j - i) * interval <= 0;
        }
      }
    } else {
      var nows := [0, 0];
      TwoCalls(interval, slack, 0, 0);
      assert nows[..2] == nows;
      assert InTurn(interval, slack, nows);
      assert !Spaced(interval, slack, nows, 0, 1);
    }
  }

  lemma OppositeSigns(rate: int)
    requires rate != 0
    ensures Slack(rate) <= 0 || Interval(rate) <= 0
    ensures rate > 0 ==> Slack(rate) <= 0 <= Interval(rate)
    ensures Interval(rate) > 0 <==> 0 < rate <= SECOND
  {
    if rate > 0 {
      assert 10 * SECOND / rate >= 0;
    }
  }

  /** Hence a bound on the grants in any window. */
  lemma GrantsInWindow(interval: int, slack: int, nows: seq<int>, i: nat, j: nat, window: int)
    requires interval > 0 && slack <= 0 && i <= j < |nows|
    requires Grant(interval, slack, nows, j) - Grant(interval, slack, nows, i) <= window
    ensures j - i <= (window - slack) / interval
  {
    GrantsAreSpaced(interval, slack, nows, i, j);
    QuotientBound(j - i, interval, window - slack);
  }

  lemma NextMultiple(a: int, b: int, d: int)
    requires a < b && d >= 0
    ensures a * d + d <= b * d
  {
    assert b * d == a * d + d + (b - a - 1) * d;
  }

  lemma QuotientFits(w: int, d: int)
    requires d > 0
    ensures (w / d) * d <= w < (w / d) * d + d
  {}

  lemma QuotientBound(k: int, d: int, w: int)
    requires d > 0 && k * d <= w
    ensures k <= w / d
  {
    assert w < (w / d) * d + d;
    if k > w / d {
      NextMultiple(w / d, k, d);
      assert false;
    }
  }

  // ---------- The bound is reached ----------

  function Largest(a: int, b: int): int { if a > b then a else b }

  /** A call at 0, an idle time that saves up the whole slack, and then n calls as early as their turn allows. */
  function Eager(interval: int, slack: int, n: nat): (nows: seq<int>)
    ensures |nows| == n + 1
  {
    var t := interval - slack;
    [0] + seq(n, k requires 0 <= k < n => if k == 0 then t else t + Largest(0, slack + (k - 1) * interval))
  }

  /** One more call that comes in its turn, as early as it may, when a is what is left to spend. */
  lemma EagerStep(interval: int, slack: int, t: int, a: int)
    requires interval > 0 && slack <= 0 && slack <= a
    ensures Step(interval, slack, State(Some(t + Largest(0, a)), if a > 0 then 0 else a), t + Largest(0, a))
         == State(Some(t + Largest(0, a + interval)), if a + interval > 0 then 0 else a + interval)
  {}

  lemma {:induction false} EagerGrants(interval: int, slack: int, n: nat, k: nat)
    requires interval > 0 && slack <= 0 && k < n
    ensures Run(interval, slack, Eager(interval, slack, n)[..k + 2])
         == State(Some(interval - slack + Largest(0, slack + k * interval)),
                  if slack + k * interval > 0 then 0 else slack + k * interval)
  {
    var nows := Eager(interval, slack, n);
    RunStep(interval, slack, nows, k + 1);
    if k == 0 {
      FirstCall(interval, slack, 0);
      assert nows[..1] == [0];
    } else {
      EagerGrants(interval, slack, n, k - 1);
      var a := slack + (k - 1) * interval;
      assert a >= slack && slack + k * interval == a + interval;
      assert nows[k + 1] == interval - slack + Largest(0, a);
      EagerStep(interval, slack, interval - slack, a);
    }
  }

  lemma EagerInTurn(interval: int, slack: int, n: nat)
    requires interval > 0 && slack <= 0
    ensures InTurn(interval, slack, Eager(interval, slack, n))
  {
    var nows := Eager(interval, slack, n);
    forall i: nat, j: nat | j == i + 1 && j < |nows|
      ensures Grant(interval, slack, nows, i) <= nows[j]
    {
      if i == 0 {
        FirstCall(interval, slack, 0);
        assert nows[..1] == [0];
      } else {
        EagerGrants(interval, slack, n, i - 1);
      }
    }
  }

  /** Call j comes within the window of call i when at most k calls may. */
  ghost predicate AtMost(interval: int, slack: int, window: int, k: int) {
    forall nows, i: nat, j: nat | InTurn(interval, slack, nows) && i <= j < |nows| ::
      WithinWindow(interval, slack, nows, i, j, window) ==> j - i <= k
  }

  ghost predicate WithinWindow(interval: int, slack: int, nows: seq<int>, i: nat, j: nat, window: int)
    requires i <= j < |nows|
  {
    Grant(interval, slack, nows, j) - Grant(interval, slack, nows, i) <= window
  }

  /** The bound is met by calls made in turn: it cannot be lowered for any interval, slack and window. */
  lemma WindowIsFilled(interval: int, slack: int, window: nat) returns (nows: seq<int>, i: nat, j: nat)
    requires interval > 0 && slack <= 0
    ensures InTurn(interval, slack, nows) && i <= j < |nows| && j - i == (window - slack) / interval
    ensures WithinWindow(interval, slack, nows, i, j, window)
  {
    var k := (window - slack) / interval;
    QuotientFits(window - slack, interval);
    nows, i, j := Eager(interval, slack, k + 1), 1, k + 1;
    EagerInTurn(interval, slack, k + 1);
    EagerGrants(interval, slack, k + 1, 0);
    EagerGrants(interval, slack, k + 1, k);
  }

  lemma GrantsInWindowExactly(interval: int, slack: int, window: nat, k: int)
    requires interval > 0 && slack <= 0
    ensures AtMost(interval, slack, window, k) <==> (window - slack) / interval <= k
  {
    if (window - slack) / interval <= k {
      forall nows, i: nat, j: nat | InTurn(interval, slack, nows) && i <= j < |nows|
        ensures WithinWindow(interval, slack, nows, i, j, window) ==> j - i <= k
      {
        if WithinWindow(interval, slack, nows, i, j, window) {
          GrantsInWindow(interval, slack, nows, i, j, window);
        }
      }
    } else {
      var nows, i, j := WindowIsFilled(interval, slack, window);
    }
  }

  /**
   The rate, and the ten operations that idle time may have saved up: that this bounds the further grants
   within a second of any grant is a matter of how the two divisions truncate.
   */
  lemma GrantsPerSecond(rate: nat)
    requires 0 < rate <= SECOND
    ensures AtMost(Interval(rate), Slack(rate), SECOND, rate + 10)
       <==> (SECOND - Slack(rate)) / Interval(rate) <= rate + 10
  {
    OppositeSigns(rate);
    GrantsInWindowExactly(Interval(rate), Slack(rate), SECOND, rate + 10);
  }

  /** It does for a rate that divides a second, and does not for 50001. */
  lemma RateDivides(rate: nat)
    requires rate > 0 && SECOND % rate == 0
    ensures (SECOND - Slack(rate)) / Interval(rate) == rate + 10
  {
    var q := SECOND / rate;
    assert q * rate == SECOND;
    assert q > 0;
    assert (10 * q) * rate == 10 * SECOND;
    ExactQuotient(10 * q, rate);
    assert (rate + 10) * q == SECOND + 10 * q;
    ExactQuotient(rate + 10, q);
  }

  lemma RateDoesNotDivide()
    ensures !AtMost(Interval(50001), Slack(50001), SECOND, 50001 + 10)
  {
    assert Interval(50001) == 19999 && Slack(50001) == -199996;
    GrantsPerSecond(50001);
  }

  lemma ExactQuotient(q: int, d: int)
    requires d > 0
    ensures (q * d) / d == q
  {
    QuotientBound(q, d, q * d);
    var r := (q * d) / d;
    assert r * d <= q * d;
    if r > q {
      NextMultiple(q, r, d);
      assert false;
    }
  }

  /** One call at t0 and then n calls at t. */
  function CallsAt(t0: int, t: int, n: nat): seq<int> { [t0] + seq(n, i => t) }

  lemma {:induction false} SavedUp(d: nat, slack: int, t0: int, t: int, k: nat)
    requires k <= 10 && slack <= -10 * d && t - t0 >= 11 * d
    ensures var s := Run(d, slack, CallsAt(t0, t, k + 1));
            s.last == Some(t) && s.sleep <= (k - 10) * d
  {
    var calls := CallsAt(t0, t, k + 1);
    assert calls[..k + 1] == CallsAt(t0, t, k) && calls[k + 1] == t;
    if k == 0 {
      FirstCall(d, slack, t0);
      assert CallsAt(t0, t, 0) == [t0];
    } else {
      SavedUp(d, slack, t0, t, k - 1);
      NextMultiple(k - 11, k - 10, d);
      assert (k - 11) * d + d == (k - 10) * d;
      assert -10 * d <= (k - 10) * d <= 0;
    }
  }

  lemma TenIntervals(rate: nat)
    requires rate > 0
    ensures Slack(rate) <= -10 * Interval(rate)
  {
    var q := SECOND / rate;
    assert q * rate <= SECOND;
    assert (10 * q) * rate <= 10 * SECOND;
    QuotientBound(10 * q, rate, 10 * SECOND);
  }

  /** At every rate that limits at all, ten operations above the rate do come within a second of a grant. */
  lemma TenAboveRate(rate: nat, k: int)
    requires 0 < rate <= SECOND && AtMost(Interval(rate), Slack(rate), SECOND, k)
    ensures k >= rate + 10
  {
    OppositeSigns(rate);
    TenIntervals(rate);
    GrantsInWindowExactly(Interval(rate), Slack(rate), SECOND, k);
    assert (rate + 10) * Interval(rate) == rate * Interval(rate) + 10 * Interval(rate);
    assert rate * Interval(rate) <= SECOND;
    QuotientBound(rate + 10, Interval(rate), SECOND - Slack(rate));
  }

  lemma FirstCall(interval: int, slack: int, t: int)
    ensures Run(interval, slack, [t]) == State(Some(t), 0)
  {
    assert [t][..0] == [];
  }

  /** The ten saved operations are really let through: after a long idle time eleven calls pass at once. */
  lemma BurstPasses(rate: nat, t0: int, t: int, k: nat)
    requires rate > 0 && k <= 10
    requires t - t0 >= 11 * Interval(rate)
    ensures Grant(Interval(rate), Slack(rate), CallsAt(t0, t, 11), k + 1) == t
  {
    TenIntervals(rate);
    OppositeSigns(rate);
    SavedUp(Interval(rate), Slack(rate), t0, t, k);
    assert CallsAt(t0, t, 11)[..k + 2] == CallsAt(t0, t, k + 1);
  }

  /** Under such a clock no call sleeps longer than one interval, and grants never go back. */
  lemma SleepsAtMostOneInterval(interval: int, slack: int, nows: seq<int>, j: nat)
    requires interval >= 0 && slack <= 0 && InTurn(interval, slack, nows) && 0 < j < |nows|
    ensures 0 <= Grant(interval, slack, nows, j) - nows[j] <= interval
    ensures Grant(interval, slack, nows, j - 1) <= Grant(interval, slack, nows, j)
  {
    RunStep(interval, slack, nows, j);
    SleepBounds(interval, slack, nows[..j]);
    assert nows[..j] == nows[..j - 1 + 1];
    assert Grant(interval, slack, nows, j - 1) <= nows[j];
  }

  /** Every call comes within an interval of the grant before it. */
  ghost predicate Saturated(interval: int, slack: int, nows: seq<int>) {
    && InTurn(interval, slack, nows)
    && forall i: nat, j: nat :: j == i + 1 && j < |nows| ==> nows[j] <= Grant(interval, slack, nows, i) + interval
  }

  /** Callers that keep the limiter busy are served at exactly one call an interval. */
  lemma {:induction false} SaturatedRate(interval: int, slack: int, nows: seq<int>, j: nat)
    requires interval >= 0 && slack <= 0 && Saturated(interval, slack, nows) && j < |nows|
    ensures Grant(interval, slack, nows, j) == nows[0] + j * interval
    ensures Run(interval, slack, nows[..j + 1]).sleep == 0
  {
    RunStep(interval, slack, nows, j);
    if j == 0 {
      assert nows[..0] == [];
    } else {
      SaturatedRate(interval, slack, nows, j - 1);
      assert nows[..j] == nows[..j - 1 + 1];
      assert Grant(interval, slack, nows, j - 1) <= nows[j] <= Grant(interval, slack, nows, j - 1) + interval;
      assert j * interval == (j - 1) * interval + interval;
    }
  }

  /** No call that is made in turn ever sleeps. */
  ghost predicate NothingLimited(interval: int, slack: int) {
    forall nows, j: nat | InTurn(interval, slack, nows) && j < |nows| :: Grant(interval, slack, nows, j) == nows[j]
  }

  /** That is so exactly for the rates above a thousand million a second, which leave an interval of zero. */
  lemma NoLimit(rate: nat)
    requires rate > 0
    ensures NothingLimited(Interval(rate), Slack(rate)) <==> rate > SECOND
  {
    OppositeSigns(rate);
    if rate > SECOND {
      forall nows, j: nat | InTurn(Interval(rate), Slack(rate), nows) && j < |nows|
        ensures Grant(Interval(rate), Slack(rate), nows, j) == nows[j]
      {
        if j == 0 {
          FirstCall(Interval(rate), Slack(rate), nows[0]);
          assert nows[..1] == [nows[0]];
        } else {
          SleepsAtMostOneInterval(0, Slack(rate), nows, j);
        }
      }
    } else {
      var nows := [0, 0];
      TwoCalls(Interval(rate), Slack(rate), 0, 0);
      assert nows[..2] == nows;
      assert InTurn(Interval(rate), Slack(rate), nows);
      assert Grant(Interval(rate), Slack(rate), nows, 1) != nows[1];
    }
  }
}
