/** Two token windows: the burst budget (a power allowance over a window) and the enforced energy window.
    Energy is a real number of joules and time an integer number of nanoseconds. */
module Windows {
  import opened Basics

  datatype Bucket = Bucket(consumed: real, start: int, started: bool)

  const UNUSED := Bucket(0.0, 0, false)

  function Refilled(window: int, b: Bucket, now: int): Bucket {
    if !b.started then b.(start := now, started := true)
    else if Elapsed(now, b.start) >= window then Bucket(0.0, now, true)
    else b
  }

  function Left(capacity: real, b: Bucket): real {
    if capacity - b.consumed < 0.0 then 0.0 else capacity - b.consumed
  }

  predicate Fits(capacity: real, b: Bucket, j: real) { Left(capacity, b) + TOLERANCE >= j >= 0.0 }

  datatype Spending = Spending(bucket: Bucket, ok: bool)

  function Spent(capacity: real, window: int, b: Bucket, j: real, now: int): Spending {
    var r := Refilled(window, b, now);
    if Fits(capacity, r, j) then Spending(r.(consumed := r.consumed + j), true) else Spending(r, false)
  }

  datatype BurstLimits = BurstLimits(allowance: real, window: int, enabled: bool)

  function BurstCapacity(l: BurstLimits): real { l.allowance * (l.window as real / 1000000000.0) }

  /** Even the queries refill, so they all change the state. */
  class BurstBudget {
    var limits: BurstLimits
    var consumed: real
    var windowStart: int
    var started: bool

    function State(): Bucket
      reads this
    {
      Bucket(consumed, windowStart, started)
    }

    /** A budget that has not started is empty. */
    predicate Valid()
      reads this
    {
      !started ==> consumed == 0.0
    }

    constructor (l: BurstLimits)
      ensures limits == l && State() == UNUSED && Valid()
    {
      limits, consumed, windowStart, started := l, 0.0, 0, false;
    }

    method SetLimits(l: BurstLimits)
      modifies this
      ensures limits == l && State() == UNUSED && Valid()
    {
      limits, consumed, windowStart, started := l, 0.0, 0, false;
    }

    method RefillIfNeeded(now: int)
      requires Valid()
      modifies `consumed, `windowStart, `started
      ensures State() == old(Refilled(limits.window, State(), now)) && Valid()
    {
      if !started {
        windowStart, started := now, true;
      } else if Elapsed(now, windowStart) >= limits.window {
        windowStart := now;
        consumed := 0.0;
      }
    }

    method Available(now: int) returns (j: real)
      requires Valid()
      modifies `consumed, `windowStart, `started
      ensures State() == old(if limits.enabled then Refilled(limits.window, State(), now) else State()) && Valid()
      ensures j == if limits.enabled then Left(BurstCapacity(limits), State()) else 0.0
    {
      if !limits.enabled {
        return 0.0;
      }
      RefillIfNeeded(now);
      j := Left(BurstCapacity(limits), State());
    }

    method CanBurst(j: real, now: int) returns (ok: bool)
      requires Valid()
      modifies `consumed, `windowStart, `started
      ensures State() == old(if limits.enabled then Refilled(limits.window, State(), now) else State()) && Valid()
      ensures ok == (limits.enabled && Fits(BurstCapacity(limits), State(), j))
    {
      if !limits.enabled {
        return false;
      }
      var a := Available(now);
      ok := a + TOLERANCE >= j && j >= 0.0;
    }

    method Consume(j: real, now: int) returns (ok: bool)
      requires Valid()
      modifies `consumed, `windowStart, `started
      ensures Valid()
      ensures old(limits.enabled) ==>
                Spending(State(), ok) == old(Spent(BurstCapacity(limits), limits.window, State(), j, now))
      ensures !old(limits.enabled) ==> !ok && State() == old(State())
    {
      if !limits.enabled {
        return false;
      }
      RefillIfNeeded(now);
      ok := CanBurst(j, now);
      if ok {
        consumed := consumed + j;
      }
    }
  }

  datatype EnergyWindow = EnergyWindow(budget: real, window: int, enforce: bool)

  /** Here the queries only look: an elapsed window reads as full without being refilled. */
  class EnergyWindowAccount {
    var cfg: EnergyWindow
    var consumed: real
    var windowStart: int
    var started: bool

    function State(): Bucket
      reads this
    {
      Bucket(consumed, windowStart, started)
    }

    /** An enforced account that has never been used is empty. */
    predicate Valid()
      reads this
    {
      cfg.budget >= 0.0 && (cfg.enforce && !started ==> consumed == 0.0)
    }

    constructor (c: EnergyWindow)
      requires c.budget >= 0.0
      ensures cfg == c && State() == UNUSED && Valid()
    {
      cfg, consumed, windowStart, started := c, 0.0, 0, false;
    }

    method SetConfig(c: EnergyWindow)
      requires c.budget >= 0.0
      modifies this
      ensures cfg == c && State() == UNUSED && Valid()
    {
      cfg, consumed, windowStart, started := c, 0.0, 0, false;
    }

    method Remaining(now: int) returns (j: real)
      ensures j == if !cfg.enforce then 0.0
                   else if started && Elapsed(now, windowStart) >= cfg.window then cfg.budget
                   else Left(cfg.budget, State())
    {
      if !cfg.enforce {
        return 0.0;
      }
      if started && Elapsed(now, windowStart) >= cfg.window {
        return cfg.budget;
      }
      j := Left(cfg.budget, State());
    }

    /** On an enforced account `can_consume` predicts `consume` exactly. */
    method CanConsume(j: real, now: int) returns (ok: bool)
      requires Valid()
      ensures cfg.enforce ==> ok == Spent(cfg.budget, cfg.window, State(), j, now).ok
      ensures !cfg.enforce ==> ok == (j >= 0.0)
    {
      if !cfg.enforce {
        return j >= 0.0;
      }
      var a := Remaining(now);
      ok := a + TOLERANCE >= j && j >= 0.0;
    }

    method Consume(j: real, now: int) returns (ok: bool)
      requires Valid()
      modifies `consumed, `windowStart, `started
      ensures Valid()
      ensures cfg.enforce ==> Spending(State(), ok) == old(Spent(cfg.budget, cfg.window, State(), j, now))
      ensures !cfg.enforce ==>
                ok && State() == old(State()).(consumed := if old(consumed) + j < 0.0 then 0.0 else old(consumed) + j)
    {
      if !cfg.enforce {
        consumed := if consumed + j < 0.0 then 0.0 else consumed + j;
        return true;
      }
      if !started {
        windowStart, started := now, true;
      } else if Elapsed(now, windowStart) >= cfg.window {
        windowStart := now;
        consumed := 0.0;
      }
      ok := CanConsume(j, now);
      if ok {
        consumed := consumed + j;
      }
    }
  }

  // ---- Rate bound over whole runs -------------------------------------------------------------

  /** A query that refills, or an attempt to spend. */
  datatype Use = Ask(now: int) | Spend(joules: real, now: int)

  /** What a run has granted: all of it, how many grants, how many of those since the last refill, and
      how many windows have been refilled away. */
  datatype Tally = Tally(bucket: Bucket, granted: real, grants: nat, recent: nat, closed: nat)

  const NOTHING := Tally(UNUSED, 0.0, 0, 0, 0)

  function Asked(window: int, t: Tally, now: int): Tally {
    var r := Refilled(window, t.bucket, now);
    if t.bucket.started && Elapsed(now, t.bucket.start) >= window
    then Tally(r, t.granted, t.grants, 0, t.closed + 1)
    else t.(bucket := r)
  }

  function Used(capacity: real, window: int, t: Tally, u: Use): Tally {
    var r := Asked(window, t, u.now);
    if u.Ask? then r else
      var s := Spent(capacity, window, t.bucket, u.joules, u.now);
      if s.ok then Tally(s.bucket, t.granted + u.joules, t.grants + 1, r.recent + 1, r.closed)
      else r.(bucket := s.bucket)
  }

  function RunUses(capacity: real, window: int, run: seq<Use>, n: nat): Tally
    requires n <= |run|
  {
    if n == 0 then NOTHING
    else Used(capacity, window, RunUses(capacity, window, run, n - 1), run[n - 1])
  }

  /** Whole multiples of a thousandth, the resolution of the wire and disk formats. */
  predicate Milli(x: real) { (x * 1000.0).Floor as real == x * 1000.0 }

  predicate AllMilli(capacity: real, run: seq<Use>) {
    Milli(capacity) && forall i :: 0 <= i < |run| && run[i].Spend? ==> Milli(run[i].joules)
  }

  /** How far each grant may overshoot: nothing at all on whole thousandths. */
  function Slack(exact: bool): real { if exact then 0.0 else TOLERANCE }

  lemma MilliAdds(x: real, y: real)
    requires Milli(x) && Milli(y)
    ensures Milli(x + y)
  {
    var m, n := (x * 1000.0).Floor, (y * 1000.0).Floor;
    assert (x + y) * 1000.0 == (m + n) as real;
  }

  lemma MilliExact(x: real, y: real)
    requires Milli(x) && Milli(y) && x <= y + TOLERANCE
    ensures x <= y
  {
    var m, n := (x * 1000.0).Floor, (y * 1000.0).Floor;
    WholeApart(m, n);
    assert m as real == x * 1000.0 && n as real == y * 1000.0;
  }

  lemma WholeApart(m: int, n: int)
    ensures m > n ==> m as real >= n as real + 1.0
  {
  }

  ghost predicate Bounded(capacity: real, window: int, exact: bool, first: int, t: Tally) {
    && t.recent <= t.grants
    && (exact ==> Milli(t.bucket.consumed))
    && 0.0 <= t.bucket.consumed <= capacity + t.recent as real * Slack(exact)
    && (if t.bucket.started then
          && t.closed * window <= t.bucket.start - first
          && t.granted <= t.closed as real * capacity + t.bucket.consumed + (t.grants - t.recent) as real * Slack(exact)
        else t == NOTHING)
  }

  /** A refill closes a window that granted at most the capacity and its slack. */
  lemma RefillKeepsBound(capacity: real, window: int, exact: bool, first: int, t: Tally, now: int)
    requires window > 0 && capacity >= 0.0 && Bounded(capacity, window, exact, first, t)
    requires t.bucket.started || now == first
    ensures Bounded(capacity, window, exact, first, Asked(window, t, now))
  {
    var s, k := Slack(exact), t.closed;
    assert t.recent as real * s + (t.grants - t.recent) as real * s == t.grants as real * s;
    assert (k + 1) * window == k * window + window;
    assert (k + 1) as real * capacity == k as real * capacity + capacity;
    assert (0.0 * 1000.0).Floor == 0;
  }

  lemma GrantKeepsBound(capacity: real, window: int, exact: bool, first: int, t: Tally, j: real)
    requires t.bucket.started && Bounded(capacity, window, exact, first, t)
    requires Fits(capacity, t.bucket, j) && (exact ==> Milli(j) && Milli(capacity))
    ensures Bounded(capacity, window, exact, first,
              Tally(t.bucket.(consumed := t.bucket.consumed + j), t.granted + j, t.grants + 1, t.recent + 1, t.closed))
  {
    var c, s := t.bucket.consumed, Slack(exact);
    assert (t.recent + 1) as real * s == t.recent as real * s + s;
    if exact {
      MilliAdds(c, j);
      MilliExact(c + j, capacity);
    }
  }

  lemma {:induction false} RunBounded(capacity: real, window: int, exact: bool, run: seq<Use>, n: nat)
    requires window > 0 && capacity >= 0.0 && 0 < n <= |run| && (exact ==> AllMilli(capacity, run))
    ensures RunUses(capacity, window, run, n).bucket.started
    ensures Bounded(capacity, window, exact, run[0].now, RunUses(capacity, window, run, n))
  {
    hide Bounded, Milli, Fits;
    var t, u := RunUses(capacity, window, run, n - 1), run[n - 1];
    if n > 1 {
      RunBounded(capacity, window, exact, run, n - 1);
    } else {
      NothingBounded(capacity, window, exact, run[0].now);
    }
    RefillKeepsBound(capacity, window, exact, run[0].now, t, u.now);
    var r := Asked(window, t, u.now);
    if u.Spend? && Fits(capacity, r.bucket, u.joules) {
      GrantKeepsBound(capacity, window, exact, run[0].now, r, u.joules);
    }
  }

  lemma NothingBounded(capacity: real, window: int, exact: bool, first: int)
    requires capacity >= 0.0
    ensures Bounded(capacity, window, exact, first, NOTHING)
  {
    assert (0.0 * 1000.0).Floor == 0;
    assert 0 as real * Slack(exact) == 0.0;
  }

  lemma {:induction false} StartIsSomeTime(capacity: real, window: int, run: seq<Use>, n: nat, last: int)
    requires 0 < n <= |run| && forall i :: 0 <= i < n ==> run[i].now <= last
    ensures RunUses(capacity, window, run, n).bucket.started && RunUses(capacity, window, run, n).bucket.start <= last
  {
    hide Fits;
    if n > 1 {
      StartIsSomeTime(capacity, window, run, n - 1, last);
    }
  }

  lemma Multiples(k: int, q: int, w: int)
    requires k > q && w > 0
    ensures k * w >= q * w + w
  {
    var d := k - q - 1;
    assert d * w >= 0;
    assert k == d + q + 1;
  }

  lemma AtMostQuotient(k: int, a: int, w: int)
    requires w > 0 && k * w <= a
    ensures k <= a / w
  {
    var q, r := a / w, a % w;
    assert a == q * w + r && r < w;
    if k > q {
      Multiples(k, q, w);
    }
  }

  lemma NoMoreThan(k: int, m: int, c: real)
    requires k <= m && c >= 0.0
    ensures k as real * c <= m as real * c
  {
    var d := (m - k) as real;
    assert d * c >= 0.0;
    assert m as real == k as real + d;
  }

  lemma TimesSum(a: int, b: int, c: real)
    ensures (a + b) as real * c == a as real * c + b as real * c
    ensures 1 as real * c == c
  {
  }

  lemma AddUp(granted: real, closed: real, begun: real, capacity: real, consumed: real, recent: real, older: real)
    requires granted <= closed + consumed + older && closed <= begun && consumed <= capacity + recent
    ensures granted <= begun + capacity + (recent + older)
  {
  }

  lemma RateFromBound(capacity: real, window: int, exact: bool, first: int, t: Tally, last: int)
    requires window > 0 && capacity >= 0.0 && t.bucket.started && t.bucket.start <= last
    requires Bounded(capacity, window, exact, first, t)
    ensures t.granted <= ((last - first) / window + 1) as real * capacity + t.grants as real * Slack(exact)
  {
    hide Slack;
    var k, m, s := t.closed, (last - first) / window, Slack(exact);
    AtMostQuotient(k, last - first, window);
    NoMoreThan(k, m, capacity);
    TimesSum(t.recent, t.grants - t.recent, s);
    TimesSum(m, 1, capacity);
    AddUp(t.granted, k as real * capacity, m as real * capacity, capacity, t.bucket.consumed,
          t.recent as real * s, (t.grants - t.recent) as real * s);
  }

  /** Over any run of queries and attempts, whatever the clock does between the first time and `last`,
      what is granted is at most one capacity for each window begun, and one tolerance for each grant;
      on whole thousandths of a joule it is at most one capacity for each window begun. */
  lemma GrantedWithinRate(capacity: real, window: int, run: seq<Use>, last: int)
    requires window > 0 && capacity >= 0.0 && run != [] && forall i :: 0 <= i < |run| ==> run[i].now <= last
    ensures var t := RunUses(capacity, window, run, |run|);
            var begun := (last - run[0].now) / window + 1;
            && t.granted <= begun as real * capacity + t.grants as real * TOLERANCE
            && (AllMilli(capacity, run) ==> t.granted <= begun as real * capacity)
  {
    hide Bounded, AllMilli, RunUses;
    var first := run[0].now;
    var t := RunUses(capacity, window, run, |run|);
    StartIsSomeTime(capacity, window, run, |run|, last);
    RunBounded(capacity, window, false, run, |run|);
    RateFromBound(capacity, window, false, first, t, last);
    if AllMilli(capacity, run) {
      RunBounded(capacity, window, true, run, |run|);
      RateFromBound(capacity, window, true, first, t, last);
    }
  }

  function SpendAtEachOpening(capacity: real, window: int, n: nat): (run: seq<Use>)
    ensures |run| == n
  {
    if n == 0 then [] else SpendAtEachOpening(capacity, window, n - 1) + [Spend(capacity, (n - 1) * window)]
  }

  lemma SpendAll(capacity: real, window: int, t: Tally, now: int)
    requires window >= 0 && capacity >= 0.0
    requires t == NOTHING || (t.bucket.started && now == t.bucket.start + window)
    ensures var u := Used(capacity, window, t, Spend(capacity, now));
            u.bucket == Bucket(capacity, now, true) && u.granted == t.granted + capacity
  {
  }

  /** The bound is attained for every number of windows: spend the whole capacity as each one opens.  With
      a window of zero, which nothing forbids, all of these are at the same instant: there is no rate
      left to bound, which is why the bound asks for a positive window. */
  lemma {:induction false} RateAttained(capacity: real, window: int, n: nat)
    requires window >= 0 && capacity >= 0.0
    ensures var t := RunUses(capacity, window, SpendAtEachOpening(capacity, window, n), n);
            t.granted == n as real * capacity &&
            if n == 0 then t == NOTHING else t.bucket == Bucket(capacity, (n - 1) * window, true)
  {
    hide Used;
    if n > 0 {
      var run, shorter := SpendAtEachOpening(capacity, window, n), SpendAtEachOpening(capacity, window, n - 1);
      RateAttained(capacity, window, n - 1);
      SamePrefixSameTally(capacity, window, run, shorter, n - 1);
      assert n > 1 ==> (n - 1) * window == (n - 2) * window + window;
      SpendAll(capacity, window, RunUses(capacity, window, run, n - 1), (n - 1) * window);
      assert n as real * capacity == (n - 1) as real * capacity + capacity;
    } else {
      assert 0 as real * capacity == 0.0;
    }
  }

  lemma {:induction false} SamePrefixSameTally(capacity: real, window: int, run: seq<Use>, other: seq<Use>, n: nat)
    requires n <= |run| && n <= |other| && forall i :: 0 <= i < n ==> run[i] == other[i]
    ensures RunUses(capacity, window, run, n) == RunUses(capacity, window, other, n)
  {
    if n > 0 {
      SamePrefixSameTally(capacity, window, run, other, n - 1);
    }
  }

  /** Off the lattice the tolerance is real energy: an empty budget grants it again and again. */
  lemma {:induction false} ToleranceAccumulates(window: int, n: nat)
    requires window > 0
    ensures var t := RunUses(0.0, window, seq(n, i => Spend(TOLERANCE, 0)), n);
            t.granted == n as real * TOLERANCE && t.bucket.start == 0 && (n > 0 ==> t.bucket.started)
                && t.bucket.consumed == t.granted
  {
    var run := seq(n, i => Spend(TOLERANCE, 0));
    if n > 0 {
      ToleranceAccumulates(window, n - 1);
      SamePrefixSameTally(0.0, window, run, seq(n - 1, i => Spend(TOLERANCE, 0)), n - 1);
    }
  }

  // ---- What a run is granted, said of the run alone -------------------------------------------

  predicate Granted(capacity: real, window: int, run: seq<Use>, i: nat)
    requires i < |run|
  {
    run[i].Spend? && RunUses(capacity, window, run, i + 1).grants > RunUses(capacity, window, run, i).grants
  }

  /** Use o opened the window in which use i falls: the first use opens one, and so does each that comes when the
      window before it is over. */
  predicate Opened(window: int, run: seq<Use>, i: nat, o: nat)
    requires i < |run|
    decreases i
  {
    if i == 0 then o == 0
    else if o == i then forall p :: 0 <= p < i && Opened(window, run, i - 1, p) ==> Over(window, run[p].now, run[i].now)
    else o < i && Opened(window, run, i - 1, o) && !Over(window, run[o].now, run[i].now)
  }

  /** A clock that went back counts as no time at all. */
  predicate Over(window: int, start: int, now: int) { now - start >= window || window <= 0 }

  /** What was granted from use o up to use i, exclusive. */
  function GrantedSince(capacity: real, window: int, run: seq<Use>, o: nat, i: nat): real
    requires i <= |run|
    decreases i
  {
    if i <= o then 0.0
    else GrantedSince(capacity, window, run, o, i - 1) + if Granted(capacity, window, run, i - 1) then run[i - 1].joules else 0.0
  }

  lemma {:induction false} BucketIsHistory(capacity: real, window: int, run: seq<Use>, n: nat) returns (o: nat)
    requires n < |run|
    ensures Opened(window, run, n, o) && forall p :: Opened(window, run, n, p) ==> p == o
    ensures RunUses(capacity, window, run, n + 1).bucket
            == Bucket(GrantedSince(capacity, window, run, o, n + 1), run[o].now, true)
    ensures Refilled(window, RunUses(capacity, window, run, n).bucket, run[n].now)
            == Bucket(GrantedSince(capacity, window, run, o, n), run[o].now, true)
    decreases n
  {
    hide Fits;
    var t := RunUses(capacity, window, run, n);
    if n == 0 {
      o := 0;
      assert GrantedSince(capacity, window, run, 0, 0) == 0.0;
    } else {
      var p := BucketIsHistory(capacity, window, run, n - 1);
      o := if Over(window, run[p].now, run[n].now) then n else p;
      assert GrantedSince(capacity, window, run, n, n) == 0.0;
    }
    GrantShows(capacity, window, t, run[n]);
  }

  lemma GrantShows(capacity: real, window: int, t: Tally, u: Use)
    ensures var after := Used(capacity, window, t, u);
            var r := Refilled(window, t.bucket, u.now);
            && (after.grants > t.grants <==> u.Spend? && Fits(capacity, r, u.joules))
            && after.bucket == if after.grants > t.grants then r.(consumed := r.consumed + u.joules) else r
  {
  }

  /** An attempt is granted exactly when it asks for no less than nothing and no more, but for the tolerance,
      than what the capacity leaves after everything granted since the current window was opened. */
  lemma GrantedExactly(capacity: real, window: int, run: seq<Use>, i: nat, o: nat)
    requires i < |run| && run[i].Spend? && Opened(window, run, i, o)
    ensures var left := capacity - GrantedSince(capacity, window, run, o, i);
            Granted(capacity, window, run, i) <==>
              0.0 <= run[i].joules <= (if left < 0.0 then 0.0 else left) + TOLERANCE
  {
    var p := BucketIsHistory(capacity, window, run, i);
    GrantShows(capacity, window, RunUses(capacity, window, run, i), run[i]);
  }

  /** The allowance is in watts and the capacity in joules: so many watts for the seconds of the window. */
  lemma CapacityInJoules(watts: real, seconds: nat, enabled: bool)
    ensures BurstCapacity(BurstLimits(watts, seconds * 1000000000, enabled)) == watts * seconds as real
  {
    assert (seconds * 1000000000) as real == seconds as real * 1000000000.0;
  }
}
