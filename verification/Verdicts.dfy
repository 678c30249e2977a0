/** What a governor answers, said of its history alone: of the samples, decisions, recoveries and resets that
    came before, not of the device state it keeps. */
module Verdicts {
  import opened Basics
  import opened Ledger
  import opened Pipeline
  import Thermal
  import Windows
  import Decisions
  import PowerWindow

  // ---- what the samples say ---------------------------------------------------------------

  /** The power of sample k is recorded: it is not negative, and none recorded before is later. */
  predicate Taken(h: seq<Event>, k: nat)
    requires k < |h|
    decreases k
  {
    && h[k].Ingest? && h[k].sample.power.Some? && h[k].sample.power.value >= 0.0
    && forall j: nat :: j < k && Taken(h, j) ==> h[j].at <= h[k].at
  }

  /** Sample k is not refused. */
  predicate Accepted(h: seq<Event>, k: nat)
    requires k < |h|
  {
    h[k].Ingest? && (h[k].sample.power.Some? ==> Taken(h, k))
  }

  /** The temperatures of the accepted samples since the last recovery. */
  function Temperatures(h: seq<Event>, i: nat): seq<real>
    requires i <= |h|
  {
    if i == 0 || h[i - 1].Recover? then []
    else if Accepted(h, i - 1) && h[i - 1].sample.temperature.Some?
    then Temperatures(h, i - 1) + [h[i - 1].sample.temperature.value]
    else Temperatures(h, i - 1)
  }

  /** The power limit that came with the last power recorded, a recovery or not. */
  function BackendLimit(h: seq<Event>, i: nat): Option<real>
    requires i <= |h|
  {
    if i == 0 then None else if Taken(h, i - 1) then h[i - 1].sample.powerLimit else BackendLimit(h, i - 1)
  }

  /** Sample k is the last one before i whose power is recorded, and none of those is later; -1 when there is none. */
  predicate LatestTaken(h: seq<Event>, i: nat, k: int)
    requires i <= |h|
  {
    && -1 <= k < i && (k >= 0 ==> Taken(h, k))
    && forall j: nat :: j < i && Taken(h, j) ==> k >= 0 && h[j].at <= h[k].at
  }

  function LastOf(ts: seq<real>): Option<real> { if ts == [] then None else Some(ts[|ts| - 1]) }

  /** The device, when there is one yet. */
  function DeviceAt(f: Fixed, h: seq<Event>, i: nat): Device
    requires i <= |h|
  {
    if After(f, h, i).dev.Some? then After(f, h, i).dev.value else NEW_DEVICE
  }

  function LastTime(w: PowerWindow.Window): Option<int> {
    if w.samples == [] then None else Some(PowerWindow.Last(w.samples).t)
  }

  lemma StepTime(w: PowerWindow.Window, s: PowerWindow.Sample)
    ensures PowerWindow.Verdict(w.samples, s) == PowerWindow.Kept <==>
              s.p >= 0.0 && (LastTime(w).None? || LastTime(w).value <= s.t)
    ensures PowerWindow.Verdict(w.samples, s) == PowerWindow.Kept ==>
              LastTime(PowerWindow.After(w, WINDOW_NS, s)) == Some(s.t)
  {
    PowerWindow.TrimKeepsLast(w.samples + [s], WINDOW_NS, s.t);
    hide PowerWindow.Trimmed;
  }

  /** One sample more. */
  lemma SampleTaken(h: seq<Event>, i: nat, k: int)
    requires i < |h| && LatestTaken(h, i, k)
    ensures Taken(h, i) <==>
              h[i].Ingest? && h[i].sample.power.Some? && h[i].sample.power.value >= 0.0 && (k < 0 || h[k].at <= h[i].at)
    ensures LatestTaken(h, i + 1, if Taken(h, i) then i else k)
  {
    TakenIs(h, i);
    hide Taken;
  }

  lemma TakenIs(h: seq<Event>, k: nat)
    requires k < |h|
    ensures Taken(h, k) <==>
              && h[k].Ingest? && h[k].sample.power.Some? && h[k].sample.power.value >= 0.0
              && forall j: nat :: j < k && Taken(h, j) ==> h[j].at <= h[k].at
  {
  }

  lemma {:induction false} WindowIsHistory(f: Fixed, h: seq<Event>, i: nat) returns (k: int)
    requires i <= |h|
    ensures LatestTaken(h, i, k)
    ensures LastTime(DeviceAt(f, h, i).window) == if k < 0 then None else Some(h[k].at)
  {
    if i == 0 {
      k := -1;
    } else {
      k := WindowIsHistory(f, h, i - 1);
      var d, e := DeviceAt(f, h, i - 1), h[i - 1];
      SampleTaken(h, i - 1, k);
      if e.Ingest? && e.sample.power.Some? {
        StepTime(d.window, PowerWindow.Sample(e.at, e.sample.power.value));
      }
      hide LatestTaken, LastTime, PowerWindow.After, PowerWindow.Verdict, Taken, Thermal.Observed, InputFor;
      if Taken(h, i - 1) {
        k := i - 1;
      }
    }
  }

  lemma TrimmedSpan(w: PowerWindow.Window, s: PowerWindow.Sample)
    requires PowerWindow.Verdict(w.samples, s) == PowerWindow.Kept
    ensures var kept := PowerWindow.After(w, WINDOW_NS, s).samples;
            kept != [] && PowerWindow.Last(kept) == s && (|kept| > 2 ==> s.t - kept[0].t <= 2000000000)
  {
    var all := w.samples + [s];
    PowerWindow.TrimKeepsLast(all, WINDOW_NS, s.t);
    var k := PowerWindow.TrimCuts(all, WINDOW_NS, s.t);
    hide PowerWindow.Trimmed;
  }

  /** The power window of a device holds two seconds: with more than two samples it spans no more. */
  lemma {:induction false} WindowWithinTwoSeconds(f: Fixed, h: seq<Event>, i: nat)
    requires i <= |h|
    ensures var kept := DeviceAt(f, h, i).window.samples;
            |kept| > 2 ==> PowerWindow.Last(kept).t - kept[0].t <= 2000000000
  {
    if i > 0 {
      WindowWithinTwoSeconds(f, h, i - 1);
      var d, e := DeviceAt(f, h, i - 1), h[i - 1];
      if e.Ingest? && e.sample.power.Some? {
        var s := PowerWindow.Sample(e.at, e.sample.power.value);
        if PowerWindow.Verdict(d.window.samples, s) == PowerWindow.Kept {
          TrimmedSpan(d.window, s);
        }
      }
      hide PowerWindow.After, PowerWindow.Verdict, Thermal.Observed, InputFor;
    }
  }

  /** One event more. */
  lemma StepDevice(f: Fixed, h: seq<Event>, i: nat)
    requires i < |h|
    ensures var d, after, e := DeviceAt(f, h, i), DeviceAt(f, h, i + 1), h[i];
            var sampled := Accepted(h, i) && e.sample.temperature.Some?;
            && after.thermal == (if e.Recover? then Thermal.FRESH
                                 else if sampled then Thermal.Observed(f.thresholds, d.thermal, e.sample.temperature)
                                 else d.thermal)
            && after.lastTemp == (if e.Recover? then None else if sampled then e.sample.temperature else d.lastTemp)
            && after.hardwareCap == (if Taken(h, i) then e.sample.powerLimit else d.hardwareCap)
            && (after.latest, after.lastObserved) == (if e.Recover? then (None, 0)
                                                      else if e.Ingest? && e.sample.power.Some? then (Some(e.sample), e.at)
                                                      else (d.latest, d.lastObserved))
  {
    var k := WindowIsHistory(f, h, i);
    var d, e := DeviceAt(f, h, i), h[i];
    SampleTaken(h, i, k);
    if e.Ingest? && e.sample.power.Some? {
      StepTime(d.window, PowerWindow.Sample(e.at, e.sample.power.value));
    }
    hide LatestTaken, LastTime, PowerWindow.After, PowerWindow.Verdict, Taken, Thermal.Observed, InputFor;
  }

  /** The device is what the samples say. */
  lemma {:induction false} DeviceIsHistory(f: Fixed, h: seq<Event>, i: nat)
    requires i <= |h|
    ensures var d, ts := DeviceAt(f, h, i), Temperatures(h, i);
            && d.thermal == Thermal.After(f.thresholds, Thermal.FRESH, ts, |ts|)
            && d.lastTemp == LastOf(ts) && d.hardwareCap == BackendLimit(h, i)
  {
    if i > 0 {
      DeviceIsHistory(f, h, i - 1);
      StepDevice(f, h, i - 1);
      var e := h[i - 1];
      hide DeviceAt, Accepted, Taken;
      if Accepted(h, i - 1) && e.sample.temperature.Some? {
        OneMoreTemperature(f.thresholds, Temperatures(h, i - 1), e.sample.temperature.value);
      }
      RecoverNotAccepted(h, i - 1);
      hide Thermal.After, Thermal.Observed;
    }
  }

  lemma RecoverNotAccepted(h: seq<Event>, k: nat)
    requires k < |h|
    ensures Accepted(h, k) ==> h[k].Ingest?
    ensures Taken(h, k) ==> h[k].Ingest?
  {
  }

  lemma {:induction false} LatestIsHistory(f: Fixed, h: seq<Event>, i: nat) returns (j: int)
    requires i <= |h|
    ensures var d := DeviceAt(f, h, i);
            if j >= 0 then LastPower(h, i, j) && d.latest == Some(h[j].sample) && d.lastObserved == h[j].at
            else (forall k :: !LastPower(h, i, k)) && d.latest == None && d.lastObserved == 0
  {
    if i == 0 {
      j := -1;
    } else {
      var e := h[i - 1];
      j := LatestIsHistory(f, h, i - 1);
      StepDevice(f, h, i - 1);
      LastPowerMoves(h, i);
      hide DeviceAt, Accepted, Taken, LastPower;
      if e.Recover? {
        j := -1;
      } else if e.Ingest? && e.sample.power.Some? {
        j := i - 1;
      }
    }
  }

  lemma OneMoreTemperature(th: Thermal.Thresholds, ts: seq<real>, t: real)
    ensures Thermal.After(th, Thermal.FRESH, ts + [t], |ts| + 1)
            == Thermal.Observed(th, Thermal.After(th, Thermal.FRESH, ts, |ts|), Some(t))
  {
    Thermal.AfterPrefix(th, Thermal.FRESH, ts, ts + [t], |ts|);
    hide Thermal.Observed;
  }

  lemma LastPowerMoves(h: seq<Event>, i: nat)
    requires 0 < i <= |h|
    ensures var e := h[i - 1];
            if e.Recover? then forall j :: !LastPower(h, i, j)
            else if e.Ingest? && e.sample.power.Some? then forall j :: LastPower(h, i, j) <==> j == i - 1
            else forall j :: LastPower(h, i, j) <==> LastPower(h, i - 1, j)
  {
  }

  // ---- what a decision meets ---------------------------------------------------------------

  /** The least of the caps that count, those of the policy and the one of the backend; None when none counts. */
  predicate IsHardCap(p: Policy, backend: Option<real>, cap: Option<real>) {
    && (forall c :: c in {p.fleetCap, p.nodeCap, p.deviceCap, backend} && c.Some? && c.value >= 0.0 ==>
                      cap.Some? && cap.value <= c.value)
    && (cap.Some? ==> cap.value >= 0.0 && cap in {p.fleetCap, p.nodeCap, p.deviceCap, backend})
  }

  lemma HardCapIs(p: Policy, d: Device)
    ensures IsHardCap(p, d.hardwareCap, HardCap(p, Some(d)))
  {
  }

  lemma OneHardCap(p: Policy, backend: Option<real>, a: Option<real>, b: Option<real>)
    requires IsHardCap(p, backend, a) && IsHardCap(p, backend, b)
    ensures a == b
  {
  }

  /** The temperature of the last power sample, if it had one, else the last one accepted. */
  function TemperatureAt(h: seq<Event>, i: nat, j: int): Option<real>
    requires i <= |h| && 0 <= j < i && h[j].Ingest?
  {
    if h[j].sample.temperature.Some? then h[j].sample.temperature else LastOf(Temperatures(h, i))
  }

  /** The thermal ceiling under this hard cap. */
  function CeilingAt(f: Fixed, h: seq<Event>, i: nat, j: int, cap: Option<real>): Option<real>
    requires i <= |h| && 0 <= j < i && h[j].Ingest?
  {
    if cap.None? || cap.value <= 0.0 then None else Thermal.Permitted(f.thresholds, cap.value, TemperatureAt(h, i, j))
  }

  /** What the ledger has free for the budget asked for, in watts. */
  function AvailableAt(e: Event): Option<real>
    requires e.Decide?
  {
    if e.q.budget == 0 || e.q.budget !in e.books then None else Some(Available(e.books, e.q.budget) as real / 1000.0)
  }

  predicate FitsAll(caps: seq<Option<real>>, watts: real, tolerance: real) {
    forall i :: 0 <= i < |caps| && caps[i].Some? && caps[i].value >= 0.0 ==> watts <= caps[i].value + tolerance
  }

  /** Some cap leaves nothing to allow. */
  predicate Emptied(caps: seq<Option<real>>, watts: real) {
    exists i :: 0 <= i < |caps| && caps[i].Some? && 0.0 <= caps[i].value <= TOLERANCE && caps[i].value < watts
  }

  /** It is this young, at a clock that may have gone back. */
  predicate Younger(observed: int, now: int, age: nat) { observed != 0 && age > 0 && now - observed < age }

  /** The power is recent enough. */
  predicate Recent(p: Policy, observed: int, now: int) {
    Younger(observed, now, p.currentFor) || Younger(observed, now, p.agingFor)
  }

  /** Nothing ever draws on the burst budget of a decision. */
  lemma {:induction false} BurstUntouched(f: Fixed, h: seq<Event>, i: nat)
    requires i <= |h|
    ensures After(f, h, i).burst.consumed == 0.0
  {
    if i > 0 {
      BurstUntouched(f, h, i - 1);
      hide InputFor, Ingested;
    }
  }

  /** A whole burst capacity covers the energy of the request. */
  predicate Bursts(f: Fixed, q: Query) {
    var joules := if q.seconds < 0.0 then 0.0 else q.requested * q.seconds;
    var capacity := Windows.BurstCapacity(f.burst);
    f.burst.enabled && 0.0 <= joules <= (if capacity < 0.0 then 0.0 else capacity) + TOLERANCE
  }

  lemma BurstIs(f: Fixed, b: Windows.Bucket, q: Query, now: int)
    requires b.consumed == 0.0
    ensures Bursts(f, q) <==>
            && f.burst.enabled
            && Windows.Fits(Windows.BurstCapacity(f.burst), Windows.Refilled(f.burst.window, b, now), BurstNeed(q))
  {
    hide Windows.BurstCapacity;
    assert q.requested * 0.0 == 0.0;
  }

  /** Every freshness: the first of the three ages it is younger than, and expired when there is none. */
  lemma FreshnessExactly(p: Policy, now: int, observed: int)
    ensures var f := Classified(p, now, observed);
            && (f == Decisions.CURRENT <==> Younger(observed, now, p.currentFor))
            && (f == Decisions.AGING <==> Younger(observed, now, p.agingFor) && !Younger(observed, now, p.currentFor))
            && (f == Decisions.STALE <==>
                  Younger(observed, now, p.staleFor) && !Younger(observed, now, p.currentFor) && !Younger(observed, now, p.agingFor))
  {
  }

  /** What the engine is asked, from the device. */
  lemma InputFromDevice(f: Fixed, d: Device, burst: Windows.Bucket, e: Event)
    requires e.Decide? && burst.consumed == 0.0
    ensures var x, q := InputFor(f, Some(d), burst, e.books, e.q, e.at), e.q;
            && x.requested == q.requested && x.energy == q.energy
            && x.hardwareCap == HardCap(q.policy, Some(d)) && x.budgetAvailable == AvailableAt(e)
            && x.thermalCeiling == (if x.hardwareCap.None? || x.hardwareCap.value <= 0.0 then None
                                    else Thermal.Permitted(f.thresholds, x.hardwareCap.value,
                                           if d.latest.Some? && d.latest.value.temperature.Some?
                                           then d.latest.value.temperature else d.lastTemp))
            && x.softTarget == q.policy.softTarget
            && (x.thermalKnown <==> d.thermal.state != Thermal.UNKNOWN) && x.thermal == d.thermal.state
            && x.energyEnforced == q.policy.energyEnforced && x.energyBudget == q.policy.energyBudget && x.energyUsed == 0.0
            && (x.burstAvailable <==> Bursts(f, q)) && x.policyCurrent && x.minStable == q.policy.minStable
            && (x.freshness in {Decisions.CURRENT, Decisions.AGING} <==> Recent(q.policy, d.lastObserved, e.at))
  {
    BurstIs(f, burst, e.q, e.at);
    FreshnessExactly(e.q.policy, e.at, d.lastObserved);
    hide Available, HardCap, Thermal.Permitted, Bursts, Recent, Classified, Windows.Fits, Windows.BurstCapacity, Windows.Refilled, BurstNeed;
  }

  /** What the engine is asked, field by field. */
  lemma InputIsHistory(f: Fixed, h: seq<Event>, i: nat, j: int, cap: Option<real>)
    requires i < |h| && h[i].Decide? && LastPower(h, i, j) && IsHardCap(h[i].q.policy, BackendLimit(h, i), cap)
    ensures var x, q, ts := InputAt(f, After(f, h, i), h[i]), h[i].q, Temperatures(h, i);
            && x.requested == q.requested && x.energy == q.energy
            && x.hardwareCap == cap && x.budgetAvailable == AvailableAt(h[i]) && x.thermalCeiling == CeilingAt(f, h, i, j, cap)
            && x.softTarget == q.policy.softTarget
            && (x.thermalKnown && x.thermal == Thermal.THERMALLY_CONSTRAINED <==> Thermal.Confirmed(f.thresholds, ts, |ts|))
            && (x.thermalKnown && x.thermal == Thermal.RECOVERING <==>
                  !Thermal.Confirmed(f.thresholds, ts, |ts|) && Thermal.Recovering(f.thresholds, ts, |ts|))
            && x.energyEnforced == q.policy.energyEnforced && x.energyBudget == q.policy.energyBudget && x.energyUsed == 0.0
            && x.burstAvailable == Bursts(f, q) && x.policyCurrent && x.minStable == q.policy.minStable
            && (x.freshness in {Decisions.CURRENT, Decisions.AGING} <==> Recent(q.policy, h[j].at, h[i].at))
  {
    var w, ts := After(f, h, i), Temperatures(h, i);
    SomeDevice(f, h, i, j);
    DeviceIsHistory(f, h, i);
    var last := LatestIsHistory(f, h, i);
    OneLastPower(h, i, j);
    Thermal.ConstrainedExactly(f.thresholds, ts, |ts|);
    Thermal.RecoveringExactly(f.thresholds, ts, |ts|);
    HardCapIs(h[i].q.policy, w.dev.value);
    OneHardCap(h[i].q.policy, BackendLimit(h, i), cap, HardCap(h[i].q.policy, w.dev));
    BurstUntouched(f, h, i);
    InputFromDevice(f, w.dev.value, w.burst, h[i]);
    hide After, DeviceAt, InputFor, AvailableAt, Bursts, Recent, HardCap, IsHardCap, Temperatures, BackendLimit, Thermal.After, Thermal.Confirmed, Thermal.Recovering,
      Thermal.Permitted, LastPower;
  }

  lemma {:induction false} SomeDevice(f: Fixed, h: seq<Event>, i: nat, j: int)
    requires i <= |h| && 0 <= j < i && h[j].Ingest?
    ensures After(f, h, i).dev.Some? && After(f, h, i).dev.value == DeviceAt(f, h, i)
    decreases i
  {
    hide InputFor;
    if j < i - 1 {
      SomeDevice(f, h, i - 1, j);
    }
  }

  // ---- what a decision is answered -----------------------------------------------------------

  /** Event k is the last decision before i, with no reset since. */
  predicate LastAsked(h: seq<Event>, i: nat, k: int)
    requires i <= |h|
  {
    0 <= k < i && h[k].Decide? && forall m :: k < m < i ==> !h[m].Decide? && !h[m].Reset?
  }

  /** The last answer was this one, restrictive, and it is still held. */
  predicate Held(f: Fixed, h: seq<Event>, i: nat, verdict: Decisions.Verdict)
    requires i < |h| && h[i].Decide?
  {
    exists k: nat :: k < i && LastAsked(h, i, k) && StillHeld(f, h, i, k, verdict)
  }

  predicate StillHeld(f: Fixed, h: seq<Event>, i: nat, k: nat, verdict: Decisions.Verdict)
    requires i < |h| && h[i].Decide? && k < |h| && h[k].Decide?
  {
    && Answer(f, h, k).verdict == verdict != Decisions.ALLOW
    && h[i].q.policy.minStable > 0 && h[i].at - h[k].at < h[i].q.policy.minStable
  }

  /** What the engine remembers. */
  function Remembered(f: Fixed, h: seq<Event>, i: nat): Option<Decisions.Last>
    requires i <= |h|
  {
    var asked := After(f, h, i).asked;
    Decisions.LastBefore(asked, |asked|)
  }

  lemma {:induction false} MemoryIsHistory(f: Fixed, h: seq<Event>, i: nat) returns (k: int)
    requires i <= |h|
    ensures if k < 0 then Remembered(f, h, i) == None && forall m :: !LastAsked(h, i, m)
            else LastAsked(h, i, k) && Remembered(f, h, i) == Some(Decisions.Last(Answer(f, h, k).verdict, h[k].at))
  {
    if i == 0 {
      k := -1;
    } else {
      k := MemoryIsHistory(f, h, i - 1);
      AskedMoves(h, i);
      StepMemory(f, h, i - 1);
      hide Remembered, Answer, LastAsked;
      if h[i - 1].Decide? {
        k := i - 1;
      } else if h[i - 1].Reset? {
        k := -1;
      }
    }
  }

  lemma AskedMoves(h: seq<Event>, i: nat)
    requires 0 < i <= |h|
    ensures if h[i - 1].Decide? then forall m :: LastAsked(h, i, m) <==> m == i - 1
            else if h[i - 1].Reset? then forall m :: !LastAsked(h, i, m)
            else forall m :: LastAsked(h, i, m) <==> LastAsked(h, i - 1, m)
  {
  }

  lemma StepMemory(f: Fixed, h: seq<Event>, i: nat)
    requires i < |h|
    ensures Remembered(f, h, i + 1) ==
            if h[i].Decide? then Some(Decisions.Last(Answer(f, h, i).verdict, h[i].at))
            else if h[i].Reset? then None else Remembered(f, h, i)
  {
    hide InputFor, Decisions.Decided, Ingested;
    if h[i].Decide? {
      var run, question := After(f, h, i).asked, Decisions.Question(InputAt(f, After(f, h, i), h[i]), h[i].at);
      assert After(f, h, i + 1).asked == run + [question];
      OneMoreAsked(run, question);
    }
  }

  lemma OneMoreAsked(run: seq<Decisions.Question>, q: Decisions.Question)
    ensures var longer := run + [q];
            Decisions.LastBefore(longer, |longer|) ==
            Some(Decisions.Last(Decisions.Decided(Decisions.LastBefore(run, |run|), q.x, q.now).verdict, q.now))
  {
    hide Decisions.Decided;
    var longer := run + [q];
    assert Decisions.Got(longer, |run|) == Decisions.Decided(Decisions.LastBefore(longer, |run|), q.x, q.now);
    if run != [] {
      GotLooksBack(run, longer, |run| - 1);
    }
  }

  lemma HeldIsFresh(f: Fixed, h: seq<Event>, i: nat, verdict: Decisions.Verdict)
    requires i < |h| && h[i].Decide?
    ensures Held(f, h, i, verdict) <==>
            Decisions.Fresh(Remembered(f, h, i), h[i].q.policy.minStable, h[i].at, verdict)
  {
    var k := MemoryIsHistory(f, h, i);
    hide Remembered, Answer;
    forall m | LastAsked(h, i, m)
      ensures m == k
    {
    }
  }

  /** Without a power sample since the last recovery a decision calls for revalidation. */
  lemma NoPowerNoVerdict(f: Fixed, h: seq<Event>, i: nat)
    requires i < |h| && h[i].Decide? && forall j :: !LastPower(h, i, j)
    ensures Answer(f, h, i).verdict == Decisions.REVALIDATION_REQUIRED
  {
    RevalidationExactly(f, h, i);
    hide After, Answer, LastPower, InputFor, Decisions.Memoryless;
    RevalidatesAll(f, h, i);
  }

  lemma RevalidatesAll(f: Fixed, h: seq<Event>, i: nat)
    requires i < |h| && h[i].Decide?
    requires Decisions.Memoryless(InputAt(f, After(f, h, i), h[i])).verdict == Decisions.REVALIDATION_REQUIRED
    ensures Answer(f, h, i).verdict == Decisions.REVALIDATION_REQUIRED
  {
    hide After, InputFor, Decisions.Memoryless;
  }

  lemma CapsAgree(x: Decisions.Input, caps: seq<Option<real>>)
    requires caps == [x.hardwareCap, x.budgetAvailable, x.thermalCeiling]
    ensures forall watts, tolerance :: FitsAll(caps, watts, tolerance) <==> Decisions.UnderAll(x, watts, tolerance)
    ensures Emptied(caps, x.requested) <==> Decisions.AnyDrained(x)
  {
    forall watts, tolerance
      ensures FitsAll(caps, watts, tolerance) <==> Decisions.UnderAll(x, watts, tolerance)
    {
      if FitsAll(caps, watts, tolerance) {
        assert caps[0] == x.hardwareCap && caps[1] == x.budgetAvailable && caps[2] == x.thermalCeiling;
      }
    }
    assert caps[0] == x.hardwareCap && caps[1] == x.budgetAvailable && caps[2] == x.thermalCeiling;
  }

  /** Every answer of a governor, whatever it was told before.  A decision whose device has shown power since the
      last recovery is answered from the age of that power, the trace of the accepted temperatures, the least of
      the caps, what the ledger has free, the ceiling at the temperature, the policy, and the last answer. */
  lemma AnswerExactly(f: Fixed, h: seq<Event>, i: nat, j: int, cap: Option<real>)
    requires i < |h| && h[i].Decide? && LastPower(h, i, j) && IsHardCap(h[i].q.policy, BackendLimit(h, i), cap)
    ensures var q, ts := h[i].q, Temperatures(h, i);
            var caps := [cap, AvailableAt(h[i]), CeilingAt(f, h, i, j, cap)];
            var current := Recent(q.policy, h[j].at, h[i].at);
            var constrained := Thermal.Confirmed(f.thresholds, ts, |ts|);
            var recovering := !constrained && Thermal.Recovering(f.thresholds, ts, |ts|);
            var emptied, fits := Emptied(caps, q.requested), FitsAll(caps, q.requested, TOLERANCE);
            var aboveSoft := q.policy.softTarget.Some? && q.policy.softTarget.value < q.requested;
            var bursts := Bursts(f, q) && FitsAll(caps, q.requested, 0.0);
            var overEnergy := q.policy.energyEnforced && q.policy.energyBudget > 0.0
                              && q.energy > q.policy.energyBudget + TOLERANCE;
            var open := current && !constrained && !emptied && !recovering && fits;
            var free := open && !aboveSoft && !overEnergy;
            var verdict := Answer(f, h, i).verdict;
            && (verdict == Decisions.ALLOW <==> (open && aboveSoft && bursts) || (free && forall v :: !Held(f, h, i, v)))
            && (verdict == Decisions.REVALIDATION_REQUIRED <==>
                  !current || (free && Held(f, h, i, Decisions.REVALIDATION_REQUIRED)))
            && (verdict == Decisions.REJECT <==>
                  (current && emptied && !constrained) || (free && Held(f, h, i, Decisions.REJECT)))
            && (verdict == Decisions.DEFER <==>
                  (current && emptied && constrained) || (free && Held(f, h, i, Decisions.DEFER)))
            && (verdict == Decisions.THROTTLE <==>
                  (current && !emptied && constrained) || (open && !aboveSoft && overEnergy)
                  || (free && Held(f, h, i, Decisions.THROTTLE)))
            && (verdict == Decisions.ALLOW_WITH_LIMIT <==>
                  (current && !emptied && !constrained && (recovering || !fits)) || (open && aboveSoft && !bursts)
                  || (free && Held(f, h, i, Decisions.ALLOW_WITH_LIMIT)))
  {
    var x := InputAt(f, After(f, h, i), h[i]);
    InputIsHistory(f, h, i, j, cap);
    CapsAgree(x, [cap, AvailableAt(h[i]), CeilingAt(f, h, i, j, cap)]);
    Decisions.VerdictExactly(Remembered(f, h, i), x, h[i].at);
    forall v
      ensures Held(f, h, i, v) <==> Decisions.Fresh(Remembered(f, h, i), x.minStable, h[i].at, v)
    {
      HeldIsFresh(f, h, i, v);
    }
    AnswerIs(f, h, i);
    hide *;
  }

  lemma AnswerIs(f: Fixed, h: seq<Event>, i: nat)
    requires i < |h| && h[i].Decide?
    ensures Answer(f, h, i) == Decisions.Decided(Remembered(f, h, i), InputAt(f, After(f, h, i), h[i]), h[i].at)
  {
    hide After, InputFor, Decisions.Decided;
  }

  /** And the limit that comes with it is the cap it names. */
  lemma LimitExactly(f: Fixed, h: seq<Event>, i: nat, j: int, cap: Option<real>)
    requires i < |h| && h[i].Decide? && LastPower(h, i, j) && IsHardCap(h[i].q.policy, BackendLimit(h, i), cap)
    ensures var d := Answer(f, h, i);
            match d.binding
            case DeviceHardCap => d.limit == cap
            case BudgetCap => d.limit == AvailableAt(h[i])
            case ThermalCap => d.limit == CeilingAt(f, h, i, j, cap)
            case SoftTarget => d.limit == h[i].q.policy.softTarget
            case _ => d.limit == None
  {
    InputIsHistory(f, h, i, j, cap);
    Decisions.BindingIsReal(Remembered(f, h, i), InputAt(f, After(f, h, i), h[i]), h[i].at);
    AnswerIs(f, h, i);
    hide After, InputFor, Decisions.Decided, Remembered, CeilingAt, AvailableAt, IsHardCap, BackendLimit, LastPower;
  }
}
