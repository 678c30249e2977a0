/** From a backend sample to a verdict: ingestion, the decision input, and what an ALLOW means for the
    whole governor.  Ledger power is in integer milliwatts, everything else here in watts. */
module Pipeline {
  import opened Basics
  import opened Tree
  import opened Ledger
  import opened Thermal
  import opened Windows
  import opened Decisions
  import PowerWindow

  datatype BackendSample = BackendSample(
    power: Option<real>, temperature: Option<real>, powerLimit: Option<real>, throttled: bool)

  datatype Policy = Policy(
    fleetCap: Option<real>, nodeCap: Option<real>, deviceCap: Option<real>, softTarget: Option<real>,
    energyEnforced: bool, energyBudget: real,
    currentFor: nat, agingFor: nat, staleFor: nat, minStable: nat)

  /** The live state of the one device a governor keeps. */
  datatype Device = Device(
    latest: Option<BackendSample>, lastObserved: int, hardwareCap: Option<real>,
    thermal: Automaton, lastTemp: Option<real>, window: PowerWindow.Window)

  const NEW_DEVICE := Device(None, 0, None, FRESH, None, PowerWindow.EMPTY)

  /** Two seconds of power samples. */
  const WINDOW_NS := 2000000000

  /** What does not change while a governor lives. */
  datatype Fixed = Fixed(thresholds: Thresholds, burst: BurstLimits)

  // ---- Ingestion ------------------------------------------------------------------------------

  datatype Ingestion = Ingestion(device: Device, ok: bool)

  /** `ok` is false when recording the power throws, which leaves what was assigned before it. */
  function Ingested(th: Thresholds, dev: Option<Device>, s: BackendSample, now: int): Ingestion {
    var d := if dev.Some? then dev.value else NEW_DEVICE;
    var seen := if s.power.Some? then d.(latest := Some(s), lastObserved := now) else d;
    if s.power.Some? && PowerWindow.Verdict(d.window.samples, PowerWindow.Sample(now, s.power.value)) != PowerWindow.Kept
    then Ingestion(seen, false)
    else
      var recorded :=
        if s.power.Some? then
          seen.(window := PowerWindow.After(d.window, WINDOW_NS, PowerWindow.Sample(now, s.power.value)),
                hardwareCap := s.powerLimit)
        else seen;
      Ingestion(if s.temperature.Some?
                then recorded.(thermal := Observed(th, d.thermal, s.temperature), lastTemp := s.temperature)
                else recorded, true)
  }

  /** `invalidate_live_telemetry`: the hardware cap and the power window stay. */
  function Invalidated(dev: Option<Device>): Option<Device> {
    if dev.None? then None
    else Some(dev.value.(latest := None, lastObserved := 0, thermal := FRESH, lastTemp := None))
  }

  // ---- The decision input ---------------------------------------------------------------------

  function Classified(p: Policy, now: int, observed: int): Freshness {
    var age := Elapsed(now, observed);
    if observed == 0 then EXPIRED
    else if age < p.currentFor then CURRENT
    else if age < p.agingFor then AGING
    else if age < p.staleFor then STALE
    else EXPIRED
  }

  /** `tighten`. */
  function Tightened(cap: Option<real>, v: Option<real>): Option<real> {
    if !Counts(v) then cap
    else if cap.Some? && cap.value <= v.value then cap
    else v
  }

  function HardCap(p: Policy, dev: Option<Device>): Option<real> {
    var policyCap := Tightened(Tightened(Tightened(None, p.fleetCap), p.nodeCap), p.deviceCap);
    if dev.Some? then Tightened(policyCap, dev.value.hardwareCap) else policyCap
  }

  /** The temperature of the latest sample if it had one, else the last one ever seen. */
  function TemperatureOf(d: Device): Option<real> {
    if d.latest.Some? && d.latest.value.temperature.Some? then d.latest.value.temperature else d.lastTemp
  }

  function CeilingOf(th: Thresholds, d: Device, cap: Option<real>): Option<real> {
    if cap.Some? && cap.value > 0.0 then Permitted(th, cap.value, TemperatureOf(d)) else None
  }

  datatype Query = Query(policy: Policy, budget: Id, requested: real, energy: real, seconds: real)

  function InputFor(f: Fixed, dev: Option<Device>, burst: Bucket, books: Books, q: Query, now: int): Input {
    var p, cap := q.policy, HardCap(q.policy, dev);
    var known := dev.Some? && dev.value.thermal.state != UNKNOWN;
    Input(q.requested, q.energy, cap,
          if q.budget != 0 && q.budget in books then Some(Available(books, q.budget) as real / 1000.0) else None,
          if dev.Some? then CeilingOf(f.thresholds, dev.value, cap) else None,
          if dev.Some? then p.softTarget else None,
          known, if dev.Some? then dev.value.thermal.state else UNKNOWN,
          p.energyEnforced, p.energyBudget, 0.0,
          dev.Some? && f.burst.enabled
          && Fits(BurstCapacity(f.burst), Refilled(f.burst.window, burst, now), BurstNeed(q)),
          true, if dev.Some? then Classified(p, now, dev.value.lastObserved) else EXPIRED, p.minStable)
  }

  function BurstNeed(q: Query): real { q.requested * if q.seconds < 0.0 then 0.0 else q.seconds }

  class GovernorCore {
    const budgets: BudgetManager
    const thermal: ThermalGovernor
    const burst: BurstBudget
    const window: PowerWindow.PowerWindow
    const engine: DecisionEngine
    var present: bool
    var latest: Option<BackendSample>
    var lastObserved: int
    var hardwareCap: Option<real>

    function Live(): Option<Device>
      reads this, thermal, window
    {
      if !present then None
      else Some(Device(latest, lastObserved, hardwareCap, thermal.Abstract(), thermal.lastTemp, window.State()))
    }

    predicate Valid()
      reads this, thermal, window, burst
    {
      window.capacity == WINDOW_NS && burst.Valid()
      && (!present ==> Device(latest, lastObserved, hardwareCap, thermal.Abstract(), thermal.lastTemp, window.State())
                       == NEW_DEVICE)
    }

    constructor (b: BudgetManager, th: Thresholds, l: BurstLimits)
      ensures Valid() && budgets == b && thermal.thresholds == th && burst.limits == l
      ensures Live() == None && engine.last == None && burst.State() == UNUSED
    {
      budgets := b;
      thermal := new ThermalGovernor(th);
      burst := new BurstBudget(l);
      window := new PowerWindow.PowerWindow(WINDOW_NS);
      engine := new DecisionEngine();
      present, latest, lastObserved, hardwareCap := false, None, 0, None;
    }

    method Ingest(s: BackendSample, now: int) returns (ok: bool)
      requires Valid()
      modifies this, thermal, window
      ensures Valid() && Live().Some?
      ensures Ingestion(Live().value, ok) == old(Ingested(thermal.thresholds, Live(), s, now))
    {
      hide PowerWindow.After, Observed;
      present := true;
      if s.power.Some? {
        latest := Some(s);
        lastObserved := now;
        var r := window.Record(now, s.power.value);
        if r != PowerWindow.Kept {
          NotKeptUnchanged(old(window.State()), PowerWindow.Sample(now, s.power.value));
          return false;
        }
        hardwareCap := s.powerLimit;
      }
      if s.temperature.Some? {
        var _ := thermal.Observe(s.temperature, now);
      }
      ok := true;
    }

    method InvalidateLiveTelemetry()
      requires Valid()
      modifies this, thermal
      ensures Valid() && Live() == old(Invalidated(Live()))
    {
      if present {
        latest := None;
        lastObserved := 0;
        thermal.Reset();
      }
    }

    /** `reset_hysteresis` */
    method ResetHysteresis()
      requires Valid()
      modifies engine
      ensures Valid() && Live() == old(Live()) && engine.last == None
    {
      engine.ResetHysteresis();
    }

    method TightestCap(p: Policy) returns (cap: Option<real>)
      requires Valid()
      ensures cap == HardCap(p, Live())
    {
      cap := None;
      cap := Tightened(cap, p.fleetCap);
      cap := Tightened(cap, p.nodeCap);
      cap := Tightened(cap, p.deviceCap);
      if present {
        cap := Tightened(cap, hardwareCap);
      }
    }

    method Decide(q: Query, now: int) returns (d: Decision)
      requires Valid()
      modifies burst, engine
      ensures Valid() && Live() == old(Live())
      ensures var x := old(InputFor(Fixed(thermal.thresholds, burst.limits), Live(), burst.State(), budgets.states, q, now));
              d == Decided(old(engine.last), x, now) && engine.last == Some(Last(d.verdict, now))
      ensures burst.State() == old(if present && burst.limits.enabled
                                   then Refilled(burst.limits.window, burst.State(), now) else burst.State())
    {
      hide Decided, Available, ChainOf;
      var cap := TightestCap(q.policy);
      var ceiling, soft, known, state, canBurst, freshness := None, None, false, UNKNOWN, false, EXPIRED;
      if present {
        known := thermal.state != UNKNOWN;
        state := thermal.state;
        if cap.Some? && cap.value > 0.0 {
          var temp := if latest.Some? && latest.value.temperature.Some? then latest.value.temperature
                      else thermal.lastTemp;
          ceiling := Permitted(thermal.thresholds, cap.value, temp);
        }
        canBurst := burst.CanBurst(BurstNeed(q), now);
        freshness := Classified(q.policy, now, lastObserved);
        soft := q.policy.softTarget;
      }
      var available: Option<real> := None;
      if q.budget != 0 && q.budget in budgets.states {
        var milliwatts := budgets.QueryAvailable(q.budget);
        available := Some(milliwatts as real / 1000.0);
      }
      var x := Input(q.requested, q.energy, cap, available, ceiling, soft, known, state,
                     q.policy.energyEnforced, q.policy.energyBudget, 0.0, canBurst, true, freshness, q.policy.minStable);
      d := engine.Evaluate(x, now);
    }
  }

  lemma NotKeptUnchanged(w: PowerWindow.Window, s: PowerWindow.Sample)
    ensures PowerWindow.Verdict(w.samples, s) != PowerWindow.Kept ==> PowerWindow.After(w, WINDOW_NS, s) == w
  {
  }

  // ---- End to end -----------------------------------------------------------------------------

  /** A number of watts within everything the governor knows: the fleet, node, device and backend caps,
      the thermal ceiling, and what is free at the budget and at every budget of its chain. */
  ghost predicate WithinEverything(th: Thresholds, d: Device, books: Books, q: Query, watts: real, tolerance: real) {
    && Under(watts, q.policy.fleetCap, tolerance) && Under(watts, q.policy.nodeCap, tolerance)
    && Under(watts, q.policy.deviceCap, tolerance) && Under(watts, d.hardwareCap, tolerance)
    && Under(watts, CeilingOf(th, d, HardCap(q.policy, Some(d))), tolerance)
    && (q.budget != 0 && q.budget in books ==>
          forall b :: b in ChainOf(books, q.budget) ==>
            watts <= (if b in books then OwnAvailable(books[b]) as real / 1000.0 else 0.0) + tolerance)
  }

  lemma CapsAllCount(p: Policy, d: Device, watts: real, tolerance: real)
    requires Under(watts, HardCap(p, Some(d)), tolerance)
    ensures Under(watts, p.fleetCap, tolerance) && Under(watts, p.nodeCap, tolerance)
    ensures Under(watts, p.deviceCap, tolerance) && Under(watts, d.hardwareCap, tolerance)
  {
  }

  lemma AvailableIsLeast(books: Books, id: Id, b: Id)
    requires id != 0 && id in books && b in ChainOf(books, id)
    ensures if b in books then Available(books, id) <= OwnAvailable(books[b]) else Available(books, id) == 0
  {
    hide Chain;
    var ids := ChainOf(books, id);
    if Closed(ParentsOf(books), ids) {
      assert b in ParentsOf(books);
      MinAvailableBounds(books, ids, MinAvailable(books, ids));
    } else if b in books {
      assert Available(books, id) == 0;
    }
  }

  lemma UnderAllIsWithin(f: Fixed, d: Device, burst: Bucket, books: Books, q: Query, now: int, watts: real, tolerance: real)
    requires tolerance >= 0.0
    requires UnderAll(InputFor(f, Some(d), burst, books, q, now), watts, tolerance)
    ensures WithinEverything(f.thresholds, d, books, q, watts, tolerance)
  {
    hide ChainOf, Available, Fits, Permitted;
    CapsAllCount(q.policy, d, watts, tolerance);
    if q.budget != 0 && q.budget in books {
      forall b | b in ChainOf(books, q.budget)
        ensures watts <= (if b in books then OwnAvailable(books[b]) as real / 1000.0 else 0.0) + tolerance
      {
        AvailableIsLeast(books, q.budget, b);
        if b in books {
          Thousandths(Available(books, q.budget), OwnAvailable(books[b]));
        }
      }
    }
  }

  lemma Thousandths(a: int, b: int)
    requires a <= b
    ensures a as real / 1000.0 <= b as real / 1000.0
  {
  }

  /** The end-to-end cap.  For every device state, ledger, policy and hysteresis history: an ALLOW means
      the request is within everything, and so is any limit recommended with any verdict. */
  lemma EndToEndCap(f: Fixed, dev: Option<Device>, burst: Bucket, books: Books, q: Query, last: Option<Last>, now: int)
    ensures var d := Decided(last, InputFor(f, dev, burst, books, q, now), now);
            && (d.verdict == ALLOW ==>
                  dev.Some? && WithinEverything(f.thresholds, dev.value, books, q, q.requested, TOLERANCE))
            && (d.limit.Some? ==>
                  dev.Some? && WithinEverything(f.thresholds, dev.value, books, q, d.limit.value,
                                                if d.binding == SoftTarget then TOLERANCE else 0.0))
  {
    var x := InputFor(f, dev, burst, books, q, now);
    var d := Decided(last, x, now);
    NoDeviceNoVerdict(f, burst, books, q, last, now);
    hide InputFor, WithinEverything, Decided;
    AllowExactly(last, x, now);
    LimitWithinCaps(last, x, now);
    if dev.Some? {
      if d.verdict == ALLOW {
        RequestedIs(f, dev, burst, books, q, now);
        UnderAllIsWithin(f, dev.value, burst, books, q, now, q.requested, TOLERANCE);
      }
      if d.limit.Some? {
        UnderAllIsWithin(f, dev.value, burst, books, q, now, d.limit.value,
                         if d.binding == SoftTarget then TOLERANCE else 0.0);
      }
    }
  }

  lemma RequestedIs(f: Fixed, dev: Option<Device>, burst: Bucket, books: Books, q: Query, now: int)
    ensures InputFor(f, dev, burst, books, q, now).requested == q.requested
  {
  }

  lemma NoDeviceNoVerdict(f: Fixed, burst: Bucket, books: Books, q: Query, last: Option<Last>, now: int)
    ensures Decided(last, InputFor(f, None, burst, books, q, now), now) ==
            Decision(REVALIDATION_REQUIRED, None, TelemetryFreshness)
  {
  }

  /** For an ancestor of the budget fewer than 65 links up this says that what is free there bounds the
      request; the chain stops after that, and what lies above it is not asked. */
  lemma AllowWithinAncestor(f: Fixed, d: Device, burst: Bucket, books: Books, q: Query, last: Option<Last>, now: int,
                            k: nat, a: Id)
    requires Decided(last, InputFor(f, Some(d), burst, books, q, now), now).verdict == ALLOW
    requires q.budget != 0 && q.budget in books && a in books
    requires Up(ParentsOf(books), Some(q.budget), k) == Some(a) && k < MAX_CHAIN
    ensures q.requested <= OwnAvailable(books[a]) as real / 1000.0 + TOLERANCE
  {
    hide Decided, InputFor, Chain, Under, ParentsOf;
    EndToEndCap(f, Some(d), burst, books, q, last, now);
    var n: nat :| n == MAX_CHAIN;
    ChainDef(ParentsOf(books), q.budget, n);
    ChainAt(ParentsOf(books), Some(q.budget), n, k);
    assert a in ChainOf(books, q.budget);
  }

  /** The thermal part of it: with a temperature at hand, an ALLOW is within a ceiling that is the hard cap while
      it is not warm, the reduced cap when hot, and on the straight line between them in between. */
  lemma AllowWithinThermalCeiling(f: Fixed, d: Device, burst: Bucket, books: Books, q: Query, last: Option<Last>, now: int)
    requires 0.0 <= f.thresholds.reduction <= 1.0
    requires Decided(last, InputFor(f, Some(d), burst, books, q, now), now).verdict == ALLOW
    requires HardCap(q.policy, Some(d)).Some? && HardCap(q.policy, Some(d)).value > 0.0 && TemperatureOf(d).Some?
    ensures var cap, t := HardCap(q.policy, Some(d)).value, TemperatureOf(d).value;
            var ceiling := Permitted(f.thresholds, cap, Some(t)).value;
            && q.requested <= ceiling + TOLERANCE
            && cap * f.thresholds.reduction <= ceiling <= cap
            && (t <= f.thresholds.normalMax ==> ceiling == cap)
            && (t >= f.thresholds.hotMax && t > f.thresholds.normalMax ==> ceiling == cap * f.thresholds.reduction)
            && (f.thresholds.normalMax <= t <= f.thresholds.hotMax && f.thresholds.normalMax < f.thresholds.hotMax ==>
                  (cap - ceiling) * (f.thresholds.hotMax - f.thresholds.normalMax)
                  == cap * (1.0 - f.thresholds.reduction) * (t - f.thresholds.normalMax))
  {
    hide Decided, InputFor, ChainOf, Permitted, HardCap, TemperatureOf;
    var cap, t := HardCap(q.policy, Some(d)).value, TemperatureOf(d).value;
    EndToEndCap(f, Some(d), burst, books, q, last, now);
    CeilingInWatts(f.thresholds, cap, t);
    CeilingExactly(f.thresholds, cap, t);
    assert TemperatureOf(d) == Some(t);
  }

  lemma CeilingInWatts(th: Thresholds, cap: real, t: real)
    requires 0.0 <= th.reduction <= 1.0 && cap > 0.0
    ensures Permitted(th, cap, Some(t)).Some?
    ensures var ceiling := Permitted(th, cap, Some(t)).value;
            && 0.0 <= cap * th.reduction <= ceiling <= cap
            && (t >= th.hotMax && t > th.normalMax ==> ceiling == cap * th.reduction)
  {
    CeilingWithinCap(th, cap, t);
    Scaled(cap, 0.0, th.reduction);
  }

  /** Decision and ledger agree: a request in whole milliwatts that is allowed against an installed budget
      would be reserved, if asked for with the current generation, exactly when the budget is
      authoritative and its chain closed.  The decision asks neither, so an ALLOW against a budget that
      is only informational can never be reserved. */
  lemma AllowedIsReservable(f: Fixed, dev: Option<Device>, burst: Bucket, books: Books, q: Query, last: Option<Last>,
                            now: int, milliwatts: nat)
    requires q.requested == milliwatts as real / 1000.0 && q.budget != 0 && q.budget in books
    requires Decided(last, InputFor(f, dev, burst, books, q, now), now).verdict == ALLOW
    ensures CanReserve(books, q.budget, milliwatts, books[q.budget].cfg.generation) <==>
            books[q.budget].cfg.authoritative && Closed(ParentsOf(books), ChainOf(books, q.budget))
  {
    hide Decided, CanReserve, Available, ChainOf;
    var x := InputFor(f, dev, burst, books, q, now);
    AllowedMilliwattsCovered(last, x, now, milliwatts, Available(books, q.budget));
    QueryAgreesWithAdmission(books, q.budget, milliwatts, books[q.budget].cfg.generation);
  }

  // ---- Whole histories ------------------------------------------------------------------------

  /** Samples, decisions against whatever books and policy hold then, recoveries, and resets of the
      hysteresis. */
  datatype Event =
    | Ingest(sample: BackendSample, at: int)
    | Decide(books: Books, q: Query, at: int)
    | Recover
    | Reset

  datatype World = World(dev: Option<Device>, burst: Bucket, asked: seq<Question>)

  function InputAt(f: Fixed, w: World, e: Event): Input
    requires e.Decide?
  {
    InputFor(f, w.dev, w.burst, e.books, e.q, e.at)
  }

  /** The world after the first n events, from nothing; `asked` lists what the engine was asked and
      remembers. */
  function After(f: Fixed, h: seq<Event>, n: nat): World
    requires n <= |h|
  {
    if n == 0 then World(None, UNUSED, [])
    else
      var w, e := After(f, h, n - 1), h[n - 1];
      match e
      case Ingest(s, now) => w.(dev := Some(Ingested(f.thresholds, w.dev, s, now).device))
      case Decide(_, _, now) =>
        w.(burst := if w.dev.Some? && f.burst.enabled then Refilled(f.burst.window, w.burst, now) else w.burst,
           asked := w.asked + [Question(InputAt(f, w, e), now)])
      case Recover => w.(dev := Invalidated(w.dev))
      case Reset => w.(asked := [])
  }

  /** What event i, a decision, is answered. */
  function Answer(f: Fixed, h: seq<Event>, i: nat): Decision
    requires i < |h| && h[i].Decide?
  {
    var asked := After(f, h, i).asked;
    Decided(LastBefore(asked, |asked|), InputAt(f, After(f, h, i), h[i]), h[i].at)
  }

  /** Event j is the last power sample before i, with no recovery since. */
  predicate LastPower(h: seq<Event>, i: nat, j: int)
    requires i <= |h|
  {
    && 0 <= j < i && h[j].Ingest? && h[j].sample.power.Some?
    && forall k :: j < k < i ==> !h[k].Recover? && (h[k].Ingest? ==> h[k].sample.power.None?)
  }

  lemma {:induction false} ObservedAtLastPower(f: Fixed, h: seq<Event>, n: nat) returns (j: int)
    requires n <= |h|
    ensures var w := After(f, h, n);
            if LastPower(h, n, j) then w.dev.Some? && w.dev.value.lastObserved == h[j].at
            else (forall k :: !LastPower(h, n, k)) && (w.dev.Some? ==> w.dev.value.lastObserved == 0)
  {
    hide InputFor, Observed, PowerWindow.After, PowerWindow.Verdict;
    if n == 0 {
      j := -1;
    } else {
      var e := h[n - 1];
      j := ObservedAtLastPower(f, h, n - 1);
      if e.Ingest? && e.sample.power.Some? {
        j := n - 1;
      } else if e.Recover? {
        j := -1;
      } else {
        LastPowerStays(h, n);
      }
    }
  }

  lemma LastPowerStays(h: seq<Event>, n: nat)
    requires 0 < n <= |h| && !h[n - 1].Recover? && (h[n - 1].Ingest? ==> h[n - 1].sample.power.None?)
    ensures forall k :: LastPower(h, n, k) <==> LastPower(h, n - 1, k)
  {
  }

  /** Recovered telemetry is never current.  Over every history, the input of a decision calls for
      revalidation exactly when no power sample has come since the last recovery, or the last one to come
      is stamped zero or too old; nothing the engine remembers gets past that, and neither a temperature
      nor a reservation does. */
  lemma RevalidationExactly(f: Fixed, h: seq<Event>, i: nat)
    requires i < |h| && h[i].Decide?
    ensures Memoryless(InputAt(f, After(f, h, i), h[i])).verdict == REVALIDATION_REQUIRED <==>
              !exists j :: LastPower(h, i, j) && h[j].at != 0 && FreshEnough(h[i].q.policy, h[i].at, h[j].at)
    ensures Answer(f, h, i).verdict != REVALIDATION_REQUIRED ==>
              Memoryless(InputAt(f, After(f, h, i), h[i])).verdict != REVALIDATION_REQUIRED
  {
    var w := After(f, h, i);
    var j := ObservedAtLastPower(f, h, i);
    StaleExactly(f, w, h[i]);
    HysteresisActsExactly(LastBefore(w.asked, |w.asked|), InputAt(f, w, h[i]), h[i].at);
    OneLastPower(h, i, j);
    hide InputFor, Memoryless, Decided, Decisions.Got, LastPower, After, DefaultAllow;
  }

  lemma OneLastPower(h: seq<Event>, i: nat, j: int)
    requires i <= |h|
    ensures LastPower(h, i, j) ==> forall k :: LastPower(h, i, k) ==> k == j
  {
  }

  predicate FreshEnough(p: Policy, now: int, observed: int) {
    Elapsed(now, observed) < p.currentFor || Elapsed(now, observed) < p.agingFor
  }

  lemma StaleExactly(f: Fixed, w: World, e: Event)
    requires e.Decide?
    ensures !DefaultAllow(InputAt(f, w, e)) || !Stale(w, e)
    ensures Memoryless(InputAt(f, w, e)).verdict == REVALIDATION_REQUIRED <==> Stale(w, e)
  {
    hide Available, Ceiling;
  }

  predicate Stale(w: World, e: Event)
    requires e.Decide?
  {
    w.dev.None? || w.dev.value.lastObserved == 0 || !FreshEnough(e.q.policy, e.at, w.dev.value.lastObserved)
  }

  // ---- No oscillation in a governor ------------------------------------------------------------

  predicate NoReset(h: seq<Event>, i: nat, n: nat)
    requires n <= |h|
  {
    forall k :: i <= k < n ==> !h[k].Reset?
  }

  lemma {:induction false} AskedGrows(f: Fixed, h: seq<Event>, i: nat, n: nat)
    requires i <= n <= |h| && NoReset(h, i, n)
    ensures After(f, h, i).asked <= After(f, h, n).asked
    decreases n - i
  {
    hide InputFor;
    if i < n {
      AskedGrows(f, h, i, n - 1);
    }
  }

  lemma {:induction false} GotLooksBack(run: seq<Question>, other: seq<Question>, k: nat)
    requires k < |run| && run <= other
    ensures Got(run, k) == Got(other, k)
    decreases k
  {
    hide Decided;
    if k > 0 {
      GotLooksBack(run, other, k - 1);
    }
  }

  /** The decisions of a history, up to a reset, are one run of the engine. */
  lemma AnswerIsGot(f: Fixed, h: seq<Event>, i: nat, n: nat)
    requires i < n <= |h| && h[i].Decide? && NoReset(h, i, n)
    ensures var run, k := After(f, h, n).asked, |After(f, h, i).asked|;
            k < |run| && run[k].now == h[i].at && Got(run, k) == Answer(f, h, i)
  {
    hide Decided, InputFor;
    var w, shorter := After(f, h, i), After(f, h, i + 1).asked;
    AskedGrows(f, h, i + 1, n);
    assert shorter == w.asked + [Question(InputAt(f, w, h[i]), h[i].at)];
    var k := |w.asked|;
    GotLooksBack(shorter, After(f, h, n).asked, k);
    if k > 0 {
      GotLooksBack(w.asked, shorter, k - 1);
    }
  }

  predicate Steady(h: seq<Event>, stable: nat) {
    && (forall i :: 0 <= i < |h| && h[i].Decide? ==> h[i].q.policy.minStable == stable)
    && (forall i, j :: 0 <= i < j < |h| && h[i].Decide? && h[j].Decide? ==> h[i].at <= h[j].at)
  }

  /** Questions of a steady run with no burst budget, none later than any decision from event n on. */
  predicate SteadyRun(run: seq<Question>, h: seq<Event>, n: nat, stable: nat) {
    && (forall k :: 0 <= k < |run| ==> run[k].x.minStable == stable && !run[k].x.burstAvailable)
    && (forall k, m :: 0 <= k < |run| && n <= m < |h| && h[m].Decide? ==> run[k].now <= h[m].at)
    && (forall k, m :: 0 <= k < m < |run| ==> run[k].now <= run[m].now)
  }

  lemma OneMoreSteady(run: seq<Question>, q: Question, h: seq<Event>, n: nat, stable: nat)
    requires n < |h| && h[n].Decide? && Steady(h, stable) && SteadyRun(run, h, n, stable)
    requires q.now == h[n].at && q.x.minStable == stable && !q.x.burstAvailable
    ensures SteadyRun(run + [q], h, n + 1, stable)
  {
  }

  lemma {:induction false} AskedSteadily(f: Fixed, h: seq<Event>, n: nat, stable: nat)
    requires n <= |h| && Steady(h, stable) && !f.burst.enabled
    ensures SteadyRun(After(f, h, n).asked, h, n, stable)
  {
    if n > 0 {
      var w, e := After(f, h, n - 1), h[n - 1];
      AskedSteadily(f, h, n - 1, stable);
      if e.Decide? {
        OneMoreSteady(w.asked, Question(InputAt(f, w, e), e.at), h, n - 1, stable);
      } else {
        assert SteadyRun(w.asked, h, n, stable);
      }
    }
  }

  lemma NoBudgetNoBurst(x: Input)
    ensures BurstGrant(x) ==> x.burstAvailable
  {
    hide Ceiling;
  }

  /** The burst budget of a governor's device is never enabled, so over any history of samples,
      decisions, recoveries and resets, with a steady policy and clock, every ALLOW comes at least the
      stable duration after every earlier restrictive verdict since the last reset. */
  lemma GovernorNeverOscillates(f: Fixed, h: seq<Event>, i: nat, j: nat, stable: nat)
    requires i < j < |h| && h[i].Decide? && h[j].Decide? && Steady(h, stable) && !f.burst.enabled
    requires NoReset(h, i, j)
    requires Answer(f, h, i).verdict != ALLOW && Answer(f, h, j).verdict == ALLOW
    ensures h[j].at >= h[i].at + stable
  {
    hide Decided, InputFor, BurstGrant, After, Got, Steady;
    AskedSteadily(f, h, j + 1, stable);
    AnswerIsGot(f, h, i, j + 1);
    AnswerIsGot(f, h, j, j + 1);
    AskedOnce(f, h, i, j);
    var run, a, b := After(f, h, j + 1).asked, |After(f, h, i).asked|, |After(f, h, j).asked|;
    forall m | a < m <= b
      ensures run[m].x.minStable == stable && !BurstGrant(run[m].x)
    {
      NoBudgetNoBurst(run[m].x);
    }
    forall m | a <= m < b
      ensures run[m].now <= run[m + 1].now
    {
      assert 0 <= m < m + 1 < |run|;
    }
    NoOscillation(run, a, b, stable);
  }

  lemma AskedOnce(f: Fixed, h: seq<Event>, i: nat, j: nat)
    requires i < j < |h| && h[i].Decide? && NoReset(h, i, j)
    ensures |After(f, h, i).asked| < |After(f, h, j).asked|
  {
    hide InputFor;
    AskedGrows(f, h, i + 1, j);
  }

  /** The first decision after a reset is what it would be had nothing ever been decided. */
  lemma ResetForgets(f: Fixed, h: seq<Event>, r: nat, i: nat)
    requires r < i < |h| && h[r].Reset? && h[i].Decide? && forall k :: r < k < i ==> !h[k].Decide?
    ensures Answer(f, h, i) == Memoryless(InputAt(f, After(f, h, i), h[i]))
  {
    NothingAsked(f, h, r, i);
    hide InputFor, Memoryless;
  }

  lemma {:induction false} NothingAsked(f: Fixed, h: seq<Event>, r: nat, n: nat)
    requires r < n <= |h| && h[r].Reset? && forall k :: r < k < n ==> !h[k].Decide?
    ensures After(f, h, n).asked == []
    decreases n
  {
    hide InputFor;
    if r + 1 < n {
      NothingAsked(f, h, r, n - 1);
    }
  }

  // ---- Histories in which the promises fail ----------------------------------------------------

  /** A sample that goes back in time is refused half way: it is the latest, its time is the time of
      observation and its temperature sets the ceiling, but the thermal automaton, the window and the
      backend cap are still those of the sample before. */
  lemma BackInTimeSampleHalfKept(th: Thresholds, t: int, earlier: int)
    requires earlier < t
    ensures var before := Ingested(th, None, BackendSample(Some(100.0), Some(40.0), Some(300.0), false), t);
            var late := BackendSample(Some(90.0), Some(95.0), Some(200.0), true);
            var after := Ingested(th, Some(before.device), late, earlier);
            && before.ok && !after.ok
            && after.device.latest == Some(late) && after.device.lastObserved == earlier
            && TemperatureOf(after.device) == Some(95.0)
            && after.device.hardwareCap == Some(300.0) && after.device.thermal == before.device.thermal
            && after.device.window == before.device.window
  {
    var first := PowerWindow.Sample(t, 100.0);
    assert [] + [first] == [first];
    assert PowerWindow.After(PowerWindow.EMPTY, WINDOW_NS, first).samples == [first];
  }

  /** A policy that enforces an energy window and nothing else, and a request for all of that energy. */
  function WholeWindow(joules: real): Query {
    Query(Policy(None, None, None, None, true, joules, 1, 1, 1, 0), 0, 0.0, joules, 0.0)
  }

  /** One sample, then the same request n times at the same instant. */
  function Requests(joules: real, n: nat): (h: seq<Event>)
    ensures |h| == n + 1
  {
    [Ingest(BackendSample(Some(0.0), None, None, false), 1)] + seq(n, i => Decide(map[], WholeWindow(joules), 1))
  }

  lemma {:induction false} SampleStays(f: Fixed, joules: real, n: nat, i: nat)
    requires 1 <= i <= n + 1
    ensures var dev := After(f, Requests(joules, n), i).dev;
            dev.Some? && dev.value.lastObserved == 1 && dev.value.thermal == FRESH
            && dev.value.hardwareCap == None && dev.value.lastTemp == None
  {
    hide InputFor;
    if i > 1 {
      SampleStays(f, joules, n, i - 1);
    }
  }

  /** The energy window never fills: every one of n requests, each for the whole window, is allowed. */
  lemma EnergyWindowNeverFills(f: Fixed, joules: real, n: nat, i: nat)
    requires joules > 0.0 && 1 <= i <= n
    ensures var h := Requests(joules, n); h[i].Decide? && Answer(f, h, i).verdict == ALLOW
  {
    hide Fits, BurstCapacity;
    SampleStays(f, joules, n, i);
  }
}
