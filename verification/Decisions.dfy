/** The decision engine: a verdict is a function of the input and of the last verdict with its time.
    Power is in watts and energy in joules, both reals; time is in nanoseconds. */
module Decisions {
  import opened Basics
  import opened Thermal

  datatype Verdict = ALLOW | ALLOW_WITH_LIMIT | THROTTLE | DEFER | REVALIDATION_REQUIRED | REJECT

  datatype Freshness = CURRENT | AGING | STALE | EXPIRED

  datatype Binding = Nothing | TelemetryFreshness | DeviceHardCap | BudgetCap | ThermalCap | SoftTarget

  datatype Input = Input(
    requested: real, energy: real,
    hardwareCap: Option<real>, budgetAvailable: Option<real>, thermalCeiling: Option<real>,
    softTarget: Option<real>,
    thermalKnown: bool, thermal: ThermalState,
    energyEnforced: bool, energyBudget: real, energyUsed: real,
    burstAvailable: bool, policyCurrent: bool, freshness: Freshness, minStable: nat)

  datatype Limit = Limit(watts: Option<real>, binding: Binding)

  datatype Decision = Decision(verdict: Verdict, limit: Option<real>, binding: Binding)

  datatype Last = Last(verdict: Verdict, at: int)

  // ---- The ceiling ----------------------------------------------------------------------------

  predicate Counts(cap: Option<real>) { cap.Some? && cap.value >= 0.0 }

  /** A cap takes over when it is lower than what is there; the first of equal caps stays. */
  function Considered(l: Limit, cap: Option<real>, kind: Binding): Limit {
    if Counts(cap) && (l.watts.None? || cap.value < l.watts.value) then Limit(cap, kind) else l
  }

  function Ceiling(x: Input): Limit {
    Considered(Considered(Considered(Limit(None, Nothing), x.hardwareCap, DeviceHardCap),
                          x.budgetAvailable, BudgetCap), x.thermalCeiling, ThermalCap)
  }

  /** No ceiling means an infinite one. */
  predicate Exceeds(x: real, ceiling: Option<real>, tolerance: real) {
    ceiling.Some? && x > ceiling.value + tolerance
  }

  // ---- The verdict ----------------------------------------------------------------------------

  predicate Current(x: Input) { x.policyCurrent && x.freshness != STALE && x.freshness != EXPIRED }

  predicate Constrained(x: Input) { x.thermalKnown && x.thermal == THERMALLY_CONSTRAINED }

  predicate Recovering(x: Input) { x.thermalKnown && x.thermal == RECOVERING }

  predicate OverEnergy(x: Input) {
    x.energyEnforced && x.energyBudget > 0.0 && x.energy > x.energyBudget - x.energyUsed + TOLERANCE
  }

  predicate OverSoft(x: Input) { x.softTarget.Some? && x.requested > x.softTarget.value }

  /** The verdict from the input alone, steps 1 to 8. */
  function Memoryless(x: Input): Decision {
    var c := Ceiling(x);
    if !Current(x) then Decision(REVALIDATION_REQUIRED, None, TelemetryFreshness)
    else if Exceeds(x.requested, c.watts, 0.0) && c.watts.value <= TOLERANCE then
      Decision(if Constrained(x) then DEFER else REJECT, c.watts, c.binding)
    else if Constrained(x) then Decision(THROTTLE, c.watts, c.binding)
    else if Exceeds(x.requested, c.watts, TOLERANCE) || Recovering(x) then
      Decision(ALLOW_WITH_LIMIT, c.watts, c.binding)
    else if OverSoft(x) then
      if x.burstAvailable && !Exceeds(x.requested, c.watts, 0.0) then Decision(ALLOW, c.watts, c.binding)
      else Decision(ALLOW_WITH_LIMIT, x.softTarget, SoftTarget)
    else if OverEnergy(x) then Decision(THROTTLE, c.watts, c.binding)
    else Decision(ALLOW, c.watts, c.binding)
  }

  /** ALLOW above the soft target, granted from the burst budget; it does not look at the hysteresis. */
  predicate BurstGrant(x: Input) { Memoryless(x).verdict == ALLOW && OverSoft(x) }

  predicate DefaultAllow(x: Input) { Memoryless(x).verdict == ALLOW && !OverSoft(x) }

  /** The last verdict was restrictive and less than the stable duration ago. */
  predicate Holding(last: Option<Last>, stable: nat, now: int) {
    last.Some? && last.value.verdict != ALLOW && Elapsed(now, last.value.at) < stable
  }

  function Decided(last: Option<Last>, x: Input, now: int): Decision {
    var m := Memoryless(x);
    if DefaultAllow(x) && Holding(last, x.minStable, now) then
      if last.value.verdict == ALLOW_WITH_LIMIT && m.limit.None?
      then Decision(ALLOW_WITH_LIMIT, x.softTarget, SoftTarget)
      else m.(verdict := last.value.verdict)
    else m
  }

  class DecisionEngine {
    var last: Option<Last>

    constructor ()
      ensures last == None
    {
      last := None;
    }

    method ResetHysteresis()
      modifies this
      ensures last == None
    {
      last := None;
    }

    method MakeVerdict(now: int, verdict: Verdict, limit: Option<real>, binding: Binding) returns (d: Decision)
      modifies this
      ensures d == Decision(verdict, limit, binding) && last == Some(Last(verdict, now))
    {
      d := Decision(verdict, limit, binding);
      last := Some(Last(verdict, now));
    }

    method Evaluate(x: Input, now: int) returns (d: Decision)
      modifies this
      ensures d == Decided(old(last), x, now)
      ensures last == Some(Last(d.verdict, now))
    {
      if !x.policyCurrent || x.freshness == STALE || x.freshness == EXPIRED {
        d := MakeVerdict(now, REVALIDATION_REQUIRED, None, TelemetryFreshness);
        return;
      }
      var constrained := x.thermalKnown && x.thermal == THERMALLY_CONSTRAINED;
      var recovering := x.thermalKnown && x.thermal == RECOVERING;
      var limit := Limit(None, Nothing);
      limit := Considered(limit, x.hardwareCap, DeviceHardCap);
      limit := Considered(limit, x.budgetAvailable, BudgetCap);
      limit := Considered(limit, x.thermalCeiling, ThermalCap);
      var ceiling, binding := limit.watts, limit.binding;
      var verdict;
      if ceiling.Some? && ceiling.value < x.requested && ceiling.value <= TOLERANCE {
        verdict := if constrained then DEFER else REJECT;
        d := MakeVerdict(now, verdict, ceiling, binding);
        return;
      }
      if ceiling.Some? && x.requested > ceiling.value + TOLERANCE {
        if constrained {
          verdict := THROTTLE;
        } else {
          verdict := ALLOW_WITH_LIMIT;
        }
        d := MakeVerdict(now, verdict, ceiling, binding);
        return;
      }
      if constrained {
        d := MakeVerdict(now, THROTTLE, ceiling, binding);
        return;
      }
      if recovering {
        d := MakeVerdict(now, ALLOW_WITH_LIMIT, ceiling, binding);
        return;
      }
      if x.softTarget.Some? && x.requested > x.softTarget.value {
        if x.burstAvailable && (ceiling.None? || x.requested <= ceiling.value) {
          verdict := ALLOW;
        } else {
          verdict := ALLOW_WITH_LIMIT;
          ceiling := x.softTarget;
          binding := SoftTarget;
        }
        d := MakeVerdict(now, verdict, ceiling, binding);
        return;
      }
      if x.energyEnforced && x.energyBudget > 0.0 {
        var remaining := x.energyBudget - x.energyUsed;
        if x.energy > remaining + TOLERANCE {
          d := MakeVerdict(now, THROTTLE, ceiling, binding);
          return;
        }
      }
      verdict := ALLOW;
      if last.Some? && last.value.verdict != ALLOW && Elapsed(now, last.value.at) < x.minStable {
        verdict := last.value.verdict;
        if verdict == ALLOW_WITH_LIMIT && ceiling.None? {
          ceiling := x.softTarget;
          binding := SoftTarget;
        }
      }
      d := MakeVerdict(now, verdict, ceiling, binding);
    }
  }

  // ---- Caps -----------------------------------------------------------------------------------

  predicate Under(x: real, cap: Option<real>, tolerance: real) { Counts(cap) ==> x <= cap.value + tolerance }

  predicate UnderAll(x: Input, watts: real, tolerance: real) {
    Under(watts, x.hardwareCap, tolerance) && Under(watts, x.budgetAvailable, tolerance)
    && Under(watts, x.thermalCeiling, tolerance)
  }

  /** Being within the ceiling is being within all three caps. */
  lemma CeilingIsLeast(x: Input, watts: real, tolerance: real)
    ensures !Exceeds(watts, Ceiling(x).watts, tolerance) <==> UnderAll(x, watts, tolerance)
  {
  }

  /** This cap leaves nothing to allow. */
  predicate Drained(cap: Option<real>, watts: real) { cap.Some? && 0.0 <= cap.value <= TOLERANCE && cap.value < watts }

  predicate AnyDrained(x: Input) {
    Drained(x.hardwareCap, x.requested) || Drained(x.budgetAvailable, x.requested) || Drained(x.thermalCeiling, x.requested)
  }

  lemma DrainedIsCeiling(x: Input)
    ensures AnyDrained(x) <==> Exceeds(x.requested, Ceiling(x).watts, 0.0) && Ceiling(x).watts.value <= TOLERANCE
  {
  }

  /** The last verdict was this one, restrictive, and less than the stable duration ago; a clock that went back
      counts as no time at all. */
  predicate Fresh(last: Option<Last>, stable: nat, now: int, verdict: Verdict) {
    last.Some? && last.value.verdict == verdict != ALLOW && stable > 0 && now - last.value.at < stable
  }

  /** Every verdict, whatever came before.  What a verdict depends on is said of the fields of the input: the
      telemetry, the thermal state, the three caps, the soft target, the energy window and the last verdict. */
  lemma VerdictExactly(last: Option<Last>, x: Input, now: int)
    ensures var current := x.policyCurrent && x.freshness in {CURRENT, AGING};
            var constrained := x.thermalKnown && x.thermal == THERMALLY_CONSTRAINED;
            var recovering := x.thermalKnown && x.thermal == RECOVERING;
            var drained, fits := AnyDrained(x), UnderAll(x, x.requested, TOLERANCE);
            var aboveSoft := x.softTarget.Some? && x.softTarget.value < x.requested;
            var bursts := x.burstAvailable && UnderAll(x, x.requested, 0.0);
            var overEnergy := x.energyEnforced && x.energyBudget > 0.0 && x.energyUsed + x.energy > x.energyBudget + TOLERANCE;
            var open := current && !constrained && !drained && !recovering && fits;
            var free := open && !aboveSoft && !overEnergy;
            var verdict := Decided(last, x, now).verdict;
            && (verdict == ALLOW <==>
                  (open && aboveSoft && bursts) ||
                  (free && forall v :: !Fresh(last, x.minStable, now, v)))
            && (verdict == REVALIDATION_REQUIRED <==>
                  !current || (free && Fresh(last, x.minStable, now, REVALIDATION_REQUIRED)))
            && (verdict == REJECT <==>
                  (current && drained && !constrained) || (free && Fresh(last, x.minStable, now, REJECT)))
            && (verdict == DEFER <==>
                  (current && drained && constrained) || (free && Fresh(last, x.minStable, now, DEFER)))
            && (verdict == THROTTLE <==>
                  (current && !drained && constrained) || (open && !aboveSoft && overEnergy)
                  || (free && Fresh(last, x.minStable, now, THROTTLE)))
            && (verdict == ALLOW_WITH_LIMIT <==>
                  (current && !drained && !constrained && (recovering || !fits)) || (open && aboveSoft && !bursts)
                  || (free && Fresh(last, x.minStable, now, ALLOW_WITH_LIMIT)))
  {
    CeilingIsLeast(x, x.requested, TOLERANCE);
    CeilingIsLeast(x, x.requested, 0.0);
    DrainedIsCeiling(x);
    hide Ceiling, UnderAll, AnyDrained;
    FreshIsHolding(last, x.minStable, now);
    hide Fresh;
  }

  lemma FreshIsHolding(last: Option<Last>, stable: nat, now: int)
    ensures Holding(last, stable, now) <==> exists v :: Fresh(last, stable, now, v)
    ensures forall v :: Fresh(last, stable, now, v) <==> Holding(last, stable, now) && last.value.verdict == v
  {
    if Holding(last, stable, now) {
      assert Fresh(last, stable, now, last.value.verdict);
    }
  }

  /** ALLOW in particular means fresh telemetry, no thermal restriction, and a request within every cap; and on
      a request within its soft target, within the energy window. */
  lemma AllowExactly(last: Option<Last>, x: Input, now: int)
    ensures Decided(last, x, now).verdict == ALLOW <==>
              && Current(x) && !Constrained(x) && !Recovering(x)
              && UnderAll(x, x.requested, TOLERANCE) && !AnyDrained(x)
              && (if OverSoft(x) then x.burstAvailable && UnderAll(x, x.requested, 0.0)
                  else !OverEnergy(x) && !Holding(last, x.minStable, now))
  {
    VerdictExactly(last, x, now);
    FreshIsHolding(last, x.minStable, now);
    hide Decided, Ceiling, UnderAll, AnyDrained, Fresh, Holding;
  }

  /** Any limit the engine recommends, with any verdict and history, is within every cap: exactly, unless
      it is the soft target, which may be over by less than the tolerance. */
  lemma LimitWithinCaps(last: Option<Last>, x: Input, now: int)
    ensures var d := Decided(last, x, now);
            d.limit.Some? ==>
              UnderAll(x, d.limit.value, if d.binding == SoftTarget then TOLERANCE else 0.0)
  {
    var c := Ceiling(x);
    if c.watts.Some? {
      CeilingIsLeast(x, c.watts.value, 0.0);
    }
    if x.softTarget.Some? {
      CeilingIsLeast(x, x.softTarget.value, TOLERANCE);
    }
    CeilingBinding(x);
    hide Ceiling, UnderAll;
  }

  /** The cap a binding names. */
  function Named(x: Input, binding: Binding): Option<real> {
    match binding
    case DeviceHardCap => x.hardwareCap
    case BudgetCap => x.budgetAvailable
    case ThermalCap => x.thermalCeiling
    case SoftTarget => x.softTarget
    case Nothing => None
    case TelemetryFreshness => None
  }

  predicate AtMost(cap: Option<real>, other: Option<real>)
    requires Counts(cap)
  {
    Counts(other) ==> cap.value <= other.value
  }

  predicate Less(cap: Option<real>, other: Option<real>)
    requires Counts(cap)
  {
    Counts(other) ==> cap.value < other.value
  }

  lemma CeilingBinding(x: Input)
    ensures var c := Ceiling(x);
            && (c.binding == DeviceHardCap ==>
                  Counts(x.hardwareCap) && AtMost(x.hardwareCap, x.budgetAvailable) && AtMost(x.hardwareCap, x.thermalCeiling))
            && (c.binding == BudgetCap ==>
                  Counts(x.budgetAvailable) && Less(x.budgetAvailable, x.hardwareCap) && AtMost(x.budgetAvailable, x.thermalCeiling))
            && (c.binding == ThermalCap ==>
                  Counts(x.thermalCeiling) && Less(x.thermalCeiling, x.hardwareCap) && Less(x.thermalCeiling, x.budgetAvailable))
    ensures var c := Ceiling(x);
            && c.binding in {Nothing, DeviceHardCap, BudgetCap, ThermalCap} && c.watts == Named(x, c.binding)
            && (c.binding == Nothing <==> !Counts(x.hardwareCap) && !Counts(x.budgetAvailable) && !Counts(x.thermalCeiling))
  {
  }

  /** The binding constraint a decision reports is the real one: the recommended limit is the value of
      the cap it names, the least of the three, the first of equal ones; a decision that names none had no cap
      to meet; and the telemetry is named exactly when it is not current. */
  lemma BindingIsReal(last: Option<Last>, x: Input, now: int)
    ensures var d := Decided(last, x, now);
            && d.limit == Named(x, d.binding)
            && (d.binding == TelemetryFreshness <==> !Current(x))
            && (d.binding == Nothing ==> d.limit == None && forall watts :: UnderAll(x, watts, 0.0))
            && (d.binding == SoftTarget ==> d.verdict == ALLOW_WITH_LIMIT)
            && (d.binding == DeviceHardCap ==>
                  Counts(x.hardwareCap) && AtMost(x.hardwareCap, x.budgetAvailable) && AtMost(x.hardwareCap, x.thermalCeiling))
            && (d.binding == BudgetCap ==>
                  Counts(x.budgetAvailable) && Less(x.budgetAvailable, x.hardwareCap) && AtMost(x.budgetAvailable, x.thermalCeiling))
            && (d.binding == ThermalCap ==>
                  Counts(x.thermalCeiling) && Less(x.thermalCeiling, x.hardwareCap) && Less(x.thermalCeiling, x.budgetAvailable))
  {
    CeilingBinding(x);
    if Ceiling(x).binding == Nothing {
      forall watts
        ensures UnderAll(x, watts, 0.0)
      {
      }
    }
    hide Ceiling, UnderAll;
  }

  /** The soft target is what is recommended exactly when a request above it, within the caps, finds no burst
      budget, or when an earlier limit is held although there is no cap. */
  lemma SoftTargetExactly(last: Option<Last>, x: Input, now: int)
    ensures Decided(last, x, now).binding == SoftTarget <==>
              && Current(x) && !Constrained(x) && !Recovering(x) && !AnyDrained(x) && UnderAll(x, x.requested, TOLERANCE)
              && (if OverSoft(x) then !(x.burstAvailable && UnderAll(x, x.requested, 0.0))
                  else !OverEnergy(x) && Fresh(last, x.minStable, now, ALLOW_WITH_LIMIT)
                       && !Counts(x.hardwareCap) && !Counts(x.budgetAvailable) && !Counts(x.thermalCeiling))
  {
    CeilingIsLeast(x, x.requested, TOLERANCE);
    CeilingIsLeast(x, x.requested, 0.0);
    DrainedIsCeiling(x);
    CeilingBinding(x);
    hide Ceiling, UnderAll, AnyDrained;
    FreshIsHolding(last, x.minStable, now);
    hide Fresh, Holding;
  }

  /** A budget in whole milliwatts leaves no room for the tolerance: a request in whole milliwatts that is
      allowed is covered exactly. */
  lemma AllowedMilliwattsCovered(last: Option<Last>, x: Input, now: int, request: int, available: nat)
    requires x.requested == request as real / 1000.0 && x.budgetAvailable == Some(available as real / 1000.0)
    requires Decided(last, x, now).verdict == ALLOW
    ensures request <= available
  {
    AllowExactly(last, x, now);
    MilliwattsApart(request, available);
  }

  lemma MilliwattsApart(a: int, b: int)
    ensures a > b ==> a as real / 1000.0 >= b as real / 1000.0 + 0.001
  {
    if a > b {
      assert a as real >= (b + 1) as real;
    }
  }

  // ---- Hysteresis -----------------------------------------------------------------------------

  /** Hysteresis changes the verdict exactly when the input alone would be allowed by default and a
      restrictive verdict is still fresh; it never loosens anything. */
  lemma HysteresisActsExactly(last: Option<Last>, x: Input, now: int)
    ensures Decided(last, x, now) != Memoryless(x) <==> DefaultAllow(x) && Holding(last, x.minStable, now)
    ensures Decided(last, x, now).verdict == ALLOW ==> Memoryless(x).verdict == ALLOW
  {
  }

  datatype Question = Question(x: Input, now: int)

  function LastBefore(run: seq<Question>, i: nat): Option<Last>
    requires i <= |run|
    decreases i, 0
  {
    if i == 0 then None else Some(Last(Got(run, i - 1).verdict, run[i - 1].now))
  }

  function Got(run: seq<Question>, i: nat): Decision
    requires i < |run|
    decreases i, 1
  {
    Decided(LastBefore(run, i), run[i].x, run[i].now)
  }

  /** Directly after a restrictive verdict an ALLOW comes sooner than the stable duration exactly when it
      is a burst grant. */
  lemma EarlyAllowIsBurst(run: seq<Question>, i: nat)
    requires 0 < i < |run| && Got(run, i - 1).verdict != ALLOW
    requires Elapsed(run[i].now, run[i - 1].now) < run[i].x.minStable
    ensures Got(run, i).verdict == ALLOW <==> BurstGrant(run[i].x)
  {
    HysteresisActsExactly(LastBefore(run, i), run[i].x, run[i].now);
  }

  /** No oscillation over any run with a clock that does not go back: an ALLOW that is not preceded, since
      some restrictive verdict, by a burst grant comes at least the stable duration after it. */
  lemma {:induction false} NoOscillation(run: seq<Question>, i: nat, j: nat, stable: nat)
    requires i < j < |run| && Got(run, i).verdict != ALLOW && Got(run, j).verdict == ALLOW
    requires forall m :: i < m <= j ==> run[m].x.minStable == stable && !BurstGrant(run[m].x)
    requires forall m :: i <= m < j ==> run[m].now <= run[m + 1].now
    ensures run[j].now >= run[i].now + stable
    decreases j - i
  {
    hide Memoryless;
    ClockRises(run, i, j - 1);
    assert run[j - 1].now <= run[j - 1 + 1].now;
    if Got(run, j - 1).verdict == ALLOW {
      NoOscillation(run, i, j - 1, stable);
    } else if Elapsed(run[j].now, run[j - 1].now) < stable {
      EarlyAllowIsBurst(run, j);
    }
  }

  lemma {:induction false} ClockRises(run: seq<Question>, i: nat, j: nat)
    requires i <= j < |run| && forall m :: i <= m < j ==> run[m].now <= run[m + 1].now
    ensures run[i].now <= run[j].now
    decreases j - i
  {
    if i < j {
      ClockRises(run, i, j - 1);
      assert run[j - 1].now <= run[j - 1 + 1].now;
    }
  }

  /** After a quiet gap of the stable duration the verdict is the memoryless one. */
  lemma QuietGapForgets(run: seq<Question>, i: nat)
    requires 0 < i < |run| && Elapsed(run[i].now, run[i - 1].now) >= run[i].x.minStable
    ensures Got(run, i) == Memoryless(run[i].x)
  {
    HysteresisActsExactly(LastBefore(run, i), run[i].x, run[i].now);
  }

  /** But a hold is not bounded: every held verdict stamps the timer anew, so under polling that never
      leaves such a gap the restrictive verdict stays, however often the input alone would be allowed. */
  lemma {:induction false} PollingHolds(run: seq<Question>, i: nat, j: nat)
    requires i <= j < |run| && Got(run, i).verdict != ALLOW
    requires forall m :: i < m <= j ==>
               DefaultAllow(run[m].x) && Elapsed(run[m].now, run[m - 1].now) < run[m].x.minStable
    ensures Got(run, j).verdict == Got(run, i).verdict
    decreases j - i
  {
    hide Memoryless, DefaultAllow;
    if i < j {
      PollingHolds(run, i, j - 1);
    }
  }

  function Polls(bad: Input, good: Input, period: int, n: nat): (run: seq<Question>)
    ensures |run| == n + 1
  {
    seq(n + 1, k => Question(if k == 0 then bad else good, k * period))
  }

  /** For every span of time there is a run in which one bad input is followed by nothing but inputs that
      would be allowed, and is still held against them when that time has passed. */
  lemma HoldOutlastsAnyTime(bad: Input, good: Input, span: nat) returns (run: seq<Question>)
    requires Memoryless(bad).verdict != ALLOW && DefaultAllow(good) && good.minStable >= 2
    ensures run != [] && run[0].x == bad && forall m :: 0 < m < |run| ==> run[m].x == good
    ensures run[|run| - 1].now - run[0].now >= span
    ensures Got(run, |run| - 1).verdict == Memoryless(bad).verdict
  {
    hide Memoryless, DefaultAllow;
    var period: int := good.minStable - 1;
    run := Polls(bad, good, period, span);
    forall m | 0 < m <= span
      ensures Elapsed(run[m].now, run[m - 1].now) < run[m].x.minStable
    {
      assert m * period == (m - 1) * period + period;
    }
    assert span * period >= span by {
      assert span * (period - 1) >= 0;
    }
    FirstIsMemoryless(run);
    PollingHolds(run, 0, span);
  }

  lemma FirstIsMemoryless(run: seq<Question>)
    requires run != []
    ensures Got(run, 0) == Memoryless(run[0].x)
  {
  }
}
