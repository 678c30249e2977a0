/** The thermal automaton and the power ceiling it implies.  Temperatures are reals. */
module Thermal {
  import opened Basics

  datatype ThermalState = UNKNOWN | COOL | NORMAL | WARM | HOT | THERMALLY_CONSTRAINED | RECOVERING

  datatype Thresholds = Thresholds(
    coolMax: real, normalMax: real, warmMax: real, hotMax: real,
    margin: real, reduction: real, confirm: int)

  /** `classify_raw`: the tests run upwards and nothing makes the thresholds ordered. */
  function Classify(th: Thresholds, t: real): ThermalState {
    if t < th.coolMax then COOL
    else if t < th.normalMax then NORMAL
    else if t < th.warmMax then WARM
    else if t < th.hotMax then HOT
    else THERMALLY_CONSTRAINED
  }

  /** The automaton proper: its state and the hot samples counted towards confirmation. */
  datatype Automaton = Automaton(state: ThermalState, pending: int)

  const FRESH := Automaton(UNKNOWN, 0)

  function Observed(th: Thresholds, a: Automaton, temp: Option<real>): Automaton {
    match temp
    case None => a.(state := UNKNOWN)
    case Some(t) =>
      var raw := Classify(th, t);
      if raw == THERMALLY_CONSTRAINED then
        if a.state == THERMALLY_CONSTRAINED || a.pending + 1 >= th.confirm
        then Automaton(THERMALLY_CONSTRAINED, 0)
        else a.(pending := a.pending + 1)
      else if a.state == THERMALLY_CONSTRAINED then
        Automaton(if t < th.hotMax - th.margin then RECOVERING else a.state, 0)
      else if a.state == RECOVERING then
        Automaton(if t <= th.warmMax then NORMAL else a.state, 0)
      else Automaton(raw, 0)
  }

  class ThermalGovernor {
    const thresholds: Thresholds
    var state: ThermalState
    var needConfirm: int
    var generation: Gen
    var lastTemp: Option<real>
    var lastNow: int

    function Abstract(): Automaton
      reads this
    {
      Automaton(state, needConfirm)
    }

    constructor (th: Thresholds)
      ensures thresholds == th && Abstract() == FRESH && generation == 0 && lastTemp == None && lastNow == 0
    {
      thresholds, state, needConfirm, generation, lastTemp, lastNow := th, UNKNOWN, 0, 0, None, 0;
    }

    method Observe(temp: Option<real>, now: int) returns (resolved: ThermalState)
      modifies this
      ensures Abstract() == old(Observed(thresholds, Abstract(), temp)) && resolved == state
      ensures lastNow == now && lastTemp == (if temp.Some? then temp else old(lastTemp))
      ensures generation == old(generation) + if temp.Some? then 1 else 0
    {
      lastNow := now;
      if temp.None? {
        state := UNKNOWN;
        return state;
      }
      lastTemp := temp;
      var t := temp.value;
      var raw := Classify(thresholds, t);
      generation := generation + 1;
      if raw == THERMALLY_CONSTRAINED {
        if state != THERMALLY_CONSTRAINED {
          needConfirm := needConfirm + 1;
          if needConfirm >= thresholds.confirm {
            state := THERMALLY_CONSTRAINED;
            needConfirm := 0;
          }
        } else {
          needConfirm := 0;
        }
        return state;
      }
      needConfirm := 0;
      if state == THERMALLY_CONSTRAINED {
        if t < thresholds.hotMax - thresholds.margin {
          state := RECOVERING;
        }
        return state;
      }
      if state == RECOVERING {
        if t <= thresholds.warmMax {
          state := NORMAL;
        }
        return state;
      }
      state := raw;
      return state;
    }

    method Reset()
      modifies this
      ensures Abstract() == FRESH && generation == 0 && lastTemp == None && lastNow == 0
    {
      state, needConfirm, generation, lastTemp, lastNow := UNKNOWN, 0, 0, None, 0;
    }
  }

  // ---- The trace specification ----------------------------------------------------------------

  /** The automaton after the first n samples, all present. */
  function After(th: Thresholds, a: Automaton, ts: seq<real>, n: nat): Automaton
    requires n <= |ts|
  {
    if n == 0 then a else Observed(th, After(th, a, ts, n - 1), Some(ts[n - 1]))
  }

  /** Classified as constrained: not below any of the four thresholds. */
  predicate Hot(th: Thresholds, t: real) {
    t >= th.coolMax && t >= th.normalMax && t >= th.warmMax && t >= th.hotMax
  }

  predicate Cooled(th: Thresholds, t: real) { !Hot(th, t) && t < th.hotMax - th.margin }

  /** A confirmation count below one acts as one. */
  function Needed(th: Thresholds): (k: nat)
    ensures k >= 1
  {
    if th.confirm < 1 then 1 else th.confirm
  }

  predicate HotBetween(th: Thresholds, ts: seq<real>, from: int, to: int) {
    0 <= from <= to <= |ts| && forall m :: from <= m < to ==> Hot(th, ts[m])
  }

  /** Some run of that many consecutive samples were all hot, and no later one has cooled. */
  predicate Confirmed(th: Thresholds, ts: seq<real>, n: nat)
    requires n <= |ts|
  {
    exists e :: 0 <= e <= n && ConfirmedAt(th, ts, n, e)
  }

  predicate ConfirmedAt(th: Thresholds, ts: seq<real>, n: nat, e: int)
    requires n <= |ts|
  {
    HotBetween(th, ts, e - Needed(th), e) && forall m :: e <= m < n ==> !Cooled(th, ts[m])
  }

  /** Cooled while confirmed, and since then every sample was hot or above the warm threshold. */
  predicate RecoveringSince(th: Thresholds, ts: seq<real>, n: nat, c: int)
    requires n <= |ts|
  {
    && 0 <= c < n && Confirmed(th, ts, c) && Cooled(th, ts[c])
    && forall m :: c < m < n ==> Hot(th, ts[m]) || ts[m] > th.warmMax
  }

  ghost predicate Recovering(th: Thresholds, ts: seq<real>, n: nat)
    requires n <= |ts|
  {
    exists c :: RecoveringSince(th, ts, n, c)
  }

  lemma ConfirmedStep(th: Thresholds, ts: seq<real>, n: nat)
    requires 0 < n <= |ts|
    ensures Confirmed(th, ts, n) <==>
              (Confirmed(th, ts, n - 1) && !Cooled(th, ts[n - 1])) || HotBetween(th, ts, n - Needed(th), n)
  {
    if Confirmed(th, ts, n - 1) && !Cooled(th, ts[n - 1]) {
      var e :| 0 <= e <= n - 1 && ConfirmedAt(th, ts, n - 1, e);
      assert ConfirmedAt(th, ts, n, e);
    }
    if HotBetween(th, ts, n - Needed(th), n) {
      assert ConfirmedAt(th, ts, n, n);
    }
    if Confirmed(th, ts, n) {
      var e :| 0 <= e <= n && ConfirmedAt(th, ts, n, e);
      if e < n {
        assert ConfirmedAt(th, ts, n - 1, e);
      }
    }
  }

  /** While not confirmed, `pending` is exactly how many samples the trailing hot run holds. */
  predicate CountsRun(th: Thresholds, ts: seq<real>, n: nat, p: int)
    requires n <= |ts|
  {
    HotBetween(th, ts, n - p, n) && (n - p > 0 ==> !Hot(th, ts[n - p - 1]))
  }

  lemma {:induction false} AutomatonMeetsTrace(th: Thresholds, ts: seq<real>, n: nat)
    requires n <= |ts|
    ensures var a := After(th, FRESH, ts, n);
            && (a.state == THERMALLY_CONSTRAINED <==> Confirmed(th, ts, n))
            && (a.state == THERMALLY_CONSTRAINED ==> a.pending == 0)
            && (a.state != THERMALLY_CONSTRAINED ==> 0 <= a.pending < Needed(th) && CountsRun(th, ts, n, a.pending))
  {
    hide Confirmed;
    if n == 0 {
      NothingConfirmed(th, ts);
    } else {
      AutomatonMeetsTrace(th, ts, n - 1);
      ConfirmedStep(th, ts, n);
      var before, t := After(th, FRESH, ts, n - 1), ts[n - 1];
      if before.state != THERMALLY_CONSTRAINED && Hot(th, t) {
        RunReachesExactly(th, ts, n, before.pending);
      } else if !Hot(th, t) {
        assert !HotBetween(th, ts, n - Needed(th), n);
      }
    }
  }

  lemma NothingConfirmed(th: Thresholds, ts: seq<real>)
    ensures !Confirmed(th, ts, 0)
  {
  }

  lemma RunReachesExactly(th: Thresholds, ts: seq<real>, n: nat, p: int)
    requires 0 < n <= |ts| && 0 <= p < Needed(th) && CountsRun(th, ts, n - 1, p) && Hot(th, ts[n - 1])
    ensures CountsRun(th, ts, n, p + 1)
    ensures HotBetween(th, ts, n - Needed(th), n) <==> p + 1 == Needed(th)
  {
    if p + 1 < Needed(th) && n - 1 - p > 0 {
      assert !Hot(th, ts[n - p - 2]);
    }
  }

  /** The automaton equals its trace: constrained exactly when enough consecutive samples were hot and
      none has cooled since; recovering exactly when not so, but a sample cooled while it was so and
      nothing since was at or below the warm threshold. */
  lemma ConstrainedExactly(th: Thresholds, ts: seq<real>, n: nat)
    requires n <= |ts|
    ensures After(th, FRESH, ts, n).state == THERMALLY_CONSTRAINED <==> Confirmed(th, ts, n)
  {
    AutomatonMeetsTrace(th, ts, n);
  }

  lemma {:induction false} RecoveringExactly(th: Thresholds, ts: seq<real>, n: nat)
    requires n <= |ts|
    ensures After(th, FRESH, ts, n).state == RECOVERING <==>
              !Confirmed(th, ts, n) && Recovering(th, ts, n)
  {
    if n > 0 {
      RecoveringExactly(th, ts, n - 1);
      RecoveringStep(th, ts, n);
      ConstrainedExactly(th, ts, n);
      ConstrainedExactly(th, ts, n - 1);
      hide Confirmed, Recovering;
      ConfirmedStep(th, ts, n);
    }
  }

  lemma RecoveringStep(th: Thresholds, ts: seq<real>, n: nat)
    requires 0 < n <= |ts|
    ensures Recovering(th, ts, n) <==>
              (Confirmed(th, ts, n - 1) && Cooled(th, ts[n - 1])) ||
              ((Hot(th, ts[n - 1]) || ts[n - 1] > th.warmMax) && Recovering(th, ts, n - 1))
  {
    hide Confirmed, Cooled, Hot;
    if Confirmed(th, ts, n - 1) && Cooled(th, ts[n - 1]) {
      assert RecoveringSince(th, ts, n, n - 1);
    }
    var last := n - 1;
    if Recovering(th, ts, last) && (Hot(th, ts[last]) || ts[last] > th.warmMax) {
      var c :| RecoveringSince(th, ts, last, c);
      assert RecoveringSince(th, ts, n, c);
    }
    if Recovering(th, ts, n) {
      var c :| RecoveringSince(th, ts, n, c);
      if c < last {
        assert RecoveringSince(th, ts, last, c);
      }
    }
  }

  /** With the thresholds in order and a non-negative margin this is the documented automaton: hot means
      at or above hot_max, cooled means below hot_max less the margin. */
  lemma OrderedThresholds(th: Thresholds, t: real)
    requires th.coolMax <= th.normalMax <= th.warmMax <= th.hotMax && th.margin >= 0.0
    ensures Hot(th, t) <==> t >= th.hotMax
    ensures Cooled(th, t) <==> t < th.hotMax - th.margin
  {
  }

  /** The band of a temperature below the hot threshold. */
  predicate InBand(th: Thresholds, t: real, s: ThermalState) {
    match s
    case COOL => t < th.coolMax
    case NORMAL => th.coolMax <= t < th.normalMax
    case WARM => th.coolMax <= t && th.normalMax <= t < th.warmMax
    case HOT => th.coolMax <= t && th.normalMax <= t && th.warmMax <= t < th.hotMax
    case _ => false
  }

  /** Sample m is the last one, of the first n, that was not hot. */
  predicate LastNotHot(th: Thresholds, ts: seq<real>, n: nat, m: int)
    requires n <= |ts|
  {
    0 <= m < n && !Hot(th, ts[m]) && HotBetween(th, ts, m + 1, n)
  }

  /** What the automaton shows when it is neither constrained nor recovering: the band of the last sample that
      was not hot, or normal if that sample ended a recovery; unknown when there was none. */
  lemma {:induction false} BandExactly(th: Thresholds, ts: seq<real>, n: nat, m: int)
    requires n <= |ts| && !Confirmed(th, ts, n) && !Recovering(th, ts, n)
    requires LastNotHot(th, ts, n, m) || (m == -1 && HotBetween(th, ts, 0, n))
    ensures var state := After(th, FRESH, ts, n).state;
            if m == -1 then state == UNKNOWN
            else if !Confirmed(th, ts, m) && Recovering(th, ts, m) then state == NORMAL
            else InBand(th, ts[m], state)
  {
    if n > 0 {
      ConfirmedStep(th, ts, n);
      RecoveringStep(th, ts, n);
      ConstrainedExactly(th, ts, n);
      ConstrainedExactly(th, ts, n - 1);
      RecoveringExactly(th, ts, n - 1);
      hide Confirmed, Recovering;
      if m < n - 1 {
        BandExactly(th, ts, n - 1, m);
      }
    }
  }

  // ---- Histories with gaps --------------------------------------------------------------------

  /** The automaton after the first n observations, any of which may be missing. */
  function AfterAll(th: Thresholds, h: seq<Option<real>>, n: nat): Automaton
    requires n <= |h|
  {
    if n == 0 then FRESH else Observed(th, AfterAll(th, h, n - 1), h[n - 1])
  }

  /** The hot samples at the end. */
  function HotTail(th: Thresholds, ts: seq<real>): seq<real> {
    if ts == [] || !Hot(th, ts[|ts| - 1]) then [] else HotTail(th, ts[..|ts| - 1]) + [ts[|ts| - 1]]
  }

  /** The samples that still matter.  A missing one forgets everything but the hot samples that were
      being counted towards confirmation; once confirmed, not even these. */
  function Effective(th: Thresholds, h: seq<Option<real>>, n: nat): seq<real>
    requires n <= |h|
  {
    if n == 0 then []
    else
      var ts := Effective(th, h, n - 1);
      match h[n - 1]
      case Some(t) => ts + [t]
      case None => if Confirmed(th, ts, |ts|) then [] else HotTail(th, ts)
  }

  lemma {:induction false} AfterPrefix(th: Thresholds, a: Automaton, ts: seq<real>, us: seq<real>, n: nat)
    requires n <= |ts| <= |us| && us[..|ts|] == ts
    ensures After(th, a, us, n) == After(th, a, ts, n)
  {
    if n > 0 {
      AfterPrefix(th, a, ts, us, n - 1);
      assert us[n - 1] == us[..|ts|][n - 1];
    }
  }

  lemma {:induction false} HotTailCounts(th: Thresholds, ts: seq<real>, p: nat)
    requires CountsRun(th, ts, |ts|, p)
    ensures |HotTail(th, ts)| == p && HotBetween(th, HotTail(th, ts), 0, p)
    decreases |ts|
  {
    if p > 0 {
      var before := ts[..|ts| - 1];
      assert Hot(th, ts[|ts| - 1]);
      HotTailCounts(th, before, p - 1);
    }
  }

  lemma {:induction false} StillCounting(th: Thresholds, ts: seq<real>, n: nat)
    requires n <= |ts| < Needed(th) && HotBetween(th, ts, 0, |ts|)
    ensures After(th, FRESH, ts, n) == Automaton(UNKNOWN, n)
  {
    if n > 0 {
      StillCounting(th, ts, n - 1);
    }
  }

  lemma {:induction false} GapsVanish(th: Thresholds, h: seq<Option<real>>, n: nat)
    requires n <= |h|
    ensures AfterAll(th, h, n) == After(th, FRESH, Effective(th, h, n), |Effective(th, h, n)|)
  {
    if n > 0 {
      hide Confirmed;
      GapsVanish(th, h, n - 1);
      var ts := Effective(th, h, n - 1);
      match h[n - 1]
      case Some(t) =>
        AfterPrefix(th, FRESH, ts, ts + [t], |ts|);
      case None =>
        AutomatonMeetsTrace(th, ts, |ts|);
        if !Confirmed(th, ts, |ts|) {
          HotTailCounts(th, ts, After(th, FRESH, ts, |ts|).pending);
          StillCounting(th, HotTail(th, ts), |HotTail(th, ts)|);
        }
    }
  }

  /** The trace specification of every history, with any number of gaps: it is that of the samples that
      still matter. */
  lemma StateWithGapsExactly(th: Thresholds, h: seq<Option<real>>, n: nat)
    requires n <= |h|
    ensures var ts, state := Effective(th, h, n), AfterAll(th, h, n).state;
            && (state == THERMALLY_CONSTRAINED <==> Confirmed(th, ts, |ts|))
            && (state == RECOVERING <==> !Confirmed(th, ts, |ts|) && Recovering(th, ts, |ts|))
  {
    hide Confirmed, Recovering, After, AfterAll, Effective;
    GapsVanish(th, h, n);
    ConstrainedExactly(th, Effective(th, h, n), |Effective(th, h, n)|);
    RecoveringExactly(th, Effective(th, h, n), |Effective(th, h, n)|);
  }

  // ---- The ceiling ----------------------------------------------------------------------------

  /** `headroom_fraction`. */
  function Headroom(th: Thresholds, temp: Option<real>): real {
    if temp.None? || temp.value <= th.normalMax then 1.0
    else if temp.value < th.hotMax then
      1.0 - (temp.value - th.normalMax) / (th.hotMax - th.normalMax) * (1.0 - th.reduction)
    else th.reduction
  }

  /** `permitted_power`. */
  function Permitted(th: Thresholds, cap: real, temp: Option<real>): Option<real> {
    if temp.None? then None else Some(cap * Headroom(th, temp))
  }

  lemma Between(x: real, y: real, r: real)
    requires 0.0 <= x <= y <= 1.0 && r <= 1.0
    ensures r <= 1.0 - y * (1.0 - r) <= 1.0 - x * (1.0 - r) <= 1.0
  {
  }

  lemma FractionOrdered(a: real, b: real, d: real)
    requires 0.0 <= a <= b <= d && d > 0.0
    ensures 0.0 <= a / d <= b / d <= 1.0
  {
    assert a == a / d * d && b == b / d * d;
    assert d / d == 1.0;
  }

  lemma HeadroomBounds(th: Thresholds, a: real, b: real)
    requires th.reduction <= 1.0 && a <= b
    ensures th.reduction <= Headroom(th, Some(b)) <= Headroom(th, Some(a)) <= 1.0
  {
    var span := th.hotMax - th.normalMax;
    if th.normalMax < b < th.hotMax {
      var low := if a <= th.normalMax then 0.0 else a - th.normalMax;
      FractionOrdered(low, b - th.normalMax, span);
      Between(low / span, (b - th.normalMax) / span, th.reduction);
    } else if th.normalMax < a < th.hotMax {
      FractionOrdered(a - th.normalMax, span, span);
      Between((a - th.normalMax) / span, 1.0, th.reduction);
    }
  }

  /** Hotter never means more power exactly when the reduction is at most one; nothing checks that. */
  lemma CeilingAntitoneExactly(th: Thresholds)
    ensures (forall cap: real, a: real, b: real ::
               cap >= 0.0 && a <= b ==> Permitted(th, cap, Some(b)).value <= Permitted(th, cap, Some(a)).value)
            <==> th.reduction <= 1.0
  {
    if th.reduction <= 1.0 {
      forall cap: real, a: real, b: real | cap >= 0.0 && a <= b
        ensures Permitted(th, cap, Some(b)).value <= Permitted(th, cap, Some(a)).value
      {
        HeadroomBounds(th, a, b);
        Scaled(cap, Headroom(th, Some(b)), Headroom(th, Some(a)));
      }
    } else {
      var b := if th.hotMax > th.normalMax then th.hotMax else th.normalMax + 1.0;
      assert Permitted(th, 1.0, Some(th.normalMax)).value == 1.0;
      assert Permitted(th, 1.0, Some(b)).value == th.reduction;
    }
  }

  lemma Scaled(cap: real, x: real, y: real)
    requires cap >= 0.0 && x <= y
    ensures cap * x <= cap * y
  {
  }

  /** The ceiling lies between the reduced cap and the cap. */
  lemma CeilingWithinCap(th: Thresholds, cap: real, t: real)
    requires cap >= 0.0 && th.reduction <= 1.0
    ensures cap * th.reduction <= Permitted(th, cap, Some(t)).value <= cap
  {
    HeadroomBounds(th, t, t);
    Scaled(cap, th.reduction, Headroom(th, Some(t)));
    Scaled(cap, Headroom(th, Some(t)), 1.0);
  }

  /** And between the normal and the hot threshold it comes down in a straight line, from the whole cap to the
      reduced one; without a temperature there is none. */
  lemma CeilingExactly(th: Thresholds, cap: real, t: real)
    ensures Permitted(th, cap, None) == None
    ensures var ceiling := Permitted(th, cap, Some(t));
            && ceiling.Some?
            && (t <= th.normalMax ==> ceiling.value == cap)
            && (t > th.normalMax && t >= th.hotMax ==> ceiling.value == cap * th.reduction)
            && (th.normalMax <= t <= th.hotMax && th.normalMax < th.hotMax ==>
                  (cap - ceiling.value) * (th.hotMax - th.normalMax) == cap * (1.0 - th.reduction) * (t - th.normalMax))
  {
    if th.normalMax < t < th.hotMax {
      var a, d, r := t - th.normalMax, th.hotMax - th.normalMax, 1.0 - th.reduction;
      var f := a / d;
      assert f * d == a;
      assert Permitted(th, cap, Some(t)).value == cap * (1.0 - f * r);
      OnTheSlope(cap, f, d, r);
    }
  }

  lemma OnTheSlope(cap: real, f: real, d: real, r: real)
    ensures (cap - cap * (1.0 - f * r)) * d == cap * r * (f * d)
  {
    assert cap * (1.0 - f * r) == cap - cap * (f * r);
    assert cap * (f * r) * d == cap * r * (f * d);
  }
}
