/** The sliding power window: records are kept in time order, old ones are trimmed from the front, and
    energy is integrated by trapezoids over what is left. */
module PowerWindow {
  import opened Basics

  datatype Sample = Sample(t: int, p: real)

  datatype Recorded = Kept | NegativePower | OutOfOrder

  function Seconds(ns: int): real { ns as real / 1000000000.0 }

  /** The whole state of a window. */
  datatype Window = Window(samples: seq<Sample>, peak: real)

  const EMPTY := Window([], 0.0)

  function Verdict(samples: seq<Sample>, s: Sample): Recorded {
    if s.p < 0.0 then NegativePower
    else if samples != [] && s.t < samples[|samples| - 1].t then OutOfOrder
    else Kept
  }

  function Trimmed(samples: seq<Sample>, capacity: int, now: int): seq<Sample>
    decreases |samples|
  {
    if |samples| > 2 && Elapsed(now, samples[0].t) > capacity then Trimmed(samples[1..], capacity, now) else samples
  }

  function After(w: Window, capacity: int, s: Sample): Window {
    if Verdict(w.samples, s) != Kept then w
    else Window(Trimmed(w.samples + [s], capacity, s.t), if s.p > w.peak then s.p else w.peak)
  }

  predicate Sorted(samples: seq<Sample>) {
    forall i, j :: 0 <= i < j < |samples| ==> samples[i].t <= samples[j].t
  }

  function Span(samples: seq<Sample>): int {
    if |samples| < 2 then 0 else Elapsed(samples[|samples| - 1].t, samples[0].t)
  }

  /** Energy under one leg, by its mean power. */
  function Leg(a: Sample, b: Sample): real { 0.5 * (a.p + b.p) * Seconds(Elapsed(b.t, a.t)) }

  function Energy(samples: seq<Sample>, n: nat): real
    requires n <= |samples|
  {
    if n < 2 then 0.0 else Energy(samples, n - 1) + Leg(samples[n - 2], samples[n - 1])
  }

  function Average(samples: seq<Sample>): real {
    if samples == [] then 0.0
    else if |samples| < 2 then samples[0].p
    else if Seconds(Span(samples)) <= 0.0 then samples[|samples| - 1].p
    else Energy(samples, |samples|) / Seconds(Span(samples))
  }

  class PowerWindow {
    const capacity: int
    var samples: seq<Sample>
    var peak: real

    function State(): Window
      reads this
    {
      Window(samples, peak)
    }

    constructor (c: int)
      ensures capacity == c && State() == EMPTY
    {
      capacity, samples, peak := c, [], 0.0;
    }

    method Record(t: int, p: real) returns (r: Recorded)
      modifies this
      ensures r == old(Verdict(samples, Sample(t, p)))
      ensures State() == old(After(State(), capacity, Sample(t, p)))
    {
      if p < 0.0 {
        return NegativePower;
      }
      if samples != [] && t < samples[|samples| - 1].t {
        return OutOfOrder;
      }
      samples := samples + [Sample(t, p)];
      if p > peak {
        peak := p;
      }
      Trim(t);
      r := Kept;
    }

    method Trim(now: int)
      modifies this`samples
      ensures samples == old(Trimmed(samples, capacity, now))
    {
      while |samples| > 2 && Elapsed(now, samples[0].t) > capacity
        invariant Trimmed(samples, capacity, now) == old(Trimmed(samples, capacity, now))
        decreases |samples|
      {
        samples := samples[1..];
      }
    }

    method Clear()
      modifies this
      ensures State() == EMPTY
    {
      samples, peak := [], 0.0;
    }

    method IntegratedEnergy() returns (joules: real)
      ensures joules == Energy(samples, |samples|)
    {
      if |samples| < 2 {
        return 0.0;
      }
      joules := 0.0;
      for i := 1 to |samples|
        invariant joules == Energy(samples, i)
      {
        joules := joules + Leg(samples[i - 1], samples[i]);
      }
    }

    method AveragePower() returns (watts: real)
      ensures watts == Average(samples)
    {
      if |samples| < 2 {
        return if samples == [] then 0.0 else samples[0].p;
      }
      var e := IntegratedEnergy();
      var span := Seconds(Span(samples));
      watts := if span <= 0.0 then samples[|samples| - 1].p else e / span;
    }
  }

  // ---- What is retained -----------------------------------------------------------------------

  /** The window after the first n attempts of a history, and the attempts that were kept. */
  function Run(h: seq<Sample>, capacity: int, n: nat): Window
    requires n <= |h|
  {
    if n == 0 then EMPTY else After(Run(h, capacity, n - 1), capacity, h[n - 1])
  }

  function Accepted(h: seq<Sample>, n: nat): seq<Sample>
    requires n <= |h|
  {
    if n == 0 then []
    else if Verdict(Accepted(h, n - 1), h[n - 1]) == Kept then Accepted(h, n - 1) + [h[n - 1]]
    else Accepted(h, n - 1)
  }

  /** What attempt i of a history is answered. */
  function Answer(h: seq<Sample>, capacity: int, i: nat): Recorded
    requires i < |h|
  {
    Verdict(Run(h, capacity, i).samples, h[i])
  }

  /** `kept` is all samples from k on, and trimming at `now` stops exactly there. */
  predicate CutAt(all: seq<Sample>, capacity: int, now: int, kept: seq<Sample>, k: nat) {
    && k <= |all| && kept == all[k..]
    && (|kept| > 2 ==> Elapsed(now, all[k].t) <= capacity)
    && (k > 0 ==> |kept| >= 2 && Elapsed(now, all[k - 1].t) > capacity)
  }

  lemma {:induction false} TrimCuts(all: seq<Sample>, capacity: int, now: int) returns (k: nat)
    ensures CutAt(all, capacity, now, Trimmed(all, capacity, now), k)
    decreases |all|
  {
    if |all| > 2 && Elapsed(now, all[0].t) > capacity {
      var j := TrimCuts(all[1..], capacity, now);
      k := j + 1;
      assert all[1..][j..] == all[k..];
      if j > 0 { assert all[1..][j - 1] == all[k - 1]; }
    } else {
      k := 0;
    }
  }

  lemma {:induction false} AcceptedSorted(h: seq<Sample>, n: nat)
    requires n <= |h|
    ensures Sorted(Accepted(h, n))
  {
    if n > 0 {
      AcceptedSorted(h, n - 1);
    }
  }

  /** Later trims only cut further, so trimming what an earlier trim left is trimming everything. */
  lemma {:induction false} TrimTwice(all: seq<Sample>, capacity: int, earlier: int, s: Sample)
    requires earlier <= s.t
    ensures Trimmed(Trimmed(all, capacity, earlier) + [s], capacity, s.t) == Trimmed(all + [s], capacity, s.t)
    decreases |all|
  {
    if |all| > 2 && Elapsed(earlier, all[0].t) > capacity {
      TrimTwice(all[1..], capacity, earlier, s);
      assert (all + [s])[1..] == all[1..] + [s];
    }
  }

  lemma {:induction false} TrimKeepsLast(all: seq<Sample>, capacity: int, now: int)
    requires all != []
    ensures var kept := Trimmed(all, capacity, now); kept != [] && kept[|kept| - 1] == all[|all| - 1]
    decreases |all|
  {
    if |all| > 2 && Elapsed(now, all[0].t) > capacity {
      TrimKeepsLast(all[1..], capacity, now);
    }
  }

  function Last(all: seq<Sample>): Sample
    requires all != []
  {
    all[|all| - 1]
  }

  /** For every history of attempts, good and bad, the window is the accepted samples trimmed once, at
      the last of them. */
  lemma {:induction false} WindowIsOneTrim(h: seq<Sample>, capacity: int, n: nat)
    requires n <= |h|
    ensures var all, kept := Accepted(h, n), Run(h, capacity, n).samples;
            if all == [] then kept == []
            else kept == Trimmed(all, capacity, Last(all).t) && kept != [] && Last(kept) == Last(all)
  {
    hide Trimmed;
    if n > 0 {
      WindowIsOneTrim(h, capacity, n - 1);
      var before, s := Accepted(h, n - 1), h[n - 1];
      if Verdict(before, s) == Kept {
        if before != [] {
          TrimTwice(before, capacity, Last(before).t, s);
        }
        TrimKeepsLast(before + [s], capacity, s.t);
      }
    }
  }

  ghost predicate GreatestOf(all: seq<Sample>, peak: real) {
    && (forall i :: 0 <= i < |all| ==> 0.0 <= all[i].p <= peak)
    && (if all == [] then peak == 0.0 else exists i :: 0 <= i < |all| && all[i].p == peak)
  }

  /** The peak is the greatest power ever accepted, not only the greatest retained. */
  lemma {:induction false} PeakIsGreatest(h: seq<Sample>, capacity: int, n: nat)
    requires n <= |h|
    ensures GreatestOf(Accepted(h, n), Run(h, capacity, n).peak)
  {
    hide GreatestOf, Trimmed;
    if n > 0 {
      PeakIsGreatest(h, capacity, n - 1);
      WindowIsOneTrim(h, capacity, n - 1);
      var before, s := Accepted(h, n - 1), h[n - 1];
      if Verdict(before, s) == Kept {
        PeakGrows(before, Run(h, capacity, n - 1).peak, s);
      }
    } else {
      PeakOfNothing();
    }
  }

  lemma PeakOfNothing()
    ensures GreatestOf([], 0.0)
  {
  }

  lemma PeakGrows(before: seq<Sample>, peak: real, s: Sample)
    requires GreatestOf(before, peak) && s.p >= 0.0
    ensures GreatestOf(before + [s], if s.p > peak then s.p else peak)
  {
    var all := before + [s];
    assert all[|before|].p == s.p;
    if before != [] {
      var i :| 0 <= i < |before| && before[i].p == peak;
      assert all[i].p == peak;
    }
  }

  lemma SortedSuffix(all: seq<Sample>, k: nat)
    requires Sorted(all) && k <= |all|
    ensures Sorted(all[k..])
  {
  }

  lemma CutSpans(all: seq<Sample>, capacity: int, kept: seq<Sample>, k: nat)
    requires all != [] && Sorted(all) && CutAt(all, capacity, Last(all).t, kept, k)
    ensures |kept| > 2 ==> Span(kept) <= capacity
    ensures k > 0 ==> |kept| >= 2 && Elapsed(Last(all).t, all[k - 1].t) > capacity
  {
  }

  /** So what is retained is a time-sorted suffix of what was accepted; it spans at most the capacity when
      more than two samples remain, and the sample before it, if any, is older than the capacity. */
  lemma RetainedSuffix(h: seq<Sample>, capacity: int, n: nat) returns (k: nat)
    requires n <= |h| && Accepted(h, n) != []
    ensures var all, kept := Accepted(h, n), Run(h, capacity, n).samples;
            && Sorted(kept) && k <= |all| && kept == all[k..]
            && (|kept| > 2 ==> Span(kept) <= capacity)
            && (k > 0 ==> |kept| >= 2 && Elapsed(Last(all).t, all[k - 1].t) > capacity)
  {
    hide Run, Accepted, Trimmed, Sorted;
    var all, kept := Accepted(h, n), Run(h, capacity, n).samples;
    AcceptedSorted(h, n);
    WindowIsOneTrim(h, capacity, n);
    k := TrimCuts(all, capacity, Last(all).t);
    CutSpans(all, capacity, kept, k);
    SortedSuffix(all, k);
  }

  // ---- What is averaged -----------------------------------------------------------------------

  lemma LegBounds(a: Sample, b: Sample, lo: real, hi: real)
    requires lo <= a.p <= hi && lo <= b.p <= hi
    ensures var dt := Seconds(Elapsed(b.t, a.t)); lo * dt <= Leg(a, b) <= hi * dt
  {
    var dt, mean := Seconds(Elapsed(b.t, a.t)), 0.5 * (a.p + b.p);
    Scale(lo, mean, dt);
    Scale(mean, hi, dt);
  }

  lemma Scale(x: real, y: real, d: real)
    requires x <= y && d >= 0.0
    ensures x * d <= y * d
  {
    assert (y - x) * d >= 0.0;
  }

  lemma {:induction false} EnergyBounds(samples: seq<Sample>, n: nat, lo: real, hi: real)
    requires 0 < n <= |samples| && Sorted(samples)
    requires forall i :: 0 <= i < n ==> lo <= samples[i].p <= hi
    ensures var span := Seconds(samples[n - 1].t - samples[0].t);
            lo * span <= Energy(samples, n) <= hi * span
  {
    hide Leg;
    if n > 1 {
      var a, b, first := samples[n - 2], samples[n - 1], samples[0];
      EnergyBounds(samples, n - 1, lo, hi);
      LegBounds(a, b, lo, hi);
      var part, dt, span := Seconds(a.t - first.t), Seconds(b.t - a.t), Seconds(b.t - first.t);
      assert Elapsed(b.t, a.t) == b.t - a.t;
      assert span == part + dt;
      assert lo * span == lo * part + lo * dt && hi * span == hi * part + hi * dt;
    }
  }

  /** The average of sorted samples lies between any two bounds on their powers. */
  lemma AverageBetween(samples: seq<Sample>, lo: real, hi: real)
    requires samples != [] && Sorted(samples) && forall i :: 0 <= i < |samples| ==> lo <= samples[i].p <= hi
    ensures lo <= Average(samples) <= hi
  {
    var span := Seconds(Span(samples));
    if |samples| >= 2 && span > 0.0 {
      var n := |samples|;
      EnergyBounds(samples, n, lo, hi);
      assert Span(samples) == samples[n - 1].t - samples[0].t;
      Quotient(lo, Energy(samples, n), hi, span);
    }
  }

  lemma Quotient(lo: real, e: real, hi: real, span: real)
    requires span > 0.0 && lo * span <= e <= hi * span
    ensures lo <= e / span <= hi
  {
    var q := e / span;
    assert q * span == e;
    if q < lo { Strict(q, lo, span); }
    if hi < q { Strict(hi, q, span); }
  }

  lemma Strict(x: real, y: real, d: real)
    requires x < y && d > 0.0
    ensures x * d < y * d
  {
    assert (y - x) * d > 0.0;
  }

  /** After any history, the average lies between the least and the greatest retained power, and never
      exceeds the recorded peak. */
  lemma AverageWithinRetained(h: seq<Sample>, capacity: int, n: nat, lo: real, hi: real)
    requires n <= |h| && Accepted(h, n) != []
    requires forall i :: 0 <= i < |Run(h, capacity, n).samples| ==> lo <= Run(h, capacity, n).samples[i].p <= hi
    ensures lo <= Average(Run(h, capacity, n).samples) <= hi
    ensures Average(Run(h, capacity, n).samples) <= Run(h, capacity, n).peak
  {
    hide Average, Run, Accepted, Sorted;
    var w := Run(h, capacity, n);
    WindowIsOneTrim(h, capacity, n);
    PeakIsGreatest(h, capacity, n);
    var k := RetainedSuffix(h, capacity, n);
    AverageBetween(w.samples, lo, hi);
    AverageBetween(w.samples, 0.0, w.peak);
  }

  /** The trapezoids are the exact area under the straight lines between samples: a sample that lies on
      the line between its neighbours can be added or removed without changing the energy. */
  lemma OnTheLine(a: Sample, m: Sample, b: Sample)
    requires a.t <= m.t <= b.t
    requires (m.p - a.p) * (b.t - a.t) as real == (b.p - a.p) * (m.t - a.t) as real
    ensures Leg(a, m) + Leg(m, b) == Leg(a, b)
  {
    var d1, d2 := (m.t - a.t) as real, (b.t - m.t) as real;
    assert (b.t - a.t) as real == d1 + d2;
    assert (m.p - a.p) * (d1 + d2) == m.p * d1 + m.p * d2 - a.p * d1 - a.p * d2;
    assert (b.p - a.p) * d1 == b.p * d1 - a.p * d1;
    assert (a.p + m.p) * d1 + (m.p + b.p) * d2 == (a.p + b.p) * (d1 + d2);
    LegIs(a, m);
    LegIs(m, b);
    LegIs(a, b);
  }

  lemma LegIs(a: Sample, b: Sample)
    requires a.t <= b.t
    ensures Leg(a, b) == (a.p + b.p) * (b.t - a.t) as real / 2000000000.0
  {
  }

  lemma {:induction false} EnergySplits(x: seq<Sample>, m: Sample, y: seq<Sample>)
    ensures Energy(x + [m] + y, |x + [m] + y|) == Energy(x + [m], |x| + 1) + Energy([m] + y, 1 + |y|)
    decreases |y|
  {
    var all := x + [m] + y;
    if y == [] {
      assert all == x + [m];
    } else {
      var z, s := y[..|y| - 1], y[|y| - 1];
      EnergySplits(x, m, z);
      SameEnergy(all, x + [m] + z, |all| - 1);
      SameEnergy([m] + y, [m] + z, |y|);
      assert all[|all| - 1] == s == ([m] + y)[|y|];
      assert all[|all| - 2] == ([m] + y)[|y| - 1];
    }
  }

  lemma {:induction false} SameEnergy(a: seq<Sample>, b: seq<Sample>, n: nat)
    requires n <= |a| && n <= |b| && forall i :: 0 <= i < n ==> a[i] == b[i]
    ensures Energy(a, n) == Energy(b, n)
  {
    if n > 0 {
      SameEnergy(a, b, n - 1);
    }
  }

  lemma InterpolatedSampleAddsNothing(x: seq<Sample>, a: Sample, m: Sample, b: Sample, y: seq<Sample>)
    requires a.t <= m.t <= b.t
    requires (m.p - a.p) * (b.t - a.t) as real == (b.p - a.p) * (m.t - a.t) as real
    ensures var with, without := x + [a] + ([m] + ([b] + y)), x + [a] + ([b] + y);
            Energy(with, |with|) == Energy(without, |without|)
  {
    hide Leg;
    var tail := [b] + y;
    EnergySplits(x, a, [m] + tail);
    EnergySplits(x, a, tail);
    EnergySplits([a, m], b, y);
    EnergySplits([a], b, y);
    assert [a] + ([m] + tail) == [a, m] + [b] + y;
    assert [a] + tail == [a] + [b] + y;
    assert [a, m] + [b] == [a, m, b] && [a] + [b] == [a, b];
    assert Energy([a, m, b], 3) == Energy([a, m, b], 2) + Leg(m, b);
    assert Energy([a, m, b], 2) == Leg(a, m);
    assert Energy([a, b], 2) == Leg(a, b);
    OnTheLine(a, m, b);
  }

  lemma SameVerdict(h: seq<Sample>, capacity: int, i: nat)
    requires i < |h|
    ensures Answer(h, capacity, i) == Verdict(Accepted(h, i), h[i])
  {
    hide Run, Trimmed;
    WindowIsOneTrim(h, capacity, i);
  }

  /** Attempt j is the last one kept before n, and none of those is later; -1 when there is none. */
  predicate LatestKept(h: seq<Sample>, capacity: int, n: nat, j: int)
    requires n <= |h|
  {
    && -1 <= j < n && (j >= 0 ==> Answer(h, capacity, j) == Kept)
    && forall k: nat :: k < n && Answer(h, capacity, k) == Kept ==> j >= 0 && h[k].t <= h[j].t
  }

  lemma {:induction false} LastAccepted(h: seq<Sample>, capacity: int, n: nat) returns (j: int)
    requires n <= |h|
    ensures LatestKept(h, capacity, n, j)
    ensures if j == -1 then Accepted(h, n) == [] else Accepted(h, n) != [] && Last(Accepted(h, n)) == h[j]
  {
    hide Answer;
    if n == 0 {
      j := -1;
    } else {
      j := LastAccepted(h, capacity, n - 1);
      SameVerdict(h, capacity, n - 1);
      if Verdict(Accepted(h, n - 1), h[n - 1]) == Kept {
        j := n - 1;
      }
    }
  }

  /** An attempt is kept exactly when its power is not negative and none kept before is later. */
  lemma KeptExactly(h: seq<Sample>, capacity: int, i: nat)
    requires i < |h|
    ensures Answer(h, capacity, i) == NegativePower <==> h[i].p < 0.0
    ensures Answer(h, capacity, i) == Kept <==>
              h[i].p >= 0.0 && forall j: nat :: j < i && Answer(h, capacity, j) == Kept ==> h[j].t <= h[i].t
  {
    hide Answer, Accepted;
    SameVerdict(h, capacity, i);
    var j := LastAccepted(h, capacity, i);
  }

  // ---- What an average is ---------------------------------------------------------------------

  /** The average is the power that, over the span, gives the energy; over no time at all it is the last power. */
  lemma AverageExactly(samples: seq<Sample>)
    requires Sorted(samples)
    ensures Average(samples) * Seconds(Span(samples)) == Energy(samples, |samples|)
    ensures samples != [] && Span(samples) == 0 ==> Average(samples) == Last(samples).p
    ensures samples == [] ==> Average(samples) == 0.0
  {
    var n := |samples|;
    if n >= 2 {
      if Span(samples) == 0 {
        NoTimeNoEnergy(samples, n);
      } else {
        var e, span := Energy(samples, n), Seconds(Span(samples));
        assert e / span * span == e;
      }
    }
  }

  lemma {:induction false} NoTimeNoEnergy(samples: seq<Sample>, n: nat)
    requires n <= |samples| && Sorted(samples) && |samples| >= 2 && Span(samples) == 0
    ensures Energy(samples, n) == 0.0
  {
    if n >= 2 {
      NoTimeNoEnergy(samples, n - 1);
      assert samples[0].t <= samples[n - 2].t <= samples[n - 1].t <= samples[|samples| - 1].t;
      assert Seconds(0) == 0.0;
      assert Leg(samples[n - 2], samples[n - 1]) == 0.0;
    }
  }

  /** So over a window cut in two at any sample it is the mean of the parts, weighted by their spans. */
  lemma AverageOfParts(x: seq<Sample>, m: Sample, y: seq<Sample>)
    requires Sorted(x + [m] + y)
    ensures Average(x + [m] + y) * Seconds(Span(x + [m] + y)) ==
            Average(x + [m]) * Seconds(Span(x + [m])) + Average([m] + y) * Seconds(Span([m] + y))
  {
    hide Average, Energy, Span, Sorted;
    PartsSorted(x, m, y);
    EnergySplits(x, m, y);
    AverageExactly(x + [m] + y);
    AverageExactly(x + [m]);
    AverageExactly([m] + y);
    assert |x + [m]| == |x| + 1 && |[m] + y| == 1 + |y|;
  }

  lemma PartsSorted(x: seq<Sample>, m: Sample, y: seq<Sample>)
    requires Sorted(x + [m] + y)
    ensures Sorted(x + [m]) && Sorted([m] + y)
  {
    var all := x + [m] + y;
    assert x + [m] == all[..|x| + 1];
    assert [m] + y == all[|x|..];
  }

  /** Samples on one straight line. */
  predicate OnLine(samples: seq<Sample>, slope: real) {
    forall i :: 0 <= i < |samples| ==> samples[i].p == samples[0].p + slope * (samples[i].t - samples[0].t) as real
  }

  lemma {:induction false} RampEnergy(samples: seq<Sample>, slope: real, n: nat)
    requires 0 < n <= |samples| && Sorted(samples) && OnLine(samples, slope)
    ensures Energy(samples, n) == (samples[0].p + samples[n - 1].p) * (samples[n - 1].t - samples[0].t) as real / 2000000000.0
  {
    hide Leg;
    if n > 1 {
      RampEnergy(samples, slope, n - 1);
      var first, a, b := samples[0], samples[n - 2], samples[n - 1];
      SameSlope(slope, (a.t - first.t) as real, (b.t - first.t) as real);
      OnTheLine(first, a, b);
      LegIs(first, a);
      LegIs(first, b);
    } else {
      assert (samples[0].p + samples[0].p) * 0 as real == 0.0;
    }
  }

  lemma SameSlope(slope: real, d: real, e: real)
    ensures slope * d * e == slope * e * d
  {
  }

  /** On a linear ramp the average is the mean of the two ends, whatever lies between them; the energy is that
      power for the span, in seconds. */
  lemma RampAverage(samples: seq<Sample>, slope: real)
    requires |samples| >= 2 && Sorted(samples) && OnLine(samples, slope) && samples[0].t < Last(samples).t
    ensures Average(samples) == (samples[0].p + Last(samples).p) / 2.0
    ensures Energy(samples, |samples|) * 1000000000.0 == (samples[0].p + Last(samples).p) / 2.0 * Span(samples) as real
  {
    var n := |samples|;
    RampEnergy(samples, slope, n);
    var mean, d := (samples[0].p + Last(samples).p) / 2.0, Span(samples) as real;
    assert Energy(samples, n) == mean * Seconds(Span(samples));
    Divided(mean, Seconds(Span(samples)));
  }

  lemma Divided(a: real, b: real)
    requires b > 0.0
    ensures a * b / b == a
  {
  }
}
