/** The coordinator's fences.  Each connection is served by its own thread, but every touch of the
    shared record happens under one mutex, so an execution is a sequence of the events below in any
    order.  Registration is two critical sections: the record is updated in one and the epoch that
    goes back to the worker is read in another, so other events may fall between them. */
module Fencing {
  import opened Basics

  datatype Coord = Coord(epoch: Gen, workers: map<Id, Id>, marks: map<Id, Gen>)

  datatype Event =
    | Register(worker: Id, boot: Id)
    | Welcome(worker: Id)
    | Observe(worker: Id, epoch: Gen, boot: Id, gen: Gen)
    | Act(epoch: Gen, boot: Id)
    | RollEpoch

  datatype Answer = Noted | Told(epoch: Gen) | Accepted | StaleEpoch | StaleBoot | StaleObservation

  const START := Coord(1, map[], map[])

  /** `fence_obs`. */
  function FenceObservation(c: Coord, w: Id, epoch: Gen, boot: Id, gen: Gen): Answer {
    if epoch != c.epoch then StaleEpoch
    else if w !in c.workers || c.workers[w] != boot then StaleBoot
    else if w in c.marks && gen < c.marks[w] then StaleObservation
    else Accepted
  }

  /** `fence_epoch_boot`: an action names a boot but no worker, so any holder of the boot will do. */
  function FenceAction(c: Coord, epoch: Gen, boot: Id): Answer {
    if epoch != c.epoch then StaleEpoch
    else if exists w :: w in c.workers && c.workers[w] == boot then Accepted
    else StaleBoot
  }

  function Reply(c: Coord, e: Event): Answer {
    match e
    case Register(_, _) => Noted
    case Welcome(_) => Told(c.epoch)
    case Observe(w, epoch, boot, gen) => FenceObservation(c, w, epoch, boot, gen)
    case Act(epoch, boot) => FenceAction(c, epoch, boot)
    case RollEpoch => Noted
  }

  function Step(c: Coord, e: Event): Coord {
    match e
    case Register(w, boot) => c.(workers := c.workers[w := boot], marks := c.marks[w := 0])
    case Welcome(_) => c
    case Observe(w, epoch, boot, gen) =>
      if FenceObservation(c, w, epoch, boot, gen) == Accepted then c.(marks := c.marks[w := gen]) else c
    case Act(_, _) => c
    case RollEpoch => c.(epoch := c.epoch + 1)
  }

  /** The record just before event i of a history, and what event i is answered. */
  function At(h: seq<Event>, i: nat): Coord
    requires i <= |h|
  {
    if i == 0 then START else Step(At(h, i - 1), h[i - 1])
  }

  function Got(h: seq<Event>, i: nat): Answer
    requires i < |h|
  {
    Reply(At(h, i), h[i])
  }

  class CoordShared {
    var epoch: Gen
    var workers: map<Id, Id>
    var obsHwm: map<Id, Gen>

    function State(): Coord
      reads this
    {
      Coord(epoch, workers, obsHwm)
    }

    constructor ()
      ensures State() == START
    {
      epoch, workers, obsHwm := 1, map[], map[];
    }

    method HandleRegister(w: Id, boot: Id)
      modifies this
      ensures State() == old(Step(State(), Register(w, boot)))
    {
      workers := workers[w := boot];
      obsHwm := obsHwm[w := 0];
    }

    method ReplyWithEpoch(w: Id) returns (a: Answer)
      ensures a == Reply(State(), Welcome(w))
    {
      a := Told(epoch);
    }

    /** Fence and mark are one critical section. */
    method HandleObservation(w: Id, stamp: Gen, boot: Id, gen: Gen) returns (a: Answer)
      modifies this`obsHwm
      ensures a == old(Reply(State(), Observe(w, stamp, boot, gen)))
      ensures State() == old(Step(State(), Observe(w, stamp, boot, gen)))
    {
      a := FenceObservation(State(), w, stamp, boot, gen);
      if a == Accepted {
        obsHwm := obsHwm[w := gen];
      }
    }

    method HandleAction(stamp: Gen, boot: Id) returns (a: Answer)
      ensures a == Reply(State(), Act(stamp, boot))
      ensures State() == Step(State(), Act(stamp, boot))
    {
      if stamp != epoch {
        return StaleEpoch;
      }
      var left := workers.Keys;
      while left != {}
        invariant left <= workers.Keys
        invariant forall w :: w in workers && workers[w] == boot ==> w in left
        decreases |left|
      {
        var w :| w in left;
        if workers[w] == boot {
          return Accepted;
        }
        left := left - {w};
      }
      a := StaleBoot;
    }

    method HandleRoll()
      modifies this`epoch
      ensures State() == old(Step(State(), RollEpoch))
    {
      epoch := epoch + 1;
    }
  }

  // ---- What the history says ------------------------------------------------------------------

  function Rolls(h: seq<Event>, i: nat): nat
    requires i <= |h|
  {
    if i == 0 then 0 else Rolls(h, i - 1) + if h[i - 1].RollEpoch? then 1 else 0
  }

  predicate Registers(e: Event, w: Id) { e.Register? && e.worker == w }

  /** Event j started the incarnation of w that is current at i. */
  predicate Incarnation(h: seq<Event>, i: nat, w: Id, boot: Id, j: int)
    requires i <= |h|
  {
    0 <= j < i && h[j] == Register(w, boot) && forall k :: j < k < i ==> !Registers(h[k], w)
  }

  /** Event k is an observation of w that passed the fence. */
  predicate Took(h: seq<Event>, k: nat, w: Id)
    requires k < |h|
  {
    h[k].Observe? && h[k].worker == w && Got(h, k) == Accepted
  }

  lemma {:induction false} EpochCountsRolls(h: seq<Event>, i: nat)
    requires i <= |h|
    ensures At(h, i).epoch == 1 + Rolls(h, i)
  {
    if i > 0 {
      EpochCountsRolls(h, i - 1);
    }
  }

  lemma {:induction false} CurrentIncarnation(h: seq<Event>, i: nat, w: Id) returns (j: nat)
    requires i <= |h| && w in At(h, i).workers
    ensures Incarnation(h, i, w, At(h, i).workers[w], j)
    decreases i
  {
    if Registers(h[i - 1], w) {
      j := i - 1;
    } else {
      j := CurrentIncarnation(h, i - 1, w);
    }
  }

  /** The mark of w is the newest generation accepted in its current incarnation, or null. */
  lemma {:induction false} MarkIsNewestTaken(h: seq<Event>, i: nat, w: Id, boot: Id, j: nat)
    requires i <= |h| && Incarnation(h, i, w, boot, j)
    ensures w in At(h, i).workers && At(h, i).workers[w] == boot && w in At(h, i).marks
    ensures forall k :: j < k < i && Took(h, k, w) ==> h[k].gen <= At(h, i).marks[w]
    ensures At(h, i).marks[w] == 0 || exists k :: j < k < i && Took(h, k, w) && h[k].gen == At(h, i).marks[w]
    decreases i
  {
    if j < i - 1 {
      assert !Registers(h[i - 1], w);
      MarkIsNewestTaken(h, i - 1, w, boot, j);
      if Took(h, i - 1, w) {
        assert At(h, i).marks[w] == h[i - 1].gen;
      } else {
        assert At(h, i).marks[w] == At(h, i - 1).marks[w];
      }
    }
  }

  /** The observation fence, said without its state: an observation passes exactly when it is stamped
      with one more than the rolls so far, w last registered with its boot, and no observation
      accepted since that registration is newer.  The three refusals split the rest. */
  lemma {:induction false} ObservationPassesExactly(h: seq<Event>, i: nat)
    requires i < |h| && h[i].Observe?
    ensures Got(h, i) == Accepted <==>
              h[i].epoch == 1 + Rolls(h, i) &&
              exists j :: Incarnation(h, i, h[i].worker, h[i].boot, j)
                          && forall k :: j < k < i && Took(h, k, h[i].worker) ==> h[k].gen <= h[i].gen
    ensures Got(h, i) == StaleEpoch <==> h[i].epoch != 1 + Rolls(h, i)
    ensures Got(h, i) == StaleBoot <==>
              h[i].epoch == 1 + Rolls(h, i) && !exists j :: Incarnation(h, i, h[i].worker, h[i].boot, j)
    ensures Got(h, i) in {Accepted, StaleEpoch, StaleBoot, StaleObservation}
  {
    var c, w, boot := At(h, i), h[i].worker, h[i].boot;
    EpochCountsRolls(h, i);
    forall j | Incarnation(h, i, w, boot, j)
      ensures w in c.workers && c.workers[w] == boot && w in c.marks
      ensures h[i].gen >= c.marks[w] <==> forall k :: j < k < i && Took(h, k, w) ==> h[k].gen <= h[i].gen
    {
      MarkIsNewestTaken(h, i, w, boot, j);
    }
    if w in c.workers && c.workers[w] == boot {
      var j := CurrentIncarnation(h, i, w);
      assert Incarnation(h, i, w, boot, j);
    }
  }

  /** The action fence, the same way: any worker's current incarnation with that boot is enough. */
  lemma ActionPassesExactly(h: seq<Event>, i: nat)
    requires i < |h| && h[i].Act?
    ensures Got(h, i) == Accepted <==>
              h[i].epoch == 1 + Rolls(h, i) && exists w, j :: Incarnation(h, i, w, h[i].boot, j)
    ensures Got(h, i) == StaleEpoch <==> h[i].epoch != 1 + Rolls(h, i)
    ensures Got(h, i) in {Accepted, StaleEpoch, StaleBoot}
  {
    var c, boot := At(h, i), h[i].boot;
    EpochCountsRolls(h, i);
    if w :| w in c.workers && c.workers[w] == boot {
      var j := CurrentIncarnation(h, i, w);
      assert Incarnation(h, i, w, boot, j);
    }
    if w, j :| Incarnation(h, i, w, boot, j) {
      MarkIsNewestTaken(h, i, w, boot, j);
    }
  }

  /** Between two registrations of a worker the accepted generations never go back. */
  lemma AcceptedGenerationsNeverDecrease(h: seq<Event>, k: nat, i: nat, w: Id)
    requires k < i < |h| && Took(h, k, w) && Took(h, i, w)
    requires forall m :: k < m < i ==> !Registers(h[m], w)
    ensures h[k].gen <= h[i].gen
  {
    ObservationPassesExactly(h, i);
    ObservationPassesExactly(h, k);
    var j :| Incarnation(h, i, w, h[i].boot, j)
             && forall m :: j < m < i && Took(h, m, w) ==> h[m].gen <= h[i].gen;
    assert Registers(h[j], w) && j < k;
  }

  // ---- Rolling the epoch ----------------------------------------------------------------------

  predicate Passes(h: seq<Event>, i: nat)
    requires i < |h|
  {
    Got(h, i) == Accepted
  }

  lemma {:induction false} RollsGrow(h: seq<Event>, r: nat, i: nat)
    requires r <= i <= |h|
    ensures Rolls(h, r) <= Rolls(h, i)
    decreases i - r
  {
    if r < i {
      RollsGrow(h, r, i - 1);
    }
  }

  /** Once the epoch is rolled, nothing stamped with the epoch before the roll, or an earlier one,
      passes either fence again; in particular a worker that was told its epoch before the roll is
      refused until it registers again, survivor or not. */
  lemma RolledEpochIsDead(h: seq<Event>, r: nat, i: nat)
    requires r < i < |h| && h[r].RollEpoch?
    requires (h[i].Observe? || h[i].Act?) && h[i].epoch <= At(h, r).epoch
    ensures Got(h, i) == StaleEpoch
  {
    EpochCountsRolls(h, r);
    EpochCountsRolls(h, i);
    RollsGrow(h, r + 1, i);
  }

  /** What a worker is told is current exactly until the next roll. */
  lemma ToldEpochStaysCurrentUntilRoll(h: seq<Event>, t: nat, i: nat)
    requires t < i < |h| && h[t].Welcome? && (h[i].Observe? || h[i].Act?) && Got(h, t) == Told(h[i].epoch)
    ensures Got(h, i) != StaleEpoch <==> forall r :: t <= r < i ==> !h[r].RollEpoch?
  {
    EpochCountsRolls(h, t);
    EpochCountsRolls(h, i);
    if r :| t <= r < i && h[r].RollEpoch? {
      RollsGrow(h, t, r);
      RollsGrow(h, r + 1, i);
    } else {
      SameRolls(h, t, i);
    }
  }

  lemma {:induction false} SameRolls(h: seq<Event>, t: nat, i: nat)
    requires t <= i <= |h| && forall r :: t <= r < i ==> !h[r].RollEpoch?
    ensures Rolls(h, t) == Rolls(h, i)
    decreases i - t
  {
    if t < i {
      SameRolls(h, t, i - 1);
    }
  }

  /** A surviving worker, with nothing wrong but the epoch it was told, is refused after a roll until it has
      registered again. */
  lemma SurvivorMustRegisterAgain()
    ensures var h := [Register(2, 2), Welcome(2), RollEpoch, Observe(2, 1, 2, 1), Register(2, 2), Observe(2, 2, 2, 1)];
            Got(h, 1) == Told(1) && Got(h, 3) == StaleEpoch && Got(h, 5) == Accepted
  {
    var h := [Register(2, 2), Welcome(2), RollEpoch, Observe(2, 1, 2, 1), Register(2, 2), Observe(2, 2, 2, 1)];
    assert At(h, 1) == Step(START, h[0]);
    assert At(h, 2) == Step(At(h, 1), h[1]);
    assert At(h, 3) == Step(At(h, 2), h[2]);
    assert At(h, 4) == Step(At(h, 3), h[3]);
    assert At(h, 5) == Step(At(h, 4), h[4]);
  }

  // ---- Restarting a worker --------------------------------------------------------------------

  predicate CarriesBoot(e: Event, boot: Id) { (e.Observe? || e.Act?) && e.boot == boot }

  predicate Holds(c: Coord, boot: Id) { exists w :: w in c.workers && c.workers[w] == boot }

  lemma {:induction false} BootStaysAway(h: seq<Event>, t: nat, i: nat, boot: Id)
    requires t <= i <= |h| && !Holds(At(h, t), boot)
    requires forall k :: t <= k < i && h[k].Register? ==> h[k].boot != boot
    ensures !Holds(At(h, i), boot)
    decreases i - t
  {
    if t < i {
      BootStaysAway(h, t, i - 1, boot);
      var c, e := At(h, i - 1), h[i - 1];
      forall w | w in At(h, i).workers
        ensures At(h, i).workers[w] != boot
      {
        assert e == Register(w, At(h, i).workers[w]) || (w in c.workers && c.workers[w] == At(h, i).workers[w]);
      }
    }
  }

  /** Every way the history after t can go on without anybody registering `boot`. */
  ghost predicate FencedFrom(h: seq<Event>, t: nat, boot: Id)
    requires t <= |h|
  {
    forall g: seq<Event>, i: nat | Continues(g, h, t, boot, i) :: !Passes(g, i)
  }

  predicate Continues(g: seq<Event>, h: seq<Event>, t: nat, boot: Id, i: nat)
    requires t <= |h|
  {
    && t <= i < |g| && g[..t] == h[..t] && CarriesBoot(g[i], boot)
    && forall k :: t <= k < i && g[k].Register? ==> g[k].boot != boot
  }

  lemma {:induction false} SamePrefixSameState(g: seq<Event>, h: seq<Event>, t: nat)
    requires t <= |g| && t <= |h| && g[..t] == h[..t]
    ensures At(g, t) == At(h, t)
  {
    if t > 0 {
      assert g[..t - 1] == g[..t][..t - 1] && h[..t - 1] == h[..t][..t - 1];
      assert g[t - 1] == g[..t][t - 1] && h[t - 1] == h[..t][t - 1];
      SamePrefixSameState(g, h, t - 1);
    }
  }

  /** A boot id is fenced for every continuation in which nobody registers it exactly when no worker
      holds it now. */
  lemma BootFencedExactly(h: seq<Event>, t: nat, boot: Id)
    requires t <= |h|
    ensures FencedFrom(h, t, boot) <==> !Holds(At(h, t), boot)
  {
    if Holds(At(h, t), boot) {
      var act := Act(At(h, t).epoch, boot);
      var g := h[..t] + [act];
      SamePrefixSameState(g, h, t);
      assert Continues(g, h, t, boot, t) && Passes(g, t);
    } else {
      forall g: seq<Event>, i: nat | Continues(g, h, t, boot, i)
        ensures !Passes(g, i)
      {
        SamePrefixSameState(g, h, t);
        BootStaysAway(g, t, i, boot);
      }
    }
  }

  lemma Restarted(h: seq<Event>, t: nat)
    requires t < |h| && h[t].Register?
    ensures At(h, t + 1).workers == At(h, t).workers[h[t].worker := h[t].boot]
  {
  }

  /** The documented promise, "a worker restarted with a fresh boot fences every report and
      reservation from the prior incarnation", holds exactly when no OTHER worker shares the old
      boot id at the restart: the action fence only asks whether anybody has it. */
  lemma RestartFencesExactly(h: seq<Event>, t: nat, w: Id, prior: Id)
    requires t < |h| && h[t].Register? && h[t].worker == w && h[t].boot != prior
    ensures FencedFrom(h, t + 1, prior) <==>
              forall v :: v in At(h, t).workers && v != w ==> At(h, t).workers[v] != prior
  {
    hide FencedFrom, Step;
    BootFencedExactly(h, t + 1, prior);
    Restarted(h, t);
    var before, after := At(h, t), At(h, t + 1);
    if v :| v in before.workers && v != w && before.workers[v] == prior {
      assert v in after.workers && after.workers[v] == prior;
    }
  }

  /** Two workers started with the default boot id 1; the first is killed and comes back with boot
      99.  A reservation of the dead incarnation still passes. */
  lemma SharedBootSurvivesRestart()
    ensures var h := [Register(1, 1), Register(2, 1), Register(1, 99), Act(1, 1)];
            Got(h, 3) == Accepted
  {
    var h := [Register(1, 1), Register(2, 1), Register(1, 99), Act(1, 1)];
    assert At(h, 1) == Step(START, h[0]);
    assert At(h, 2) == Step(At(h, 1), h[1]);
    assert At(h, 3) == Step(At(h, 2), h[2]);
    assert 2 in At(h, 3).workers && At(h, 3).workers[2] == 1;
  }

  /** Observations name their worker, so for them the promise needs no condition. */
  lemma RestartFencesReports(h: seq<Event>, t: nat, i: nat, w: Id)
    requires t < i < |h| && h[t].Register? && h[t].worker == w
    requires h[i].Observe? && h[i].worker == w && h[i].boot != h[t].boot
    requires forall k :: t < k < i && Registers(h[k], w) ==> h[k].boot != h[i].boot
    ensures !Passes(h, i)
  {
    ObservationPassesExactly(h, i);
    if j :| Incarnation(h, i, w, h[i].boot, j) {
      assert Registers(h[t], w) && Registers(h[j], w);
    }
  }

  // ---- A surviving worker ---------------------------------------------------------------------

  /** The events that carry b, and the roll. */
  predicate Concerns(e: Event, b: Id) {
    e.RollEpoch? || (!e.Act? && e.worker == b)
  }

  /** The first n events with every other worker's registrations, observations and all actions struck. */
  function Only(h: seq<Event>, n: nat, b: Id): (g: seq<Event>)
    requires n <= |h|
    ensures |g| <= n
  {
    if n == 0 then []
    else if Concerns(h[n - 1], b) then Only(h, n - 1, b) + [h[n - 1]]
    else Only(h, n - 1, b)
  }

  predicate SameView(c: Coord, d: Coord, b: Id) {
    && c.epoch == d.epoch
    && (b in c.workers <==> b in d.workers) && (b in c.workers ==> c.workers[b] == d.workers[b])
    && (b in c.marks <==> b in d.marks) && (b in c.marks ==> c.marks[b] == d.marks[b])
  }

  lemma StepKeepsView(c: Coord, d: Coord, e: Event, b: Id)
    requires SameView(c, d, b)
    ensures Concerns(e, b) ==> SameView(Step(c, e), Step(d, e), b) && Reply(c, e) == Reply(d, e)
    ensures !Concerns(e, b) ==> SameView(Step(c, e), d, b)
  {
  }

  lemma {:induction false} StrikingKeepsView(h: seq<Event>, n: nat, b: Id)
    requires n <= |h|
    ensures SameView(At(h, n), At(Only(h, n, b), |Only(h, n, b)|), b)
  {
    if n > 0 {
      var g, e := Only(h, n - 1, b), h[n - 1];
      StrikingKeepsView(h, n - 1, b);
      StepKeepsView(At(h, n - 1), At(g, |g|), e, b);
      if Concerns(e, b) {
        assert (g + [e])[..|g|] == g[..|g|];
        SamePrefixSameState(g + [e], g, |g|);
        assert At(g + [e], |g| + 1) == Step(At(g + [e], |g|), e);
      }
    }
  }

  lemma {:induction false} OnlyGrows(h: seq<Event>, i: nat, n: nat, b: Id)
    requires i <= n <= |h|
    ensures Only(h, i, b) <= Only(h, n, b)
    decreases n - i
  {
    if i < n {
      OnlyGrows(h, i, n - 1, b);
    }
  }

  /** A surviving worker is unaffected: strike every other worker's registrations and observations,
      and every action, from any history, and each message that carries b is answered the same. */
  lemma SurvivorUnaffected(h: seq<Event>, i: nat, b: Id)
    requires i < |h| && Concerns(h[i], b)
    ensures var g, p := Only(h, |h|, b), |Only(h, i, b)|;
            p < |g| && g[p] == h[i] && Got(g, p) == Got(h, i)
  {
    hide Step, Reply, SameView;
    var g, prefix := Only(h, |h|, b), Only(h, i, b);
    OnlyGrows(h, i + 1, |h|, b);
    assert Only(h, i + 1, b) == prefix + [h[i]];
    assert g[..|prefix|] == prefix[..|prefix|];
    SamePrefixSameState(g, prefix, |prefix|);
    StrikingKeepsView(h, i, b);
    StepKeepsView(At(h, i), At(prefix, |prefix|), h[i], b);
  }

  /** Actions are the exception, and this is its exact extent: an action is answered as it would be
      if b were alone, unless its epoch is current and some other worker, but not b, holds its boot. */
  lemma ActionUnaffectedExactly(h: seq<Event>, i: nat, b: Id)
    requires i < |h| && h[i].Act?
    ensures var alone := Only(h, i, b);
            var c := At(h, i);
            Reply(At(alone, |alone|), h[i]) == Got(h, i) <==>
              h[i].epoch != c.epoch || (b in c.workers && c.workers[b] == h[i].boot) || !Holds(c, h[i].boot)
  {
    var alone := Only(h, i, b);
    StrikingKeepsView(h, i, b);
    OnlyKnowsB(h, i, b);
  }

  lemma {:induction false} OnlyKnowsB(h: seq<Event>, n: nat, b: Id)
    requires n <= |h|
    ensures At(Only(h, n, b), |Only(h, n, b)|).workers.Keys <= {b}
  {
    if n > 0 {
      var g, e := Only(h, n - 1, b), h[n - 1];
      OnlyKnowsB(h, n - 1, b);
      if Concerns(e, b) {
        assert (g + [e])[..|g|] == g[..|g|];
        SamePrefixSameState(g + [e], g, |g|);
        assert At(g + [e], |g| + 1) == Step(At(g + [e], |g|), e);
      }
    }
  }
}
