/** The authority gate: an epoch, a boot id and six high-water generations.  A message carries some
    of the generations (null means "not carried") and is refused when any it carries is behind. */
module Authority {
  import opened Basics

  datatype Envelope = Envelope(
    epoch: Gen, boot: Id,
    policy: Gen, budget: Gen, reservation: Gen, observation: Gen, decision: Gen, device: Gen)

  datatype Domain = Policy | Budget | Reservation | Observation | Decision | Device

  datatype Verdict = Accept | StaleEpoch | StaleBoot | Stale(domain: Domain) | Invalid

  function Of(e: Envelope, d: Domain): Gen {
    match d
    case Policy => e.policy
    case Budget => e.budget
    case Reservation => e.reservation
    case Observation => e.observation
    case Decision => e.decision
    case Device => e.device
  }

  /** `gen_stale`. */
  predicate Behind(message: Gen, current: Gen) { message != 0 && message < current }

  function Check(gate: Envelope, e: Envelope): Verdict {
    if e.epoch == 0 || e.boot == 0 then Invalid
    else if e.epoch != gate.epoch then StaleEpoch
    else if e.boot != gate.boot then StaleBoot
    else if Behind(e.policy, gate.policy) then Stale(Policy)
    else if Behind(e.budget, gate.budget) then Stale(Budget)
    else if Behind(e.reservation, gate.reservation) then Stale(Reservation)
    else if Behind(e.observation, gate.observation) then Stale(Observation)
    else if Behind(e.decision, gate.decision) then Stale(Decision)
    else if Behind(e.device, gate.device) then Stale(Device)
    else Accept
  }

  function Higher(current: Gen, message: Gen): Gen { if message > current then message else current }

  function Adopted(gate: Envelope, e: Envelope): Envelope {
    Envelope(gate.epoch, gate.boot,
             Higher(gate.policy, e.policy), Higher(gate.budget, e.budget),
             Higher(gate.reservation, e.reservation), Higher(gate.observation, e.observation),
             Higher(gate.decision, e.decision), Higher(gate.device, e.device))
  }

  class AuthorityGate {
    var epoch: Gen
    var boot: Id
    var policy: Gen
    var budget: Gen
    var reservation: Gen
    var observation: Gen
    var decision: Gen
    var device: Gen

    function State(): Envelope
      reads this
    {
      Envelope(epoch, boot, policy, budget, reservation, observation, decision, device)
    }

    constructor (e: Gen, b: Id)
      ensures State() == Envelope(e, b, 0, 0, 0, 0, 0, 0)
    {
      epoch, boot := e, b;
      policy, budget, reservation, observation, decision, device := 0, 0, 0, 0, 0, 0;
    }

    method Adopt(e: Envelope)
      modifies this
      ensures State() == old(Adopted(State(), e))
    {
      if e.policy != 0 && e.policy > policy { policy := e.policy; }
      if e.budget != 0 && e.budget > budget { budget := e.budget; }
      if e.reservation != 0 && e.reservation > reservation { reservation := e.reservation; }
      if e.observation != 0 && e.observation > observation { observation := e.observation; }
      if e.decision != 0 && e.decision > decision { decision := e.decision; }
      if e.device != 0 && e.device > device { device := e.device; }
    }

    method AdvanceObservation(g: Gen)
      modifies this`observation
      ensures State() == old(Adopted(State(), Envelope(0, 0, 0, 0, 0, g, 0, 0)))
    {
      if g > observation { observation := g; }
    }

    method AdvanceDecision(g: Gen)
      modifies this`decision
      ensures State() == old(Adopted(State(), Envelope(0, 0, 0, 0, 0, 0, g, 0)))
    {
      if g > decision { decision := g; }
    }

    method RollEpoch()
      modifies this`epoch
      ensures State() == old(State()).(epoch := old(epoch) + 1)
    {
      epoch := epoch + 1;
    }
  }

  /** Adopting a whole run of messages, in order. */
  function AdoptAll(gate: Envelope, run: seq<Envelope>): Envelope
    decreases |run|
  {
    if run == [] then gate else AdoptAll(Adopted(gate, run[0]), run[1..])
  }

  /** In this domain m carries nothing, or nothing older than what e carries. */
  predicate UpToDate(m: Envelope, e: Envelope, d: Domain) { Of(m, d) == 0 || Of(m, d) >= Of(e, d) }

  /** m carries nothing older than what e carries. */
  ghost predicate NotBehind(m: Envelope, e: Envelope) { forall d: Domain :: UpToDate(m, e, d) }

  /** The order in which the domains are tested. */
  function Rank(d: Domain): nat {
    match d
    case Policy => 1
    case Budget => 2
    case Reservation => 3
    case Observation => 4
    case Decision => 5
    case Device => 6
  }

  /** What is refused, and for what: the first of the epoch, the boot and the domains that is not current. */
  lemma RefusedExactly(gate: Envelope, m: Envelope, d: Domain)
    ensures Check(gate, m) == Invalid <==> m.epoch == 0 || m.boot == 0
    ensures Check(gate, m) == StaleEpoch <==> m.epoch != 0 && m.boot != 0 && m.epoch != gate.epoch
    ensures Check(gate, m) == StaleBoot <==>
              m.epoch != 0 && m.boot != 0 && m.epoch == gate.epoch && m.boot != gate.boot
    ensures Check(gate, m) == Stale(d) <==>
              && m.epoch != 0 && m.boot != 0 && m.epoch == gate.epoch && m.boot == gate.boot && !UpToDate(m, gate, d)
              && forall e :: Rank(e) < Rank(d) ==> UpToDate(m, gate, e)
  {
    assert UpToDate(m, gate, Policy) <==> !Behind(m.policy, gate.policy);
    assert UpToDate(m, gate, Budget) <==> !Behind(m.budget, gate.budget);
    assert UpToDate(m, gate, Reservation) <==> !Behind(m.reservation, gate.reservation);
    assert UpToDate(m, gate, Observation) <==> !Behind(m.observation, gate.observation);
    assert UpToDate(m, gate, Decision) <==> !Behind(m.decision, gate.decision);
    assert UpToDate(m, gate, Device) <==> !Behind(m.device, gate.device);
    hide Behind, UpToDate;
    match d {
      case Policy => case Budget => case Reservation =>
      case Observation => case Decision => case Device =>
    }
  }

  lemma AcceptedExactly(gate: Envelope, m: Envelope)
    ensures Check(gate, m) == Accept <==>
              m.epoch != 0 && m.boot != 0 && m.epoch == gate.epoch && m.boot == gate.boot && NotBehind(m, gate)
  {
    if Check(gate, m) == Accept {
      forall d: Domain
        ensures UpToDate(m, gate, d)
      {
        match d {
          case Policy => case Budget => case Reservation =>
          case Observation => case Decision => case Device =>
        }
      }
    }
    if NotBehind(m, gate) {
      assert UpToDate(m, gate, Policy) && UpToDate(m, gate, Budget) && UpToDate(m, gate, Reservation);
      assert UpToDate(m, gate, Observation) && UpToDate(m, gate, Decision) && UpToDate(m, gate, Device);
    }
  }

  lemma AdoptedIsMaximum(gate: Envelope, e: Envelope, d: Domain)
    ensures Of(Adopted(gate, e), d) == Max(Of(gate, d), Of(e, d))
  {
    match d {
      case Policy => case Budget => case Reservation =>
      case Observation => case Decision => case Device =>
    }
  }

  lemma OneMoreAdopted(gate: Envelope, e: Envelope, m: Envelope)
    ensures NotBehind(m, Adopted(gate, e)) <==> NotBehind(m, gate) && NotBehind(m, e)
  {
    forall d: Domain
      ensures Of(Adopted(gate, e), d) == Max(Of(gate, d), Of(e, d))
    {
      AdoptedIsMaximum(gate, e, d);
    }
    if NotBehind(m, gate) && NotBehind(m, e) {
      forall d: Domain
        ensures UpToDate(m, Adopted(gate, e), d)
      {
        assert UpToDate(m, gate, d) && UpToDate(m, e, d);
      }
    }
    if NotBehind(m, Adopted(gate, e)) {
      forall d: Domain
        ensures UpToDate(m, gate, d) && UpToDate(m, e, d)
      {
        assert UpToDate(m, Adopted(gate, e), d);
      }
    }
  }

  /** After any run of adopted messages, a message is accepted exactly when it was accepted before the
      run and every generation it carries is at least the one each adopted message carried. */
  lemma {:induction false} AcceptedAfterRunExactly(gate: Envelope, run: seq<Envelope>, m: Envelope)
    ensures Check(AdoptAll(gate, run), m) == Accept <==>
              Check(gate, m) == Accept && forall i :: 0 <= i < |run| ==> NotBehind(m, run[i])
    decreases |run|
  {
    hide Check, NotBehind;
    if run != [] {
      var next := Adopted(gate, run[0]);
      AcceptedAfterRunExactly(next, run[1..], m);
      AcceptedExactly(gate, m);
      AcceptedExactly(next, m);
      OneMoreAdopted(gate, run[0], m);
      assert (forall i :: 0 <= i < |run| ==> NotBehind(m, run[i])) <==>
        NotBehind(m, run[0]) && forall i :: 0 <= i < |run[1..]| ==> NotBehind(m, run[1..][i]) by {
        if forall i :: 0 <= i < |run[1..]| ==> NotBehind(m, run[1..][i]) {
          assert forall i :: 1 <= i < |run| ==> run[i] == run[1..][i - 1];
        }
      }
    }
  }

  lemma AdoptCommutes(gate: Envelope, a: Envelope, b: Envelope)
    ensures Adopted(Adopted(gate, a), b) == Adopted(Adopted(gate, b), a)
  {
  }

  lemma {:induction false} AdoptMovesFirst(gate: Envelope, run: seq<Envelope>, i: nat)
    requires i < |run|
    ensures AdoptAll(gate, run) == AdoptAll(Adopted(gate, run[i]), run[..i] + run[i + 1..])
    decreases |run|
  {
    hide Adopted;
    var rest := run[..i] + run[i + 1..];
    if i == 0 {
      assert rest == run[1..];
    } else {
      AdoptMovesFirst(Adopted(gate, run[0]), run[1..], i - 1);
      AdoptCommutes(gate, run[0], run[i]);
      assert rest[0] == run[0] && rest[1..] == run[1..][..i - 1] + run[1..][i..];
    }
  }

  /** The order in which messages arrive does not matter: any two interleavings leave the same marks. */
  lemma {:induction false} AdoptOrderIrrelevant(gate: Envelope, run: seq<Envelope>, other: seq<Envelope>)
    requires multiset(run) == multiset(other)
    ensures AdoptAll(gate, run) == AdoptAll(gate, other)
    decreases |run|
  {
    hide Adopted;
    assert |run| == |multiset(run)| == |multiset(other)| == |other|;
    if run != [] {
      assert run[0] in multiset(run);
      assert run[0] in other;
      var i :| 0 <= i < |other| && other[i] == run[0];
      var rest := other[..i] + other[i + 1..];
      assert run == [run[0]] + run[1..];
      assert other == other[..i] + ([other[i]] + other[i + 1..]);
      assert multiset(run[1..]) == multiset(run) - multiset{run[0]};
      assert multiset(rest) == multiset(other) - multiset{run[0]};
      AdoptMovesFirst(gate, other, i);
      AdoptOrderIrrelevant(Adopted(gate, run[0]), run[1..], rest);
    }
  }
}
