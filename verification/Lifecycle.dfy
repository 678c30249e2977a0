/** The life of budgets and reservations, said of the calls and their answers alone: what a governor answers
    depends on which calls succeeded before, and each table entry is the story of its calls. */
module Lifecycle {
  import opened Basics
  import opened Tree
  import opened Ledger
  import opened Reservations
  import opened Index
  import opened Governor
  import opened Conservation
  import opened Safety

  /** A new governor after the first n calls, and what call i is answered. */
  function At(calls: seq<Call>, n: nat): Gov
    requires n <= |calls|
  {
    if n == 0 then EMPTY else Step(At(calls, n - 1), calls[n - 1])
  }

  function Got(calls: seq<Call>, i: nat): Reply
    requires i < |calls|
  {
    Effect(At(calls, i), calls[i]).reply
  }

  lemma {:induction false} AtIsRun(calls: seq<Call>, n: nat)
    requires n <= |calls|
    ensures At(calls, n) == Run(EMPTY, calls[..n])
  {
    hide Step;
    if n > 0 {
      AtIsRun(calls, n - 1);
      assert calls[..n] == calls[..n - 1] + [calls[n - 1]];
      RunSnoc(EMPTY, calls[..n - 1], calls[n - 1]);
    } else {
      assert calls[..0] == [];
    }
  }

  // ---- definitions of budgets ------------------------------------------------------------

  predicate Installs(c: Call, b: Id) { c.Install? && c.b.id == b }

  /** Of all definitions of b offered by the first n calls, refused ones included, the first one of the greatest
      generation is that of call k. */
  predicate GreatestOffer(calls: seq<Call>, n: nat, b: Id, k: nat)
    requires n <= |calls|
  {
    && k < n && Installs(calls[k], b)
    && (forall m: nat :: m < n && Installs(calls[m], b) ==> calls[m].b.generation <= calls[k].b.generation)
    && (forall m: nat :: m < k && Installs(calls[m], b) ==> calls[m].b.generation < calls[k].b.generation)
  }

  lemma StepDefinitions(g: Gov, c: Call, b: Id)
    ensures var o := Effect(g, c);
            if Installs(c, b) && o.reply == Done then b in o.gov.books && o.gov.books[b].cfg == c.b
            else (b in o.gov.books <==> b in g.books) && (b in g.books ==> o.gov.books[b].cfg == g.books[b].cfg)
  {
    hide ChainOf, Load, Updated, Added, Clamp, CanReserve, CanActivate, CanRelease, CanDeactivate;
  }

  lemma {:induction false} Holder(calls: seq<Call>, n: nat, b: Id) returns (k: int)
    requires n <= |calls|
    ensures if k < 0 then b !in At(calls, n).books && forall m: nat :: m < n ==> !Installs(calls[m], b)
            else GreatestOffer(calls, n, b, k) && b in At(calls, n).books && At(calls, n).books[b].cfg == calls[k].b
  {
    if n == 0 {
      k := -1;
    } else {
      k := Holder(calls, n - 1, b);
      var g, c := At(calls, n - 1), calls[n - 1];
      StepDefinitions(g, c, b);
      OfferAnswered(g, c);
      hide Effect, Installable;
      if Installs(c, b) && Effect(g, c).reply == Done {
        k := n - 1;
      }
    }
  }

  lemma OneGreatest(calls: seq<Call>, n: nat, b: Id, k: nat, m: nat)
    requires n <= |calls| && GreatestOffer(calls, n, b, k) && GreatestOffer(calls, n, b, m)
    ensures k == m
  {
  }

  /** What the books define is the first definition of the greatest generation ever offered. */
  lemma HoldsGreatestOffer(calls: seq<Call>, n: nat, b: Id)
    requires n <= |calls|
    ensures b in At(calls, n).books <==> exists k: nat :: k < n && Installs(calls[k], b)
    ensures b in At(calls, n).books <==> exists k: nat :: GreatestOffer(calls, n, b, k)
    ensures forall k: nat :: GreatestOffer(calls, n, b, k) ==>
              b in At(calls, n).books && At(calls, n).books[b].cfg == calls[k].b
  {
    hide At;
    var k := Holder(calls, n, b);
    forall m: nat | GreatestOffer(calls, n, b, m)
      ensures k == m
    {
      if k >= 0 {
        OneGreatest(calls, n, b, k, m);
      }
    }
  }

  lemma OfferAnswered(g: Gov, c: Call)
    ensures c.Install? ==>
              (Effect(g, c).reply == Done <==> c.b.id !in g.books || c.b.generation > g.books[c.b.id].cfg.generation)
              && Effect(g, c).reply in {Done, Refused(Rollback)}
  {
  }

  /** A definition is taken exactly when it is newer than all offered for its id before. */
  lemma InstallExactly(calls: seq<Call>, i: nat)
    requires i < |calls| && calls[i].Install?
    ensures Got(calls, i) == Done <==>
              forall k: nat :: k < i && Installs(calls[k], calls[i].b.id) ==>
                                calls[k].b.generation < calls[i].b.generation
    ensures Got(calls, i) == Done || Got(calls, i) == Refused(Rollback)
  {
    hide At, Effect;
    var k := Holder(calls, i, calls[i].b.id);
    OfferAnswered(At(calls, i), calls[i]);
  }

  // ---- the story of a reservation --------------------------------------------------------

  /** The reservation a call is about; the invalid id for an install, which is about none. */
  function About(c: Call): Id {
    match c
    case Install(_) => 0
    case Plan(q) => q.id
    case Validate(id, _) => id
    case Reserve(id, _, _) => id
    case Admit(id, _) => id
    case Activate(id, _, _) => id
    case Release(id, _, _) => id
  }

  /** The phase a call, so answered, takes reservation id to; None when it leaves it where it was. */
  function Became(c: Call, reply: Reply, id: Id): Option<Phase> {
    if c.Install? || About(c) != id then None
    else if reply == Refused(HasExpired) then Some(EXPIRED)
    else if reply != Done then None
    else
      match c
      case Plan(_) => Some(PLANNED)
      case Validate(_, _) => Some(VALIDATED)
      case Reserve(_, _, _) => Some(RESERVED)
      case Admit(_, _) => Some(ADMITTED)
      case Activate(_, _, _) => Some(ACTIVE)
      case Release(_, _, _) => Some(RELEASED)
      case Install(_) => None
  }

  function Move(calls: seq<Call>, k: nat, id: Id): Option<Phase>
    requires k < |calls|
  {
    Became(calls[k], Got(calls, k), id)
  }

  /** The phase of the last call that took it anywhere. */
  function PhaseAt(calls: seq<Call>, n: nat, id: Id): Option<Phase>
    requires n <= |calls|
  {
    if n == 0 then None
    else
      match Move(calls, n - 1, id)
      case Some(p) => Some(p)
      case None => PhaseAt(calls, n - 1, id)
  }

  /** The last of the first n calls that took it to this phase; -1 when there is none. */
  function LastTo(calls: seq<Call>, n: nat, id: Id, p: Phase): (k: int)
    requires n <= |calls|
    ensures -1 <= k < n
  {
    if n == 0 then -1 else if Move(calls, n - 1, id) == Some(p) then n - 1 else LastTo(calls, n - 1, id, p)
  }

  lemma {:induction false} LastToIs(calls: seq<Call>, n: nat, id: Id, p: Phase)
    requires n <= |calls|
    ensures var k := LastTo(calls, n, id, p);
            && (k >= 0 ==> Move(calls, k, id) == Some(p))
            && forall m: nat :: k < m < n ==> Move(calls, m, id) != Some(p)
  {
    hide Move;
    if n > 0 {
      LastToIs(calls, n - 1, id, p);
    }
  }

  /** Call p is the first to plan id. */
  predicate PlannedBy(calls: seq<Call>, n: nat, id: Id, p: nat)
    requires n <= |calls|
  {
    p < n && Plans(calls[p], id) && forall k: nat :: k < p ==> !Plans(calls[k], id)
  }

  predicate Plans(c: Call, id: Id) { c.Plan? && c.q.id == id }

  function GenOf(c: Call): Gen { if c.Reserve? then c.gen else 0 }
  function NowOf(c: Call): int { if c.Activate? || c.Release? then c.now else 0 }

  /** What was asked for, and what has become of it. */
  function Story(calls: seq<Call>, n: nat, id: Id, p: nat): Reservation
    requires n <= |calls| && PlannedBy(calls, n, id, p) && PhaseAt(calls, n, id).Some?
  {
    var q := calls[p].q;
    var booked, active, released := LastTo(calls, n, id, RESERVED), LastTo(calls, n, id, ACTIVE), LastTo(calls, n, id, RELEASED);
    Reservation(
      id, q.workload, q.powerClass, q.scope, q.budget, q.power, q.energy, q.policyGeneration, q.deviceGeneration,
      if booked < 0 then 0 else GenOf(calls[booked]), q.epoch, q.boot, q.now, q.validity, PhaseAt(calls, n, id).value,
      if booked < 0 then 0 else q.power, 0,
      if active < 0 then 0 else NowOf(calls[active]), if released < 0 then 0 else NowOf(calls[released]))
  }

  /** What one call does to one entry of the table. */
  lemma StepEntry(g: Gov, c: Call, id: Id)
    ensures var o := Effect(g, c);
            var table := o.gov.table;
            match Became(c, o.reply, id)
            case None => (id in table <==> id in g.table) && (id in g.table ==> table[id] == g.table[id])
            case Some(p) =>
              && id in table
              && (c.Plan? <==> id !in g.table)
              && (c.Plan? ==> p == PLANNED && table[id] == Planned(c.q))
              && (!c.Plan? ==>
                    p != PLANNED && table[id] == g.table[id].(
                      state := p,
                      budgetGeneration := if p == RESERVED then GenOf(c) else g.table[id].budgetGeneration,
                      reservedPower := if p == RESERVED then g.table[id].requestedPower else g.table[id].reservedPower,
                      activatedAt := if p == ACTIVE then NowOf(c) else g.table[id].activatedAt,
                      releasedAt := if p == RELEASED then NowOf(c) else g.table[id].releasedAt))
  {
    hide ChainOf, Post, Updated, Added, CanReserve, CanActivate, CanRelease, Returned, Expired;
  }

  lemma PlanAnswered(g: Gov, c: Call)
    ensures c.Plan? ==> Effect(g, c).reply == if c.q.id in g.table then Refused(DuplicateId) else Done
  {
    hide Added;
  }

  /** Nothing has become of id. */
  predicate Untold(calls: seq<Call>, n: nat, id: Id)
    requires n <= |calls|
  {
    PhaseAt(calls, n, id) == None
    && LastTo(calls, n, id, RESERVED) < 0 && LastTo(calls, n, id, ACTIVE) < 0 && LastTo(calls, n, id, RELEASED) < 0
  }

  /** Every entry of the table is the story of its calls, and there is one for every id ever planned. */
  lemma {:induction false} EntryIsStory(calls: seq<Call>, n: nat, id: Id) returns (p: int)
    requires n <= |calls|
    ensures if p < 0
            then && id !in At(calls, n).table && (forall k: nat :: k < n ==> !Plans(calls[k], id))
                 && Untold(calls, n, id)
            else && PlannedBy(calls, n, id, p) && PhaseAt(calls, n, id).Some?
                 && id in At(calls, n).table && At(calls, n).table[id] == Story(calls, n, id, p)
  {
    if n == 0 {
      p := -1;
    } else {
      p := EntryIsStory(calls, n - 1, id);
      var g, c := At(calls, n - 1), calls[n - 1];
      StepEntry(g, c, id);
      PlanAnswered(g, c);
      NoStep(calls, n);
      hide Effect, At;
      if p < 0 {
        if Plans(c, id) {
          p := n - 1;
        }
      } else {
        Continues(calls, n, id, p);
      }
    }
  }

  lemma NoStep(calls: seq<Call>, n: nat)
    requires 0 < n <= |calls|
    ensures At(calls, n) == Effect(At(calls, n - 1), calls[n - 1]).gov
    ensures Got(calls, n - 1) == Effect(At(calls, n - 1), calls[n - 1]).reply
  {
    hide Effect;
  }

  lemma Continues(calls: seq<Call>, n: nat, id: Id, p: nat)
    requires 0 < n <= |calls| && PlannedBy(calls, n - 1, id, p) && PhaseAt(calls, n - 1, id).Some?
    ensures PlannedBy(calls, n, id, p) && PhaseAt(calls, n, id).Some?
    ensures var r, c := Story(calls, n - 1, id, p), calls[n - 1];
            match Move(calls, n - 1, id)
            case None => Story(calls, n, id, p) == r
            case Some(phase) =>
              Story(calls, n, id, p) == r.(
                state := phase,
                budgetGeneration := if phase == RESERVED then GenOf(c) else r.budgetGeneration,
                reservedPower := if phase == RESERVED then r.requestedPower else r.reservedPower,
                activatedAt := if phase == ACTIVE then NowOf(c) else r.activatedAt,
                releasedAt := if phase == RELEASED then NowOf(c) else r.releasedAt)
  {
    hide Move;
  }

  // ---- what every call is answered -------------------------------------------------------

  /** Its time has passed; a reservation stamped zero has none. */
  predicate Late(q: Request, now: int) { q.now != 0 && now > q.now + q.validity }

  /** Every budget of the chain is there and stays within its maximum with that much more; nothing more always fits. */
  predicate Room(books: Books, b: Id, watts: int) {
    watts >= 0 && forall x :: x in ChainOf(books, b) ==>
      x in books && (watts == 0 || books[x].reserved + books[x].used + watts <= books[x].cfg.hardMax)
  }

  /** Every budget of the chain is there and carries that much. */
  predicate Carried(books: Books, b: Id, watts: int) {
    watts >= 0 && forall x :: x in ChainOf(books, b) ==> x in books && books[x].reserved >= watts
  }

  /** Call k defines b, and under this generation. */
  predicate Defines(calls: seq<Call>, n: nat, b: Id, k: nat, gen: Gen)
    requires n <= |calls|
  {
    GreatestOffer(calls, n, b, k) && calls[k].b.generation == gen
  }

  lemma RoomIs(books: Books, b: Id, watts: int)
    ensures Room(books, b, watts) <==> watts >= 0 && HasCapacity(books, ChainOf(books, b), watts)
  {
    hide ChainOf;
  }

  lemma CurrentIs(calls: seq<Call>, n: nat, b: Id, gen: Gen)
    requires n <= |calls|
    ensures Current(At(calls, n).books, b, gen) <==> exists k: nat :: Defines(calls, n, b, k, gen)
    ensures forall k: nat :: Defines(calls, n, b, k, gen) ==>
              b in At(calls, n).books && At(calls, n).books[b].cfg == calls[k].b
  {
    hide At, GreatestOffer;
    var k := Holder(calls, n, b);
    forall m: nat | Defines(calls, n, b, m, gen)
      ensures k == m
    {
      HoldsGreatestOffer(calls, n, b);
      OneGreatest(calls, n, b, k, m);
    }
    if Current(At(calls, n).books, b, gen) {
      assert Defines(calls, n, b, k, gen);
    }
  }

  /** A reservation is planned exactly when its id was never planned before. */
  lemma PlanExactly(calls: seq<Call>, i: nat)
    requires i < |calls| && calls[i].Plan?
    ensures Got(calls, i) == if exists k: nat :: k < i && Plans(calls[k], calls[i].q.id) then Refused(DuplicateId) else Done
  {
    var p := EntryIsStory(calls, i, calls[i].q.id);
    PlanAnswered(At(calls, i), calls[i]);
    hide At, Effect, Story;
  }

  /** A call names an unknown reservation exactly when none of that id was ever planned. */
  lemma UnknownExactly(calls: seq<Call>, i: nat)
    requires i < |calls| && !calls[i].Install? && !calls[i].Plan?
    ensures Got(calls, i) == Unknown <==> forall k: nat :: k < i ==> !Plans(calls[k], About(calls[i]))
  {
    var p := EntryIsStory(calls, i, About(calls[i]));
    UnknownAnswered(At(calls, i), calls[i]);
    hide At, Effect, Story;
  }

  lemma UnknownAnswered(g: Gov, c: Call)
    ensures !c.Install? && !c.Plan? ==> (Effect(g, c).reply == Unknown <==> About(c) !in g.table)
  {
    hide ChainOf, Post, Updated, CanReserve, CanActivate, CanRelease, Returned, Expired;
  }

  /** The entry of a reservation that was planned. */
  lemma Known(calls: seq<Call>, i: nat, id: Id, p: nat)
    requires i <= |calls| && PlannedBy(calls, i, id, p)
    ensures PhaseAt(calls, i, id).Some? && id in At(calls, i).table && At(calls, i).table[id] == Story(calls, i, id, p)
    ensures forall now :: Expired(Story(calls, i, id, p), now) <==> Late(calls[p].q, now)
  {
    hide At;
    var m := EntryIsStory(calls, i, id);
    assert Plans(calls[p], id);
    assert m == p;
  }

  /** A validation succeeds exactly from PLANNED, under the policy generation that was planned. */
  lemma ValidateExactly(calls: seq<Call>, i: nat, p: nat)
    requires i < |calls| && calls[i].Validate? && PlannedBy(calls, i, calls[i].id, p)
    ensures var c, q, phase := calls[i], calls[p].q, PhaseAt(calls, i, calls[i].id);
            && (Got(calls, i) == Done <==> phase == Some(PLANNED) && c.policy == q.policyGeneration)
            && (Got(calls, i) == Refused(PolicyMismatch) <==> phase == Some(PLANNED) && c.policy != q.policyGeneration)
            && (Got(calls, i) == Refused(NotPlanned) <==> phase != Some(PLANNED))
  {
    Known(calls, i, calls[i].id, p);
    hide At, PhaseAt, Updated, PlannedBy;
  }

  /** A reserve succeeds exactly before it was reserved, in time, under the generation that defines its budget,
      an authoritative one, and with room on the whole chain. */
  lemma ReserveExactly(calls: seq<Call>, i: nat, p: nat)
    requires i < |calls| && calls[i].Reserve? && PlannedBy(calls, i, calls[i].id, p)
    ensures var c, q, phase := calls[i], calls[p].q, PhaseAt(calls, i, calls[i].id);
            var early := phase in {Some(PLANNED), Some(VALIDATED)};
            && (Got(calls, i) == Done <==>
                  early && !Late(q, c.now) && Room(At(calls, i).books, q.budget, q.power)
                  && exists k: nat :: Defines(calls, i, q.budget, k, c.gen) && calls[k].b.authoritative)
            && (Got(calls, i) == Refused(HasExpired) <==> early && Late(q, c.now))
            && (Got(calls, i) == Refused(NotReservable) <==> !early)
            && Got(calls, i) in {Done, Refused(HasExpired), Refused(NotReservable), Refused(BudgetRefused)}
  {
    var q := calls[p].q;
    Known(calls, i, calls[i].id, p);
    RoomIs(At(calls, i).books, q.budget, q.power);
    CurrentIs(calls, i, q.budget, calls[i].gen);
    hide At, PhaseAt, Updated, PlannedBy, ChainOf, Post, HasCapacity, Room, Late, Expired, GreatestOffer;
  }

  /** An admission succeeds exactly from RESERVED, in time. */
  lemma AdmitExactly(calls: seq<Call>, i: nat, p: nat)
    requires i < |calls| && calls[i].Admit? && PlannedBy(calls, i, calls[i].id, p)
    ensures var c, q, phase := calls[i], calls[p].q, PhaseAt(calls, i, calls[i].id);
            && (Got(calls, i) == Done <==> phase == Some(RESERVED) && !Late(q, c.now))
            && (Got(calls, i) == Refused(HasExpired) <==> phase == Some(RESERVED) && Late(q, c.now))
            && (Got(calls, i) == Refused(NotReserved) <==> phase != Some(RESERVED))
  {
    Known(calls, i, calls[i].id, p);
    hide At, PhaseAt, Updated, PlannedBy, Expired, Late;
  }

  /** The generation of the last successful reserve. */
  function BookedUnder(calls: seq<Call>, n: nat, id: Id): Gen
    requires n <= |calls|
  {
    var k := LastTo(calls, n, id, RESERVED);
    if k < 0 then 0 else GenOf(calls[k])
  }

  /** An activation succeeds exactly when it is reserved or admitted and not late, under the generation of its
      last successful reserve, if that still defines the budget, and with room on the whole chain. */
  lemma ActivateExactly(calls: seq<Call>, i: nat, p: nat)
    requires i < |calls| && calls[i].Activate? && PlannedBy(calls, i, calls[i].id, p)
    ensures var c, q, phase := calls[i], calls[p].q, PhaseAt(calls, i, calls[i].id);
            var ready := phase in {Some(RESERVED), Some(ADMITTED)};
            var booked := BookedUnder(calls, i, c.id);
            && (Got(calls, i) == Done <==>
                  ready && !Late(q, c.now) && c.gen == booked && Room(At(calls, i).books, q.budget, q.power)
                  && exists k: nat :: Defines(calls, i, q.budget, k, c.gen))
            && (Got(calls, i) == Refused(HasExpired) <==> ready && Late(q, c.now))
            && (Got(calls, i) == Refused(GenerationChanged) <==> ready && !Late(q, c.now) && c.gen != booked)
            && (Got(calls, i) == Refused(NotAdmitted) <==> !ready)
            && Got(calls, i) in {Done, Refused(HasExpired), Refused(GenerationChanged), Refused(NotAdmitted), Refused(BudgetRefused)}
  {
    var q := calls[p].q;
    Known(calls, i, calls[i].id, p);
    RoomIs(At(calls, i).books, q.budget, q.power);
    CurrentIs(calls, i, q.budget, calls[i].gen);
    hide At, PhaseAt, Updated, PlannedBy, ChainOf, Post, HasCapacity, Room, Late, Expired, GreatestOffer, LastTo, GenOf;
  }

  /** A release succeeds exactly when it has neither ended nor been admitted under the null generation, under
      the generation that defines its budget, and with all of it on the chain; what a reservation that was
      never reserved gives back is nothing. */
  lemma ReleaseExactly(calls: seq<Call>, i: nat, p: nat)
    requires i < |calls| && calls[i].Release? && PlannedBy(calls, i, calls[i].id, p)
    ensures var c, q, phase := calls[i], calls[p].q, PhaseAt(calls, i, calls[i].id);
            var ended := phase in {Some(RELEASED), Some(EXPIRED)};
            var nameless := phase in {Some(ADMITTED), Some(ACTIVE)} && BookedUnder(calls, i, c.id) == 0;
            var held := if LastTo(calls, i, c.id, RESERVED) < 0 then 0 else q.power;
            && (Got(calls, i) == Done <==>
                  !ended && !nameless && Carried(At(calls, i).books, q.budget, held)
                  && exists k: nat :: Defines(calls, i, q.budget, k, c.gen))
            && (Got(calls, i) == Refused(DoubleRelease) <==> phase == Some(RELEASED))
            && (Got(calls, i) == Refused(AlreadyExpired) <==> phase == Some(EXPIRED))
            && (Got(calls, i) == Refused(UnknownGeneration) <==> nameless)
            && Got(calls, i) in {Done, Refused(DoubleRelease), Refused(AlreadyExpired), Refused(UnknownGeneration), Refused(BudgetRefused)}
  {
    var q := calls[p].q;
    Known(calls, i, calls[i].id, p);
    CurrentIs(calls, i, q.budget, calls[i].gen);
    hide At, PhaseAt, PlannedBy, GreatestOffer, LastTo, GenOf, Late, Expired, Effect;
    ReleaseAnswered(At(calls, i), calls[i]);
    hide CanRelease;
  }

  lemma ReleaseAnswered(g: Gov, c: Call)
    requires c.Release? && c.id in g.table
    ensures var r := g.table[c.id];
            Effect(g, c).reply ==
            if r.state == RELEASED then Refused(DoubleRelease)
            else if r.state == EXPIRED then Refused(AlreadyExpired)
            else if r.state in {ADMITTED, ACTIVE} && r.budgetGeneration == 0 then Refused(UnknownGeneration)
            else if Current(g.books, r.budget, c.gen) && Carried(g.books, r.budget, r.reservedPower) then Done
            else Refused(BudgetRefused)
  {
    hide ChainOf, Returned, Updated;
  }

  // ---- the fence of an activation --------------------------------------------------------

  /** No activation under a definition that was replaced: when one succeeds, the last successful reserve was
      under the same generation, and no definition of the budget was taken in between. */
  lemma ActivationIsFenced(calls: seq<Call>, i: nat, p: nat) returns (r: nat)
    requires i < |calls| && calls[i].Activate? && PlannedBy(calls, i, calls[i].id, p) && Got(calls, i) == Done
    ensures r < i && calls[r].Reserve? && calls[r].id == calls[i].id && Got(calls, r) == Done
    ensures forall k: nat :: r < k < i && calls[k].Reserve? && calls[k].id == calls[i].id ==> Got(calls, k) != Done
    ensures calls[r].gen == calls[i].gen
    ensures forall k: nat :: r < k < i && Installs(calls[k], calls[p].q.budget) ==> Got(calls, k) != Done
  {
    var id, b := calls[i].id, calls[p].q.budget;
    hide *;
    var now := ActivateNeeds(calls, i, p);
    r := WasReserved(calls, i, id);
    LastToIs(calls, i, id, RESERVED);
    ReservedEarlier(calls, r, i, id, p);
    var before := ReserveNeeds(calls, r, p);
    NoNewerBetween(calls, r, i, b, before, now);
    BookedBy(calls, i, id, r);
    forall k: nat | r < k < i && calls[k].Reserve? && calls[k].id == id
      ensures Got(calls, k) != Done
    {
      if Got(calls, k) == Done {
        ReserveMoves(calls, k);
      }
    }
  }

  lemma BookedBy(calls: seq<Call>, n: nat, id: Id, r: nat)
    requires n <= |calls| && r == LastTo(calls, n, id, RESERVED) && r < n && calls[r].Reserve?
    ensures BookedUnder(calls, n, id) == calls[r].gen
  {
  }

  lemma ActivateNeeds(calls: seq<Call>, i: nat, p: nat) returns (k: nat)
    requires i < |calls| && calls[i].Activate? && PlannedBy(calls, i, calls[i].id, p) && Got(calls, i) == Done
    ensures PhaseAt(calls, i, calls[i].id) in {Some(RESERVED), Some(ADMITTED)}
    ensures BookedUnder(calls, i, calls[i].id) == calls[i].gen
    ensures GreatestOffer(calls, i, calls[p].q.budget, k) && calls[k].b.generation == calls[i].gen
  {
    hide Got, At, Late, Room, GreatestOffer, PhaseAt, LastTo, Move;
    ActivateExactly(calls, i, p);
    k :| Defines(calls, i, calls[p].q.budget, k, calls[i].gen);
  }

  lemma ReserveNeeds(calls: seq<Call>, i: nat, p: nat) returns (k: nat)
    requires i < |calls| && calls[i].Reserve? && PlannedBy(calls, i, calls[i].id, p) && Got(calls, i) == Done
    ensures GreatestOffer(calls, i, calls[p].q.budget, k) && calls[k].b.generation == calls[i].gen
  {
    hide Got, At, Late, Room, GreatestOffer, PhaseAt, LastTo, Move;
    ReserveExactly(calls, i, p);
    k :| Defines(calls, i, calls[p].q.budget, k, calls[i].gen);
  }

  lemma ReserveMoves(calls: seq<Call>, k: nat)
    requires k < |calls| && calls[k].Reserve? && Got(calls, k) == Done
    ensures Move(calls, k, calls[k].id) == Some(RESERVED)
  {
    hide Got;
  }

  lemma NoNewerBetween(calls: seq<Call>, r: nat, i: nat, b: Id, before: nat, now: nat)
    requires r < i < |calls| && GreatestOffer(calls, r, b, before) && GreatestOffer(calls, i, b, now)
    requires calls[before].b.generation == calls[now].b.generation
    ensures forall k: nat :: r < k < i && Installs(calls[k], b) ==> Got(calls, k) != Done
  {
    hide Got;
    forall k: nat | r < k < i && Installs(calls[k], b)
      ensures Got(calls, k) != Done
    {
      InstallExactly(calls, k);
      assert Installs(calls[before], b) && Installs(calls[now], b);
    }
  }

  /** What is reserved or admitted was reserved at some time. */
  lemma {:induction false} WasReserved(calls: seq<Call>, n: nat, id: Id) returns (r: nat)
    requires n <= |calls| && PhaseAt(calls, n, id) in {Some(RESERVED), Some(ADMITTED)}
    ensures r < n && r == LastTo(calls, n, id, RESERVED)
  {
    hide Move, Got;
    if Move(calls, n - 1, id) == Some(RESERVED) {
      r := n - 1;
    } else if Move(calls, n - 1, id) == None {
      r := WasReserved(calls, n - 1, id);
    } else {
      AdmittedFromReserved(calls, n - 1, id);
      r := WasReserved(calls, n - 1, id);
    }
  }

  lemma AdmittedFromReserved(calls: seq<Call>, i: nat, id: Id)
    requires i < |calls| && Move(calls, i, id) == Some(ADMITTED)
    ensures PhaseAt(calls, i, id) == Some(RESERVED)
  {
    hide At, Effect, PhaseAt;
    var p := EntryIsStory(calls, i, id);
    UnknownExactly(calls, i);
    AdmitExactly(calls, i, p);
  }

  lemma ReservedEarlier(calls: seq<Call>, r: nat, i: nat, id: Id, p: nat)
    requires r < i < |calls| && PlannedBy(calls, i, id, p) && Move(calls, r, id) == Some(RESERVED)
    ensures calls[r].Reserve? && calls[r].id == id && Got(calls, r) == Done
    ensures PlannedBy(calls, r, id, p)
  {
    hide At, Effect;
    UnknownExactly(calls, r);
  }

  // ---- the order of the index ------------------------------------------------------------

  /** For every reservation the last call about it that succeeded. */
  function LastDone(calls: seq<Call>, n: nat): map<Id, int>
    requires n <= |calls|
  {
    if n == 0 then map[]
    else if calls[n - 1].Install? || Got(calls, n - 1) != Done then LastDone(calls, n - 1)
    else LastDone(calls, n - 1)[About(calls[n - 1]) := n - 1]
  }

  lemma {:induction false} LastDoneBefore(calls: seq<Call>, n: nat)
    requires n <= |calls|
    ensures forall id :: id in LastDone(calls, n) ==> LastDone(calls, n)[id] < n
  {
    hide Got;
    if n > 0 {
      LastDoneBefore(calls, n - 1);
    }
  }

  /** What one call does to the index. */
  lemma StepIndex(g: Gov, c: Call)
    ensures var o := Effect(g, c);
            if c.Install? || o.reply != Done then o.gov.index == g.index
            else && About(c) in o.gov.table && (c.Plan? <==> About(c) !in g.table)
                 && var r := o.gov.table[About(c)];
                    var meta := Meta(r.budget, r.workload, r.state);
                    o.gov.index == if c.Plan? then Added(g.index, About(c), meta) else Updated(g.index, About(c), meta)
  {
    hide ChainOf, Post, Updated, Added, CanReserve, CanActivate, CanRelease, Returned, Expired;
  }

  lemma {:induction false} IndexAgrees(calls: seq<Call>, n: nat)
    requires n <= |calls| && forall i :: 0 <= i < |calls| ==> Allocated(calls[i])
    ensures Agrees(At(calls, n).index, At(calls, n).table)
  {
    hide Agrees;
    AtIsRun(calls, n);
    ReachableAgrees(calls[..n]);
    hide At;
  }

  lemma StepInOrder(g: Gov, c: Call, rank: map<Id, int>, n: int)
    requires Agrees(g.index, g.table) && Allocated(c) && Ordered(g.index, rank)
    requires forall x :: x in rank ==> rank[x] < n
    ensures var o := Effect(g, c);
            if c.Install? || o.reply != Done then o.gov.index == g.index
            else Ordered(o.gov.index, rank[About(c) := n])
                 && About(c) in o.gov.table && o.gov.index.members == g.index.members[About(c) := o.gov.index.members[About(c)]]
                 && o.gov.index.members[About(c)].phase == o.gov.table[About(c)].state
  {
    StepIndex(g, c);
    AgreesParts(g.index, g.table);
    hide Effect, Ordered, Agrees, Consistent;
    var o := Effect(g, c);
    if !c.Install? && o.reply == Done {
      var r := o.gov.table[About(c)];
      var meta := Meta(r.budget, r.workload, r.state);
      MembersAfter(g.index, About(c), meta);
      hide Updated, Added;
      if c.Plan? {
        AddedOrdered(g.index, About(c), meta, rank, n);
      } else {
        UpdatedOrdered(g.index, About(c), meta, rank, n);
      }
    }
  }

  lemma {:induction false} IndexOrdered(calls: seq<Call>, n: nat)
    requires n <= |calls| && forall i :: 0 <= i < |calls| ==> Allocated(calls[i])
    ensures Ordered(At(calls, n).index, LastDone(calls, n))
  {
    if n > 0 {
      IndexOrdered(calls, n - 1);
      LastDoneBefore(calls, n - 1);
      IndexAgrees(calls, n - 1);
      StepInOrder(At(calls, n - 1), calls[n - 1], LastDone(calls, n - 1), n - 1);
      NoStep(calls, n);
      hide Effect, At, Ordered, Agrees;
    } else {
      NothingOrdered();
    }
  }

  /** The last call about id that succeeded took it to this phase. */
  predicate FiledAt(calls: seq<Call>, n: nat, id: Id, p: Phase)
    requires n <= |calls|
  {
    id in LastDone(calls, n) && 0 <= LastDone(calls, n)[id] < n && Move(calls, LastDone(calls, n)[id], id) == Some(p)
  }

  lemma {:induction false} IndexPhases(calls: seq<Call>, n: nat, id: Id)
    requires n <= |calls| && forall i :: 0 <= i < |calls| ==> Allocated(calls[i])
    requires id in At(calls, n).index.members
    ensures FiledAt(calls, n, id, At(calls, n).index.members[id].phase)
  {
    if n > 0 {
      var g, c := At(calls, n - 1), calls[n - 1];
      IndexOrdered(calls, n - 1);
      LastDoneBefore(calls, n - 1);
      IndexAgrees(calls, n - 1);
      StepInOrder(g, c, LastDone(calls, n - 1), n - 1);
      StepEntry(g, c, id);
      NoStep(calls, n);
      hide Effect, At, Ordered, Agrees;
      if !c.Install? && Got(calls, n - 1) == Done && About(c) == id {
        NowFiled(calls, n);
      } else {
        IndexPhases(calls, n - 1, id);
        StillFiled(calls, n, id);
      }
    }
  }

  lemma StillFiled(calls: seq<Call>, n: nat, id: Id)
    requires 0 < n <= |calls|
    requires calls[n - 1].Install? || Got(calls, n - 1) != Done || About(calls[n - 1]) != id
    ensures forall p :: FiledAt(calls, n - 1, id, p) ==> FiledAt(calls, n, id, p)
  {
    hide Got, Move;
  }

  lemma NowFiled(calls: seq<Call>, n: nat)
    requires 0 < n <= |calls| && !calls[n - 1].Install? && Got(calls, n - 1) == Done
    ensures Move(calls, n - 1, About(calls[n - 1])).Some?
    ensures FiledAt(calls, n, About(calls[n - 1]), Move(calls, n - 1, About(calls[n - 1])).value)
  {
    hide Got;
  }

  /** Every list of the index, by budget, by workload or by phase, holds its reservations in the order of the last
      calls about them that succeeded, and the phase they are filed under is the one that call took them to. */
  lemma IndexInOrder(calls: seq<Call>, n: nat)
    requires n <= |calls| && forall i :: 0 <= i < |calls| ==> Allocated(calls[i])
    ensures Ordered(At(calls, n).index, LastDone(calls, n))
    ensures forall id :: id in At(calls, n).index.members ==> FiledAt(calls, n, id, At(calls, n).index.members[id].phase)
  {
    hide At, Ordered, FiledAt;
    IndexOrdered(calls, n);
    forall id | id in At(calls, n).index.members
      ensures FiledAt(calls, n, id, At(calls, n).index.members[id].phase)
    {
      IndexPhases(calls, n, id);
    }
  }

  lemma AgreesParts(e: Entries, table: Table)
    requires Agrees(e, table)
    ensures Consistent(e) && e.members.Keys == table.Keys
  {
  }

  lemma MembersAfter(e: Entries, id: Id, meta: Meta)
    ensures id != 0 ==> Added(e, id, meta).members == e.members[id := meta]
    ensures id != 0 || id in e.members ==> Updated(e, id, meta).members == e.members[id := meta]
  {
  }

  lemma NothingOrdered()
    ensures Ordered(NOTHING, map[])
  {
  }
}
