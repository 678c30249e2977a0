/** Transactional reservations over the ledger: plan, validate, reserve, admit, activate, release. */
module Reservations {
  import opened Basics
  import opened Ledger

  datatype Phase = PLANNED | VALIDATED | RESERVED | ADMITTED | ACTIVE | RELEASED | EXPIRED

  datatype Reservation = Reservation(
    id: Id, workload: Id, powerClass: nat, scope: Id, budget: Id,
    requestedPower: int, requestedEnergy: int,
    policyGeneration: Gen, deviceGeneration: Gen, budgetGeneration: Gen, epoch: Gen, boot: Id,
    created: int, validity: nat, state: Phase, reservedPower: int, energyUsed: int,
    activatedAt: int, releasedAt: int)

  type Table = map<Id, Reservation>

  /** What `plan` is given; id is the value drawn by `allocate`. */
  datatype Request = Request(
    id: Id, workload: Id, powerClass: nat, scope: Id, budget: Id, power: int, energy: int,
    policyGeneration: Gen, deviceGeneration: Gen, epoch: Gen, boot: Id, now: int, validity: nat)

  datatype Reason =
    | Rollback | DuplicateId | NotPlanned | PolicyMismatch | NotReservable | HasExpired | BudgetRefused
    | NotReserved | NotAdmitted | GenerationChanged | DoubleRelease | AlreadyExpired | UnknownGeneration

  /** Unknown is the out_of_range exception for an id that is not in the table. */
  datatype Reply = Done | Refused(reason: Reason) | Unknown

  /** A table, the books it draws on, and the reply of the call that led there. */
  datatype Stepped = Stepped(books: Books, table: Table, reply: Reply)

  function Planned(q: Request): Reservation {
    Reservation(q.id, q.workload, q.powerClass, q.scope, q.budget, q.power, q.energy,
                q.policyGeneration, q.deviceGeneration, 0, q.epoch, q.boot,
                q.now, q.validity, PLANNED, 0, 0, 0, 0)
  }

  function Expired(r: Reservation, now: int): bool {
    r.created != 0 && Elapsed(now, r.created) > r.validity
  }

  function PlanStep(books: Books, table: Table, q: Request): Stepped {
    if q.id in table then Stepped(books, table, Refused(DuplicateId))
    else Stepped(books, table[q.id := Planned(q)], Done)
  }

  function ValidateStep(books: Books, table: Table, id: Id, policy: Gen): Stepped {
    if id !in table then Stepped(books, table, Unknown)
    else if table[id].state != PLANNED then Stepped(books, table, Refused(NotPlanned))
    else if table[id].policyGeneration != policy then Stepped(books, table, Refused(PolicyMismatch))
    else Stepped(books, table[id := table[id].(state := VALIDATED)], Done)
  }

  function ReserveStep(books: Books, table: Table, id: Id, gen: Gen, now: int): Stepped {
    if id !in table then Stepped(books, table, Unknown)
    else
      var r := table[id];
      if r.state != VALIDATED && r.state != PLANNED then Stepped(books, table, Refused(NotReservable))
      else if Expired(r, now) then Stepped(books, table[id := r.(state := EXPIRED)], Refused(HasExpired))
      else if !CanReserve(books, r.budget, r.requestedPower, gen) then Stepped(books, table, Refused(BudgetRefused))
      else
        Stepped(Post(books, ChainOf(books, r.budget), r.requestedPower, 0),
                table[id := r.(budgetGeneration := gen, reservedPower := r.requestedPower, state := RESERVED)],
                Done)
  }

  function AdmitStep(books: Books, table: Table, id: Id, now: int): Stepped {
    if id !in table then Stepped(books, table, Unknown)
    else
      var r := table[id];
      if r.state != RESERVED then Stepped(books, table, Refused(NotReserved))
      else if Expired(r, now) then Stepped(books, table[id := r.(state := EXPIRED)], Refused(HasExpired))
      else Stepped(books, table[id := r.(state := ADMITTED)], Done)
  }

  function ActivateStep(books: Books, table: Table, id: Id, gen: Gen, now: int): Stepped {
    if id !in table then Stepped(books, table, Unknown)
    else
      var r := table[id];
      if r.state != ADMITTED && r.state != RESERVED then Stepped(books, table, Refused(NotAdmitted))
      else if Expired(r, now) then Stepped(books, table[id := r.(state := EXPIRED)], Refused(HasExpired))
      else if r.budgetGeneration != gen then Stepped(books, table, Refused(GenerationChanged))
      else if !CanActivate(books, r.budget, r.requestedPower, gen) then Stepped(books, table, Refused(BudgetRefused))
      else
        Stepped(Post(books, ChainOf(books, r.budget), 0, r.requestedPower),
                table[id := r.(state := ACTIVE, activatedAt := now)], Done)
  }

  predicate Holding(p: Phase) { p == RESERVED || p == ADMITTED || p == ACTIVE }

  /** The usage a release gives back: its own deactivate, whose answer is ignored. */
  function Returned(books: Books, r: Reservation, gen: Gen): Books {
    var freed := Post(books, ChainOf(books, r.budget), -r.reservedPower, 0);
    if Holding(r.state) && CanDeactivate(freed, r.budget, r.reservedPower, gen)
    then Post(freed, ChainOf(freed, r.budget), 0, -r.reservedPower)
    else freed
  }

  function ReleaseStep(books: Books, table: Table, id: Id, gen: Gen, now: int): Stepped {
    if id !in table then Stepped(books, table, Unknown)
    else
      var r := table[id];
      if r.state == RELEASED then Stepped(books, table, Refused(DoubleRelease))
      else if r.state == EXPIRED then Stepped(books, table, Refused(AlreadyExpired))
      else if r.budgetGeneration == 0 && (r.state == ADMITTED || r.state == ACTIVE)
      then Stepped(books, table, Refused(UnknownGeneration))
      else if !CanRelease(books, r.budget, r.reservedPower, gen) then Stepped(books, table, Refused(BudgetRefused))
      else
        Stepped(Returned(books, r, gen), table[id := r.(state := RELEASED, releasedAt := now)], Done)
  }

  class ReservationManager {
    var table: Table

    constructor ()
      ensures table == map[]
    {
      table := map[];
    }

    method Plan(budgets: BudgetManager, q: Request) returns (reply: Reply)
      modifies this
      ensures Stepped(budgets.states, table, reply) == old(PlanStep(budgets.states, table, q))
    {
      var r := Planned(q);
      if q.id in table {
        return Refused(DuplicateId);
      }
      table := table[q.id := r];
      return Done;
    }

    method Validate(budgets: BudgetManager, id: Id, policy: Gen) returns (reply: Reply)
      modifies this
      ensures Stepped(budgets.states, table, reply) == old(ValidateStep(budgets.states, table, id, policy))
    {
      if id !in table {
        return Unknown;
      }
      if table[id].state != PLANNED {
        return Refused(NotPlanned);
      }
      if table[id].policyGeneration != policy {
        return Refused(PolicyMismatch);
      }
      table := table[id := table[id].(state := VALIDATED)];
      return Done;
    }

    method Reserve(budgets: BudgetManager, id: Id, gen: Gen, now: int) returns (reply: Reply)
      modifies this, budgets
      ensures Stepped(budgets.states, table, reply) == old(ReserveStep(budgets.states, table, id, gen, now))
    {
      hide Post, ChainOf, CanReserve;
      if id !in table {
        return Unknown;
      }
      var r := table[id];
      if r.state != VALIDATED && r.state != PLANNED {
        return Refused(NotReservable);
      }
      if Expired(r, now) {
        table := table[id := r.(state := EXPIRED)];
        return Refused(HasExpired);
      }
      var ok := budgets.Reserve(r.budget, r.requestedPower, gen);
      if !ok {
        return Refused(BudgetRefused);
      }
      r := r.(budgetGeneration := gen);
      r := r.(reservedPower := r.requestedPower);
      r := r.(state := RESERVED);
      table := table[id := r];
      return Done;
    }

    method Admit(budgets: BudgetManager, id: Id, now: int) returns (reply: Reply)
      modifies this
      ensures Stepped(budgets.states, table, reply) == old(AdmitStep(budgets.states, table, id, now))
    {
      if id !in table {
        return Unknown;
      }
      var r := table[id];
      if r.state != RESERVED {
        return Refused(NotReserved);
      }
      if Expired(r, now) {
        table := table[id := r.(state := EXPIRED)];
        return Refused(HasExpired);
      }
      table := table[id := r.(state := ADMITTED)];
      return Done;
    }

    method Activate(budgets: BudgetManager, id: Id, gen: Gen, now: int) returns (reply: Reply)
      modifies this, budgets
      ensures Stepped(budgets.states, table, reply) == old(ActivateStep(budgets.states, table, id, gen, now))
    {
      hide Post, ChainOf, CanActivate;
      if id !in table {
        return Unknown;
      }
      var r := table[id];
      if r.state != ADMITTED && r.state != RESERVED {
        return Refused(NotAdmitted);
      }
      if Expired(r, now) {
        table := table[id := r.(state := EXPIRED)];
        return Refused(HasExpired);
      }
      if r.budgetGeneration != gen {
        return Refused(GenerationChanged);
      }
      var ok := budgets.Activate(r.budget, r.requestedPower, gen);
      if !ok {
        return Refused(BudgetRefused);
      }
      table := table[id := r.(state := ACTIVE, activatedAt := now)];
      return Done;
    }

    method Release(budgets: BudgetManager, id: Id, gen: Gen, now: int) returns (reply: Reply)
      modifies this, budgets
      ensures Stepped(budgets.states, table, reply) == old(ReleaseStep(budgets.states, table, id, gen, now))
    {
      hide Post, ChainOf, CanRelease, CanDeactivate;
      if id !in table {
        return Unknown;
      }
      var r := table[id];
      if r.state == RELEASED {
        return Refused(DoubleRelease);
      }
      if r.state == EXPIRED {
        return Refused(AlreadyExpired);
      }
      if r.budgetGeneration == 0 && (r.state == ADMITTED || r.state == ACTIVE) {
        return Refused(UnknownGeneration);
      }
      var released := budgets.Release(r.budget, r.reservedPower, gen);
      if !released {
        return Refused(BudgetRefused);
      }
      if r.state == ACTIVE || r.state == ADMITTED || r.state == RESERVED {
        var _ := budgets.Deactivate(r.budget, r.reservedPower, gen);
      }
      table := table[id := r.(state := RELEASED, releasedAt := now)];
      return Done;
    }

    /** `restore`: a persisted reservation, unless its id is taken. */
    method Restore(r: Reservation) returns (ok: bool)
      modifies this
      ensures ok == (r.id !in old(table))
      ensures table == if ok then old(table)[r.id := r] else old(table)
    {
      if r.id in table {
        return false;
      }
      table := table[r.id := r];
      return true;
    }
  }
}
