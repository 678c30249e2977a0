/** The governor's locked entry points.  Every mutator holds one exclusive lock, so a concurrent
    execution is a sequence of these atomic calls, and a theorem about every sequence of calls is a
    theorem about every interleaving. */
module Governor {
  import opened Basics
  import opened Ledger
  import opened Reservations
  import opened Index

  datatype Gov = Gov(books: Books, table: Table, index: Entries)

  datatype Call =
    | Install(b: Budget)
    | Plan(q: Request)
    | Validate(id: Id, policy: Gen)
    | Reserve(id: Id, gen: Gen, now: int)
    | Admit(id: Id, now: int)
    | Activate(id: Id, gen: Gen, now: int)
    | Release(id: Id, gen: Gen, now: int)

  datatype Outcome = Outcome(gov: Gov, reply: Reply)

  const EMPTY: Gov := Gov(map[], map[], NOTHING)

  /** `update_index_state`, after a successful call only. */
  function Refiled(e: Entries, s: Stepped, id: Id, phase: Phase): Outcome {
    Outcome(Gov(s.books, s.table,
                if s.reply == Done && id in s.table
                then Updated(e, id, Meta(s.table[id].budget, s.table[id].workload, phase)) else e),
            s.reply)
  }

  function Effect(g: Gov, c: Call): Outcome {
    match c
    case Install(b) =>
      if Installable(g.books, b) then Outcome(g.(books := Installed(g.books, b)), Done)
      else Outcome(g, Refused(Rollback))
    case Plan(q) =>
      var s := PlanStep(g.books, g.table, q);
      Outcome(Gov(s.books, s.table,
                  if s.reply == Done then Added(g.index, q.id, Meta(q.budget, q.workload, PLANNED)) else g.index),
              s.reply)
    case Validate(id, policy) => Refiled(g.index, ValidateStep(g.books, g.table, id, policy), id, VALIDATED)
    case Reserve(id, gen, now) => Refiled(g.index, ReserveStep(g.books, g.table, id, gen, now), id, RESERVED)
    case Admit(id, now) => Refiled(g.index, AdmitStep(g.books, g.table, id, now), id, ADMITTED)
    case Activate(id, gen, now) => Refiled(g.index, ActivateStep(g.books, g.table, id, gen, now), id, ACTIVE)
    case Release(id, gen, now) => Refiled(g.index, ReleaseStep(g.books, g.table, id, gen, now), id, RELEASED)
  }

  function Step(g: Gov, c: Call): Gov { Effect(g, c).gov }

  function Run(g: Gov, calls: seq<Call>): Gov
    decreases |calls|
  {
    if calls == [] then g else Run(Step(g, calls[0]), calls[1..])
  }

  lemma {:induction false} RunSnoc(g: Gov, calls: seq<Call>, c: Call)
    ensures Run(g, calls + [c]) == Step(Run(g, calls), c)
    decreases |calls|
  {
    hide Step;
    if calls == [] {
      assert ([] + [c])[1..] == [];
      assert Run(Step(g, c), []) == Step(g, c);
    } else {
      assert (calls + [c])[1..] == calls[1..] + [c];
      RunSnoc(Step(g, calls[0]), calls[1..], c);
    }
  }

  class Governor {
    const budgets: BudgetManager
    const reservations: ReservationManager
    const index: ReservationIndex

    function State(): Gov
      reads budgets, reservations, index
    {
      Gov(budgets.states, reservations.table, index.Contents())
    }

    constructor ()
      ensures State() == EMPTY
      ensures fresh(budgets) && fresh(reservations) && fresh(index)
    {
      budgets := new BudgetManager();
      reservations := new ReservationManager();
      index := new ReservationIndex();
    }

    method InstallBudget(b: Budget) returns (reply: Reply)
      modifies budgets
      ensures Outcome(State(), reply) == old(Effect(State(), Install(b)))
    {
      var ok := budgets.Install(b);
      reply := if ok then Done else Refused(Rollback);
    }

    method PlanReservation(q: Request) returns (reply: Reply)
      modifies reservations, index
      ensures Outcome(State(), reply) == old(Effect(State(), Plan(q)))
    {
      reply := reservations.Plan(budgets, q);
      if reply == Done {
        index.Add(q.id, Meta(q.budget, q.workload, PLANNED));
      }
    }

    method UpdateIndexState(id: Id, phase: Phase)
      requires id in reservations.table
      modifies index
      ensures index.Contents() == old(Updated(index.Contents(), id,
                Meta(reservations.table[id].budget, reservations.table[id].workload, phase)))
    {
      var r := reservations.table[id];
      index.SetState(id, Meta(r.budget, r.workload, phase));
    }

    method ValidateReservation(id: Id, policy: Gen) returns (reply: Reply)
      modifies reservations, index
      ensures Outcome(State(), reply) == old(Effect(State(), Validate(id, policy)))
    {
      hide Updated;
      reply := reservations.Validate(budgets, id, policy);
      if reply == Done {
        UpdateIndexState(id, VALIDATED);
      }
    }

    method ReserveReservation(id: Id, gen: Gen, now: int) returns (reply: Reply)
      modifies budgets, reservations, index
      ensures Outcome(State(), reply) == old(Effect(State(), Reserve(id, gen, now)))
    {
      hide Updated, Post, ChainOf, CanReserve;
      reply := reservations.Reserve(budgets, id, gen, now);
      if reply == Done {
        UpdateIndexState(id, RESERVED);
      }
    }

    method AdmitReservation(id: Id, now: int) returns (reply: Reply)
      modifies reservations, index
      ensures Outcome(State(), reply) == old(Effect(State(), Admit(id, now)))
    {
      hide Updated;
      reply := reservations.Admit(budgets, id, now);
      if reply == Done {
        UpdateIndexState(id, ADMITTED);
      }
    }

    method ActivateReservation(id: Id, gen: Gen, now: int) returns (reply: Reply)
      modifies budgets, reservations, index
      ensures Outcome(State(), reply) == old(Effect(State(), Activate(id, gen, now)))
    {
      hide Updated, Post, ChainOf, CanActivate;
      reply := reservations.Activate(budgets, id, gen, now);
      if reply == Done {
        UpdateIndexState(id, ACTIVE);
      }
    }

    method ReleaseReservation(id: Id, gen: Gen, now: int) returns (reply: Reply)
      modifies budgets, reservations, index
      ensures Outcome(State(), reply) == old(Effect(State(), Release(id, gen, now)))
    {
      hide Updated, Post, ChainOf, CanRelease, CanDeactivate, Returned;
      reply := reservations.Release(budgets, id, gen, now);
      if reply == Done {
        UpdateIndexState(id, RELEASED);
      }
    }
  }
}
