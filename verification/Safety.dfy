/** Safety over whole runs: caps, sums over children, releases that cannot fail, and an index that
    agrees with the table. */
module Safety {
  import opened Basics
  import opened Tree
  import opened Ledger
  import opened Reservations
  import opened Index
  import opened Governor
  import opened Conservation

  // ---- caps ------------------------------------------------------------------------------

  ghost predicate Capped(g: Gov) {
    Rooted(ParentsOf(g.books)) && WithinCap(g.books) && NoDebts(g.table)
  }

  /** No reservation holds a negative amount, which releasing would add to the books. */
  predicate NoDebts(table: Table) { forall k :: k in table ==> table[k].reservedPower >= 0 }

  /** What `install` does not check: the tree stays a forest, of any depth, and a re-issue does not
      lower the maximum below what is booked. */
  ghost predicate SafeInstall(g: Gov, c: Call) {
    c.Install? && Installable(g.books, c.b) ==>
      && Rooted(ParentsOf(Installed(g.books, c.b)))
      && (c.b.id in g.books ==> g.books[c.b.id].reserved + g.books[c.b.id].used <= c.b.hardMax)
  }

  lemma InstallKeepsCaps(books: Books, b: Budget)
    requires WithinCap(books)
    ensures WithinCap(Installed(books, b)) <==>
            (b.id in books ==> books[b.id].reserved + books[b.id].used <= b.hardMax)
  {
    var after := Installed(books, b);
    if WithinCap(after) {
      assert after[b.id].reserved + after[b.id].used <= after[b.id].cfg.hardMax;
    }
  }

  /** A booking that was admitted: along a path it leaves every budget within its cap. */
  lemma AdmittedKeepsCap(books: Books, id: Id, r: nat, u: nat)
    requires Rooted(ParentsOf(books)) && WithinCap(books)
    requires HasCapacity(books, ChainOf(books, id), r + u)
    ensures WithinCap(Post(books, ChainOf(books, id), r, u))
  {
    RootedChainDistinct(ParentsOf(books), id);
    hide Chain;
    BookingKeepsCap(books, ChainOf(books, id), r, u);
  }

  lemma ReturnedKeepsCap(books: Books, r: Reservation, gen: Gen)
    requires WithinCap(books) && r.reservedPower >= 0
    ensures WithinCap(Returned(books, r, gen))
  {
    hide ChainOf, Post, CanDeactivate;
    var ids := ChainOf(books, r.budget);
    var freed := Post(books, ids, -r.reservedPower, 0);
    UnbookingKeepsCap(books, ids, -r.reservedPower, 0);
    UnbookingKeepsCap(freed, ChainOf(freed, r.budget), 0, -r.reservedPower);
  }

  lemma DebtFree(table: Table, id: Id)
    requires NoDebts(table) && id in table
    ensures table[id].reservedPower >= 0
  {}

  lemma StepKeepsNoDebts(g: Gov, c: Call)
    requires NoDebts(g.table)
    ensures NoDebts(Step(g, c).table)
  {
    hide ChainOf, Returned, Updated, Added, Post, HasCapacity;
  }

  /** Every call keeps the caps, in a conserved state or not. */
  lemma StepKeepsCaps(g: Gov, c: Call)
    requires Capped(g) && SafeInstall(g, c)
    ensures Capped(Step(g, c))
  {
    hide ChainOf, Returned, Updated, Added, Post, WithinCap, Rooted;
    StepKeepsNoDebts(g, c);
    hide NoDebts;
    match c
    case Install(b) =>
      InstallKeepsCaps(g.books, b);
    case Plan(q) =>
    case Validate(id, policy) =>
    case Reserve(id, gen, now) =>
      if Effect(g, c).reply == Done {
        var r := g.table[id];
        AdmittedKeepsCap(g.books, r.budget, r.requestedPower, 0);
        PostKeepsParents(g.books, ChainOf(g.books, r.budget), r.requestedPower, 0);
      }
    case Admit(id, now) =>
    case Activate(id, gen, now) =>
      if Effect(g, c).reply == Done {
        var r := g.table[id];
        AdmittedKeepsCap(g.books, r.budget, 0, r.requestedPower);
        PostKeepsParents(g.books, ChainOf(g.books, r.budget), 0, r.requestedPower);
      }
    case Release(id, gen, now) =>
      if Effect(g, c).reply == Done {
        DebtFree(g.table, id);
        ReturnedKeepsCap(g.books, g.table[id], gen);
        ReleaseBooks(g.books, g.table[id], gen);
      }
  }

  ghost predicate SafeRun(g: Gov, calls: seq<Call>)
    decreases |calls|
  {
    calls == [] || (SafeInstall(g, calls[0]) && SafeRun(Step(g, calls[0]), calls[1..]))
  }

  /** Under any interleaving no budget of the tree is ever booked beyond its maximum. */
  lemma {:induction false} RunKeepsCaps(g: Gov, calls: seq<Call>)
    requires Capped(g) && SafeRun(g, calls)
    ensures Capped(Run(g, calls))
    decreases |calls|
  {
    hide Capped, SafeInstall, Effect;
    if calls != [] {
      StepKeepsCaps(g, calls[0]);
      RunKeepsCaps(Step(g, calls[0]), calls[1..]);
    }
  }

  lemma EmptyIsCapped()
    ensures Capped(EMPTY)
  {}

  /** Every state a new governor can reach is within its caps. */
  lemma ReachableIsCapped(calls: seq<Call>)
    requires SafeRun(EMPTY, calls)
    ensures Capped(Run(EMPTY, calls))
  {
    hide Capped;
    EmptyIsCapped();
    RunKeepsCaps(EMPTY, calls);
  }

  /** A refused call changes no budget. */
  lemma RefusedCallKeepsBooks(g: Gov, c: Call)
    requires Effect(g, c).reply != Done
    ensures Step(g, c).books == g.books
  {
    hide Updated, Added, Returned, Post, ChainOf;
  }

  // ---- children --------------------------------------------------------------------------

  ghost function TotalReserved(books: Books, S: set<Id>): int
    requires forall c :: c in S ==> c in books
  {
    if S == {} then 0 else var c :| c in S; books[c].reserved + TotalReserved(books, S - {c})
  }

  lemma {:induction false} TotalIsSum(g: Gov, S: set<Id>)
    requires Sound(g) && forall c :: c in S ==> c in g.books
    ensures TotalReserved(g.books, S) == Sum(ParentsOf(g.books), Held(g.table), S)
    decreases S
  {
    hide Sane, Chain;
    if S == {} {
      forall k | k in Held(g.table)
        ensures Share(ParentsOf(g.books), Held(g.table)[k], {}) == 0
      {
        LoadNowhere(Chain(ParentsOf(g.books), Held(g.table)[k].budget), Held(g.table)[k].amount);
      }
      SumZero(ParentsOf(g.books), Held(g.table), {});
    } else {
      var c :| c in S && TotalReserved(g.books, S) == g.books[c].reserved + TotalReserved(g.books, S - {c});
      TotalIsSum(g, S - {c});
      SumUnion(ParentsOf(g.books), Held(g.table), {c}, S - {c});
      assert {c} + (S - {c}) == S;
    }
  }

  lemma {:induction false} LoadNowhere(ids: seq<Id>, amount: int)
    ensures Load(ids, {}, amount) == 0
    decreases |ids|
  {
    if ids != [] {
      LoadNowhere(ids[1..], amount);
    }
  }

  function ChildrenOf(books: Books, b: Id): set<Id> {
    set c | c in books && LiveParent(books[c].cfg) == Some(b)
  }

  /** What reservations on budgets exactly d links below b hold together; at 0, those on b itself. */
  ghost function HeldBelow(g: Gov, b: Id, d: nat): int {
    Total(LinksBelow(ParentsOf(g.books), Held(g.table), b, d))
  }

  /** In every sound state, whatever the shape of the graph: what the children of a budget carry, with what
      is held on the budget itself, is what the budget carries, with what is held just out of its reach. */
  lemma ChildrenBalance(g: Gov, b: Id)
    requires Sound(g) && b in g.books && b != 0
    ensures TotalReserved(g.books, ChildrenOf(g.books, b)) + HeldBelow(g, b, 0)
            == g.books[b].reserved + HeldBelow(g, b, MAX_CHAIN)
  {
    hide Sane, Chain, Up, LinksBelow;
    var n: nat :| n == MAX_CHAIN;
    var p, S := ParentsOf(g.books), ChildrenOf(g.books, b);
    TotalIsSum(g, S);
    SumChildren(p, Held(g.table), S, b, n);
  }

  lemma FewerTotal(g: Gov, S: set<Id>, T: set<Id>)
    requires Sound(g) && S <= T && forall c :: c in T ==> c in g.books
    ensures TotalReserved(g.books, S) <= TotalReserved(g.books, T)
  {
    hide Sane, Chain, Conserved;
    TotalIsSum(g, S);
    TotalIsSum(g, T);
    HeldNonNegative(g.books, g.table);
    assert T == S + (T - S);
    SumUnion(ParentsOf(g.books), Held(g.table), S, T - S);
    SumAtLeast(ParentsOf(g.books), Held(g.table), T - S, 0);
  }

  /** So no children of a budget hold more than the budget itself exactly when no more is held 65 links below
      it, where a chain stops short of it, than on it. */
  lemma ChildrenWithinParent(g: Gov, b: Id)
    requires Sound(g) && b in g.books && b != 0
    ensures (forall S | S <= ChildrenOf(g.books, b) :: TotalReserved(g.books, S) <= g.books[b].reserved)
            <==> HeldBelow(g, b, MAX_CHAIN) <= HeldBelow(g, b, 0)
  {
    hide Sane, Conserved, HeldBelow, TotalReserved;
    var all := ChildrenOf(g.books, b);
    ChildrenBalance(g, b);
    forall S | S <= all
      ensures TotalReserved(g.books, S) <= TotalReserved(g.books, all)
    {
      FewerTotal(g, S, all);
    }
  }

  /** It is so wherever no installed budget lies exactly 65 links below, as in any tree of at most 65 levels. */
  lemma ShortBranchesWithinParent(g: Gov, b: Id, S: set<Id>)
    requires Sound(g) && b in g.books && b != 0 && S <= ChildrenOf(g.books, b)
    requires forall x :: x in g.books ==> Up(ParentsOf(g.books), Some(x), MAX_CHAIN) != Some(b)
    ensures TotalReserved(g.books, S) <= g.books[b].reserved
  {
    hide Chain, Up, TotalReserved;
    var n: nat :| n == MAX_CHAIN;
    var p := ParentsOf(g.books);
    var far, own := LinksBelow(p, Held(g.table), b, n), LinksBelow(p, Held(g.table), b, 0);
    HeldNonNegative(g.books, g.table);
    forall k | k in far
      ensures far[k] == 0
    {
      assert far[k] == Held(g.table)[k].amount >= 0;
      NothingAboveZero(p, n);
      if far[k] > 0 {
        HolderInstalled(g, k);
      }
    }
    TotalZero(far);
    forall k | k in own
      ensures own[k] >= 0
    {
      assert own[k] == Held(g.table)[k].amount;
    }
    TotalNonNegative(own);
    ChildrenWithinParent(g, b);
  }

  lemma HolderInstalled(g: Gov, k: Id)
    requires Sound(g) && k in g.table && HeldBy(g.table[k]).amount > 0
    ensures g.table[k].budget == 0 || g.table[k].budget in g.books
  {
    hide Conserved;
    ChainStart(ParentsOf(g.books), g.table[k].budget);
    hide Chain;
    assert WellFormed(g.books, g.table[k]);
  }

  lemma NothingAboveZero(parents: Parents, n: nat)
    ensures Up(parents, Some(0), n) == None
  {}

  // ---- releases --------------------------------------------------------------------------

  /** A reservation that `release` takes on: not ended yet, and not one that was booked under the null
      generation, which `install` accepts and `release` takes for unknown once it is admitted. */
  predicate Releasable(r: Reservation) {
    r.state != RELEASED && r.state != EXPIRED
    && !(r.budgetGeneration == 0 && (r.state == ADMITTED || r.state == ACTIVE))
  }

  /** In a sound state, releasing succeeds exactly under the current generation of an installed budget
      with a closed chain; the chain of a reservation that holds any power is always closed, and the
      over-release branch is never met. */
  lemma ReleaseSucceedsExactly(g: Gov, id: Id, gen: Gen, now: int)
    requires Sound(g) && id in g.table
    ensures var r := g.table[id];
            Effect(g, Release(id, gen, now)).reply == Done <==>
            && Releasable(r) && Current(g.books, r.budget, gen)
            && Closed(ParentsOf(g.books), ChainOf(g.books, r.budget))
    ensures var r := g.table[id];
            Releasable(r) && r.reservedPower > 0 ==>
              r.budget in g.books && Closed(ParentsOf(g.books), ChainOf(g.books, r.budget))
  {
    var r := g.table[id];
    hide ChainOf, Conserved, Returned, Updated;
    if Releasable(r) && Closed(ParentsOf(g.books), ChainOf(g.books, r.budget)) {
      forall x | x in ChainOf(g.books, r.budget)
        ensures x in g.books && g.books[x].reserved >= r.reservedPower
      {
        assert x in ParentsOf(g.books);
        HeldCovered(g.books, g.table, id, x);
      }
    }
  }

  // ---- the index -------------------------------------------------------------------------

  /** `allocate` starts at 1, so no reservation has the invalid id. */
  predicate Allocated(c: Call) { c.Plan? ==> c.q.id != 0 }

  lemma RefiledAgrees(e: Entries, table: Table, id: Id, r: Reservation)
    requires Agrees(e, table) && id in table
    requires r.budget == table[id].budget && r.workload == table[id].workload
    ensures Agrees(Updated(e, id, Meta(r.budget, r.workload, r.state)), table[id := r])
  {
    var meta := Meta(r.budget, r.workload, r.state);
    UpdatedConsistent(e, id, meta);
    assert Updated(e, id, meta).members == e.members[id := meta];
    hide Consistent, Updated;
  }

  lemma ExpiredAgrees(e: Entries, table: Table, id: Id)
    requires Agrees(e, table) && id in table
    ensures Agrees(e, table[id := table[id].(state := EXPIRED)])
  {
    hide Consistent;
  }

  lemma PlannedAgrees(e: Entries, table: Table, q: Request)
    requires Agrees(e, table) && q.id !in table && q.id != 0
    ensures Agrees(Added(e, q.id, Meta(q.budget, q.workload, PLANNED)), table[q.id := Planned(q)])
  {
    var meta := Meta(q.budget, q.workload, PLANNED);
    AddedConsistent(e, q.id, meta);
    assert Added(e, q.id, meta).members == e.members[q.id := meta];
    hide Consistent, Added;
  }

  /** A step of the table proper: it relabels one reservation, lets it expire, or changes nothing. */
  predicate Moves(table: Table, s: Stepped, id: Id, phase: Phase) {
    || (s.reply != Done && s.table == table)
    || (id in table && s.reply != Done && s.table == table[id := table[id].(state := EXPIRED)])
    || (id in table && id in s.table && s.reply == Done && s.table == table[id := s.table[id]]
        && s.table[id].budget == table[id].budget && s.table[id].workload == table[id].workload
        && s.table[id].state == phase)
  }

  lemma MovedAgrees(e: Entries, table: Table, s: Stepped, id: Id, phase: Phase)
    requires Agrees(e, table) && Moves(table, s, id, phase)
    ensures Agrees(Refiled(e, s, id, phase).gov.index, s.table)
  {
    hide Agrees, Updated;
    if s.reply == Done {
      RefiledAgrees(e, table, id, s.table[id]);
    } else if s.table != table {
      ExpiredAgrees(e, table, id);
    }
  }

  lemma StepKeepsIndex(g: Gov, c: Call)
    requires Agrees(g.index, g.table) && Allocated(c)
    ensures Agrees(Step(g, c).index, Step(g, c).table)
  {
    hide Agrees, Refiled, Added, Post, ChainOf, CanReserve, CanActivate, CanRelease, Returned;
    match c
    case Install(b) =>
    case Plan(q) =>
      if q.id !in g.table {
        AgreesKeys(g.index, g.table);
        PlannedAgrees(g.index, g.table, q);
      }
    case Validate(id, policy) =>
      MovedAgrees(g.index, g.table, ValidateStep(g.books, g.table, id, policy), id, VALIDATED);
      RefiledTable(g.index, ValidateStep(g.books, g.table, id, policy), id, VALIDATED);
    case Reserve(id, gen, now) =>
      MovedAgrees(g.index, g.table, ReserveStep(g.books, g.table, id, gen, now), id, RESERVED);
      RefiledTable(g.index, ReserveStep(g.books, g.table, id, gen, now), id, RESERVED);
    case Admit(id, now) =>
      MovedAgrees(g.index, g.table, AdmitStep(g.books, g.table, id, now), id, ADMITTED);
      RefiledTable(g.index, AdmitStep(g.books, g.table, id, now), id, ADMITTED);
    case Activate(id, gen, now) =>
      MovedAgrees(g.index, g.table, ActivateStep(g.books, g.table, id, gen, now), id, ACTIVE);
      RefiledTable(g.index, ActivateStep(g.books, g.table, id, gen, now), id, ACTIVE);
    case Release(id, gen, now) =>
      MovedAgrees(g.index, g.table, ReleaseStep(g.books, g.table, id, gen, now), id, RELEASED);
      RefiledTable(g.index, ReleaseStep(g.books, g.table, id, gen, now), id, RELEASED);
  }

  lemma RefiledTable(e: Entries, s: Stepped, id: Id, phase: Phase)
    ensures Refiled(e, s, id, phase).gov.table == s.table
  {}

  lemma AgreesKeys(e: Entries, table: Table)
    requires Agrees(e, table)
    ensures e.members.Keys == table.Keys
  {}

  /** The index agrees with the table in every state of every run. */
  lemma {:induction false} RunKeepsIndex(g: Gov, calls: seq<Call>)
    requires Agrees(g.index, g.table) && forall i :: 0 <= i < |calls| ==> Allocated(calls[i])
    ensures Agrees(Run(g, calls).index, Run(g, calls).table)
    decreases |calls|
  {
    hide Agrees, Effect;
    if calls != [] {
      StepKeepsIndex(g, calls[0]);
      RunKeepsIndex(Step(g, calls[0]), calls[1..]);
    }
  }

  lemma EmptyIndexAgrees()
    ensures Agrees(EMPTY.index, EMPTY.table)
  {}

  /** The index of a new governor agrees with its table in every state it can reach. */
  lemma ReachableAgrees(calls: seq<Call>)
    requires forall i :: 0 <= i < |calls| ==> Allocated(calls[i])
    ensures Agrees(Run(EMPTY, calls).index, Run(EMPTY, calls).table)
  {
    hide Agrees;
    EmptyIndexAgrees();
    RunKeepsIndex(EMPTY, calls);
  }
}
