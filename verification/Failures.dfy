/** Runs of a new governor that end where a documented promise fails: for each condition of the exact
    theorems, an input that a caller can make and that falls on its failing side. */
module Failures {
  import opened Basics
  import opened Codec
  import opened Tree
  import opened Ledger
  import opened Reservations
  import opened Index
  import opened Governor
  import opened Hierarchy
  import opened Conservation
  import opened Safety
  import opened Recovery
  import opened Rebuild
  import StateCodec

  function Definition(id: Id, gen: Gen, parent: Option<Id>, max: nat): Budget {
    Budget(id, gen, 1, 0, parent, [], max, max, 0, 0, 0, 0, 0, true)
  }

  function Root(id: Id, gen: Gen, max: nat): Budget { Definition(id, gen, None, max) }

  /** A reservation planned at time `now` for at most one nanosecond; at time 0 it never expires. */
  function Ask(id: Id, budget: Id, power: int, now: int): Request {
    Request(id, 1, 1, 1, budget, power, 0, 1, 1, 1, 1, now, 1)
  }

  // ---- steps on small trees -------------------------------------------------------------------

  lemma OnRoot(books: Books, id: Id)
    requires id != 0 && id in books && LiveParent(books[id].cfg) == None
    ensures ChainOf(books, id) == [id]
  {
    hide Chain;
    var n: nat :| n == MAX_CHAIN;
    var p := ParentsOf(books);
    ChainDef(p, id, n);
    WalkStep(p, Some(id), n);
    WalkStep(p, None, n - 1);
    LinkOf(books, id);
  }

  /** A budget under a root, or under a parent that is not installed. */
  lemma OnChild(books: Books, id: Id, parent: Id)
    requires id != 0 && id in books && LiveParent(books[id].cfg) == Some(parent)
    requires parent in books ==> LiveParent(books[parent].cfg) == None
    ensures ChainOf(books, id) == [id, parent]
  {
    hide Chain;
    var n: nat :| n == MAX_CHAIN;
    var p := ParentsOf(books);
    ChainDef(p, id, n);
    WalkStep(p, Some(id), n);
    WalkStep(p, Some(parent), n - 1);
    WalkStep(p, None, n - 2);
    LinkOf(books, id);
    LinkOf(books, parent);
  }

  /** Booking on one account. */
  function Onto(a: Account, r: int, u: int): Account {
    a.(reserved := Clamp(a.reserved + r), used := Clamp(a.used + u))
  }

  lemma PostOne(books: Books, id: Id, r: int, u: int)
    requires id in books
    ensures Post(books, [id], r, u) == books[id := Onto(books[id], r, u)]
  {
    forall b | b in books
      ensures Load([id], {b}, r) == if b == id then r else 0
      ensures Load([id], {b}, u) == if b == id then u else 0
    {
      assert [id][1..] == [];
      assert Load([id][1..], {b}, r) == 0 && Load([id][1..], {b}, u) == 0;
    }
  }

  lemma ReserveOnRoot(g: Gov, id: Id, gen: Gen, now: int)
    requires id in g.table && g.table[id].state == PLANNED && !Expired(g.table[id], now)
    requires var r := g.table[id];
             && r.budget != 0 && Current(g.books, r.budget, gen) && LiveParent(g.books[r.budget].cfg) == None
             && g.books[r.budget].cfg.authoritative && 0 <= r.requestedPower <= OwnAvailable(g.books[r.budget])
    ensures var r, after := g.table[id], Step(g, Reserve(id, gen, now));
            && after.books == g.books[r.budget := Onto(g.books[r.budget], r.requestedPower, 0)]
            && after.table == g.table[id := r.(budgetGeneration := gen, reservedPower := r.requestedPower, state := RESERVED)]
  {
    hide ChainOf, Post, Updated;
    var r := g.table[id];
    OnRoot(g.books, r.budget);
    PostOne(g.books, r.budget, r.requestedPower, 0);
  }

  lemma ActivateOnRoot(g: Gov, id: Id, gen: Gen, now: int)
    requires id in g.table && g.table[id].state == RESERVED && !Expired(g.table[id], now)
    requires var r := g.table[id];
             && r.budget != 0 && r.budgetGeneration == gen && Current(g.books, r.budget, gen)
             && LiveParent(g.books[r.budget].cfg) == None && 0 <= r.requestedPower <= OwnAvailable(g.books[r.budget])
    ensures var r, after := g.table[id], Step(g, Activate(id, gen, now));
            && after.books == g.books[r.budget := Onto(g.books[r.budget], 0, r.requestedPower)]
            && after.table == g.table[id := r.(state := ACTIVE, activatedAt := now)]
  {
    hide ChainOf, Post, Updated;
    var r := g.table[id];
    OnRoot(g.books, r.budget);
    PostOne(g.books, r.budget, 0, r.requestedPower);
  }

  lemma StepInstall(g: Gov, b: Budget)
    requires Installable(g.books, b)
    ensures Step(g, Install(b)).books == Installed(g.books, b) && Step(g, Install(b)).table == g.table
  {}

  lemma StepPlan(g: Gov, q: Request)
    requires q.id !in g.table
    ensures Step(g, Plan(q)).books == g.books && Step(g, Plan(q)).table == g.table[q.id := Planned(q)]
  {
    hide Added;
  }

  // ---- the common start -----------------------------------------------------------------------

  /** Budget 1 installed, and reservation 7 booked on it. */
  function Start(gen: Gen, max: nat, power: nat, now: int): seq<Call> {
    [Install(Root(1, gen, max))] + [Plan(Ask(7, 1, power, now))] + [Reserve(7, gen, now)]
  }

  function Held7(gen: Gen, power: nat, now: int): Reservation {
    Planned(Ask(7, 1, power, now)).(budgetGeneration := gen, reservedPower := power, state := RESERVED)
  }

  lemma Started(gen: Gen, max: nat, power: nat, now: int)
    requires power <= max
    ensures var g := Run(EMPTY, Start(gen, max, power, now));
            && g.books == map[1 := Account(Root(1, gen, max), power, 0)]
            && g.table == map[7 := Held7(gen, power, now)]
  {
    hide Run, Step;
    var a := [Install(Root(1, gen, max))];
    var b := a + [Plan(Ask(7, 1, power, now))];
    RunSnoc(EMPTY, [], Install(Root(1, gen, max)));
    assert [] + a == a;
    RunNothing(EMPTY);
    RunSnoc(EMPTY, a, Plan(Ask(7, 1, power, now)));
    RunSnoc(EMPTY, b, Reserve(7, gen, now));
    StepInstall(EMPTY, Root(1, gen, max));
    StepPlan(Run(EMPTY, a), Ask(7, 1, power, now));
    ReserveOnRoot(Run(EMPTY, b), 7, gen, now);
  }

  lemma RunNothing(g: Gov)
    ensures Run(g, []) == g
  {}

  /** What one reservation carries. */
  lemma SumOne(p: Parents, k: Id, e: Entry, S: set<Id>)
    ensures Sum(p, map[k := e], S) == Share(p, e, S)
  {
    hide Share;
    SumPick(p, map[k := e], S, k);
    assert map[k := e] - {k} == map[];
  }

  // ---- install --------------------------------------------------------------------------------

  /** A re-issue with a lower maximum: the budget is booked beyond it. */
  lemma LoweredMaximum()
    ensures var g := Run(EMPTY, Start(1, 10, 10, 0) + [Install(Root(1, 2, 5))]);
            !WithinCap(g.books)
  {
    hide Run, Step;
    var g := Run(EMPTY, Start(1, 10, 10, 0));
    Started(1, 10, 10, 0);
    RunSnoc(EMPTY, Start(1, 10, 10, 0), Install(Root(1, 2, 5)));
    StepInstall(g, Root(1, 2, 5));
    assert Installed(g.books, Root(1, 2, 5))[1] == Account(Root(1, 2, 5), 10, 0);
  }

  /** Budget 1, which carries reservation 7, re-issued under budget 2. */
  function Moved(): seq<Call> {
    Start(1, 10, 5, 0) + [Install(Root(2, 1, 10))] + [Install(Definition(1, 2, Some(2), 10))]
  }

  lemma MovedState()
    ensures var g := Run(EMPTY, Moved());
            && g.books == map[1 := Account(Definition(1, 2, Some(2), 10), 5, 0), 2 := Account(Root(2, 1, 10), 0, 0)]
            && Held(g.table) == map[7 := Entry(1, 5)]
  {
    hide Run, Step;
    var s, two, moved := Start(1, 10, 5, 0), Root(2, 1, 10), Definition(1, 2, Some(2), 10);
    Started(1, 10, 5, 0);
    RunSnoc(EMPTY, s, Install(two));
    RunSnoc(EMPTY, s + [Install(two)], Install(moved));
    StepInstall(Run(EMPTY, s), two);
    StepInstall(Run(EMPTY, s + [Install(two)]), moved);
    assert Run(EMPTY, Moved()).table == map[7 := Held7(1, 5, 0)];
    assert Held(map[7 := Held7(1, 5, 0)]) == map[7 := Entry(1, 5)];
  }

  /** A budget that carries something is put under a parent: the parent's books know nothing of it. */
  lemma MovedLoad()
    ensures var g := Run(EMPTY, Moved()); !Conserved(g.books, g.table)
  {
    hide Run, Moved, Chain, Sum, Held;
    var g := Run(EMPTY, Moved());
    MovedState();
    OnChild(g.books, 1, 2);
    SumOne(ParentsOf(g.books), 7, Entry(1, 5), {2});
    LoadTwo(1, 2, 5);
    NotConservedAt(g, 2);
  }

  lemma NotConservedAt(g: Gov, b: Id)
    requires b in g.books && g.books[b].reserved != Sum(ParentsOf(g.books), Held(g.table), {b})
    ensures !Conserved(g.books, g.table)
  {}

  lemma LoadTwo(id: Id, parent: Id, amount: int)
    requires id != parent
    ensures Load([id, parent], {parent}, amount) == amount
  {
    LoadConcat([id], [parent], {parent}, amount);
    assert [id] + [parent] == [id, parent];
    LoadOne([id], parent, amount);
    assert [parent][1..] == [];
    assert Load([parent][1..], {parent}, amount) == 0;
  }

  // ---- release --------------------------------------------------------------------------------

  /** Releasing a reservation that was never activated takes the usage of one that is. */
  function TwoHolders(): seq<Call> {
    Start(1, 20, 5, 0) + [Plan(Ask(8, 1, 5, 0))] + [Reserve(8, 1, 0)] + [Activate(8, 1, 0)]
  }

  lemma TwoHoldersState()
    ensures var g := Run(EMPTY, TwoHolders());
            && g.books == map[1 := Account(Root(1, 1, 20), 10, 5)]
            && g.table.Keys == {7, 8} && g.table[7] == Held7(1, 5, 0)
            && g.table[8] == Planned(Ask(8, 1, 5, 0)).(budgetGeneration := 1, reservedPower := 5, state := ACTIVE)
  {
    hide Run, Step;
    var a := Start(1, 20, 5, 0);
    var b := a + [Plan(Ask(8, 1, 5, 0))];
    var c := b + [Reserve(8, 1, 0)];
    Started(1, 20, 5, 0);
    RunSnoc(EMPTY, a, Plan(Ask(8, 1, 5, 0)));
    RunSnoc(EMPTY, b, Reserve(8, 1, 0));
    RunSnoc(EMPTY, c, Activate(8, 1, 0));
    StepPlan(Run(EMPTY, a), Ask(8, 1, 5, 0));
    ReserveOnRoot(Run(EMPTY, b), 8, 1, 0);
    ActivateOnRoot(Run(EMPTY, c), 8, 1, 0);
  }

  lemma ReleaseTakesUsageOfOthers()
    ensures var g := Run(EMPTY, TwoHolders() + [Release(7, 1, 0)]);
            && 8 in g.table && g.table[8].state == ACTIVE && 1 in g.books && g.books[1].used == 0
            && !UsageConserved(g.books, g.table)
  {
    hide Run, Step, ChainOf, Post, Updated, Sum;
    var g := Run(EMPTY, TwoHolders());
    TwoHoldersState();
    RunSnoc(EMPTY, TwoHolders(), Release(7, 1, 0));
    OnRoot(g.books, 1);
    PostOne(g.books, 1, -5, 0);
    var freed := g.books[1 := Onto(g.books[1], -5, 0)];
    OnRoot(freed, 1);
    PostOne(freed, 1, 0, -5);
    ReleaseStepDone(g);
    var after := Step(g, Release(7, 1, 0));
    OnRoot(after.books, 1);
    HoldersDraw(after, 1);
  }

  lemma ReleaseStepDone(g: Gov)
    requires 7 in g.table && g.table[7] == Held7(1, 5, 0) && 8 in g.table
    requires g.books == map[1 := Account(Root(1, 1, 20), 10, 5)]
    ensures var after := Step(g, Release(7, 1, 0));
            && after.books == map[1 := Account(Root(1, 1, 20), 5, 0)]
            && after.table == g.table[7 := g.table[7].(state := RELEASED)]
  {
    hide ChainOf, Post, Updated;
    OnRoot(g.books, 1);
    PostOne(g.books, 1, -5, 0);
    var freed := g.books[1 := Onto(g.books[1], -5, 0)];
    OnRoot(freed, 1);
    PostOne(freed, 1, 0, -5);
  }

  lemma HoldersDraw(g: Gov, b: Id)
    requires 8 in g.table && g.table[8].state == ACTIVE && g.table[8].requestedPower == 5 && g.table[8].budget == b
    requires b in g.books && g.books[b].used == 0 && ChainOf(g.books, b) == [b]
    requires NonNegative(Drawn(g.table))
    ensures !UsageConserved(g.books, g.table)
  {
    hide Chain;
    SumAtLeast(ParentsOf(g.books), Drawn(g.table), {b}, 8);
    assert Load([b], {b}, 5) == 5 by { assert [b][1..] == []; }
  }

  /** Booked under the null generation and activated, a reservation can never be released. */
  lemma NullGenerationStuck(gen: Gen, now: int)
    ensures var g := Run(EMPTY, Start(0, 10, 5, 0) + [Activate(7, 0, 0)]);
            && g.table.Keys == {7} && g.table[7].state == ACTIVE && 1 in g.books && g.books[1].reserved == 5
            && Effect(g, Release(7, gen, now)).reply == Refused(UnknownGeneration)
  {
    hide Run, Step, Updated, Returned, CanRelease;
    var g := Run(EMPTY, Start(0, 10, 5, 0));
    Started(0, 10, 5, 0);
    RunSnoc(EMPTY, Start(0, 10, 5, 0), Activate(7, 0, 0));
    ActivateOnRoot(g, 7, 0, 0);
  }

  /** A reservation of nothing, whose empty budget was then moved under a parent that is not installed: the
      state is sound, and the release under the current generation is refused. */
  function ZeroWatts(): seq<Call> {
    Start(1, 10, 0, 0) + [Install(Definition(1, 2, Some(99), 10))]
  }

  lemma ZeroWattsStuck(now: int)
    ensures var g := Run(EMPTY, ZeroWatts());
            && Sound(g) && g.table.Keys == {7} && g.table[7].state == RESERVED
            && Effect(g, Release(7, 2, now)).reply == Refused(BudgetRefused)
  {
    hide Run, Step, Updated, Returned, ChainOf, Sound;
    var s, moved := Start(1, 10, 0, 0), Definition(1, 2, Some(99), 10);
    var g := Run(EMPTY, s);
    Started(1, 10, 0, 0);
    RunSnoc(EMPTY, s, Install(moved));
    StepInstall(g, moved);
    StartSound(1, 10, 0, 0);
    StepConserves(g, Install(moved));
    var after := Run(EMPTY, ZeroWatts());
    OnChild(after.books, 1, 99);
    assert 99 in ChainOf(after.books, 1);
  }

  lemma StartSound(gen: Gen, max: nat, power: nat, now: int)
    ensures Sound(Run(EMPTY, Start(gen, max, power, now)))
  {
    hide Sound, Step, Run;
    var a := [Install(Root(1, gen, max))];
    var b := a + [Plan(Ask(7, 1, power, now))];
    EmptyIsSound();
    RunNothing(EMPTY);
    assert [] + a == a;
    RunSnoc(EMPTY, [], Install(Root(1, gen, max)));
    RunSnoc(EMPTY, a, Plan(Ask(7, 1, power, now)));
    RunSnoc(EMPTY, b, Reserve(7, gen, now));
    StepConserves(EMPTY, Install(Root(1, gen, max)));
    StepConserves(Run(EMPTY, a), Plan(Ask(7, 1, power, now)));
    StepConserves(Run(EMPTY, b), Reserve(7, gen, now));
  }

  // ---- recovery -------------------------------------------------------------------------------

  lemma RootAccepted(b: Budget)
    requires b.id != 0 && LiveParent(b) == None
    ensures forall r: nat, u: nat :: Accepted(ParentsOf(map[b.id := Account(b, r, u)]))
  {}

  /** Budget 1 re-issued while reservation 7 holds power of its first generation. */
  function Reissued(): seq<Call> { Start(1, 10, 5, 0) + [Install(Root(1, 2, 10))] }

  lemma ReissuedState()
    ensures var g := Run(EMPTY, Reissued());
            && Sound(g) && g.books == map[1 := Account(Root(1, 2, 10), 5, 0)] && g.table == map[7 := Held7(1, 5, 0)]
  {
    hide Run, Step, Sound;
    var s, again := Start(1, 10, 5, 0), Root(1, 2, 10);
    Started(1, 10, 5, 0);
    StartSound(1, 10, 5, 0);
    RunSnoc(EMPTY, s, Install(again));
    StepInstall(Run(EMPTY, s), again);
    StepConserves(Run(EMPTY, s), Install(again));
  }

  /** A claim of an older generation is lost: the recovered governor carries nothing for it and is no longer
      sound, and the release that would have gone through before the recovery is an over-release. */
  lemma OlderClaimLost(s: StateCodec.Saved, now: int)
    requires Captures(s, Run(EMPTY, Reissued()))
    ensures var g, o := Run(EMPTY, Reissued()), Rebuilt(EMPTY, StateCodec.Stored(s));
            && Effect(g, Release(7, 2, now)).reply == Done
            && o.Some? && 1 in o.value.books && o.value.books[1].reserved == 0 && !Sound(o.value)
            && Effect(o.value, Release(7, 2, now)).reply == Refused(BudgetRefused)
  {
    hide Run, Rebuilt, Captures, StateCodec.Stored, Sound, Chain, Accepted, Restored, Recovered, ReplayFits, Effect;
    var g := Run(EMPTY, Reissued());
    ReissuedState();
    RootAccepted(Root(1, 2, 10));
    RecoveryRebuilds(g, s);
    var g' := Rebuilt(EMPTY, StateCodec.Stored(s)).value;
    assert Lost(g.books, g.table) == map[7 := Entry(1, 5)];
    OneLost(g, g', 7, 5);
    RecoveredIsSound(g, s, g');
    OnRoot(g.books, 1);
    SameChainRecovered(g, g');
    StoredHeld(g, g');
    OverRelease(g', now);
    ReleaseBefore(g, now);
  }

  lemma ReleaseBefore(g: Gov, now: int)
    requires 7 in g.table && g.table[7] == Held7(1, 5, 0)
    requires Current(g.books, 1, 2) && g.books[1].reserved == 5 && ChainOf(g.books, 1) == [1]
    ensures Effect(g, Release(7, 2, now)).reply == Done
  {
    hide ChainOf, Returned, Updated;
  }

  lemma OverRelease(g: Gov, now: int)
    requires 7 in g.table && g.table[7] == Held7(1, 5, 0).(scope := 0)
    requires Current(g.books, 1, 2) && g.books[1].reserved == 0 && ChainOf(g.books, 1) == [1]
    ensures Effect(g, Release(7, 2, now)).reply == Refused(BudgetRefused)
  {
    hide ChainOf, Returned, Updated;
    assert 1 in ChainOf(g.books, 1);
  }

  lemma OneLost(g: Gov, g': Gov, k: Id, amount: nat)
    requires Restored(g, g') && 1 in g.books && LiveParent(g.books[1].cfg) == None
    requires Lost(g.books, g.table) == map[k := Entry(1, amount)]
    ensures 1 in g'.books && g'.books[1].reserved <= g.books[1].reserved - amount
  {
    hide Chain, Lost, Sum;
    OnRoot(g.books, 1);
    SumOne(ParentsOf(g.books), k, Entry(1, amount), {1});
    assert Load([1], {1}, amount) == amount by { assert [1][1..] == []; }
  }

  lemma SameChainRecovered(g: Gov, g': Gov)
    requires Restored(g, g')
    ensures ChainOf(g'.books, 1) == ChainOf(g.books, 1)
  {
    SameChains(g.books, g'.books);
    hide Chain;
  }

  lemma StoredHeld(g: Gov, g': Gov)
    requires Restored(g, g') && g.table == map[7 := Held7(1, 5, 0)]
    requires g.books.Keys == {1} && g.books[1].cfg == Root(1, 2, 10)
    ensures g'.table == map[7 := Held7(1, 5, 0).(scope := 0)]
    ensures 1 in g'.books && g'.books[1].cfg.generation == 2
  {
    hide Lost, Sum;
  }

  /** Budget 1, and reservation 7 expired on it when it was to be admitted. */
  function ExpiredOn(): seq<Call> { Start(1, 10, 5, 1) + [Admit(7, 9)] }

  lemma ExpiredState()
    ensures var g := Run(EMPTY, ExpiredOn());
            && Sound(g) && g.books == map[1 := Account(Root(1, 1, 10), 5, 0)]
            && g.table == map[7 := Held7(1, 5, 1).(state := EXPIRED)] && g.index == Run(EMPTY, Start(1, 10, 5, 1)).index
  {
    hide Run, Sound;
    var s := Start(1, 10, 5, 1);
    Started(1, 10, 5, 1);
    StartSound(1, 10, 5, 1);
    RunSnoc(EMPTY, s, Admit(7, 9));
    StepConserves(Run(EMPTY, s), Admit(7, 9));
  }

  /** What an EXPIRED reservation holds is dropped by a recovery, though it was never given back. */
  lemma ExpiredHolderLost(s: StateCodec.Saved)
    requires Captures(s, Run(EMPTY, ExpiredOn()))
    ensures var o := Rebuilt(EMPTY, StateCodec.Stored(s));
            && o.Some? && 1 in o.value.books && o.value.books[1].reserved == 0 && !Sound(o.value)
  {
    hide Run, Rebuilt, Captures, StateCodec.Stored, Sound, Chain, Accepted, Restored, Recovered, ReplayFits;
    var g := Run(EMPTY, ExpiredOn());
    ExpiredState();
    RootAccepted(Root(1, 1, 10));
    RecoveryRebuilds(g, s);
    var g' := Rebuilt(EMPTY, StateCodec.Stored(s)).value;
    assert Lost(g.books, g.table) == map[7 := Entry(1, 5)];
    OneLost(g, g', 7, 5);
    RecoveredIsSound(g, s, g');
  }

  /** Budget 1 under budget 2, and reservation 7 booked on budget 1. */
  function Pair(): seq<Call> {
    [Install(Root(2, 1, 10))] + [Install(Definition(1, 1, Some(2), 10))] + [Plan(Ask(7, 1, 8, 0))] + [Reserve(7, 1, 0)]
  }

  function PairBooks(top: Budget): Books {
    map[2 := Account(top, 8, 0), 1 := Account(Definition(1, 1, Some(2), 10), 8, 0)]
  }

  lemma PairState()
    ensures var g := Run(EMPTY, Pair()); Sound(g) && g.table == map[7 := Held7(1, 8, 0)] && g.books == PairBooks(Root(2, 1, 10))
  {
    hide Run, Step, Sound, ChainOf;
    var top, child, q := Root(2, 1, 10), Definition(1, 1, Some(2), 10), Ask(7, 1, 8, 0);
    var a := [Install(top)];
    var b := a + [Install(child)];
    var c := b + [Plan(q)];
    RunNothing(EMPTY);
    assert [] + a == a;
    RunSnoc(EMPTY, [], Install(top));
    RunSnoc(EMPTY, a, Install(child));
    RunSnoc(EMPTY, b, Plan(q));
    RunSnoc(EMPTY, c, Reserve(7, 1, 0));
    StepInstall(EMPTY, top);
    StepInstall(Run(EMPTY, a), child);
    StepPlan(Run(EMPTY, b), q);
    ReserveOnChild(Run(EMPTY, c));
    PlannedSound(Run(EMPTY, c), q);
    StepConserves(Run(EMPTY, c), Reserve(7, 1, 0));
  }

  /** And then budget 2 with less than that as its maximum. */
  function Shrunk(): seq<Call> { Pair() + [Install(Root(2, 2, 5))] }

  lemma ShrunkState()
    ensures var g := Run(EMPTY, Shrunk()); Sound(g) && g.table == map[7 := Held7(1, 8, 0)] && g.books == PairBooks(Root(2, 2, 5))
  {
    hide Run, Step, Sound;
    PairState();
    RunSnoc(EMPTY, Pair(), Install(Root(2, 2, 5)));
    StepInstall(Run(EMPTY, Pair()), Root(2, 2, 5));
    StepConserves(Run(EMPTY, Pair()), Install(Root(2, 2, 5)));
  }

  lemma ReserveOnChild(g: Gov)
    requires g.table == map[7 := Planned(Ask(7, 1, 8, 0))]
    requires g.books == map[2 := Account(Root(2, 1, 10), 0, 0), 1 := Account(Definition(1, 1, Some(2), 10), 0, 0)]
    ensures var after := Step(g, Reserve(7, 1, 0));
            && after.table == map[7 := Held7(1, 8, 0)]
            && after.books == map[2 := Account(Root(2, 1, 10), 8, 0), 1 := Account(Definition(1, 1, Some(2), 10), 8, 0)]
  {
    hide ChainOf, Post, Updated;
    OnChild(g.books, 1, 2);
    PostPair(g.books, 8);
    assert CanReserve(g.books, 1, 8, 1);
  }

  lemma PostPair(books: Books, r: nat)
    requires books.Keys == {1, 2}
    ensures Post(books, [1, 2], r, 0) == books[1 := Onto(books[1], r, 0)][2 := Onto(books[2], r, 0)]
  {
    PostTouchesExactlyChain(books, [1, 2], r, 0, 1);
    PostTouchesExactlyChain(books, [1, 2], r, 0, 2);
    hide Load;
  }

  lemma PairAccepted(books: Books)
    requires books.Keys == {1, 2} && LiveParent(books[1].cfg) == Some(2) && LiveParent(books[2].cfg) == None
    ensures Accepted(ParentsOf(books))
  {
    var hops: nat :| hops == MAX_HOPS;
    var p := ParentsOf(books);
    forall id | id in p
      ensures Up(p, p[id], hops) == None
    {}
  }

  /** A claim of the current generation is lost, too, when an ancestor's maximum has come down since: the replay
      asks for admission again. */
  lemma CurrentClaimLost(s: StateCodec.Saved)
    requires Captures(s, Run(EMPTY, Shrunk()))
    ensures var g, o := Run(EMPTY, Shrunk()), Rebuilt(EMPTY, StateCodec.Stored(s));
            && Sound(g) && 7 in g.table && Survives(g.books, g.table[7]) && g.table[7].reservedPower == 8
            && 2 in g.books && g.books[2].reserved == 8
            && o.Some? && 2 in o.value.books && o.value.books[2].reserved <= 5 && !Sound(o.value)
  {
    hide Run, Rebuilt, Captures, StateCodec.Stored, Sound, Chain, Accepted, Recovered;
    var g := Run(EMPTY, Shrunk());
    ShrunkState();
    PairAccepted(g.books);
    RecoveryRebuilds(g, s);
    var g' := Rebuilt(EMPTY, StateCodec.Stored(s)).value;
    RecoveredIsSound(g, s, g');
    assert g'.books[2].reserved <= g'.books[2].cfg.hardMax == 5;
  }

  /** The index is not told of the expiry: the reservation stays on the list of its last phase. */
  lemma ExpiredStaysListed()
    ensures var g := Run(EMPTY, ExpiredOn());
            && 7 in g.table && g.table[7].state == EXPIRED
            && 7 in Lookup(g.index.byPhase, RESERVED) && 7 !in Lookup(g.index.byPhase, EXPIRED)
  {
    hide Run, Agrees, Sound;
    var s := Start(1, 10, 5, 1);
    var g := Run(EMPTY, s);
    ExpiredState();
    Started(1, 10, 5, 1);
    assert forall i :: 0 <= i < |s| ==> Allocated(s[i]);
    ReachableAgrees(s);
    LookupsAreFilters(g.index, g.table, 7);
  }

  /** Budget 1 with reservation 7 drawing power. */
  function Drawing(): seq<Call> { Start(1, 20, 5, 0) + [Activate(7, 1, 0)] }

  /** Usage is not replayed: the reservation is still ACTIVE, and its budget shows none of it. */
  lemma UsageLost(s: StateCodec.Saved)
    requires Captures(s, Run(EMPTY, Drawing()))
    ensures var g, o := Run(EMPTY, Drawing()), Rebuilt(EMPTY, StateCodec.Stored(s));
            && 1 in g.books && g.books[1].used == 5
            && o.Some? && 1 in o.value.books && o.value.books[1].used == 0
            && !UsageConserved(o.value.books, o.value.table)
  {
    hide Run, Step, Rebuilt, Captures, StateCodec.Stored, Sound, Chain, Accepted, UsageConserved;
    var a := Start(1, 20, 5, 0);
    var g := Run(EMPTY, Drawing());
    Started(1, 20, 5, 0);
    StartSound(1, 20, 5, 0);
    RunSnoc(EMPTY, a, Activate(7, 1, 0));
    ActivateOnRoot(Run(EMPTY, a), 7, 1, 0);
    StepConserves(Run(EMPTY, a), Activate(7, 1, 0));
    assert g.books == map[1 := Account(Root(1, 1, 20), 5, 5)];
    RootAccepted(Root(1, 1, 20));
    RecoveryRebuilds(g, s);
    var g' := Rebuilt(EMPTY, StateCodec.Stored(s)).value;
    RecoveredUsage(g, g');
    assert DrawnBy(g.table[7]).amount == 5;
  }

  /** A state with more than 100000 meters is written, and never read again. */
  function TooMany(h: StateCodec.Header): StateCodec.Saved {
    StateCodec.Saved(h, [Root(1, 1, 10)], [], seq(100001, i => StateCodec.Meter(1, 0)))
  }

  lemma TooManyFits(h: StateCodec.Header)
    requires StateCodec.HeaderFits(h)
    ensures StateCodec.Fits(TooMany(h)) && !StateCodec.Loadable(TooMany(h)) && StateCodec.BudgetFits(Root(1, 1, 10))
  {
    hide StateCodec.HeaderFits;
  }

  /** A load that fails is not without effect: the budgets it had read by then stay installed. */
  lemma FailedLoadLeavesBudgets(h: StateCodec.Header)
    requires StateCodec.HeaderFits(h)
    ensures var s := TooMany(h);
            && StateCodec.Fits(s)
            && Decoded(EMPTY, map[], StateCodec.StateBytes(s)) == None
            && 1 in Left(EMPTY, StateCodec.StateBytes(s)).books
  {
    var s, b := TooMany(h), Root(1, 1, 10);
    TooManyFits(h);
    hide StateCodec.Fits, StateCodec.HeaderFits, TooMany, StateCodec.BudgetFits, StateCodec.ParseState, Rebuilt, StateCodec.Loadable,
      LedgerLeft;
    StateCodec.StateRoundTrip(s);
    OneBudgetRead(h);
  }

  lemma OneBudgetRead(h: StateCodec.Header)
    requires StateCodec.HeaderFits(h) && StateCodec.Fits(TooMany(h)) && StateCodec.BudgetFits(Root(1, 1, 10))
    ensures 1 in Left(EMPTY, StateCodec.StateBytes(TooMany(h))).books
  {
    hide StateCodec.Fits, StateCodec.HeaderFits, StateCodec.BudgetFits, StateCodec.HeaderBytes, StateCodec.CountBytes,
      StateCodec.MetersBytes, StateCodec.ParseHeader, StateCodec.ParseCount, StateCodec.ParseBudget, StateCodec.ParseBudgets,
      StateCodec.BudgetFields, StateCodec.StoredBudget, Accepted, StateCodec.StateBytes, EncodeAll, LedgerLeft;
    var s, b := TooMany(h), Root(1, 1, 10);
    var s5 := StateCodec.CountBytes(100001) + StateCodec.MetersBytes(s.meters);
    var s4 := [] + s5;
    var s3 := StateCodec.CountBytes(0) + s4;
    var s2 := StateCodec.BudgetsBytes([b]) + s3;
    var s1 := StateCodec.CountBytes(1) + s2;
    assert StateCodec.StateBytes(s) == StateCodec.HeaderBytes(h) + s1 by { BytesOf(h); }
    StateCodec.HeaderRoundTrip(h, s1);
    StateCodec.CountRoundTrip(1, s2);
    StateCodec.BudgetsRoundTrip([b], s3);
    assert s2 == EncodeAll(StateCodec.BudgetFields(b)) + s3 by {
      assert [b][1..] == [];
      assert StateCodec.BudgetsBytes([b]) == EncodeAll(StateCodec.BudgetFields(b)) + [];
    }
    StateCodec.BudgetRoundTrip(b, s3);
    StateCodec.CountRoundTrip(0, s4);
    OneBudgetLeft(s1, s2, s3, s4, StateCodec.StoredBudget(b), StateCodec.StoredBudgets([b]));
    StoredId(b);
  }

  lemma StoredId(b: Budget)
    ensures StateCodec.StoredBudget(b).id == b.id
  {}

  lemma BytesOf(h: StateCodec.Header)
    requires StateCodec.HeaderFits(h) && StateCodec.Fits(TooMany(h))
    ensures StateCodec.BudgetFits(Root(1, 1, 10))
    ensures StateCodec.StateBytes(TooMany(h)) == StateCodec.HeaderBytes(h)
      + (StateCodec.CountBytes(1) + (StateCodec.BudgetsBytes([Root(1, 1, 10)]) + (StateCodec.CountBytes(0) + ([]
      + (StateCodec.CountBytes(100001) + StateCodec.MetersBytes(TooMany(h).meters))))))
  {
    hide StateCodec.HeaderFits, StateCodec.HeaderBytes, StateCodec.CountBytes, StateCodec.MetersBytes, StateCodec.BudgetsBytes,
      StateCodec.BudgetFits;
    assert TooMany(h).budgets[0] == Root(1, 1, 10);
  }

  lemma OneBudgetLeft(s1: seq<byte>, s2: seq<byte>, s3: seq<byte>, s4: seq<byte>, b: Budget, bs: seq<Budget>)
    requires StateCodec.ParseCount(s1) == Some((1, s2)) && StateCodec.ParseBudget(s2) == Some((b, s3))
    requires StateCodec.ParseBudgets(1, s2) == Some((bs, s3))
    requires StateCodec.ParseCount(s3) == Some((0, s4))
    ensures LedgerLeft(EMPTY, s1).books == map[b.id := Account(b, 0, 0)]
  {
    hide StateCodec.ParseCount, StateCodec.ParseBudget, StateCodec.ParseBudgets, Accepted, InstallAll;
    assert BudgetsLeft(map[], 1, s2) == BudgetsLeft(Installed(map[], b), 0, s3);
  }

  // ---- a ring ---------------------------------------------------------------------------------

  function Ring(parent: Id): Parents { map[1 := Some(parent), 2 := Some(3), 3 := Some(2)] }

  /** Budgets 2 and 3 under one another, budget 1 under 2, and reservation 7 on budget 1. */
  function RingRun(): seq<Call> {
    [Install(Definition(2, 1, Some(3), 10))] + [Install(Definition(3, 1, Some(2), 10))]
    + [Install(Definition(1, 1, Some(2), 10))] + [Plan(Ask(7, 1, 5, 0))] + [Reserve(7, 1, 0)]
  }

  function RingBooks(): Books {
    map[2 := Account(Definition(2, 1, Some(3), 10), 0, 0), 3 := Account(Definition(3, 1, Some(2), 10), 0, 0),
        1 := Account(Definition(1, 1, Some(2), 10), 0, 0)]
  }

  /** Over an even number of places two budgets under one another are visited equally often from either. */
  lemma {:induction false} RingEven(p: Parents, q: Parents, S: set<Id>, amount: int, m: nat)
    requires p in {Ring(2), Ring(3)} && q in {Ring(2), Ring(3)}
    ensures Load(ChainFrom(p, Some(2), 2 * m), S, amount) == Load(ChainFrom(q, Some(3), 2 * m), S, amount)
    decreases m
  {
    if m > 0 {
      RingEven(p, q, S, amount, m - 1);
      RingTurn(p, 2, 3, S, amount, 2 * m);
      RingTurn(q, 3, 2, S, amount, 2 * m);
    }
  }

  lemma RingTurn(p: Parents, a: Id, b: Id, S: set<Id>, amount: int, n: nat)
    requires n >= 2 && a != 0 && b != 0 && ParentOf(p, a) == Some(b) && ParentOf(p, b) == Some(a)
    ensures Load(ChainFrom(p, Some(a), n), S, amount) == Load(ChainFrom(p, Some(a), n - 2), S, amount)
              + (if a in S then amount else 0) + (if b in S then amount else 0)
  {
    var rest := ChainFrom(p, Some(b), n - 1);
    assert ChainFrom(p, Some(a), n)[1..] == rest && rest[1..] == ChainFrom(p, Some(a), n - 2);
  }

  /** So it makes no difference under which of the two budget 1 is. */
  lemma RingShares(amount: int, S: set<Id>)
    ensures Share(Ring(2), Entry(1, amount), S) == Share(Ring(3), Entry(1, amount), S)
  {
    hide Chain;
    var n: nat :| n == MAX_CHAIN;
    ChainDef(Ring(2), 1, n);
    ChainDef(Ring(3), 1, n);
    assert ChainFrom(Ring(2), Some(1), n)[1..] == ChainFrom(Ring(2), Some(2), n - 1);
    assert ChainFrom(Ring(3), Some(1), n)[1..] == ChainFrom(Ring(3), Some(3), n - 1);
    RingEven(Ring(2), Ring(3), S, amount, (n - 1) / 2);
  }

  lemma {:induction false} RingClosed(p: Parents, cur: Id, n: nat)
    requires p in {Ring(2), Ring(3)} && cur in p
    ensures Closed(p, ChainFrom(p, Some(cur), n))
    decreases n
  {
    if n > 0 {
      RingClosed(p, p[cur].value, n - 1);
    }
  }

  lemma RingState()
    ensures var g := Run(EMPTY, RingRun()); Sound(g) && g.table == map[7 := Held7(1, 5, 0)] && OnRing(g.books)
  {
    hide Run, Step, Sound, OnRing;
    var q, two, three, one := Ask(7, 1, 5, 0), Definition(2, 1, Some(3), 10), Definition(3, 1, Some(2), 10), Definition(1, 1, Some(2), 10);
    var a := [Install(two)];
    var b := a + [Install(three)];
    var c := b + [Install(one)];
    var d := c + [Plan(q)];
    RunNothing(EMPTY);
    assert [] + a == a;
    RunSnoc(EMPTY, [], Install(two));
    RunSnoc(EMPTY, a, Install(three));
    RunSnoc(EMPTY, b, Install(one));
    RunSnoc(EMPTY, c, Plan(q));
    RunSnoc(EMPTY, d, Reserve(7, 1, 0));
    StepInstall(EMPTY, two);
    StepInstall(Run(EMPTY, a), three);
    StepInstall(Run(EMPTY, b), one);
    StepPlan(Run(EMPTY, c), q);
    RingReserved(Run(EMPTY, d));
  }

  predicate OnRing(books: Books) {
    books.Keys == {1, 2, 3} && ParentsOf(books) == Ring(2) && books[1].cfg == Definition(1, 1, Some(2), 10)
  }

  lemma RingBooksStart()
    ensures OnRing(RingBooks())
    ensures forall b :: b in RingBooks() ==>
              RingBooks()[b].cfg.id == b && RingBooks()[b].reserved == 0 && OwnAvailable(RingBooks()[b]) == 10
  {}

  lemma RingReserved(g: Gov)
    requires g.books == RingBooks() && g.table == map[7 := Planned(Ask(7, 1, 5, 0))]
    ensures var after := Step(g, Reserve(7, 1, 0));
            Sound(after) && after.table == map[7 := Held7(1, 5, 0)] && OnRing(after.books)
  {
    hide Sound, Step, RingBooks, OnRing;
    RingBooksStart();
    PlannedSound(g, Ask(7, 1, 5, 0));
    StepConserves(g, Reserve(7, 1, 0));
    RingAdmits(g.books);
    RingAfter(g);
  }

  lemma RingAfter(g: Gov)
    requires OnRing(g.books) && CanReserve(g.books, 1, 5, 1) && g.table == map[7 := Planned(Ask(7, 1, 5, 0))]
    ensures var after := Step(g, Reserve(7, 1, 0));
            after.table == map[7 := Held7(1, 5, 0)] && OnRing(after.books)
  {
    hide ChainOf, Updated, CanReserve, Post, ParentsOf;
    PostKeepsParents(g.books, ChainOf(g.books, 1), 5, 0);
    PostAmounts(g.books, ChainOf(g.books, 1), 5, 0, 1);
  }

  lemma RingAdmits(books: Books)
    requires OnRing(books) && forall b :: b in books ==> OwnAvailable(books[b]) == 10
    ensures CanReserve(books, 1, 5, 1)
  {
    hide Chain;
    var n: nat :| n == MAX_CHAIN;
    ChainDef(Ring(2), 1, n);
    RingClosed(Ring(2), 1, n);
  }

  /** On a ring a budget that bears something changes its parent and the books still add up: that a moved load
      always shows needs a forest. */
  lemma RingHidesMove()
    ensures var g, moved := Run(EMPTY, RingRun()), Install(Definition(1, 2, Some(3), 10));
            Sound(g) && !MovesNoLoad(g, moved) && Sound(Step(g, moved)) && !Rooted(ParentsOf(g.books))
  {
    hide Run, Chain, Sum, Share, Rooted, Sound, Bears;
    var g, b := Run(EMPTY, RingRun()), Definition(1, 2, Some(3), 10);
    RingState();
    RingBears(g);
    RingUnrooted();
    RingMoved(g, b);
  }

  lemma RingBears(g: Gov)
    requires g.table == map[7 := Held7(1, 5, 0)] && ParentsOf(g.books) == Ring(2)
    ensures Bears(ParentsOf(g.books), g.table, 1)
  {
    assert BearsAt(ParentsOf(g.books), g.table[7], 1, 0);
  }

  lemma RingUnrooted()
    ensures !Rooted(Ring(2))
  {
    if Rooted(Ring(2)) {
      var m: nat :| Up(Ring(2), Some(2), m) == None;
      EndsThenNoCycle(Ring(2), 2, m, 2);
    }
  }

  lemma InstalledParents(books: Books, b: Budget)
    ensures ParentsOf(Installed(books, b)) == ParentsOf(books)[b.id := LiveParent(b)]
  {}

  lemma RingMoved(g: Gov, b: Budget)
    requires Sound(g) && OnRing(g.books) && g.table == map[7 := Held7(1, 5, 0)]
    requires b == Definition(1, 2, Some(3), 10)
    ensures Sound(Step(g, Install(b)))
  {
    RingTurned(g.books, b);
    StepInstall(g, b);
    hide Sane, Conserved, ParentsOf, Installed, Step, Held, Held7, Installable;
    RingStaysSane(g.books, Installed(g.books, b), g.table);
    RingHeld();
    RingStaysConserved(g.books, Installed(g.books, b), g.table);
  }

  lemma RingHeld()
    ensures Held(map[7 := Held7(1, 5, 0)]) == map[7 := Entry(1, 5)]
  {}

  lemma RingTurned(books: Books, b: Budget)
    requires OnRing(books) && b == Definition(1, 2, Some(3), 10)
    ensures Installable(books, b)
    ensures var after := Installed(books, b);
            && after.Keys == books.Keys && ParentsOf(after) == Ring(3)
            && forall x :: x in books ==> after[x].reserved == books[x].reserved
  {
    InstalledParents(books, b);
    hide ParentsOf;
  }

  lemma RingStaysConserved(books: Books, after: Books, table: Table)
    requires ParentsOf(books) == Ring(2) && ParentsOf(after) == Ring(3) && Held(table) == map[7 := Entry(1, 5)]
    requires after.Keys == books.Keys && forall x :: x in books ==> after[x].reserved == books[x].reserved
    requires Conserved(books, table)
    ensures Conserved(after, table)
  {
    hide Chain, Sum, Share, Held, ParentsOf;
    forall x | x in after
      ensures after[x].reserved == Sum(Ring(3), Held(table), {x})
    {
      SumOne(Ring(2), 7, Entry(1, 5), {x});
      SumOne(Ring(3), 7, Entry(1, 5), {x});
      RingShares(5, {x});
    }
  }

  lemma RingStaysSane(books: Books, after: Books, table: Table)
    requires OnRing(books) && after == Installed(books, Definition(1, 2, Some(3), 10)) && ParentsOf(after) == Ring(3)
    requires Sane(books, table) && table == map[7 := Held7(1, 5, 0)]
    ensures Sane(after, table)
  {
    hide Chain;
    var n: nat :| n == MAX_CHAIN;
    ChainDef(Ring(3), 1, n);
    RingClosed(Ring(3), 1, n);
  }

  // ---- a deep tree ----------------------------------------------------------------------------

  /** Budget k under budget k - 1; the one on top has no capacity at all. */
  function Level(k: nat): Budget
    requires k > 0
  {
    Definition(k, 1, if k == 1 then None else Some(k - 1), if k == 1 then 0 else 10)
  }

  function Installs(n: nat): seq<Call> {
    if n == 0 then [] else Installs(n - 1) + [Install(Level(n))]
  }

  function Tower(n: nat): Books { map k: nat | 1 <= k <= n :: Account(Level(k), 0, 0) }

  lemma {:induction false} TowerInstalled(n: nat)
    ensures Run(EMPTY, Installs(n)).books == Tower(n) && Run(EMPTY, Installs(n)).table == map[]
  {
    hide Run, Step;
    if n == 0 {
      RunNothing(EMPTY);
      assert Tower(0) == map[];
    } else {
      TowerInstalled(n - 1);
      RunSnoc(EMPTY, Installs(n - 1), Install(Level(n)));
      StepInstall(Run(EMPTY, Installs(n - 1)), Level(n));
      assert Tower(n) == Tower(n - 1)[n := Account(Level(n), 0, 0)];
    }
  }

  lemma {:induction false} TowerWalk(n: nat, k: nat, m: nat)
    requires 1 <= k <= n
    ensures Up(ParentsOf(Tower(n)), Some(k), m) == if m < k then Some(k - m) else None
    decreases m
  {
    if m > 0 && k > 1 {
      TowerWalk(n, k - 1, m - 1);
    }
  }

  lemma TowerAccepted(n: nat)
    requires n <= 257
    ensures Accepted(ParentsOf(Tower(n)))
  {
    var p := ParentsOf(Tower(n));
    var hops: nat :| hops == MAX_HOPS;
    forall id | id in p
      ensures Up(p, p[id], hops) == None
    {
      if id > 1 {
        TowerWalk(n, id - 1, hops);
      }
    }
  }

  /** A tower is accepted exactly up to 257 budgets: 256 hops lead from the parent of the lowest to the top and out. */
  lemma TowerAcceptedExactly(n: nat)
    ensures Accepted(ParentsOf(Tower(n))) <==> n <= 257
  {
    if n <= 257 {
      TowerAccepted(n);
    } else {
      var hops: nat :| hops == MAX_HOPS;
      TowerWalk(n, n - 1, hops);
      assert n in ParentsOf(Tower(n));
      hide Up;
    }
  }

  /** An accepted hierarchy of 66 budgets: a reservation at the bottom goes through although the budget on top
      has a maximum of zero, and that budget is never told. */
  lemma TopUnbooked()
    ensures var n: nat := 66;
            var g := Run(EMPTY, Installs(n) + [Plan(Ask(7, n, 5, 0))]);
            && Accepted(ParentsOf(g.books)) && 1 in g.books && g.books[1].cfg.hardMax == 0
            && Up(ParentsOf(g.books), Some(n), 65) == Some(1)
            && Effect(g, Reserve(7, 1, 0)).reply == Done
            && var after := Step(g, Reserve(7, 1, 0)).books; 1 in after && after[1] == g.books[1]
  {
    hide Run, ChainOf, Updated, Installs, Tower, Accepted, Up;
    var n: nat :| n == 66;
    var g := Run(EMPTY, Installs(n) + [Plan(Ask(7, n, 5, 0))]);
    TowerInstalled(n);
    TowerAccepted(n);
    RunSnoc(EMPTY, Installs(n), Plan(Ask(7, n, 5, 0)));
    StepPlan(Run(EMPTY, Installs(n)), Ask(7, n, 5, 0));
    TowerWalk(n, n, 65);
    TowerWalk(n, n, n);
    AncestorBookedExactly(ParentsOf(Tower(n)), n, 65, 1, n);
    TowerBottomFits(n, 5);
    OffChainUntouched(Tower(n), ChainOf(Tower(n), n), 5, 1);
  }

  /** In the same hierarchy, when the reservation has gone through, the child of the top carries it and the
      top does not. */
  lemma ChildOutgrowsParent()
    ensures var n: nat := 66;
            var g := Run(EMPTY, Installs(n) + [Plan(Ask(7, n, 5, 0))] + [Reserve(7, 1, 0)]);
            && Sound(g) && Accepted(ParentsOf(g.books))
            && 1 in g.books && g.books[1].reserved == 0
            && 2 in ChildrenOf(g.books, 1) && g.books[2].reserved == 5
  {
    hide Run, ChainOf, Updated, Installs, Tower, Accepted, Up, Sound;
    var n: nat :| n == 66;
    var q, before := Ask(7, n, 5, 0), Installs(n) + [Plan(Ask(7, n, 5, 0))];
    var g := Run(EMPTY, before);
    TowerInstalled(n);
    TowerAccepted(n);
    RunSnoc(EMPTY, Installs(n), Plan(q));
    StepPlan(Run(EMPTY, Installs(n)), q);
    RunSnoc(EMPTY, before, Reserve(7, 1, 0));
    TowerUnheld(n);
    PlannedSound(g, q);
    StepConserves(g, Reserve(7, 1, 0));
    TowerBottomFits(n, 5);
    TowerEnds(n);
    var ids := ChainOf(Tower(n), n);
    PostKeepsParents(Tower(n), ids, 5, 0);
    PostTouchesExactlyChain(Tower(n), ids, 5, 0, 1);
    PostTouchesExactlyChain(Tower(n), ids, 5, 0, 2);
  }

  /** There, too, the child of the top can be given another parent although it carries something: the chain of
      what it carries ends in it. */
  lemma DistantBudgetMoves()
    ensures var n: nat := 66;
            var g := Run(EMPTY, Installs(n) + [Plan(Ask(7, n, 5, 0))] + [Reserve(7, 1, 0)]);
            && 2 in g.books && g.books[2].reserved == 5 && LiveParent(g.books[2].cfg) == Some(1)
            && Sound(Step(g, Install(Root(2, 2, 10))))
  {
    hide Run, Updated, Installs, Tower, Accepted, Up, Sound, Step, ChildrenOf;
    var n: nat :| n == 66;
    var q, before := Ask(7, n, 5, 0), Installs(n) + [Plan(Ask(7, n, 5, 0))];
    var g := Run(EMPTY, before + [Reserve(7, 1, 0)]);
    ChildOutgrowsParent();
    TowerInstalled(n);
    RunSnoc(EMPTY, Installs(n), Plan(q));
    StepPlan(Run(EMPTY, Installs(n)), q);
    RunSnoc(EMPTY, before, Reserve(7, 1, 0));
    TowerReserved(Run(EMPTY, before), n);
    forall k, j: nat | k in g.table
      ensures !BearsAt(ParentsOf(g.books), g.table[k], 2, j)
    {
      TowerWalk(n, n, j);
    }
    StepConserves(g, Install(Root(2, 2, 10)));
  }

  lemma TowerReserved(g: Gov, n: nat)
    requires n == 66 && g.books == Tower(n) && g.table == map[7 := Planned(Ask(7, n, 5, 0))]
    ensures var after := Step(g, Reserve(7, 1, 0));
            && ParentsOf(after.books) == ParentsOf(Tower(n))
            && after.table.Keys == {7} && after.table[7].budget == n
            && 2 in after.books && after.books[2].cfg == Level(2)
  {
    hide ChainOf, Updated, Up, Tower, ParentsOf, CanReserve;
    TowerBottomFits(n, 5);
    TowerUnheld(n);
    PostKeepsParents(Tower(n), ChainOf(Tower(n), n), 5, 0);
  }

  lemma TowerUnheld(n: nat)
    requires n >= 2
    ensures forall k :: k in Tower(n) ==> Tower(n)[k].cfg.id == k && Tower(n)[k].reserved == 0
    ensures 1 in Tower(n) && 2 in Tower(n) && LiveParent(Tower(n)[2].cfg) == Some(1)
    ensures Tower(n)[1] == Account(Level(1), 0, 0) && Tower(n)[2] == Account(Level(2), 0, 0)
  {}

  lemma PlannedSound(g: Gov, q: Request)
    requires g.table == map[q.id := Planned(q)]
    requires forall b :: b in g.books ==> g.books[b].cfg.id == b && g.books[b].reserved == 0
    ensures Sound(g)
  {
    hide Chain;
    assert Held(g.table) == map[q.id := Entry(q.budget, 0)];
    forall b | b in g.books
      ensures Sum(ParentsOf(g.books), Held(g.table), {b}) == 0
    {
      SumOne(ParentsOf(g.books), q.id, Entry(q.budget, 0), {b});
      LoadLinear(Chain(ParentsOf(g.books), q.budget), {b}, 0, 0);
    }
  }

  /** The chain from the bottom of the tower ends one short of the top. */
  lemma TowerEnds(n: nat)
    requires n == 66
    ensures NoRepeat(ChainOf(Tower(n), n)) && 2 in ChainOf(Tower(n), n) && 1 !in ChainOf(Tower(n), n)
  {
    hide Chain, Up, Tower;
    var p := ParentsOf(Tower(n));
    TowerWalk(n, n, 64);
    TowerWalk(n, n, 65);
    TowerWalk(n, n, n);
    AncestorBookedExactly(p, n, 64, 2, n);
    AncestorBookedExactly(p, n, 65, 1, n);
    var m: nat :| m == MAX_CHAIN;
    ChainDef(p, n, m);
    WalkDistinct(p, Some(n), m, n);
  }

  lemma OffChainUntouched(books: Books, ids: seq<Id>, r: int, b: Id)
    requires b in books && b !in ids
    ensures Post(books, ids, r, 0)[b] == books[b]
  {
    LoadOne(ids, b, r);
    LoadLinear(ids, {b}, 0, 0);
    ClampSum(books[b].reserved, 0);
    ClampSum(books[b].used, 0);
    hide Load, Clamp;
  }

  lemma TowerBottomFits(n: nat, amount: nat)
    requires n == 66 && amount <= 10
    ensures n in Tower(n) && 1 in Tower(n) && Tower(n)[1] == Account(Level(1), 0, 0)
    ensures CanReserve(Tower(n), n, amount, 1)
  {
    hide Chain, Up;
    var p := ParentsOf(Tower(n));
    var m: nat :| m == MAX_CHAIN;
    ChainDef(p, n, m);
    var ids := Chain(p, n);
    forall x | x in ids
      ensures x in Tower(n) && OwnAvailable(Tower(n)[x]) >= amount
    {
      var i :| 0 <= i < |ids| && ids[i] == x;
      ChainAt(p, Some(n), m, i);
      TowerWalk(n, n, i);
    }
  }
}
