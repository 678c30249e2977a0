/** What every run of governor calls keeps: the books equal the sum of what the reservations hold. */
module Conservation {
  import opened Basics
  import opened Tree
  import opened Ledger
  import opened Reservations
  import opened Index
  import opened Governor

  /** What each reservation holds reserved.  Expiry does not give power back, so an EXPIRED
      reservation still counts. */
  function Held(table: Table): map<Id, Entry> {
    map k | k in table :: HeldBy(table[k])
  }

  function HeldBy(r: Reservation): Entry {
    Entry(r.budget, if r.state == RELEASED then 0 else r.reservedPower)
  }

  /** What each reservation draws. */
  function Drawn(table: Table): map<Id, Entry> {
    map k | k in table :: DrawnBy(table[k])
  }

  function DrawnBy(r: Reservation): Entry {
    Entry(r.budget, if r.state == ACTIVE then r.requestedPower else 0)
  }

  predicate WellFormed(books: Books, r: Reservation) {
    && r.reservedPower >= 0
    && (r.state == PLANNED || r.state == VALIDATED ==> r.reservedPower == 0)
    && (Holding(r.state) ==>
          && r.reservedPower == r.requestedPower
          && r.budget in books
          && r.budgetGeneration <= books[r.budget].cfg.generation
          && (r.budgetGeneration == books[r.budget].cfg.generation ==> books[r.budget].cfg.authoritative))
    && (r.state != RELEASED && r.reservedPower > 0 ==> Closed(ParentsOf(books), ChainOf(books, r.budget)))
  }

  predicate Sane(books: Books, table: Table) {
    && (forall b :: b in books ==> books[b].cfg.id == b)
    && (forall k :: k in table ==> table[k].id == k && WellFormed(books, table[k]))
  }

  /** Tree conservation: every budget carries exactly what the reservations below it hold. */
  ghost predicate Conserved(books: Books, table: Table) {
    forall b :: b in books ==> books[b].reserved == Sum(ParentsOf(books), Held(table), {b})
  }

  /** The same for usage and ACTIVE reservations. */
  ghost predicate UsageConserved(books: Books, table: Table) {
    forall b :: b in books ==> books[b].used == Sum(ParentsOf(books), Drawn(table), {b})
  }

  ghost predicate Sound(g: Gov) { Sane(g.books, g.table) && Conserved(g.books, g.table) }

  /** Some reservation that holds power has its chain go on through b: it meets b on its way up before
      the guard stops it. */
  ghost predicate Bears(p: Parents, table: Table, b: Id) {
    exists k, j: nat :: k in table && BearsAt(p, table[k], b, j)
  }

  predicate BearsAt(p: Parents, r: Reservation, b: Id, j: nat) {
    HeldBy(r).amount > 0 && j + 1 < MAX_CHAIN && Up(p, Some(r.budget), j) == Some(b)
  }

  /** The one thing `install` must not be used for, although it does not look: giving a budget that
      bears something another parent. */
  ghost predicate MovesNoLoad(g: Gov, c: Call) {
    c.Install? && Installable(g.books, c.b) && c.b.id in g.books ==>
      LiveParent(c.b) == LiveParent(g.books[c.b.id].cfg) || !Bears(ParentsOf(g.books), g.table, c.b.id)
  }

  // ---- single steps ----------------------------------------------------------------------

  lemma HeldNonNegative(books: Books, table: Table)
    requires Sane(books, table)
    ensures NonNegative(Held(table)) && NonNegative(Drawn(table))
  {}

  lemma PostAmounts(books: Books, ids: seq<Id>, r: int, u: int, b: Id)
    requires b in books
    ensures var a := Post(books, ids, r, u)[b];
            && a.cfg == books[b].cfg
            && a.reserved == Clamp(books[b].reserved + Load(ids, {b}, r))
            && a.used == Clamp(books[b].used + Load(ids, {b}, u))
            && (r == 0 ==> a.reserved == books[b].reserved)
            && (u == 0 ==> a.used == books[b].used)
  {
    LoadLinear(ids, {b}, 0, 0);
  }

  lemma SanePost(books: Books, table: Table, ids: seq<Id>, r: int, u: int)
    requires Sane(books, table)
    ensures Sane(Post(books, ids, r, u), table)
  {
    PostKeepsParents(books, ids, r, u);
    hide Load, ChainOf;
    SameChains(books, Post(books, ids, r, u));
  }

  lemma SameChains(books: Books, books': Books)
    requires ParentsOf(books) == ParentsOf(books')
    ensures forall id :: ChainOf(books, id) == ChainOf(books', id)
  {}

  /** A fresh budget changes no chain that carries anything, and nothing lies on it. */
  lemma FreshInstall(books: Books, table: Table, b: Budget)
    requires Sane(books, table) && b.id !in books
    ensures var q := ParentsOf(Installed(books, b));
            && Sane(Installed(books, b), table)
            && (forall S :: Sum(q, Held(table), S) == Sum(ParentsOf(books), Held(table), S))
            && (forall S :: Sum(q, Drawn(table), S) == Sum(ParentsOf(books), Drawn(table), S))
            && Sum(q, Held(table), {b.id}) == 0 && Sum(q, Drawn(table), {b.id}) == 0
  {
    hide Chain, Sane, Sum, Share, WellFormed;
    var p, q := ParentsOf(books), ParentsOf(Installed(books, b));
    forall k | k in table && HeldBy(table[k]).amount != 0
      ensures Chain(q, table[k].budget) == Chain(p, table[k].budget) && b.id !in Chain(p, table[k].budget)
    {
      HeldClosed(books, table, k);
      StableChain(p, q, table[k].budget);
    }
    ActiveHoldsAll(books, table);
    SaneAcross(books, table, b);
    SameSums(p, q, table);
    forall k | k in table
      ensures Share(p, HeldBy(table[k]), {b.id}) == 0 && Share(p, DrawnBy(table[k]), {b.id}) == 0
    {
      OffChain(p, table[k], b.id);
    }
    SumZero(p, Held(table), {b.id});
    SumZero(p, Drawn(table), {b.id});
  }

  lemma HeldClosed(books: Books, table: Table, k: Id)
    requires Sane(books, table) && k in table && HeldBy(table[k]).amount != 0
    ensures Closed(ParentsOf(books), Chain(ParentsOf(books), table[k].budget))
  {
    hide Chain;
  }

  lemma ActiveHoldsAll(books: Books, table: Table)
    requires Sane(books, table)
    ensures forall k :: k in table && table[k].state == ACTIVE ==> table[k].reservedPower == table[k].requestedPower
  {
    hide Chain;
  }

  /** An install that leaves every chain that carries something where it was. */
  lemma SaneAcross(books: Books, table: Table, b: Budget)
    requires Sane(books, table) && Installable(books, b)
    requires forall k :: k in table && HeldBy(table[k]).amount != 0 ==>
               Chain(ParentsOf(Installed(books, b)), table[k].budget) == Chain(ParentsOf(books), table[k].budget)
    ensures Sane(Installed(books, b), table)
  {
    hide Chain;
    var after := Installed(books, b);
    forall k | k in table
      ensures table[k].id == k && WellFormed(after, table[k])
    {
      assert WellFormed(books, table[k]);
    }
  }

  lemma OffChain(p: Parents, r: Reservation, b: Id)
    requires HeldBy(r).amount != 0 ==> b !in Chain(p, r.budget)
    requires r.state == ACTIVE ==> r.reservedPower == r.requestedPower
    ensures Share(p, HeldBy(r), {b}) == 0 && Share(p, DrawnBy(r), {b}) == 0
  {
    hide Chain;
    LoadOne(Chain(p, r.budget), b, HeldBy(r).amount);
    LoadOne(Chain(p, r.budget), b, DrawnBy(r).amount);
    LoadLinear(Chain(p, r.budget), {b}, 0, 0);
  }

  /** Graphs in which everything held has the same chain carry the same. */
  lemma SameSums(p: Parents, q: Parents, table: Table)
    requires forall k :: k in table && HeldBy(table[k]).amount != 0 ==>
               Chain(q, table[k].budget) == Chain(p, table[k].budget)
    requires forall k :: k in table && table[k].state == ACTIVE ==> table[k].reservedPower == table[k].requestedPower
    ensures forall S :: Sum(q, Held(table), S) == Sum(p, Held(table), S)
    ensures forall S :: Sum(q, Drawn(table), S) == Sum(p, Drawn(table), S)
  {
    hide Chain;
    forall S
      ensures Sum(q, Held(table), S) == Sum(p, Held(table), S)
      ensures Sum(q, Drawn(table), S) == Sum(p, Drawn(table), S)
    {
      SumStable(p, q, Held(table), S);
      SumStable(p, q, Drawn(table), S);
    }
  }

  lemma StableChain(p: Parents, q: Parents, id: Id)
    requires Closed(p, Chain(p, id))
    requires forall x :: x in p ==> x in q && q[x] == p[x]
    ensures Chain(q, id) == Chain(p, id)
  {
    var n: nat :| n == MAX_CHAIN;
    ChainDef(p, id, n);
    ChainDef(q, id, n);
    hide Chain;
    ChainStable(p, q, Some(id), n);
  }

  /** Re-issue under the same parent. */
  lemma Reissue(books: Books, table: Table, b: Budget)
    requires Sane(books, table) && b.id in books && Installable(books, b)
    requires LiveParent(b) == LiveParent(books[b.id].cfg)
    ensures ParentsOf(Installed(books, b)) == ParentsOf(books)
    ensures Sane(Installed(books, b), table)
  {
    hide Chain, Sane;
    assert ParentsOf(Installed(books, b)) == ParentsOf(books);
    SaneAcross(books, table, b);
  }

  /** Re-issue of a budget that bears nothing: no chain that carries anything goes on through it, so
      it may go under any parent. */
  lemma Vacant(books: Books, table: Table, b: Budget)
    requires Sane(books, table) && b.id in books && Installable(books, b)
    requires !Bears(ParentsOf(books), table, b.id)
    ensures var q := ParentsOf(Installed(books, b));
            && Sane(Installed(books, b), table)
            && (forall S :: Sum(q, Held(table), S) == Sum(ParentsOf(books), Held(table), S))
            && (forall S :: Sum(q, Drawn(table), S) == Sum(ParentsOf(books), Drawn(table), S))
  {
    hide Chain, Sane, Sum, WellFormed, Up;
    var p, q := ParentsOf(books), ParentsOf(Installed(books, b));
    HeldNonNegative(books, table);
    forall k | k in table && HeldBy(table[k]).amount != 0
      ensures Chain(q, table[k].budget) == Chain(p, table[k].budget)
    {
      assert Held(table)[k].amount >= 0;
      ChainAround(p, q, table[k], b.id);
    }
    ActiveHoldsAll(books, table);
    SaneAcross(books, table, b);
    SameSums(p, q, table);
  }

  lemma ChainAround(p: Parents, q: Parents, r: Reservation, b: Id)
    requires DifferAt(p, q, b) && HeldBy(r).amount > 0 && forall j: nat :: !BearsAt(p, r, b, j)
    ensures Chain(q, r.budget) == Chain(p, r.budget)
  {
    var n: nat :| n == MAX_CHAIN;
    ChainDef(p, r.budget, n);
    ChainDef(q, r.budget, n);
    hide Chain;
    forall j: nat | j + 1 < n
      ensures Up(p, Some(r.budget), j) != Some(b)
    {
      assert !BearsAt(p, r, b, j);
    }
    CollectUntil(p, q, b, Some(r.budget), n);
  }

  /** A budget whose books are empty bears nothing. */
  lemma EmptyBearsNothing(books: Books, table: Table, b: Id)
    requires Sane(books, table) && Conserved(books, table) && b in books && books[b].reserved == 0
    ensures !Bears(ParentsOf(books), table, b)
  {
    hide Chain, Sane;
    var p := ParentsOf(books);
    HeldNonNegative(books, table);
    SumVanishes(p, Held(table), b);
    if k, j: nat :| k in table && BearsAt(p, table[k], b, j) {
      assert Held(table)[k].amount > 0;
      var n: nat :| n == MAX_CHAIN;
      ChainDef(p, table[k].budget, n);
      ChainAt(p, Some(table[k].budget), n, j);
    }
  }

  /** One entry of the table changes what its budgets carry by the difference of its shares. */
  lemma HeldSet(p: Parents, table: Table, k: Id, r: Reservation, S: set<Id>)
    ensures Sum(p, Held(table[k := r]), S) ==
            Sum(p, Held(table), S) + Share(p, HeldBy(r), S) - (if k in table then Share(p, HeldBy(table[k]), S) else 0)
    ensures Sum(p, Drawn(table[k := r]), S) ==
            Sum(p, Drawn(table), S) + Share(p, DrawnBy(r), S) - (if k in table then Share(p, DrawnBy(table[k]), S) else 0)
  {
    hide Share;
    assert Held(table[k := r]) == Held(table)[k := HeldBy(r)];
    assert Drawn(table[k := r]) == Drawn(table)[k := DrawnBy(r)];
    SumSet(p, Held(table), S, k, HeldBy(r));
    SumSet(p, Drawn(table), S, k, DrawnBy(r));
  }

  /** Changing a reservation without touching what it holds or draws. */
  lemma Relabel(books: Books, table: Table, k: Id, r: Reservation)
    requires Sane(books, table) && Conserved(books, table)
    requires r.id == k && WellFormed(books, r)
    requires if k in table then HeldBy(r) == HeldBy(table[k]) && DrawnBy(r) == DrawnBy(table[k])
             else HeldBy(r).amount == 0 && DrawnBy(r).amount == 0
    ensures Sane(books, table[k := r]) && Conserved(books, table[k := r])
    ensures UsageConserved(books, table) <==> UsageConserved(books, table[k := r])
  {
    var p := ParentsOf(books);
    forall b | b in books
      ensures Sum(p, Held(table[k := r]), {b}) == Sum(p, Held(table), {b})
      ensures Sum(p, Drawn(table[k := r]), {b}) == Sum(p, Drawn(table), {b})
    {
      HeldSet(p, table, k, r, {b});
      LoadLinear(Chain(p, r.budget), {b}, 0, 0);
    }
  }

  /** The books follow the table: if every budget's reserved amount changes by the load of what
      the reservation holds more than before, conservation is kept. */
  lemma HeldFollows(books: Books, table: Table, books': Books, k: Id, r: Reservation)
    requires k in table && r.budget == table[k].budget
    requires books'.Keys == books.Keys && ParentsOf(books') == ParentsOf(books)
    requires Conserved(books, table)
    requires forall b :: b in books ==>
               books'[b].reserved - books[b].reserved ==
               Load(ChainOf(books, r.budget), {b}, HeldBy(r).amount - HeldBy(table[k]).amount)
    ensures Conserved(books', table[k := r])
  {
    var p := ParentsOf(books);
    hide Chain, Sum;
    forall b | b in books
      ensures books'[b].reserved == Sum(p, Held(table[k := r]), {b})
    {
      HeldSet(p, table, k, r, {b});
      LoadLinear(ChainOf(books, r.budget), {b}, HeldBy(r).amount - HeldBy(table[k]).amount, HeldBy(table[k]).amount);
    }
  }

  lemma DrawnFollows(books: Books, table: Table, books': Books, k: Id, r: Reservation)
    requires k in table && r.budget == table[k].budget
    requires books'.Keys == books.Keys && ParentsOf(books') == ParentsOf(books)
    requires UsageConserved(books, table)
    ensures UsageConserved(books', table[k := r]) <==>
            forall b :: b in books ==>
              books'[b].used - books[b].used ==
              Load(ChainOf(books, r.budget), {b}, DrawnBy(r).amount - DrawnBy(table[k]).amount)
  {
    var p := ParentsOf(books);
    hide Chain, Sum;
    forall b | b in books
      ensures Sum(p, Drawn(table[k := r]), {b}) == books[b].used
              + Load(ChainOf(books, r.budget), {b}, DrawnBy(r).amount - DrawnBy(table[k]).amount)
    {
      HeldSet(p, table, k, r, {b});
      LoadLinear(ChainOf(books, r.budget), {b}, DrawnBy(r).amount - DrawnBy(table[k]).amount, DrawnBy(table[k]).amount);
    }
  }

  /** The books after a booking along the chain of a reservation. */
  lemma Booked(books: Books, table: Table, k: Id, r: Reservation, dr: nat, du: nat)
    requires k in table && r.budget == table[k].budget && r.id == k
    requires Sane(books, table) && Conserved(books, table) && WellFormed(books, r)
    requires HeldBy(r).amount == HeldBy(table[k]).amount + dr
    requires DrawnBy(r).amount == DrawnBy(table[k]).amount + du
    ensures var books' := Post(books, ChainOf(books, r.budget), dr, du);
            && Sane(books', table[k := r]) && Conserved(books', table[k := r])
            && (UsageConserved(books, table) ==> UsageConserved(books', table[k := r]))
  {
    hide ChainOf, Conserved, UsageConserved, Sane, Load, Clamp, Post, ParentsOf;
    var ids := ChainOf(books, r.budget);
    var books' := Post(books, ids, dr, du);
    PostKeepsParents(books, ids, dr, du);
    SaneSet(books, table, k, r);
    SanePost(books, table[k := r], ids, dr, du);
    forall b | b in books
      ensures books'[b].reserved - books[b].reserved == Load(ids, {b}, dr)
      ensures books'[b].used - books[b].used == Load(ids, {b}, du)
    {
      PostAmounts(books, ids, dr, du, b);
      LoadSign(ids, {b}, dr);
      LoadSign(ids, {b}, du);
    }
    HeldFollows(books, table, books', k, r);
    if UsageConserved(books, table) {
      DrawnFollows(books, table, books', k, r);
    }
  }

  lemma SaneSet(books: Books, table: Table, k: Id, r: Reservation)
    requires Sane(books, table) && r.id == k && WellFormed(books, r)
    ensures Sane(books, table[k := r])
  {
    hide WellFormed;
  }

  lemma AdmittedCloses(books: Books, id: Id, amount: int, gen: Gen)
    requires CanReserve(books, id, amount, gen)
    ensures Closed(ParentsOf(books), ChainOf(books, id))
  {
    hide ChainOf;
  }

  lemma PlanSound(books: Books, table: Table, q: Request)
    requires Sane(books, table) && Conserved(books, table)
    ensures var s := PlanStep(books, table, q);
            && s.books == books && Sane(books, s.table) && Conserved(books, s.table)
            && (UsageConserved(books, table) <==> UsageConserved(books, s.table))
  {
    hide ChainOf, Conserved, UsageConserved;
    if q.id !in table {
      Relabel(books, table, q.id, Planned(q));
    }
  }

  lemma ValidateSound(books: Books, table: Table, id: Id, policy: Gen)
    requires Sane(books, table) && Conserved(books, table)
    ensures var s := ValidateStep(books, table, id, policy);
            && s.books == books && Sane(books, s.table) && Conserved(books, s.table)
            && (UsageConserved(books, table) <==> UsageConserved(books, s.table))
  {
    hide ChainOf, Conserved, UsageConserved;
    var s := ValidateStep(books, table, id, policy);
    if s.table != table {
      Relabel(books, table, id, s.table[id]);
    }
  }

  lemma AdmitSound(books: Books, table: Table, id: Id, now: int)
    requires Sane(books, table) && Conserved(books, table)
    ensures var s := AdmitStep(books, table, id, now);
            && s.books == books && Sane(books, s.table) && Conserved(books, s.table)
            && (UsageConserved(books, table) <==> UsageConserved(books, s.table))
  {
    hide ChainOf, Conserved, UsageConserved;
    var s := AdmitStep(books, table, id, now);
    if s.table != table {
      Relabel(books, table, id, s.table[id]);
    }
  }

  lemma ReserveSound(books: Books, table: Table, id: Id, gen: Gen, now: int)
    requires Sane(books, table) && Conserved(books, table)
    ensures var s := ReserveStep(books, table, id, gen, now);
            && Sane(s.books, s.table) && Conserved(s.books, s.table)
            && (UsageConserved(books, table) ==> UsageConserved(s.books, s.table))
  {
    hide ChainOf, Conserved, UsageConserved, Post;
    var s := ReserveStep(books, table, id, gen, now);
    if s.reply == Done {
      var r := table[id];
      AdmittedCloses(books, r.budget, r.requestedPower, gen);
      Booked(books, table, id, s.table[id], r.requestedPower, 0);
    } else if s.table != table {
      Relabel(books, table, id, s.table[id]);
    }
  }

  lemma ActivateSound(books: Books, table: Table, id: Id, gen: Gen, now: int)
    requires Sane(books, table) && Conserved(books, table)
    ensures var s := ActivateStep(books, table, id, gen, now);
            && Sane(s.books, s.table) && Conserved(s.books, s.table)
            && (UsageConserved(books, table) ==> UsageConserved(s.books, s.table))
  {
    hide ChainOf, Conserved, UsageConserved, Post;
    var s := ActivateStep(books, table, id, gen, now);
    if s.reply == Done {
      Booked(books, table, id, s.table[id], 0, table[id].requestedPower);
    } else if s.table != table {
      Relabel(books, table, id, s.table[id]);
    }
  }

  /** What a reservation holds is covered by every budget of its chain. */
  lemma HeldCovered(books: Books, table: Table, k: Id, b: Id)
    requires Sane(books, table) && Conserved(books, table)
    requires k in table && b in books
    ensures books[b].reserved >= Load(ChainOf(books, table[k].budget), {b}, HeldBy(table[k]).amount) >= 0
    ensures b in ChainOf(books, table[k].budget) ==> books[b].reserved >= HeldBy(table[k]).amount
  {
    HeldNonNegative(books, table);
    SumAtLeast(ParentsOf(books), Held(table), {b}, k);
    hide Chain;
    LoadOne(Chain(ParentsOf(books), table[k].budget), b, HeldBy(table[k]).amount);
  }

  lemma DrawnCovered(books: Books, table: Table, k: Id, b: Id)
    requires Sane(books, table) && UsageConserved(books, table)
    requires k in table && b in books
    ensures books[b].used >= Load(ChainOf(books, table[k].budget), {b}, DrawnBy(table[k]).amount) >= 0
    ensures b in ChainOf(books, table[k].budget) ==> books[b].used >= DrawnBy(table[k]).amount
  {
    HeldNonNegative(books, table);
    SumAtLeast(ParentsOf(books), Drawn(table), {b}, k);
    hide Chain;
    LoadOne(Chain(ParentsOf(books), table[k].budget), b, DrawnBy(table[k]).amount);
  }

  /** The deactivate of a release really takes usage off the books. */
  predicate TakesUsage(books: Books, r: Reservation, gen: Gen) {
    Holding(r.state) && CanDeactivate(books, r.budget, r.reservedPower, gen)
  }

  lemma PostReserved(books: Books, ids: seq<Id>, d: int, b: Id)
    requires b in books
    ensures Post(books, ids, d, 0)[b] == books[b].(reserved := Clamp(books[b].reserved + Load(ids, {b}, d)))
  {
    LoadLinear(ids, {b}, 0, 0);
    hide Load;
  }

  lemma PostUsed(books: Books, ids: seq<Id>, d: int, b: Id)
    requires b in books
    ensures Post(books, ids, 0, d)[b] == books[b].(used := Clamp(books[b].used + Load(ids, {b}, d)))
  {
    LoadLinear(ids, {b}, 0, 0);
    hide Load;
  }

  /** The books after a release. */
  lemma ReleaseBooks(books: Books, r: Reservation, gen: Gen)
    ensures var after := Returned(books, r, gen);
            var ids := ChainOf(books, r.budget);
            && after.Keys == books.Keys && ParentsOf(after) == ParentsOf(books)
            && forall b :: b in books ==>
                 var freed := books[b].(reserved := Clamp(books[b].reserved + Load(ids, {b}, -r.reservedPower)));
                 after[b] == if TakesUsage(books, r, gen)
                             then freed.(used := Clamp(books[b].used + Load(ids, {b}, -r.reservedPower))) else freed
  {
    hide ChainOf, Load, Clamp, Post, ParentsOf, CanDeactivate;
    var ids := ChainOf(books, r.budget);
    var freed := Post(books, ids, -r.reservedPower, 0);
    PostKeepsParents(books, ids, -r.reservedPower, 0);
    PostKeepsParents(freed, ids, 0, -r.reservedPower);
    SameChains(books, freed);
    forall b | b in books
      ensures freed[b] == books[b].(reserved := Clamp(books[b].reserved + Load(ids, {b}, -r.reservedPower)))
      ensures Post(freed, ids, 0, -r.reservedPower)[b] ==
              freed[b].(used := Clamp(books[b].used + Load(ids, {b}, -r.reservedPower)))
    {
      PostReserved(books, ids, -r.reservedPower, b);
      PostUsed(freed, ids, -r.reservedPower, b);
    }
    SameDeactivate(books, freed, r.budget, r.reservedPower, gen);
  }

  lemma SameDeactivate(books: Books, freed: Books, id: Id, amount: int, gen: Gen)
    requires freed.Keys == books.Keys && ChainOf(freed, id) == ChainOf(books, id)
    requires forall x :: x in books ==> freed[x].used == books[x].used && freed[x].cfg == books[x].cfg
    ensures CanDeactivate(freed, id, amount, gen) <==> CanDeactivate(books, id, amount, gen)
  {
    hide ChainOf;
  }

  lemma ReleaseSound(books: Books, table: Table, id: Id, gen: Gen, now: int)
    requires Sane(books, table) && Conserved(books, table)
    ensures var s := ReleaseStep(books, table, id, gen, now);
            && Sane(s.books, s.table) && Conserved(s.books, s.table)
            && (if s.reply == Done then id in table else s.books == books && s.table == table)
  {
    hide ChainOf, Conserved, Returned, CanRelease, TakesUsage, ParentsOf, Sane, Load;
    var s := ReleaseStep(books, table, id, gen, now);
    if s.reply == Done {
      var r := table[id];
      ReleaseBooks(books, r, gen);
      ReleaseSane(books, table, id, s.books, s.table[id]);
      forall b | b in books
        ensures s.books[b].reserved - books[b].reserved == Load(ChainOf(books, r.budget), {b}, -HeldBy(r).amount)
      {
        HeldCovered(books, table, id, b);
        LoadLinear(ChainOf(books, r.budget), {b}, HeldBy(r).amount, 0);
      }
      HeldFollows(books, table, s.books, id, s.table[id]);
    }
  }

  lemma ReleaseSane(books: Books, table: Table, id: Id, books': Books, r: Reservation)
    requires Sane(books, table) && id in table
    requires r == table[id].(state := RELEASED, releasedAt := r.releasedAt)
    requires books'.Keys == books.Keys && ParentsOf(books') == ParentsOf(books)
    requires forall b :: b in books ==> books'[b].cfg == books[b].cfg
    ensures Sane(books', table[id := r])
  {
    SameChains(books, books');
    hide ChainOf, ParentsOf;
  }

  /** The usage side of a release: it gives back nothing beyond the reservation's own usage.  The
      program also runs the deactivate for reservations that were never activated; it stays without
      effect when the amount is zero or some budget of the chain has less usage than that. */
  predicate GivesBackOwn(books: Books, r: Reservation) {
    || r.state == ACTIVE || !Holding(r.state) || r.reservedPower == 0
    || ChainOf(books, r.budget) == []
    || exists x :: x in ChainOf(books, r.budget) && x in books && books[x].used < r.reservedPower
  }

  /** Usage after a release: kept exactly when the release gives back only its own usage. */
  lemma ReleaseUsage(books: Books, table: Table, id: Id, gen: Gen, now: int)
    requires Sane(books, table) && UsageConserved(books, table)
    requires ReleaseStep(books, table, id, gen, now).reply == Done
    ensures var s := ReleaseStep(books, table, id, gen, now);
            UsageConserved(s.books, s.table) <==> GivesBackOwn(books, table[id])
  {
    hide ChainOf, UsageConserved, Returned, CanRelease, TakesUsage, ParentsOf, Sane, Load;
    var s := ReleaseStep(books, table, id, gen, now);
    var r := table[id];
    var ids := ChainOf(books, r.budget);
    TakesUsageExactly(books, table, id, gen);
    ReleaseBooks(books, r, gen);
    DrawnFollows(books, table, s.books, id, s.table[id]);
    if !TakesUsage(books, r, gen) {
      forall b | b in books
        ensures s.books[b].used - books[b].used == Load(ids, {b}, 0 - DrawnBy(r).amount)
      {
        LoadLinear(ids, {b}, 0, 0);
      }
    } else {
      UsageTaken(books, table, id, s.books);
    }
  }

  /** When the deactivate takes effect, usage stays conserved only for an ACTIVE reservation or when
      nothing was taken. */
  lemma UsageTaken(books: Books, table: Table, id: Id, books': Books)
    requires Sane(books, table) && UsageConserved(books, table) && id in table && Holding(table[id].state)
    requires var r := table[id]; var ids := ChainOf(books, r.budget);
             && (forall x :: x in ids ==> x in books && books[x].used >= r.reservedPower)
             && books'.Keys == books.Keys
             && forall b :: b in books ==> books'[b].used == Clamp(books[b].used + Load(ids, {b}, -r.reservedPower))
    ensures var r := table[id]; var ids := ChainOf(books, r.budget);
            (forall b :: b in books ==> books'[b].used - books[b].used == Load(ids, {b}, 0 - DrawnBy(r).amount))
            <==> r.state == ACTIVE || r.reservedPower == 0 || ids == []
  {
    hide ChainOf, UsageConserved, Sane, Load, Clamp, WellFormed;
    HoldingPower(books, table, id);
    var r := table[id];
    var ids := ChainOf(books, r.budget);
    forall b | b in books
      ensures Load(ids, {b}, -r.reservedPower) == -Load(ids, {b}, r.reservedPower)
      ensures Load(ids, {b}, 0) == 0
      ensures r.state == ACTIVE ==> books'[b].used - books[b].used == Load(ids, {b}, -r.reservedPower)
    {
      LoadLinear(ids, {b}, r.reservedPower, 0);
      DrawnCovered(books, table, id, b);
      ClampSum(books[b].used, Load(ids, {b}, -r.reservedPower));
    }
    if r.state != ACTIVE {
      TakenFromNobody(books, ids, r.reservedPower, books');
    }
  }

  lemma HoldingPower(books: Books, table: Table, id: Id)
    requires Sane(books, table) && id in table && Holding(table[id].state)
    ensures 0 <= table[id].reservedPower == table[id].requestedPower
  {
    hide ChainOf;
  }

  lemma ClampSum(v: nat, d: int)
    ensures v + d >= 0 ==> Clamp(v + d) == v + d
  {}

  /** Taking an amount all along a chain leaves all usage as it was only if there is nothing to take. */
  lemma TakenFromNobody(books: Books, ids: seq<Id>, amount: int, books': Books)
    requires amount >= 0
    requires forall x :: x in ids ==> x in books && books[x].used >= amount
    requires books'.Keys == books.Keys
    requires forall b :: b in books ==> books'[b].used == Clamp(books[b].used + Load(ids, {b}, -amount))
    ensures (forall b :: b in books ==> books'[b].used == books[b].used) <==> amount == 0 || ids == []
  {
    hide Load, Clamp;
    forall b | b in books
      ensures amount == 0 || ids == [] ==> books'[b].used == books[b].used
    {
      LoadLinear(ids, {b}, amount, 0);
      LoadEmpty({b}, -amount);
      ClampSum(books[b].used, 0);
    }
    if ids != [] && amount > 0 {
      var x := ids[0];
      assert x in ids;
      LoadOne(ids, x, amount);
      LoadLinear(ids, {x}, amount, 0);
    }
  }

  lemma LoadEmpty(S: set<Id>, amount: int)
    ensures Load([], S, amount) == 0
  {}

  lemma TakesUsageExactly(books: Books, table: Table, id: Id, gen: Gen)
    requires Sane(books, table) && UsageConserved(books, table)
    requires id in table && CanRelease(books, table[id].budget, table[id].reservedPower, gen)
    ensures var r := table[id];
            && (TakesUsage(books, r, gen) <==>
                  Holding(r.state) && forall x :: x in ChainOf(books, r.budget) ==> x in books && books[x].used >= r.reservedPower)
            && (r.state == ACTIVE ==> TakesUsage(books, r, gen))
            && forall x :: x in ChainOf(books, r.budget) ==> x in books
  {
    hide ChainOf, UsageConserved;
    forall x | x in ChainOf(books, table[id].budget)
      ensures x in books && books[x].used >= DrawnBy(table[id]).amount
    {
      DrawnCovered(books, table, id, x);
    }
  }

  // ---- every call ------------------------------------------------------------------------

  lemma InstallConserves(books: Books, table: Table, b: Budget)
    requires Sane(books, table) && Conserved(books, table) && Installable(books, b)
    requires b.id in books ==>
               LiveParent(b) == LiveParent(books[b.id].cfg) || !Bears(ParentsOf(books), table, b.id)
    ensures var books' := Installed(books, b);
            && Sane(books', table) && Conserved(books', table)
            && (UsageConserved(books, table) ==> UsageConserved(books', table))
  {
    hide Sane, Sum, Held, Drawn, Bears;
    if b.id !in books {
      FreshInstall(books, table, b);
    } else if LiveParent(b) == LiveParent(books[b.id].cfg) {
      Reissue(books, table, b);
    } else {
      Vacant(books, table, b);
    }
  }

  /** What a call must not do for usage to be conserved. */
  predicate KeepsUsage(g: Gov, c: Call) {
    c.Release? && Effect(g, c).reply == Done && c.id in g.table ==> GivesBackOwn(g.books, g.table[c.id])
  }

  /** Every call, successful or not, keeps tree conservation; and in a state where usage is
      conserved it stays so exactly when the call is not a release that gives back usage of others. */
  lemma StepConserves(g: Gov, c: Call)
    requires Sound(g) && MovesNoLoad(g, c)
    ensures Sound(Step(g, c))
    ensures UsageConserved(g.books, g.table) ==>
              (UsageConserved(Step(g, c).books, Step(g, c).table) <==> KeepsUsage(g, c))
  {
    hide ChainOf, Returned, Updated, Added, CanReserve, CanActivate, CanRelease, Post;
    hide Conserved, UsageConserved, GivesBackOwn;
    hide PlanStep, ValidateStep, ReserveStep, AdmitStep, ActivateStep, ReleaseStep, Sane;
    match c
    case Install(b) =>
      if Installable(g.books, b) {
        InstallConserves(g.books, g.table, b);
      }
    case Plan(q) =>
      PlanSound(g.books, g.table, q);
    case Validate(id, policy) =>
      ValidateSound(g.books, g.table, id, policy);
    case Reserve(id, gen, now) =>
      ReserveSound(g.books, g.table, id, gen, now);
    case Admit(id, now) =>
      AdmitSound(g.books, g.table, id, now);
    case Activate(id, gen, now) =>
      ActivateSound(g.books, g.table, id, gen, now);
    case Release(id, gen, now) =>
      ReleaseSound(g.books, g.table, id, gen, now);
      if Effect(g, c).reply == Done && UsageConserved(g.books, g.table) {
        ReleaseUsage(g.books, g.table, id, gen, now);
      }
  }

  // ---- runs ------------------------------------------------------------------------------

  ghost predicate LoadsKept(g: Gov, calls: seq<Call>)
    decreases |calls|
  {
    calls == [] || (MovesNoLoad(g, calls[0]) && LoadsKept(Step(g, calls[0]), calls[1..]))
  }

  predicate UsageKept(g: Gov, calls: seq<Call>)
    decreases |calls|
  {
    calls == [] || (KeepsUsage(g, calls[0]) && UsageKept(Step(g, calls[0]), calls[1..]))
  }

  lemma EmptyIsSound()
    ensures Sound(EMPTY) && UsageConserved(EMPTY.books, EMPTY.table)
  {}

  /** Conservation over every run: whatever calls are made, in whatever order and with whatever
      outcome, as long as no budget that bears something is moved under another parent. */
  lemma {:induction false} RunConserves(g: Gov, calls: seq<Call>)
    requires Sound(g) && LoadsKept(g, calls)
    ensures Sound(Run(g, calls))
    ensures UsageConserved(g.books, g.table) && UsageKept(g, calls) ==>
              UsageConserved(Run(g, calls).books, Run(g, calls).table)
    decreases |calls|
  {
    hide Sound, UsageConserved, MovesNoLoad, KeepsUsage, Effect;
    if calls != [] {
      StepConserves(g, calls[0]);
      RunConserves(Step(g, calls[0]), calls[1..]);
    }
  }

  /** So every state a new governor can reach is sound, and its usage is conserved unless some release
      gave back usage of others. */
  lemma ReachableIsSound(calls: seq<Call>)
    requires LoadsKept(EMPTY, calls)
    ensures Sound(Run(EMPTY, calls))
    ensures UsageKept(EMPTY, calls) ==> UsageConserved(Run(EMPTY, calls).books, Run(EMPTY, calls).table)
  {
    hide Sound, UsageConserved;
    EmptyIsSound();
    RunConserves(EMPTY, calls);
  }
}
