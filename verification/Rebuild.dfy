/** What recovery gives back.  Saving a governor and decoding the file into an empty one replays the
    claims whose generation is still current, each through the admission test.  The rebuilt ledger is
    always within its maxima; it carries all of those claims exactly when together they fit, and is then
    short of the saved one by exactly what the remaining reservations held. */
module Rebuild {
  import opened Basics
  import opened Tree
  import opened Ledger
  import opened Reservations
  import opened Index
  import opened Governor
  import opened Hierarchy
  import opened StateCodec
  import opened Recovery
  import opened Conservation
  import opened Safety

  /** The snapshot a save takes: every definition and every reservation once. */
  ghost predicate Captures(s: Saved, g: Gov) {
    && Snapshot(s.budgets, g.books)
    && (forall i :: 0 <= i < |s.reservations| ==>
          s.reservations[i].id in g.table && g.table[s.reservations[i].id] == s.reservations[i])
    && (forall i, j :: 0 <= i < j < |s.reservations| ==> s.reservations[i].id != s.reservations[j].id)
    && ResIds(s.reservations) == g.table.Keys
  }

  function ResIds(rs: seq<Reservation>): set<Id>
    decreases |rs|
  {
    if rs == [] then {} else ResIds(rs[..|rs| - 1]) + {rs[|rs| - 1].id}
  }

  lemma {:induction false} SameResIds(rs: seq<Reservation>, qs: seq<Reservation>)
    requires |rs| == |qs| && forall i :: 0 <= i < |rs| ==> rs[i].id == qs[i].id
    ensures ResIds(rs) == ResIds(qs)
    decreases |rs|
  {
    if rs != [] {
      SameResIds(rs[..|rs| - 1], qs[..|qs| - 1]);
    }
  }

  /** `all`: the reservations in the order of their ids. */
  method AllReservations(table: Table) returns (out: seq<Reservation>)
    requires forall k :: k in table ==> table[k].id == k
    ensures forall i :: 0 <= i < |out| ==> out[i].id in table && table[out[i].id] == out[i]
    ensures forall i, j :: 0 <= i < j < |out| ==> out[i].id < out[j].id
    ensures ResIds(out) == table.Keys
  {
    hide ResIds;
    out := [];
    var left := table.Keys;
    NothingEnumerated(table);
    while left != {}
      invariant left <= table.Keys && Enumerates(table, out, left)
      decreases left
    {
      hide Enumerates;
      LeastExists(left);
      var least :| least in left && IsLeast(least, left);
      OneMoreEnumerated(table, out, left, least);
      out := out + [table[least]];
      left := left - {least};
    }
  }

  /** `out` is everything but `left`, in order, all of it before `left`. */
  ghost predicate Enumerates(table: Table, out: seq<Reservation>, left: set<Id>) {
    && (forall i :: 0 <= i < |out| ==> out[i].id in table && table[out[i].id] == out[i])
    && (forall i, k :: 0 <= i < |out| && k in left ==> out[i].id < k)
    && (forall i, j :: 0 <= i < j < |out| ==> out[i].id < out[j].id)
    && ResIds(out) == table.Keys - left
  }

  lemma NothingEnumerated(table: Table)
    ensures Enumerates(table, [], table.Keys)
  {}

  lemma OneMoreEnumerated(table: Table, out: seq<Reservation>, left: set<Id>, least: Id)
    requires forall k :: k in table ==> table[k].id == k
    requires left <= table.Keys && Enumerates(table, out, left) && least in left && IsLeast(least, left)
    ensures Enumerates(table, out + [table[least]], left - {least})
  {
    var next := out + [table[least]];
    assert next[..|next| - 1] == out;
    assert ResIds(next) == ResIds(out) + {least};
  }

  predicate IsLeast(x: Id, s: set<Id>) { forall k :: k in s ==> x <= k }

  lemma {:induction false} LeastExists(s: set<Id>)
    requires s != {}
    ensures exists x :: x in s && IsLeast(x, s)
    decreases s
  {
    var y :| y in s;
    var rest := s - {y};
    if rest == {} {
      assert s == {y};
      assert IsLeast(y, s);
    } else {
      LeastExists(rest);
      var x :| x in rest && IsLeast(x, rest);
      assert forall k :: k in s ==> k == y || k in rest;
      assert IsLeast(if y < x then y else x, s);
    }
  }

  // ---- the tree --------------------------------------------------------------------------

  /** The books right after the budgets were installed. */
  function Bare(books: Books): Books {
    map b | b in books :: Account(StoredBudget(books[b].cfg), 0, 0)
  }

  lemma BareParents(books: Books)
    ensures ParentsOf(Bare(books)) == ParentsOf(books)
  {
    forall b | b in books
      ensures LiveParent(StoredBudget(books[b].cfg)) == LiveParent(books[b].cfg)
    {}
  }

  ghost predicate DistinctIds(bs: seq<Budget>) {
    forall i, j :: 0 <= i < j < |bs| ==> bs[i].id != bs[j].id
  }

  /** Definitions with distinct ids install one after the other, each with empty accounts. */
  lemma {:induction false} InstallDistinct(bs: seq<Budget>)
    requires DistinctIds(bs)
    ensures var o := InstallAll(map[], bs);
            && o.Some? && o.value.Keys == Ids(bs)
            && forall i :: 0 <= i < |bs| ==> bs[i].id in o.value && o.value[bs[i].id] == Account(bs[i], 0, 0)
    decreases |bs|
  {
    if bs != [] {
      var n := |bs| - 1;
      var before := bs[..n];
      InstallDistinct(before);
      var o := InstallAll(map[], before).value;
      var b := bs[n];
      if b.id in o {
        var _ := IdAt(before, b.id);
      }
      InstallFresh(o, b);
      hide Installed, Installable;
      forall i | 0 <= i < n
        ensures bs[i].id in o && bs[i].id != b.id && o[bs[i].id] == Account(bs[i], 0, 0)
      {
        assert before[i] == bs[i];
      }
    }
  }

  lemma InstallFresh(books: Books, b: Budget)
    requires b.id !in books
    ensures Installable(books, b) && Installed(books, b) == books[b.id := Account(b, 0, 0)]
  {}

  lemma StoredId(b: Budget)
    ensures StoredBudget(b).id == b.id
  {}

  lemma {:induction false} SameIds(bs: seq<Budget>, cs: seq<Budget>)
    requires |bs| == |cs| && forall i :: 0 <= i < |bs| ==> bs[i].id == cs[i].id
    ensures Ids(bs) == Ids(cs)
    decreases |bs|
  {
    if bs != [] {
      SameIds(bs[..|bs| - 1], cs[..|cs| - 1]);
    }
  }

  lemma InstallsAll(bs: seq<Budget>, books: Books)
    requires Snapshot(bs, books) && Keyed(books)
    ensures InstallAll(map[], StoredBudgets(bs)) == Some(Bare(books))
  {
    var cs := StoredBudgets(bs);
    forall i | 0 <= i < |cs|
      ensures cs[i] == StoredBudget(bs[i]) && cs[i].id == bs[i].id
    {
      StoredId(bs[i]);
    }
    hide StoredBudgets, StoredBudget, InstallAll;
    SameIds(bs, cs);
    InstallDistinct(cs);
    var o := InstallAll(map[], cs).value;
    forall b | b in o
      ensures b in books && o[b] == Account(StoredBudget(books[b].cfg), 0, 0)
    {
      var i := IdAt(bs, b);
      assert o[cs[i].id] == Account(cs[i], 0, 0);
    }
    SameBooks(o, books);
  }

  lemma SameBooks(o: Books, books: Books)
    requires o.Keys == books.Keys
    requires forall b :: b in o ==> o[b] == Account(StoredBudget(books[b].cfg), 0, 0)
    ensures o == Bare(books)
  {
    hide StoredBudget;
  }

  // ---- the replay ------------------------------------------------------------------------

  /** What a reservation claims again under the generations of these books. */
  function ReplayedBy(books: Books, r: Reservation): Entry {
    Entry(r.budget,
          if Holding(r.state) && r.budget in books && r.budgetGeneration == books[r.budget].cfg.generation
          then r.reservedPower else 0)
  }

  function Replayed(books: Books, table: Table): map<Id, Entry> {
    map k | k in table :: ReplayedBy(books, table[k])
  }

  /** What it held and does not get back: EXPIRED reservations and claims of an older generation. */
  function LostBy(books: Books, r: Reservation): Entry {
    Entry(r.budget, HeldBy(r).amount - ReplayedBy(books, r).amount)
  }

  function Lost(books: Books, table: Table): map<Id, Entry> {
    map k | k in table :: LostBy(books, table[k])
  }

  /** State of the replay: the tree, nothing used, every budget within its maximum and carrying no more
      than the claims of the table so far. */
  ghost predicate Replaying(bare: Books, books: Books, table: Table) {
    && books.Keys == bare.Keys && ParentsOf(books) == ParentsOf(bare)
    && forall b :: b in books ==>
         && books[b].cfg == bare[b].cfg && books[b].used == 0 && books[b].reserved <= bare[b].cfg.hardMax
         && books[b].reserved <= Sum(ParentsOf(bare), Replayed(bare, table), {b})
  }

  /** No claim so far was turned down. */
  ghost predicate AllClaimed(bare: Books, books: Books, table: Table) {
    forall b :: b in bare && b in books ==>
      books[b].reserved == Sum(ParentsOf(bare), Replayed(bare, table), {b})
  }

  ghost predicate Storable(bare: Books, table: Table) {
    forall k :: k in table ==> WellFormed(bare, table[k]) && table[k].id == k
  }

  /** The claims of the current generations fit: on every budget they come to no more than its maximum. */
  ghost predicate ReplayFits(books: Books, table: Table) {
    forall b :: b in books ==> Sum(ParentsOf(books), Replayed(books, table), {b}) <= books[b].cfg.hardMax
  }

  lemma {:induction false} SubtableBelow(p: Parents, a: map<Id, Entry>, b: map<Id, Entry>, S: set<Id>)
    requires NonNegative(b) && forall k :: k in a ==> k in b && a[k] == b[k]
    ensures Sum(p, a, S) <= Sum(p, b, S)
    decreases |b|
  {
    if b == map[] {
      assert a == map[];
    } else {
      var k :| k in b;
      SumPick(p, b, S, k);
      Smaller(b, k);
      SubtableBelow(p, a - {k}, b - {k}, S);
      SumAtLeast(p, b, S, k);
      if k in a {
        SumPick(p, a, S, k);
      } else {
        assert a - {k} == a;
      }
    }
  }

  lemma ReplayedSet(bare: Books, table: Table, r: Reservation, b: Id)
    requires r.id !in table
    ensures Sum(ParentsOf(bare), Replayed(bare, table[r.id := r]), {b}) ==
            Sum(ParentsOf(bare), Replayed(bare, table), {b}) + Load(ChainOf(bare, r.budget), {b}, ReplayedBy(bare, r).amount)
  {
    hide ReplayedBy, Chain;
    assert Replayed(bare, table[r.id := r]) == Replayed(bare, table)[r.id := ReplayedBy(bare, r)];
    SumSet(ParentsOf(bare), Replayed(bare, table), {b}, r.id, ReplayedBy(bare, r));
    assert ReplayedBy(bare, r).budget == r.budget by { ReplayedBudget(bare, r); }
  }

  lemma ReplayedBudget(bare: Books, r: Reservation)
    ensures ReplayedBy(bare, r).budget == r.budget
  {}

  /** When all claims of the current generations fit, each of them fits what the earlier ones left. */
  lemma ClaimFits(bare: Books, books: Books, table: Table, full: Table, r: Reservation)
    requires Replaying(bare, books, table) && Storable(bare, full) && ReplayFits(bare, full)
    requires r.id !in table && r.id in full && full[r.id] == r
    requires forall k :: k in table ==> k in full && table[k] == full[k]
    requires Reclaims(books, r)
    ensures CanReserve(books, r.budget, r.reservedPower, r.budgetGeneration) <==>
            r.budgetGeneration == books[r.budget].cfg.generation
  {
    SameChains(bare, books);
    assert WellFormed(bare, r);
    assert Closed(ParentsOf(bare), ChainOf(bare, r.budget));
    assert NonNegative(Replayed(bare, full));
    var next := table[r.id := r];
    assert forall k :: k in next ==> k in full && next[k] == full[k];
    hide ChainOf, ParentsOf, WellFormed;
    if r.budgetGeneration == books[r.budget].cfg.generation {
      forall x | x in ChainOf(books, r.budget)
        ensures x in books && OwnAvailable(books[x]) >= r.reservedPower
      {
        ReplayedSet(bare, table, r, x);
        SubtableBelow(ParentsOf(bare), Replayed(bare, next), Replayed(bare, full), {x});
        LoadOne(ChainOf(bare, r.budget), x, r.reservedPower);
        InBooks(bare, x);
      }
      AuthoritativeClaim(bare, r);
    }
  }

  lemma InBooks(books: Books, x: Id)
    ensures x in ParentsOf(books) <==> x in books
  {}

  lemma AuthoritativeClaim(bare: Books, r: Reservation)
    requires WellFormed(bare, r) && Holding(r.state)
    requires r.budgetGeneration == bare[r.budget].cfg.generation
    ensures bare[r.budget].cfg.authoritative
  {}

  lemma FullWellFormed(bare: Books, full: Table, r: Reservation)
    requires Storable(bare, full) && r.id in full && full[r.id] == r
    ensures WellFormed(bare, r)
  {}

  /** What one claim adds to the sum of the claims, taken or not. */
  lemma ClaimAdds(bare: Books, books: Books, table: Table, r: Reservation, b: Id)
    requires Replaying(bare, books, table) && r.id !in table && WellFormed(bare, r) && b in books
    ensures var d := Sum(ParentsOf(bare), Replayed(bare, table[r.id := r]), {b}) - Sum(ParentsOf(bare), Replayed(bare, table), {b});
            var after := Reclaimed(books, r);
            && b in after && after[b].cfg == bare[b].cfg && after[b].used == 0
            && (Reclaims(books, r) && CanReserve(books, r.budget, r.reservedPower, r.budgetGeneration) ==>
                  after[b].reserved == books[b].reserved + d)
            && (Reclaimed(books, r) == books ==> after[b].reserved <= books[b].reserved + d)
            && (!(Reclaims(books, r) && r.budgetGeneration == books[r.budget].cfg.generation) ==>
                  after[b].reserved == books[b].reserved + d)
  {
    SameChains(bare, books);
    ReplayedBudget(bare, r);
    hide ChainOf, ParentsOf, HasCapacity, Load, Post;
    var ids := ChainOf(books, r.budget);
    ReplayedSet(bare, table, r, b);
    LoadLinear(ids, {b}, 0, 0);
    PostAmounts(books, ids, r.reservedPower, 0, b);
    LoadSign(ids, {b}, r.reservedPower);
  }

  lemma ReplayStep(bare: Books, books: Books, table: Table, full: Table, r: Reservation)
    requires Rooted(ParentsOf(bare)) && Storable(bare, full) && Replaying(bare, books, table)
    requires r.id !in table && r.id in full && full[r.id] == r
    requires forall k :: k in table ==> k in full && table[k] == full[k]
    ensures Replaying(bare, Reclaimed(books, r), table[r.id := r])
    ensures ReplayFits(bare, full) && AllClaimed(bare, books, table) ==>
              AllClaimed(bare, Reclaimed(books, r), table[r.id := r])
  {
    hide ChainOf, ParentsOf, CanReserve, Load, Post, Storable, Rooted, ReplayFits, Reclaims, WellFormed;
    FullWellFormed(bare, full, r);
    var after := Reclaimed(books, r);
    ReclaimedCapped(bare, books, table, r);
    forall b | b in books
      ensures after[b].cfg == bare[b].cfg && after[b].used == 0
      ensures after[b].reserved <= Sum(ParentsOf(bare), Replayed(bare, table[r.id := r]), {b})
      ensures ReplayFits(bare, full) && AllClaimed(bare, books, table) ==>
                after[b].reserved == Sum(ParentsOf(bare), Replayed(bare, table[r.id := r]), {b})
    {
      ClaimAdds(bare, books, table, r, b);
      if Reclaims(books, r) && ReplayFits(bare, full) {
        ClaimFits(bare, books, table, full, r);
      }
    }
  }

  lemma ReclaimedCapped(bare: Books, books: Books, table: Table, r: Reservation)
    requires Rooted(ParentsOf(bare)) && Replaying(bare, books, table)
    ensures var after := Reclaimed(books, r);
            && after.Keys == books.Keys && ParentsOf(after) == ParentsOf(books)
            && forall b :: b in after ==> after[b].reserved <= after[b].cfg.hardMax
  {
    hide ChainOf, ParentsOf, Load, Post, Rooted, HasCapacity, Sum;
    var ids := ChainOf(books, r.budget);
    PostKeepsParents(books, ids, r.reservedPower, 0);
    if Reclaims(books, r) && CanReserve(books, r.budget, r.reservedPower, r.budgetGeneration) {
      AdmittedKeepsCap(books, r.budget, r.reservedPower, 0);
    }
  }

  lemma {:induction false} ReplayAll(bare: Books, full: Table, rs: seq<Reservation>, n: nat)
    requires n <= |rs| && Rooted(ParentsOf(bare)) && Storable(bare, full)
    requires forall i :: 0 <= i < |rs| ==> rs[i].id in full && full[rs[i].id] == rs[i]
    requires forall i, j :: 0 <= i < j < |rs| ==> rs[i].id != rs[j].id
    requires forall b :: b in bare ==> bare[b].reserved == 0 && bare[b].used == 0
    ensures var o := RestoreAll(Gov(bare, map[], NOTHING), rs[..n]);
            && o.Some? && Replaying(bare, o.value.books, o.value.table)
            && (ReplayFits(bare, full) ==> AllClaimed(bare, o.value.books, o.value.table))
            && (forall k :: k in o.value.table ==> k in full && o.value.table[k] == full[k])
            && o.value.table.Keys == ResIds(rs[..n])
            && ((0 !in full) ==> Agrees(o.value.index, o.value.table))
    decreases n
  {
    hide Reclaimed, Storable, ReplayFits, Added, Consistent, Rooted;
    var start := Gov(bare, map[], NOTHING);
    if n == 0 {
      assert rs[..n] == [];
      EmptyIndexAgrees();
    } else {
      ReplayAll(bare, full, rs, n - 1);
      assert rs[..n][..n - 1] == rs[..n - 1];
      var g := RestoreAll(start, rs[..n - 1]).value;
      var r := rs[n - 1];
      FreshId(rs, n);
      ReplayStep(bare, g.books, g.table, full, r);
      if 0 !in full {
        RestoredAgrees(g.index, g.table, r);
      }
    }
  }

  lemma FreshId(rs: seq<Reservation>, n: nat)
    requires 0 < n <= |rs| && forall i, j :: 0 <= i < j < |rs| ==> rs[i].id != rs[j].id
    ensures rs[n - 1].id !in ResIds(rs[..n - 1])
  {
    if rs[n - 1].id in ResIds(rs[..n - 1]) {
      var _ := ResIdAt(rs[..n - 1], rs[n - 1].id);
    }
  }

  lemma {:induction false} ResIdAt(rs: seq<Reservation>, id: Id) returns (i: nat)
    requires id in ResIds(rs)
    ensures i < |rs| && rs[i].id == id
    decreases |rs|
  {
    if rs[|rs| - 1].id == id {
      i := |rs| - 1;
    } else {
      i := ResIdAt(rs[..|rs| - 1], id);
    }
  }

  lemma RestoredAgrees(e: Entries, table: Table, r: Reservation)
    requires Agrees(e, table) && r.id !in table && r.id != 0
    ensures Agrees(Added(e, r.id, Meta(r.budget, r.workload, r.state)), table[r.id := r])
  {
    var meta := Meta(r.budget, r.workload, r.state);
    AddedConsistent(e, r.id, meta);
    assert Added(e, r.id, meta).members == e.members[r.id := meta];
    hide Consistent, Added;
  }

  // ---- the theorems ----------------------------------------------------------------------

  function StoredTable(table: Table): Table {
    map k | k in table :: StoredReservation(table[k])
  }

  lemma StoredSums(books: Books, table: Table)
    ensures Held(StoredTable(table)) == Held(table) && Drawn(StoredTable(table)) == Drawn(table)
    ensures Replayed(Bare(books), StoredTable(table)) == Replayed(books, table)
    ensures Lost(books, StoredTable(table)) == Lost(books, table)
  {
    hide HeldBy, DrawnBy, ReplayedBy, LostBy, StoredReservation, Bare;
    forall k | k in table
      ensures HeldBy(StoredReservation(table[k])) == HeldBy(table[k])
      ensures DrawnBy(StoredReservation(table[k])) == DrawnBy(table[k])
      ensures ReplayedBy(Bare(books), StoredReservation(table[k])) == ReplayedBy(books, table[k])
      ensures LostBy(books, StoredReservation(table[k])) == LostBy(books, table[k])
    {
      StoredEntry(books, table[k]);
    }
  }

  lemma StoredEntry(books: Books, r: Reservation)
    ensures HeldBy(StoredReservation(r)) == HeldBy(r) && DrawnBy(StoredReservation(r)) == DrawnBy(r)
    ensures ReplayedBy(Bare(books), StoredReservation(r)) == ReplayedBy(books, r)
    ensures LostBy(books, StoredReservation(r)) == LostBy(books, r)
  {}

  lemma StoredWellFormed(books: Books, r: Reservation)
    requires WellFormed(books, r)
    ensures WellFormed(Bare(books), StoredReservation(r))
  {
    BareParents(books);
    SameChains(books, Bare(books));
    hide ChainOf, ParentsOf;
  }

  lemma SplitEntry(books: Books, r: Reservation)
    requires WellFormed(books, r)
    ensures ReplayedBy(books, r).amount >= 0 && LostBy(books, r).amount >= 0
    ensures HeldBy(r).amount == ReplayedBy(books, r).amount + LostBy(books, r).amount
    ensures HeldBy(r).budget == ReplayedBy(books, r).budget == LostBy(books, r).budget == r.budget
  {
    hide ChainOf;
  }

  /** What was held splits into what is claimed again and what is lost. */
  lemma HeldSplits(books: Books, table: Table, S: set<Id>)
    requires forall k :: k in table ==> WellFormed(books, table[k])
    ensures Sum(ParentsOf(books), Held(table), S) ==
            Sum(ParentsOf(books), Replayed(books, table), S) + Sum(ParentsOf(books), Lost(books, table), S)
    ensures NonNegative(Lost(books, table)) && NonNegative(Replayed(books, table))
  {
    forall k | k in table {
      SplitEntry(books, table[k]);
    }
    hide WellFormed, HeldBy, ReplayedBy, LostBy;
    SumSplit(ParentsOf(books), Held(table), Replayed(books, table), Lost(books, table), S);
  }

  lemma LostSign(books: Books, table: Table, b: Id)
    requires forall k :: k in table ==> WellFormed(books, table[k])
    ensures Sum(ParentsOf(books), Lost(books, table), {b}) >= 0
    ensures Sum(ParentsOf(books), Lost(books, table), {b}) == 0 <==>
            forall k :: k in table && LostBy(books, table[k]).amount > 0 ==> b !in ChainOf(books, table[k].budget)
  {
    HeldSplits(books, table, {b});
    forall k | k in table {
      SplitEntry(books, table[k]);
    }
    hide LostBy, Chain, WellFormed;
    SumVanishes(ParentsOf(books), Lost(books, table), b);
    assert forall k :: k in table ==> Lost(books, table)[k] == LostBy(books, table[k]);
  }

  /** g' has the saved tree and table, and no usage. */
  ghost predicate Shaped(g: Gov, g': Gov) {
    && g'.books.Keys == g.books.Keys && ParentsOf(g'.books) == ParentsOf(g.books)
    && g'.table == StoredTable(g.table)
    && forall b :: b in g.books ==> g'.books[b].cfg == StoredBudget(g.books[b].cfg) && g'.books[b].used == 0
  }

  /** What b would carry with every claim of a current generation back: all it carried but what is lost. */
  ghost function Claimed(g: Gov, b: Id): int
    requires b in g.books
  {
    g.books[b].reserved - Sum(ParentsOf(g.books), Lost(g.books, g.table), {b})
  }

  /** g' is what recovery makes of g at most: within every maximum, and never more than was claimed. */
  ghost predicate Restored(g: Gov, g': Gov) {
    Shaped(g, g') && WithinCap(g'.books) && forall b :: b in g.books ==> g'.books[b].reserved <= Claimed(g, b)
  }

  /** And it is that in full. */
  ghost predicate Recovered(g: Gov, g': Gov) {
    Shaped(g, g') && forall b :: b in g.books ==> g'.books[b].reserved == Claimed(g, b)
  }

  /** Recovery rebuilds the ledger.  From a sound state, whether within its maxima or not, decoding into an
      empty governor succeeds exactly when the hierarchy is acceptable; the saved tree and table are back, no
      budget is booked beyond its maximum, and every claim of a current generation is back exactly when on
      no budget they come to more than the maximum. */
  lemma RecoveryRebuilds(g: Gov, s: Saved)
    requires Sound(g) && Captures(s, g)
    ensures match Rebuilt(EMPTY, Stored(s))
            case None => !Accepted(ParentsOf(g.books))
            case Some(g') => && Accepted(ParentsOf(g.books)) && Restored(g, g')
                             && (Recovered(g, g') <==> ReplayFits(g.books, g.table))
                             && (0 !in g.table ==> Agrees(g'.index, g'.table))
  {
    hide Rebuilt, Accepted, Captures, RestoreAll, StoredReservation, StoredBudget, Replaying, Storable, Rooted,
      ParentsOf, Agrees, Recovered, Restored, Conserved, ReplayFits, AllClaimed, WellFormed;
    var bare := Bare(g.books);
    var rs := StoredReservations(s.reservations);
    RebuiltIs(g, s);
    if Accepted(ParentsOf(g.books)) {
      AcceptedIsRooted(ParentsOf(g.books));
      BareParents(g.books);
      AllStorable(g);
      StoredListed(s, g);
      var n := |rs|;
      ReplayAll(bare, StoredTable(g.table), rs, n);
      assert rs[..n] == rs;
      BareFits(g);
      ReplayedAll(g, RestoreAll(Gov(bare, map[], NOTHING), rs).value);
    }
  }

  lemma BareFits(g: Gov)
    ensures ReplayFits(Bare(g.books), StoredTable(g.table)) <==> ReplayFits(g.books, g.table)
  {
    BareParents(g.books);
    StoredSums(g.books, g.table);
    hide Replayed, StoredTable, ParentsOf, StoredBudget, Sum;
    forall b | b in g.books
      ensures Bare(g.books)[b].cfg.hardMax == g.books[b].cfg.hardMax
    {
      StoredMax(g.books[b].cfg);
    }
  }

  lemma RebuiltIs(g: Gov, s: Saved)
    requires Keyed(g.books) && Captures(s, g)
    ensures Rebuilt(EMPTY, Stored(s)) ==
            if Accepted(ParentsOf(g.books)) then RestoreAll(Gov(Bare(g.books), map[], NOTHING), StoredReservations(s.reservations))
            else None
  {
    InstallsAll(s.budgets, g.books);
    BareParents(g.books);
    hide InstallAll, StoredBudgets, StoredReservations, Accepted, RestoreAll, ParentsOf, Snapshot;
  }

  lemma ReplayedShape(g: Gov, g': Gov)
    requires Replaying(Bare(g.books), g'.books, g'.table)
    requires g'.table.Keys == g.table.Keys && forall k :: k in g'.table ==> g'.table[k] == StoredTable(g.table)[k]
    ensures Shaped(g, g') && WithinCap(g'.books)
  {
    BareParents(g.books);
    assert g'.table == StoredTable(g.table);
    hide StoredReservation, StoredBudget, ParentsOf, Sum;
  }

  lemma ReplayedAll(g: Gov, g': Gov)
    requires Sound(g)
    requires Replaying(Bare(g.books), g'.books, g'.table)
    requires ReplayFits(g.books, g.table) ==> AllClaimed(Bare(g.books), g'.books, g'.table)
    requires g'.table.Keys == g.table.Keys && forall k :: k in g'.table ==> g'.table[k] == StoredTable(g.table)[k]
    ensures Restored(g, g') && (Recovered(g, g') <==> ReplayFits(g.books, g.table))
  {
    hide StoredTable, StoredBudget, Sane, Conserved;
    ReplayedShape(g, g');
    BareParents(g.books);
    StoredSums(g.books, g.table);
    assert g'.table == StoredTable(g.table);
    hide Shaped, Replayed, ParentsOf, Sum, Claimed;
    forall b | b in g.books
      ensures g'.books[b].cfg.hardMax == g.books[b].cfg.hardMax
      ensures Claimed(g, b) == Sum(ParentsOf(g.books), Replayed(g.books, g.table), {b})
    {
      ClaimedBounds(g, b);
      StoredMax(g.books[b].cfg);
    }
  }

  lemma AllStorable(g: Gov)
    requires Sane(g.books, g.table)
    ensures Storable(Bare(g.books), StoredTable(g.table))
  {
    forall k | k in g.table
      ensures WellFormed(Bare(g.books), StoredTable(g.table)[k]) && StoredTable(g.table)[k].id == k
    {
      StoredWellFormed(g.books, g.table[k]);
    }
    hide WellFormed;
  }

  lemma StoredListed(s: Saved, g: Gov)
    requires Sound(g) && Captures(s, g)
    ensures var rs, full := StoredReservations(s.reservations), StoredTable(g.table);
            && (forall i :: 0 <= i < |rs| ==> rs[i].id in full && full[rs[i].id] == rs[i])
            && (forall i, j :: 0 <= i < j < |rs| ==> rs[i].id != rs[j].id)
            && ResIds(rs) == full.Keys
  {
    var rs, full := StoredReservations(s.reservations), StoredTable(g.table);
    forall i | 0 <= i < |rs|
      ensures rs[i] == StoredReservation(s.reservations[i]) && rs[i].id == s.reservations[i].id
    {}
    hide StoredReservation, StoredReservations;
    SameResIds(rs, s.reservations);
  }

  /** A reservation that holds power and gets it back. */
  predicate Survives(books: Books, r: Reservation) {
    r.state != EXPIRED && r.budget in books && r.budgetGeneration == books[r.budget].cfg.generation
  }

  /** The rebuilt `reserved` is never larger, and it is the same for every budget exactly when no
      reservation that still holds power is EXPIRED or booked under an older generation (a holder
      whose chain is empty, one of budget 0, weighs on no budget) and no budget was booked beyond its
      maximum. */
  lemma RecoveryExact(g: Gov, s: Saved, g': Gov)
    requires Sound(g) && Captures(s, g) && Rebuilt(EMPTY, Stored(s)) == Some(g')
    ensures forall b :: b in g.books ==> b in g'.books && g'.books[b].reserved <= g.books[b].reserved
    ensures SameReserved(g, g') <==>
            && (forall k :: k in g.table && g.table[k].budget != 0 && HeldBy(g.table[k]).amount > 0 ==>
                              Survives(g.books, g.table[k]))
            && (forall b :: b in g.books ==> g.books[b].reserved <= g.books[b].cfg.hardMax)
  {
    hide Rebuilt, Captures, Sane, Conserved, Accepted, Agrees, Claimed, Survives, HeldBy;
    RecoveryRebuilds(g, s);
    NothingLost(g);
    SameExactly(g, g');
  }

  /** Everything is back exactly when nothing was lost and nothing was booked beyond its maximum. */
  lemma SameExactly(g: Gov, g': Gov)
    requires Sound(g) && Restored(g, g') && (Recovered(g, g') <==> ReplayFits(g.books, g.table))
    ensures forall b :: b in g.books ==> g'.books[b].reserved <= g.books[b].reserved
    ensures SameReserved(g, g') <==>
            && (forall b :: b in g.books ==> Claimed(g, b) == g.books[b].reserved)
            && (forall b :: b in g.books ==> g.books[b].reserved <= g.books[b].cfg.hardMax)
  {
    hide StoredTable, StoredBudget, Sane, Conserved, ParentsOf, Replayed, Sum, Claimed;
    forall b | b in g.books
      ensures g'.books[b].cfg.hardMax == g.books[b].cfg.hardMax
      ensures Sum(ParentsOf(g.books), Replayed(g.books, g.table), {b}) == Claimed(g, b) <= g.books[b].reserved
    {
      StoredMax(g.books[b].cfg);
      ClaimedBounds(g, b);
    }
    if SameReserved(g, g') {
      forall b | b in g.books
        ensures Claimed(g, b) == g.books[b].reserved <= g.books[b].cfg.hardMax
      {
        assert g'.books[b].reserved <= Claimed(g, b);
        assert g'.books[b].reserved + g'.books[b].used <= g'.books[b].cfg.hardMax;
      }
    }
  }

  predicate SameReserved(g: Gov, g': Gov) {
    forall b :: b in g.books ==> b in g'.books && g'.books[b].reserved == g.books[b].reserved
  }

  lemma ClaimedBounds(g: Gov, b: Id)
    requires Sound(g) && b in g.books
    ensures 0 <= Sum(ParentsOf(g.books), Replayed(g.books, g.table), {b}) == Claimed(g, b) <= g.books[b].reserved
  {
    HeldSplits(g.books, g.table, {b});
    LostSign(g.books, g.table, b);
    hide WellFormed, Lost, Replayed;
    SumAtLeast(ParentsOf(g.books), Replayed(g.books, g.table), {b}, 0);
  }

  /** Nothing is lost exactly when every holder survives. */
  lemma NothingLost(g: Gov)
    requires Sound(g)
    ensures (forall b :: b in g.books ==> Claimed(g, b) == g.books[b].reserved) <==>
            forall k :: k in g.table && g.table[k].budget != 0 && HeldBy(g.table[k]).amount > 0 ==>
                          Survives(g.books, g.table[k])
  {
    forall k | k in g.table
      ensures LostBy(g.books, g.table[k]).amount > 0 <==>
              HeldBy(g.table[k]).amount > 0 && !Survives(g.books, g.table[k])
    {
      LostExactly(g.books, g.table[k]);
    }
    LostAnywhere(g);
    hide LostBy, HeldBy, Survives, Lost, Sane, Conserved, ParentsOf;
  }

  lemma LostExactly(books: Books, r: Reservation)
    requires WellFormed(books, r)
    ensures LostBy(books, r).amount > 0 <==> HeldBy(r).amount > 0 && !Survives(books, r)
  {
    hide ChainOf;
  }

  lemma HolderChain(books: Books, r: Reservation)
    requires WellFormed(books, r) && HeldBy(r).amount > 0
    ensures var ids := ChainOf(books, r.budget);
            if r.budget == 0 then ids == [] else r.budget in ids && r.budget in books
  {
    StartsAt(books, r.budget);
    hide ChainOf, ParentsOf;
    InBooks(books, r.budget);
  }

  lemma LostAnywhere(g: Gov)
    requires Sound(g)
    ensures (forall b :: b in g.books ==> Sum(ParentsOf(g.books), Lost(g.books, g.table), {b}) == 0) <==>
            (forall k :: k in g.table && g.table[k].budget != 0 ==> LostBy(g.books, g.table[k]).amount <= 0)
  {
    forall b | b in g.books
      ensures Sum(ParentsOf(g.books), Lost(g.books, g.table), {b}) == 0 <==>
              forall k :: k in g.table && LostBy(g.books, g.table[k]).amount > 0 ==> b !in ChainOf(g.books, g.table[k].budget)
    {
      LostSign(g.books, g.table, b);
    }
    forall k | k in g.table && LostBy(g.books, g.table[k]).amount > 0
      ensures var ids := ChainOf(g.books, g.table[k].budget);
              if g.table[k].budget == 0 then ids == [] else g.table[k].budget in ids && g.table[k].budget in g.books
    {
      LostExactly(g.books, g.table[k]);
      HolderChain(g.books, g.table[k]);
    }
    hide ChainOf, LostBy, Sum, Sane, Conserved, Lost, ParentsOf;
  }

  /** A recovered governor is within its maxima whatever was saved; and it is sound, so that everything
      proved about runs holds of the runs that follow, exactly when every budget carries what it did. */
  lemma RecoveredIsSound(g: Gov, s: Saved, g': Gov)
    requires Sound(g) && Captures(s, g) && Rebuilt(EMPTY, Stored(s)) == Some(g')
    ensures WithinCap(g'.books)
    ensures Sound(g') <==> SameReserved(g, g')
  {
    hide Rebuilt, Captures, Accepted, Agrees, ReplayFits;
    RecoveryRebuilds(g, s);
    ShapedIsSound(g, g');
  }

  lemma ShapedIsSound(g: Gov, g': Gov)
    requires Sound(g) && Shaped(g, g')
    ensures Sound(g') <==> SameReserved(g, g')
  {
    RecoveredIsSane(g, g');
    StoredSums(g.books, g.table);
    hide Sane, ParentsOf, Held, StoredTable, StoredBudget;
    forall b | b in g'.books
      ensures Sum(ParentsOf(g'.books), Held(g'.table), {b}) == g.books[b].reserved
    {}
  }

  /** So the caps hold over every run that follows a recovery, whatever was saved and whatever was lost. */
  lemma RunAfterRecoveryKeepsCaps(g: Gov, s: Saved, g': Gov, calls: seq<Call>)
    requires Sound(g) && Captures(s, g) && Rebuilt(EMPTY, Stored(s)) == Some(g')
    requires SafeRun(g', calls)
    ensures Capped(Run(g', calls))
  {
    hide Rebuilt, Captures, Accepted, Agrees, ReplayFits, Rooted, SafeRun, NoDebts, WithinCap, Conserved;
    RecoveryRebuilds(g, s);
    RecoveredIsSane(g, g');
    hide Sane;
    AcceptedIsRooted(ParentsOf(g.books));
    NoDebtsIfSane(g'.books, g'.table);
    RunKeepsCaps(g', calls);
  }

  lemma NoDebtsIfSane(books: Books, table: Table)
    requires Sane(books, table)
    ensures NoDebts(table)
  {
    hide ChainOf;
  }

  lemma RebuiltCarries(g: Gov, g': Gov, id: Id, b: Id)
    requires Sound(g) && Recovered(g, g') && id in g.table && b in ChainOf(g.books, g.table[id].budget) && b in g.books
    ensures g'.books[b].reserved >= ReplayedBy(g.books, g.table[id]).amount
  {
    var p, r := ParentsOf(g.books), g.table[id];
    hide Chain, ReplayedBy, Lost;
    HeldSplits(g.books, g.table, {b});
    SumAtLeast(p, Replayed(g.books, g.table), {b}, id);
    LoadOne(Chain(p, r.budget), b, ReplayedBy(g.books, r).amount);
    ReplayedBudget(g.books, r);
  }

  /** After a recovery the over-release branch is reachable: a release goes through exactly when, besides
      what a sound state asks, the reservation got its power back along with every other claim, or its chain
      carries that much all the same, which it then takes from others. */
  lemma RecoveredReleaseExactly(g: Gov, s: Saved, g': Gov, id: Id, gen: Gen, now: int)
    requires Sound(g) && Captures(s, g) && Rebuilt(EMPTY, Stored(s)) == Some(g')
    requires id in g.table && Releasable(g.table[id])
    ensures var r := g.table[id];
            var ids := ChainOf(g.books, r.budget);
            Effect(g', Release(id, gen, now)).reply == Done <==>
            && Current(g.books, r.budget, gen) && Closed(ParentsOf(g.books), ids)
            && (|| (Survives(g.books, r) && ReplayFits(g.books, g.table))
                || forall x :: x in ids ==> x in g'.books && g'.books[x].reserved >= r.reservedPower)
  {
    hide ChainOf, Conserved, Returned, Updated, Lost, Sum, Rebuilt, Captures, Accepted, Agrees, ReplayFits, WithinCap, Replayed,
      Claimed;
    RecoveryRebuilds(g, s);
    var r := g.table[id];
    var ids := ChainOf(g.books, r.budget);
    SameChains(g.books, g'.books);
    if Closed(ParentsOf(g.books), ids) {
      forall x | x in ids
        ensures x in g.books
        ensures Survives(g.books, r) && ReplayFits(g.books, g.table) ==> g'.books[x].reserved >= r.reservedPower
      {
        InBooks(g.books, x);
        if ReplayFits(g.books, g.table) {
          RebuiltCarries(g, g', id, x);
        }
      }
    }
    forall x | x in g.books
      ensures g'.books[x].cfg.generation == g.books[x].cfg.generation
    {
      StoredGeneration(g.books[x].cfg);
    }
  }

  lemma StoredGeneration(b: Budget)
    ensures StoredBudget(b).generation == b.generation
  {}

  lemma StoredMax(b: Budget)
    ensures StoredBudget(b).hardMax == b.hardMax
  {}

  lemma RecoveredIsSane(g: Gov, g': Gov)
    requires Sane(g.books, g.table) && Shaped(g, g')
    ensures Sane(g'.books, g'.table)
  {
    forall k | k in g'.table
      ensures WellFormed(g'.books, g'.table[k]) && g'.table[k].id == k
    {
      RestoredWellFormed(g.books, g'.books, g.table[k]);
    }
    hide WellFormed, ParentsOf;
  }

  lemma RestoredWellFormed(books: Books, books': Books, r: Reservation)
    requires WellFormed(books, r) && books'.Keys == books.Keys && ParentsOf(books') == ParentsOf(books)
    requires forall b :: b in books ==> books'[b].cfg == StoredBudget(books[b].cfg)
    ensures WellFormed(books', StoredReservation(r))
  {
    SameChains(books, books');
    hide ChainOf, ParentsOf;
  }

  /** Usage is not replayed: after a recovery it is conserved exactly when nothing was ACTIVE with a
      positive amount. */
  lemma RecoveredUsage(g: Gov, g': Gov)
    requires Sound(g) && Shaped(g, g')
    ensures UsageConserved(g'.books, g'.table) <==>
            forall k :: k in g.table && DrawnBy(g.table[k]).amount > 0 ==> g.table[k].budget == 0
  {
    StoredSums(g.books, g.table);
    HeldNonNegative(g.books, g.table);
    forall b | b in g.books
      ensures Sum(ParentsOf(g.books), Drawn(g.table), {b}) == 0 <==>
              forall k :: k in g.table && DrawnBy(g.table[k]).amount > 0 ==> b !in ChainOf(g.books, g.table[k].budget)
    {
      DrawnSign(g, b);
    }
    forall k | k in g.table && DrawnBy(g.table[k]).amount > 0
      ensures var ids := ChainOf(g.books, g.table[k].budget);
              if g.table[k].budget == 0 then ids == [] else g.table[k].budget in ids && g.table[k].budget in g.books
    {
      HolderChain(g.books, g.table[k]);
    }
    hide ChainOf, DrawnBy, Sum, Sane, Conserved, Lost, ParentsOf, Drawn, StoredTable, StoredBudget;
  }

  lemma DrawnSign(g: Gov, b: Id)
    requires Sane(g.books, g.table)
    ensures Sum(ParentsOf(g.books), Drawn(g.table), {b}) == 0 <==>
            forall k :: k in g.table && DrawnBy(g.table[k]).amount > 0 ==> b !in ChainOf(g.books, g.table[k].budget)
  {
    HeldNonNegative(g.books, g.table);
    hide Chain, Sane;
    SumVanishes(ParentsOf(g.books), Drawn(g.table), b);
    assert forall k :: k in g.table ==> Drawn(g.table)[k] == DrawnBy(g.table[k]) && DrawnBy(g.table[k]).budget == g.table[k].budget;
  }

  // ---- through the file ------------------------------------------------------------------

  predicate AllFit(g: Gov, header: Header, meters: seq<Meter>) {
    && HeaderFits(header) && |meters| < 0x1_0000_0000 && (forall i :: 0 <= i < |meters| ==> MeterFits(meters[i]))
    && |g.books| < 0x1_0000_0000 && |g.table| < 0x1_0000_0000
    && (forall b :: b in g.books ==> g.books[b].cfg.id == b && BudgetFits(g.books[b].cfg))
    && (forall k :: k in g.table ==> g.table[k].id == k && ReservationFits(g.table[k]))
  }

  lemma {:induction false} IdsSize(bs: seq<Budget>)
    requires DistinctIds(bs)
    ensures |bs| == |Ids(bs)|
    decreases |bs|
  {
    if bs != [] {
      var before := bs[..|bs| - 1];
      IdsSize(before);
      if bs[|bs| - 1].id in Ids(before) {
        var _ := IdAt(before, bs[|bs| - 1].id);
      }
    }
  }

  lemma {:induction false} ResIdsSize(rs: seq<Reservation>)
    requires forall i, j :: 0 <= i < j < |rs| ==> rs[i].id != rs[j].id
    ensures |rs| == |ResIds(rs)|
    decreases |rs|
  {
    if rs != [] {
      var before := rs[..|rs| - 1];
      ResIdsSize(before);
      FreshId(rs, |rs|);
    }
  }

  /** `save`, up to the container and the file: a snapshot of the governor, encoded. */
  method SaveState(gov: Governor, header: Header, meters: seq<Meter>) returns (blob: seq<byte>, ghost s: Saved)
    requires AllFit(gov.State(), header, meters)
    ensures Captures(s, gov.State()) && Fits(s) && blob == StateBytes(s)
    ensures s.header == header && s.meters == meters
    ensures Loadable(s) <==> |gov.State().books| <= MAX_COUNT && |gov.State().table| <= MAX_COUNT && |meters| <= MAX_COUNT
  {
    hide StateBytes, BudgetFits, ReservationFits, HeaderFits, MeterFits;
    var budgets := Snapshots(gov.budgets.states);
    var reservations := AllReservations(gov.reservations.table);
    IdsSize(budgets);
    ResIdsSize(reservations);
    assert |gov.budgets.states.Keys| == |gov.budgets.states|;
    assert |gov.reservations.table.Keys| == |gov.reservations.table|;
    s := Saved(header, budgets, reservations, meters);
    blob := EncodeState(Saved(header, budgets, reservations, meters));
  }

  /** Decoding the file of a snapshot into an empty governor is rebuilding the snapshot. */
  lemma SaveThenLoad(s: Saved)
    requires Fits(s)
    ensures Decoded(EMPTY, map[], StateBytes(s)) ==
            if !Loadable(s) then None
            else match Rebuilt(EMPTY, Stored(s))
                 case None => None
                 case Some(g') => Some((g', s.header, MeterTable(map[], s.meters)))
  {
    StateRoundTrip(s);
    hide ParseState, StateBytes, Rebuilt, StoredBudgets, StoredReservations, Fits;
  }
}
