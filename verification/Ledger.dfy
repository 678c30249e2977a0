/** Hierarchical budget accounting: the books, the four ledger operations and what they keep.

    Power is counted in integer milliwatts, the unit of the wire and disk formats, on which the
    1e-9 W tolerances of the program are exact comparisons. */
module Ledger {
  import opened Basics
  import opened Tree

  datatype Budget = Budget(
    id: Id, generation: Gen, domain: Id, policyGeneration: Gen, parent: Option<Id>, name: seq<byte>,
    hardMax: nat, softTarget: nat, minReserve: nat, burstAllowance: nat,
    burstWindow: nat, recovery: nat, priority: int, authoritative: bool)

  datatype Account = Account(cfg: Budget, reserved: nat, used: nat)

  type Books = map<Id, Account>

  function ParentsOf(books: Books): Parents {
    map id | id in books :: LiveParent(books[id].cfg)
  }

  /** A parent link that is absent or invalid ends the walk either way. */
  function LiveParent(b: Budget): Option<Id> { if Live(b.parent) then b.parent else None }

  function ChainOf(books: Books, id: Id): seq<Id> {
    Chain(ParentsOf(books), id)
  }

  function OwnAvailable(a: Account): nat {
    Clamp(a.cfg.hardMax - a.reserved - a.used)
  }

  predicate HasCapacity(books: Books, ids: seq<Id>, amount: int) {
    forall x :: x in ids ==> x in books && OwnAvailable(books[x]) >= amount
  }

  predicate Current(books: Books, id: Id, gen: Gen) {
    id in books && books[id].cfg.generation == gen
  }

  predicate CanReserve(books: Books, id: Id, amount: int, gen: Gen) {
    && Current(books, id, gen) && books[id].cfg.authoritative && amount >= 0
    && HasCapacity(books, ChainOf(books, id), amount)
  }

  predicate CanRelease(books: Books, id: Id, amount: int, gen: Gen) {
    && Current(books, id, gen) && amount >= 0
    && forall x :: x in ChainOf(books, id) ==> x in books && books[x].reserved >= amount
  }

  predicate CanActivate(books: Books, id: Id, amount: int, gen: Gen) {
    && Current(books, id, gen) && amount >= 0
    && HasCapacity(books, ChainOf(books, id), amount)
  }

  predicate CanDeactivate(books: Books, id: Id, amount: int, gen: Gen) {
    && Current(books, id, gen) && amount >= 0
    && forall x :: x in ChainOf(books, id) ==> x in books && books[x].used >= amount
  }

  /** The books after booking r (reserved) and u (used) at every position of a chain. */
  function Post(books: Books, ids: seq<Id>, r: int, u: int): Books {
    map b | b in books :: books[b].(
      reserved := Clamp(books[b].reserved + Load(ids, {b}, r)),
      used := Clamp(books[b].used + Load(ids, {b}, u)))
  }

  predicate Installable(books: Books, b: Budget) {
    b.id in books ==> b.generation > books[b.id].cfg.generation
  }

  /** `install` keeps the amounts booked under a re-issued id. */
  function Installed(books: Books, b: Budget): Books {
    books[b.id := if b.id in books then books[b.id].(cfg := b) else Account(b, 0, 0)]
  }

  function MinAvailable(books: Books, ids: seq<Id>): nat
    requires ids != [] && forall x :: x in ids ==> x in books
    decreases |ids|
  {
    var first := OwnAvailable(books[ids[0]]);
    if |ids| == 1 then first
    else
      assert forall x :: x in ids[1..] ==> x in ids;
      Min(first, MinAvailable(books, ids[1..]))
  }

  /** `available` */
  function Available(books: Books, id: Id): nat {
    var ids := ChainOf(books, id);
    if id !in books then 0
    else if ids == [] then OwnAvailable(books[id])
    else if !Closed(ParentsOf(books), ids) then 0
    else MinAvailable(books, ids)
  }

  // ---- the class -------------------------------------------------------------------------

  class BudgetManager {
    var states: Books

    constructor ()
      ensures states == map[]
    {
      states := map[];
    }

    method Install(b: Budget) returns (ok: bool)
      modifies this
      ensures ok == old(Installable(states, b))
      ensures states == if ok then old(Installed(states, b)) else old(states)
    {
      if b.id !in states {
        states := states[b.id := Account(b, 0, 0)];
        return true;
      }
      if b.generation <= states[b.id].cfg.generation {
        return false;
      }
      states := states[b.id := states[b.id].(cfg := b)];
      return true;
    }

    method ComputeChain(id: Id) returns (out: seq<Id>)
      ensures out == ChainOf(states, id)
    {
      hide Chain, ChainFrom, ParentsOf;
      out := [];
      var cur := Some(id);
      var guard := 0;
      ghost var n: nat :| n == MAX_CHAIN;
      ghost var p := ParentsOf(states);
      ChainDef(p, id, n);
      WalkStep(p, cur, n);
      while Live(cur)
        invariant guard <= n - 1
        invariant Chain(p, id) == out + ChainFrom(p, cur, n - guard)
        invariant !Live(cur) ==> ChainFrom(p, cur, n - guard) == []
        decreases n - guard
      {
        WalkOn(p, Chain(p, id), out, cur, n - guard);
        LinkOf(states, cur.value);
        out := out + [cur.value];
        if cur.value !in states {
          break;
        }
        cur := states[cur.value].cfg.parent;
        guard := guard + 1;
        if guard > 64 {
          break;
        }
      }
    }

    method ChainHasCapacity(id: Id, amount: int) returns (ok: bool)
      ensures ok == HasCapacity(states, ChainOf(states, id), amount)
    {
      hide ChainOf, OwnAvailable;
      var ids := ComputeChain(id);
      for i := 0 to |ids|
        invariant HasCapacity(states, ids[..i], amount)
      {
        if ids[i] !in states || OwnAvailable(states[ids[i]]) < amount {
          assert ids[i] in ids;
          return false;
        }
        assert ids[..i + 1] == ids[..i] + [ids[i]];
      }
      assert ids[..|ids|] == ids;
      return true;
    }

    /** The second pass of each operation: one booking per position of the chain. */
    method Book(ids: seq<Id>, r: int, u: int)
      requires forall x :: x in ids ==> x in states
      requires (r >= 0 && u == 0) || (r == 0 && u >= 0) || (r <= 0 && u == 0) || (r == 0 && u <= 0)
      modifies this
      ensures states == old(Post(states, ids, r, u))
    {
      hide Clamp, Post, Load;
      ghost var was := states;
      PostNothing(was, r, u);
      for i := 0 to |ids|
        invariant states == Post(was, ids[..i], r, u)
      {
        BookNext(was, ids, i, r, u);
        var b := ids[i];
        states := states[b := states[b].(reserved := Clamp(states[b].reserved + r), used := Clamp(states[b].used + u))];
      }
      assert ids[..|ids|] == ids;
    }

    /** The first pass of `release`. */
    method AllReserved(ids: seq<Id>, amount: int) returns (ok: bool)
      ensures ok == forall x :: x in ids ==> x in states && states[x].reserved >= amount
    {
      for i := 0 to |ids|
        invariant forall x :: x in ids[..i] ==> x in states && states[x].reserved >= amount
      {
        if ids[i] !in states || states[ids[i]].reserved < amount {
          assert ids[i] in ids;
          return false;
        }
        assert ids[..i + 1] == ids[..i] + [ids[i]];
      }
      assert ids[..|ids|] == ids;
      return true;
    }

    /** The first pass of `deactivate`. */
    method AllUsed(ids: seq<Id>, amount: int) returns (ok: bool)
      ensures ok == forall x :: x in ids ==> x in states && states[x].used >= amount
    {
      for i := 0 to |ids|
        invariant forall x :: x in ids[..i] ==> x in states && states[x].used >= amount
      {
        if ids[i] !in states || states[ids[i]].used < amount {
          assert ids[i] in ids;
          return false;
        }
        assert ids[..i + 1] == ids[..i] + [ids[i]];
      }
      assert ids[..|ids|] == ids;
      return true;
    }

    method Reserve(id: Id, amount: int, gen: Gen) returns (ok: bool)
      modifies this
      ensures ok == old(CanReserve(states, id, amount, gen))
      ensures states == if ok then old(Post(states, ChainOf(states, id), amount, 0)) else old(states)
    {
      if id !in states || states[id].cfg.generation != gen || !states[id].cfg.authoritative || amount < 0 {
        return false;
      }
      var fits := ChainHasCapacity(id, amount);
      if !fits {
        return false;
      }
      hide ChainOf;
      var ids := ComputeChain(id);
      Book(ids, amount, 0);
      return true;
    }

    method Release(id: Id, amount: int, gen: Gen) returns (ok: bool)
      modifies this
      ensures ok == old(CanRelease(states, id, amount, gen))
      ensures states == if ok then old(Post(states, ChainOf(states, id), -amount, 0)) else old(states)
    {
      if id !in states || states[id].cfg.generation != gen || amount < 0 {
        return false;
      }
      hide ChainOf;
      var ids := ComputeChain(id);
      var holds := AllReserved(ids, amount);
      if !holds {
        return false;
      }
      Book(ids, -amount, 0);
      return true;
    }

    method Activate(id: Id, amount: int, gen: Gen) returns (ok: bool)
      modifies this
      ensures ok == old(CanActivate(states, id, amount, gen))
      ensures states == if ok then old(Post(states, ChainOf(states, id), 0, amount)) else old(states)
    {
      if id !in states || states[id].cfg.generation != gen || amount < 0 {
        return false;
      }
      var fits := ChainHasCapacity(id, amount);
      if !fits {
        return false;
      }
      hide ChainOf;
      var ids := ComputeChain(id);
      Book(ids, 0, amount);
      return true;
    }

    method Deactivate(id: Id, amount: int, gen: Gen) returns (ok: bool)
      modifies this
      ensures ok == old(CanDeactivate(states, id, amount, gen))
      ensures states == if ok then old(Post(states, ChainOf(states, id), 0, -amount)) else old(states)
    {
      if id !in states || states[id].cfg.generation != gen || amount < 0 {
        return false;
      }
      hide ChainOf;
      var ids := ComputeChain(id);
      var holds := AllUsed(ids, amount);
      if !holds {
        return false;
      }
      Book(ids, 0, -amount);
      return true;
    }

    method QueryAvailable(id: Id) returns (avail: nat)
      ensures avail == Available(states, id)
    {
      if id !in states {
        return 0;
      }
      avail := OwnAvailable(states[id]);
      var ids := ComputeChain(id);
      StartsAt(states, id);
      for i := 0 to |ids|
        invariant forall x :: x in ids[..i] ==> x in states
        invariant avail == if i == 0 then OwnAvailable(states[id]) else MinAvailable(states, ids[..i])
      {
        if ids[i] !in states {
          assert ids[i] in ids && ids[i] !in ParentsOf(states);
          return 0;
        }
        MinAppend(states, ids[..i], ids[i]);
        assert ids[..i + 1] == ids[..i] + [ids[i]];
        avail := Min(avail, OwnAvailable(states[ids[i]]));
      }
      assert ids[..|ids|] == ids;
    }
  }

  lemma WalkStep(p: Parents, cur: Option<Id>, n: nat)
    ensures ChainFrom(p, cur, n) ==
            if n == 0 || !Live(cur) then [] else [cur.value] + ChainFrom(p, ParentOf(p, cur.value), n - 1)
  {}

  /** One more budget visited: what is collected and what is still to come make up the whole chain. */
  lemma WalkOn(p: Parents, whole: seq<Id>, out: seq<Id>, cur: Option<Id>, n: nat)
    requires n > 0 && Live(cur) && whole == out + ChainFrom(p, cur, n)
    ensures var up := ParentOf(p, cur.value);
            && whole == (out + [cur.value]) + ChainFrom(p, up, n - 1)
            && (n == 1 || !Live(up) ==> ChainFrom(p, up, n - 1) == [])
    ensures forall other :: !Live(other) ==> ChainFrom(p, other, n - 1) == []
  {
    WalkStep(p, cur, n);
  }

  lemma LinkOf(books: Books, id: Id)
    ensures ParentOf(ParentsOf(books), id) == if id in books then LiveParent(books[id].cfg) else None
  {}

  lemma StartsAt(books: Books, id: Id)
    ensures if id == 0 then ChainOf(books, id) == [] else |ChainOf(books, id)| > 0 && ChainOf(books, id)[0] == id
  {
    hide Chain;
    ChainStart(ParentsOf(books), id);
  }

  lemma {:induction false} MinAppend(books: Books, ids: seq<Id>, x: Id)
    requires forall y :: y in ids ==> y in books
    requires x in books
    ensures MinAvailable(books, ids + [x]) ==
            if ids == [] then OwnAvailable(books[x]) else Min(MinAvailable(books, ids), OwnAvailable(books[x]))
    decreases |ids|
  {
    if |ids| >= 1 {
      MinAppend(books, ids[1..], x);
      assert (ids + [x])[1..] == ids[1..] + [x];
    }
  }

  lemma PostNothing(books: Books, r: int, u: int)
    ensures Post(books, [], r, u) == books
  {}

  lemma PostStep(books: Books, ids: seq<Id>, b: Id, r: int, u: int)
    requires b in books
    requires (r >= 0 && u == 0) || (r == 0 && u >= 0) || (r <= 0 && u == 0) || (r == 0 && u <= 0)
    ensures var now := Post(books, ids, r, u);
            Post(books, ids + [b], r, u) ==
            now[b := now[b].(reserved := Clamp(now[b].reserved + r), used := Clamp(now[b].used + u))]
  {
    hide Clamp, Load;
    var now, next := Post(books, ids, r, u), Post(books, ids + [b], r, u);
    forall x | x in books
      ensures next[x] == if x == b then now[b].(reserved := Clamp(now[b].reserved + r), used := Clamp(now[b].used + u))
                         else now[x]
    {
      LoadSnoc(ids, b, x, r);
      LoadSnoc(ids, b, x, u);
      LoadSign(ids, {x}, r);
      LoadSign(ids, {x}, u);
      ClampTwice(books[x].reserved, Load(ids, {x}, r), r);
      ClampTwice(books[x].used, Load(ids, {x}, u), u);
    }
  }

  lemma BookNext(books: Books, ids: seq<Id>, i: nat, r: int, u: int)
    requires i < |ids| && ids[i] in books
    requires (r >= 0 && u == 0) || (r == 0 && u >= 0) || (r <= 0 && u == 0) || (r == 0 && u <= 0)
    ensures var now, b := Post(books, ids[..i], r, u), ids[i];
            b in now && Post(books, ids[..i + 1], r, u) ==
            now[b := now[b].(reserved := Clamp(now[b].reserved + r), used := Clamp(now[b].used + u))]
  {
    hide Clamp, Load;
    PostStep(books, ids[..i], ids[i], r, u);
    assert ids[..i + 1] == ids[..i] + [ids[i]];
  }

  lemma LoadSnoc(ids: seq<Id>, b: Id, x: Id, amount: int)
    ensures Load(ids + [b], {x}, amount) == Load(ids, {x}, amount) + if x == b then amount else 0
  {
    LoadConcat(ids, [b], {x}, amount);
    assert Load([b][1..], {x}, amount) == 0;
  }

  lemma ClampTwice(v: nat, x: int, y: int)
    requires (x >= 0 && y >= 0) || (x <= 0 && y <= 0)
    ensures Clamp(Clamp(v + x) + y) == Clamp(v + (x + y))
  {}

  lemma LoadSign(ids: seq<Id>, S: set<Id>, x: int)
    ensures x >= 0 ==> Load(ids, S, x) >= 0
    ensures x <= 0 ==> Load(ids, S, x) <= 0
  {
    LoadLinear(ids, S, 0, 0);
    if x >= 0 {
      LoadMonotone(ids, S, 0, x);
    } else {
      LoadMonotone(ids, S, x, 0);
    }
  }

  // ---- what the operations keep ----------------------------------------------------------

  lemma PostKeepsParents(books: Books, ids: seq<Id>, r: int, u: int)
    ensures ParentsOf(Post(books, ids, r, u)) == ParentsOf(books)
    ensures Post(books, ids, r, u).Keys == books.Keys
  {}

  /** A successful operation changes exactly the budgets of its chain: along a path each of them
      by exactly the amount, and no other budget at all. */
  lemma PostTouchesExactlyChain(books: Books, ids: seq<Id>, r: int, u: int, b: Id)
    requires b in books && NoRepeat(ids)
    requires b in ids ==> books[b].reserved + r >= 0 && books[b].used + u >= 0
    ensures Post(books, ids, r, u)[b] ==
            if b in ids then books[b].(reserved := books[b].reserved + r, used := books[b].used + u) else books[b]
  {
    LoadOne(ids, b, r);
    LoadOne(ids, b, u);
  }

  lemma {:induction false} MinAvailableBounds(books: Books, ids: seq<Id>, amount: int)
    requires ids != [] && forall x :: x in ids ==> x in books
    ensures amount <= MinAvailable(books, ids) <==> HasCapacity(books, ids, amount)
    decreases |ids|
  {
    if |ids| > 1 {
      MinAvailableBounds(books, ids[1..], amount);
      assert ids == [ids[0]] + ids[1..];
    } else {
      assert ids == [ids[0]];
    }
  }

  /** What the capacity query promises of an amount. */
  predicate Covered(books: Books, id: Id, amount: int, gen: Gen) {
    && Current(books, id, gen) && books[id].cfg.authoritative
    && Closed(ParentsOf(books), ChainOf(books, id))
    && 0 <= amount <= Available(books, id)
  }

  /** The capacity query and admission agree: a reservation is admitted exactly when the budget is
      authoritative, the generation is current, the chain is closed, and the amount is not negative
      and at most what the query returns.  The exception is id 0, which `install` accepts: its chain
      is empty, so any amount that is not negative is admitted.  Of a budget or an ancestor that is not
      installed the query answers zero. */
  lemma QueryAgreesWithAdmission(books: Books, id: Id, amount: int, gen: Gen)
    ensures CanReserve(books, id, amount, gen) <==>
            if id == 0 then Current(books, 0, gen) && books[0].cfg.authoritative && amount >= 0
            else Covered(books, id, amount, gen)
    ensures id !in books || !Closed(ParentsOf(books), ChainOf(books, id)) ==> Available(books, id) == 0
  {
    var ids := ChainOf(books, id);
    StartsAt(books, id);
    hide ChainOf;
    if id != 0 && Closed(ParentsOf(books), ids) {
      MinAvailableBounds(books, ids, amount);
    }
  }

  /** So they agree on all amounts exactly when the id is valid or nothing can be reserved at all. */
  lemma QueryAgreesExactly(books: Books, id: Id, gen: Gen)
    ensures (forall amount :: CanReserve(books, id, amount, gen) <==> Covered(books, id, amount, gen)) <==>
            id != 0 || !Current(books, 0, gen) || !books[0].cfg.authoritative
  {
    hide CanReserve, Available, ChainOf;
    forall amount
      ensures CanReserve(books, id, amount, gen) <==>
              if id == 0 then Current(books, 0, gen) && books[0].cfg.authoritative && amount >= 0
              else Covered(books, id, amount, gen)
    {
      QueryAgreesWithAdmission(books, id, amount, gen);
    }
    var more := Available(books, 0) + 1;
    assert !Covered(books, 0, more, gen);
  }

  /** A budget installed under id 0 admits any amount, beyond its maximum and beyond what the query
      answers, and books none of it. */
  lemma InvalidIdAdmitsAnything(b: Budget, amount: nat)
    requires b.id == 0 && b.authoritative && amount > b.hardMax
    ensures var books := Installed(map[], b);
            && Installable(map[], b) && Available(books, 0) == b.hardMax
            && CanReserve(books, 0, amount, b.generation)
            && Post(books, ChainOf(books, 0), amount, 0) == books
  {
    var books := Installed(map[], b);
    StartsAt(books, 0);
    hide ChainOf;
    PostNothing(books, amount, 0);
  }

  // ---- the cap ---------------------------------------------------------------------------

  predicate WithinCap(books: Books) {
    forall b :: b in books ==> books[b].reserved + books[b].used <= books[b].cfg.hardMax
  }

  /** Along a path without repetitions an admitted reservation or activation keeps every cap. */
  lemma BookingKeepsCap(books: Books, ids: seq<Id>, r: nat, u: nat)
    requires WithinCap(books) && NoRepeat(ids) && HasCapacity(books, ids, r + u)
    ensures WithinCap(Post(books, ids, r, u))
  {
    forall b | b in books
      ensures var a := Post(books, ids, r, u)[b]; a.reserved + a.used <= a.cfg.hardMax
    {
      PostTouchesExactlyChain(books, ids, r, u, b);
    }
  }

  lemma UnbookingKeepsCap(books: Books, ids: seq<Id>, r: int, u: int)
    requires WithinCap(books) && r <= 0 && u <= 0
    ensures WithinCap(Post(books, ids, r, u))
  {
    forall b | b in books
      ensures var a := Post(books, ids, r, u)[b]; a.reserved + a.used <= a.cfg.hardMax
    {
      LoadSign(ids, {b}, r);
      LoadSign(ids, {b}, u);
    }
  }

  /** Exactly when admission guarantees the caps, on any parent graph: the check looks at each
      budget once, the booking is made once per visit, so every budget of the chain must have room
      for the largest admissible amount as often as the chain visits it. */
  lemma AdmissionSafeExactly(books: Books, id: Id, gen: Gen)
    requires WithinCap(books)
    requires Current(books, id, gen) && books[id].cfg.authoritative
    requires Closed(ParentsOf(books), ChainOf(books, id))
    ensures (forall amount :: CanReserve(books, id, amount, gen) ==>
                                WithinCap(Post(books, ChainOf(books, id), amount, 0)))
       <==> (forall b :: b in ChainOf(books, id) ==>
                           Load(ChainOf(books, id), {b}, Available(books, id)) <= OwnAvailable(books[b]))
  {
    hide Chain, MinAvailable;
    var ids := ChainOf(books, id);
    var most := Available(books, id);
    QueryAgreesWithAdmission(books, id, most, gen);
    StartsAt(books, id);
    if forall b :: b in ids ==> Load(ids, {b}, most) <= OwnAvailable(books[b]) {
      forall amount | CanReserve(books, id, amount, gen)
        ensures WithinCap(Post(books, ids, amount, 0))
      {
        QueryAgreesWithAdmission(books, id, amount, gen);
        if id != 0 {
          AmountFits(books, ids, amount, most);
        } else {
          PostNothing(books, amount, 0);
        }
      }
    } else {
      var b :| b in ids && Load(ids, {b}, most) > OwnAvailable(books[b]);
      LoadLinear(ids, {b}, 0, 0);
      var a := Post(books, ids, most, 0)[b];
      assert a.reserved + a.used > a.cfg.hardMax;
      assert !WithinCap(Post(books, ids, most, 0));
    }
  }

  lemma AmountFits(books: Books, ids: seq<Id>, amount: nat, most: nat)
    requires WithinCap(books) && amount <= most
    requires forall b :: b in ids ==> b in books && Load(ids, {b}, most) <= OwnAvailable(books[b])
    ensures WithinCap(Post(books, ids, amount, 0))
  {
    forall b | b in books
      ensures var a := Post(books, ids, amount, 0)[b]; a.reserved + a.used <= a.cfg.hardMax
    {
      LoadMonotone(ids, {b}, amount, most);
      LoadLinear(ids, {b}, 0, 0);
      LoadOne(ids, b, amount);
    }
  }

  /** `install` checks no cycle.  A budget that names itself as parent admits a reservation of its
      whole capacity and then carries it once per visit of the guard. */
  lemma CyclicBudgetOverbooks(b: Budget)
    requires b.id != 0 && b.parent == Some(b.id) && b.authoritative && b.hardMax > 0
    ensures var books := Installed(map[], b);
            && WithinCap(books) && CanReserve(books, b.id, b.hardMax, b.generation)
            && !WithinCap(Post(books, ChainOf(books, b.id), b.hardMax, 0))
  {
    var books := Installed(map[], b);
    SelfChain(ParentsOf(books), b.id, MAX_CHAIN, b.hardMax);
    var ids := ChainOf(books, b.id);
    LoadLinear(ids, {b.id}, 0, 0);
    var a := Post(books, ids, b.hardMax, 0)[b.id];
    assert a.reserved > a.cfg.hardMax;
  }

  lemma {:induction false} SelfChain(parents: Parents, id: Id, n: nat, amount: nat)
    requires id != 0 && parents == map[id := Some(id)]
    ensures var c := ChainFrom(parents, Some(id), n);
            && (forall x :: x in c ==> x == id)
            && (n > 0 ==> Load(c, {id}, amount) >= amount)
            && (n > 1 ==> Load(c, {id}, amount) >= 2 * amount)
    decreases n
  {
    if n > 0 {
      SelfChain(parents, id, n - 1, amount);
      var c, d := ChainFrom(parents, Some(id), n), ChainFrom(parents, Some(id), n - 1);
      assert c == [id] + d && c[1..] == d;
      LoadMonotone(d, {id}, 0, amount);
    }
  }

  /** Exactly which ancestors a booking reaches: the guard of `chain` cuts the walk, so on a path
      that ends, the k-th ancestor is booked if and only if k is below the guard. */
  lemma AncestorBookedExactly(parents: Parents, id: Id, k: nat, a: Id, n: nat)
    requires Up(parents, Some(id), n) == None && Up(parents, Some(id), k) == Some(a)
    ensures a in Chain(parents, id) <==> k < MAX_CHAIN
  {
    hide Chain, ChainFrom, Up;
    var m: nat :| m == MAX_CHAIN;
    ChainDef(parents, id, m);
    var ids := Chain(parents, id);
    ChainAt(parents, Some(id), m, k);
    if a in ids {
      var i :| 0 <= i < |ids| && ids[i] == a;
      ChainAt(parents, Some(id), m, i);
      WalkDistinct(parents, Some(id), i + k + 1, n);
      ChainAt(parents, Some(id), i + k + 1, i);
      ChainAt(parents, Some(id), i + k + 1, k);
      assert i == k;
    }
  }
}
