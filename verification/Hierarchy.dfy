/** `validate_budget_hierarchy`: which sets of budgets a recovered state may consist of. */
module Hierarchy {
  import opened Basics
  import opened Tree
  import opened Ledger

  /** Hops the validator follows from the parent of a budget before it gives up. */
  const MAX_HOPS: nat := 256

  /** Every link leads to an installed budget. */
  predicate ClosedLinks(parents: Parents) {
    forall id :: id in parents && Live(parents[id]) ==> parents[id].value in parents
  }

  ghost predicate Acyclic(parents: Parents) {
    forall id, k: nat :: id in parents && k > 0 ==> Up(parents, Some(id), k) != Some(id)
  }

  ghost predicate Accepted(parents: Parents) {
    ClosedLinks(parents) && forall id :: id in parents ==> Up(parents, parents[id], MAX_HOPS) == None
  }

  predicate Keyed(books: Books) {
    forall id :: id in books ==> books[id].cfg.id == id
  }

  function Ids(bs: seq<Budget>): set<Id>
    decreases |bs|
  {
    if bs == [] then {} else Ids(bs[..|bs| - 1]) + {bs[|bs| - 1].id}
  }

  lemma {:induction false} IdAt(bs: seq<Budget>, id: Id) returns (i: nat)
    requires id in Ids(bs)
    ensures i < |bs| && bs[i].id == id
    decreases |bs|
  {
    if bs[|bs| - 1].id == id {
      i := |bs| - 1;
    } else {
      i := IdAt(bs[..|bs| - 1], id);
    }
  }

  lemma {:induction false} IdOf(bs: seq<Budget>, i: nat)
    requires i < |bs|
    ensures bs[i].id in Ids(bs)
    decreases |bs|
  {
    if i < |bs| - 1 {
      IdOf(bs[..|bs| - 1], i);
    }
  }

  /** All definitions, each once, in some order. */
  ghost predicate Snapshot(bs: seq<Budget>, books: Books) {
    && (forall i :: 0 <= i < |bs| ==> bs[i].id in books && books[bs[i].id].cfg == bs[i])
    && (forall i, j :: 0 <= i < j < |bs| ==> bs[i].id != bs[j].id)
    && Ids(bs) == books.Keys
  }

  /** `snapshots`: the order is that of an unordered map. */
  method Snapshots(books: Books) returns (out: seq<Budget>)
    requires Keyed(books)
    ensures Snapshot(out, books)
  {
    out := [];
    var left := books.Keys;
    while left != {}
      invariant left <= books.Keys
      invariant forall i :: 0 <= i < |out| ==> out[i].id in books && out[i].id !in left && books[out[i].id].cfg == out[i]
      invariant forall i, j :: 0 <= i < j < |out| ==> out[i].id != out[j].id
      invariant Ids(out) == books.Keys - left
      decreases left
    {
      var id :| id in left;
      assert (out + [books[id].cfg])[..|out|] == out;
      out := out + [books[id].cfg];
      left := left - {id};
    }
  }

  /** The scan for the budget a link points to. */
  method Find(st: seq<Budget>, books: Books, id: Id) returns (c: Option<Budget>)
    requires Snapshot(st, books) && Keyed(books)
    ensures c == if id in books then Some(books[id].cfg) else None
  {
    for i := 0 to |st|
      invariant id !in Ids(st[..i])
    {
      assert st[..i + 1][..i] == st[..i];
      if st[i].id == id {
        return Some(st[i]);
      }
    }
    assert st[..|st|] == st;
    return None;
  }

  /** The first loop: every parent must exist. */
  method ParentsExist(st: seq<Budget>, books: Books) returns (ok: bool)
    requires Snapshot(st, books) && Keyed(books)
    ensures ok <==> ClosedLinks(ParentsOf(books))
  {
    ghost var parents := ParentsOf(books);
    for i := 0 to |st|
      invariant forall j :: 0 <= j < i && Live(st[j].parent) ==> st[j].parent.value in books
    {
      if Live(st[i].parent) && st[i].parent.value !in books {
        assert parents[st[i].id] == st[i].parent;
        return false;
      }
    }
    forall id | id in parents && Live(parents[id])
      ensures parents[id].value in parents
    {
      var j := IdAt(st, id);
      assert st[j] == books[id].cfg;
    }
    return true;
  }

  method ValidateBudgetHierarchy(books: Books) returns (ok: bool)
    requires Keyed(books)
    ensures ok <==> Accepted(ParentsOf(books))
  {
    hide Up;
    ghost var parents := ParentsOf(books);
    var st := Snapshots(books);
    ok := ParentsExist(st, books);
    if !ok {
      return;
    }
    ok := AllEnd(st, books);
  }

  /** The second loop: every walk must end. */
  method AllEnd(st: seq<Budget>, books: Books) returns (ok: bool)
    requires Snapshot(st, books) && Keyed(books) && ClosedLinks(ParentsOf(books))
    ensures ok <==> Accepted(ParentsOf(books))
  {
    hide Up;
    ghost var parents := ParentsOf(books);
    for i := 0 to |st|
      invariant forall j :: 0 <= j < i ==> Up(parents, parents[st[j].id], MAX_HOPS) == None
    {
      var fits := EndsWithin(st, books, st[i]);
      if !fits {
        return false;
      }
    }
    forall id | id in parents
      ensures Up(parents, parents[id], MAX_HOPS) == None
    {
      var j := IdAt(st, id);
    }
    return true;
  }

  /** The inner walk from one budget towards its root. */
  method EndsWithin(st: seq<Budget>, books: Books, b: Budget) returns (ok: bool)
    requires Snapshot(st, books) && Keyed(books) && b in st && ClosedLinks(ParentsOf(books))
    ensures ok <==> Up(ParentsOf(books), ParentsOf(books)[b.id], MAX_HOPS) == None
  {
    ghost var parents := ParentsOf(books);
    var cur := b.parent;
    var guard := 0;
    assert parents[b.id] == LiveParent(b);
    while Live(cur)
      invariant 0 <= guard <= MAX_HOPS
      invariant Up(parents, parents[b.id], guard) == if Live(cur) then cur else None
      invariant Live(cur) ==> cur.value in books
      decreases MAX_HOPS - guard
    {
      if cur.value == b.id {
        Revisited(parents, b.id, guard);
        return false;
      }
      var c := Find(st, books, cur.value);
      Hop(parents, parents[b.id], guard, cur.value);
      cur := c.value.parent;
      guard := guard + 1;
      if guard > 256 {
        return false;
      }
    }
    UpEnds(parents, parents[b.id], guard, MAX_HOPS);
    return true;
  }

  lemma Hop(parents: Parents, from: Option<Id>, k: nat, id: Id)
    requires Up(parents, from, k) == Some(id) && id in parents && id != 0
    ensures Up(parents, from, k + 1) == if Live(parents[id]) then parents[id] else None
  {
    UpUp(parents, from, k, 1);
    assert Up(parents, Some(id), 1) == Up(parents, parents[id], 0);
  }

  lemma Revisited(parents: Parents, id: Id, k: nat)
    requires id in parents && id != 0 && Up(parents, parents[id], k) == Some(id)
    ensures Up(parents, parents[id], MAX_HOPS) != None
  {
    assert Up(parents, Some(id), k + 1) == Some(id);
    if Up(parents, parents[id], MAX_HOPS) == None {
      var n: nat :| n == MAX_HOPS;
      assert Up(parents, Some(id), n + 1) == None;
      EndsThenNoCycle(parents, id, n + 1, k + 1);
    }
  }

  /** Soundness: what is accepted is a closed forest, in which no budget is its own ancestor at any
      distance. */
  lemma AcceptedIsForest(parents: Parents)
    requires Accepted(parents)
    ensures ClosedLinks(parents) && Acyclic(parents)
  {
    forall id, k: nat | id in parents && k > 0
      ensures Up(parents, Some(id), k) != Some(id)
    {
      if Live(Some(id)) {
        var n: nat :| n == MAX_HOPS;
        assert Up(parents, Some(id), n + 1) == Up(parents, parents[id], n);
        EndsThenNoCycle(parents, id, n + 1, k);
      }
    }
  }

  lemma AcceptedIsRooted(parents: Parents)
    requires Accepted(parents)
    ensures Rooted(parents)
  {
    var n: nat :| n == MAX_HOPS;
    forall id | id in parents
      ensures exists m: nat :: Up(parents, Some(id), m) == None
    {
      assert Up(parents, Some(id), n + 1) == None;
    }
  }

  lemma {:induction false} DistinctFits(s: seq<Id>, S: set<Id>)
    requires NoRepeat(s) && forall x :: x in s ==> x in S
    ensures |s| <= |S|
    decreases |s|
  {
    if s != [] {
      var rest := s[1..];
      assert s[0] !in rest;
      DistinctFits(rest, S - {s[0]});
    }
  }

  lemma {:induction false} StaysInside(parents: Parents, cur: Option<Id>, k: nat)
    requires ClosedLinks(parents) && (Live(cur) ==> cur.value in parents)
    ensures Up(parents, cur, k).Some? ==> Up(parents, cur, k).value in parents
    decreases k
  {
    if Live(cur) && k > 0 {
      StaysInside(parents, parents[cur.value], k - 1);
    }
  }

  /** The budgets above a budget. */
  ghost function Ancestors(parents: Parents, id: Id): set<Id>
    requires id in parents
  {
    set a | a in parents && exists k: nat :: Up(parents, parents[id], k) == Some(a)
  }

  /** On a closed acyclic graph a walk of m + 1 budgets visits that many different ones. */
  lemma LongWalkManyBudgets(parents: Parents, cur: Option<Id>, m: nat, S: set<Id>)
    requires ClosedLinks(parents) && Acyclic(parents) && (Live(cur) ==> cur.value in parents)
    requires Up(parents, cur, m) != None
    requires forall k: nat :: Up(parents, cur, k).Some? ==> Up(parents, cur, k).value in S
    ensures m + 1 <= |S|
  {
    var c := ChainFrom(parents, cur, m + 1);
    ChainAt(parents, cur, m + 1, m);
    forall i | 0 <= i < |c|
      ensures c[i] in S && c[i] in parents
    {
      ChainAt(parents, cur, m + 1, i);
      StaysInside(parents, cur, i);
    }
    forall i, j | 0 <= i < j < |c|
      ensures c[i] != c[j]
    {
      ChainAt(parents, cur, m + 1, i);
      ChainAt(parents, cur, m + 1, j);
      UpUp(parents, cur, i, j - i);
    }
    DistinctFits(c, S);
  }

  lemma {:induction false} ElementsFit(s: seq<Id>, S: set<Id>)
    requires forall x :: x in S ==> x in s
    ensures |S| <= |s|
    decreases |s|
  {
    if s == [] {
      assert S == {};
    } else {
      ElementsFit(s[1..], S - {s[0]});
      assert S <= (S - {s[0]}) + {s[0]};
    }
  }

  lemma ShortWalkFewAncestors(parents: Parents, id: Id, n: nat)
    requires id in parents && Up(parents, parents[id], n) == None
    ensures |Ancestors(parents, id)| <= n
  {
    var cur := parents[id];
    var c := ChainFrom(parents, cur, n);
    forall a | a in Ancestors(parents, id)
      ensures a in c
    {
      var k: nat :| Up(parents, cur, k) == Some(a);
      if k >= n {
        UpEnds(parents, cur, n, k);
      }
      ChainAt(parents, cur, n, k);
    }
    ElementsFit(c, Ancestors(parents, id));
    ChainLength(parents, cur, n);
  }

  lemma {:induction false} ChainLength(parents: Parents, cur: Option<Id>, n: nat)
    ensures |ChainFrom(parents, cur, n)| <= n
    decreases n
  {
    if n > 0 && Live(cur) {
      ChainLength(parents, ParentOf(parents, cur.value), n - 1);
    }
  }

  /** The validator accepts exactly the closed forests in which no budget has more ancestors than the
      hops it follows. */
  lemma AcceptsExactlyForests(parents: Parents)
    ensures Accepted(parents) <==>
            ClosedLinks(parents) && Acyclic(parents) && forall id :: id in parents ==> |Ancestors(parents, id)| <= MAX_HOPS
  {
    var n: nat :| n == MAX_HOPS;
    if Accepted(parents) {
      AcceptedIsForest(parents);
      forall id | id in parents
        ensures |Ancestors(parents, id)| <= n
      {
        ShortWalkFewAncestors(parents, id, n);
      }
    }
    if ClosedLinks(parents) && Acyclic(parents) && forall id :: id in parents ==> |Ancestors(parents, id)| <= n {
      forall id | id in parents
        ensures Up(parents, parents[id], n) == None
      {
        if Up(parents, parents[id], n) != None {
          WalkMeetsAncestors(parents, id);
          LongWalkManyBudgets(parents, parents[id], n, Ancestors(parents, id));
        }
      }
    }
  }

  lemma WalkMeetsAncestors(parents: Parents, id: Id)
    requires ClosedLinks(parents) && id in parents
    ensures forall k: nat :: Up(parents, parents[id], k).Some? ==>
              Up(parents, parents[id], k).value in Ancestors(parents, id)
  {
    forall k: nat | Up(parents, parents[id], k).Some?
      ensures Up(parents, parents[id], k).value in Ancestors(parents, id)
    {
      StaysInside(parents, parents[id], k);
    }
  }

  /** On an accepted graph, a path that fits the chain guard is returned exactly: no repetition,
      every budget installed, every ancestor present, and the last one a root. */
  lemma AcceptedChainIsExact(parents: Parents, id: Id)
    requires Accepted(parents) && id in parents && id != 0
    requires Up(parents, Some(id), MAX_CHAIN) == None
    ensures var c := Chain(parents, id);
            && NoRepeat(c) && Closed(parents, c) && c != [] && c[0] == id
            && !Live(parents[c[|c| - 1]])
            && forall k: nat :: k < |c| <==> Up(parents, Some(id), k).Some?
  {
    var n: nat :| n == MAX_CHAIN;
    ChainDef(parents, id, n);
    hide Chain;
    ChainStart(parents, id);
    WalkDistinct(parents, Some(id), n, n);
    var c := Chain(parents, id);
    forall k: nat
      ensures k < |c| <==> Up(parents, Some(id), k).Some?
      ensures k < |c| ==> c[k] in parents && c[k] != 0 && Up(parents, Some(id), k) == Some(c[k])
    {
      ChainAt(parents, Some(id), n, k);
      StaysInside(parents, Some(id), k);
      UpIsLive(parents, Some(id), k);
      if k >= n {
        UpEnds(parents, Some(id), n, k);
      }
    }
    var last := |c| - 1;
    Hop(parents, Some(id), last, c[last]);
  }
}
