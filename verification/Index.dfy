/** The secondary reservation index: lists of ids by budget, by workload and by lifecycle phase. */
module Index {
  import opened Basics
  import opened Tree
  import opened Reservations

  datatype Meta = Meta(budget: Id, workload: Id, phase: Phase)

  type Lists<!K> = map<K, seq<Id>>

  datatype Entries = Entries(
    members: map<Id, Meta>, byBudget: Lists<Id>, byWorkload: Lists<Id>, byPhase: Lists<Phase>)

  const NOTHING: Entries := Entries(map[], map[], map[], map[])

  function Lookup<K>(m: Lists<K>, k: K): seq<Id> { if k in m then m[k] else [] }

  /** Erase the first occurrence. */
  function Without(v: seq<Id>, id: Id): seq<Id>
    decreases |v|
  {
    if v == [] then []
    else if v[0] == id then v[1..]
    else [v[0]] + Without(v[1..], id)
  }

  function Pushed<K>(m: Lists<K>, k: K, id: Id): Lists<K> { m[k := Lookup(m, k) + [id]] }
  function Erased<K>(m: Lists<K>, k: K, id: Id): Lists<K> { m[k := Without(Lookup(m, k), id)] }

  function Added(e: Entries, id: Id, meta: Meta): Entries {
    if id == 0 then e
    else Entries(e.members[id := meta], Pushed(e.byBudget, meta.budget, id),
                 Pushed(e.byWorkload, meta.workload, id), Pushed(e.byPhase, meta.phase, id))
  }

  function Unlisted(e: Entries, id: Id): Entries
    requires id in e.members
  {
    var m := e.members[id];
    Entries(e.members, Erased(e.byBudget, m.budget, id), Erased(e.byWorkload, m.workload, id),
            Erased(e.byPhase, m.phase, id))
  }

  function Updated(e: Entries, id: Id, meta: Meta): Entries {
    if id !in e.members then Added(e, id, meta)
    else
      var u := Unlisted(e, id);
      Entries(u.members[id := meta], Pushed(u.byBudget, meta.budget, id),
              Pushed(u.byWorkload, meta.workload, id), Pushed(u.byPhase, meta.phase, id))
  }

  function Removed(e: Entries, id: Id): Entries {
    if id !in e.members then e
    else
      var u := Unlisted(e, id);
      u.(members := u.members - {id})
  }

  class ReservationIndex {
    var members: map<Id, Meta>
    var byBudget: Lists<Id>
    var byWorkload: Lists<Id>
    var byPhase: Lists<Phase>

    function Contents(): Entries
      reads this
    {
      Entries(members, byBudget, byWorkload, byPhase)
    }

    constructor ()
      ensures Contents() == NOTHING
    {
      members, byBudget, byWorkload, byPhase := map[], map[], map[], map[];
    }

    method Add(id: Id, meta: Meta)
      modifies this
      ensures Contents() == old(Added(Contents(), id, meta))
    {
      if id == 0 {
        return;
      }
      members := members[id := meta];
      byBudget := byBudget[meta.budget := Lookup(byBudget, meta.budget) + [id]];
      byWorkload := byWorkload[meta.workload := Lookup(byWorkload, meta.workload) + [id]];
      byPhase := byPhase[meta.phase := Lookup(byPhase, meta.phase) + [id]];
    }

    static method RemoveEntry(v: seq<Id>, id: Id) returns (r: seq<Id>)
      ensures r == Without(v, id)
    {
      for i := 0 to |v|
        invariant id !in v[..i]
      {
        if v[i] == id {
          WithoutSplit(v[..i], id, v[i + 1..]);
          assert v == v[..i] + [id] + v[i + 1..];
          return v[..i] + v[i + 1..];
        }
      }
      assert v[..|v|] == v;
      WithoutAbsent(v, id);
      return v;
    }

    method RemoveFromLists(m: Meta, id: Id)
      modifies this`byBudget, this`byWorkload, this`byPhase
      ensures byBudget == old(Erased(byBudget, m.budget, id))
      ensures byWorkload == old(Erased(byWorkload, m.workload, id))
      ensures byPhase == old(Erased(byPhase, m.phase, id))
    {
      var b := RemoveEntry(Lookup(byBudget, m.budget), id);
      byBudget := byBudget[m.budget := b];
      var w := RemoveEntry(Lookup(byWorkload, m.workload), id);
      byWorkload := byWorkload[m.workload := w];
      var p := RemoveEntry(Lookup(byPhase, m.phase), id);
      byPhase := byPhase[m.phase := p];
    }

    method SetState(id: Id, meta: Meta)
      modifies this
      ensures Contents() == old(Updated(Contents(), id, meta))
    {
      if id !in members {
        Add(id, meta);
        return;
      }
      RemoveFromLists(members[id], id);
      members := members[id := meta];
      byBudget := byBudget[meta.budget := Lookup(byBudget, meta.budget) + [id]];
      byWorkload := byWorkload[meta.workload := Lookup(byWorkload, meta.workload) + [id]];
      byPhase := byPhase[meta.phase := Lookup(byPhase, meta.phase) + [id]];
    }

    method Remove(id: Id)
      modifies this
      ensures Contents() == old(Removed(Contents(), id))
    {
      if id !in members {
        return;
      }
      RemoveFromLists(members[id], id);
      members := members - {id};
    }
  }

  lemma {:induction false} WithoutSplit(a: seq<Id>, id: Id, b: seq<Id>)
    requires id !in a
    ensures Without(a + [id] + b, id) == a + b
    decreases |a|
  {
    if a == [] {
      assert a + [id] + b == [id] + b;
    } else {
      assert (a + [id] + b)[1..] == a[1..] + [id] + b;
      WithoutSplit(a[1..], id, b);
    }
  }

  lemma {:induction false} WithoutAbsent(v: seq<Id>, id: Id)
    requires id !in v
    ensures Without(v, id) == v
    decreases |v|
  {
    if v != [] {
      WithoutAbsent(v[1..], id);
    }
  }

  // ---- what the lists mean ---------------------------------------------------------------

  /** The list of k holds each member filed under k exactly once, and nothing else. */
  ghost predicate Faithful<K(!new)>(lists: Lists<K>, filed: map<Id, K>) {
    forall k :: NoRepeat(Lookup(lists, k)) && forall id :: id in Lookup(lists, k) <==> id in filed && filed[id] == k
  }

  function Budgets(m: map<Id, Meta>): map<Id, Id> { map id | id in m :: m[id].budget }
  function Workloads(m: map<Id, Meta>): map<Id, Id> { map id | id in m :: m[id].workload }
  function Phases(m: map<Id, Meta>): map<Id, Phase> { map id | id in m :: m[id].phase }

  ghost predicate Consistent(e: Entries) {
    && Faithful(e.byBudget, Budgets(e.members))
    && Faithful(e.byWorkload, Workloads(e.members))
    && Faithful(e.byPhase, Phases(e.members))
    && 0 !in e.members
  }

  lemma {:induction false} WithoutDistinct(v: seq<Id>, id: Id)
    requires NoRepeat(v)
    ensures NoRepeat(Without(v, id))
    ensures forall x :: x in Without(v, id) <==> x in v && x != id
    decreases |v|
  {
    if v != [] {
      WithoutDistinct(v[1..], id);
      assert v == [v[0]] + v[1..];
      if v[0] != id {
        var w := Without(v[1..], id);
        assert v[0] !in w;
        assert forall x :: x in [v[0]] + w <==> x == v[0] || x in w;
      }
    }
  }

  lemma PushedLists<K(!new)>(lists: Lists<K>, filed: map<Id, K>, k: K, id: Id)
    requires Faithful(lists, filed) && id !in filed
    ensures Faithful(Pushed(lists, k, id), filed[id := k])
  {
    var after := Pushed(lists, k, id);
    assert id !in Lookup(lists, k);
    forall j
      ensures NoRepeat(Lookup(after, j))
      ensures forall x :: x in Lookup(after, j) <==> x in filed[id := k] && filed[id := k][x] == j
    {
      if j == k {
        assert Lookup(after, j) == Lookup(lists, k) + [id];
      } else {
        assert Lookup(after, j) == Lookup(lists, j);
      }
    }
  }

  lemma ErasedLists<K(!new)>(lists: Lists<K>, filed: map<Id, K>, id: Id)
    requires Faithful(lists, filed) && id in filed
    ensures Faithful(Erased(lists, filed[id], id), filed - {id})
  {
    var after := Erased(lists, filed[id], id);
    WithoutDistinct(Lookup(lists, filed[id]), id);
    forall j
      ensures NoRepeat(Lookup(after, j))
      ensures forall x :: x in Lookup(after, j) <==> x in filed - {id} && (filed - {id})[x] == j
    {
      if j != filed[id] {
        assert Lookup(after, j) == Lookup(lists, j);
      }
    }
  }

  lemma AddedConsistent(e: Entries, id: Id, meta: Meta)
    requires Consistent(e) && id !in e.members
    ensures Consistent(Added(e, id, meta))
    ensures Added(e, id, meta).members == if id == 0 then e.members else e.members[id := meta]
  {
    if id == 0 {
      return;
    }
    var m := e.members[id := meta];
    PushedLists(e.byBudget, Budgets(e.members), meta.budget, id);
    PushedLists(e.byWorkload, Workloads(e.members), meta.workload, id);
    PushedLists(e.byPhase, Phases(e.members), meta.phase, id);
    assert Budgets(m) == Budgets(e.members)[id := meta.budget];
    assert Workloads(m) == Workloads(e.members)[id := meta.workload];
    assert Phases(m) == Phases(e.members)[id := meta.phase];
  }

  lemma RemovedConsistent(e: Entries, id: Id)
    requires Consistent(e)
    ensures Consistent(Removed(e, id)) && Removed(e, id).members == e.members - {id}
  {
    if id !in e.members {
      assert e.members - {id} == e.members;
    } else {
      var m := e.members - {id};
      ErasedLists(e.byBudget, Budgets(e.members), id);
      ErasedLists(e.byWorkload, Workloads(e.members), id);
      ErasedLists(e.byPhase, Phases(e.members), id);
      assert Budgets(m) == Budgets(e.members) - {id};
      assert Workloads(m) == Workloads(e.members) - {id};
      assert Phases(m) == Phases(e.members) - {id};
    }
  }

  /** Setting a member is removing it and adding it again. */
  lemma UpdatedConsistent(e: Entries, id: Id, meta: Meta)
    requires Consistent(e) && id in e.members
    ensures Consistent(Updated(e, id, meta)) && Updated(e, id, meta).members == e.members[id := meta]
  {
    RemovedConsistent(e, id);
    AddedConsistent(Removed(e, id), id, meta);
    assert Removed(e, id).members[id := meta] == e.members[id := meta];
    assert Updated(e, id, meta) == Added(Removed(e, id), id, meta);
  }

  // ---- the order of the lists ------------------------------------------------------------

  /** The ids of v by increasing rank. */
  predicate InOrder(v: seq<Id>, rank: map<Id, int>) {
    (forall i :: 0 <= i < |v| ==> v[i] in rank) && forall i, j :: 0 <= i < j < |v| ==> rank[v[i]] < rank[v[j]]
  }

  ghost predicate AllInOrder<K(!new)>(lists: Lists<K>, rank: map<Id, int>) { forall k :: InOrder(Lookup(lists, k), rank) }

  ghost predicate Ordered(e: Entries, rank: map<Id, int>) {
    AllInOrder(e.byBudget, rank) && AllInOrder(e.byWorkload, rank) && AllInOrder(e.byPhase, rank)
  }

  lemma {:induction false} WithoutInOrder(v: seq<Id>, id: Id, rank: map<Id, int>)
    requires InOrder(v, rank)
    ensures InOrder(Without(v, id), rank)
    ensures forall x :: x in Without(v, id) ==> x in v
    decreases |v|
  {
    if v != [] {
      WithoutInOrder(v[1..], id, rank);
      assert forall x :: x in v[1..] ==> x in v && rank[v[0]] < rank[x];
    }
  }

  lemma PushedInOrder<K(!new)>(lists: Lists<K>, filed: map<Id, K>, k: K, id: Id, rank: map<Id, int>, n: int)
    requires Faithful(lists, filed) && id !in filed && AllInOrder(lists, rank)
    requires forall x :: x in rank ==> rank[x] < n
    ensures AllInOrder(Pushed(lists, k, id), rank[id := n])
  {
    var after := Pushed(lists, k, id);
    forall j
      ensures InOrder(Lookup(after, j), rank[id := n])
    {
      assert InOrder(Lookup(lists, j), rank) && id !in Lookup(lists, j);
      assert Lookup(after, j) == if j == k then Lookup(lists, j) + [id] else Lookup(lists, j);
    }
  }

  lemma ErasedInOrder<K(!new)>(lists: Lists<K>, k: K, id: Id, rank: map<Id, int>)
    requires AllInOrder(lists, rank)
    ensures AllInOrder(Erased(lists, k, id), rank)
  {
    var after := Erased(lists, k, id);
    forall j
      ensures InOrder(Lookup(after, j), rank)
    {
      assert InOrder(Lookup(lists, j), rank);
      WithoutInOrder(Lookup(lists, j), id, rank);
      assert Lookup(after, j) == if j == k then Without(Lookup(lists, j), id) else Lookup(lists, j);
    }
  }

  /** What is added goes last. */
  lemma AddedOrdered(e: Entries, id: Id, meta: Meta, rank: map<Id, int>, n: int)
    requires Consistent(e) && id != 0 && id !in e.members && Ordered(e, rank)
    requires forall x :: x in rank ==> rank[x] < n
    ensures Ordered(Added(e, id, meta), rank[id := n])
  {
    PushedInOrder(e.byBudget, Budgets(e.members), meta.budget, id, rank, n);
    PushedInOrder(e.byWorkload, Workloads(e.members), meta.workload, id, rank, n);
    PushedInOrder(e.byPhase, Phases(e.members), meta.phase, id, rank, n);
  }

  /** What is changed goes last, and leaves the others in the order they were in. */
  lemma UpdatedOrdered(e: Entries, id: Id, meta: Meta, rank: map<Id, int>, n: int)
    requires Consistent(e) && id in e.members && Ordered(e, rank)
    requires forall x :: x in rank ==> rank[x] < n
    ensures Ordered(Updated(e, id, meta), rank[id := n])
  {
    var m := e.members[id];
    ErasedInOrder(e.byBudget, m.budget, id, rank);
    ErasedInOrder(e.byWorkload, m.workload, id, rank);
    ErasedInOrder(e.byPhase, m.phase, id, rank);
    RemovedConsistent(e, id);
    hide Ordered, Consistent;
    assert Ordered(Removed(e, id), rank) by { RemovedLists(e, id, rank); }
    assert id != 0 by { ZeroNotListed(e); }
    AddedOrdered(Removed(e, id), id, meta, rank, n);
    assert Updated(e, id, meta) == Added(Removed(e, id), id, meta);
  }

  lemma ZeroNotListed(e: Entries)
    requires Consistent(e)
    ensures 0 !in e.members
  {
  }

  lemma RemovedLists(e: Entries, id: Id, rank: map<Id, int>)
    requires id in e.members
    requires AllInOrder(Erased(e.byBudget, e.members[id].budget, id), rank)
    requires AllInOrder(Erased(e.byWorkload, e.members[id].workload, id), rank)
    requires AllInOrder(Erased(e.byPhase, e.members[id].phase, id), rank)
    ensures Ordered(Removed(e, id), rank)
  {
  }

  // ---- agreement with the canonical table ------------------------------------------------

  predicate Filed(r: Reservation, m: Meta) {
    && m.budget == r.budget && m.workload == r.workload
    && (r.state != EXPIRED ==> m.phase == r.state)
  }

  ghost predicate Agrees(e: Entries, table: Table) {
    && Consistent(e)
    && e.members.Keys == table.Keys
    && forall id :: id in table ==> Filed(table[id], e.members[id])
  }

  /** What a caller of the lookups may rely on. */
  lemma LookupsAreFilters(e: Entries, table: Table, id: Id)
    requires Agrees(e, table)
    ensures forall b :: NoRepeat(Lookup(e.byBudget, b)) &&
                        (id in Lookup(e.byBudget, b) <==> id in table && table[id].budget == b)
    ensures forall w :: NoRepeat(Lookup(e.byWorkload, w)) &&
                        (id in Lookup(e.byWorkload, w) <==> id in table && table[id].workload == w)
    ensures id in table && table[id].state != EXPIRED ==>
              forall p :: id in Lookup(e.byPhase, p) <==> table[id].state == p
    ensures id in table ==> exists p :: id in Lookup(e.byPhase, p)
    ensures forall p, q :: id in Lookup(e.byPhase, p) && id in Lookup(e.byPhase, q) ==> p == q
  {
    if id in table {
      assert id in Lookup(e.byPhase, Phases(e.members)[id]);
    }
  }
}
