/** The parent graph of the budgets, the chain from a budget towards its root, and sums along
    chains.  Everything here depends on the parent links only, never on amounts booked. */
module Tree {
  import opened Basics

  /** Parent link of every installed budget. */
  type Parents = map<Id, Option<Id>>

  /** The guard of `BudgetManager::chain`: it pushes at most this many budgets. */
  const MAX_CHAIN: nat := 65

  /** `cur && cur->is_valid()` */
  predicate Live(cur: Option<Id>) { cur.Some? && cur.value != 0 }

  function ParentOf(parents: Parents, id: Id): Option<Id> {
    if id in parents then parents[id] else None
  }

  /** The budgets visited from `cur` upwards, at most n of them; a link to a budget that is not
      installed is visited and ends the walk. */
  function ChainFrom(parents: Parents, cur: Option<Id>, n: nat): seq<Id>
    decreases n
  {
    if n == 0 || !Live(cur) then []
    else [cur.value] + ChainFrom(parents, ParentOf(parents, cur.value), n - 1)
  }

  function Chain(parents: Parents, id: Id): seq<Id> {
    ChainFrom(parents, Some(id), MAX_CHAIN)
  }

  /** The chain under a name for the guard: a proof about chains takes `var n: nat :| n == MAX_CHAIN`
      and hides `Chain`, because the verifier would unroll a recursion on the literal 65 times. */
  lemma ChainDef(parents: Parents, id: Id, n: nat)
    requires n == MAX_CHAIN
    ensures Chain(parents, id) == ChainFrom(parents, Some(id), n)
  {
    hide ChainFrom;
  }

  lemma ChainStart(parents: Parents, id: Id)
    ensures if id == 0 then Chain(parents, id) == [] else |Chain(parents, id)| > 0 && Chain(parents, id)[0] == id
  {
    var n: nat :| n == MAX_CHAIN;
    ChainDef(parents, id, n);
    hide Chain;
  }

  /** Every budget on the chain is installed. */
  predicate Closed(parents: Parents, ids: seq<Id>) {
    forall x :: x in ids ==> x in parents
  }

  /** k links up from cur; None once the walk has ended. */
  function Up(parents: Parents, cur: Option<Id>, k: nat): Option<Id>
    decreases k
  {
    if !Live(cur) then None
    else if k == 0 then cur
    else Up(parents, ParentOf(parents, cur.value), k - 1)
  }

  /** Every path ends within the guard: the graph is a forest and no path is cut short. */
  ghost predicate Shallow(parents: Parents) {
    forall id :: id in parents ==> Up(parents, Some(id), MAX_CHAIN) == None
  }

  /** Every path ends somewhere: the graph is a forest, however deep. */
  ghost predicate Rooted(parents: Parents) {
    forall id :: id in parents ==> exists m: nat :: Up(parents, Some(id), m) == None
  }

  // ---- chains and ancestors --------------------------------------------------------------

  lemma {:induction false} ChainAt(parents: Parents, cur: Option<Id>, n: nat, k: nat)
    ensures k < |ChainFrom(parents, cur, n)| <==> k < n && Up(parents, cur, k).Some?
    ensures k < |ChainFrom(parents, cur, n)| ==> Up(parents, cur, k) == Some(ChainFrom(parents, cur, n)[k])
    decreases n
  {
    if n > 0 && Live(cur) && k > 0 {
      ChainAt(parents, ParentOf(parents, cur.value), n - 1, k - 1);
    }
  }

  lemma {:induction false} UpUp(parents: Parents, cur: Option<Id>, j: nat, k: nat)
    ensures Up(parents, Up(parents, cur, j), k) == Up(parents, cur, j + k)
    decreases j
  {
    if Live(cur) && j > 0 {
      UpUp(parents, ParentOf(parents, cur.value), j - 1, k);
    }
  }

  lemma UpEnds(parents: Parents, cur: Option<Id>, j: nat, k: nat)
    requires j <= k && Up(parents, cur, j) == None
    ensures Up(parents, cur, k) == None
  {
    UpUp(parents, cur, j, k - j);
  }

  lemma {:induction false} UpIsLive(parents: Parents, cur: Option<Id>, k: nat)
    ensures Up(parents, cur, k).Some? ==> Live(Up(parents, cur, k))
    decreases k
  {
    if k > 0 && Live(cur) {
      UpIsLive(parents, ParentOf(parents, cur.value), k - 1);
    }
  }

  /** A budget that is its own ancestor is so arbitrarily far up. */
  lemma {:induction false} CycleRepeats(parents: Parents, id: Id, k: nat, m: nat)
    requires k > 0 && Up(parents, Some(id), k) == Some(id)
    ensures Up(parents, Some(id), m * k) == Some(id)
    decreases m
  {
    if m == 0 {
      assert Live(Some(id));
    } else {
      CycleRepeats(parents, id, k, m - 1);
      UpUp(parents, Some(id), (m - 1) * k, k);
      assert (m - 1) * k + k == m * k;
    }
  }

  /** A walk that ends anywhere never meets its start again. */
  lemma EndsThenNoCycle(parents: Parents, id: Id, n: nat, k: nat)
    requires Up(parents, Some(id), n) == None && k > 0
    ensures Up(parents, Some(id), k) != Some(id)
  {
    if Up(parents, Some(id), k) == Some(id) {
      CycleRepeats(parents, id, k, n + 1);
      assert (n + 1) * k >= n by { Grows(n, k); }
      UpEnds(parents, Some(id), n, (n + 1) * k);
    }
  }

  lemma Grows(n: nat, k: nat)
    requires k > 0
    ensures (n + 1) * k >= n
  {
    assert (n + 1) * k == n * k + k;
    assert n * k >= n;
  }

  ghost predicate NoRepeat(s: seq<Id>) {
    forall i, j :: 0 <= i < j < |s| ==> s[i] != s[j]
  }

  /** On a walk that ends, no budget is visited twice. */
  lemma WalkDistinct(parents: Parents, cur: Option<Id>, n: nat, m: nat)
    requires Up(parents, cur, m) == None
    ensures NoRepeat(ChainFrom(parents, cur, n))
  {
    var c := ChainFrom(parents, cur, n);
    forall i, j | 0 <= i < j < |c|
      ensures c[i] != c[j]
    {
      ChainAt(parents, cur, n, i);
      ChainAt(parents, cur, n, j);
      UpUp(parents, cur, i, j - i);
      UpUp(parents, cur, i, m);
      UpEnds(parents, cur, m, i + m);
      EndsThenNoCycle(parents, c[i], m, j - i);
    }
  }

  lemma ShallowEnds(parents: Parents, id: Id)
    requires Shallow(parents)
    ensures Up(parents, Some(id), MAX_CHAIN) == None
  {
    if id !in parents && id != 0 {
      assert Up(parents, None, MAX_CHAIN - 1) == None;
      assert ParentOf(parents, id) == None;
    }
  }

  /** In a forest of any depth a chain, cut short or not, has no repetitions. */
  lemma RootedChainDistinct(parents: Parents, id: Id)
    requires Rooted(parents)
    ensures NoRepeat(Chain(parents, id))
  {
    var n: nat :| n == MAX_CHAIN;
    ChainDef(parents, id, n);
    hide Chain;
    var m: nat :| Up(parents, Some(id), m) == None by { WalkEnds(parents, id); }
    WalkDistinct(parents, Some(id), n, m);
  }

  lemma WalkEnds(parents: Parents, id: Id)
    requires Rooted(parents)
    ensures exists m: nat :: Up(parents, Some(id), m) == None
  {
    if id !in parents {
      assert Up(parents, Some(id), 1) == None;
    }
  }

  /** In a shallow graph a chain is the duplicate-free path to the root. */
  lemma ChainIsPath(parents: Parents, id: Id)
    requires Shallow(parents)
    ensures NoRepeat(Chain(parents, id))
    ensures forall k: nat :: k < |Chain(parents, id)| <==> Up(parents, Some(id), k).Some?
    ensures forall k: nat :: k < |Chain(parents, id)| ==> Up(parents, Some(id), k) == Some(Chain(parents, id)[k])
  {
    ShallowEnds(parents, id);
    WalkDistinct(parents, Some(id), MAX_CHAIN, MAX_CHAIN);
    forall k: nat
      ensures k < |Chain(parents, id)| <==> Up(parents, Some(id), k).Some?
      ensures k < |Chain(parents, id)| ==> Up(parents, Some(id), k) == Some(Chain(parents, id)[k])
    {
      ChainAt(parents, Some(id), MAX_CHAIN, k);
      if k >= MAX_CHAIN {
        UpEnds(parents, Some(id), MAX_CHAIN, k);
      }
    }
  }

  /** Chains that stay among installed budgets do not notice a new budget, nor any change of the
      links of budgets outside the chain. */
  lemma {:induction false} ChainStable(p: Parents, q: Parents, cur: Option<Id>, n: nat)
    requires forall x :: x in ChainFrom(p, cur, n) ==> x in p && x in q && q[x] == p[x]
    ensures ChainFrom(q, cur, n) == ChainFrom(p, cur, n)
    decreases n
  {
    if n > 0 && Live(cur) {
      assert cur.value == ChainFrom(p, cur, n)[0];
      forall x | x in ChainFrom(p, ParentOf(p, cur.value), n - 1)
        ensures x in p && x in q && q[x] == p[x]
      {
        assert x in ChainFrom(p, cur, n);
      }
      ChainStable(p, q, ParentOf(p, cur.value), n - 1);
    }
  }

  // ---- two graphs that differ in one link ------------------------------------------------

  /** Two graphs over the same budgets that differ in the link of b at most. */
  predicate DifferAt(p: Parents, q: Parents, b: Id) {
    p.Keys == q.Keys && forall x :: x in p && x != b ==> q[x] == p[x]
  }

  /** A walk is the same in both until it has passed b. */
  lemma {:induction false} WalkUntil(p: Parents, q: Parents, b: Id, cur: Option<Id>, k: nat)
    requires DifferAt(p, q, b) && forall j: nat :: j < k ==> Up(p, cur, j) != Some(b)
    ensures Up(q, cur, k) == Up(p, cur, k)
    decreases k
  {
    if k > 0 && Live(cur) {
      assert Up(p, cur, 0) != Some(b);
      var up := ParentOf(p, cur.value);
      forall j: nat | j < k - 1
        ensures Up(p, up, j) != Some(b)
      {
        assert Up(p, cur, j + 1) == Up(p, up, j);
      }
      WalkUntil(p, q, b, up, k - 1);
    }
  }

  /** And so is what it collects. */
  lemma {:induction false} CollectUntil(p: Parents, q: Parents, b: Id, cur: Option<Id>, n: nat)
    requires DifferAt(p, q, b) && forall j: nat :: j + 1 < n ==> Up(p, cur, j) != Some(b)
    ensures ChainFrom(q, cur, n) == ChainFrom(p, cur, n)
    decreases n
  {
    if n > 1 && Live(cur) {
      assert Up(p, cur, 0) != Some(b);
      var up := ParentOf(p, cur.value);
      forall j: nat | j + 1 < n - 1
        ensures Up(p, up, j) != Some(b)
      {
        assert Up(p, cur, j + 1) == Up(p, up, j);
      }
      CollectUntil(p, q, b, up, n - 1);
    }
  }

  /** A walk that meets b after j links collects j + 1 budgets up to b, and then what b's link leads to. */
  lemma {:induction false} CollectThrough(parents: Parents, cur: Option<Id>, j: nat, n: nat, b: Id)
    requires Up(parents, cur, j) == Some(b) && j < n
    ensures ChainFrom(parents, cur, n) ==
            ChainFrom(parents, cur, j + 1) + ChainFrom(parents, ParentOf(parents, b), n - j - 1)
    decreases j
  {
    if j > 0 {
      CollectThrough(parents, ParentOf(parents, cur.value), j - 1, n - 1, b);
    } else {
      assert ChainFrom(parents, ParentOf(parents, b), 0) == [];
      assert ChainFrom(parents, cur, 1) == [b];
    }
  }

  /** The first time a walk meets b, if it does within j links. */
  lemma FirstMeeting(parents: Parents, cur: Option<Id>, b: Id, j: nat) returns (k: nat)
    requires Up(parents, cur, j) == Some(b)
    ensures k <= j && Up(parents, cur, k) == Some(b) && forall i: nat :: i < k ==> Up(parents, cur, i) != Some(b)
  {
    k := 0;
    while Up(parents, cur, k) != Some(b)
      invariant k <= j && forall i: nat :: i < k ==> Up(parents, cur, i) != Some(b)
      decreases j - k
    {
      k := k + 1;
    }
  }

  // ---- loads -----------------------------------------------------------------------------

  /** Amount a booking of `amount` along `ids` puts on the budgets of S, counted once for every
      position of the chain that lies in S. */
  function Load(ids: seq<Id>, S: set<Id>, amount: int): int
    decreases |ids|
  {
    if ids == [] then 0 else (if ids[0] in S then amount else 0) + Load(ids[1..], S, amount)
  }

  lemma {:induction false} LoadConcat(a: seq<Id>, b: seq<Id>, S: set<Id>, amount: int)
    ensures Load(a + b, S, amount) == Load(a, S, amount) + Load(b, S, amount)
    decreases |a|
  {
    if a == [] {
      assert a + b == b;
    } else {
      assert (a + b)[1..] == a[1..] + b;
      LoadConcat(a[1..], b, S, amount);
    }
  }

  lemma {:induction false} LoadLinear(ids: seq<Id>, S: set<Id>, x: int, y: int)
    ensures Load(ids, S, x + y) == Load(ids, S, x) + Load(ids, S, y)
    ensures Load(ids, S, 0) == 0
    ensures Load(ids, S, -x) == -Load(ids, S, x)
    decreases |ids|
  {
    if ids != [] {
      LoadLinear(ids[1..], S, x, y);
    }
  }

  lemma {:induction false} LoadMonotone(ids: seq<Id>, S: set<Id>, x: int, y: int)
    requires x <= y
    ensures Load(ids, S, x) <= Load(ids, S, y)
    ensures 0 <= x ==> 0 <= Load(ids, S, x)
    decreases |ids|
  {
    if ids != [] {
      LoadMonotone(ids[1..], S, x, y);
    }
  }

  lemma {:induction false} LoadUnion(ids: seq<Id>, S: set<Id>, T: set<Id>, amount: int)
    requires S !! T
    ensures Load(ids, S + T, amount) == Load(ids, S, amount) + Load(ids, T, amount)
    decreases |ids|
  {
    if ids != [] {
      LoadUnion(ids[1..], S, T, amount);
    }
  }

  /** Off the chain nothing is booked; on a chain without repetitions the amount is booked once. */
  lemma {:induction false} LoadOne(ids: seq<Id>, b: Id, amount: int)
    ensures b !in ids ==> Load(ids, {b}, amount) == 0
    ensures b in ids && NoRepeat(ids) ==> Load(ids, {b}, amount) == amount
    ensures b in ids && amount >= 0 ==> Load(ids, {b}, amount) >= amount
    decreases |ids|
  {
    if ids != [] {
      LoadOne(ids[1..], b, amount);
      LoadMonotone(ids[1..], {b}, 0, Max(0, amount));
      LoadLinear(ids[1..], {b}, 0, 0);
      if amount >= 0 {
        LoadMonotone(ids[1..], {b}, 0, amount);
      }
      assert NoRepeat(ids) ==> NoRepeat(ids[1..]);
    }
  }

  // ---- sums over holders -----------------------------------------------------------------

  /** A booking: an amount and the budget at the bottom of its chain. */
  datatype Entry = Entry(budget: Id, amount: int)

  /** What all entries together put on the budgets of S. */
  ghost function Sum(parents: Parents, entries: map<Id, Entry>, S: set<Id>): int
    decreases |entries|
  {
    if entries == map[] then 0
    else
      var k :| k in entries;
      Share(parents, entries[k], S) + Sum(parents, entries - {k}, S)
  }

  function Share(parents: Parents, e: Entry, S: set<Id>): int {
    Load(Chain(parents, e.budget), S, e.amount)
  }

  /** The order in which entries are counted does not matter. */
  lemma {:induction false} SumPick(parents: Parents, entries: map<Id, Entry>, S: set<Id>, k: Id)
    requires k in entries
    ensures Sum(parents, entries, S) == Share(parents, entries[k], S) + Sum(parents, entries - {k}, S)
    decreases |entries|
  {
    hide Share;
    var j :| j in entries &&
      Sum(parents, entries, S) == Share(parents, entries[j], S) + Sum(parents, entries - {j}, S);
    if j != k {
      assert |entries - {j}| < |entries| by { Smaller(entries, j); }
      assert |entries - {k}| < |entries| by { Smaller(entries, k); }
      SumPick(parents, entries - {j}, S, k);
      SumPick(parents, entries - {k}, S, j);
      assert entries - {j} - {k} == entries - {k} - {j};
    }
  }

  lemma Smaller(entries: map<Id, Entry>, k: Id)
    requires k in entries
    ensures |entries - {k}| < |entries|
  {
    assert (entries - {k}).Keys == entries.Keys - {k};
    assert |(entries - {k}).Keys| == |entries.Keys| - 1;
  }

  /** Setting one entry. */
  lemma SumSet(parents: Parents, entries: map<Id, Entry>, S: set<Id>, k: Id, e: Entry)
    ensures Sum(parents, entries[k := e], S) == Sum(parents, entries - {k}, S) + Share(parents, e, S)
    ensures Sum(parents, entries[k := e], S) == Sum(parents, entries, S) + Share(parents, e, S)
              - (if k in entries then Share(parents, entries[k], S) else 0)
  {
    hide Share;
    SumPick(parents, entries[k := e], S, k);
    assert entries[k := e] - {k} == entries - {k};
    if k in entries {
      SumPick(parents, entries, S, k);
    } else {
      assert entries - {k} == entries;
    }
  }

  ghost predicate NonNegative(entries: map<Id, Entry>) {
    forall k :: k in entries ==> entries[k].amount >= 0
  }

  lemma {:induction false} SumAtLeast(parents: Parents, entries: map<Id, Entry>, S: set<Id>, k: Id)
    requires NonNegative(entries)
    ensures Sum(parents, entries, S) >= 0
    ensures k in entries ==> Sum(parents, entries, S) >= Share(parents, entries[k], S) >= 0
    decreases |entries|
  {
    if entries != map[] {
      var j :| j in entries && (k in entries ==> j == k);
      SumPick(parents, entries, S, j);
      Smaller(entries, j);
      SumAtLeast(parents, entries - {j}, S, j);
      LoadMonotone(Chain(parents, entries[j].budget), S, 0, entries[j].amount);
    }
  }

  /** Sums only look at the chains of entries that book something. */
  lemma {:induction false} SumStable(p: Parents, q: Parents, entries: map<Id, Entry>, S: set<Id>)
    requires forall k :: k in entries && entries[k].amount != 0 ==>
                           Chain(p, entries[k].budget) == Chain(q, entries[k].budget)
    ensures Sum(p, entries, S) == Sum(q, entries, S)
    decreases |entries|
  {
    hide Chain;
    if entries != map[] {
      var k :| k in entries;
      SumPick(p, entries, S, k);
      SumPick(q, entries, S, k);
      Smaller(entries, k);
      LoadLinear(Chain(p, entries[k].budget), S, 0, 0);
      LoadLinear(Chain(q, entries[k].budget), S, 0, 0);
      SumStable(p, q, entries - {k}, S);
    }
  }

  lemma {:induction false} SumUnion(parents: Parents, entries: map<Id, Entry>, S: set<Id>, T: set<Id>)
    requires S !! T
    ensures Sum(parents, entries, S + T) == Sum(parents, entries, S) + Sum(parents, entries, T)
    decreases |entries|
  {
    if entries != map[] {
      var k :| k in entries;
      SumPick(parents, entries, S, k);
      SumPick(parents, entries, T, k);
      SumPick(parents, entries, S + T, k);
      Smaller(entries, k);
      LoadUnion(Chain(parents, entries[k].budget), S, T, entries[k].amount);
      SumUnion(parents, entries - {k}, S, T);
    }
  }

  lemma {:induction false} SumZero(parents: Parents, entries: map<Id, Entry>, S: set<Id>)
    requires forall k :: k in entries ==> Share(parents, entries[k], S) == 0
    ensures Sum(parents, entries, S) == 0
    decreases |entries|
  {
    hide Share;
    if entries != map[] {
      var k :| k in entries;
      SumPick(parents, entries, S, k);
      Smaller(entries, k);
      SumZero(parents, entries - {k}, S);
    }
  }

  /** A sum of non-negative entries is never negative, and zero at a budget exactly when no entry
      with a positive amount has that budget on its chain. */
  lemma SumVanishes(parents: Parents, entries: map<Id, Entry>, b: Id)
    requires NonNegative(entries)
    ensures Sum(parents, entries, {b}) >= 0
    ensures Sum(parents, entries, {b}) == 0 <==>
            forall k :: k in entries && entries[k].amount > 0 ==> b !in Chain(parents, entries[k].budget)
  {
    hide Chain;
    SumAtLeast(parents, entries, {b}, 0);
    forall k | k in entries
      ensures Sum(parents, entries, {b}) >= Share(parents, entries[k], {b}) >= 0
      ensures Share(parents, entries[k], {b}) == 0 <==>
              (entries[k].amount > 0 ==> b !in Chain(parents, entries[k].budget))
    {
      SumAtLeast(parents, entries, {b}, k);
      LoadOne(Chain(parents, entries[k].budget), b, entries[k].amount);
      LoadLinear(Chain(parents, entries[k].budget), {b}, 0, 0);
    }
    if forall k :: k in entries && entries[k].amount > 0 ==> b !in Chain(parents, entries[k].budget) {
      SumZero(parents, entries, {b});
    }
  }

  /** Sums add up when amounts do. */
  lemma {:induction false} SumSplit(parents: Parents, a: map<Id, Entry>, b: map<Id, Entry>, c: map<Id, Entry>, S: set<Id>)
    requires a.Keys == b.Keys == c.Keys
    requires forall k :: k in a ==> a[k].budget == b[k].budget == c[k].budget && a[k].amount == b[k].amount + c[k].amount
    ensures Sum(parents, a, S) == Sum(parents, b, S) + Sum(parents, c, S)
    decreases |a|
  {
    hide Chain;
    if a != map[] {
      var k :| k in a;
      SumPick(parents, a, S, k);
      SumPick(parents, b, S, k);
      SumPick(parents, c, S, k);
      Smaller(a, k);
      LoadLinear(Chain(parents, a[k].budget), S, b[k].amount, c[k].amount);
      SumSplit(parents, a - {k}, b - {k}, c - {k}, S);
    } else {
      assert b == map[] && c == map[];
    }
  }

  // ---- children --------------------------------------------------------------------------

  /** Every child of b on a walk is followed by b, and every b but the first comes after a child: over the
      first n places the two counts differ by whether b is just out of reach and whether the walk starts there. */
  lemma {:induction false} ChildrenLoad(parents: Parents, cur: Option<Id>, n: nat, S: set<Id>, b: Id, amount: int)
    requires b != 0 && forall c :: c in S <==> c in parents && parents[c] == Some(b)
    ensures Load(ChainFrom(parents, cur, n), S, amount) == Load(ChainFrom(parents, cur, n), {b}, amount)
              + (if Up(parents, cur, n) == Some(b) then amount else 0) - (if cur == Some(b) then amount else 0)
    decreases n
  {
    if n > 0 && Live(cur) {
      var up := ParentOf(parents, cur.value);
      ChildrenLoad(parents, up, n - 1, S, b, amount);
      assert ChainFrom(parents, cur, n)[1..] == ChainFrom(parents, up, n - 1);
    }
  }

  /** The entries exactly d links below b, with what they book. */
  function LinksBelow(parents: Parents, entries: map<Id, Entry>, b: Id, d: nat): map<Id, int> {
    map k | k in entries && Up(parents, Some(entries[k].budget), d) == Some(b) :: entries[k].amount
  }

  ghost function Total(amounts: map<Id, int>): int
    decreases |amounts|
  {
    if amounts == map[] then 0 else var k :| k in amounts; amounts[k] + Total(amounts - {k})
  }

  lemma {:induction false} TotalPick(amounts: map<Id, int>, k: Id)
    requires k in amounts
    ensures Total(amounts) == amounts[k] + Total(amounts - {k})
    decreases |amounts|
  {
    var j :| j in amounts && Total(amounts) == amounts[j] + Total(amounts - {j});
    if j != k {
      TotalPick(amounts - {j}, k);
      TotalPick(amounts - {k}, j);
      assert amounts - {j} - {k} == amounts - {k} - {j};
    }
  }

  lemma {:induction false} SumChildren(parents: Parents, entries: map<Id, Entry>, S: set<Id>, b: Id, n: nat)
    requires n == MAX_CHAIN && b != 0 && forall c :: c in S <==> c in parents && parents[c] == Some(b)
    ensures Sum(parents, entries, S) == Sum(parents, entries, {b})
              + Total(LinksBelow(parents, entries, b, n)) - Total(LinksBelow(parents, entries, b, 0))
    decreases |entries|
  {
    hide Chain;
    if entries == map[] {
      assert LinksBelow(parents, entries, b, n) == LinksBelow(parents, entries, b, 0) == map[];
    } else {
      var k :| k in entries;
      var e, rest := entries[k], entries - {k};
      SumPick(parents, entries, S, k);
      SumPick(parents, entries, {b}, k);
      Smaller(entries, k);
      SumChildren(parents, rest, S, b, n);
      ChainDef(parents, e.budget, n);
      ChildrenLoad(parents, Some(e.budget), n, S, b, e.amount);
      OneMore(parents, entries, b, n, k);
      OneMore(parents, entries, b, 0, k);
    }
  }

  lemma OneMore(parents: Parents, entries: map<Id, Entry>, b: Id, d: nat, k: Id)
    requires k in entries
    ensures Total(LinksBelow(parents, entries, b, d)) == Total(LinksBelow(parents, entries - {k}, b, d))
              + (if Up(parents, Some(entries[k].budget), d) == Some(b) then entries[k].amount else 0)
  {
    var all, rest := LinksBelow(parents, entries, b, d), LinksBelow(parents, entries - {k}, b, d);
    if k in all {
      TotalPick(all, k);
      assert all - {k} == rest;
    } else {
      assert all == rest;
    }
  }

  /** Entries that book nothing count for nothing. */
  lemma {:induction false} TotalZero(amounts: map<Id, int>)
    requires forall k :: k in amounts ==> amounts[k] == 0
    ensures Total(amounts) == 0
    decreases |amounts|
  {
    if amounts != map[] {
      var k :| k in amounts && Total(amounts) == amounts[k] + Total(amounts - {k});
      TotalZero(amounts - {k});
    }
  }

  lemma {:induction false} TotalNonNegative(amounts: map<Id, int>)
    requires forall k :: k in amounts ==> amounts[k] >= 0
    ensures Total(amounts) >= 0
    decreases |amounts|
  {
    if amounts != map[] {
      var k :| k in amounts && Total(amounts) == amounts[k] + Total(amounts - {k});
      TotalNonNegative(amounts - {k});
    }
  }
}
