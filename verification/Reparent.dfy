/** Giving a budget another parent: exactly when conservation survives it. */
module Reparent {
  import opened Basics
  import opened Tree
  import opened Ledger
  import opened Reservations
  import opened Governor
  import opened Conservation

  /** What the walk from cur meets at or below b, and what it collects there, is the same whatever b's
      link is; what it collects beyond is decided by that link. */
  lemma SplitAt(p: Parents, q: Parents, b: Id, cur: Option<Id>, j: nat, n: nat)
    requires DifferAt(p, q, b) && b in p && j + 1 < n
    requires Up(p, cur, j) == Some(b) && forall i: nat :: i < j ==> Up(p, cur, i) != Some(b)
    ensures ChainFrom(p, cur, n) == ChainFrom(p, cur, j + 1) + ChainFrom(p, p[b], n - j - 1)
    ensures ChainFrom(q, cur, n) == ChainFrom(p, cur, j + 1) + ChainFrom(q, q[b], n - j - 1)
  {
    WalkUntil(p, q, b, cur, j);
    CollectThrough(p, cur, j, n, b);
    CollectThrough(q, cur, j, n, b);
    CollectUntil(p, q, b, cur, j + 1);
  }

  /** A walk that never meets w books nothing on it. */
  lemma NeverMet(parents: Parents, cur: Option<Id>, n: nat, w: Id, amount: int)
    requires forall m: nat :: Up(parents, cur, m) != Some(w)
    ensures Load(ChainFrom(parents, cur, n), {w}, amount) == 0
  {
    var ids := ChainFrom(parents, cur, n);
    if w in ids {
      var i: nat :| i < |ids| && ids[i] == w;
      ChainAt(parents, cur, n, i);
    }
    LoadOne(ids, w, amount);
  }

  /** A walk that begins at w books all of it there. */
  lemma MetFirst(parents: Parents, w: Id, n: nat, amount: int)
    requires w != 0 && n > 0 && amount >= 0
    ensures Load(ChainFrom(parents, Some(w), n), {w}, amount) >= amount
  {
    assert ChainFrom(parents, Some(w), n)[0] == w;
    LoadOne(ChainFrom(parents, Some(w), n), w, amount);
  }

  /** b's parent w is lost to b, and to everything that goes on through b. */
  ghost predicate Loses(p: Parents, q: Parents, b: Id, w: Id) {
    DifferAt(p, q, b) && b in p && w != 0 && p[b] == Some(w) && forall m: nat :: Up(q, q[b], m) != Some(w)
  }

  ghost predicate GoesThrough(p: Parents, id: Id, b: Id) {
    exists j: nat :: j + 1 < MAX_CHAIN && Up(p, Some(id), j) == Some(b)
  }

  lemma ShareLost(p: Parents, q: Parents, b: Id, w: Id, e: Entry)
    requires Loses(p, q, b, w) && e.amount >= 0
    ensures Share(q, e, {w}) <= Share(p, e, {w})
    ensures e.amount > 0 && GoesThrough(p, e.budget, b) ==> Share(q, e, {w}) < Share(p, e, {w})
  {
    var n: nat :| n == MAX_CHAIN;
    ChainDef(p, e.budget, n);
    ChainDef(q, e.budget, n);
    hide Chain;
    var cur := Some(e.budget);
    if i: nat :| i + 1 < n && Up(p, cur, i) == Some(b) {
      var j := FirstMeeting(p, cur, b, i);
      SplitAt(p, q, b, cur, j, n);
      var low := ChainFrom(p, cur, j + 1);
      LoadConcat(low, ChainFrom(p, p[b], n - j - 1), {w}, e.amount);
      LoadConcat(low, ChainFrom(q, q[b], n - j - 1), {w}, e.amount);
      NeverMet(q, q[b], n - j - 1, w, e.amount);
      MetFirst(p, w, n - j - 1, e.amount);
    } else {
      CollectUntil(p, q, b, cur, n);
    }
  }

  lemma {:induction false} SumLess(p: Parents, q: Parents, entries: map<Id, Entry>, S: set<Id>, j: Id)
    requires forall k :: k in entries ==> Share(q, entries[k], S) <= Share(p, entries[k], S)
    ensures Sum(q, entries, S) <= Sum(p, entries, S)
    ensures j in entries && Share(q, entries[j], S) < Share(p, entries[j], S) ==>
              Sum(q, entries, S) < Sum(p, entries, S)
    decreases |entries|
  {
    hide Share;
    if entries != map[] {
      var k :| k in entries && (j in entries ==> k == j);
      SumPick(p, entries, S, k);
      SumPick(q, entries, S, k);
      Smaller(entries, k);
      SumLess(p, q, entries - {k}, S, j);
    }
  }

  /** A parent that b has lost carries less by what goes through b. */
  lemma LostAncestorCarriesLess(p: Parents, q: Parents, entries: map<Id, Entry>, b: Id, w: Id, j: Id)
    requires Loses(p, q, b, w) && NonNegative(entries)
    requires j in entries && entries[j].amount > 0 && GoesThrough(p, entries[j].budget, b)
    ensures Sum(q, entries, {w}) < Sum(p, entries, {w})
  {
    hide Loses, GoesThrough, Share;
    forall k | k in entries
      ensures Share(q, entries[k], {w}) <= Share(p, entries[k], {w})
      ensures entries[k].amount > 0 && GoesThrough(p, entries[k].budget, b) ==>
                Share(q, entries[k], {w}) < Share(p, entries[k], {w})
    {
      ShareLost(p, q, b, w, entries[k]);
    }
    SumLess(p, q, entries, {w}, j);
  }

  lemma ThroughInBoth(p: Parents, q: Parents, id: Id, b: Id)
    requires DifferAt(p, q, b) && GoesThrough(p, id, b)
    ensures GoesThrough(q, id, b)
  {
    var i: nat :| i + 1 < MAX_CHAIN && Up(p, Some(id), i) == Some(b);
    var j := FirstMeeting(p, Some(id), b, i);
    WalkUntil(p, q, b, Some(id), j);
  }

  /** With another parent b loses its old one, or would if the change were undone. */
  lemma OneIsLost(p: Parents, q: Parents, b: Id) returns (back: bool, w: Id)
    requires Rooted(p) && DifferAt(p, q, b) && b in p && b != 0
    requires p[b] != q[b] && (p[b].Some? ==> p[b].value != 0) && (q[b].Some? ==> q[b].value != 0)
    ensures if back then Loses(q, p, b, w) else Loses(p, q, b, w)
  {
    back := q[b].Some? && forall m: nat :: Up(p, p[b], m) != q[b];
    if back {
      w := q[b].value;
    } else {
      w := p[b].value;
      forall m: nat
        ensures Up(q, q[b], m) != Some(w)
      {
        if q[b].Some? {
          var i: nat :| Up(p, p[b], i) == q[b];
          NotBackUnder(p, q, b, i, m);
        }
      }
    }
  }

  /** Above its new parent, which was already above it, b does not meet its old parent again. */
  lemma NotBackUnder(p: Parents, q: Parents, b: Id, i: nat, m: nat)
    requires Rooted(p) && DifferAt(p, q, b) && b in p && b != 0
    requires p[b].Some? && q[b].Some? && p[b] != q[b] && Up(p, p[b], i) == q[b]
    ensures Up(q, q[b], m) != p[b]
  {
    var w := p[b].value;
    assert Up(p, p[b], 0) != q[b];
    forall j: nat | j < m
      ensures Up(p, q[b], j) != Some(b)
    {
      assert Up(p, Some(b), i + 1) == Up(p, p[b], i);
      UpUp(p, Some(b), i + 1, j);
      NoWayBack(p, b, i + 1 + j);
    }
    WalkUntil(p, q, b, q[b], m);
    UpUp(p, Some(w), i, m);
    NoWayBack(p, w, i + m);
  }

  lemma NoWayBack(parents: Parents, id: Id, k: nat)
    requires Rooted(parents) && k > 0
    ensures Up(parents, Some(id), k) != Some(id)
  {
    WalkEnds(parents, id);
    var n: nat :| Up(parents, Some(id), n) == None;
    EndsThenNoCycle(parents, id, n, k);
  }

  /** What goes through b is closed, so b's parent is installed. */
  lemma ParentInstalled(books: Books, table: Table, k: Id, b: Id)
    requires Sane(books, table) && k in table && HeldBy(table[k]).amount > 0
    requires GoesThrough(ParentsOf(books), table[k].budget, b) && b in books && LiveParent(books[b].cfg).Some?
    ensures LiveParent(books[b].cfg).value in books
  {
    var p := ParentsOf(books);
    var cur := Some(table[k].budget);
    var j: nat :| j + 1 < MAX_CHAIN && Up(p, cur, j) == Some(b);
    var n: nat :| n == MAX_CHAIN;
    ChainDef(p, table[k].budget, n);
    hide Chain;
    assert WellFormed(books, table[k]);
    CollectThrough(p, cur, j, n, b);
    assert LiveParent(books[b].cfg).value in ChainFrom(p, p[b], n - j - 1) by {
      assert ChainFrom(p, p[b], n - j - 1)[0] == LiveParent(books[b].cfg).value;
    }
  }

  /** The same amounts cannot be right before and after such a loss. */
  lemma NotBothConserved(books: Books, after: Books, table: Table, b: Id, w: Id, k: Id)
    requires Sane(books, table) && k in table && HeldBy(table[k]).amount > 0
    requires after.Keys == books.Keys && forall x :: x in books ==> after[x].reserved == books[x].reserved
    requires Loses(ParentsOf(books), ParentsOf(after), b, w) && GoesThrough(ParentsOf(books), table[k].budget, b)
    ensures !Conserved(books, table) || !Conserved(after, table)
  {
    var p, q := ParentsOf(books), ParentsOf(after);
    assert b in books && LiveParent(books[b].cfg) == Some(w);
    assert k in Held(table) && Held(table)[k] == HeldBy(table[k]);
    HeldNonNegative(books, table);
    hide Chain, Sane, Sum, GoesThrough, Loses;
    ParentInstalled(books, table, k, b);
    LostAncestorCarriesLess(p, q, Held(table), b, w, k);
    assert after[w].reserved == books[w].reserved;
  }

  /** A budget that bears something is moved: some budget's books no longer add up, or something held
      hangs under a parent that is not installed. */
  lemma MovingLoadBreaks(books: Books, table: Table, b: Budget)
    requires Sane(books, table) && Conserved(books, table) && b.id in books && Installable(books, b)
    requires Rooted(ParentsOf(books)) && Bears(ParentsOf(books), table, b.id)
    requires LiveParent(b) != LiveParent(books[b.id].cfg)
    ensures !Sane(Installed(books, b), table) || !Conserved(Installed(books, b), table)
  {
    hide Chain, Sane, Conserved, Rooted, Up, GoesThrough, Loses;
    var after := Installed(books, b);
    var p, q := ParentsOf(books), ParentsOf(after);
    var k := Bearer(p, table, b.id);
    ThroughInBoth(p, q, table[k].budget, b.id);
    var back, w := OneIsLost(p, q, b.id);
    if back && Sane(after, table) {
      NotBothConserved(after, books, table, b.id, w, k);
    } else if !back {
      NotBothConserved(books, after, table, b.id, w, k);
    }
  }

  lemma Bearer(p: Parents, table: Table, b: Id) returns (k: Id)
    requires Bears(p, table, b)
    ensures k in table && HeldBy(table[k]).amount > 0 && GoesThrough(p, table[k].budget, b) && b != 0
  {
    var x, j: nat :| x in table && BearsAt(p, table[x], b, j);
    k := x;
    UpIsLive(p, Some(table[k].budget), j);
  }

  /** Over a forest of any depth an install keeps the books sound exactly when it moves no budget that
      bears something: it installs a new budget, or keeps the parent, or no reservation that holds power
      has the budget on its chain before the guard's last place. */
  lemma ReissueSoundExactly(g: Gov, b: Budget)
    requires Sound(g) && Rooted(ParentsOf(g.books))
    ensures Sound(Step(g, Install(b))) <==> MovesNoLoad(g, Install(b))
  {
    hide Sane, Conserved, Rooted, Bears;
    if MovesNoLoad(g, Install(b)) {
      StepConserves(g, Install(b));
    } else {
      MovingLoadBreaks(g.books, g.table, b);
    }
  }
}
