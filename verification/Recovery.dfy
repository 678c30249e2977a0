/** `decode_state`: rebuilding a governor from a saved state.  The budgets are installed again, the
    hierarchy is validated, the reservations are restored, and every reservation that held power
    claims it again by replaying a reserve. */
module Recovery {
  import opened Basics
  import opened Codec
  import opened Tree
  import opened Ledger
  import opened Reservations
  import opened Index
  import opened Governor
  import opened Hierarchy
  import opened StateCodec

  function InstallAll(books: Books, bs: seq<Budget>): Option<Books>
    decreases |bs|
  {
    if bs == [] then Some(books)
    else
      var before :- InstallAll(books, bs[..|bs| - 1]);
      var b := bs[|bs| - 1];
      if Installable(before, b) then Some(Installed(before, b)) else None
  }

  predicate Reclaims(books: Books, r: Reservation) {
    Holding(r.state) && r.reservedPower > 0 && r.budget in books
  }

  /** The replayed reserve; its answer is ignored. */
  function Reclaimed(books: Books, r: Reservation): Books {
    if Reclaims(books, r) && CanReserve(books, r.budget, r.reservedPower, r.budgetGeneration)
    then Post(books, ChainOf(books, r.budget), r.reservedPower, 0) else books
  }

  function RestoreOne(g: Gov, r: Reservation): Option<Gov> {
    if r.id in g.table then None
    else Some(Gov(Reclaimed(g.books, r), g.table[r.id := r], Added(g.index, r.id, Meta(r.budget, r.workload, r.state))))
  }

  function RestoreAll(g: Gov, rs: seq<Reservation>): Option<Gov>
    decreases |rs|
  {
    if rs == [] then Some(g)
    else
      var before :- RestoreAll(g, rs[..|rs| - 1]);
      RestoreOne(before, rs[|rs| - 1])
  }

  /** Later meters of the same workload replace earlier ones. */
  function MeterTable(start: map<Id, int>, ms: seq<Meter>): map<Id, int>
    decreases |ms|
  {
    if ms == [] then start
    else MeterTable(start, ms[..|ms| - 1])[ms[|ms| - 1].workload := ms[|ms| - 1].total]
  }

  ghost function RebuiltFrom(g: Gov, bs: seq<Budget>, rs: seq<Reservation>): Option<Gov> {
    var books :- InstallAll(g.books, bs);
    if !Accepted(ParentsOf(books)) then None else RestoreAll(g.(books := books), rs)
  }

  ghost function Rebuilt(g: Gov, s: Saved): Option<Gov> { RebuiltFrom(g, s.budgets, s.reservations) }

  /** The whole of `decode_state`; an exception counts as failure. */
  ghost function Decoded(g: Gov, meters: map<Id, int>, blob: seq<byte>): Option<(Gov, Header, map<Id, int>)> {
    var saved :- ParseState(blob);
    var g' :- Rebuilt(g, saved);
    Some((g', saved.header, MeterTable(meters, saved.meters)))
  }

  // ---- what a decoder that stops half way has done ---------------------------------------

  /** The books once the budget loop has ended, at its bound or earlier. */
  function BudgetsLeft(books: Books, n: nat, s: seq<byte>): Books
    decreases n
  {
    if n == 0 then books
    else
      match ParseBudget(s)
      case None => books
      case Some((b, rest)) => if Installable(books, b) then BudgetsLeft(Installed(books, b), n - 1, rest) else books
  }

  /** The governor once the reservation loop has ended, at its bound or earlier. */
  function ReservationsLeft(g: Gov, n: nat, s: seq<byte>): Gov
    decreases n
  {
    if n == 0 then g
    else
      match ParseReservation(s)
      case None => g
      case Some((r, rest)) =>
        match RestoreOne(g, r)
        case None => g
        case Some(g') => ReservationsLeft(g', n - 1, rest)
  }

  ghost function LedgerLeft(g: Gov, s: seq<byte>): Gov {
    match ParseCount(s)
    case None => g
    case Some((nb, s2)) =>
      var after := g.(books := BudgetsLeft(g.books, nb, s2));
      match ParseBudgets(nb, s2)
      case None => after
      case Some((bs, s3)) =>
        if InstallAll(g.books, bs).None? || !Accepted(ParentsOf(after.books)) then after
        else
          match ParseCount(s3)
          case None => after
          case Some((nr, s4)) => ReservationsLeft(after, nr, s4)
  }

  /** What `decode_state` leaves behind, whether it succeeds or not. */
  ghost function Left(g: Gov, blob: seq<byte>): Gov {
    match ParseHeader(blob)
    case None => g
    case Some((_, s)) => LedgerLeft(g, s)
  }

  /** The budgets and reservations of a state, and the bytes after them. */
  function ParseLedger(s: seq<byte>): Option<(seq<Budget>, seq<Reservation>, seq<byte>)> {
    var (nb, s2) :- ParseCount(s);
    var (bs, s3) :- ParseBudgets(nb, s2);
    var (nr, s4) :- ParseCount(s3);
    var (rs, s5) :- ParseReservations(nr, s4);
    Some((bs, rs, s5))
  }

  lemma ParseStateParts(s: seq<byte>)
    ensures ParseState(s) ==
            match ParseHeader(s)
            case None => None
            case Some((header, s1)) =>
              match ParseLedger(s1)
              case None => None
              case Some((bs, rs, s5)) =>
                match ParseCount(s5)
                case None => None
                case Some((nm, s6)) =>
                  match ParseMeters(nm, s6)
                  case None => None
                  case Some((ms, s7)) => if s7 != [] then None else Some(Saved(header, bs, rs, ms))
  {
    hide ParseHeader, ParseCount, ParseBudgets, ParseReservations, ParseMeters;
  }

  // ---- the decoder -----------------------------------------------------------------------

  method DecodeBudgets(rd: Reader, budgets: BudgetManager, n: nat) returns (ok: bool, ghost bs: seq<Budget>)
    requires rd.Valid() && Keyed(budgets.states)
    modifies rd, budgets
    ensures rd.Valid() && Keyed(budgets.states)
    ensures budgets.states == old(BudgetsLeft(budgets.states, n, rd.data[rd.pos..]))
    ensures ok ==> ParseBudgets(n, rd.data[old(rd.pos)..]) == Some((bs, rd.data[rd.pos..]))
    ensures ok ==> InstallAll(old(budgets.states), bs) == Some(budgets.states)
    ensures !ok ==> match ParseBudgets(n, rd.data[old(rd.pos)..])
                    case None => true
                    case Some((all, _)) => InstallAll(old(budgets.states), all).None?
  {
    hide ParseBudget;
    bs := [];
    ghost var from := rd.data[rd.pos..];
    assert ParseBudgets(n, from).Some? ==> bs + ParseBudgets(n, from).value.0 == ParseBudgets(n, from).value.0;
    for i := 0 to n
      invariant rd.Valid() && Keyed(budgets.states)
      invariant BudgetsLeft(budgets.states, n - i, rd.data[rd.pos..]) == old(BudgetsLeft(budgets.states, n, rd.data[rd.pos..]))
      invariant |bs| == i && InstallAll(old(budgets.states), bs) == Some(budgets.states)
      invariant match ParseBudgets(n - i, rd.data[rd.pos..])
                case None => ParseBudgets(n, from).None?
                case Some((more, rest)) => ParseBudgets(n, from) == Some((bs + more, rest))
    {
      var b := GetBudget(rd);
      if b == None {
        return false, bs;
      }
      ghost var more := ParseBudgets(n - i - 1, rd.data[rd.pos..]);
      if more.Some? {
        assert bs + ([b.value] + more.value.0) == bs + [b.value] + more.value.0;
      }
      assert (bs + [b.value])[..i] == bs;
      bs := bs + [b.value];
      ok := budgets.Install(b.value);
      if !ok {
        if more.Some? {
          InstallStuck(old(budgets.states), bs, more.value.0);
        }
        return;
      }
    }
    assert bs + [] == bs;
    ok := true;
  }

  lemma {:induction false} InstallStuck(books: Books, bs: seq<Budget>, more: seq<Budget>)
    requires InstallAll(books, bs).None?
    ensures InstallAll(books, bs + more).None?
    decreases |more|
  {
    if more == [] {
      assert bs + more == bs;
    } else {
      InstallStuck(books, bs, more[..|more| - 1]);
      assert (bs + more)[..|bs + more| - 1] == bs + more[..|more| - 1];
    }
  }

  lemma RestoreNone(g: Gov)
    ensures RestoreAll(g, []) == Some(g)
  {}

  lemma RestoreSnoc(g: Gov, rs: seq<Reservation>, r: Reservation)
    ensures RestoreAll(g, rs + [r]) ==
            match RestoreAll(g, rs)
            case None => None
            case Some(before) => RestoreOne(before, r)
  {
    hide RestoreOne;
    assert (rs + [r])[..|rs|] == rs;
  }

  method DecodeReservations(rd: Reader, gov: Governor, n: nat) returns (ok: bool, ghost rs: seq<Reservation>)
    requires rd.Valid()
    modifies rd, gov.budgets, gov.reservations, gov.index
    ensures rd.Valid()
    ensures gov.State() == old(ReservationsLeft(gov.State(), n, rd.data[rd.pos..]))
    ensures ok ==> ParseReservations(n, rd.data[old(rd.pos)..]) == Some((rs, rd.data[rd.pos..]))
    ensures ok ==> RestoreAll(old(gov.State()), rs) == Some(gov.State())
    ensures !ok ==> match ParseReservations(n, rd.data[old(rd.pos)..])
                    case None => true
                    case Some((all, _)) => RestoreAll(old(gov.State()), all).None?
  {
    hide ParseReservation, RestoreOne, RestoreAll;
    rs := [];
    RestoreNone(gov.State());
    ghost var from := rd.data[rd.pos..];
    assert ParseReservations(n, from).Some? ==> rs + ParseReservations(n, from).value.0 == ParseReservations(n, from).value.0;
    for i := 0 to n
      invariant rd.Valid()
      invariant ReservationsLeft(gov.State(), n - i, rd.data[rd.pos..]) == old(ReservationsLeft(gov.State(), n, rd.data[rd.pos..]))
      invariant |rs| == i && RestoreAll(old(gov.State()), rs) == Some(gov.State())
      invariant match ParseReservations(n - i, rd.data[rd.pos..])
                case None => ParseReservations(n, from).None?
                case Some((more, rest)) => ParseReservations(n, from) == Some((rs + more, rest))
    {
      var r := GetReservation(rd);
      if r == None {
        return false, rs;
      }
      ghost var more := ParseReservations(n - i - 1, rd.data[rd.pos..]);
      if more.Some? {
        assert rs + ([r.value] + more.value.0) == rs + [r.value] + more.value.0;
      }
      RestoreSnoc(old(gov.State()), rs, r.value);
      rs := rs + [r.value];
      ok := RestoreInto(gov, r.value);
      if !ok {
        if more.Some? {
          RestoreStuck(old(gov.State()), rs, more.value.0);
        }
        return;
      }
    }
    assert rs + [] == rs;
    ok := true;
  }

  /** The body of the reservation loop. */
  method RestoreInto(gov: Governor, r: Reservation) returns (ok: bool)
    modifies gov.budgets, gov.reservations, gov.index
    ensures ok <==> old(RestoreOne(gov.State(), r)).Some?
    ensures if ok then old(RestoreOne(gov.State(), r)) == Some(gov.State()) else gov.State() == old(gov.State())
  {
    hide Added, Post, ChainOf, CanReserve;
    ok := gov.reservations.Restore(r);
    if !ok {
      return;
    }
    gov.index.Add(r.id, Meta(r.budget, r.workload, r.state));
    if (r.state == RESERVED || r.state == ACTIVE || r.state == ADMITTED) && r.reservedPower > 0
      && r.budget in gov.budgets.states {
      var _ := gov.budgets.Reserve(r.budget, r.reservedPower, r.budgetGeneration);
    }
  }

  lemma {:induction false} RestoreStuck(g: Gov, rs: seq<Reservation>, more: seq<Reservation>)
    requires RestoreAll(g, rs).None?
    ensures RestoreAll(g, rs + more).None?
    decreases |more|
  {
    if more == [] {
      assert rs + more == rs;
    } else {
      RestoreStuck(g, rs, more[..|more| - 1]);
      assert (rs + more)[..|rs + more| - 1] == rs + more[..|more| - 1];
    }
  }

  method DecodeMeters(rd: Reader, start: map<Id, int>, n: nat) returns (r: Option<map<Id, int>>, ghost ms: seq<Meter>)
    requires rd.Valid()
    modifies rd
    ensures rd.Valid()
    ensures r.Some? ==> ParseMeters(n, rd.data[old(rd.pos)..]) == Some((ms, rd.data[rd.pos..]))
    ensures r.Some? ==> r.value == MeterTable(start, ms)
    ensures r.None? ==> ParseMeters(n, rd.data[old(rd.pos)..]).None?
  {
    hide ParseMeter;
    ms := [];
    var meters := start;
    ghost var from := rd.data[rd.pos..];
    assert ParseMeters(n, from).Some? ==> ms + ParseMeters(n, from).value.0 == ParseMeters(n, from).value.0;
    for i := 0 to n
      invariant rd.Valid()
      invariant |ms| == i && meters == MeterTable(start, ms)
      invariant match ParseMeters(n - i, rd.data[rd.pos..])
                case None => ParseMeters(n, from).None?
                case Some((more, rest)) => ParseMeters(n, from) == Some((ms + more, rest))
    {
      var m := GetMeter(rd);
      if m == None {
        return None, ms;
      }
      ghost var more := ParseMeters(n - i - 1, rd.data[rd.pos..]);
      if more.Some? {
        assert ms + ([m.value] + more.value.0) == ms + [m.value] + more.value.0;
      }
      assert (ms + [m.value])[..i] == ms;
      ms := ms + [m.value];
      meters := meters[m.value.workload := m.value.total];
    }
    assert ms + [] == ms;
    r := Some(meters);
  }

  method DecodeLedger(rd: Reader, gov: Governor) returns (ok: bool, ghost bs: seq<Budget>, ghost rs: seq<Reservation>)
    requires rd.Valid() && Keyed(gov.budgets.states)
    modifies rd, gov.budgets, gov.reservations, gov.index
    ensures rd.Valid()
    ensures gov.State() == old(LedgerLeft(gov.State(), rd.data[rd.pos..]))
    ensures ok ==> ParseLedger(rd.data[old(rd.pos)..]) == Some((bs, rs, rd.data[rd.pos..]))
    ensures ok ==> old(RebuiltFrom(gov.State(), bs, rs)) == Some(gov.State())
    ensures !ok ==> match ParseLedger(rd.data[old(rd.pos)..])
                    case None => true
                    case Some((bs, rs, _)) => old(RebuiltFrom(gov.State(), bs, rs)).None?
  {
    hide ParseCount, ParseBudgets, ParseReservations, InstallAll, RestoreAll, Accepted, Keyed, BudgetsLeft, ReservationsLeft;
    bs, rs := [], [];
    var nb := GetCount(rd);
    if nb == None {
      return false, bs, rs;
    }
    ok, bs := DecodeBudgets(rd, gov.budgets, nb.value);
    if !ok {
      return false, bs, rs;
    }
    ok := ValidateBudgetHierarchy(gov.budgets.states);
    if !ok {
      return false, bs, rs;
    }
    var nr := GetCount(rd);
    if nr == None {
      return false, bs, rs;
    }
    ok, rs := DecodeReservations(rd, gov, nr.value);
  }

  method DecodeState(gov: Governor, meters: map<Id, int>, blob: seq<byte>) returns (r: Option<(Header, map<Id, int>)>)
    requires Keyed(gov.budgets.states)
    modifies gov.budgets, gov.reservations, gov.index
    ensures match old(Decoded(gov.State(), meters, blob))
            case None => r.None?
            case Some((g, header, table)) => gov.State() == g && r == Some((header, table))
    ensures gov.State() == old(Left(gov.State(), blob))
  {
    hide ParseState, ParseHeader, ParseCount, ParseLedger, ParseMeters, RebuiltFrom, LedgerLeft, MeterTable,
      Reader.Outlook, Keyed;
    var rd := new Reader(blob, Nil);
    assert blob[0..] == blob;
    ParseStateParts(blob);
    var header :- GetHeader(rd);
    var ok, bs, rs := DecodeLedger(rd, gov);
    if !ok {
      return None;
    }
    var nm :- GetCount(rd);
    var table, ms := DecodeMeters(rd, meters, nm);
    if table == None {
      return None;
    }
    if rd.pos != |rd.data| {
      return None;
    }
    return Some((header, table.value));
  }

  // ---- what is left, said of the bytes ---------------------------------------------------

  lemma {:induction false} InstallFirst(books: Books, b: Budget, bs: seq<Budget>)
    requires Installable(books, b)
    ensures InstallAll(books, [b] + bs) == InstallAll(Installed(books, b), bs)
    decreases |bs|
  {
    hide Installable, Installed;
    if bs == [] {
      assert [b][..0] == [] && [b] + bs == [b];
      assert InstallAll(books, []) == Some(books);
    } else {
      InstallFirst(books, b, bs[..|bs| - 1]);
      assert ([b] + bs)[..|bs|] == [b] + bs[..|bs| - 1];
    }
  }

  lemma {:induction false} RestoreFirst(g: Gov, r: Reservation, rs: seq<Reservation>)
    requires RestoreOne(g, r).Some?
    ensures RestoreAll(g, [r] + rs) == RestoreAll(RestoreOne(g, r).value, rs)
    decreases |rs|
  {
    hide RestoreOne;
    if rs == [] {
      assert [r][..0] == [] && [r] + rs == [r];
      assert RestoreAll(g, []) == Some(g);
    } else {
      RestoreFirst(g, r, rs[..|rs| - 1]);
      assert ([r] + rs)[..|rs|] == [r] + rs[..|rs| - 1];
    }
  }

  /** The budget loop leaves exactly the longest run of definitions that read and install, up to its bound. */
  lemma {:induction false} BudgetsLeftExactly(books: Books, n: nat, s: seq<byte>) returns (bs: seq<Budget>, rest: seq<byte>)
    ensures |bs| <= n && ParseBudgets(|bs|, s) == Some((bs, rest))
    ensures InstallAll(books, bs) == Some(BudgetsLeft(books, n, s))
    ensures |bs| < n ==> match ParseBudget(rest)
                         case None => true
                         case Some((b, _)) => !Installable(BudgetsLeft(books, n, s), b)
    decreases n
  {
    hide ParseBudget, Installable, Installed;
    bs, rest := [], s;
    assert InstallAll(books, []) == Some(books);
    if n > 0 && ParseBudget(s).Some? && Installable(books, ParseBudget(s).value.0) {
      var (b, tail) := ParseBudget(s).value;
      bs, rest := BudgetsLeftExactly(Installed(books, b), n - 1, tail);
      InstallFirst(books, b, bs);
      bs := [b] + bs;
    }
  }

  /** And the reservation loop the longest run of reservations that read and are new. */
  lemma {:induction false} ReservationsLeftExactly(g: Gov, n: nat, s: seq<byte>) returns (rs: seq<Reservation>, rest: seq<byte>)
    ensures |rs| <= n && ParseReservations(|rs|, s) == Some((rs, rest))
    ensures RestoreAll(g, rs) == Some(ReservationsLeft(g, n, s))
    ensures |rs| < n ==> match ParseReservation(rest)
                         case None => true
                         case Some((r, _)) => r.id in ReservationsLeft(g, n, s).table
    decreases n
  {
    hide ParseReservation, Reclaimed, Added;
    rs, rest := [], s;
    assert RestoreAll(g, []) == Some(g);
    if n > 0 && ParseReservation(s).Some? && RestoreOne(g, ParseReservation(s).value.0).Some? {
      var (r, tail) := ParseReservation(s).value;
      rs, rest := ReservationsLeftExactly(RestoreOne(g, r).value, n - 1, tail);
      RestoreFirst(g, r, rs);
      rs := [r] + rs;
    }
  }

  /** Meter i is the last one of its workload. */
  predicate LastMeter(ms: seq<Meter>, workload: Id, i: int) {
    0 <= i < |ms| && ms[i].workload == workload && forall j :: i < j < |ms| ==> ms[j].workload != workload
  }

  /** The table shows the last total of every workload that has one, and what was there before of the others. */
  lemma {:induction false} MetersExactly(start: map<Id, int>, ms: seq<Meter>, workload: Id)
    ensures var table := MeterTable(start, ms);
            && (workload in table <==> workload in start || exists i :: LastMeter(ms, workload, i))
            && (forall i :: LastMeter(ms, workload, i) ==> table[workload] == ms[i].total)
            && (workload in start && (forall i :: !LastMeter(ms, workload, i)) ==> table[workload] == start[workload])
    decreases |ms|
  {
    if ms != [] {
      var n := |ms| - 1;
      MetersExactly(start, ms[..n], workload);
      if ms[n].workload == workload {
        assert LastMeter(ms, workload, n);
      } else {
        forall i
          ensures LastMeter(ms, workload, i) <==> LastMeter(ms[..n], workload, i)
        {
        }
      }
    }
  }
}
