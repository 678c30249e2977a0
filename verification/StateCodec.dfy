/** `encode_state` / `decode_state`, the byte side: header, budgets, reservations and workload meters
    as little-endian fields with explicit counts.  Power and energy are stored in milli-units. */
module StateCodec {
  import opened Basics
  import opened Codec
  import opened Ledger
  import opened Reservations
  import Tree

  const MAX_COUNT: nat := 100000
  /** `Duration::kMaxNs`, about 146 years. */
  const MAX_DURATION: int := 4611686018427387903

  datatype Header = Header(
    epoch: Gen, boot: Id, node: Id, policyGeneration: Gen, policyName: seq<byte>,
    fleetCap: Option<int>, nodeCap: Option<int>, deviceCap: Option<int>, softTarget: Option<int>)

  datatype Meter = Meter(workload: Id, total: int)

  /** Everything a saved state holds, in file order. */
  datatype Saved = Saved(
    header: Header, budgets: seq<Budget>, reservations: seq<Reservation>, meters: seq<Meter>)

  // ---- what fits the file ----------------------------------------------------------------

  // Identities and generations are uint64, durations int64, and a quantity is written by a cast to
  // int64.
  predicate Word(n: int) { 0 <= n < 0x1_0000_0000_0000_0000 }
  predicate Signed(n: int) { -0x8000_0000_0000_0000 <= n < 0x8000_0000_0000_0000 }
  predicate Quantity(n: int) { 0 <= n < 0x8000_0000_0000_0000 }
  /** What `Duration` can be constructed with; it throws on anything else. */
  predicate Lasts(ns: int) { 0 <= ns <= MAX_DURATION }
  predicate CapFits(c: Option<int>) { c.Some? ==> Quantity(c.value) }

  predicate HeaderFits(h: Header) {
    && Word(h.epoch) && Word(h.boot) && Word(h.node) && Word(h.policyGeneration) && |h.policyName| < 0x1_0000_0000
    && CapFits(h.fleetCap) && CapFits(h.nodeCap) && CapFits(h.deviceCap) && CapFits(h.softTarget)
  }

  predicate BudgetFits(b: Budget) {
    && Word(b.id) && Word(b.generation) && Word(b.domain) && (b.parent.Some? ==> Word(b.parent.value))
    && |b.name| < 0x1_0000_0000
    && Quantity(b.hardMax) && Quantity(b.softTarget) && Quantity(b.minReserve) && Quantity(b.burstAllowance)
    && Lasts(b.burstWindow) && Lasts(b.recovery) && -0x8000_0000 <= b.priority < 0x8000_0000
  }

  predicate ReservationFits(r: Reservation) {
    && Word(r.id) && Word(r.budget) && Word(r.workload) && r.powerClass <= 7
    && Quantity(r.requestedPower) && Quantity(r.requestedEnergy)
    && Word(r.policyGeneration) && Word(r.deviceGeneration) && Word(r.budgetGeneration)
    && Word(r.epoch) && Word(r.boot) && Signed(r.created) && Lasts(r.validity)
    && Quantity(r.reservedPower) && Quantity(r.energyUsed)
  }

  predicate MeterFits(m: Meter) { Word(m.workload) && Quantity(m.total) }

  predicate Fits(s: Saved) {
    && HeaderFits(s.header)
    && |s.budgets| < 0x1_0000_0000 && |s.reservations| < 0x1_0000_0000 && |s.meters| < 0x1_0000_0000
    && (forall i :: 0 <= i < |s.budgets| ==> BudgetFits(s.budgets[i]))
    && (forall i :: 0 <= i < |s.reservations| ==> ReservationFits(s.reservations[i]))
    && (forall i :: 0 <= i < |s.meters| ==> MeterFits(s.meters[i]))
  }

  /** The reader refuses larger counts, the writer does not. */
  predicate Loadable(s: Saved) {
    |s.budgets| <= MAX_COUNT && |s.reservations| <= MAX_COUNT && |s.meters| <= MAX_COUNT
  }

  // ---- records ---------------------------------------------------------------------------

  function PhaseCode(p: Phase): (n: u8)
    ensures n <= 6
  {
    match p
    case PLANNED => 0
    case VALIDATED => 1
    case RESERVED => 2
    case ADMITTED => 3
    case ACTIVE => 4
    case RELEASED => 5
    case EXPIRED => 6
  }

  function PhaseOf(n: u8): Phase {
    if n == 0 then PLANNED else if n == 1 then VALIDATED else if n == 2 then RESERVED
    else if n == 3 then ADMITTED else if n == 4 then ACTIVE else if n == 5 then RELEASED else EXPIRED
  }

  function RawParent(b: Budget): Id { if b.parent.Some? then b.parent.value else 0 }

  /** What of a definition survives the file: an absent parent comes back as the invalid id, the
      policy generation is not stored. */
  function StoredBudget(b: Budget): Budget {
    b.(policyGeneration := 0, parent := Some(RawParent(b)))
  }

  /** What of a reservation survives the file. */
  function StoredReservation(r: Reservation): Reservation {
    r.(scope := 0, activatedAt := 0, releasedAt := 0)
  }

  lemma PhaseRoundTrip(p: Phase)
    ensures PhaseOf(PhaseCode(p)) == p
  {}

  function BudgetKinds(): Kinds {
    Cons(U64Kind, Cons(U64Kind, Cons(U64Kind, Cons(U64Kind, Cons(StrKind, Cons(I64Kind,
    Cons(I64Kind, Cons(I64Kind, Cons(I64Kind, Cons(I64Kind, Cons(I64Kind, Cons(I32Kind,
    Cons(BoolKind, Nil)))))))))))))
  }

  function BudgetFields(b: Budget): Fields
    requires BudgetFits(b)
  {
    Cons(U64(b.id), Cons(U64(b.generation), Cons(U64(b.domain), Cons(U64(RawParent(b)),
    Cons(Str(b.name), Cons(I64(b.hardMax), Cons(I64(b.softTarget), Cons(I64(b.minReserve),
    Cons(I64(b.burstAllowance), Cons(I64(b.burstWindow), Cons(I64(b.recovery), Cons(I32(b.priority),
    Cons(Bool(b.authoritative), Nil)))))))))))))
  }

  function ReservationKinds(): Kinds {
    Cons(U64Kind, Cons(U64Kind, Cons(U64Kind, Cons(U8Kind, Cons(I64Kind, Cons(I64Kind, Cons(U64Kind,
    Cons(U64Kind, Cons(U64Kind, Cons(U64Kind, Cons(U64Kind, Cons(I64Kind, Cons(I64Kind, Cons(U8Kind,
    Cons(I64Kind, Cons(I64Kind, Nil))))))))))))))))
  }

  function ReservationFields(r: Reservation): Fields
    requires ReservationFits(r)
  {
    Cons(U64(r.id), Cons(U64(r.budget), Cons(U64(r.workload), Cons(U8(r.powerClass),
    Cons(I64(r.requestedPower), Cons(I64(r.requestedEnergy), Cons(U64(r.policyGeneration),
    Cons(U64(r.deviceGeneration), Cons(U64(r.budgetGeneration), Cons(U64(r.epoch), Cons(U64(r.boot),
    Cons(I64(r.created), Cons(I64(r.validity), Cons(U8(PhaseCode(r.state)),
    Cons(I64(r.reservedPower), Cons(I64(r.energyUsed), Nil))))))))))))))))
  }

  function ParseBudget(s: seq<byte>): Option<(Budget, seq<byte>)> {
    match ReadAll(BudgetKinds(), s)
    case Some((
      Cons(U64(id), Cons(U64(generation), Cons(U64(domain), Cons(U64(parent), Cons(Str(name),
      Cons(I64(hardMax), Cons(I64(softTarget), Cons(I64(minReserve), Cons(I64(burst),
      Cons(I64(window), Cons(I64(recovery), Cons(I32(priority), Cons(Bool(auth), Nil))))))))))))), rest)) =>
      if hardMax < 0 || softTarget < 0 || minReserve < 0 || burst < 0 || !Lasts(window) || !Lasts(recovery) then None
      else
        Some((Budget(id, generation, domain, 0, Some(parent), name, hardMax, softTarget, minReserve, burst,
                     window, recovery, priority, auth), rest))
    case _ => None
  }

  function ParseReservation(s: seq<byte>): Option<(Reservation, seq<byte>)> {
    match ReadAll(ReservationKinds(), s)
    case Some((
      Cons(U64(id), Cons(U64(budget), Cons(U64(workload), Cons(U8(cls), Cons(I64(power),
      Cons(I64(energy), Cons(U64(policyGen), Cons(U64(deviceGen), Cons(U64(budgetGen),
      Cons(U64(epoch), Cons(U64(boot), Cons(I64(created), Cons(I64(validity), Cons(U8(state),
      Cons(I64(reserved), Cons(I64(energyUsed), Nil)))))))))))))))), rest)) =>
      if cls > 7 || state > 6 || power < 0 || energy < 0 || !Lasts(validity) || reserved < 0 || energyUsed < 0 then None
      else
        Some((Reservation(id, workload, cls, 0, budget, power, energy, policyGen, deviceGen, budgetGen, epoch,
          boot,
                          created, validity, PhaseOf(state), reserved, energyUsed, 0, 0), rest))
    case _ => None
  }

  lemma BudgetKindsOf(b: Budget)
    requires BudgetFits(b)
    ensures KindsOf(BudgetFields(b)) == BudgetKinds()
  {
    var fs := BudgetFields(b);
    var rest1 := fs.tail.tail.tail.tail;
    var rest2 := rest1.tail.tail.tail.tail;
    var rest3 := rest2.tail.tail.tail.tail;
    FourKinds(rest2.head, rest2.tail.head, rest2.tail.tail.head, rest2.tail.tail.tail.head,
      rest2.tail.tail.tail.tail);
    FourKinds(rest1.head, rest1.tail.head, rest1.tail.tail.head, rest1.tail.tail.tail.head,
      rest1.tail.tail.tail.tail);
    FourKinds(fs.head, fs.tail.head, fs.tail.tail.head, fs.tail.tail.tail.head, fs.tail.tail.tail.tail);
  }

  lemma BudgetRoundTrip(b: Budget, rest: seq<byte>)
    requires BudgetFits(b)
    ensures ParseBudget(EncodeAll(BudgetFields(b)) + rest) == Some((StoredBudget(b), rest))
  {
    hide KindsOf, EncodeAll, ReadAll, ParseBudget;
    BudgetKindsOf(b);
    RoundTrip(BudgetFields(b), rest);
    BudgetRead(EncodeAll(BudgetFields(b)) + rest, rest, b.id, b.generation, b.domain, RawParent(b), b.name,
      b.hardMax, b.softTarget, b.minReserve, b.burstAllowance, b.burstWindow, b.recovery, b.priority,
      b.authoritative);
  }

  lemma ReservationKindsOf(r: Reservation)
    requires ReservationFits(r)
    ensures KindsOf(ReservationFields(r)) == ReservationKinds()
  {
    var fs := ReservationFields(r);
    var rest1 := fs.tail.tail.tail.tail;
    var rest2 := rest1.tail.tail.tail.tail;
    var rest3 := rest2.tail.tail.tail.tail;
    var rest4 := rest3.tail.tail.tail.tail;
    FourKinds(rest3.head, rest3.tail.head, rest3.tail.tail.head, rest3.tail.tail.tail.head,
      rest3.tail.tail.tail.tail);
    FourKinds(rest2.head, rest2.tail.head, rest2.tail.tail.head, rest2.tail.tail.tail.head,
      rest2.tail.tail.tail.tail);
    FourKinds(rest1.head, rest1.tail.head, rest1.tail.tail.head, rest1.tail.tail.tail.head,
      rest1.tail.tail.tail.tail);
    FourKinds(fs.head, fs.tail.head, fs.tail.tail.head, fs.tail.tail.tail.head, fs.tail.tail.tail.tail);
  }

  lemma ReservationRoundTrip(r: Reservation, rest: seq<byte>)
    requires ReservationFits(r)
    ensures ParseReservation(EncodeAll(ReservationFields(r)) + rest) == Some((StoredReservation(r), rest))
  {
    hide KindsOf, EncodeAll, ReadAll, ParseReservation, PhaseCode, PhaseOf;
    ReservationKindsOf(r);
    RoundTrip(ReservationFields(r), rest);
    PhaseRoundTrip(r.state);
    ReservationRead(EncodeAll(ReservationFields(r)) + rest, rest, r.id, r.budget, r.workload, r.powerClass,
      r.requestedPower, r.requestedEnergy, r.policyGeneration, r.deviceGeneration, r.budgetGeneration,
      r.epoch, r.boot, r.created, r.validity, PhaseCode(r.state), r.reservedPower, r.energyUsed);
  }

  // ---- header ----------------------------------------------------------------------------

  function IdentityKinds(): Kinds {
    Cons(U64Kind, Cons(U64Kind, Cons(U64Kind, Cons(U64Kind, Cons(StrKind, Nil)))))
  }

  function IdentityFields(h: Header): Fields
    requires HeaderFits(h)
  {
    Cons(U64(h.epoch), Cons(U64(h.boot), Cons(U64(h.node), Cons(U64(h.policyGeneration),
      Cons(Str(h.policyName), Nil)))))
  }

  /** An optional cap: a flag, and the value if the flag is set. */
  function CapFields(c: Option<int>): Fields
    requires CapFits(c)
  {
    if c.Some? then Cons(Bool(true), Cons(I64(c.value), Nil)) else Cons(Bool(false), Nil)
  }

  function HeaderBytes(h: Header): seq<byte>
    requires HeaderFits(h)
  {
    EncodeAll(IdentityFields(h)) + (EncodeAll(CapFields(h.fleetCap)) + (EncodeAll(CapFields(h.nodeCap)) +
      (EncodeAll(CapFields(h.deviceCap)) + EncodeAll(CapFields(h.softTarget)))))
  }

  function ParseCap(s: seq<byte>): Option<(Option<int>, seq<byte>)> {
    match Read(BoolKind, s)
    case Some((Bool(true), rest)) =>
      (match Read(I64Kind, rest)
       case Some((I64(v), tail)) => if v < 0 then None else Some((Some(v), tail))
       case _ => None)
    case Some((Bool(false), rest)) => Some((None, rest))
    case _ => None
  }

  function ParseHeader(s: seq<byte>): Option<(Header, seq<byte>)> {
    match ReadAll(IdentityKinds(), s)
    case Some((Cons(U64(epoch), Cons(U64(boot), Cons(U64(node), Cons(U64(gen), Cons(Str(name), Nil))))), s1)) =>
      var (fleet, s2) :- ParseCap(s1);
      var (nodeCap, s3) :- ParseCap(s2);
      var (device, s4) :- ParseCap(s3);
      var (soft, s5) :- ParseCap(s4);
      Some((Header(epoch, boot, node, gen, name, fleet, nodeCap, device, soft), s5))
    case _ => None
  }

  lemma CapRoundTrip(c: Option<int>, rest: seq<byte>)
    requires CapFits(c)
    ensures ParseCap(EncodeAll(CapFields(c)) + rest) == Some((c, rest))
  {
    hide Encode, Read;
    if c.Some? {
      var tail := Encode(I64(c.value)) + rest;
      assert EncodeAll(Cons(I64(c.value), Nil)) == Encode(I64(c.value)) + [];
      assert EncodeAll(CapFields(c)) + rest == Encode(Bool(true)) + tail;
      ReadEncoded(Bool(true), tail);
      ReadEncoded(I64(c.value), rest);
    } else {
      assert EncodeAll(CapFields(c)) + rest == Encode(Bool(false)) + rest;
      ReadEncoded(Bool(false), rest);
    }
  }

  lemma IdentityRoundTrip(h: Header, rest: seq<byte>)
    requires HeaderFits(h)
    ensures ReadAll(IdentityKinds(), EncodeAll(IdentityFields(h)) + rest) == Some((IdentityFields(h), rest))
  {
    var fs := IdentityFields(h);
    FourKinds(fs.head, fs.tail.head, fs.tail.tail.head, fs.tail.tail.tail.head, fs.tail.tail.tail.tail);
    assert KindsOf(fs) == IdentityKinds();
    hide KindsOf, EncodeAll, ReadAll;
    RoundTrip(fs, rest);
  }

  lemma HeaderRoundTrip(h: Header, rest: seq<byte>)
    requires HeaderFits(h)
    ensures ParseHeader(HeaderBytes(h) + rest) == Some((h, rest))
  {
    hide EncodeAll, ReadAll, ParseCap, CapFields;
    var a := EncodeAll(IdentityFields(h));
    var b, c := EncodeAll(CapFields(h.fleetCap)), EncodeAll(CapFields(h.nodeCap));
    var d, e := EncodeAll(CapFields(h.deviceCap)), EncodeAll(CapFields(h.softTarget));
    RegroupFive(a, b, c, d, e, rest);
    IdentityRoundTrip(h, b + (c + (d + (e + rest))));
    CapRoundTrip(h.fleetCap, c + (d + (e + rest)));
    CapRoundTrip(h.nodeCap, d + (e + rest));
    CapRoundTrip(h.deviceCap, e + rest);
    CapRoundTrip(h.softTarget, rest);
  }

  lemma RegroupFive(a: seq<byte>, b: seq<byte>, c: seq<byte>, d: seq<byte>, e: seq<byte>, f: seq<byte>)
    ensures (a + (b + (c + (d + e)))) + f == a + (b + (c + (d + (e + f))))
  {}

  // ---- lists -----------------------------------------------------------------------------

  function BudgetsBytes(bs: seq<Budget>): seq<byte>
    requires forall i :: 0 <= i < |bs| ==> BudgetFits(bs[i])
    decreases |bs|
  {
    if bs == [] then [] else EncodeAll(BudgetFields(bs[0])) + BudgetsBytes(bs[1..])
  }

  function ReservationsBytes(rs: seq<Reservation>): seq<byte>
    requires forall i :: 0 <= i < |rs| ==> ReservationFits(rs[i])
    decreases |rs|
  {
    if rs == [] then [] else EncodeAll(ReservationFields(rs[0])) + ReservationsBytes(rs[1..])
  }

  function MeterFields(m: Meter): Fields
    requires MeterFits(m)
  {
    Cons(U64(m.workload), Cons(I64(m.total), Nil))
  }

  function MeterKinds(): Kinds { Cons(U64Kind, Cons(I64Kind, Nil)) }

  function MetersBytes(ms: seq<Meter>): seq<byte>
    requires forall i :: 0 <= i < |ms| ==> MeterFits(ms[i])
    decreases |ms|
  {
    if ms == [] then [] else EncodeAll(MeterFields(ms[0])) + MetersBytes(ms[1..])
  }

  function ParseMeter(s: seq<byte>): Option<(Meter, seq<byte>)> {
    match ReadAll(MeterKinds(), s)
    case Some((Cons(U64(workload), Cons(I64(total), Nil)), rest)) =>
      if total < 0 then None else Some((Meter(workload, total), rest))
    case _ => None
  }

  function ParseBudgets(n: nat, s: seq<byte>): Option<(seq<Budget>, seq<byte>)>
    decreases n
  {
    if n == 0 then Some(([], s))
    else
      var (b, rest) :- ParseBudget(s);
      var (bs, tail) :- ParseBudgets(n - 1, rest);
      Some(([b] + bs, tail))
  }

  function ParseReservations(n: nat, s: seq<byte>): Option<(seq<Reservation>, seq<byte>)>
    decreases n
  {
    if n == 0 then Some(([], s))
    else
      var (r, rest) :- ParseReservation(s);
      var (rs, tail) :- ParseReservations(n - 1, rest);
      Some(([r] + rs, tail))
  }

  function ParseMeters(n: nat, s: seq<byte>): Option<(seq<Meter>, seq<byte>)>
    decreases n
  {
    if n == 0 then Some(([], s))
    else
      var (m, rest) :- ParseMeter(s);
      var (ms, tail) :- ParseMeters(n - 1, rest);
      Some(([m] + ms, tail))
  }

  /** A count above the limit is refused. */
  function ParseCount(s: seq<byte>): (r: Option<(nat, seq<byte>)>)
    ensures r.Some? ==> r.value.0 <= MAX_COUNT
  {
    match Read(U32Kind, s)
    case Some((U32(n), rest)) => if n > MAX_COUNT then None else Some((n, rest))
    case _ => None
  }

  function ParseState(s: seq<byte>): Option<Saved> {
    var (header, s1) :- ParseHeader(s);
    var (nb, s2) :- ParseCount(s1);
    var (budgets, s3) :- ParseBudgets(nb, s2);
    var (nr, s4) :- ParseCount(s3);
    var (reservations, s5) :- ParseReservations(nr, s4);
    var (nm, s6) :- ParseCount(s5);
    var (meters, s7) :- ParseMeters(nm, s6);
    if s7 != [] then None else Some(Saved(header, budgets, reservations, meters))
  }

  function CountBytes(n: nat): seq<byte>
    requires n < 0x1_0000_0000
  {
    EncodeAll(Cons(U32(n), Nil))
  }

  function StateBytes(s: Saved): seq<byte>
    requires Fits(s)
  {
    HeaderBytes(s.header)
      + (CountBytes(|s.budgets|) + (BudgetsBytes(s.budgets)
      + (CountBytes(|s.reservations|) + (ReservationsBytes(s.reservations)
      + (CountBytes(|s.meters|) + MetersBytes(s.meters))))))
  }

  function StoredBudgets(bs: seq<Budget>): (r: seq<Budget>)
    ensures |r| == |bs| && forall i :: 0 <= i < |bs| ==> r[i] == StoredBudget(bs[i])
    decreases |bs|
  {
    if bs == [] then [] else [StoredBudget(bs[0])] + StoredBudgets(bs[1..])
  }

  function StoredReservations(rs: seq<Reservation>): (r: seq<Reservation>)
    ensures |r| == |rs| && forall i :: 0 <= i < |rs| ==> r[i] == StoredReservation(rs[i])
    decreases |rs|
  {
    if rs == [] then [] else [StoredReservation(rs[0])] + StoredReservations(rs[1..])
  }

  /** What of a saved state survives the file. */
  function Stored(s: Saved): Saved {
    Saved(s.header, StoredBudgets(s.budgets), StoredReservations(s.reservations), s.meters)
  }

  // ---- round trip ------------------------------------------------------------------------

  lemma CountRoundTrip(n: nat, rest: seq<byte>)
    requires n < 0x1_0000_0000
    ensures ParseCount(CountBytes(n) + rest) == if n > MAX_COUNT then None else Some((n, rest))
  {
    hide Encode, Read;
    assert EncodeAll(Cons(U32(n), Nil)) == Encode(U32(n)) + [];
    assert CountBytes(n) + rest == Encode(U32(n)) + rest;
    ReadEncoded(U32(n), rest);
  }

  lemma {:induction false} BudgetsRoundTrip(bs: seq<Budget>, rest: seq<byte>)
    requires forall i :: 0 <= i < |bs| ==> BudgetFits(bs[i])
    ensures ParseBudgets(|bs|, BudgetsBytes(bs) + rest) == Some((StoredBudgets(bs), rest))
    decreases |bs|
  {
    hide BudgetFields, BudgetFits, StoredBudget, ParseBudget, EncodeAll;
    if bs == [] {
      assert BudgetsBytes(bs) + rest == rest;
    } else {
      var tail := BudgetsBytes(bs[1..]) + rest;
      assert BudgetsBytes(bs) + rest == EncodeAll(BudgetFields(bs[0])) + tail;
      BudgetRoundTrip(bs[0], tail);
      BudgetsRoundTrip(bs[1..], rest);
      assert |bs[1..]| == |bs| - 1;
    }
  }

  lemma {:induction false} ReservationsRoundTrip(rs: seq<Reservation>, rest: seq<byte>)
    requires forall i :: 0 <= i < |rs| ==> ReservationFits(rs[i])
    ensures ParseReservations(|rs|, ReservationsBytes(rs) + rest) == Some((StoredReservations(rs), rest))
    decreases |rs|
  {
    hide ReservationFields, ReservationFits, StoredReservation, ParseReservation, EncodeAll;
    if rs == [] {
      assert ReservationsBytes(rs) + rest == rest;
    } else {
      var tail := ReservationsBytes(rs[1..]) + rest;
      assert ReservationsBytes(rs) + rest == EncodeAll(ReservationFields(rs[0])) + tail;
      ReservationRoundTrip(rs[0], tail);
      ReservationsRoundTrip(rs[1..], rest);
      assert |rs[1..]| == |rs| - 1;
    }
  }

  lemma MeterRoundTrip(m: Meter, rest: seq<byte>)
    requires MeterFits(m)
    ensures ParseMeter(EncodeAll(MeterFields(m)) + rest) == Some((m, rest))
  {
    var fs := MeterFields(m);
    assert KindsOf(fs.tail) == Cons(I64Kind, Nil);
    assert KindsOf(fs) == MeterKinds();
    hide EncodeAll, KindsOf, ReadAll;
    RoundTrip(fs, rest);
  }

  lemma {:induction false} MetersRoundTrip(ms: seq<Meter>, rest: seq<byte>)
    requires forall i :: 0 <= i < |ms| ==> MeterFits(ms[i])
    ensures ParseMeters(|ms|, MetersBytes(ms) + rest) == Some((ms, rest))
    decreases |ms|
  {
    hide MeterFields, MeterFits, ParseMeter, EncodeAll;
    if ms == [] {
      assert MetersBytes(ms) + rest == rest;
    } else {
      var tail := MetersBytes(ms[1..]) + rest;
      assert MetersBytes(ms) + rest == EncodeAll(MeterFields(ms[0])) + tail;
      MeterRoundTrip(ms[0], tail);
      MetersRoundTrip(ms[1..], rest);
      assert |ms[1..]| == |ms| - 1;
      FirstAndRest(ms);
    }
  }

  lemma FirstAndRest(ms: seq<Meter>)
    requires ms != []
    ensures [ms[0]] + ms[1..] == ms
  {}

  /** Parsing what was written returns it, up to what the file does not store, exactly when the
      counts are within the reader's limit. */
  lemma StateRoundTrip(s: Saved)
    requires Fits(s)
    ensures ParseState(StateBytes(s)) == if Loadable(s) then Some(Stored(s)) else None
  {
    hide HeaderBytes, CountBytes, BudgetsBytes, ReservationsBytes, MetersBytes, HeaderFits, BudgetFits, ReservationFits,
      MeterFits, ParseHeader, ParseCount, ParseBudgets, ParseReservations, ParseMeters, StoredBudgets, StoredReservations;
    var s6 := MetersBytes(s.meters);
    var s5 := CountBytes(|s.meters|) + s6;
    var s4 := ReservationsBytes(s.reservations) + s5;
    var s3 := CountBytes(|s.reservations|) + s4;
    var s2 := BudgetsBytes(s.budgets) + s3;
    var s1 := CountBytes(|s.budgets|) + s2;
    HeaderRoundTrip(s.header, s1);
    CountRoundTrip(|s.budgets|, s2);
    BudgetsRoundTrip(s.budgets, s3);
    CountRoundTrip(|s.reservations|, s4);
    ReservationsRoundTrip(s.reservations, s5);
    CountRoundTrip(|s.meters|, s6);
    assert s6 + [] == s6;
    MetersRoundTrip(s.meters, []);
  }

  // ---- writing ---------------------------------------------------------------------------

  method WriteCap(w: Writer, c: Option<int>)
    requires w.Valid() && w.todo == Nil && CapFits(c)
    modifies w
    ensures w.Valid() && w.todo == Nil && w.buf == old(w.buf) + EncodeAll(CapFields(c))
  {
    hide EncodeAll;
    w.Expect(CapFields(c));
    w.PutBool(c.Some?);
    if c.Some? {
      w.PutI64(c.value);
    }
    var _ := w.Bytes();
  }

  method WriteHeader(w: Writer, h: Header)
    requires w.Valid() && w.todo == Nil && HeaderFits(h)
    modifies w
    ensures w.Valid() && w.todo == Nil && w.buf == old(w.buf) + HeaderBytes(h)
  {
    hide EncodeAll, Writer.Valid, CapFields;
    w.Expect(IdentityFields(h));
    w.PutU64(h.epoch);
    w.PutU64(h.boot);
    w.PutU64(h.node);
    w.PutU64(h.policyGeneration);
    w.PutStr(h.policyName);
    var _ := w.Bytes();
    WriteCap(w, h.fleetCap);
    WriteCap(w, h.nodeCap);
    WriteCap(w, h.deviceCap);
    WriteCap(w, h.softTarget);
  }

  method WriteBudget(w: Writer, b: Budget)
    requires w.Valid() && w.todo == Nil && BudgetFits(b)
    modifies w
    ensures w.Valid() && w.todo == Nil && w.buf == old(w.buf) + EncodeAll(BudgetFields(b))
  {
    hide EncodeAll, Writer.Valid;
    w.Expect(BudgetFields(b));
    w.PutU64(b.id);
    w.PutU64(b.generation);
    w.PutU64(b.domain);
    w.PutU64(if b.parent.Some? && b.parent.value != 0 then b.parent.value else 0);
    w.PutStr(b.name);
    w.PutI64(b.hardMax);
    w.PutI64(b.softTarget);
    w.PutI64(b.minReserve);
    w.PutI64(b.burstAllowance);
    w.PutI64(b.burstWindow);
    w.PutI64(b.recovery);
    w.PutI32(b.priority);
    w.PutBool(b.authoritative);
    var _ := w.Bytes();
  }

  method WriteReservation(w: Writer, r: Reservation)
    requires w.Valid() && w.todo == Nil && ReservationFits(r)
    modifies w
    ensures w.Valid() && w.todo == Nil && w.buf == old(w.buf) + EncodeAll(ReservationFields(r))
  {
    hide EncodeAll, Writer.Valid;
    w.Expect(ReservationFields(r));
    w.PutU64(r.id);
    w.PutU64(r.budget);
    w.PutU64(r.workload);
    w.PutU8(r.powerClass);
    w.PutI64(r.requestedPower);
    w.PutI64(r.requestedEnergy);
    w.PutU64(r.policyGeneration);
    w.PutU64(r.deviceGeneration);
    w.PutU64(r.budgetGeneration);
    w.PutU64(r.epoch);
    w.PutU64(r.boot);
    w.PutI64(r.created);
    w.PutI64(r.validity);
    w.PutU8(PhaseCode(r.state));
    w.PutI64(r.reservedPower);
    w.PutI64(r.energyUsed);
    var _ := w.Bytes();
  }

  method WriteCount(w: Writer, n: nat)
    requires w.Valid() && w.todo == Nil && n < 0x1_0000_0000
    modifies w
    ensures w.Valid() && w.todo == Nil && w.buf == old(w.buf) + CountBytes(n)
  {
    hide EncodeAll, Writer.Valid;
    w.Expect(Cons(U32(n), Nil));
    w.PutU32(n);
    var _ := w.Bytes();
  }

  method WriteBudgets(w: Writer, bs: seq<Budget>)
    requires w.Valid() && w.todo == Nil && forall i :: 0 <= i < |bs| ==> BudgetFits(bs[i])
    modifies w
    ensures w.Valid() && w.todo == Nil && w.buf == old(w.buf) + BudgetsBytes(bs)
  {
    hide EncodeAll, Writer.Valid, BudgetFields, BudgetFits;
    for i := 0 to |bs|
      invariant w.Valid() && w.todo == Nil
      invariant w.buf + BudgetsBytes(bs[i..]) == old(w.buf) + BudgetsBytes(bs)
    {
      assert bs[i..][1..] == bs[i + 1..];
      WriteBudget(w, bs[i]);
    }
  }

  method WriteReservations(w: Writer, rs: seq<Reservation>)
    requires w.Valid() && w.todo == Nil && forall i :: 0 <= i < |rs| ==> ReservationFits(rs[i])
    modifies w
    ensures w.Valid() && w.todo == Nil && w.buf == old(w.buf) + ReservationsBytes(rs)
  {
    hide EncodeAll, Writer.Valid, ReservationFields, ReservationFits;
    for i := 0 to |rs|
      invariant w.Valid() && w.todo == Nil
      invariant w.buf + ReservationsBytes(rs[i..]) == old(w.buf) + ReservationsBytes(rs)
    {
      assert rs[i..][1..] == rs[i + 1..];
      WriteReservation(w, rs[i]);
    }
  }

  method WriteMeters(w: Writer, ms: seq<Meter>)
    requires w.Valid() && w.todo == Nil && forall i :: 0 <= i < |ms| ==> MeterFits(ms[i])
    modifies w
    ensures w.Valid() && w.todo == Nil && w.buf == old(w.buf) + MetersBytes(ms)
  {
    hide EncodeAll, Writer.Valid, MeterFields, MeterFits;
    for i := 0 to |ms|
      invariant w.Valid() && w.todo == Nil
      invariant w.buf + MetersBytes(ms[i..]) == old(w.buf) + MetersBytes(ms)
    {
      assert ms[i..][1..] == ms[i + 1..];
      WriteMeter(w, ms[i]);
    }
  }

  /** `encode_state`, for a snapshot of the governor. */
  method EncodeState(s: Saved) returns (r: seq<byte>)
    requires Fits(s)
    ensures r == StateBytes(s)
  {
    hide EncodeAll, Writer.Valid, HeaderBytes, CountBytes, HeaderFits, BudgetsBytes, ReservationsBytes, MetersBytes,
      BudgetFits, ReservationFits, MeterFits;
    var w := new Writer(Nil);
    WriteHeader(w, s.header);
    WriteCount(w, |s.budgets|);
    WriteBudgets(w, s.budgets);
    WriteCount(w, |s.reservations|);
    WriteReservations(w, s.reservations);
    WriteCount(w, |s.meters|);
    WriteMeters(w, s.meters);
    r := w.Bytes();
    Regroup(HeaderBytes(s.header), CountBytes(|s.budgets|), BudgetsBytes(s.budgets), CountBytes(|s.reservations|),
            ReservationsBytes(s.reservations), CountBytes(|s.meters|), MetersBytes(s.meters));
  }

  lemma Regroup(a: seq<byte>, b: seq<byte>, c: seq<byte>, d: seq<byte>, e: seq<byte>, f: seq<byte>, g: seq<byte>)
    ensures [] + a + b + c + d + e + f + g == a + (b + (c + (d + (e + (f + g)))))
  {}

  method WriteMeter(w: Writer, m: Meter)
    requires w.Valid() && w.todo == Nil && MeterFits(m)
    modifies w
    ensures w.Valid() && w.todo == Nil && w.buf == old(w.buf) + EncodeAll(MeterFields(m))
  {
    hide EncodeAll, Writer.Valid;
    w.Expect(MeterFields(m));
    w.PutU64(m.workload);
    w.PutI64(m.total);
    var _ := w.Bytes();
  }

  // ---- reading ---------------------------------------------------------------------------

  method GetCap(rd: Reader) returns (r: Option<Option<int>>)
    requires rd.Valid()
    modifies rd
    ensures rd.Valid()
    ensures match ParseCap(rd.data[old(rd.pos)..])
            case None => r.None?
            case Some((c, rest)) => r == Some(c) && rest == rd.data[rd.pos..]
  {
    hide Read;
    rd.Expect(Cons(BoolKind, Nil));
    var has :- rd.GetBool();
    if !has {
      return Some(None);
    }
    rd.Expect(Cons(I64Kind, Nil));
    var v :- rd.GetI64();
    if v < 0 {
      return None;
    }
    return Some(Some(v));
  }

  method GetHeader(rd: Reader) returns (r: Option<Header>)
    requires rd.Valid()
    modifies rd
    ensures rd.Valid()
    ensures match ParseHeader(rd.data[old(rd.pos)..])
            case None => r.None?
            case Some((h, rest)) => r == Some(h) && rest == rd.data[rd.pos..]
  {
    hide ReadAll, Reader.Outlook, ParseCap;
    rd.Expect(IdentityKinds());
    var epoch :- rd.GetU64();
    var boot :- rd.GetU64();
    var node :- rd.GetU64();
    var gen :- rd.GetU64();
    var name :- rd.GetStr();
    var _ := rd.AtEnd();
    var fleet :- GetCap(rd);
    var nodeCap :- GetCap(rd);
    var device :- GetCap(rd);
    var soft :- GetCap(rd);
    return Some(Header(epoch, boot, node, gen, name, fleet, nodeCap, device, soft));
  }

  method GetCount(rd: Reader) returns (r: Option<nat>)
    requires rd.Valid()
    modifies rd
    ensures rd.Valid()
    ensures match ParseCount(rd.data[old(rd.pos)..])
            case None => r.None?
            case Some((n, rest)) => r == Some(n) && rest == rd.data[rd.pos..]
  {
    hide Read;
    rd.Expect(Cons(U32Kind, Nil));
    var n :- rd.GetU32();
    if n > 100000 {
      return None;
    }
    return Some(n);
  }

  lemma BudgetUnread(s: seq<byte>)
    ensures ReadAll(BudgetKinds(), s).None? ==> ParseBudget(s).None?
  {
    hide ReadAll;
  }

  lemma BudgetRead(s: seq<byte>, rest: seq<byte>, id: u64, generation: u64, domain: u64, parent: u64,
      name: text, hardMax: i64, softTarget: i64, minReserve: i64, burst: i64, window: i64, recovery: i64,
      priority: i32, auth: bool)
    requires ReadAll(BudgetKinds(), s) == Some((
      Cons(U64(id), Cons(U64(generation), Cons(U64(domain), Cons(U64(parent), Cons(Str(name),
      Cons(I64(hardMax), Cons(I64(softTarget), Cons(I64(minReserve), Cons(I64(burst),
      Cons(I64(window), Cons(I64(recovery), Cons(I32(priority), Cons(Bool(auth), Nil))))))))))))), rest))
    ensures ParseBudget(s) ==
            if hardMax < 0 || softTarget < 0 || minReserve < 0 || burst < 0 || !Lasts(window) || !Lasts(recovery) then None
            else Some((Budget(id, generation, domain, 0, Some(parent), name, hardMax, softTarget, minReserve,
              burst,
                              window, recovery, priority, auth), rest))
  {
    hide ReadAll;
  }

  method GetBudget(rd: Reader) returns (r: Option<Budget>)
    requires rd.Valid()
    modifies rd
    ensures rd.Valid()
    ensures match ParseBudget(rd.data[old(rd.pos)..])
            case None => r.None?
            case Some((b, rest)) => r == Some(b) && rest == rd.data[rd.pos..]
  {
    hide ReadAll, Reader.Outlook, ParseBudget;
    rd.Expect(BudgetKinds());
    ghost var from := rd.data[rd.pos..];
    BudgetUnread(from);
    var id :- rd.GetU64();
    var generation :- rd.GetU64();
    var domain :- rd.GetU64();
    var parent :- rd.GetU64();
    var name :- rd.GetStr();
    var hardMax :- rd.GetI64();
    var softTarget :- rd.GetI64();
    var minReserve :- rd.GetI64();
    var burst :- rd.GetI64();
    var window :- rd.GetI64();
    var recovery :- rd.GetI64();
    var priority :- rd.GetI32();
    var auth :- rd.GetBool();
    var _ := rd.AtEnd();
    BudgetRead(from, rd.data[rd.pos..], id, generation, domain, parent, name, hardMax, softTarget, minReserve,
      burst, window, recovery, priority, auth);
    if hardMax < 0 || softTarget < 0 || minReserve < 0 || burst < 0 || !Lasts(window) || !Lasts(recovery) {
      return None;
    }
    return Some(Budget(id, generation, domain, 0, Some(parent), name, hardMax, softTarget, minReserve, burst,
                       window, recovery, priority, auth));
  }

  lemma ReservationUnread(s: seq<byte>)
    ensures ReadAll(ReservationKinds(), s).None? ==> ParseReservation(s).None?
  {
    hide ReadAll;
  }

  lemma ReservationRead(s: seq<byte>, rest: seq<byte>, id: u64, budget: u64, workload: u64, cls: u8,
      power: i64, energy: i64, policyGen: u64, deviceGen: u64, budgetGen: u64, epoch: u64, boot: u64,
      created: i64, validity: i64, state: u8, reserved: i64, energyUsed: i64)
    requires ReadAll(ReservationKinds(), s) == Some((
      Cons(U64(id), Cons(U64(budget), Cons(U64(workload), Cons(U8(cls), Cons(I64(power),
      Cons(I64(energy), Cons(U64(policyGen), Cons(U64(deviceGen), Cons(U64(budgetGen),
      Cons(U64(epoch), Cons(U64(boot), Cons(I64(created), Cons(I64(validity), Cons(U8(state),
      Cons(I64(reserved), Cons(I64(energyUsed), Nil)))))))))))))))), rest))
    ensures ParseReservation(s) ==
            if cls > 7 || state > 6 || power < 0 || energy < 0 || !Lasts(validity) || reserved < 0 || energyUsed < 0 then None
            else Some((Reservation(id, workload, cls, 0, budget, power, energy, policyGen, deviceGen,
              budgetGen, epoch,
                                   boot, created, validity, PhaseOf(state), reserved, energyUsed, 0, 0), rest))
  {
    hide ReadAll, PhaseOf;
  }

  method GetReservation(rd: Reader) returns (r: Option<Reservation>)
    requires rd.Valid()
    modifies rd
    ensures rd.Valid()
    ensures match ParseReservation(rd.data[old(rd.pos)..])
            case None => r.None?
            case Some((x, rest)) => r == Some(x) && rest == rd.data[rd.pos..]
  {
    hide ReadAll, Reader.Outlook, PhaseOf, ParseReservation;
    rd.Expect(ReservationKinds());
    ghost var from := rd.data[rd.pos..];
    ReservationUnread(from);
    var id :- rd.GetU64();
    var budget :- rd.GetU64();
    var workload :- rd.GetU64();
    var cls :- rd.GetU8();
    var power :- rd.GetI64();
    var energy :- rd.GetI64();
    var policyGen :- rd.GetU64();
    var deviceGen :- rd.GetU64();
    var budgetGen :- rd.GetU64();
    var epoch :- rd.GetU64();
    var boot :- rd.GetU64();
    var created :- rd.GetI64();
    var validity :- rd.GetI64();
    var state :- rd.GetU8();
    var reserved :- rd.GetI64();
    var energyUsed :- rd.GetI64();
    var _ := rd.AtEnd();
    ReservationRead(from, rd.data[rd.pos..], id, budget, workload, cls, power, energy, policyGen, deviceGen,
      budgetGen, epoch, boot, created, validity, state, reserved, energyUsed);
    if cls > 7 || state > 6 {
      return None;
    }
    if power < 0 || energy < 0 || !Lasts(validity) || reserved < 0 || energyUsed < 0 {
      return None;
    }
    return Some(Reservation(id, workload, cls, 0, budget, power, energy, policyGen, deviceGen, budgetGen,
      epoch, boot,
                            created, validity, PhaseOf(state), reserved, energyUsed, 0, 0));
  }

  method GetMeter(rd: Reader) returns (r: Option<Meter>)
    requires rd.Valid()
    modifies rd
    ensures rd.Valid()
    ensures match ParseMeter(rd.data[old(rd.pos)..])
            case None => r.None?
            case Some((m, rest)) => r == Some(m) && rest == rd.data[rd.pos..]
  {
    hide ReadAll, Reader.Outlook;
    rd.Expect(MeterKinds());
    var workload :- rd.GetU64();
    var total :- rd.GetI64();
    var _ := rd.AtEnd();
    if total < 0 {
      return None;
    }
    return Some(Meter(workload, total));
  }

  // ---- what is accepted ------------------------------------------------------------------

  lemma BudgetAccepted(s: seq<byte>)
    ensures ParseBudget(s).Some? ==> var b := ParseBudget(s).value.0; BudgetFits(b) && StoredBudget(b) == b
  {
    hide ReadAll;
    if ParseBudget(s).Some? {
      var rest := ReadAll(BudgetKinds(), s).value.0;
      var v0: u64 := rest.head.n64;
      rest := rest.tail;
      var v1: u64 := rest.head.n64;
      rest := rest.tail;
      var v2: u64 := rest.head.n64;
      rest := rest.tail;
      var v3: u64 := rest.head.n64;
      rest := rest.tail;
      var v4: text := rest.head.s;
      rest := rest.tail;
      var v5: i64 := rest.head.z64;
      rest := rest.tail;
      var v6: i64 := rest.head.z64;
      rest := rest.tail;
      var v7: i64 := rest.head.z64;
      rest := rest.tail;
      var v8: i64 := rest.head.z64;
      rest := rest.tail;
      var v9: i64 := rest.head.z64;
      rest := rest.tail;
      var v10: i64 := rest.head.z64;
      rest := rest.tail;
      var v11: i32 := rest.head.z32;
      rest := rest.tail;
    }
  }

  lemma ReservationAccepted(s: seq<byte>)
    ensures ParseReservation(s).Some? ==>
              var r := ParseReservation(s).value.0; ReservationFits(r) && StoredReservation(r) == r
  {
    hide ReadAll, PhaseOf;
    if ParseReservation(s).Some? {
      var rest := ReadAll(ReservationKinds(), s).value.0;
      var v0: u64 := rest.head.n64;
      rest := rest.tail;
      var v1: u64 := rest.head.n64;
      rest := rest.tail;
      var v2: u64 := rest.head.n64;
      rest := rest.tail;
      var v3: u8 := rest.head.n8;
      rest := rest.tail;
      var v4: i64 := rest.head.z64;
      rest := rest.tail;
      var v5: i64 := rest.head.z64;
      rest := rest.tail;
      var v6: u64 := rest.head.n64;
      rest := rest.tail;
      var v7: u64 := rest.head.n64;
      rest := rest.tail;
      var v8: u64 := rest.head.n64;
      rest := rest.tail;
      var v9: u64 := rest.head.n64;
      rest := rest.tail;
      var v10: u64 := rest.head.n64;
      rest := rest.tail;
      var v11: i64 := rest.head.z64;
      rest := rest.tail;
      var v12: i64 := rest.head.z64;
      rest := rest.tail;
      var v13: u8 := rest.head.n8;
      rest := rest.tail;
      var v14: i64 := rest.head.z64;
      rest := rest.tail;
      var v15: i64 := rest.head.z64;
    }
  }

  lemma MeterAccepted(s: seq<byte>)
    ensures ParseMeter(s).Some? ==> MeterFits(ParseMeter(s).value.0)
  {
    hide ReadAll;
    if ParseMeter(s).Some? {
      var rest := ReadAll(MeterKinds(), s).value.0;
      var v0: u64 := rest.head.n64;
      rest := rest.tail;
      var v1: i64 := rest.head.z64;
    }
  }

  lemma CapAccepted(s: seq<byte>)
    ensures ParseCap(s).Some? ==> CapFits(ParseCap(s).value.0)
  {
    hide Read;
    if ParseCap(s).Some? && ParseCap(s).value.0.Some? {
      var v: i64 := Read(I64Kind, Read(BoolKind, s).value.1).value.0.z64;
    }
  }

  lemma HeaderAccepted(s: seq<byte>)
    ensures ParseHeader(s).Some? ==> HeaderFits(ParseHeader(s).value.0)
  {
    hide ReadAll, ParseCap;
    forall t
      ensures ParseCap(t).Some? ==> CapFits(ParseCap(t).value.0)
    {
      CapAccepted(t);
    }
    if ParseHeader(s).Some? {
      var rest := ReadAll(IdentityKinds(), s).value.0;
      var v0: u64 := rest.head.n64;
      rest := rest.tail;
      var v1: u64 := rest.head.n64;
      rest := rest.tail;
      var v2: u64 := rest.head.n64;
      rest := rest.tail;
      var v3: u64 := rest.head.n64;
      rest := rest.tail;
      var v4: text := rest.head.s;
    }
  }

  lemma {:induction false} BudgetsAccepted(n: nat, s: seq<byte>)
    ensures ParseBudgets(n, s).Some? ==>
              var bs := ParseBudgets(n, s).value.0;
              |bs| == n && forall i :: 0 <= i < n ==> BudgetFits(bs[i]) && StoredBudget(bs[i]) == bs[i]
    decreases n
  {
    hide ParseBudget, BudgetFits, StoredBudget;
    if n > 0 && ParseBudget(s).Some? {
      BudgetAccepted(s);
      BudgetsAccepted(n - 1, ParseBudget(s).value.1);
    }
  }

  lemma {:induction false} ReservationsAccepted(n: nat, s: seq<byte>)
    ensures ParseReservations(n, s).Some? ==>
              var rs := ParseReservations(n, s).value.0;
              |rs| == n && forall i :: 0 <= i < n ==> ReservationFits(rs[i]) && StoredReservation(rs[i]) == rs[i]
    decreases n
  {
    hide ParseReservation, ReservationFits, StoredReservation;
    if n > 0 && ParseReservation(s).Some? {
      ReservationAccepted(s);
      ReservationsAccepted(n - 1, ParseReservation(s).value.1);
    }
  }

  lemma {:induction false} MetersAccepted(n: nat, s: seq<byte>)
    ensures ParseMeters(n, s).Some? ==>
              var ms := ParseMeters(n, s).value.0; |ms| == n && forall i :: 0 <= i < n ==> MeterFits(ms[i])
    decreases n
  {
    hide ParseMeter, MeterFits;
    if n > 0 && ParseMeter(s).Some? {
      MeterAccepted(s);
      MetersAccepted(n - 1, ParseMeter(s).value.1);
    }
  }

  lemma {:induction false} StoredAlready(bs: seq<Budget>, rs: seq<Reservation>)
    requires forall i :: 0 <= i < |bs| ==> StoredBudget(bs[i]) == bs[i]
    requires forall i :: 0 <= i < |rs| ==> StoredReservation(rs[i]) == rs[i]
    ensures StoredBudgets(bs) == bs && StoredReservations(rs) == rs
  {
    hide StoredBudget, StoredReservation;
    assert forall i :: 0 <= i < |bs| ==> StoredBudgets(bs)[i] == bs[i];
    assert forall i :: 0 <= i < |rs| ==> StoredReservations(rs)[i] == rs[i];
  }

  /** Whatever blob is accepted, what it reads as could have been saved, and saving it again gives a blob that
      reads as the same: every amount, duration and enumeration is in range. */
  lemma AcceptedFits(s: seq<byte>)
    requires ParseState(s).Some?
    ensures var t := ParseState(s).value; Fits(t) && Loadable(t) && Stored(t) == t && ParseState(StateBytes(t)) == Some(t)
  {
    hide ParseHeader, ParseBudgets, ParseReservations, ParseMeters, StateBytes, Stored;
    var t := ParseState(s).value;
    PartsAccepted(s);
    hide ParseState, Fits;
    StateRoundTrip(t);
  }

  lemma PartsAccepted(s: seq<byte>)
    requires ParseState(s).Some?
    ensures var t := ParseState(s).value; Fits(t) && Loadable(t) && Stored(t) == t
  {
    hide ParseHeader, ParseBudgets, ParseReservations, ParseMeters, ParseCount, HeaderFits, BudgetFits, ReservationFits, MeterFits,
      StoredBudget, StoredReservation;
    var (h, s1) := ParseHeader(s).value;
    HeaderAccepted(s);
    var (nb, s2) := ParseCount(s1).value;
    BudgetsAccepted(nb, s2);
    var (bs, s3) := ParseBudgets(nb, s2).value;
    var (nr, s4) := ParseCount(s3).value;
    ReservationsAccepted(nr, s4);
    var (rs, s5) := ParseReservations(nr, s4).value;
    var (nm, s6) := ParseCount(s5).value;
    MetersAccepted(nm, s6);
    StoredAlready(bs, rs);
  }
}
