/** The bytes of every record, place by place: which field is where, and how it is written. */
module Layout {
  import opened Basics
  import opened Codec
  import Crc
  import Envelope
  import Ledger
  import Messages
  import Reservations
  import StateCodec
  import Wire

  /** These bytes stand at place i of s. */
  predicate At(s: seq<byte>, i: nat, bytes: seq<byte>) { i + |bytes| <= |s| && s[i..i + |bytes|] == bytes }

  /** Two's complement. */
  function Word32(v: i32): u32 { if v < 0 then v + 0x1_0000_0000 else v }
  function Word64(v: i64): u64 { if v < 0 then v + 0x1_0000_0000_0000_0000 else v }

  function Flag(b: bool): (r: seq<byte>)
    ensures |r| == 1
  { 
    if b then [1] else [0]
  }

  function BytesOf(f: Field): seq<byte> {
    match f
    case U8(n) => LE(n, 1)
    case U16(n) => LE(n, 2)
    case U32(n) => LE(n, 4)
    case U64(n) => LE(n, 8)
    case I32(v) => LE(Word32(v), 4)
    case I64(v) => LE(Word64(v), 8)
    case Bool(b) => Flag(b)
    case Str(s) => LE(|s|, 4) + s
  }

  /** Little-endian: the bytes of a number are taken from its low end. */
  lemma {:induction false} LowByteFirst(v: nat, n: nat, k: nat)
    requires k < n
    ensures Value(LE(v, n)[k]) == ShiftRight(v, k) % 256
    decreases n
  {
    ValueLow(v);
    if k > 0 {
      LowByteFirst(v / 256, n - 1, k - 1);
    }
  }

  lemma FieldBytes(f: Field)
    ensures Encode(f) == BytesOf(f)
  {
    hide LE;
    match f
    case Bool(b) => FlagBytes(b);
    case I32(v) => assert Unsigned(v, 0x1_0000_0000) == Word32(v);
    case I64(v) => assert Unsigned(v, 0x1_0000_0000_0000_0000) == Word64(v);
    case _ =>
  }

  lemma FlagBytes(b: bool)
    ensures LE(if b then 1 else 0, 1) == Flag(b)
  {
    ByteLiterals();
    assert LE(1 / 256, 0) == [] && LE(0 / 256, 0) == [];
    hide Low;
  }

  lemma ByteLiterals()
    ensures Low(0) == 0 && Low(1) == 1
  {
  }

  /** The fields stand in s one after the other, from place i to its end. */
  predicate LaidOut(fs: Fields, s: seq<byte>, i: nat)
    decreases fs
  {
    match fs
    case Nil => i == |s|
    case Cons(f, rest) => At(s, i, BytesOf(f)) && LaidOut(rest, s, i + |BytesOf(f)|)
  }

  lemma {:induction false} Layout(fs: Fields, before: seq<byte>)
    ensures LaidOut(fs, before + EncodeAll(fs), |before|)
    decreases fs
  {
    hide Encode, BytesOf;
    match fs
    case Nil =>
    case Cons(f, rest) =>
      FieldBytes(f);
      assert before + EncodeAll(fs) == (before + BytesOf(f)) + EncodeAll(rest);
      Layout(rest, before + BytesOf(f));
  }

  // ---- messages ----------------------------------------------------------------------------

  /** A register. */
  lemma RegisterLayout(m: Messages.RegisterMsg)
    ensures var s := EncodeAll(Messages.RegisterFields(m));
            var n := |m.name|;
            && |s| == 28 + n && At(s, 0, LE(m.worker, 8)) && At(s, 8, LE(m.boot, 8)) && At(s, 16, LE(m.node, 8))
            && At(s, 24, LE(|m.name|, 4) + m.name)
  {
    hide LE, EncodeAll, Word32, Word64, Flag;
    var s, fs := EncodeAll(Messages.RegisterFields(m)), Messages.RegisterFields(m);
    var n := |m.name|;
    Layout(fs, []);
    assert [] + s == s;
    var rest := fs;
    rest := rest.tail;
    assert LaidOut(rest, s, 8);
    rest := rest.tail;
    assert LaidOut(rest, s, 16);
    rest := rest.tail;
    assert LaidOut(rest, s, 24);
    rest := rest.tail;
    assert LaidOut(rest, s, 28 + n);
  }

  /** A power observation. */
  lemma PowerObsLayout(m: Messages.PowerObsMsg)
    ensures var s := EncodeAll(Messages.PowerObsFields(m));
            var n := |m.source|;
            && |s| == 96 + n && At(s, 0, LE(m.worker, 8)) && At(s, 8, LE(m.boot, 8))
            && At(s, 16, LE(m.epoch, 8)) && At(s, 24, LE(m.accel, 8)) && At(s, 32, LE(m.deviceGen, 8))
            && At(s, 40, LE(m.obsGen, 8)) && At(s, 48, LE(Word64(m.timestamp), 8))
            && At(s, 56, Flag(m.hasPower)) && At(s, 57, LE(Word64(m.powerMw), 8)) && At(s, 65, Flag(m.hasTemp))
            && At(s, 66, LE(Word32(m.tempCenti), 4)) && At(s, 70, LE(m.smMhz, 4)) && At(s, 74, LE(m.memMhz, 4))
            && At(s, 78, Flag(m.hasUtil)) && At(s, 79, LE(m.utilizationBp, 2)) && At(s, 81, Flag(m.hasEnergy))
            && At(s, 82, LE(Word64(m.energyMj), 8)) && At(s, 90, Flag(m.throttled))
            && At(s, 91, LE(m.provenance, 1)) && At(s, 92, LE(|m.source|, 4) + m.source)
  {
    hide LE, EncodeAll, Word32, Word64, Flag;
    var s, fs := EncodeAll(Messages.PowerObsFields(m)), Messages.PowerObsFields(m);
    var n := |m.source|;
    Layout(fs, []);
    assert [] + s == s;
    var rest := fs;
    rest := rest.tail;
    assert LaidOut(rest, s, 8);
    rest := rest.tail;
    assert LaidOut(rest, s, 16);
    rest := rest.tail;
    assert LaidOut(rest, s, 24);
    rest := rest.tail;
    assert LaidOut(rest, s, 32);
    rest := rest.tail;
    assert LaidOut(rest, s, 40);
    rest := rest.tail;
    assert LaidOut(rest, s, 48);
    rest := rest.tail;
    assert LaidOut(rest, s, 56);
    rest := rest.tail;
    assert LaidOut(rest, s, 57);
    rest := rest.tail;
    assert LaidOut(rest, s, 65);
    rest := rest.tail;
    assert LaidOut(rest, s, 66);
    rest := rest.tail;
    assert LaidOut(rest, s, 70);
    rest := rest.tail;
    assert LaidOut(rest, s, 74);
    rest := rest.tail;
    assert LaidOut(rest, s, 78);
    rest := rest.tail;
    assert LaidOut(rest, s, 79);
    rest := rest.tail;
    assert LaidOut(rest, s, 81);
    rest := rest.tail;
    assert LaidOut(rest, s, 82);
    rest := rest.tail;
    assert LaidOut(rest, s, 90);
    rest := rest.tail;
    assert LaidOut(rest, s, 91);
    rest := rest.tail;
    assert LaidOut(rest, s, 92);
    rest := rest.tail;
    assert LaidOut(rest, s, 96 + n);
  }

  /** A thermal observation. */
  lemma ThermalObsLayout(m: Messages.ThermalObsMsg)
    ensures var s := EncodeAll(Messages.ThermalObsFields(m));
            && |s| == 62 && At(s, 0, LE(m.worker, 8)) && At(s, 8, LE(m.boot, 8)) && At(s, 16, LE(m.epoch, 8))
            && At(s, 24, LE(m.accel, 8)) && At(s, 32, LE(m.thermGen, 8)) && At(s, 40, LE(m.obsGen, 8))
            && At(s, 48, LE(Word64(m.timestamp), 8)) && At(s, 56, Flag(m.hasTemp))
            && At(s, 57, LE(Word32(m.tempCenti), 4)) && At(s, 61, LE(m.state, 1))
  {
    hide LE, EncodeAll, Word32, Word64, Flag;
    var s, fs := EncodeAll(Messages.ThermalObsFields(m)), Messages.ThermalObsFields(m);
    Layout(fs, []);
    assert [] + s == s;
    var rest := fs;
    rest := rest.tail;
    assert LaidOut(rest, s, 8);
    rest := rest.tail;
    assert LaidOut(rest, s, 16);
    rest := rest.tail;
    assert LaidOut(rest, s, 24);
    rest := rest.tail;
    assert LaidOut(rest, s, 32);
    rest := rest.tail;
    assert LaidOut(rest, s, 40);
    rest := rest.tail;
    assert LaidOut(rest, s, 48);
    rest := rest.tail;
    assert LaidOut(rest, s, 56);
    rest := rest.tail;
    assert LaidOut(rest, s, 57);
    rest := rest.tail;
    assert LaidOut(rest, s, 61);
    rest := rest.tail;
    assert LaidOut(rest, s, 62);
  }

  /** A budget. */
  lemma BudgetLayout(m: Messages.BudgetMsg)
    ensures var s := EncodeAll(Messages.BudgetFields(m));
            var n := |m.name|;
            && |s| == 97 + n && At(s, 0, LE(m.budget, 8)) && At(s, 8, LE(m.generation, 8))
            && At(s, 16, LE(m.domain, 8)) && At(s, 24, LE(m.parent, 8)) && At(s, 32, LE(|m.name|, 4) + m.name)
            && At(s, 36 + n, LE(Word64(m.hardMaxMw), 8)) && At(s, 44 + n, LE(Word64(m.softMw), 8))
            && At(s, 52 + n, LE(Word64(m.minReserveMw), 8)) && At(s, 60 + n, LE(Word64(m.burstMw), 8))
            && At(s, 68 + n, LE(Word64(m.burstWindow), 8)) && At(s, 76 + n, LE(Word64(m.recovery), 8))
            && At(s, 84 + n, LE(Word32(m.priority), 4)) && At(s, 88 + n, Flag(m.authoritative))
            && At(s, 89 + n, LE(m.policyGen, 8))
  {
    hide LE, EncodeAll, Word32, Word64, Flag;
    var s, fs := EncodeAll(Messages.BudgetFields(m)), Messages.BudgetFields(m);
    var n := |m.name|;
    Layout(fs, []);
    assert [] + s == s;
    var rest := fs;
    rest := rest.tail;
    assert LaidOut(rest, s, 8);
    rest := rest.tail;
    assert LaidOut(rest, s, 16);
    rest := rest.tail;
    assert LaidOut(rest, s, 24);
    rest := rest.tail;
    assert LaidOut(rest, s, 32);
    rest := rest.tail;
    assert LaidOut(rest, s, 36 + n);
    rest := rest.tail;
    assert LaidOut(rest, s, 44 + n);
    rest := rest.tail;
    assert LaidOut(rest, s, 52 + n);
    rest := rest.tail;
    assert LaidOut(rest, s, 60 + n);
    rest := rest.tail;
    assert LaidOut(rest, s, 68 + n);
    rest := rest.tail;
    assert LaidOut(rest, s, 76 + n);
    rest := rest.tail;
    assert LaidOut(rest, s, 84 + n);
    rest := rest.tail;
    assert LaidOut(rest, s, 88 + n);
    rest := rest.tail;
    assert LaidOut(rest, s, 89 + n);
    rest := rest.tail;
    assert LaidOut(rest, s, 97 + n);
  }

  /** A reserve request. */
  lemma ReserveLayout(m: Messages.ReserveMsg)
    ensures var s := EncodeAll(Messages.ReserveFields(m));
            && |s| == 113 && At(s, 0, LE(m.reservation, 8)) && At(s, 8, LE(m.budget, 8))
            && At(s, 16, LE(Word64(m.requestedMw), 8)) && At(s, 24, LE(Word64(m.requestedMj), 8))
            && At(s, 32, LE(m.budgetGen, 8)) && At(s, 40, LE(m.reservationGen, 8))
            && At(s, 48, LE(m.policyGen, 8)) && At(s, 56, LE(m.deviceGen, 8)) && At(s, 64, LE(m.workload, 8))
            && At(s, 72, LE(m.cls, 1)) && At(s, 73, LE(m.scope, 8)) && At(s, 81, LE(m.epoch, 8))
            && At(s, 89, LE(m.boot, 8)) && At(s, 97, LE(Word64(m.timestamp), 8))
            && At(s, 105, LE(Word64(m.validity), 8))
  {
    hide LE, EncodeAll, Word32, Word64, Flag;
    var s, fs := EncodeAll(Messages.ReserveFields(m)), Messages.ReserveFields(m);
    Layout(fs, []);
    assert [] + s == s;
    var rest := fs;
    rest := rest.tail;
    assert LaidOut(rest, s, 8);
    rest := rest.tail;
    assert LaidOut(rest, s, 16);
    rest := rest.tail;
    assert LaidOut(rest, s, 24);
    rest := rest.tail;
    assert LaidOut(rest, s, 32);
    rest := rest.tail;
    assert LaidOut(rest, s, 40);
    rest := rest.tail;
    assert LaidOut(rest, s, 48);
    rest := rest.tail;
    assert LaidOut(rest, s, 56);
    rest := rest.tail;
    assert LaidOut(rest, s, 64);
    rest := rest.tail;
    assert LaidOut(rest, s, 72);
    rest := rest.tail;
    assert LaidOut(rest, s, 73);
    rest := rest.tail;
    assert LaidOut(rest, s, 81);
    rest := rest.tail;
    assert LaidOut(rest, s, 89);
    rest := rest.tail;
    assert LaidOut(rest, s, 97);
    rest := rest.tail;
    assert LaidOut(rest, s, 105);
    rest := rest.tail;
    assert LaidOut(rest, s, 113);
  }

  /** A budget action. */
  lemma ActionLayout(m: Messages.ActionMsg)
    ensures var s := EncodeAll(Messages.ActionFields(m));
            && |s| == 48 && At(s, 0, LE(m.reservation, 8)) && At(s, 8, LE(m.budget, 8))
            && At(s, 16, LE(Word64(m.amountMw), 8)) && At(s, 24, LE(m.budgetGen, 8))
            && At(s, 32, LE(m.epoch, 8)) && At(s, 40, LE(m.boot, 8))
  {
    hide LE, EncodeAll, Word32, Word64, Flag;
    var s, fs := EncodeAll(Messages.ActionFields(m)), Messages.ActionFields(m);
    Layout(fs, []);
    assert [] + s == s;
    var rest := fs;
    rest := rest.tail;
    assert LaidOut(rest, s, 8);
    rest := rest.tail;
    assert LaidOut(rest, s, 16);
    rest := rest.tail;
    assert LaidOut(rest, s, 24);
    rest := rest.tail;
    assert LaidOut(rest, s, 32);
    rest := rest.tail;
    assert LaidOut(rest, s, 40);
    rest := rest.tail;
    assert LaidOut(rest, s, 48);
  }

  /** An acknowledgement. */
  lemma AckLayout(m: Messages.AckMsg)
    ensures var s := EncodeAll(Messages.AckFields(m));
            var n := |m.message|;
            && |s| == 13 + n && At(s, 0, LE(m.messageId, 8)) && At(s, 8, Flag(m.ok))
            && At(s, 9, LE(|m.message|, 4) + m.message)
  {
    hide LE, EncodeAll, Word32, Word64, Flag;
    var s, fs := EncodeAll(Messages.AckFields(m)), Messages.AckFields(m);
    var n := |m.message|;
    Layout(fs, []);
    assert [] + s == s;
    var rest := fs;
    rest := rest.tail;
    assert LaidOut(rest, s, 8);
    rest := rest.tail;
    assert LaidOut(rest, s, 9);
    rest := rest.tail;
    assert LaidOut(rest, s, 13 + n);
  }

  // ---- the saved state ---------------------------------------------------------------------

  /** The phases in the order of their declaration. */
  function PhaseNumber(p: Reservations.Phase): (n: u8)
    ensures n < 7
    ensures p == [Reservations.PLANNED, Reservations.VALIDATED, Reservations.RESERVED, Reservations.ADMITTED,
                  Reservations.ACTIVE, Reservations.RELEASED, Reservations.EXPIRED][n]
  {
    StateCodec.PhaseCode(p)
  }

  /** A stored budget. */
  lemma StoredBudgetLayout(b: Ledger.Budget)
    requires StateCodec.BudgetFits(b)
    ensures var s := EncodeAll(StateCodec.BudgetFields(b));
            var n := |b.name|;
            && |s| == 89 + n && At(s, 0, LE(b.id, 8)) && At(s, 8, LE(b.generation, 8))
            && At(s, 16, LE(b.domain, 8)) && At(s, 24, LE(if b.parent.Some? then b.parent.value else 0, 8))
            && At(s, 32, LE(|b.name|, 4) + b.name) && At(s, 36 + n, LE(b.hardMax, 8))
            && At(s, 44 + n, LE(b.softTarget, 8)) && At(s, 52 + n, LE(b.minReserve, 8))
            && At(s, 60 + n, LE(b.burstAllowance, 8)) && At(s, 68 + n, LE(b.burstWindow, 8))
            && At(s, 76 + n, LE(b.recovery, 8)) && At(s, 84 + n, LE(Word32(b.priority), 4))
            && At(s, 88 + n, Flag(b.authoritative))
  {
    hide LE, EncodeAll, Word32, Flag;
    var s, fs := EncodeAll(StateCodec.BudgetFields(b)), StateCodec.BudgetFields(b);
    var n := |b.name|;
    Layout(fs, []);
    assert [] + s == s;
    var rest := fs;
    rest := rest.tail;
    assert LaidOut(rest, s, 8);
    rest := rest.tail;
    assert LaidOut(rest, s, 16);
    rest := rest.tail;
    assert LaidOut(rest, s, 24);
    rest := rest.tail;
    assert LaidOut(rest, s, 32);
    rest := rest.tail;
    assert LaidOut(rest, s, 36 + n);
    rest := rest.tail;
    assert LaidOut(rest, s, 44 + n);
    rest := rest.tail;
    assert LaidOut(rest, s, 52 + n);
    rest := rest.tail;
    assert LaidOut(rest, s, 60 + n);
    rest := rest.tail;
    assert LaidOut(rest, s, 68 + n);
    rest := rest.tail;
    assert LaidOut(rest, s, 76 + n);
    rest := rest.tail;
    assert LaidOut(rest, s, 84 + n);
    rest := rest.tail;
    assert LaidOut(rest, s, 88 + n);
    rest := rest.tail;
    assert LaidOut(rest, s, 89 + n);
  }

  /** A stored reservation. */
  lemma StoredReservationLayout(r: Reservations.Reservation)
    requires StateCodec.ReservationFits(r)
    ensures var s := EncodeAll(StateCodec.ReservationFields(r));
            && |s| == 114 && At(s, 0, LE(r.id, 8)) && At(s, 8, LE(r.budget, 8)) && At(s, 16, LE(r.workload, 8))
            && At(s, 24, LE(r.powerClass, 1)) && At(s, 25, LE(r.requestedPower, 8))
            && At(s, 33, LE(r.requestedEnergy, 8)) && At(s, 41, LE(r.policyGeneration, 8))
            && At(s, 49, LE(r.deviceGeneration, 8)) && At(s, 57, LE(r.budgetGeneration, 8))
            && At(s, 65, LE(r.epoch, 8)) && At(s, 73, LE(r.boot, 8)) && At(s, 81, LE(Word64(r.created), 8))
            && At(s, 89, LE(r.validity, 8)) && At(s, 97, LE(PhaseNumber(r.state), 1))
            && At(s, 98, LE(r.reservedPower, 8)) && At(s, 106, LE(r.energyUsed, 8))
  {
    hide LE, EncodeAll, Word32, Flag;
    var s, fs := EncodeAll(StateCodec.ReservationFields(r)), StateCodec.ReservationFields(r);
    Layout(fs, []);
    assert [] + s == s;
    var rest := fs;
    rest := rest.tail;
    assert LaidOut(rest, s, 8);
    rest := rest.tail;
    assert LaidOut(rest, s, 16);
    rest := rest.tail;
    assert LaidOut(rest, s, 24);
    rest := rest.tail;
    assert LaidOut(rest, s, 25);
    rest := rest.tail;
    assert LaidOut(rest, s, 33);
    rest := rest.tail;
    assert LaidOut(rest, s, 41);
    rest := rest.tail;
    assert LaidOut(rest, s, 49);
    rest := rest.tail;
    assert LaidOut(rest, s, 57);
    rest := rest.tail;
    assert LaidOut(rest, s, 65);
    rest := rest.tail;
    assert LaidOut(rest, s, 73);
    rest := rest.tail;
    assert LaidOut(rest, s, 81);
    rest := rest.tail;
    assert LaidOut(rest, s, 89);
    rest := rest.tail;
    assert LaidOut(rest, s, 97);
    rest := rest.tail;
    assert LaidOut(rest, s, 98);
    rest := rest.tail;
    assert LaidOut(rest, s, 106);
    rest := rest.tail;
    assert LaidOut(rest, s, 114);
  }

  /** How a saved state begins. */
  lemma IdentityLayout(h: StateCodec.Header)
    requires StateCodec.HeaderFits(h)
    ensures var s := EncodeAll(StateCodec.IdentityFields(h));
            var n := |h.policyName|;
            && |s| == 36 + n && At(s, 0, LE(h.epoch, 8)) && At(s, 8, LE(h.boot, 8)) && At(s, 16, LE(h.node, 8))
            && At(s, 24, LE(h.policyGeneration, 8)) && At(s, 32, LE(|h.policyName|, 4) + h.policyName)
  {
    hide LE, EncodeAll, Word32, Word64, Flag;
    var s, fs := EncodeAll(StateCodec.IdentityFields(h)), StateCodec.IdentityFields(h);
    var n := |h.policyName|;
    Layout(fs, []);
    assert [] + s == s;
    var rest := fs;
    rest := rest.tail;
    assert LaidOut(rest, s, 8);
    rest := rest.tail;
    assert LaidOut(rest, s, 16);
    rest := rest.tail;
    assert LaidOut(rest, s, 24);
    rest := rest.tail;
    assert LaidOut(rest, s, 32);
    rest := rest.tail;
    assert LaidOut(rest, s, 36 + n);
  }

  /** A cap is a flag and, if there is one, its amount. */
  function CapBytes(c: Option<int>): seq<byte>
    requires StateCodec.CapFits(c)
  {
    Flag(c.Some?) + if c.Some? then LE(c.value, 8) else []
  }

  lemma CapLayout(c: Option<int>)
    requires StateCodec.CapFits(c)
    ensures EncodeAll(StateCodec.CapFields(c)) == CapBytes(c)
  {
    hide LE, Encode, Flag;
    FieldBytes(Bool(c.Some?));
    assert EncodeAll(Nil) == [];
    if c.Some? {
      FieldBytes(I64(c.value));
      assert EncodeAll(Cons(I64(c.value), Nil)) == Encode(I64(c.value)) + [];
    }
  }

  lemma MeterLayout(m: StateCodec.Meter)
    requires StateCodec.MeterFits(m)
    ensures EncodeAll(StateCodec.MeterFields(m)) == LE(m.workload, 8) + LE(m.total, 8)
  {
    hide LE, Encode;
    FieldBytes(U64(m.workload));
    FieldBytes(I64(m.total));
    assert EncodeAll(Cons(I64(m.total), Nil)) == Encode(I64(m.total)) + [];
  }

  lemma CountLayout(n: nat)
    requires n < 0x1_0000_0000
    ensures StateCodec.CountBytes(n) == LE(n, 4)
  {
    hide LE, Encode;
    FieldBytes(U32(n));
    assert EncodeAll(Cons(U32(n), Nil)) == Encode(U32(n)) + [];
  }

  /** A saved state: the header with its four caps, and three counted lists. */
  lemma StateLayout(s: StateCodec.Saved)
    requires StateCodec.Fits(s)
    ensures var h := s.header;
            var identity := EncodeAll(StateCodec.IdentityFields(h));
            var bs, rs, ms := StateCodec.BudgetsBytes(s.budgets), StateCodec.ReservationsBytes(s.reservations), StateCodec.MetersBytes(s.meters);
            StateCodec.StateBytes(s) ==
              identity + CapBytes(h.fleetCap) + CapBytes(h.nodeCap) + CapBytes(h.deviceCap) + CapBytes(h.softTarget)
              + LE(|s.budgets|, 4) + bs + LE(|s.reservations|, 4) + rs + LE(|s.meters|, 4) + ms
  {
    hide LE, EncodeAll, StateCodec.CapFields, CapBytes, StateCodec.CountBytes, StateCodec.BudgetsBytes, StateCodec.ReservationsBytes,
      StateCodec.MetersBytes, StateCodec.HeaderFits, StateCodec.BudgetFits, StateCodec.ReservationFits, StateCodec.MeterFits;
    HeaderLayout(s.header);
    CountLayout(|s.budgets|);
    CountLayout(|s.reservations|);
    CountLayout(|s.meters|);
    hide StateCodec.HeaderBytes;
  }

  lemma HeaderLayout(h: StateCodec.Header)
    requires StateCodec.HeaderFits(h)
    ensures StateCodec.HeaderBytes(h) ==
            EncodeAll(StateCodec.IdentityFields(h)) + CapBytes(h.fleetCap) + CapBytes(h.nodeCap) + CapBytes(h.deviceCap) + CapBytes(h.softTarget)
  {
    hide EncodeAll, StateCodec.CapFields, CapBytes;
    CapLayout(h.fleetCap);
    CapLayout(h.nodeCap);
    CapLayout(h.deviceCap);
    CapLayout(h.softTarget);
  }

  // ---- containers --------------------------------------------------------------------------

  /** A record on disk begins with the letters PGPS. */
  lemma RecordLayout(schema: u32, blob: seq<byte>)
    requires |blob| <= Envelope.MAX_BLOB
    ensures var s, n := Envelope.Record(schema, blob), |blob|;
            && |s| == n + 16 && At(s, 0, [0x50, 0x47, 0x50, 0x53]) && At(s, 4, LE(schema, 4)) && At(s, 8, LE(n, 4))
            && At(s, 12, blob) && At(s, n + 12, Crc.Stored(Crc.Checksum(s[..n + 12])))
  {
    hide LE, EncodeAll, Crc.Stored, Crc.Checksum;
    var fs := Envelope.HeaderFields(schema, |blob|);
    var s, head := Envelope.Record(schema, blob), EncodeAll(fs);
    Layout(fs, []);
    assert [] + head == head;
    assert LaidOut(fs.tail, head, 4);
    assert LaidOut(fs.tail.tail, head, 8);
    assert LaidOut(fs.tail.tail.tail, head, 12);
    MagicLetters();
    assert s[..|blob| + 12] == head + blob == Envelope.Body(schema, blob);
    Around(head, blob, Crc.Stored(Crc.Checksum(head + blob)), s);
  }

  lemma MagicLetters()
    ensures LE(Envelope.MAGIC, 4) == [0x50, 0x47, 0x50, 0x53]
    ensures LE(Wire.MAGIC, 4) == [0x50, 0x47, 0x54, 0x43]
  {
    LettersOf(0x53504750, 0x50, 0x47, 0x50, 0x53);
    LettersOf(0x43544750, 0x50, 0x47, 0x54, 0x43);
    hide LE, Value;
    LetterValues();
  }

  lemma LetterValues()
    ensures Value(0x50) == 0x50 && Value(0x47) == 0x47 && Value(0x53) == 0x53 && Value(0x54) == 0x54 && Value(0x43) == 0x43
  {
  }

  lemma SameByte(a: byte, b: byte)
    requires Value(a) == Value(b)
    ensures a == b
  {
  }

  lemma LettersOf(v: nat, a: byte, b: byte, c: byte, d: byte)
    requires v == Value(a) + 0x100 * (Value(b) + 0x100 * (Value(c) + 0x100 * Value(d)))
    ensures LE(v, 4) == [a, b, c, d]
  {
    hide Low, Value;
    OneLetter(v, a, Value(b) + 0x100 * (Value(c) + 0x100 * Value(d)), 3);
    OneLetter(Value(b) + 0x100 * (Value(c) + 0x100 * Value(d)), b, Value(c) + 0x100 * Value(d), 2);
    OneLetter(Value(c) + 0x100 * Value(d), c, Value(d), 1);
    OneLetter(Value(d), d, 0, 0);
  }

  lemma OneLetter(v: nat, a: byte, rest: nat, n: nat)
    requires v == Value(a) + 0x100 * rest
    ensures LE(v, n + 1) == [a] + LE(rest, n)
  {
    ValueLow(v);
    hide Low, Value;
    SameByte(Low(v), a);
  }

  lemma Around(head: seq<byte>, body: seq<byte>, tail: seq<byte>, s: seq<byte>)
    requires s == head + body + tail && |head| == 12
    ensures At(s, 12, body) && At(s, |body| + 12, tail)
    ensures forall i: nat, bytes :: At(head, i, bytes) ==> At(s, i, bytes)
  {
    forall i: nat, bytes | At(head, i, bytes)
      ensures At(s, i, bytes)
    {
      assert s[i..i + |bytes|] == head[i..i + |bytes|];
    }
  }

  /** A frame begins with the letters PGTC. */
  lemma FrameLayout(f: Wire.Frame)
    requires |f.payload| <= Wire.MAX_FRAME
    ensures var s, n := Wire.Serialized(f), |f.payload|;
            && |s| == n + 16 && At(s, 0, [0x50, 0x47, 0x54, 0x43]) && At(s, 4, LE(1, 2)) && At(s, 6, LE(f.kind, 2)) && At(s, 8, LE(n, 4))
            && At(s, 12, f.payload) && At(s, n + 12, Crc.Stored(Crc.Checksum(s[..n + 12])))
  {
    hide LE, EncodeAll, Crc.Stored, Crc.Checksum;
    var fs := Wire.HeaderFields(f.kind, |f.payload|);
    var s, head := Wire.Serialized(f), EncodeAll(fs);
    Layout(fs, []);
    assert [] + head == head;
    assert LaidOut(fs.tail, head, 4);
    assert LaidOut(fs.tail.tail, head, 6);
    assert LaidOut(fs.tail.tail.tail, head, 8);
    assert LaidOut(fs.tail.tail.tail.tail, head, 12);
    MagicLetters();
    assert s[..|f.payload| + 12] == head + f.payload == Wire.Body(f);
    Around(head, f.payload, Crc.Stored(Crc.Checksum(head + f.payload)), s);
  }

  // ---- what is refused, and for what -------------------------------------------------------

  lemma RecordHeader(data: seq<byte>)
    requires |data| >= 12
    ensures FromLE(data[..4]) < 0x1_0000_0000 && FromLE(data[4..8]) < 0x1_0000_0000 && FromLE(data[8..12]) < 0x1_0000_0000
    ensures ReadAll(Envelope.HeaderKinds(), data) ==
            Some((Envelope.Header(FromLE(data[..4]), FromLE(data[4..8]), FromLE(data[8..12])), data[12..]))
  {
    hide FromLE, Base;
    BaseValues();
    FromLEBound(data[..4]);
    FromLEBound(data[4..8]);
    FromLEBound(data[8..12]);
    var s4, s8 := data[4..], data[8..];
    assert s4[..4] == data[4..8] && s4[4..] == s8 && s8[..4] == data[8..12] && s8[4..] == data[12..];
    assert ReadAll(Nil, data[12..]) == Some((Nil, data[12..]));
    assert ReadAll(Cons(U32Kind, Nil), s8) == Some((Cons(U32(FromLE(data[8..12])), Nil), data[12..]));
    assert ReadAll(Cons(U32Kind, Cons(U32Kind, Nil)), s4) ==
           Some((Cons(U32(FromLE(data[4..8])), Cons(U32(FromLE(data[8..12])), Nil)), data[12..]));
  }

  /** Every refusal of a record, in the order of the tests. */
  lemma RecordRefusedExactly(data: seq<byte>)
    ensures Envelope.Decoded(data) == Envelope.Failed(Envelope.TruncatedRecord) <==> |data| < 16
    ensures |data| >= 16 ==>
              var magic, schema, len := FromLE(data[..4]), FromLE(data[4..8]), FromLE(data[8..12]);
              var known, small := magic == 0x53504750 && schema == 1, len <= 256 * 1024 * 1024;
              var whole := known && small && len + 16 <= |data|;
              var sealed := whole && Crc.Loaded(data[len + 12..len + 16]) == Crc.Checksum(data[..len + 12]);
              && (Envelope.Decoded(data) == Envelope.Failed(Envelope.BadMagic) <==> magic != 0x53504750)
              && (Envelope.Decoded(data) == Envelope.Failed(Envelope.BadSchema) <==> magic == 0x53504750 && schema != 1)
              && (Envelope.Decoded(data) == Envelope.Failed(Envelope.Oversized) <==> known && !small)
              && (Envelope.Decoded(data) == Envelope.Failed(Envelope.TruncatedPayload) <==> known && small && !whole)
              && (Envelope.Decoded(data) == Envelope.Failed(Envelope.CrcMismatch) <==> whole && !sealed)
              && (Envelope.Decoded(data) == Envelope.Failed(Envelope.TrailingGarbage) <==> sealed && len + 16 < |data|)
              && (Envelope.Decoded(data) == Envelope.Opened(1, data[12..|data| - 4]) <==> sealed && len + 16 == |data|)
  {
    hide FromLE, Crc.Loaded, Crc.Checksum, ReadAll;
    if |data| >= 12 {
      RecordHeader(data);
    } else {
      Envelope.HeaderShape(data);
    }
  }

  lemma FrameHeader(data: seq<byte>)
    requires |data| >= 12
    ensures FromLE(data[..4]) < 0x1_0000_0000 && FromLE(data[4..6]) < 0x1_0000 && FromLE(data[6..8]) < 0x1_0000
    ensures FromLE(data[8..12]) < 0x1_0000_0000
    ensures ReadAll(Wire.HeaderKinds(), data) ==
            Some((Wire.Header(FromLE(data[..4]), FromLE(data[4..6]), FromLE(data[6..8]), FromLE(data[8..12])), data[12..]))
  {
    hide FromLE, Base;
    BaseValues();
    FromLEBound(data[..4]);
    FromLEBound(data[4..6]);
    FromLEBound(data[6..8]);
    FromLEBound(data[8..12]);
    var s4, s6, s8 := data[4..], data[6..], data[8..];
    assert s4[..2] == data[4..6] && s4[2..] == s6 && s6[..2] == data[6..8] && s6[2..] == s8;
    assert s8[..4] == data[8..12] && s8[4..] == data[12..];
    assert ReadAll(Nil, data[12..]) == Some((Nil, data[12..]));
    assert ReadAll(Cons(U32Kind, Nil), s8) == Some((Cons(U32(FromLE(data[8..12])), Nil), data[12..]));
    assert ReadAll(Cons(U16Kind, Cons(U32Kind, Nil)), s6) ==
           Some((Cons(U16(FromLE(data[6..8])), Cons(U32(FromLE(data[8..12])), Nil)), data[12..]));
    assert ReadAll(Cons(U16Kind, Cons(U16Kind, Cons(U32Kind, Nil))), s4) ==
           Some((Cons(U16(FromLE(data[4..6])), Cons(U16(FromLE(data[6..8])), Cons(U32(FromLE(data[8..12])), Nil))), data[12..]));
  }

  /** Every refusal of a frame, in the order of the tests. */
  lemma FrameRefusedExactly(data: seq<byte>)
    ensures Wire.Deserialized(data) == Wire.Rejected(Wire.TooSmall) <==> |data| < 16
    ensures |data| >= 16 ==>
              var magic, major, kind, len := FromLE(data[..4]), FromLE(data[4..6]), FromLE(data[6..8]), FromLE(data[8..12]);
              var ours := magic == 0x43544750 && major == 1;
              var known, small := ours && 1 <= kind <= 16, len <= 16 * 1024 * 1024;
              var whole := known && small && len + 16 <= |data|;
              var sealed := whole && Crc.Loaded(data[len + 12..len + 16]) == Crc.Checksum(data[..len + 12]);
              && (Wire.Deserialized(data) == Wire.Rejected(Wire.BadMagic) <==> magic != 0x43544750)
              && (Wire.Deserialized(data) == Wire.Rejected(Wire.BadVersion) <==> magic == 0x43544750 && major != 1)
              && (Wire.Deserialized(data) == Wire.Rejected(Wire.BadType) <==> ours && !known)
              && (Wire.Deserialized(data) == Wire.Rejected(Wire.Oversized) <==> known && !small)
              && (Wire.Deserialized(data) == Wire.Rejected(Wire.TruncatedPayload) <==> known && small && !whole)
              && (Wire.Deserialized(data) == Wire.Rejected(Wire.CrcMismatch) <==> whole && !sealed)
              && (sealed ==> Wire.Deserialized(data) == Wire.Parsed(Wire.Frame(kind, data[12..len + 12]), len + 16))
  {
    hide FromLE, Crc.Loaded, Crc.Checksum, ReadAll;
    if |data| >= 12 {
      FrameHeader(data);
    } else {
      Wire.HeaderShape(data);
    }
  }

  /** A count is read exactly when it is no more than a hundred thousand. */
  lemma CountReadExactly(s: seq<byte>)
    ensures StateCodec.ParseCount(s).Some? <==> |s| >= 4 && FromLE(s[..4]) <= 100000
    ensures StateCodec.ParseCount(s).Some? ==> StateCodec.ParseCount(s).value == (FromLE(s[..4]), s[4..])
  {
    hide FromLE;
  }
}
