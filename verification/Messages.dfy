/** The typed payloads of the protocol.  Every message is the list of its fields in wire order;
    the encoders write that list and the decoders accept exactly the payloads that read as such a
    list, end there, and carry in-range enumerations. */
module Messages {
  import opened Basics
  import opened Codec

  /** The payload reads as these fields and has nothing after them. */
  predicate Carries(payload: seq<byte>, ks: Kinds, fs: Fields) {
    ReadAll(ks, payload) == Some((fs, []))
  }

  lemma CarriesEncoded(fs: Fields)
    ensures Carries(EncodeAll(fs), KindsOf(fs), fs)
  {
    RoundTrip(fs, []);
    assert EncodeAll(fs) + [] == EncodeAll(fs);
  }

  // ---- Register ------------------------------------------------------------------------

  datatype RegisterMsg = RegisterMsg(
    worker: u64, boot: u64, node: u64, name: text)

  function RegisterKinds(): Kinds {
    Cons(U64Kind, Cons(U64Kind, Cons(U64Kind, Cons(StrKind, Nil))))
  }

  function RegisterFields(m: RegisterMsg): Fields {
    Cons(U64(m.worker), Cons(U64(m.boot), Cons(U64(m.node), Cons(Str(m.name), Nil))))
  }

  lemma RegisterKindsOf(m: RegisterMsg)
    ensures KindsOf(RegisterFields(m)) == RegisterKinds()
  {
    var fs := RegisterFields(m);
    FourKinds(fs.head, fs.tail.head, fs.tail.tail.head, fs.tail.tail.tail.head, fs.tail.tail.tail.tail);
  }

  method EncodeRegister(m: RegisterMsg) returns (r: seq<byte>)
    ensures r == EncodeAll(RegisterFields(m))
  {
    hide EncodeAll, Writer.Valid;
    var w := new Writer(RegisterFields(m));
    w.PutU64(m.worker);
    w.PutU64(m.boot);
    w.PutU64(m.node);
    w.PutStr(m.name);
    r := w.Bytes();
  }

  method DecodeRegister(payload: seq<byte>) returns (r: Option<RegisterMsg>)
    ensures r.Some? ==> Carries(payload, RegisterKinds(), RegisterFields(r.value))
    ensures r.None? ==> forall fs :: !Carries(payload, RegisterKinds(), fs)
  {
    hide ReadAll, Reader.Outlook;
    var rd := new Reader(payload, RegisterKinds());
    var worker :- rd.GetU64();
    var boot :- rd.GetU64();
    var node :- rd.GetU64();
    var name :- rd.GetStr();
    var end := rd.AtEnd();
    if !end {
      return None;
    }
    return Some(RegisterMsg(worker, boot, node, name));
  }

  /** What one side encodes the other side decodes. */
  method RegisterRoundTrip(m: RegisterMsg) returns (r: Option<RegisterMsg>)
    ensures r == Some(m)
  {
    var payload := EncodeRegister(m);
    RegisterKindsOf(m);
    CarriesEncoded(RegisterFields(m));
    r := DecodeRegister(payload);
  }

  // ---- PowerObs ------------------------------------------------------------------------

  datatype PowerObsMsg = PowerObsMsg(
    worker: u64, boot: u64, epoch: u64, accel: u64, deviceGen: u64, obsGen: u64, timestamp: i64,
    hasPower: bool, powerMw: i64, hasTemp: bool, tempCenti: i32, smMhz: u32, memMhz: u32,
    hasUtil: bool, utilizationBp: u16, hasEnergy: bool, energyMj: i64, throttled: bool,
    provenance: u8, source: text)

  function PowerObsKinds(): Kinds {
    Cons(U64Kind, Cons(U64Kind, Cons(U64Kind, Cons(U64Kind, Cons(U64Kind, Cons(U64Kind,
    Cons(I64Kind, Cons(BoolKind, Cons(I64Kind, Cons(BoolKind, Cons(I32Kind, Cons(U32Kind,
    Cons(U32Kind, Cons(BoolKind, Cons(U16Kind, Cons(BoolKind, Cons(I64Kind, Cons(BoolKind,
    Cons(U8Kind, Cons(StrKind, Nil))))))))))))))))))))
  }

  function PowerObsFields(m: PowerObsMsg): Fields {
    Cons(U64(m.worker), Cons(U64(m.boot), Cons(U64(m.epoch), Cons(U64(m.accel),
    Cons(U64(m.deviceGen), Cons(U64(m.obsGen), Cons(I64(m.timestamp), Cons(Bool(m.hasPower),
    Cons(I64(m.powerMw), Cons(Bool(m.hasTemp), Cons(I32(m.tempCenti), Cons(U32(m.smMhz),
    Cons(U32(m.memMhz), Cons(Bool(m.hasUtil), Cons(U16(m.utilizationBp), Cons(Bool(m.hasEnergy),
    Cons(I64(m.energyMj), Cons(Bool(m.throttled), Cons(U8(m.provenance),
    Cons(Str(m.source), Nil))))))))))))))))))))
  }

  lemma PowerObsKindsOf(m: PowerObsMsg)
    ensures KindsOf(PowerObsFields(m)) == PowerObsKinds()
  {
    var fs := PowerObsFields(m);
    var rest1 := fs.tail.tail.tail.tail;
    var rest2 := rest1.tail.tail.tail.tail;
    var rest3 := rest2.tail.tail.tail.tail;
    var rest4 := rest3.tail.tail.tail.tail;
    FourKinds(rest4.head, rest4.tail.head, rest4.tail.tail.head, rest4.tail.tail.tail.head, rest4.tail.tail.tail.tail);
    FourKinds(rest3.head, rest3.tail.head, rest3.tail.tail.head, rest3.tail.tail.tail.head, rest3.tail.tail.tail.tail);
    FourKinds(rest2.head, rest2.tail.head, rest2.tail.tail.head, rest2.tail.tail.tail.head, rest2.tail.tail.tail.tail);
    FourKinds(rest1.head, rest1.tail.head, rest1.tail.tail.head, rest1.tail.tail.tail.head, rest1.tail.tail.tail.tail);
    FourKinds(fs.head, fs.tail.head, fs.tail.tail.head, fs.tail.tail.tail.head, fs.tail.tail.tail.tail);
  }

  method EncodePowerObs(m: PowerObsMsg) returns (r: seq<byte>)
    ensures r == EncodeAll(PowerObsFields(m))
  {
    hide EncodeAll, Writer.Valid;
    var w := new Writer(PowerObsFields(m));
    w.PutU64(m.worker);
    w.PutU64(m.boot);
    w.PutU64(m.epoch);
    w.PutU64(m.accel);
    w.PutU64(m.deviceGen);
    w.PutU64(m.obsGen);
    w.PutI64(m.timestamp);
    w.PutBool(m.hasPower);
    w.PutI64(m.powerMw);
    w.PutBool(m.hasTemp);
    w.PutI32(m.tempCenti);
    w.PutU32(m.smMhz);
    w.PutU32(m.memMhz);
    w.PutBool(m.hasUtil);
    w.PutU16(m.utilizationBp);
    w.PutBool(m.hasEnergy);
    w.PutI64(m.energyMj);
    w.PutBool(m.throttled);
    w.PutU8(m.provenance);
    w.PutStr(m.source);
    r := w.Bytes();
  }

  method DecodePowerObs(payload: seq<byte>) returns (r: Option<PowerObsMsg>)
    ensures r.Some? ==> Carries(payload, PowerObsKinds(), PowerObsFields(r.value))
    ensures r.None? ==> forall fs :: !Carries(payload, PowerObsKinds(), fs)
  {
    hide ReadAll, Reader.Outlook;
    var rd := new Reader(payload, PowerObsKinds());
    var worker :- rd.GetU64();
    var boot :- rd.GetU64();
    var epoch :- rd.GetU64();
    var accel :- rd.GetU64();
    var deviceGen :- rd.GetU64();
    var obsGen :- rd.GetU64();
    var timestamp :- rd.GetI64();
    var hasPower :- rd.GetBool();
    var powerMw :- rd.GetI64();
    var hasTemp :- rd.GetBool();
    var tempCenti :- rd.GetI32();
    var smMhz :- rd.GetU32();
    var memMhz :- rd.GetU32();
    var hasUtil :- rd.GetBool();
    var utilizationBp :- rd.GetU16();
    var hasEnergy :- rd.GetBool();
    var energyMj :- rd.GetI64();
    var throttled :- rd.GetBool();
    var provenance :- rd.GetU8();
    var source :- rd.GetStr();
    var end := rd.AtEnd();
    if !end {
      return None;
    }
    return Some(PowerObsMsg(
      worker, boot, epoch, accel, deviceGen, obsGen, timestamp, hasPower, powerMw, hasTemp,
      tempCenti, smMhz, memMhz, hasUtil, utilizationBp, hasEnergy, energyMj, throttled, provenance,
      source));
  }

  /** What one side encodes the other side decodes. */
  method PowerObsRoundTrip(m: PowerObsMsg) returns (r: Option<PowerObsMsg>)
    ensures r == Some(m)
  {
    var payload := EncodePowerObs(m);
    PowerObsKindsOf(m);
    CarriesEncoded(PowerObsFields(m));
    r := DecodePowerObs(payload);
  }

  // ---- ThermalObs ----------------------------------------------------------------------

  datatype ThermalObsMsg = ThermalObsMsg(
    worker: u64, boot: u64, epoch: u64, accel: u64, thermGen: u64, obsGen: u64, timestamp: i64,
    hasTemp: bool, tempCenti: i32, state: u8)

  function ThermalObsKinds(): Kinds {
    Cons(U64Kind, Cons(U64Kind, Cons(U64Kind, Cons(U64Kind, Cons(U64Kind, Cons(U64Kind,
    Cons(I64Kind, Cons(BoolKind, Cons(I32Kind, Cons(U8Kind, Nil))))))))))
  }

  function ThermalObsFields(m: ThermalObsMsg): Fields {
    Cons(U64(m.worker), Cons(U64(m.boot), Cons(U64(m.epoch), Cons(U64(m.accel),
    Cons(U64(m.thermGen), Cons(U64(m.obsGen), Cons(I64(m.timestamp), Cons(Bool(m.hasTemp),
    Cons(I32(m.tempCenti), Cons(U8(m.state), Nil))))))))))
  }

  lemma ThermalObsKindsOf(m: ThermalObsMsg)
    ensures KindsOf(ThermalObsFields(m)) == ThermalObsKinds()
  {
    var fs := ThermalObsFields(m);
    var rest1 := fs.tail.tail.tail.tail;
    var rest2 := rest1.tail.tail.tail.tail;
    assert KindsOf(rest2.tail) == Cons(KindOf(rest2.tail.head), Nil);
    FourKinds(rest1.head, rest1.tail.head, rest1.tail.tail.head, rest1.tail.tail.tail.head, rest1.tail.tail.tail.tail);
    FourKinds(fs.head, fs.tail.head, fs.tail.tail.head, fs.tail.tail.tail.head, fs.tail.tail.tail.tail);
  }

  method EncodeThermalObs(m: ThermalObsMsg) returns (r: seq<byte>)
    ensures r == EncodeAll(ThermalObsFields(m))
  {
    hide EncodeAll, Writer.Valid;
    var w := new Writer(ThermalObsFields(m));
    w.PutU64(m.worker);
    w.PutU64(m.boot);
    w.PutU64(m.epoch);
    w.PutU64(m.accel);
    w.PutU64(m.thermGen);
    w.PutU64(m.obsGen);
    w.PutI64(m.timestamp);
    w.PutBool(m.hasTemp);
    w.PutI32(m.tempCenti);
    w.PutU8(m.state);
    r := w.Bytes();
  }

  method DecodeThermalObs(payload: seq<byte>) returns (r: Option<ThermalObsMsg>)
    ensures r.Some? ==> Carries(payload, ThermalObsKinds(), ThermalObsFields(r.value)) && r.value.state <= 6
    ensures r.None? ==> forall m: ThermalObsMsg :: Carries(payload, ThermalObsKinds(), ThermalObsFields(m)) ==> m.state > 6
  {
    hide ReadAll, Reader.Outlook;
    var rd := new Reader(payload, ThermalObsKinds());
    var worker :- rd.GetU64();
    var boot :- rd.GetU64();
    var epoch :- rd.GetU64();
    var accel :- rd.GetU64();
    var thermGen :- rd.GetU64();
    var obsGen :- rd.GetU64();
    var timestamp :- rd.GetI64();
    var hasTemp :- rd.GetBool();
    var tempCenti :- rd.GetI32();
    var state :- rd.GetU8();
    if state > 6 {
      var _ := rd.AtEnd();
      return None;
    }
    var end := rd.AtEnd();
    if !end {
      return None;
    }
    return Some(ThermalObsMsg(
      worker, boot, epoch, accel, thermGen, obsGen, timestamp, hasTemp, tempCenti, state));
  }

  /** What one side encodes the other side decodes, given an in-range enumeration. */
  method ThermalObsRoundTrip(m: ThermalObsMsg) returns (r: Option<ThermalObsMsg>)
    ensures r == if m.state <= 6 then Some(m) else None
  {
    var payload := EncodeThermalObs(m);
    ThermalObsKindsOf(m);
    CarriesEncoded(ThermalObsFields(m));
    r := DecodeThermalObs(payload);
  }

  // ---- Budget --------------------------------------------------------------------------

  datatype BudgetMsg = BudgetMsg(
    budget: u64, generation: u64, domain: u64, parent: u64, name: text, hardMaxMw: i64, softMw: i64,
    minReserveMw: i64, burstMw: i64, burstWindow: i64, recovery: i64, priority: i32,
    authoritative: bool, policyGen: u64)

  function BudgetKinds(): Kinds {
    Cons(U64Kind, Cons(U64Kind, Cons(U64Kind, Cons(U64Kind, Cons(StrKind, Cons(I64Kind,
    Cons(I64Kind, Cons(I64Kind, Cons(I64Kind, Cons(I64Kind, Cons(I64Kind, Cons(I32Kind,
    Cons(BoolKind, Cons(U64Kind, Nil))))))))))))))
  }

  function BudgetFields(m: BudgetMsg): Fields {
    Cons(U64(m.budget), Cons(U64(m.generation), Cons(U64(m.domain), Cons(U64(m.parent),
    Cons(Str(m.name), Cons(I64(m.hardMaxMw), Cons(I64(m.softMw), Cons(I64(m.minReserveMw),
    Cons(I64(m.burstMw), Cons(I64(m.burstWindow), Cons(I64(m.recovery), Cons(I32(m.priority),
    Cons(Bool(m.authoritative), Cons(U64(m.policyGen), Nil))))))))))))))
  }

  lemma BudgetKindsOf(m: BudgetMsg)
    ensures KindsOf(BudgetFields(m)) == BudgetKinds()
  {
    var fs := BudgetFields(m);
    var rest1 := fs.tail.tail.tail.tail;
    var rest2 := rest1.tail.tail.tail.tail;
    var rest3 := rest2.tail.tail.tail.tail;
    assert KindsOf(rest3.tail) == Cons(KindOf(rest3.tail.head), Nil);
    FourKinds(rest2.head, rest2.tail.head, rest2.tail.tail.head, rest2.tail.tail.tail.head, rest2.tail.tail.tail.tail);
    FourKinds(rest1.head, rest1.tail.head, rest1.tail.tail.head, rest1.tail.tail.tail.head, rest1.tail.tail.tail.tail);
    FourKinds(fs.head, fs.tail.head, fs.tail.tail.head, fs.tail.tail.tail.head, fs.tail.tail.tail.tail);
  }

  method EncodeBudget(m: BudgetMsg) returns (r: seq<byte>)
    ensures r == EncodeAll(BudgetFields(m))
  {
    hide EncodeAll, Writer.Valid;
    var w := new Writer(BudgetFields(m));
    w.PutU64(m.budget);
    w.PutU64(m.generation);
    w.PutU64(m.domain);
    w.PutU64(m.parent);
    w.PutStr(m.name);
    w.PutI64(m.hardMaxMw);
    w.PutI64(m.softMw);
    w.PutI64(m.minReserveMw);
    w.PutI64(m.burstMw);
    w.PutI64(m.burstWindow);
    w.PutI64(m.recovery);
    w.PutI32(m.priority);
    w.PutBool(m.authoritative);
    w.PutU64(m.policyGen);
    r := w.Bytes();
  }

  method DecodeBudget(payload: seq<byte>) returns (r: Option<BudgetMsg>)
    ensures r.Some? ==> Carries(payload, BudgetKinds(), BudgetFields(r.value))
    ensures r.None? ==> forall fs :: !Carries(payload, BudgetKinds(), fs)
  {
    hide ReadAll, Reader.Outlook;
    var rd := new Reader(payload, BudgetKinds());
    var budget :- rd.GetU64();
    var generation :- rd.GetU64();
    var domain :- rd.GetU64();
    var parent :- rd.GetU64();
    var name :- rd.GetStr();
    var hardMaxMw :- rd.GetI64();
    var softMw :- rd.GetI64();
    var minReserveMw :- rd.GetI64();
    var burstMw :- rd.GetI64();
    var burstWindow :- rd.GetI64();
    var recovery :- rd.GetI64();
    var priority :- rd.GetI32();
    var authoritative :- rd.GetBool();
    var policyGen :- rd.GetU64();
    var end := rd.AtEnd();
    if !end {
      return None;
    }
    return Some(BudgetMsg(
      budget, generation, domain, parent, name, hardMaxMw, softMw, minReserveMw, burstMw,
      burstWindow, recovery, priority, authoritative, policyGen));
  }

  /** What one side encodes the other side decodes. */
  method BudgetRoundTrip(m: BudgetMsg) returns (r: Option<BudgetMsg>)
    ensures r == Some(m)
  {
    var payload := EncodeBudget(m);
    BudgetKindsOf(m);
    CarriesEncoded(BudgetFields(m));
    r := DecodeBudget(payload);
  }

  // ---- Reserve -------------------------------------------------------------------------

  datatype ReserveMsg = ReserveMsg(
    reservation: u64, budget: u64, requestedMw: i64, requestedMj: i64, budgetGen: u64,
    reservationGen: u64, policyGen: u64, deviceGen: u64, workload: u64, cls: u8, scope: u64,
    epoch: u64, boot: u64, timestamp: i64, validity: i64)

  function ReserveKinds(): Kinds {
    Cons(U64Kind, Cons(U64Kind, Cons(I64Kind, Cons(I64Kind, Cons(U64Kind, Cons(U64Kind,
    Cons(U64Kind, Cons(U64Kind, Cons(U64Kind, Cons(U8Kind, Cons(U64Kind, Cons(U64Kind, Cons(U64Kind,
    Cons(I64Kind, Cons(I64Kind, Nil)))))))))))))))
  }

  function ReserveFields(m: ReserveMsg): Fields {
    Cons(U64(m.reservation), Cons(U64(m.budget), Cons(I64(m.requestedMw), Cons(I64(m.requestedMj),
    Cons(U64(m.budgetGen), Cons(U64(m.reservationGen), Cons(U64(m.policyGen), Cons(U64(m.deviceGen),
    Cons(U64(m.workload), Cons(U8(m.cls), Cons(U64(m.scope), Cons(U64(m.epoch), Cons(U64(m.boot),
    Cons(I64(m.timestamp), Cons(I64(m.validity), Nil)))))))))))))))
  }

  lemma ReserveKindsOf(m: ReserveMsg)
    ensures KindsOf(ReserveFields(m)) == ReserveKinds()
  {
    var fs := ReserveFields(m);
    var rest1 := fs.tail.tail.tail.tail;
    var rest2 := rest1.tail.tail.tail.tail;
    var rest3 := rest2.tail.tail.tail.tail;
    assert KindsOf(rest3.tail.tail) == Cons(KindOf(rest3.tail.tail.head), Nil);
    FourKinds(rest2.head, rest2.tail.head, rest2.tail.tail.head, rest2.tail.tail.tail.head, rest2.tail.tail.tail.tail);
    FourKinds(rest1.head, rest1.tail.head, rest1.tail.tail.head, rest1.tail.tail.tail.head, rest1.tail.tail.tail.tail);
    FourKinds(fs.head, fs.tail.head, fs.tail.tail.head, fs.tail.tail.tail.head, fs.tail.tail.tail.tail);
  }

  method EncodeReserve(m: ReserveMsg) returns (r: seq<byte>)
    ensures r == EncodeAll(ReserveFields(m))
  {
    hide EncodeAll, Writer.Valid;
    var w := new Writer(ReserveFields(m));
    w.PutU64(m.reservation);
    w.PutU64(m.budget);
    w.PutI64(m.requestedMw);
    w.PutI64(m.requestedMj);
    w.PutU64(m.budgetGen);
    w.PutU64(m.reservationGen);
    w.PutU64(m.policyGen);
    w.PutU64(m.deviceGen);
    w.PutU64(m.workload);
    w.PutU8(m.cls);
    w.PutU64(m.scope);
    w.PutU64(m.epoch);
    w.PutU64(m.boot);
    w.PutI64(m.timestamp);
    w.PutI64(m.validity);
    r := w.Bytes();
  }

  method DecodeReserve(payload: seq<byte>) returns (r: Option<ReserveMsg>)
    ensures r.Some? ==> Carries(payload, ReserveKinds(), ReserveFields(r.value)) && r.value.cls <= 7
    ensures r.None? ==> forall m: ReserveMsg :: Carries(payload, ReserveKinds(), ReserveFields(m)) ==> m.cls > 7
  {
    hide ReadAll, Reader.Outlook;
    var rd := new Reader(payload, ReserveKinds());
    var reservation :- rd.GetU64();
    var budget :- rd.GetU64();
    var requestedMw :- rd.GetI64();
    var requestedMj :- rd.GetI64();
    var budgetGen :- rd.GetU64();
    var reservationGen :- rd.GetU64();
    var policyGen :- rd.GetU64();
    var deviceGen :- rd.GetU64();
    var workload :- rd.GetU64();
    var cls :- rd.GetU8();
    var scope :- rd.GetU64();
    var epoch :- rd.GetU64();
    var boot :- rd.GetU64();
    var timestamp :- rd.GetI64();
    var validity :- rd.GetI64();
    if cls > 7 {
      var _ := rd.AtEnd();
      return None;
    }
    var end := rd.AtEnd();
    if !end {
      return None;
    }
    return Some(ReserveMsg(
      reservation, budget, requestedMw, requestedMj, budgetGen, reservationGen, policyGen,
      deviceGen, workload, cls, scope, epoch, boot, timestamp, validity));
  }

  /** What one side encodes the other side decodes, given an in-range enumeration. */
  method ReserveRoundTrip(m: ReserveMsg) returns (r: Option<ReserveMsg>)
    ensures r == if m.cls <= 7 then Some(m) else None
  {
    var payload := EncodeReserve(m);
    ReserveKindsOf(m);
    CarriesEncoded(ReserveFields(m));
    r := DecodeReserve(payload);
  }

  // ---- Action --------------------------------------------------------------------------

  datatype ActionMsg = ActionMsg(
    reservation: u64, budget: u64, amountMw: i64, budgetGen: u64, epoch: u64, boot: u64)

  function ActionKinds(): Kinds {
    Cons(U64Kind, Cons(U64Kind, Cons(I64Kind, Cons(U64Kind, Cons(U64Kind, Cons(U64Kind, Nil))))))
  }

  function ActionFields(m: ActionMsg): Fields {
    Cons(U64(m.reservation), Cons(U64(m.budget), Cons(I64(m.amountMw), Cons(U64(m.budgetGen),
    Cons(U64(m.epoch), Cons(U64(m.boot), Nil))))))
  }

  lemma ActionKindsOf(m: ActionMsg)
    ensures KindsOf(ActionFields(m)) == ActionKinds()
  {
    var fs := ActionFields(m);
    var rest1 := fs.tail.tail.tail.tail;
    assert KindsOf(rest1.tail) == Cons(KindOf(rest1.tail.head), Nil);
    FourKinds(fs.head, fs.tail.head, fs.tail.tail.head, fs.tail.tail.tail.head, fs.tail.tail.tail.tail);
  }

  method EncodeAction(m: ActionMsg) returns (r: seq<byte>)
    ensures r == EncodeAll(ActionFields(m))
  {
    hide EncodeAll, Writer.Valid;
    var w := new Writer(ActionFields(m));
    w.PutU64(m.reservation);
    w.PutU64(m.budget);
    w.PutI64(m.amountMw);
    w.PutU64(m.budgetGen);
    w.PutU64(m.epoch);
    w.PutU64(m.boot);
    r := w.Bytes();
  }

  method DecodeAction(payload: seq<byte>) returns (r: Option<ActionMsg>)
    ensures r.Some? ==> Carries(payload, ActionKinds(), ActionFields(r.value))
    ensures r.None? ==> forall fs :: !Carries(payload, ActionKinds(), fs)
  {
    hide ReadAll, Reader.Outlook;
    var rd := new Reader(payload, ActionKinds());
    var reservation :- rd.GetU64();
    var budget :- rd.GetU64();
    var amountMw :- rd.GetI64();
    var budgetGen :- rd.GetU64();
    var epoch :- rd.GetU64();
    var boot :- rd.GetU64();
    var end := rd.AtEnd();
    if !end {
      return None;
    }
    return Some(ActionMsg(reservation, budget, amountMw, budgetGen, epoch, boot));
  }

  /** What one side encodes the other side decodes. */
  method ActionRoundTrip(m: ActionMsg) returns (r: Option<ActionMsg>)
    ensures r == Some(m)
  {
    var payload := EncodeAction(m);
    ActionKindsOf(m);
    CarriesEncoded(ActionFields(m));
    r := DecodeAction(payload);
  }

  // ---- Ack -----------------------------------------------------------------------------

  datatype AckMsg = AckMsg(
    messageId: u64, ok: bool, message: text)

  function AckKinds(): Kinds {
    Cons(U64Kind, Cons(BoolKind, Cons(StrKind, Nil)))
  }

  function AckFields(m: AckMsg): Fields {
    Cons(U64(m.messageId), Cons(Bool(m.ok), Cons(Str(m.message), Nil)))
  }

  lemma AckKindsOf(m: AckMsg)
    ensures KindsOf(AckFields(m)) == AckKinds()
  {
    var fs := AckFields(m);
    assert KindsOf(fs.tail.tail) == Cons(KindOf(fs.tail.tail.head), Nil);
  }

  method EncodeAck(m: AckMsg) returns (r: seq<byte>)
    ensures r == EncodeAll(AckFields(m))
  {
    hide EncodeAll, Writer.Valid;
    var w := new Writer(AckFields(m));
    w.PutU64(m.messageId);
    w.PutBool(m.ok);
    w.PutStr(m.message);
    r := w.Bytes();
  }

  method DecodeAck(payload: seq<byte>) returns (r: Option<AckMsg>)
    ensures r.Some? ==> Carries(payload, AckKinds(), AckFields(r.value))
    ensures r.None? ==> forall fs :: !Carries(payload, AckKinds(), fs)
  {
    hide ReadAll, Reader.Outlook;
    var rd := new Reader(payload, AckKinds());
    var messageId :- rd.GetU64();
    var ok :- rd.GetBool();
    var message :- rd.GetStr();
    var end := rd.AtEnd();
    if !end {
      return None;
    }
    return Some(AckMsg(messageId, ok, message));
  }

  /** What one side encodes the other side decodes. */
  method AckRoundTrip(m: AckMsg) returns (r: Option<AckMsg>)
    ensures r == Some(m)
  {
    var payload := EncodeAck(m);
    AckKindsOf(m);
    CarriesEncoded(AckFields(m));
    r := DecodeAck(payload);
  }
}
