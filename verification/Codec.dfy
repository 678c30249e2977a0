/** Little-endian byte codecs: BinWriter / BinReader of the persistence layer and WireWriter /
    WireReader of the wire protocol, which encode every type the same way.

    A written record is described by its list of fields.  The writer keeps that list as a ghost
    history, the reader keeps the list of kinds it is about to read, so one induction over fields
    gives the round trip of every record in the project. */
module Codec {
  import opened Basics
  import Bytes

  type u8 = n: nat | n < 0x100
  type u16 = n: nat | n < 0x1_0000
  type u32 = n: nat | n < 0x1_0000_0000
  type u64 = n: nat | n < 0x1_0000_0000_0000_0000
  type i32 = n: int | -0x8000_0000 <= n < 0x8000_0000
  type i64 = n: int | -0x8000_0000_0000_0000 <= n < 0x8000_0000_0000_0000
  /** Longer strings make the writer throw. */
  type text = s: seq<byte> | |s| < 0x1_0000_0000

  // ---- integers as bytes -----------------------------------------------------------------

  /** static_cast<uint8_t> */
  function Low(v: nat): byte { (v % 256) as byte }

  function Value(b: byte): (n: nat)
    ensures n < 256
  {
    b as int
  }

  lemma ValueLow(v: nat)
    ensures Value(Low(v)) == v % 256
  {
    Bytes.ThroughByte(v % 256);
  }

  function LE(v: nat, n: nat): (r: seq<byte>)
    ensures |r| == n
    decreases n
  {
    if n == 0 then [] else [Low(v)] + LE(v / 256, n - 1)
  }

  function FromLE(s: seq<byte>): nat
    decreases |s|
  {
    if s == [] then 0 else Value(s[0]) + 256 * FromLE(s[1..])
  }

  /** 256 to the n. */
  function Base(n: nat): (r: nat)
    ensures r > 0
    decreases n
  {
    if n == 0 then 1 else 256 * Base(n - 1)
  }

  /** v >> (8 * i) */
  function ShiftRight(v: nat, i: nat): nat
    decreases i
  {
    if i == 0 then v else ShiftRight(v / 256, i - 1)
  }

  /** b << (8 * i) */
  function ShiftLeft(b: nat, i: nat): nat
    decreases i
  {
    if i == 0 then b else 256 * ShiftLeft(b, i - 1)
  }

  lemma {:induction false} LERoundTrip(v: nat, n: nat)
    requires v < Base(n)
    ensures FromLE(LE(v, n)) == v
    decreases n
  {
    hide Low, Value;
    if n > 0 {
      ValueLow(v);
      LERoundTrip(v / 256, n - 1);
      assert LE(v, n)[1..] == LE(v / 256, n - 1);
    }
  }

  lemma {:induction false} LEAppend(v: nat, n: nat)
    ensures LE(v, n + 1) == LE(v, n) + [Low(ShiftRight(v, n))]
    decreases n
  {
    if n > 0 {
      LEAppend(v / 256, n - 1);
    } else {
      assert LE(v / 256, 0) == [];
    }
  }

  lemma {:induction false} FromLEAppend(s: seq<byte>, b: byte)
    ensures FromLE(s + [b]) == FromLE(s) + ShiftLeft(Value(b), |s|)
    decreases |s|
  {
    if s == [] {
      assert (s + [b])[1..] == [];
      assert FromLE([]) == 0;
    } else {
      assert (s + [b])[1..] == s[1..] + [b];
      FromLEAppend(s[1..], b);
    }
  }

  lemma {:induction false} FromLEBound(s: seq<byte>)
    ensures FromLE(s) < Base(|s|)
    decreases |s|
  {
    if s != [] {
      FromLEBound(s[1..]);
    }
  }

  lemma BaseValues()
    ensures Base(1) == 0x100 && Base(2) == 0x1_0000 && Base(4) == 0x1_0000_0000
    ensures Base(8) == 0x1_0000_0000_0000_0000
  {
    assert Base(0) == 1;
    assert Base(3) == 0x100_0000;
    assert Base(4) == 0x1_0000_0000;
    assert Base(5) == 0x100_0000_0000;
    assert Base(6) == 0x1_0000_0000_0000;
    assert Base(7) == 0x100_0000_0000_0000;
  }

  // ---- fields ----------------------------------------------------------------------------

  datatype Kind = U8Kind | U16Kind | U32Kind | U64Kind | I32Kind | I64Kind | BoolKind | StrKind

  datatype Field =
    | U8(n8: u8)
    | U16(n16: u16)
    | U32(n32: u32)
    | U64(n64: u64)
    | I32(z32: i32)
    | I64(z64: i64)
    | Bool(b: bool)
    | Str(s: text)

  function KindOf(f: Field): Kind {
    match f
    case U8(_) => U8Kind
    case U16(_) => U16Kind
    case U32(_) => U32Kind
    case U64(_) => U64Kind
    case I32(_) => I32Kind
    case I64(_) => I64Kind
    case Bool(_) => BoolKind
    case Str(_) => StrKind
  }

  /** A signed value is stored as its two's complement bit pattern. */
  function Unsigned(v: int, modulus: nat): nat
    requires modulus > 0
  {
    v % modulus
  }

  function Signed32(u: u32): i32 {
    if u < 0x8000_0000 then u else u - 0x1_0000_0000
  }

  function Signed64(u: u64): i64 {
    if u < 0x8000_0000_0000_0000 then u else u - 0x1_0000_0000_0000_0000
  }

  function Encode(f: Field): seq<byte> {
    match f
    case U8(n) => LE(n, 1)
    case U16(n) => LE(n, 2)
    case U32(n) => LE(n, 4)
    case U64(n) => LE(n, 8)
    case I32(v) => LE(Unsigned(v, 0x1_0000_0000), 4)
    case I64(v) => LE(Unsigned(v, 0x1_0000_0000_0000_0000), 8)
    case Bool(b) => LE(if b then 1 else 0, 1)
    case Str(s) => LE(|s|, 4) + s
  }

  function ReadInt(n: nat, s: seq<byte>): (r: Option<(nat, seq<byte>)>)
    ensures r.Some? ==> r.value.0 < Base(n)
  {
    if |s| < n then None
    else
      FromLEBound(s[..n]);
      Some((FromLE(s[..n]), s[n..]))
  }

  function ReadText(s: seq<byte>): (r: Option<(Field, seq<byte>)>)
    ensures r.Some? ==> r.value.0.Str?
  {
    BaseValues();
    var (len, rest) :- ReadInt(4, s);
    if |rest| < len then None else Some((Str(rest[..len]), rest[len..]))
  }

  function Read(k: Kind, s: seq<byte>): Option<(Field, seq<byte>)> {
    BaseValues();
    match k
    case U8Kind => var (n, rest) :- ReadInt(1, s); Some((U8(n), rest))
    case U16Kind => var (n, rest) :- ReadInt(2, s); Some((U16(n), rest))
    case U32Kind => var (n, rest) :- ReadInt(4, s); Some((U32(n), rest))
    case U64Kind => var (n, rest) :- ReadInt(8, s); Some((U64(n), rest))
    case I32Kind => var (n, rest) :- ReadInt(4, s); Some((I32(Signed32(n)), rest))
    case I64Kind => var (n, rest) :- ReadInt(8, s); Some((I64(Signed64(n)), rest))
    case BoolKind => var (n, rest) :- ReadInt(1, s); Some((Bool(n != 0), rest))
    case StrKind => ReadText(s)
  }

  type Fields = List<Field>
  type Kinds = List<Kind>
  /** What a reader obtained, and the bytes it left. */
  type Reading = Option<(Fields, seq<byte>)>

  function EncodeAll(fs: Fields): seq<byte> {
    match fs
    case Nil => []
    case Cons(f, rest) => Encode(f) + EncodeAll(rest)
  }

  function KindsOf(fs: Fields): Kinds {
    match fs
    case Nil => Nil
    case Cons(f, rest) => Cons(KindOf(f), KindsOf(rest))
  }

  function Push(f: Field, r: Reading): Reading {
    match r
    case None => None
    case Some((fs, rest)) => Some((Cons(f, fs), rest))
  }

  function ReadAll(ks: Kinds, s: seq<byte>): Reading {
    match ks
    case Nil => Some((Nil, s))
    case Cons(k, more) =>
      match Read(k, s)
      case None => None
      case Some((f, rest)) => Push(f, ReadAll(more, rest))
  }

  lemma ReadIntEncoded(v: nat, n: nat, rest: seq<byte>)
    requires v < Base(n)
    ensures ReadInt(n, LE(v, n) + rest) == Some((v, rest))
  {
    LERoundTrip(v, n);
    assert (LE(v, n) + rest)[..n] == LE(v, n);
    assert (LE(v, n) + rest)[n..] == rest;
  }

  lemma ReadEncoded(f: Field, rest: seq<byte>)
    ensures Read(KindOf(f), Encode(f) + rest) == Some((f, rest))
  {
    hide LE, FromLE;
    BaseValues();
    match f
    case U8(n) => ReadIntEncoded(n, 1, rest);
    case U16(n) => ReadIntEncoded(n, 2, rest);
    case U32(n) => ReadIntEncoded(n, 4, rest);
    case U64(n) => ReadIntEncoded(n, 8, rest);
    case I32(v) => ReadIntEncoded(Unsigned(v, 0x1_0000_0000), 4, rest);
    case I64(v) => ReadIntEncoded(Unsigned(v, 0x1_0000_0000_0000_0000), 8, rest);
    case Bool(b) => ReadIntEncoded(if b then 1 else 0, 1, rest);
    case Str(s) =>
      ReadIntEncoded(|s|, 4, s + rest);
      assert Encode(f) + rest == LE(|s|, 4) + (s + rest);
      assert (s + rest)[..|s|] == s && (s + rest)[|s|..] == rest;
  }

  /** Reading back what was written returns it and leaves what followed. */
  lemma {:induction false} RoundTrip(fs: Fields, rest: seq<byte>)
    ensures ReadAll(KindsOf(fs), EncodeAll(fs) + rest) == Some((fs, rest))
  {
    match fs
    case Nil => assert EncodeAll(fs) + rest == rest;
    case Cons(f, more) =>
      ReadEncoded(f, EncodeAll(more) + rest);
      assert EncodeAll(fs) + rest == Encode(f) + (EncodeAll(more) + rest);
      RoundTrip(more, rest);
  }

  lemma {:induction false} EncodeAllAppend(a: Fields, b: Fields)
    ensures EncodeAll(Append(a, b)) == EncodeAll(a) + EncodeAll(b)
  {
    match a
    case Nil => assert EncodeAll(a) + EncodeAll(b) == EncodeAll(b);
    case Cons(f, rest) => EncodeAllAppend(rest, b);
  }

  /** Unrolls the kinds of a long record, four fields at a time. */
  lemma FourKinds(a: Field, b: Field, c: Field, d: Field, rest: Fields)
    ensures KindsOf(Cons(a, Cons(b, Cons(c, Cons(d, rest))))) ==
            Cons(KindOf(a), Cons(KindOf(b), Cons(KindOf(c), Cons(KindOf(d), KindsOf(rest)))))
  {
    assert KindsOf(Cons(c, Cons(d, rest))) == Cons(KindOf(c), Cons(KindOf(d), KindsOf(rest)));
  }

  /** The same, read backwards. */
  lemma ThreeFields(fs: Fields, k: Kind, l: Kind, m: Kind, rest: Kinds)
    requires KindsOf(fs) == Cons(k, Cons(l, Cons(m, rest)))
    ensures fs.Cons? && fs.tail.Cons? && fs.tail.tail.Cons?
    ensures KindOf(fs.head) == k && KindOf(fs.tail.head) == l && KindOf(fs.tail.tail.head) == m
    ensures KindsOf(fs.tail.tail.tail) == rest
  {
    assert KindsOf(fs.tail) == Cons(l, Cons(m, rest));
    assert KindsOf(fs.tail.tail) == Cons(m, rest);
  }

  /** Lists of fields of the same kinds have different encodings when they differ. */
  lemma EncodeAllInjective(a: Fields, b: Fields)
    requires KindsOf(a) == KindsOf(b) && EncodeAll(a) == EncodeAll(b)
    ensures a == b
  {
    RoundTrip(a, []);
    RoundTrip(b, []);
    assert EncodeAll(a) + [] == EncodeAll(b) + [];
  }

  // ---- fixed-width unsigned fields have one encoding only -----------------------------------

  lemma {:induction false} LEFromLE(s: seq<byte>)
    ensures LE(FromLE(s), |s|) == s
    decreases |s|
  {
    hide Low, Value;
    if s != [] {
      LEFromLE(s[1..]);
      LowValue(s[0], FromLE(s[1..]));
      assert s == [s[0]] + s[1..];
    }
  }

  lemma LowValue(b: byte, n: nat)
    ensures Low(Value(b) + 256 * n) == b
    ensures (Value(b) + 256 * n) / 256 == n
  {
    assert (Value(b) + 256 * n) % 256 == Value(b);
    LowOfValue(b);
  }

  lemma LowOfValue(b: byte)
    ensures Value(b) as byte == b
  {}

  predicate Fixed(k: Kind) { k.U8Kind? || k.U16Kind? || k.U32Kind? || k.U64Kind? }

  predicate AllFixed(ks: Kinds) {
    match ks
    case Nil => true
    case Cons(k, rest) => Fixed(k) && AllFixed(rest)
  }

  function WidthOf(k: Kind): nat {
    match k
    case U8Kind => 1
    case U16Kind => 2
    case U32Kind => 4
    case _ => 8
  }

  function Width(ks: Kinds): nat {
    match ks
    case Nil => 0
    case Cons(k, rest) => WidthOf(k) + Width(rest)
  }

  lemma FixedReadOne(k: Kind, s: seq<byte>)
    requires Fixed(k)
    ensures Read(k, s).Some? <==> |s| >= WidthOf(k)
    ensures Read(k, s).Some? ==>
              var (f, rest) := Read(k, s).value;
              KindOf(f) == k && s[..WidthOf(k)] == Encode(f) && s[WidthOf(k)..] == rest
  {
    hide LE, FromLE;
    if |s| >= WidthOf(k) {
      LEFromLE(s[..WidthOf(k)]);
    }
  }

  /** A header of fixed-width unsigned fields can be read exactly when the bytes are there, and
      then the bytes read are the encoding of the fields returned. */
  lemma {:induction false} FixedRead(ks: Kinds, s: seq<byte>)
    requires AllFixed(ks)
    ensures ReadAll(ks, s).Some? <==> |s| >= Width(ks)
    ensures ReadAll(ks, s).Some? ==>
              var (fs, rest) := ReadAll(ks, s).value;
              && KindsOf(fs) == ks
              && s[..Width(ks)] == EncodeAll(fs) && s[Width(ks)..] == rest
  {
    hide Read, Encode, Fixed, WidthOf;
    match ks
    case Nil =>
    case Cons(k, more) =>
      FixedReadOne(k, s);
      if Read(k, s).Some? {
        var (f, rest) := Read(k, s).value;
        FixedRead(more, rest);
        if |s| >= Width(ks) {
          assert s[..Width(ks)] == s[..WidthOf(k)] + rest[..Width(more)];
        }
      }
  }

  // ---- writer ----------------------------------------------------------------------------

  /** The writer knows the record it is asked to write: what is in the buffer followed by the
      encoding of what is still to come is its goal. */
  class Writer {
    var buf: seq<byte>
    ghost var goal: seq<byte>
    ghost var todo: Fields

    ghost predicate Valid()
      reads this
    {
      buf + EncodeAll(todo) == goal
    }

    constructor (ghost record: Fields)
      ensures Valid() && goal == EncodeAll(record) && todo == record && buf == []
    {
      hide EncodeAll;
      buf := [];
      goal := EncodeAll(record);
      todo := record;
      new;
      assert [] + EncodeAll(record) == EncodeAll(record);
    }

    /** Announces the next record. */
    ghost method Expect(record: Fields)
      requires Valid() && todo == Nil
      modifies this`goal, this`todo
      ensures Valid() && goal == buf + EncodeAll(record) && todo == record
    {
      goal := buf + EncodeAll(record);
      todo := record;
    }

    /** The byte loop shared by u8, u16, u32 and u64. */
    method Put(v: nat, n: nat)
      modifies this`buf
      ensures buf == old(buf) + LE(v, n)
    {
      var rest := v;
      for i := 0 to n
        invariant rest == ShiftRight(v, i)
        invariant buf == old(buf) + LE(v, i)
      {
        buf := buf + [Low(rest)];
        rest := rest / 256;
        LEAppend(v, i);
        ShiftRightNext(v, i);
      }
    }

    ghost method Advance(f: Field, before: seq<byte>)
      requires todo.Cons? && todo.head == f && before + EncodeAll(todo) == goal && buf == before + Encode(f)
      modifies this`todo
      ensures Valid() && todo == old(todo).tail
    {
      hide Encode;
      assert buf + EncodeAll(todo.tail) == before + EncodeAll(todo);
      todo := todo.tail;
    }

    method PutU8(v: u8)
      requires Valid() && todo.Cons? && todo.head == U8(v)
      modifies this
      ensures Valid() && todo == old(todo).tail && goal == old(goal)
    {
      hide LE, EncodeAll;
      ghost var before := buf;
      Put(v, 1);
      Advance(U8(v), before);
    }

    method PutU16(v: u16)
      requires Valid() && todo.Cons? && todo.head == U16(v)
      modifies this
      ensures Valid() && todo == old(todo).tail && goal == old(goal)
    {
      hide LE, EncodeAll;
      ghost var before := buf;
      Put(v, 2);
      Advance(U16(v), before);
    }

    method PutU32(v: u32)
      requires Valid() && todo.Cons? && todo.head == U32(v)
      modifies this
      ensures Valid() && todo == old(todo).tail && goal == old(goal)
    {
      hide LE, EncodeAll;
      ghost var before := buf;
      Put(v, 4);
      Advance(U32(v), before);
    }

    method PutU64(v: u64)
      requires Valid() && todo.Cons? && todo.head == U64(v)
      modifies this
      ensures Valid() && todo == old(todo).tail && goal == old(goal)
    {
      hide LE, EncodeAll;
      ghost var before := buf;
      Put(v, 8);
      Advance(U64(v), before);
    }

    method PutI32(v: i32)
      requires Valid() && todo.Cons? && todo.head == I32(v)
      modifies this
      ensures Valid() && todo == old(todo).tail && goal == old(goal)
    {
      hide LE, EncodeAll;
      ghost var before := buf;
      Put(Unsigned(v, 0x1_0000_0000), 4);
      Advance(I32(v), before);
    }

    method PutI64(v: i64)
      requires Valid() && todo.Cons? && todo.head == I64(v)
      modifies this
      ensures Valid() && todo == old(todo).tail && goal == old(goal)
    {
      hide LE, EncodeAll;
      ghost var before := buf;
      Put(Unsigned(v, 0x1_0000_0000_0000_0000), 8);
      Advance(I64(v), before);
    }

    method PutBool(v: bool)
      requires Valid() && todo.Cons? && todo.head == Bool(v)
      modifies this
      ensures Valid() && todo == old(todo).tail && goal == old(goal)
    {
      hide LE, EncodeAll;
      ghost var before := buf;
      Put(if v then 1 else 0, 1);
      Advance(Bool(v), before);
    }

    method PutStr(v: text)
      requires Valid() && todo.Cons? && todo.head == Str(v)
      modifies this
      ensures Valid() && todo == old(todo).tail && goal == old(goal)
    {
      hide LE, EncodeAll;
      ghost var before := buf;
      Put(|v|, 4);
      buf := buf + v;
      Advance(Str(v), before);
    }

    /** `take`, once the record is complete. */
    method Bytes() returns (r: seq<byte>)
      requires Valid() && todo == Nil
      ensures r == buf == goal
    {
      assert buf + [] == buf;
      r := buf;
    }
  }

  lemma {:induction false} ShiftRightNext(v: nat, i: nat)
    ensures ShiftRight(v, i + 1) == ShiftRight(v, i) / 256
    decreases i
  {
    if i > 0 {
      ShiftRightNext(v / 256, i - 1);
    }
  }

  // ---- reader ----------------------------------------------------------------------------

  /** The reader knows what it is asked to read next; `Outlook` is what reading all of it from the
      current position would return. */
  class Reader {
    const data: seq<byte>
    var pos: nat
    ghost var todo: Kinds

    ghost predicate Valid()
      reads this
    {
      pos <= |data|
    }

    ghost function Outlook(): Reading
      requires Valid()
      reads this
    {
      ReadAll(todo, data[pos..])
    }

    constructor (data: seq<byte>, ghost plan: Kinds)
      ensures Valid() && this.data == data && pos == 0 && todo == plan
      ensures Outlook() == ReadAll(plan, data)
    {
      this.data := data;
      pos := 0;
      todo := plan;
      new;
      assert data[0..] == data;
    }

    /** Announces what is read next. */
    ghost method Expect(plan: Kinds)
      requires Valid()
      modifies this`todo
      ensures todo == plan && Outlook() == ReadAll(plan, data[pos..])
    {
      todo := plan;
    }

    /** The byte loop shared by all integers; a short input leaves `pos` at its end. */
    method Take(n: nat) returns (v: Option<nat>)
      requires Valid()
      modifies this`pos
      ensures Valid()
      ensures v == match ReadInt(n, data[old(pos)..]) case None => None case Some((x, _)) => Some(x)
      ensures v.Some? ==> pos == old(pos) + n && v.value < Base(n)
    {
      var r := 0;
      ghost var start := pos;
      for i := 0 to n
        invariant pos == start + i <= |data|
        invariant r == FromLE(data[start..pos])
      {
        if pos + 1 > |data| {
          return None;
        }
        FromLEAppend(data[start..pos], data[pos]);
        assert data[start..pos + 1] == data[start..pos] + [data[pos]];
        r := r + ShiftLeft(Value(data[pos]), i);
        pos := pos + 1;
      }
      assert data[start..][..n] == data[start..pos];
      return Some(r);
    }

    /** `at_end` */
    method AtEnd() returns (r: bool)
      requires Valid() && todo == Nil
      ensures Outlook() == Some((Nil, data[pos..]))
      ensures r <==> data[pos..] == []
    {
      r := pos == |data|;
    }

    method GetU8() returns (v: Option<u8>)
      requires Valid() && todo.Cons? && todo.head == U8Kind
      modifies this
      ensures Valid()
      ensures v.Some? ==> todo == old(todo).tail && old(Outlook()) == Push(U8(v.value), Outlook())
      ensures v.None? ==> old(Outlook()).None?
    {
      hide FromLE, Base;
      BaseValues();
      ghost var before := data[pos..];
      var n :- Take(1);
      assert before[1..] == data[pos..];
      todo := todo.tail;
      return Some(n);
    }

    method GetU16() returns (v: Option<u16>)
      requires Valid() && todo.Cons? && todo.head == U16Kind
      modifies this
      ensures Valid()
      ensures v.Some? ==> todo == old(todo).tail && old(Outlook()) == Push(U16(v.value), Outlook())
      ensures v.None? ==> old(Outlook()).None?
    {
      hide FromLE, Base;
      BaseValues();
      ghost var before := data[pos..];
      var n :- Take(2);
      assert before[2..] == data[pos..];
      todo := todo.tail;
      return Some(n);
    }

    method GetU32() returns (v: Option<u32>)
      requires Valid() && todo.Cons? && todo.head == U32Kind
      modifies this
      ensures Valid()
      ensures v.Some? ==> todo == old(todo).tail && old(Outlook()) == Push(U32(v.value), Outlook())
      ensures v.None? ==> old(Outlook()).None?
    {
      hide FromLE, Base;
      BaseValues();
      ghost var before := data[pos..];
      var n :- Take(4);
      assert before[4..] == data[pos..];
      todo := todo.tail;
      return Some(n);
    }

    method GetU64() returns (v: Option<u64>)
      requires Valid() && todo.Cons? && todo.head == U64Kind
      modifies this
      ensures Valid()
      ensures v.Some? ==> todo == old(todo).tail && old(Outlook()) == Push(U64(v.value), Outlook())
      ensures v.None? ==> old(Outlook()).None?
    {
      hide FromLE, Base;
      BaseValues();
      ghost var before := data[pos..];
      var n :- Take(8);
      assert before[8..] == data[pos..];
      todo := todo.tail;
      return Some(n);
    }

    method GetI32() returns (v: Option<i32>)
      requires Valid() && todo.Cons? && todo.head == I32Kind
      modifies this
      ensures Valid()
      ensures v.Some? ==> todo == old(todo).tail && old(Outlook()) == Push(I32(v.value), Outlook())
      ensures v.None? ==> old(Outlook()).None?
    {
      hide FromLE, Base;
      BaseValues();
      ghost var before := data[pos..];
      var n :- Take(4);
      assert before[4..] == data[pos..];
      todo := todo.tail;
      return Some(Signed32(n));
    }

    method GetI64() returns (v: Option<i64>)
      requires Valid() && todo.Cons? && todo.head == I64Kind
      modifies this
      ensures Valid()
      ensures v.Some? ==> todo == old(todo).tail && old(Outlook()) == Push(I64(v.value), Outlook())
      ensures v.None? ==> old(Outlook()).None?
    {
      hide FromLE, Base;
      BaseValues();
      ghost var before := data[pos..];
      var n :- Take(8);
      assert before[8..] == data[pos..];
      todo := todo.tail;
      return Some(Signed64(n));
    }

    method GetBool() returns (v: Option<bool>)
      requires Valid() && todo.Cons? && todo.head == BoolKind
      modifies this
      ensures Valid()
      ensures v.Some? ==> todo == old(todo).tail && old(Outlook()) == Push(Bool(v.value), Outlook())
      ensures v.None? ==> old(Outlook()).None?
    {
      hide FromLE, Base;
      BaseValues();
      ghost var before := data[pos..];
      var n :- Take(1);
      assert before[1..] == data[pos..];
      todo := todo.tail;
      return Some(n != 0);
    }

    method GetStr() returns (v: Option<text>)
      requires Valid() && todo.Cons? && todo.head == StrKind
      modifies this
      ensures Valid()
      ensures v.Some? ==> todo == old(todo).tail && old(Outlook()) == Push(Str(v.value), Outlook())
      ensures v.None? ==> old(Outlook()).None?
    {
      hide FromLE, Base;
      BaseValues();
      ghost var before := data[pos..];
      var len :- Take(4);
      assert before[4..] == data[pos..];
      if len > |data| - pos {
        return None;
      }
      var s := data[pos..pos + len];
      assert data[pos..][..len] == s && data[pos..][len..] == data[pos + len..];
      pos := pos + len;
      todo := todo.tail;
      return Some(s);
    }
  }
}
