/** Framing of the coordinator / worker protocol: magic, protocol version, message type, payload
    length, payload, CRC-32. */
module Wire {
  import opened Basics
  import opened Codec
  import Crc

  const MAGIC: u32 := 0x43544750
  const MAJOR: u16 := 1
  const MAX_FRAME: nat := 16 * 1024 * 1024
  const HEADER: nat := 12
  const TRAILER: nat := 4

  /** HELLO = 1 .. ERROR = 16 */
  type msgtype = t: u16 | 1 <= t <= 16 witness 1

  datatype Frame = Frame(kind: msgtype, payload: seq<byte>)

  datatype Error =
    | TooSmall | BadMagic | BadVersion | BadType | Oversized | TruncatedPayload | CrcMismatch

  datatype Outcome = Parsed(frame: Frame, consumed: nat) | Rejected(error: Error)

  function HeaderKinds(): Kinds { Cons(U32Kind, Cons(U16Kind, Cons(U16Kind, Cons(U32Kind, Nil)))) }

  function Header(magic: u32, major: u16, kind: u16, len: u32): Fields {
    Cons(U32(magic), Cons(U16(major), Cons(U16(kind), Cons(U32(len), Nil))))
  }

  function HeaderFields(kind: msgtype, len: u32): Fields { Header(MAGIC, MAJOR, kind, len) }

  lemma HeaderKindsOf(magic: u32, major: u16, kind: u16, len: u32)
    ensures KindsOf(Header(magic, major, kind, len)) == HeaderKinds()
  {
    FourKinds(U32(magic), U16(major), U16(kind), U32(len), Nil);
  }

  function Body(f: Frame): seq<byte>
    requires |f.payload| <= MAX_FRAME
  {
    EncodeAll(HeaderFields(f.kind, |f.payload|)) + f.payload
  }

  function Serialized(f: Frame): seq<byte>
    requires |f.payload| <= MAX_FRAME
  {
    Body(f) + Crc.Stored(Crc.Checksum(Body(f)))
  }

  /** `serialize_frame`; None is the length_error it throws. */
  method Serialize(f: Frame) returns (r: Option<seq<byte>>)
    ensures r.Some? <==> |f.payload| <= MAX_FRAME
    ensures r.Some? ==> r.value == Serialized(f)
  {
    if |f.payload| > MAX_FRAME {
      return None;
    }
    var w := new Writer(HeaderFields(f.kind, |f.payload|));
    w.PutU32(MAGIC);
    w.PutU16(MAJOR);
    w.PutU16(f.kind);
    w.PutU32(|f.payload|);
    var header := w.Bytes();
    var out := header + f.payload;
    var crc := Crc.Compute(out);
    return Some(out + Crc.Stored(crc));
  }

  /** What `deserialize_frame` answers, in the order in which it tests. */
  function Deserialized(data: seq<byte>): Outcome {
    HeaderShape(data);
    match ReadAll(HeaderKinds(), data)
    case Some((Cons(U32(magic), Cons(U16(major), Cons(U16(kind), Cons(U32(len), Nil)))), _)) =>
      if |data| < HEADER + TRAILER then Rejected(TooSmall)
      else if magic != MAGIC then Rejected(BadMagic)
      else if major != MAJOR then Rejected(BadVersion)
      else if !(1 <= kind <= 16) then Rejected(BadType)
      else if len > MAX_FRAME then Rejected(Oversized)
      else if |data| < HEADER + len + TRAILER then Rejected(TruncatedPayload)
      else if Crc.Loaded(data[HEADER + len..HEADER + len + 4]) != Crc.Checksum(data[..HEADER + len])
      then Rejected(CrcMismatch)
      else Parsed(Frame(kind, data[HEADER..HEADER + len]), HEADER + len + TRAILER)
    case _ => Rejected(TooSmall)
  }

  method Deserialize(data: seq<byte>) returns (r: Outcome)
    ensures r == Deserialized(data)
  {
    hide FromLE, LE, Crc.Loaded, Crc.Checksum, EncodeAll;
    if |data| < HEADER + TRAILER {
      return Rejected(TooSmall);
    }
    HeaderShape(data);
    var hr := new Reader(data, HeaderKinds());
    var magic := hr.GetU32();
    var major := hr.GetU16();
    var kind := hr.GetU16();
    var len := hr.GetU32();
    var _ := hr.AtEnd();
    if magic.value != MAGIC {
      return Rejected(BadMagic);
    }
    if major.value != MAJOR {
      return Rejected(BadVersion);
    }
    if !(1 <= kind.value <= 16) {
      return Rejected(BadType);
    }
    if len.value > MAX_FRAME {
      return Rejected(Oversized);
    }
    var total := HEADER + len.value + TRAILER;
    if |data| < total {
      return Rejected(TruncatedPayload);
    }
    var stored := Crc.Loaded(data[HEADER + len.value..HEADER + len.value + 4]);
    var actual := Crc.Compute(data[..HEADER + len.value]);
    if stored != actual {
      return Rejected(CrcMismatch);
    }
    return Parsed(Frame(kind.value, data[HEADER..HEADER + len.value]), total);
  }

  lemma HeaderShape(data: seq<byte>)
    ensures ReadAll(HeaderKinds(), data).Some? <==> |data| >= HEADER
    ensures ReadAll(HeaderKinds(), data).Some? ==>
              var (fs, rest) := ReadAll(HeaderKinds(), data).value;
              && (exists magic, major, kind, len :: fs == Header(magic, major, kind, len))
              && rest == data[HEADER..] && data[..HEADER] == EncodeAll(fs)
  {
    hide ReadAll, EncodeAll;
    assert AllFixed(Cons(U16Kind, Cons(U32Kind, Nil))) && Width(Cons(U16Kind, Cons(U32Kind, Nil))) == 6;
    FixedRead(HeaderKinds(), data);
    if ReadAll(HeaderKinds(), data).Some? {
      var fs := ReadAll(HeaderKinds(), data).value.0;
      ThreeFields(fs, U32Kind, U16Kind, U16Kind, Cons(U32Kind, Nil));
      var last := fs.tail.tail.tail;
      assert last.Cons? && KindOf(last.head) == U32Kind && last.tail == Nil;
      assert fs == Header(fs.head.n32, fs.tail.head.n16, fs.tail.tail.head.n16, last.head.n32);
    }
  }

  lemma SerializedParts(f: Frame, rest: seq<byte>)
    requires |f.payload| <= MAX_FRAME
    ensures var d := Serialized(f) + rest;
            var n := |f.payload|;
            && |Serialized(f)| == HEADER + n + TRAILER
            && ReadAll(HeaderKinds(), d) == Some((HeaderFields(f.kind, n), d[HEADER..]))
            && d[..HEADER + n] == Body(f)
            && d[HEADER..HEADER + n] == f.payload
            && d[HEADER + n..HEADER + n + TRAILER] == Crc.Stored(Crc.Checksum(Body(f)))
  {
    hide LE, Crc.Stored, Crc.Checksum, ReadAll, EncodeAll;
    var fs := HeaderFields(f.kind, |f.payload|);
    var tail := f.payload + Crc.Stored(Crc.Checksum(Body(f))) + rest;
    assert Serialized(f) + rest == EncodeAll(fs) + tail;
    HeaderKindsOf(MAGIC, MAJOR, f.kind, |f.payload|);
    RoundTrip(fs, tail);
    HeaderShape(Serialized(f) + rest);
  }

  /** The parser returns a frame exactly when the input begins with that frame's serialization,
      and then it consumes exactly that much. */
  lemma ParsesExactly(data: seq<byte>, f: Frame, n: nat)
    ensures Deserialized(data) == Parsed(f, n) <==>
            |f.payload| <= MAX_FRAME && Serialized(f) <= data && n == |Serialized(f)|
    ensures Deserialized(data) == Parsed(f, n) ==> 0 < n <= |data|
  {
    hide LE, Crc.Stored, Crc.Checksum, Crc.Loaded, ReadAll, EncodeAll;
    if |f.payload| <= MAX_FRAME && Serialized(f) <= data && n == |Serialized(f)| {
      var rest := data[n..];
      assert data == Serialized(f) + rest;
      SerializedParts(f, rest);
      Crc.LoadedStored(Crc.Checksum(Body(f)));
    }
    if Deserialized(data) == Parsed(f, n) {
      HeaderShape(data);
      var len := |f.payload|;
      var fs := ReadAll(HeaderKinds(), data).value.0;
      assert fs == HeaderFields(f.kind, len);
      assert data[..HEADER + len] == data[..HEADER] + f.payload == Body(f);
      var tail := data[HEADER + len..HEADER + len + 4];
      Crc.LoadedStored(Crc.Checksum(Body(f)));
      Crc.LoadedInjective(tail, Crc.Stored(Crc.Checksum(Body(f))));
      assert data[..n] == data[..HEADER + len] + tail == Serialized(f);
    }
  }

  // ---- streams ---------------------------------------------------------------------------

  predicate Sendable(fs: seq<Frame>) {
    forall i :: 0 <= i < |fs| ==> |fs[i].payload| <= MAX_FRAME
  }

  /** The bytes of several frames sent one after the other. */
  function Stream(fs: seq<Frame>): seq<byte>
    requires Sendable(fs)
    decreases |fs|
  {
    if fs == [] then [] else Serialized(fs[0]) + Stream(fs[1..])
  }

  /** Parse, advance by `consumed`, and repeat until the parser refuses. */
  function ParseStream(data: seq<byte>): (seq<Frame>, seq<byte>)
    decreases |data|
  {
    match Deserialized(data)
    case Rejected(_) => ([], data)
    case Parsed(f, n) =>
      ParsesExactly(data, f, n);
      var (fs, rest) := ParseStream(data[n..]);
      ([f] + fs, rest)
  }

  /** Frames come out of the stream exactly as they went in, whatever follows them. */
  lemma {:induction false} StreamRoundTrip(fs: seq<Frame>, rest: seq<byte>)
    requires Sendable(fs)
    ensures ParseStream(Stream(fs) + rest) == (fs + ParseStream(rest).0, ParseStream(rest).1)
    decreases |fs|
  {
    hide Serialized, Deserialized;
    if fs == [] {
      assert Stream(fs) + rest == rest;
      assert fs + ParseStream(rest).0 == ParseStream(rest).0;
    } else {
      var tail := Stream(fs[1..]) + rest;
      assert Stream(fs) + rest == Serialized(fs[0]) + tail;
      ParsesExactly(Serialized(fs[0]) + tail, fs[0], |Serialized(fs[0])|);
      assert (Serialized(fs[0]) + tail)[|Serialized(fs[0])|..] == tail;
      StreamRoundTrip(fs[1..], rest);
      assert [fs[0]] + (fs[1..] + ParseStream(rest).0) == fs + ParseStream(rest).0;
    }
  }

  /** Nothing is invented or lost: what was parsed and what is left make up the input. */
  lemma {:induction false} ParseStreamSound(data: seq<byte>)
    ensures Sendable(ParseStream(data).0)
    ensures data == Stream(ParseStream(data).0) + ParseStream(data).1
    ensures Deserialized(ParseStream(data).1).Rejected?
    decreases |data|
  {
    hide Serialized, Deserialized;
    match Deserialized(data)
    case Rejected(_) =>
    case Parsed(f, n) =>
      ParsesExactly(data, f, n);
      ParseStreamSound(data[n..]);
      var (fs, rest) := ParseStream(data[n..]);
      StreamCons(f, fs);
      SplitAt(data, Serialized(f), Stream(fs), rest);
  }

  lemma StreamCons(f: Frame, fs: seq<Frame>)
    requires |f.payload| <= MAX_FRAME && Sendable(fs)
    ensures Sendable([f] + fs) && Stream([f] + fs) == Serialized(f) + Stream(fs)
  {
    hide Serialized;
    assert ([f] + fs)[1..] == fs;
  }

  lemma SplitAt(data: seq<byte>, first: seq<byte>, middle: seq<byte>, rest: seq<byte>)
    requires first <= data && data[|first|..] == middle + rest
    ensures data == (first + middle) + rest
  {
    assert data == data[..|first|] + data[|first|..];
  }

  // ---- damage ----------------------------------------------------------------------------

  lemma SerializedResidue(f: Frame)
    requires |f.payload| <= MAX_FRAME
    ensures Crc.Feed(Crc.ONES, Serialized(f)) == Crc.Residue()
  {
    hide Crc.Stored, Crc.Checksum, Crc.Loaded, Crc.Feed, Crc.Residue;
    Crc.LoadedStored(Crc.Checksum(Body(f)));
    Crc.ResidueCharacterizes(Body(f), Crc.Stored(Crc.Checksum(Body(f))));
  }

  /** The bytes of a frame, damaged within i .. i + 4. */
  predicate Damaged(f: Frame, damaged: seq<byte>, i: nat) {
    |f.payload| <= MAX_FRAME && Crc.DifferWithin(Serialized(f), damaged, i) && damaged != Serialized(f)
  }

  /** A frame damaged within four consecutive bytes is rejected, or the damage hit its length field and
      what is accepted is a strictly shorter frame at its beginning. */
  lemma DamagedFrameRejected(f: Frame, damaged: seq<byte>, i: nat)
    requires Damaged(f, damaged, i)
    ensures match Deserialized(damaged)
            case Rejected(_) => true
            case Parsed(g, _) => |g.payload| < |f.payload| && damaged[8..HEADER] != Serialized(f)[8..HEADER]
  {
    hide Crc.Feed, Crc.Residue, Serialized, Deserialized, LE;
    match Deserialized(damaged)
    case Rejected(_) =>
    case Parsed(g, n) =>
      ParsesExactly(damaged, g, n);
      LengthBytes(f);
      LengthBytes(g);
      if |g.payload| == |f.payload| {
        SerializedResidue(f);
        SerializedResidue(g);
        assert damaged == Serialized(g);
        Crc.BurstDetected(Crc.ONES, Serialized(f), damaged, i);
      }
      BaseValues();
      LERoundTrip(|f.payload|, 4);
      LERoundTrip(|g.payload|, 4);
      assert damaged[8..HEADER] == Serialized(g)[8..HEADER];
  }

  /** g is shorter than f, and the bytes of g differ from the first bytes of f within i .. i + 4 only. */
  predicate PassesFor(f: Frame, g: Frame, i: nat) {
    && |g.payload| < |f.payload| <= MAX_FRAME && |Serialized(g)| <= |Serialized(f)|
    && Crc.DifferWithin(Serialized(f)[..|Serialized(g)|], Serialized(g), i)
  }

  /** Exactly when some damage within four given bytes is accepted: when there is a shorter frame to pass for. */
  lemma DamageAcceptedExactly(f: Frame, i: nat)
    requires |f.payload| <= MAX_FRAME
    ensures (exists damaged :: Damaged(f, damaged, i) && Deserialized(damaged).Parsed?) <==> exists g :: PassesFor(f, g, i)
  {
    hide Deserialized, Serialized, Damaged, PassesFor;
    if damaged :| Damaged(f, damaged, i) && Deserialized(damaged).Parsed? {
      AcceptedPasses(f, damaged, i);
    }
    if g :| PassesFor(f, g, i) {
      PassesShorter(f, g, i);
      var damaged := Serialized(g) + Serialized(f)[|Serialized(g)|..];
      PassingAccepted(f, g, i, damaged);
    }
  }

  lemma PassesShorter(f: Frame, g: Frame, i: nat)
    requires PassesFor(f, g, i)
    ensures |g.payload| <= MAX_FRAME && |f.payload| <= MAX_FRAME && |Serialized(g)| <= |Serialized(f)|
  {}

  lemma AcceptedPasses(f: Frame, damaged: seq<byte>, i: nat)
    requires Damaged(f, damaged, i) && Deserialized(damaged).Parsed?
    ensures PassesFor(f, Deserialized(damaged).frame, i)
  {
    hide Deserialized, Serialized;
    var g := Deserialized(damaged).frame;
    DamagedFrameRejected(f, damaged, i);
    ParsesExactly(damaged, g, Deserialized(damaged).consumed);
    LengthBytes(f);
    LengthBytes(g);
    SamePrefix(Serialized(f), damaged, Serialized(g), i);
  }

  lemma SamePrefix(a: seq<byte>, c: seq<byte>, b: seq<byte>, i: nat)
    requires Crc.DifferWithin(a, c, i) && b <= c && i + 4 <= |b|
    ensures Crc.DifferWithin(a[..|b|], b, i)
  {
    assert b == c[..|b|];
    assert a[..|b|][..i] == a[..i] && b[..i] == c[..i];
    assert a[..|b|][i + 4..] == a[i + 4..][..|b| - (i + 4)] && b[i + 4..] == c[i + 4..][..|b| - (i + 4)];
  }

  lemma PassingAccepted(f: Frame, g: Frame, i: nat, damaged: seq<byte>)
    requires PassesFor(f, g, i) && damaged == Serialized(g) + Serialized(f)[|Serialized(g)|..]
    ensures Damaged(f, damaged, i) && Deserialized(damaged) == Parsed(g, |Serialized(g)|)
  {
    hide Deserialized, Serialized, LE;
    ParsesExactly(damaged, g, |Serialized(g)|);
    LengthBytes(f);
    LengthBytes(g);
    BaseValues();
    LERoundTrip(|f.payload|, 4);
    LERoundTrip(|g.payload|, 4);
    assert damaged[8..HEADER] == Serialized(g)[8..HEADER];
    SameContinued(Serialized(f), Serialized(g), i);
  }

  lemma SameContinued(a: seq<byte>, b: seq<byte>, i: nat)
    requires |b| <= |a| && Crc.DifferWithin(a[..|b|], b, i)
    ensures Crc.DifferWithin(a, b + a[|b|..], i)
  {
    assert a[..i] == a[..|b|][..i] && (b + a[|b|..])[..i] == b[..i];
    assert a[i + 4..] == a[..|b|][i + 4..] + a[|b|..];
    assert (b + a[|b|..])[i + 4..] == b[i + 4..] + a[|b|..];
  }

  /** The first n bytes of the payload are followed by the checksum they would have as a frame of their own. */
  predicate InnerChecksum(f: Frame, n: nat) {
    && |f.payload| <= MAX_FRAME && n < |f.payload|
    && |Serialized(f)| == HEADER + |f.payload| + TRAILER
    && Serialized(f)[HEADER + n..HEADER + n + TRAILER] == Crc.Stored(Crc.Checksum(Body(Shortened(f, n))))
  }

  function Shortened(f: Frame, n: nat): Frame
    requires n <= |f.payload|
  {
    Frame(f.kind, f.payload[..n])
  }

  /** Exactly which frames a sender cannot entrust to a line that may damage a length field: some damage there
      is accepted if and only if the frame's bytes contain such a checksum. */
  lemma LengthDamageAcceptedExactly(f: Frame)
    requires |f.payload| <= MAX_FRAME
    ensures (exists damaged :: Damaged(f, damaged, 8) && Deserialized(damaged).Parsed?)
            <==> exists n: nat :: InnerChecksum(f, n)
  {
    hide Deserialized, InnerChecksum, Damaged;
    if damaged :| Damaged(f, damaged, 8) && Deserialized(damaged).Parsed? {
      AcceptedHasInner(f, damaged);
    }
    if n: nat :| InnerChecksum(f, n) {
      var damaged := LengthDamageAccepted(f, n);
      assert Damaged(f, damaged, 8);
    }
  }

  lemma AcceptedHasInner(f: Frame, damaged: seq<byte>)
    requires Damaged(f, damaged, 8) && Deserialized(damaged).Parsed?
    ensures InnerChecksum(f, |Deserialized(damaged).frame.payload|)
    ensures Deserialized(damaged).frame == Shortened(f, |Deserialized(damaged).frame.payload|)
  {
    hide Serialized, LE, Deserialized, Crc.Checksum, Crc.Stored;
    var g, k := Deserialized(damaged).frame, Deserialized(damaged).consumed;
    DamagedFrameRejected(f, damaged, 8);
    ParsesExactly(damaged, g, k);
    PayloadBytes(f);
    PayloadBytes(g);
    SameAround(Serialized(f), Serialized(g), damaged);
    KindFromStart(f, g);
    InnerBytes(f.payload, Crc.Stored(Crc.Checksum(Body(f))), g.payload, Crc.Stored(Crc.Checksum(Body(g))), Serialized(f));
  }

  /** What a prefix of the damaged bytes shows of the original outside the length field. */
  lemma SameAround(a: seq<byte>, b: seq<byte>, c: seq<byte>)
    requires Crc.DifferWithin(a, c, 8) && b <= c && HEADER <= |b|
    ensures a[..8] == b[..8] && a[HEADER..|b|] == b[HEADER..]
  {
    assert c[..8] == b[..8];
    assert forall j :: HEADER <= j < |b| ==> a[j] == a[HEADER..][j - HEADER] == c[HEADER..][j - HEADER] == b[j];
  }

  lemma KindFromStart(f: Frame, g: Frame)
    requires |f.payload| <= MAX_FRAME && |g.payload| <= MAX_FRAME && Serialized(f)[..8] == Serialized(g)[..8]
    ensures f.kind == g.kind
  {
    hide LE, Serialized;
    StartBytes(f);
    StartBytes(g);
    BaseValues();
    LERoundTrip(MAGIC, 4);
    LERoundTrip(MAJOR, 2);
    LERoundTrip(f.kind, 2);
    LERoundTrip(g.kind, 2);
    assert Serialized(f)[..8][6..] == LE(f.kind, 2) && Serialized(g)[..8][6..] == LE(g.kind, 2);
  }

  /** p + c continues s after its header, and begins with q + d. */
  lemma InnerBytes(p: seq<byte>, c: seq<byte>, q: seq<byte>, d: seq<byte>, s: seq<byte>)
    requires |s| >= HEADER && s[HEADER..] == p + c && |c| == |d| == TRAILER && |q| < |p|
    requires s[HEADER..HEADER + |q| + TRAILER] == q + d
    ensures q == p[..|q|] && s[HEADER + |q|..HEADER + |q| + TRAILER] == d
  {
    var t := s[HEADER..HEADER + |q| + TRAILER];
    assert t[..|q|] == q && t[|q|..] == d;
    assert t[..|q|] == s[HEADER..][..|q|] == p[..|q|];
    assert t[|q|..] == s[HEADER + |q|..HEADER + |q| + TRAILER];
  }

  /** The damage that is accepted, and what it is taken for. */
  lemma LengthDamageAccepted(f: Frame, n: nat) returns (damaged: seq<byte>)
    requires InnerChecksum(f, n)
    ensures Damaged(f, damaged, 8)
    ensures Deserialized(damaged) == Parsed(Shortened(f, n), HEADER + n + TRAILER)
  {
    hide Serialized, LE, Deserialized, Crc.Checksum;
    var g := Shortened(f, n);
    var sf, sg := Serialized(f), Serialized(g);
    LengthBytes(f);
    LengthBytes(g);
    SameStart(f, g);
    PayloadBytes(f);
    PayloadBytes(g);
    assert sf[HEADER..|sg|] == sg[HEADER..] by {
      assert sf[HEADER..|sg|] == sf[HEADER..][..n] + sf[HEADER + n..HEADER + n + TRAILER];
    }
    damaged := sf[..8] + sg[8..HEADER] + sf[HEADER..];
    Splice(sf, sg, damaged);
    ParsesExactly(damaged, g, |sg|);
    BaseValues();
    LERoundTrip(|f.payload|, 4);
    LERoundTrip(|g.payload|, 4);
  }

  /** A frame whose payload is another payload, the checksum that payload would have as a frame of its
      own, and whatever else. */
  function Wrapping(g: Frame, more: seq<byte>): (f: Frame)
    requires |g.payload| + TRAILER + |more| <= MAX_FRAME
    ensures |f.payload| == |g.payload| + TRAILER + |more|
  {
    Frame(g.kind, g.payload + Crc.Stored(Crc.Checksum(Body(g))) + more)
  }

  /** There are such frames: one that wraps another is taken for the inner one when its length is damaged. */
  lemma ShorterFrameInside(g: Frame, more: seq<byte>) returns (damaged: seq<byte>)
    requires |g.payload| + TRAILER + |more| <= MAX_FRAME
    ensures Damaged(Wrapping(g, more), damaged, 8)
    ensures Deserialized(damaged) == Parsed(g, |Serialized(g)|)
  {
    hide Serialized, LE, Deserialized, Crc.Checksum;
    var f := Wrapping(g, more);
    var n := |g.payload|;
    PayloadBytes(f);
    PayloadBytes(g);
    WrappedBytes(g, more);
    assert Shortened(f, n) == g by { assert f.payload[..n] == f.payload[..n + TRAILER][..n]; }
    assert Serialized(f)[HEADER + n..HEADER + n + TRAILER] == f.payload[..n + TRAILER][n..];
    damaged := LengthDamageAccepted(f, n);
  }

  lemma Splice(a: seq<byte>, b: seq<byte>, c: seq<byte>)
    requires |a| >= |b| >= HEADER && c == a[..8] + b[8..HEADER] + a[HEADER..]
    requires a[..8] == b[..8] && a[HEADER..|b|] == b[HEADER..]
    ensures b <= c && Crc.DifferWithin(a, c, 8) && c[8..HEADER] == b[8..HEADER]
  {
    assert c[..8] == b[..8] && c[8..HEADER] == b[8..HEADER];
    assert c[HEADER..|b|] == a[HEADER..|b|];
    assert c[..|b|] == c[..8] + c[8..HEADER] + c[HEADER..|b|];
    assert b == b[..8] + b[8..HEADER] + b[HEADER..];
  }

  lemma PayloadBytes(f: Frame)
    requires |f.payload| <= MAX_FRAME
    ensures |Serialized(f)| == HEADER + |f.payload| + TRAILER
    ensures Serialized(f)[HEADER..] == f.payload + Crc.Stored(Crc.Checksum(Body(f)))
  {
    hide LE, Crc.Stored, Crc.Checksum, ReadAll, EncodeAll;
    SerializedParts(f, []);
    var s, n := Serialized(f), |f.payload|;
    assert s + [] == s;
    assert s[HEADER..] == s[HEADER..HEADER + n] + s[HEADER + n..HEADER + n + TRAILER];
  }

  lemma WrappedBytes(g: Frame, more: seq<byte>)
    requires |g.payload| + TRAILER + |more| <= MAX_FRAME
    ensures |Crc.Stored(Crc.Checksum(Body(g)))| == TRAILER
    ensures Wrapping(g, more).payload[..|g.payload| + TRAILER] == g.payload + Crc.Stored(Crc.Checksum(Body(g)))
  {
    hide Crc.Checksum, Body;
  }

  lemma SameStart(f: Frame, g: Frame)
    requires |f.payload| <= MAX_FRAME && |g.payload| <= MAX_FRAME && f.kind == g.kind
    ensures Serialized(f)[..8] == Serialized(g)[..8]
  {
    hide LE, Crc.Stored, Crc.Checksum;
    StartBytes(f);
    StartBytes(g);
  }

  lemma StartBytes(f: Frame)
    requires |f.payload| <= MAX_FRAME
    ensures |Serialized(f)| >= HEADER && Serialized(f)[..8] == LE(MAGIC, 4) + LE(MAJOR, 2) + LE(f.kind, 2)
  {
    hide LE, Crc.Stored, Crc.Checksum;
    SerializedParts(f, []);
    assert Serialized(f) + [] == Serialized(f);
    HeaderBytes(f);
    var fs := HeaderFields(f.kind, |f.payload|);
    assert Serialized(f)[..8] == Serialized(f)[..HEADER][..8];
  }

  /** The header of a frame, byte for byte. */
  lemma HeaderBytes(f: Frame)
    requires |f.payload| <= MAX_FRAME
    ensures |Serialized(f)| == HEADER + |f.payload| + TRAILER
    ensures Serialized(f)[..HEADER] == LE(MAGIC, 4) + (LE(MAJOR, 2) + (LE(f.kind, 2) + LE(|f.payload|, 4)))
  {
    hide LE, Crc.Stored, Crc.Checksum;
    SerializedParts(f, []);
    assert Serialized(f) + [] == Serialized(f);
    var fs := HeaderFields(f.kind, |f.payload|);
    HeaderShape(Serialized(f));
    var len := Cons(U32(|f.payload|), Nil);
    assert EncodeAll(len) == LE(|f.payload|, 4) + [] == LE(|f.payload|, 4);
    assert EncodeAll(Cons(U16(f.kind), len)) == LE(f.kind, 2) + EncodeAll(len);
    assert EncodeAll(fs.tail) == LE(MAJOR, 2) + EncodeAll(Cons(U16(f.kind), len));
    assert EncodeAll(fs) == LE(MAGIC, 4) + EncodeAll(fs.tail);
    assert Serialized(f)[..HEADER] == EncodeAll(fs);
  }

  lemma LengthBytes(f: Frame)
    requires |f.payload| <= MAX_FRAME
    ensures |Serialized(f)| == HEADER + |f.payload| + TRAILER
    ensures Serialized(f)[8..HEADER] == LE(|f.payload|, 4)
  {
    hide LE, Serialized;
    HeaderBytes(f);
    assert Serialized(f)[8..HEADER] == Serialized(f)[..HEADER][8..];
  }
}
