/** The on-disk container: magic, schema version, blob length, blob, CRC-32. */
module Envelope {
  import opened Basics
  import opened Codec
  import Crc

  const MAGIC: u32 := 0x53504750
  const SCHEMA: u32 := 1
  const MAX_BLOB: nat := 256 * 1024 * 1024
  const HEADER: nat := 12

  datatype Error =
    | TruncatedRecord | BadMagic | BadSchema | Oversized | TruncatedPayload | CrcMismatch | TrailingGarbage

  datatype Outcome = Opened(schema: u32, blob: seq<byte>) | Failed(error: Error)

  function HeaderKinds(): Kinds { Cons(U32Kind, Cons(U32Kind, Cons(U32Kind, Nil))) }

  function Header(magic: u32, schema: u32, len: u32): Fields {
    Cons(U32(magic), Cons(U32(schema), Cons(U32(len), Nil)))
  }

  function HeaderFields(schema: u32, len: u32): Fields { Header(MAGIC, schema, len) }

  lemma HeaderKindsOf(magic: u32, schema: u32, len: u32)
    ensures KindsOf(Header(magic, schema, len)) == HeaderKinds()
  {
    assert KindsOf(Cons(U32(len), Nil)) == Cons(U32Kind, Nil);
  }

  function Body(schema: u32, blob: seq<byte>): seq<byte>
    requires |blob| <= MAX_BLOB
  {
    EncodeAll(HeaderFields(schema, |blob|)) + blob
  }

  /** A complete record. */
  function Record(schema: u32, blob: seq<byte>): seq<byte>
    requires |blob| <= MAX_BLOB
  {
    Body(schema, blob) + Crc.Stored(Crc.Checksum(Body(schema, blob)))
  }

  /** `encode_envelope`; None is the length_error it throws. */
  method EncodeEnvelope(schema: u32, blob: seq<byte>) returns (r: Option<seq<byte>>)
    ensures r.Some? <==> |blob| <= MAX_BLOB
    ensures r.Some? ==> r.value == Record(schema, blob)
  {
    if |blob| > MAX_BLOB {
      return None;
    }
    var w := new Writer(HeaderFields(schema, |blob|));
    w.PutU32(MAGIC);
    w.PutU32(schema);
    w.PutU32(|blob|);
    var header := w.Bytes();
    var out := header + blob;
    var crc := Crc.Compute(out);
    return Some(out + Crc.Stored(crc));
  }

  /** What `decode_envelope` answers, in the order in which it tests. */
  function Decoded(data: seq<byte>): Outcome {
    HeaderShape(data);
    match ReadAll(HeaderKinds(), data)
    case Some((Cons(U32(magic), Cons(U32(schema), Cons(U32(len), Nil))), _)) =>
      if |data| < HEADER + 4 then Failed(TruncatedRecord)
      else if magic != MAGIC then Failed(BadMagic)
      else if schema != SCHEMA then Failed(BadSchema)
      else if len > MAX_BLOB then Failed(Oversized)
      else if |data| < HEADER + len + 4 then Failed(TruncatedPayload)
      else if Crc.Loaded(data[HEADER + len..HEADER + len + 4]) != Crc.Checksum(data[..HEADER + len])
      then Failed(CrcMismatch)
      else if |data| != HEADER + len + 4 then Failed(TrailingGarbage)
      else Opened(schema, data[HEADER..HEADER + len])
    case _ => Failed(TruncatedRecord)
  }

  method DecodeEnvelope(data: seq<byte>) returns (r: Outcome)
    ensures r == Decoded(data)
  {
    hide FromLE, LE, Crc.Loaded, Crc.Checksum, EncodeAll;
    if |data| < HEADER + 4 {
      return Failed(TruncatedRecord);
    }
    HeaderShape(data);
    var br := new Reader(data, HeaderKinds());
    var magic := br.GetU32();
    var schema := br.GetU32();
    var len := br.GetU32();
    var _ := br.AtEnd();
    if magic.value != MAGIC {
      return Failed(BadMagic);
    }
    if schema.value != SCHEMA {
      return Failed(BadSchema);
    }
    if len.value > MAX_BLOB {
      return Failed(Oversized);
    }
    var total := HEADER + len.value + 4;
    if |data| < total {
      return Failed(TruncatedPayload);
    }
    var stored := Crc.Loaded(data[HEADER + len.value..total]);
    var actual := Crc.Compute(data[..HEADER + len.value]);
    if stored != actual {
      return Failed(CrcMismatch);
    }
    if |data| != total {
      return Failed(TrailingGarbage);
    }
    return Opened(schema.value, data[HEADER..HEADER + len.value]);
  }

  // ---- the header ------------------------------------------------------------------------

  lemma HeaderShape(data: seq<byte>)
    ensures ReadAll(HeaderKinds(), data).Some? <==> |data| >= HEADER
    ensures ReadAll(HeaderKinds(), data).Some? ==>
              var (fs, rest) := ReadAll(HeaderKinds(), data).value;
              && (exists magic, schema, len :: fs == Header(magic, schema, len))
              && rest == data[HEADER..] && data[..HEADER] == EncodeAll(fs)
  {
    hide ReadAll, EncodeAll;
    assert AllFixed(Cons(U32Kind, Nil)) && Width(Cons(U32Kind, Nil)) == 4;
    FixedRead(HeaderKinds(), data);
    if ReadAll(HeaderKinds(), data).Some? {
      var fs := ReadAll(HeaderKinds(), data).value.0;
      ThreeFields(fs, U32Kind, U32Kind, U32Kind, Nil);
      assert fs == Header(fs.head.n32, fs.tail.head.n32, fs.tail.tail.head.n32);
    }
  }

  // ---- round trip and the exact language -------------------------------------------------

  lemma RecordParts(schema: u32, blob: seq<byte>)
    requires |blob| <= MAX_BLOB
    ensures var d := Record(schema, blob);
            && |d| == HEADER + |blob| + 4
            && ReadAll(HeaderKinds(), d) == Some((HeaderFields(schema, |blob|), d[HEADER..]))
            && d[..HEADER + |blob|] == Body(schema, blob)
            && d[HEADER..HEADER + |blob|] == blob
            && d[HEADER + |blob|..] == Crc.Stored(Crc.Checksum(Body(schema, blob)))
  {
    hide LE, Crc.Stored, Crc.Checksum;
    var fs := HeaderFields(schema, |blob|);
    var d := Record(schema, blob);
    var rest := blob + Crc.Stored(Crc.Checksum(Body(schema, blob)));
    assert d == EncodeAll(fs) + rest;
    HeaderKindsOf(MAGIC, schema, |blob|);
    RoundTrip(fs, rest);
    HeaderShape(d);
  }

  /** A saved blob is read back exactly when it was saved under the supported schema. */
  lemma EnvelopeRoundTrip(schema: u32, blob: seq<byte>)
    requires |blob| <= MAX_BLOB
    ensures Decoded(Record(schema, blob)) ==
            if schema == SCHEMA then Opened(schema, blob) else Failed(BadSchema)
  {
    hide Crc.Stored, Crc.Checksum, Crc.Loaded, Body, Record;
    RecordParts(schema, blob);
    Crc.LoadedStored(Crc.Checksum(Body(schema, blob)));
    var d := Record(schema, blob);
    assert d[HEADER + |blob|..HEADER + |blob| + 4] == d[HEADER + |blob|..];
  }

  /** The decoder opens nothing but encoder output: it accepts a byte string exactly when that
      string is the record of the blob it returns. */
  lemma OpensOnlyRecords(data: seq<byte>, blob: seq<byte>)
    ensures Decoded(data) == Opened(SCHEMA, blob) <==> |blob| <= MAX_BLOB && data == Record(SCHEMA, blob)
  {
    hide Crc.Stored, Crc.Checksum, Crc.Loaded, ReadAll, EncodeAll;
    if Decoded(data) == Opened(SCHEMA, blob) {
      HeaderShape(data);
      var fs := ReadAll(HeaderKinds(), data).value.0;
      assert fs == HeaderFields(SCHEMA, |blob|);
      assert data[..HEADER + |blob|] == data[..HEADER] + blob == Body(SCHEMA, blob);
      var tail := data[HEADER + |blob|..];
      assert tail == data[HEADER + |blob|..HEADER + |blob| + 4];
      Crc.LoadedStored(Crc.Checksum(Body(SCHEMA, blob)));
      Crc.LoadedInjective(tail, Crc.Stored(Crc.Checksum(Body(SCHEMA, blob))));
      assert data == data[..HEADER + |blob|] + tail;
    }
    if |blob| <= MAX_BLOB && data == Record(SCHEMA, blob) {
      EnvelopeRoundTrip(SCHEMA, blob);
    }
  }

  lemma RecordResidue(schema: u32, blob: seq<byte>)
    requires |blob| <= MAX_BLOB
    ensures Crc.Feed(Crc.ONES, Record(schema, blob)) == Crc.Residue()
  {
    hide Crc.Stored, Crc.Checksum, Crc.Loaded, Crc.Feed, Crc.Residue;
    var body := Body(schema, blob);
    Crc.LoadedStored(Crc.Checksum(body));
    Crc.ResidueCharacterizes(body, Crc.Stored(Crc.Checksum(body)));
  }

  /** Corruption: a record changed anywhere within four consecutive bytes is rejected. */
  lemma BurstRejected(blob: seq<byte>, damaged: seq<byte>, i: nat)
    requires |blob| <= MAX_BLOB
    requires Crc.DifferWithin(Record(SCHEMA, blob), damaged, i) && damaged != Record(SCHEMA, blob)
    ensures Decoded(damaged).Failed?
  {
    hide Crc.Feed, Crc.Residue, Record;
    match Decoded(damaged)
    case Failed(_) =>
    case Opened(schema, other) =>
      assert schema == SCHEMA;
      OpensOnlyRecords(damaged, other);
      RecordResidue(SCHEMA, blob);
      RecordResidue(SCHEMA, other);
      Crc.BurstDetected(Crc.ONES, Record(SCHEMA, blob), damaged, i);
  }

  /** In particular every single changed byte is noticed. */
  lemma FlippedByteRejected(blob: seq<byte>, at: nat, v: byte)
    requires |blob| <= MAX_BLOB && at < |Record(SCHEMA, blob)|
    requires v != Record(SCHEMA, blob)[at]
    ensures Decoded(Record(SCHEMA, blob)[at := v]).Failed?
  {
    RecordParts(SCHEMA, blob);
    hide Crc.Stored, Crc.Checksum, Record, Decoded;
    var r := Record(SCHEMA, blob);
    var i := if at + 4 <= |r| then at else |r| - 4;
    assert r[at := v][at] == v;
    assert r[at := v][..i] == r[..i] && r[at := v][i + 4..] == r[i + 4..];
    BurstRejected(blob, r[at := v], i);
  }

  /** The header fixes the length, so no record is a proper prefix of another one. */
  lemma PrefixFree(blob: seq<byte>, blob': seq<byte>)
    requires |blob| <= MAX_BLOB && |blob'| <= MAX_BLOB
    requires Record(SCHEMA, blob) <= Record(SCHEMA, blob')
    ensures Record(SCHEMA, blob) == Record(SCHEMA, blob')
  {
    RecordParts(SCHEMA, blob);
    RecordParts(SCHEMA, blob');
    hide ReadAll, EncodeAll, Record;
    var d, d' := Record(SCHEMA, blob), Record(SCHEMA, blob');
    assert d[..HEADER] == d'[..HEADER];
    HeaderShape(d);
    HeaderShape(d');
    var fs, gs := HeaderFields(SCHEMA, |blob|), HeaderFields(SCHEMA, |blob'|);
    HeaderKindsOf(MAGIC, SCHEMA, |blob|);
    HeaderKindsOf(MAGIC, SCHEMA, |blob'|);
    EncodeAllInjective(fs, gs);
  }

  /** Truncation and trailing garbage: neither a proper prefix nor a proper extension of a record
      is opened. */
  lemma TruncatedOrExtendedRejected(blob: seq<byte>, other: seq<byte>)
    requires |blob| <= MAX_BLOB
    requires other != Record(SCHEMA, blob)
    requires other <= Record(SCHEMA, blob) || Record(SCHEMA, blob) <= other
    ensures Decoded(other).Failed?
  {
    hide Record, Decoded;
    match Decoded(other)
    case Failed(_) =>
    case Opened(schema, blob') =>
      OpenedSchema(other);
      OpensOnlyRecords(other, blob');
      if other <= Record(SCHEMA, blob) {
        PrefixFree(blob', blob);
      } else {
        PrefixFree(blob, blob');
      }
  }

  lemma OpenedSchema(data: seq<byte>)
    ensures Decoded(data).Opened? ==> Decoded(data).schema == SCHEMA
  {
    hide ReadAll, Crc.Loaded, Crc.Checksum;
  }
}
