/** `save` and `load`, up to the file itself: the saved state inside its container. */
module Persistence {
  import opened Basics
  import opened Ledger
  import opened Governor
  import opened Hierarchy
  import opened StateCodec
  import opened Recovery
  import opened Conservation
  import opened Rebuild
  import Crc
  import Envelope

  /** What `load` makes of the bytes of a file; None when it fails or throws. */
  ghost function Loaded(g: Gov, meters: map<Id, int>, file: seq<byte>): Option<(Gov, Header, map<Id, int>)> {
    match Envelope.Decoded(file)
    case Failed(_) => None
    case Opened(_, blob) => Decoded(g, meters, blob)
  }

  /** `save`; None is the length_error of a state too large for a file. */
  method Save(gov: Governor, header: Header, meters: seq<Meter>) returns (file: Option<seq<byte>>, ghost s: Saved)
    requires AllFit(gov.State(), header, meters)
    ensures Captures(s, gov.State()) && Fits(s) && s.header == header && s.meters == meters
    ensures Loadable(s) <==> |gov.State().books| <= MAX_COUNT && |gov.State().table| <= MAX_COUNT && |meters| <= MAX_COUNT
    ensures file.Some? <==> |StateBytes(s)| <= Envelope.MAX_BLOB
    ensures file.Some? ==> file.value == Envelope.Record(Envelope.SCHEMA, StateBytes(s))
  {
    hide Captures, Fits, Loadable, AllFit, StateBytes, Envelope.Record;
    var blob;
    blob, s := SaveState(gov, header, meters);
    file := Envelope.EncodeEnvelope(Envelope.SCHEMA, blob);
  }

  /** `load`. */
  method Load(gov: Governor, meters: map<Id, int>, file: seq<byte>) returns (r: Option<(Header, map<Id, int>)>)
    requires Keyed(gov.budgets.states)
    modifies gov.budgets, gov.reservations, gov.index
    ensures match old(Loaded(gov.State(), meters, file))
            case None => r.None?
            case Some((g, header, table)) => gov.State() == g && r == Some((header, table))
    ensures match Envelope.Decoded(file)
            case Failed(_) => gov.State() == old(gov.State())
            case Opened(_, blob) => gov.State() == old(Left(gov.State(), blob))
  {
    hide Decoded, Keyed, Left, Envelope.Decoded;
    var o := Envelope.DecodeEnvelope(file);
    if o.Failed? {
      return None;
    }
    r := DecodeState(gov, meters, o.blob);
  }

  /** The whole way round, through the container: what a governor saves, a new one loads exactly when the
      hierarchy is acceptable and the counts are loadable; what it is then is within every maximum, and it is
      the recovered governor exactly when the claims that are still current fit. */
  method SaveAndRecover(gov: Governor, header: Header, meters: seq<Meter>)
    returns (file: Option<seq<byte>>, copy: Governor, r: Option<(Header, map<Id, int>)>, ghost s: Saved)
    requires AllFit(gov.State(), header, meters) && Sound(gov.State())
    ensures gov.State() == old(gov.State()) && Captures(s, gov.State()) && Fits(s)
    ensures file.Some? <==> |StateBytes(s)| <= Envelope.MAX_BLOB
    ensures r.Some? <==> && file.Some? && Accepted(ParentsOf(gov.State().books))
                         && |gov.State().books| <= MAX_COUNT && |gov.State().table| <= MAX_COUNT && |meters| <= MAX_COUNT
    ensures r.Some? ==> r.value.0 == header && r.value.1 == MeterTable(map[], meters)
    ensures r.Some? ==> Restored(gov.State(), copy.State())
    ensures r.Some? ==> (Recovered(gov.State(), copy.State()) <==> ReplayFits(gov.State().books, gov.State().table))
  {
    hide Rebuilt, Restored, Recovered, ReplayFits, Captures, Fits, Loadable, AllFit, Sane, Conserved, WithinCap, Accepted, StateBytes, Decoded,
      Stored, MeterTable, Envelope.Record, Envelope.Decoded;
    file, s := Save(gov, header, meters);
    copy := new Governor();
    if file.None? {
      return file, copy, None, s;
    }
    Envelope.EnvelopeRoundTrip(Envelope.SCHEMA, StateBytes(s));
    SaveThenLoad(s);
    RecoveryRebuilds(gov.State(), s);
    r := Load(copy, map[], file.value);
  }

  /** A saved file damaged within four consecutive bytes, cut short or grown never loads, into whatever
      governor. */
  lemma DamagedFileNeverLoads(s: Saved, damaged: seq<byte>, i: nat, g: Gov, meters: map<Id, int>)
    requires Fits(s) && |StateBytes(s)| <= Envelope.MAX_BLOB
    requires var file := Envelope.Record(Envelope.SCHEMA, StateBytes(s));
             damaged != file && (Crc.DifferWithin(file, damaged, i) || damaged <= file || file <= damaged)
    ensures Loaded(g, meters, damaged) == None
  {
    hide StateBytes, Fits, Envelope.Record, Envelope.Decoded, Crc.DifferWithin;
    if Crc.DifferWithin(Envelope.Record(Envelope.SCHEMA, StateBytes(s)), damaged, i) {
      Envelope.BurstRejected(StateBytes(s), damaged, i);
    } else {
      Envelope.TruncatedOrExtendedRejected(StateBytes(s), damaged);
    }
  }
}
