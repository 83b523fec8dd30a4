/** The wire codec of core/proto.go and core/unsigneddata.go: plain and versioned values travel in the same field
    without a tag, and the decoder tells them apart by trying one layout and then the other. */
module ProtoCodec {
  import opened Prelude
  import opened Bytes
  import opened Containers
  import opened VersionedSsz

  // ----- unmarshal: SSZ first, JSON only if the data looks like an object -----

  /** Length of the white space rune in UTF-8 at the start of data, or 0. */
  function SpaceLen(data: Bytes): (n: nat)
    ensures n <= |data|
  {
    if data == [] then 0
    else if 9 <= data[0] <= 13 || data[0] == 0x20 then 1
    else if |data| >= 2 && data[0] == 0xC2 && data[1] in {0x85, 0xA0} then 2
    else if |data| < 3 then 0
    else if data[..3] == [0xE1, 0x9A, 0x80] || data[..3] == [0xE3, 0x80, 0x80] then 3
    else if data[0] == 0xE2 && data[1] == 0x80 && (data[2] <= 0x8A || data[2] in {0xA8, 0xA9, 0xAF}) then 3
    else if data[..3] == [0xE2, 0x81, 0x9F] then 3
    else 0
  }

  /** The data starts with an opening brace once leading white space is trimmed. */
  predicate LooksLikeJson(data: Bytes)
    decreases |data|
  {
    if SpaceLen(data) > 0 then LooksLikeJson(data[SpaceLen(data)..]) else data != [] && data[0] == 0x7B
  }

  /** No SSZ value of this codec looks like JSON: its first byte is a version or the low byte of an offset. */
  lemma SszIsNotJson(data: Bytes)
    requires data != [] && (data[0] <= 8 || data[0] == 100 || data[0] == 228)
    ensures !LooksLikeJson(data)
  {
    assert SpaceLen(data) == 0 by {
      if |data| >= 3 {
        assert data[..3][0] == data[0];
      }
    }
  }

  /** What the two library decoders make of the data, combined as unmarshal combines them. A panicking SSZ
      decoder does not reach the JSON attempt. */
  function Unmarshal<T>(data: Bytes, ssz: Result<T, SszError>, json: Option<T>): (r: Result<T, SszError>) {
    if ssz.Ok? || ssz.error == SliceOutOfRange || !LooksLikeJson(data) then ssz
    else if json.Some? then Ok(json.value) else Err(ErrJson)
  }

  // ----- values -----

  datatype VersionedSignedAggregate = VersionedSignedAggregate(version: DataVersion, aggregate: SignedAggregateAndProof)

  datatype VersionedAggregatedAttestation = VersionedAggregatedAttestation(version: DataVersion, att: Attestation)

  /** The duty types whose values come in two layouts. */
  datatype SniffedDuty = Attester | Aggregator

  datatype SignedData =
    | PlainAttestation(a: Attestation)
    | Versioned(va: VersionedAttestation)
    | PlainAggregate(s: SignedAggregateAndProof)
    | VersionedAggregate(vs: VersionedSignedAggregate)
  {
    ghost predicate Valid() {
      match this
      case PlainAttestation(a) => ValidAttestation(a, false)
      case Versioned(va) => va.Valid()
      case PlainAggregate(s) => ValidAttestation(s.message.aggregate, false)
      case VersionedAggregate(vs) => ValidAttestation(vs.aggregate.message.aggregate, vs.version.Electra?)
    }

    function Duty(): SniffedDuty {
      if PlainAttestation? || Versioned? then Attester else Aggregator
    }
  }

  datatype UnsignedData =
    | Data(d: AttestationData)
    | PlainAggregated(a: Attestation)
    | VersionedAggregated(va: VersionedAggregatedAttestation)
  {
    ghost predicate Valid() {
      match this
      case Data(_) => true
      case PlainAggregated(a) => ValidAttestation(a, false)
      case VersionedAggregated(va) => ValidAttestation(va.att, va.version.Electra?)
    }

    function Duty(): SniffedDuty {
      if Data? then Attester else Aggregator
    }
  }

  /** The JSON decoders, about which nothing is assumed. */
  datatype JsonLib = JsonLib(
    attestation: Bytes -> Option<Attestation>,
    versionedAttestation: Bytes -> Option<VersionedAttestation>,
    aggregate: Bytes -> Option<SignedAggregateAndProof>,
    versionedAggregate: Bytes -> Option<VersionedSignedAggregate>,
    attestationData: Bytes -> Option<AttestationData>,
    versionedAggregated: Bytes -> Option<VersionedAggregatedAttestation>)

  // ----- signed data -----

  function MarshalSigned(d: SignedData): (b: Bytes) {
    match d
    case PlainAttestation(a) => EncodeAttestation(a)
    case Versioned(va) => EncodeVersionedAttestation(va)
    case PlainAggregate(s) => EncodeSignedAggregate(s)
    case VersionedAggregate(vs) => EncodeVersioned(vs.version, EncodeSignedAggregate(vs.aggregate))
  }

  function DecodeVersionedAggregate(b: Bytes): (r: Result<VersionedSignedAggregate, SszError>) {
    var header := SplitVersioned(b);
    if header.Err? then Err(header.error) else
      var (version, payload) := header.value;
      var s := DecodeSignedAggregate(version.Electra?, payload);
      if s.Err? then Err(s.error) else Ok(VersionedSignedAggregate(version, s.value))
  }

  /** ParSignedDataFromProto: the plain layout first, then the versioned one. A panic is recovered as an error. */
  function SignedFromProto(typ: SniffedDuty, lib: JsonLib, b: Bytes): (r: Result<SignedData, SszError>) {
    match typ
    case Attester =>
      var plain := Unmarshal(b, DecodeAttestation(false, b), lib.attestation(b));
      if plain.Ok? then Ok(PlainAttestation(plain.value)) else
        var versioned := Unmarshal(b, DecodeVersionedAttestation(b), lib.versionedAttestation(b));
        if versioned.Ok? then Ok(Versioned(versioned.value)) else Err(versioned.error)
    case Aggregator =>
      var plain := Unmarshal(b, DecodeSignedAggregate(false, b), lib.aggregate(b));
      if plain.Ok? then Ok(PlainAggregate(plain.value)) else
        var versioned := Unmarshal(b, DecodeVersionedAggregate(b), lib.versionedAggregate(b));
        if versioned.Ok? then Ok(VersionedAggregate(versioned.value)) else Err(versioned.error)
  }

  /** A versioned encoding starts with its version, which is far below every container offset. */
  lemma VersionWord(v: DataVersion, rest: Bytes)
    ensures var b := Le(ToUint64(v), 8) + rest;
      b[0] <= 5 && U64(b, 0) == ToUint64(v) && U32(b, 0) <= 5
  {
    var n := ToUint64(v);
    var b := Le(n, 8) + rest;
    U64At([], n, rest);
    assert b == [] + Le(n, 8) + rest;
    Le64Halves(n);
    assert b[0..4] == Le(n, 8)[..4];
    assert Le(n, 8)[0] == n % 256;
  }

  lemma VersionedIsNotPlain(d: SignedData)
    requires d.Versioned? || d.VersionedAggregate?
    ensures var b := MarshalSigned(d);
      && b != [] && !LooksLikeJson(b)
      && DecodeAttestation(false, b).Err? && DecodeSignedAggregate(false, b).Err?
  {
    var b := MarshalSigned(d);
    var v := if d.Versioned? then d.va.version else d.vs.version;
    var rest := b[8..];
    assert b == Le(ToUint64(v), 8) + rest;
    VersionWord(v, rest);
    SszIsNotJson(b);
  }

  lemma PlainIsNotJson(b: Bytes, o: uint32)
    requires |b| >= 4 && b[..4] == Le(o, 4) && (o == 8 || o == 100 || o == 228)
    ensures b != [] && !LooksLikeJson(b)
  {
    assert b[0] == Le(o, 4)[0] == o % 256;
    SszIsNotJson(b);
  }

  /** Sniffing signed data is sound for every value and every JSON decoder: decoding an encoded value gives back
      the same variant and the same value, except for the short forms that even the versioned decoder loses. */
  lemma SignedRoundTrip(d: SignedData, lib: JsonLib)
    requires d.Valid()
    ensures SignedFromProto(d.Duty(), lib, MarshalSigned(d)) == Ok(d)
            <==> (d.Versioned? && d.va.valIdx == None ==> ShortFormReadable(d.va))
  {
    hide ValidAttestation, DecodeAttestation, EncodeAttestation, DecodeSignedAggregate, EncodeSignedAggregate;
    var b := MarshalSigned(d);
    match d
    case PlainAttestation(a) => AttestationRoundTrip(a, false);
    case PlainAggregate(s) => SignedAggregateRoundTrip(s, false);
    case Versioned(va) =>
      VersionedIsNotPlain(d);
      if va.valIdx == None {
        ShortFormRoundTrip(va);
      } else {
        LongFormRoundTrip(va);
      }
    case VersionedAggregate(vs) =>
      VersionedIsNotPlain(d);
      HeadersRoundTrip(vs.version, false, 0, EncodeSignedAggregate(vs.aggregate));
      SignedAggregateRoundTrip(vs.aggregate, vs.version.Electra?);
  }

  // ----- unsigned data -----

  function MarshalUnsigned(d: UnsignedData): (b: Bytes) {
    match d
    case Data(a) => EncodeAttestationData(a)
    case PlainAggregated(a) => EncodeAttestation(a)
    case VersionedAggregated(va) => EncodeVersioned(va.version, EncodeAttestation(va.att))
  }

  function DecodeVersionedAggregated(b: Bytes): (r: Result<VersionedAggregatedAttestation, SszError>) {
    var short := DecodeWithoutValIdx(b);
    if short.Err? then Err(short.error) else Ok(VersionedAggregatedAttestation(short.value.version, short.value.att))
  }

  /** unmarshalUnsignedData: for aggregators the versioned layout first, then the plain one. */
  function UnsignedFromBytes(typ: SniffedDuty, lib: JsonLib, b: Bytes): (r: Result<UnsignedData, SszError>) {
    match typ
    case Attester =>
      var data := Unmarshal(b, DecodeAttestationData(b), lib.attestationData(b));
      if data.Ok? then Ok(Data(data.value)) else Err(data.error)
    case Aggregator =>
      var versioned := Unmarshal(b, DecodeVersionedAggregated(b), lib.versionedAggregated(b));
      if versioned.Ok? then Ok(VersionedAggregated(versioned.value))
      else if versioned.error == SliceOutOfRange then Err(SliceOutOfRange)
      else
        var plain := Unmarshal(b, DecodeAttestation(false, b), lib.attestation(b));
        if plain.Ok? then Ok(PlainAggregated(plain.value)) else Err(plain.error)
  }

  /** The first word of a plain attestation is an offset, never a version. */
  lemma PlainIsNotVersioned(a: Attestation)
    requires ValidAttestation(a, false)
    ensures EncodeAttestation(a)[..4] == Le(228, 4)
    ensures DecodeWithoutValIdx(EncodeAttestation(a)) == Err(ErrVersion)
  {
    var b := EncodeAttestation(a);
    Le32(228);
    assert b[0..4] == Le(228, 4);
    assert b[0..8] == b[0..4] + b[4..8];
    FromLeSplit(b[0..4], b[4..8]);
    assert U64(b, 0) >= 228;
  }

  /** Sniffing unsigned data is sound for every value and every JSON decoder. */
  lemma UnsignedRoundTrip(d: UnsignedData, lib: JsonLib)
    requires d.Valid()
    ensures UnsignedFromBytes(d.Duty(), lib, MarshalUnsigned(d)) == Ok(d)
  {
    hide ValidAttestation, DecodeAttestation, EncodeAttestation, DecodeAttestationData, EncodeAttestationData;
    var b := MarshalUnsigned(d);
    match d
    case Data(a) => AttestationDataRoundTrip(a);
    case PlainAggregated(a) =>
      PlainIsNotVersioned(a);
      PlainIsNotJson(b, 228);
      AttestationRoundTrip(a, false);
    case VersionedAggregated(va) =>
      HeadersRoundTrip(va.version, false, 0, EncodeAttestation(va.att));
      AttestationRoundTrip(va.att, va.version.Electra?);
  }

  // ----- JSON -----

  lemma FirstByte(b: Bytes)
    ensures |b| >= 4 ==> U32(b, 0) % 256 == b[0]
    ensures |b| >= 8 ==> U64(b, 0) % 256 == b[0]
  {
    if |b| >= 4 {
      assert FromLe(b[0..4]) == b[0] + 256 * FromLe(b[0..4][1..]);
    }
    if |b| >= 8 {
      assert FromLe(b[0..8]) == b[0] + 256 * FromLe(b[0..8][1..]);
    }
  }

  /** What looks like JSON starts with no offset and no version. */
  lemma JsonStart(b: Bytes)
    requires LooksLikeJson(b)
    ensures |b| >= 4 ==> U32(b, 0) != 100 && U32(b, 0) != 228
    ensures |b| >= 8 ==> U64(b, 0) > 5
  {
    FirstByte(b);
    if b != [] && (b[0] <= 8 || b[0] == 100 || b[0] == 228) {
      SszIsNotJson(b);
    }
  }

  /** An error that leaves a decoder without a panic. */
  predicate Refused<T>(r: Result<T, SszError>) {
    r.Err? && r.error != SliceOutOfRange
  }

  lemma JsonIsNotSsz(b: Bytes)
    requires LooksLikeJson(b)
    ensures Refused(DecodeAttestation(false, b)) && Refused(DecodeSignedAggregate(false, b))
    ensures SplitVersioned(b) == Err(ErrSize) || SplitVersioned(b) == Err(ErrVersion)
    ensures SplitValIdx(b) == Err(ErrSize) || SplitValIdx(b) == Err(ErrVersion)
  {
    JsonStart(b);
    hide LooksLikeJson, U32, U64, DecodeAttData, ValidBitlist, DecodeAggregateAndProof;
  }

  /** What looks like JSON is read by the JSON decoders, in the order of the layouts, whatever they make of it. */
  lemma JsonIsReadAsJson(lib: JsonLib, b: Bytes)
    requires LooksLikeJson(b)
    ensures SignedFromProto(Attester, lib, b)
            == (if lib.attestation(b).Some? then Ok(PlainAttestation(lib.attestation(b).value))
                else if lib.versionedAttestation(b).Some? then Ok(Versioned(lib.versionedAttestation(b).value))
                else Err(ErrJson))
    ensures SignedFromProto(Aggregator, lib, b)
            == (if lib.aggregate(b).Some? then Ok(PlainAggregate(lib.aggregate(b).value))
                else if lib.versionedAggregate(b).Some? then Ok(VersionedAggregate(lib.versionedAggregate(b).value))
                else Err(ErrJson))
    ensures UnsignedFromBytes(Aggregator, lib, b)
            == (if lib.versionedAggregated(b).Some? then Ok(VersionedAggregated(lib.versionedAggregated(b).value))
                else if lib.attestation(b).Some? then Ok(PlainAggregated(lib.attestation(b).value))
                else Err(ErrJson))
    ensures DecodeAttestationData(b).Err? ==>
      UnsignedFromBytes(Attester, lib, b)
      == if lib.attestationData(b).Some? then Ok(Data(lib.attestationData(b).value)) else Err(ErrJson)
  {
    JsonIsNotSsz(b);
    AttestationDataNeverPanics(b);
    hide LooksLikeJson, DecodeAttestation, DecodeSignedAggregate, SplitVersioned, SplitValIdx, DecodeAttestationData;
  }

  lemma AttestationDataNeverPanics(b: Bytes)
    ensures DecodeAttestationData(b).Err? ==> Refused(DecodeAttestationData(b))
  {
    hide U32, U64;
  }

  // ----- sets of partially signed data -----

  type PubKey = string

  datatype ParSignedData = ParSignedData(data: SignedData, shareIdx: int)

  datatype ParSignedDataPB = ParSignedDataPB(data: Bytes, shareIdx: int)

  /** Go's int32(x). */
  function ToInt32(x: int): (r: int)
    ensures -0x8000_0000 <= r < 0x8000_0000
  {
    (x + 0x8000_0000) % TWO32 - 0x8000_0000
  }

  function ParSignedDataToProto(d: ParSignedData): ParSignedDataPB {
    ParSignedDataPB(MarshalSigned(d.data), ToInt32(d.shareIdx))
  }

  function WithShareIdx(data: Result<SignedData, SszError>, shareIdx: int): Result<ParSignedData, SszError> {
    if data.Err? then Err(data.error) else Ok(ParSignedData(data.value, shareIdx))
  }

  function ParSignedDataFromProto(typ: SniffedDuty, lib: JsonLib, pb: ParSignedDataPB)
    : (r: Result<ParSignedData, SszError>)
  {
    WithShareIdx(SignedFromProto(typ, lib, pb.data), pb.shareIdx)
  }

  function SetToProto(sigs: map<PubKey, ParSignedData>): map<PubKey, ParSignedDataPB> {
    map k <- sigs :: ParSignedDataToProto(sigs[k])
  }

  method ParSignedDataSetToProto(sigs: map<PubKey, ParSignedData>) returns (inner: map<PubKey, ParSignedDataPB>)
    ensures inner == SetToProto(sigs)
  {
    inner := map[];
    var todo := sigs.Keys;
    while todo != {}
      invariant todo <= sigs.Keys
      invariant inner == map k <- sigs.Keys - todo :: ParSignedDataToProto(sigs[k])
      decreases todo
    {
      var pubkey :| pubkey in todo;
      todo := todo - {pubkey};
      inner := inner[pubkey := ParSignedDataToProto(sigs[pubkey])];
    }
  }

  /** r is what ParSignedDataSetFromProto may answer; with several bad entries the error is that of any of them. */
  ghost predicate IsSetFromProto(typ: SniffedDuty, lib: JsonLib, pbs: map<PubKey, ParSignedDataPB>,
                                 r: Result<map<PubKey, ParSignedData>, SszError>) {
    if r.Ok? then
      && pbs != map[]
      && r.value.Keys == pbs.Keys
      && forall k <- pbs :: ParSignedDataFromProto(typ, lib, pbs[k]) == Ok(r.value[k])
    else
      || (pbs == map[] && r.error == ErrEmptySet)
      || exists k <- pbs :: ParSignedDataFromProto(typ, lib, pbs[k]) == Err(r.error)
  }

  method ParSignedDataSetFromProto(typ: SniffedDuty, lib: JsonLib, pbs: map<PubKey, ParSignedDataPB>)
    returns (r: Result<map<PubKey, ParSignedData>, SszError>)
    ensures IsSetFromProto(typ, lib, pbs, r)
  {
    if |pbs| == 0 {
      return Err(ErrEmptySet);
    }
    var resp := map[];
    var todo := pbs.Keys;
    while todo != {}
      invariant todo <= pbs.Keys
      invariant resp.Keys == pbs.Keys - todo
      invariant forall k <- resp :: ParSignedDataFromProto(typ, lib, pbs[k]) == Ok(resp[k])
      decreases todo
    {
      var pubkey :| pubkey in todo;
      todo := todo - {pubkey};
      var data := ParSignedDataFromProto(typ, lib, pbs[pubkey]);
      if data.Err? {
        return Err(data.error);
      }
      resp := resp[pubkey := data.value];
    }
    return Ok(resp);
  }

  /** The share index fits an int32, and a short form is one that the decoder can read. */
  predicate Survives(d: ParSignedData) {
    && -0x8000_0000 <= d.shareIdx < 0x8000_0000
    && (d.data.Versioned? && d.data.va.valIdx == None ==> ShortFormReadable(d.data.va))
  }

  lemma ParSignedRoundTrip(d: ParSignedData, lib: JsonLib)
    requires d.data.Valid()
    ensures ParSignedDataFromProto(d.data.Duty(), lib, ParSignedDataToProto(d)) == Ok(d) <==> Survives(d)
  {
    SignedRoundTrip(d.data, lib);
    ShareIdxRoundTrip(SignedFromProto(d.data.Duty(), lib, MarshalSigned(d.data)), d);
  }

  lemma ShareIdxRoundTrip(data: Result<SignedData, SszError>, d: ParSignedData)
    ensures WithShareIdx(data, ToInt32(d.shareIdx)) == Ok(d)
            <==> data == Ok(d.data) && -0x8000_0000 <= d.shareIdx < 0x8000_0000
  {
  }

  /** A set survives the wire exactly when it is not empty and each of its values survives; then the answer is the
      same set whatever order the maps were visited in. */
  lemma SetRoundTrip(typ: SniffedDuty, lib: JsonLib, sigs: map<PubKey, ParSignedData>,
                     r: Result<map<PubKey, ParSignedData>, SszError>)
    requires forall k <- sigs :: sigs[k].data.Valid() && sigs[k].data.Duty() == typ
    requires IsSetFromProto(typ, lib, SetToProto(sigs), r)
    ensures r == Ok(sigs) <==> sigs != map[] && forall k <- sigs :: Survives(sigs[k])
  {
    hide ParSignedDataFromProto, ParSignedDataToProto, Survives;
    var pbs := SetToProto(sigs);
    assert pbs.Keys == sigs.Keys;
    assert forall k <- sigs :: ParSignedDataFromProto(typ, lib, pbs[k]) == Ok(sigs[k]) <==> Survives(sigs[k]) by {
      forall k <- sigs ensures ParSignedDataFromProto(typ, lib, pbs[k]) == Ok(sigs[k]) <==> Survives(sigs[k]) {
        ParSignedRoundTrip(sigs[k], lib);
      }
    }
    if r.Ok? && sigs != map[] && forall k <- sigs :: Survives(sigs[k]) {
      forall k <- sigs ensures r.value[k] == sigs[k] {
        assert ParSignedDataFromProto(typ, lib, pbs[k]) == Ok(sigs[k]);
      }
      assert r.value == sigs;
    }
  }
}
