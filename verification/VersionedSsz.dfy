/** The three hand-written SSZ headers of core/ssz.go around a versioned value, the backward compatible decoder
    of VersionedAttestation, and the AttestationData codec. */
module VersionedSsz {
  import opened Prelude
  import opened Bytes
  import opened Containers

  // ----- data versions (eth2util/types.go) -----

  datatype DataVersion = Phase0 | Altair | Bellatrix | Capella | Deneb | Electra

  const DATA_VERSION_VALUES: map<DataVersion, uint64> :=
    map[Phase0 := 0, Altair := 1, Bellatrix := 2, Capella := 3, Deneb := 4, Electra := 5]

  function ToUint64(v: DataVersion): (n: uint64)
    ensures n <= 5
  {
    match v
    case Phase0 => 0
    case Altair => 1
    case Bellatrix => 2
    case Capella => 3
    case Deneb => 4
    case Electra => 5
  }

  lemma TableHolds(v: DataVersion)
    ensures v in DATA_VERSION_VALUES && DATA_VERSION_VALUES[v] == ToUint64(v)
  {
    match v {
      case Phase0 =>
      case Altair =>
      case Bellatrix =>
      case Capella =>
      case Deneb =>
      case Electra =>
    }
  }

  function FromUint64(val: uint64): (r: Option<DataVersion>)
    ensures r.Some? <==> val <= 5
    ensures forall v :: r == Some(v) <==> ToUint64(v) == val
  {
    match val
    case 0 => Some(Phase0)
    case 1 => Some(Altair)
    case 2 => Some(Bellatrix)
    case 3 => Some(Capella)
    case 4 => Some(Deneb)
    case 5 => Some(Electra)
    case _ => None
  }

  /** DataVersionFromUint64 searches the table in map order; the values are distinct, so the order is invisible. */
  method DataVersionFromUint64(val: uint64) returns (r: Option<DataVersion>)
    ensures r == FromUint64(val)
  {
    var todo := DATA_VERSION_VALUES.Keys;
    while todo != {}
      invariant todo <= DATA_VERSION_VALUES.Keys
      invariant forall v <- DATA_VERSION_VALUES.Keys - todo :: DATA_VERSION_VALUES[v] != val
      decreases todo
    {
      var version :| version in todo;
      todo := todo - {version};
      if val == DATA_VERSION_VALUES[version] {
        TableHolds(version);
        return Some(version);
      }
    }
    forall v ensures ToUint64(v) != val {
      TableHolds(v);
    }
    return None;
  }

  // ----- headers -----

  const VERSIONED_OFFSET: nat := 8 + 4
  const VERSIONED_BLINDED_OFFSET: nat := 8 + 1 + 4
  const VERSIONED_VALIDX_OFFSET: nat := 8 + 8 + 4

  function EncodeVersioned(v: DataVersion, payload: Bytes): (b: Bytes) {
    Le(ToUint64(v), 8) + Le(VERSIONED_OFFSET, 4) + payload
  }

  function EncodeBlinded(v: DataVersion, blinded: bool, payload: Bytes): (b: Bytes) {
    Le(ToUint64(v), 8) + [if blinded then 1 else 0] + Le(VERSIONED_BLINDED_OFFSET, 4) + payload
  }

  function EncodeValIdx(v: DataVersion, valIdx: uint64, payload: Bytes): (b: Bytes) {
    Le(ToUint64(v), 8) + Le(valIdx, 8) + Le(VERSIONED_VALIDX_OFFSET, 4) + payload
  }

  /** unmarshalSSZVersioned up to the decoding of the value. */
  function SplitVersioned(buf: Bytes): (r: Result<(DataVersion, Bytes), SszError>) {
    if |buf| < VERSIONED_OFFSET then Err(ErrSize) else
      var version := FromUint64(U64(buf, 0));
      if version == None then Err(ErrVersion) else
        var o1 := U32(buf, 8);
        if VERSIONED_OFFSET > o1 then Err(ErrOffset)
        else if o1 > |buf| then Err(SliceOutOfRange)
        else Ok((version.value, buf[o1..]))
  }

  /** unmarshalSSZVersionedBlinded up to the decoding of the value. */
  function SplitBlinded(buf: Bytes): (r: Result<(DataVersion, bool, Bytes), SszError>) {
    if |buf| < VERSIONED_BLINDED_OFFSET then Err(ErrSize) else
      var version := FromUint64(U64(buf, 0));
      if version == None then Err(ErrVersion) else
        var blinded := buf[8] == 1;
        var o1 := U32(buf, 9);
        if VERSIONED_BLINDED_OFFSET > o1 then Err(ErrOffset)
        else if o1 > |buf| then Err(SliceOutOfRange)
        else Ok((version.value, blinded, buf[o1..]))
  }

  /** unmarshalSSZVersionedValidatorIdx up to the decoding of the value. */
  function SplitValIdx(buf: Bytes): (r: Result<(DataVersion, uint64, Bytes), SszError>) {
    if |buf| < VERSIONED_VALIDX_OFFSET then Err(ErrSize) else
      var version := FromUint64(U64(buf, 0));
      if version == None then Err(ErrVersion) else
        var valIdx := U64(buf, 8);
        var o1 := U32(buf, 16);
        if o1 != VERSIONED_VALIDX_OFFSET then Err(ErrOffset) else Ok((version.value, valIdx, buf[o1..]))
  }

  /** Every header layout is undone by its decoder, for every version and every payload. */
  lemma HeadersRoundTrip(v: DataVersion, blinded: bool, valIdx: uint64, payload: Bytes)
    ensures SplitVersioned(EncodeVersioned(v, payload)) == Ok((v, payload))
    ensures SplitBlinded(EncodeBlinded(v, blinded, payload)) == Ok((v, blinded, payload))
    ensures SplitValIdx(EncodeValIdx(v, valIdx, payload)) == Ok((v, valIdx, payload))
  {
    VersionedHeader(v, payload);
    BlindedHeader(v, blinded, payload);
    ValIdxHeader(v, valIdx, payload);
  }

  lemma VersionedHeader(v: DataVersion, payload: Bytes)
    ensures SplitVersioned(EncodeVersioned(v, payload)) == Ok((v, payload))
  {
    hide Le, FromLe;
    var b := EncodeVersioned(v, payload);
    Le64(ToUint64(v));
    Le32(VERSIONED_OFFSET);
    assert b[0..8] == Le(ToUint64(v), 8) && b[8..12] == Le(VERSIONED_OFFSET, 4) && b[12..] == payload;
  }

  lemma BlindedHeader(v: DataVersion, blinded: bool, payload: Bytes)
    ensures SplitBlinded(EncodeBlinded(v, blinded, payload)) == Ok((v, blinded, payload))
  {
    hide Le, FromLe;
    var b := EncodeBlinded(v, blinded, payload);
    Le64(ToUint64(v));
    Le32(VERSIONED_BLINDED_OFFSET);
    assert b[0..8] == Le(ToUint64(v), 8) && b[9..13] == Le(VERSIONED_BLINDED_OFFSET, 4) && b[13..] == payload;
  }

  lemma ValIdxHeader(v: DataVersion, valIdx: uint64, payload: Bytes)
    ensures SplitValIdx(EncodeValIdx(v, valIdx, payload)) == Ok((v, valIdx, payload))
  {
    hide Le, FromLe;
    var b := EncodeValIdx(v, valIdx, payload);
    Le64(ToUint64(v));
    Le64(valIdx);
    Le32(VERSIONED_VALIDX_OFFSET);
    assert b[0..8] == Le(ToUint64(v), 8) && b[8..16] == Le(valIdx, 8);
    assert b[16..20] == Le(VERSIONED_VALIDX_OFFSET, 4) && b[20..] == payload;
  }

  // ----- VersionedAttestation -----

  datatype VersionedAttestation = VersionedAttestation(version: DataVersion, valIdx: Option<uint64>, att: Attestation)
  {
    ghost predicate Valid() {
      ValidAttestation(att, version.Electra?)
    }
  }

  function EncodeVersionedAttestation(a: VersionedAttestation): (b: Bytes) {
    if a.valIdx == None then EncodeVersioned(a.version, EncodeAttestation(a.att))
    else EncodeValIdx(a.version, a.valIdx.value, EncodeAttestation(a.att))
  }

  function DecodeWithValIdx(b: Bytes): (r: Result<VersionedAttestation, SszError>) {
    var header := SplitValIdx(b);
    if header.Err? then Err(header.error) else
      var (version, valIdx, payload) := header.value;
      var att := DecodeAttestation(version.Electra?, payload);
      if att.Err? then Err(att.error) else Ok(VersionedAttestation(version, Some(valIdx), att.value))
  }

  function DecodeWithoutValIdx(b: Bytes): (r: Result<VersionedAttestation, SszError>) {
    var header := SplitVersioned(b);
    if header.Err? then Err(header.error) else
      var (version, payload) := header.value;
      var att := DecodeAttestation(version.Electra?, payload);
      if att.Err? then Err(att.error) else Ok(VersionedAttestation(version, None, att.value))
  }

  /** The long form first; any offset error, of the header or of the value, falls back to the short form. */
  function DecodeVersionedAttestation(b: Bytes): (r: Result<VersionedAttestation, SszError>) {
    var long := DecodeWithValIdx(b);
    if long == Err(ErrOffset) then DecodeWithoutValIdx(b) else long
  }

  function SizeVersionedAttestation(a: VersionedAttestation): (n: nat) {
    VERSIONED_VALIDX_OFFSET + |EncodeAttestation(a.att)|
  }

  /** SizeSSZ is exact with a validator index and eight bytes too large without one. */
  lemma VersionedAttestationSize(a: VersionedAttestation)
    ensures SizeVersionedAttestation(a) == |EncodeVersionedAttestation(a)| + if a.valIdx == None then 8 else 0
  {
    assert |EncodeVersioned(a.version, EncodeAttestation(a.att))| == 12 + |EncodeAttestation(a.att)|;
  }

  lemma LongFormRoundTrip(a: VersionedAttestation)
    requires a.Valid() && a.valIdx.Some?
    ensures DecodeVersionedAttestation(EncodeVersionedAttestation(a)) == Ok(a)
  {
    HeadersRoundTrip(a.version, false, a.valIdx.value, EncodeAttestation(a.att));
    AttestationRoundTrip(a.att, a.version.Electra?);
  }

  /** When the short form is read back: the slot's low half does not read as the long form's offset, or else its
      high half reads as an attestation offset beyond the end of what the long form takes for the value. */
  predicate ShortFormReadable(a: VersionedAttestation) {
    var rest := |EncodeAttestation(a.att)| - 8;
    || a.att.data.slot % TWO32 != VERSIONED_VALIDX_OFFSET
    || (FixedSize(a.version.Electra?) <= rest && rest < a.att.data.slot / TWO32)
  }

  /** An encoded attestation carries its slot right after the leading offset. */
  lemma SlotWords(a: Attestation)
    ensures |EncodeAttestation(a)| >= 228
    ensures U32(EncodeAttestation(a), 4) == a.data.slot % TWO32
    ensures U32(EncodeAttestation(a), 8) == a.data.slot / TWO32
  {
    var b, slot := EncodeAttestation(a), Le(a.data.slot, 8);
    Le64Halves(a.data.slot);
    assert EncodeAttData(a.data)[..8] == slot;
    assert b[4..12] == slot;
    assert b[4..8] == slot[..4] && b[8..12] == slot[4..];
  }

  /** What the two decoders see at the start of a short form. */
  lemma ShortFormWords(a: VersionedAttestation)
    requires a.Valid() && a.valIdx == None
    ensures var b, slot := EncodeVersionedAttestation(a), a.att.data.slot;
      && |b| >= 240
      && U64(b, 0) == ToUint64(a.version)
      && U32(b, 16) == slot % TWO32
      && U32(b[20..], 0) == slot / TWO32
  {
    hide Le, FromLe, EncodeAttestation;
    var inner, b := EncodeAttestation(a.att), EncodeVersionedAttestation(a);
    SlotWords(a.att);
    var head := Le(ToUint64(a.version), 8) + Le(VERSIONED_OFFSET, 4);
    assert b == head + inner;
    assert b[16..20] == inner[4..8] && b[20..][0..4] == inner[8..12];
    U64At([], ToUint64(a.version), Le(VERSIONED_OFFSET, 4) + inner);
    assert b == [] + Le(ToUint64(a.version), 8) + (Le(VERSIONED_OFFSET, 4) + inner);
  }

  /** When decoding a value ends in the offset error that makes the decoder fall back. */
  lemma ValueOffset(electra: bool, b: Bytes)
    ensures DecodeAttestation(electra, b) == Err(ErrOffset) <==> |b| >= FixedSize(electra) && U32(b, 0) > |b|
  {
    hide ValidBitlist;
  }

  lemma ShortFormDecodes(a: VersionedAttestation)
    requires a.Valid() && a.valIdx == None
    ensures |EncodeVersionedAttestation(a)| == 12 + |EncodeAttestation(a.att)|
    ensures DecodeWithoutValIdx(EncodeVersionedAttestation(a)) == Ok(a)
  {
    HeadersRoundTrip(a.version, false, 0, EncodeAttestation(a.att));
    AttestationRoundTrip(a.att, a.version.Electra?);
    hide EncodeAttestation, DecodeAttestation, ValidAttestation, SplitVersioned;
  }

  /** Without a validator index decoding inverts encoding exactly for the attestations of ShortFormReadable. */
  lemma ShortFormRoundTrip(a: VersionedAttestation)
    requires a.Valid() && a.valIdx == None
    ensures DecodeVersionedAttestation(EncodeVersionedAttestation(a)) == Ok(a) <==> ShortFormReadable(a)
  {
    var b := EncodeVersionedAttestation(a);
    ShortFormWords(a);
    ShortFormDecodes(a);
    hide EncodeAttestation, DecodeAttestation, EncodeVersionedAttestation, DecodeWithoutValIdx, U64, U32;
    if a.att.data.slot % TWO32 == VERSIONED_VALIDX_OFFSET {
      assert SplitValIdx(b) == Ok((a.version, U64(b, 8), b[20..]));
      ValueOffset(a.version.Electra?, b[20..]);
    } else {
      assert SplitValIdx(b) == Err(ErrOffset);
    }
  }

  /** Every short form attestation of slot 20 is lost. */
  lemma ShortFormOfSlot20IsLost(a: VersionedAttestation)
    requires a.Valid() && a.valIdx == None && a.att.data.slot == 20
    ensures DecodeVersionedAttestation(EncodeVersionedAttestation(a)) != Ok(a)
  {
    ShortFormRoundTrip(a);
  }

  /** MarshalSSZTo grows the target buffer by the encoding. */
  method MarshalVersionedAttestationTo(dst: Bytes, a: VersionedAttestation) returns (r: Bytes)
    ensures r == dst + EncodeVersionedAttestation(a)
  {
    r := dst + Le(ToUint64(a.version), 8);
    if a.valIdx == None {
      r := r + Le(VERSIONED_OFFSET, 4);
    } else {
      r := r + Le(a.valIdx.value, 8);
      r := r + Le(VERSIONED_VALIDX_OFFSET, 4);
    }
    r := r + EncodeAttestation(a.att);
  }

  const ZERO_CHECKPOINT := Checkpoint(0, Le(0, 32))

  function ZeroAttestation(electra: bool): Attestation {
    Attestation([], AttData(0, 0, Le(0, 32), ZERO_CHECKPOINT, ZERO_CHECKPOINT), Le(0, 96),
                if electra then Some(Le(0, 8)) else None)
  }

  /** The receiver of VersionedAttestation.UnmarshalSSZ: one nilable pointer per version. */
  class VersionedAttestationPtr {
    var version: DataVersion
    var valIdx: Option<uint64>
    var atts: map<DataVersion, Attestation>

    constructor ()
      ensures atts == map[]
    {
      version, valIdx, atts := Phase0, None, map[];
    }

    /** sszValFromVersion allocates the value of a version on first use. */
    method SszValFromVersion(v: DataVersion)
      modifies this`atts
      ensures v in atts
      ensures atts == old(atts) || (v !in old(atts) && atts == old(atts)[v := ZeroAttestation(v.Electra?)])
    {
      if v !in atts {
        atts := atts[v := ZeroAttestation(v.Electra?)];
      }
    }

    /** Decodes a value in place; a failed decode may leave the value of that version half written. */
    method UnmarshalValue(v: DataVersion, payload: Bytes) returns (err: Option<SszError>)
      modifies this`atts
      ensures DecodeAttestation(v.Electra?, payload).Ok? ==>
        err == None && atts == old(atts)[v := DecodeAttestation(v.Electra?, payload).value]
      ensures DecodeAttestation(v.Electra?, payload).Err? ==>
        err == Some(DecodeAttestation(v.Electra?, payload).error) && v in atts && atts - {v} == old(atts) - {v}
    {
      SszValFromVersion(v);
      var att := DecodeAttestation(v.Electra?, payload);
      match att
      case Ok(value) => atts := atts[v := value]; err := None;
      case Err(e) => err := Some(e);
    }

    /** On success the receiver holds exactly the decoded value, even when the long form's attempt failed half
        way through; pointers of other versions keep their values. */
    method UnmarshalSSZ(b: Bytes) returns (err: Option<SszError>)
      modifies this
      ensures err == match DecodeVersionedAttestation(b) case Ok(_) => None case Err(e) => Some(e)
      ensures err == None ==>
        && version in atts
        && DecodeVersionedAttestation(b) == Ok(VersionedAttestation(version, valIdx, atts[version]))
        && atts - {version} == old(atts) - {version}
      ensures err != None ==> version == old(version) && valIdx == old(valIdx)
    {
      var header := SplitValIdx(b);
      if header.Ok? {
        var (v, idx, payload) := header.value;
        err := UnmarshalValue(v, payload);
        if err == None {
          version, valIdx := v, Some(idx);
          return;
        }
      } else {
        err := Some(header.error);
      }
      if err != Some(ErrOffset) {
        return;
      }
      var short := SplitVersioned(b);
      if short.Err? {
        return Some(short.error);
      }
      var (v, payload) := short.value;
      err := UnmarshalValue(v, payload);
      if err == None {
        version, valIdx := v, None;
      }
    }
  }

  // ----- AttestationData with its attester duty -----

  datatype AttesterDuty = AttesterDuty(pubkey: Bytes48, slot: uint64, validatorIndex: uint64, committeeIndex: uint64,
                                       committeeLength: uint64, committeesAtSlot: uint64, position: uint64)

  datatype AttestationData = AttestationData(data: AttData, duty: AttesterDuty)

  const DUTY_SIZE: nat := 48 + 6 * 8

  lemma {:induction false} WordAt(pre: Bytes, words: seq<uint64>, i: nat)
    requires i < |words|
    ensures U64(pre + EncodeWords(words), |pre| + 8 * i) == words[i]
    decreases words
  {
    var b := pre + EncodeWords(words);
    var head := pre + Le(words[0], 8);
    assert b == head + EncodeWords(words[1..]);
    if i == 0 {
      U64At(pre, words[0], EncodeWords(words[1..]));
    } else {
      WordAt(head, words[1..], i - 1);
    }
  }

  function EncodeDuty(d: AttesterDuty): (b: Bytes)
    ensures |b| == DUTY_SIZE
  {
    d.pubkey + EncodeWords([d.slot, d.validatorIndex, d.committeeIndex,
                            d.committeeLength, d.committeesAtSlot, d.position])
  }

  function DecodeDuty(b: Bytes): (r: Result<AttesterDuty, SszError>) {
    if |b| < DUTY_SIZE then Err(ErrSize) else
      Ok(AttesterDuty(b[..48], U64(b, 48), U64(b, 56), U64(b, 64), U64(b, 72), U64(b, 80), U64(b, 88)))
  }

  lemma DutyRoundTrip(d: AttesterDuty)
    ensures DecodeDuty(EncodeDuty(d)) == Ok(d)
  {
    var words := [d.slot, d.validatorIndex, d.committeeIndex, d.committeeLength, d.committeesAtSlot, d.position];
    WordAt(d.pubkey, words, 0);
    WordAt(d.pubkey, words, 1);
    WordAt(d.pubkey, words, 2);
    WordAt(d.pubkey, words, 3);
    WordAt(d.pubkey, words, 4);
    WordAt(d.pubkey, words, 5);
    assert EncodeDuty(d)[..48] == d.pubkey;
  }

  /** attesterDutySSZ.UnmarshalSSZ walks the buffer with a pair of cursors. */
  method UnmarshalDuty(buf: Bytes) returns (r: Result<AttesterDuty, SszError>)
    ensures r == DecodeDuty(buf)
  {
    if |buf| < DUTY_SIZE {
      return Err(ErrSize);
    }
    var offset, next := 0, 48;
    var pubkey := buf[offset..next];
    var words: seq<uint64> := [];
    while |words| < 6
      invariant |words| <= 6
      invariant next == 48 + 8 * |words|
      invariant forall i | 0 <= i < |words| :: words[i] == U64(buf, 48 + 8 * i)
      decreases 6 - |words|
    {
      offset, next := next, next + 8;
      words := words + [U64(buf, offset)];
    }
    r := Ok(AttesterDuty(pubkey, words[0], words[1], words[2], words[3], words[4], words[5]));
  }

  function EncodeAttestationData(a: AttestationData): (b: Bytes)
    ensures |b| == 4 + 4 + 128 + DUTY_SIZE
  {
    Le(8, 4) + Le(8 + 128, 4) + EncodeAttData(a.data) + EncodeDuty(a.duty)
  }

  /** AttestationData.UnmarshalSSZ. Every slice below is in range for every byte string: the guards establish
      it, and success implies ordered offsets inside the buffer with at least 96 bytes for the duty. */
  function DecodeAttestationData(b: Bytes): (r: Result<AttestationData, SszError>)
    ensures r.Ok? ==>
      8 <= |b| && 8 <= U32(b, 0) && U32(b, 0) + 128 == U32(b, 4) && U32(b, 4) + DUTY_SIZE <= |b|
  {
    if |b| < 8 then Err(ErrSize) else
      var o0 := U32(b, 0);
      if |b| < o0 || 8 > o0 then Err(ErrOffset) else
        var o1 := U32(b, 4);
        if |b| < o1 || o0 > o1 then Err(ErrOffset) else
          var data := DecodeAttData(b[o0..o1]);
          if data.Err? then Err(data.error) else
            var duty := DecodeDuty(b[o1..]);
            if duty.Err? then Err(duty.error) else Ok(AttestationData(data.value, duty.value))
  }

  lemma AttestationDataRoundTrip(a: AttestationData)
    ensures DecodeAttestationData(EncodeAttestationData(a)) == Ok(a)
  {
    var b := EncodeAttestationData(a);
    AttDataRoundTrip(a.data);
    DutyRoundTrip(a.duty);
    Le32(8);
    Le32(136);
    assert b[0..4] == Le(8, 4) && b[4..8] == Le(136, 4);
    assert b[8..136] == EncodeAttData(a.data) && b[136..] == EncodeDuty(a.duty);
  }
}
