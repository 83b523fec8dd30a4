/** The cluster definition of cluster/definition.go and its config and definition hashes (cluster/ssz.go). Every
    hash function comes twice: as the chunk it stands for, and as the walk over the hasher buffer that the source
    performs, proved to append exactly that chunk and to leave everything below it untouched. */
module Definition {
  import opened Prelude
  import opened Bytes
  import opened Hex
  import opened Merkle

  // ----- data model -----

  type Minor = x: int | 0 <= x <= 10

  /** The supported schema versions v1.0.0 to v1.10.0, or any other string. */
  datatype Version = V1(minor: Minor) | Other(name: Bytes)

  function VersionName(v: Version): (s: Bytes) {
    match v
    case V1(m) =>
      if m == 10 then [0x76, 0x31, 0x2E, 0x31, 0x30, 0x2E, 0x30] else [0x76, 0x31, 0x2E, 0x30 + m, 0x2E, 0x30]
    case Other(name) => name
  }

  datatype Operator = Operator(address: Bytes, enr: Bytes, configSignature: Bytes, enrSignature: Bytes)

  datatype Creator = Creator(address: Bytes, configSignature: Bytes)

  datatype ValidatorAddresses = ValidatorAddresses(feeRecipient: Bytes, withdrawal: Bytes)

  datatype Definition = Definition(
    uuid: Bytes, name: Bytes, version: Version, timestamp: Bytes, numValidators: int64, threshold: int64,
    dkgAlgorithm: Bytes, forkVersion: Bytes, operators: seq<Operator>, creator: Creator,
    validatorAddresses: seq<ValidatorAddresses>, depositAmounts: seq<uint64>, consensusProtocol: Bytes,
    targetGasLimit: uint64, compounding: bool, configHash: Digest, definitionHash: Digest)

  const MAX_ENR := 1024
  const MAX_NAME := 256
  const MAX_UUID := 64
  const MAX_VERSION := 16
  const MAX_TIMESTAMP := 32
  const MAX_DKG_ALGORITHM := 32
  const MAX_OPERATORS := 256
  const MAX_VALIDATORS := 65536
  const MAX_DEPOSIT_AMOUNTS := 256
  const LEN_FORK_VERSION := 4
  const LEN_K1_SIG := 65
  const ADDRESS_LEN := 20

  const NO_ADDRESSES := ValidatorAddresses([], [])

  // ----- the single address pair of older versions -----

  function LegacyAddresses(addrs: seq<ValidatorAddresses>): (r: Option<ValidatorAddresses>)
    ensures r.Some? <==> forall i, j | 0 <= i < |addrs| && 0 <= j < |addrs| :: addrs[i] == addrs[j]
  {
    if addrs == [] then Some(NO_ADDRESSES)
    else if forall i | 0 <= i < |addrs| :: addrs[0] == addrs[i] then Some(addrs[0])
    else None
  }

  method LegacyValidatorAddresses(d: Definition) returns (r: Option<ValidatorAddresses>)
    ensures r == LegacyAddresses(d.validatorAddresses)
  {
    var resp := NO_ADDRESSES;
    for i := 0 to |d.validatorAddresses|
      invariant i == 0 ==> resp == NO_ADDRESSES
      invariant i > 0 ==> resp == d.validatorAddresses[0]
      invariant forall k | 0 <= k < i :: d.validatorAddresses[0] == d.validatorAddresses[k]
    {
      if i == 0 {
        resp := d.validatorAddresses[i];
      } else if resp != d.validatorAddresses[i] {
        return None;
      }
    }
    return Some(resp);
  }

  // ----- v1.0 to v1.2 -----

  function OperatorFieldsLegacy(o: Operator, minor: Minor): (xs: seq<Chunk>) {
    BytesChunks(o.address) + BytesChunks(o.enr) + (if minor <= 1 then [WordChunk(0)] else [])
    + BytesChunks(o.configSignature) + BytesChunks(o.enrSignature)
  }

  /** Without its signatures an operator is just its address, which adds no chunk when empty. */
  function OperatorsLegacy(os: seq<Operator>, minor: Minor, configOnly: bool): (xs: seq<Chunk>)
    ensures |xs| <= |os|
  {
    if os == [] then [] else
      var o := os[|os| - 1];
      OperatorsLegacy(os[..|os| - 1], minor, configOnly)
      + if configOnly then BytesChunks(o.address) else [Root(OperatorFieldsLegacy(o, minor), 0)]
  }

  function HeadLegacy(d: Definition): (xs: seq<Chunk>) {
    BytesChunks(d.uuid) + BytesChunks(d.name) + BytesChunks(VersionName(d.version))
    + [WordChunk(ToWord(d.numValidators)), WordChunk(ToWord(d.threshold))]
  }

  function MidLegacy(d: Definition, a: ValidatorAddresses): (xs: seq<Chunk>) {
    BytesChunks(a.feeRecipient) + BytesChunks(a.withdrawal)
    + BytesChunks(d.dkgAlgorithm) + BytesChunks(To0xHex(d.forkVersion))
  }

  /** The timestamp was added in v1.1, but the config hash takes it from any version that has one. */
  function TailLegacy(d: Definition, minor: Minor, configOnly: bool): (xs: seq<Chunk>) {
    [ListRoot(OperatorsLegacy(d.operators, minor, configOnly), |d.operators|, |d.operators|).value]
    + (if configOnly || minor != 0 then BytesChunks(d.timestamp) else [])
  }

  function FieldsLegacy(d: Definition, minor: Minor, a: ValidatorAddresses, configOnly: bool): (xs: seq<Chunk>) {
    HeadLegacy(d) + MidLegacy(d, a) + TailLegacy(d, minor, configOnly)
  }

  // ----- v1.3 and v1.4 -----

  function HeadFields(d: Definition): (fields: seq<Option<Chunk>>)
    ensures |fields| == 6
  {
    [ByteListChunk(d.uuid, MAX_UUID), ByteListChunk(d.name, MAX_NAME),
     ByteListChunk(VersionName(d.version), MAX_VERSION), ByteListChunk(d.timestamp, MAX_TIMESTAMP),
     Some(WordChunk(ToWord(d.numValidators))), Some(WordChunk(ToWord(d.threshold)))]
  }

  function OperatorV3(o: Operator, configOnly: bool): (c: Option<Chunk>) {
    var address :- From0xHex(o.address, ADDRESS_LEN);
    if configOnly then Some(Root(BytesChunks(address), 0)) else
      var enr :- ByteListChunk(o.enr, MAX_ENR);
      Some(Root(BytesChunks(address) + [enr] + BytesChunks(o.configSignature) + BytesChunks(o.enrSignature), 0))
  }

  function OperatorsV3(os: seq<Operator>, configOnly: bool): (c: Option<Chunk>) {
    List(seq(|os|, i requires 0 <= i < |os| => OperatorV3(os[i], configOnly)), MAX_OPERATORS)
  }

  function CreatorV4(c: Creator, configOnly: bool): (r: Option<Chunk>) {
    var address :- From0xHex(c.address, ADDRESS_LEN);
    Some(Root(BytesChunks(address) + if configOnly then [] else BytesChunks(c.configSignature), 0))
  }

  function MidV3(d: Definition, a: ValidatorAddresses): (xs: Option<seq<Chunk>>) {
    var feeRecipient :- From0xHex(a.feeRecipient, ADDRESS_LEN);
    var withdrawal :- From0xHex(a.withdrawal, ADDRESS_LEN);
    var dkg :- ByteListChunk(d.dkgAlgorithm, MAX_DKG_ALGORITHM);
    Some(BytesChunks(feeRecipient) + BytesChunks(withdrawal) + [dkg] + BytesChunks(d.forkVersion))
  }

  /** The operators and, from v1.4 on, the creator. */
  function TailV3(d: Definition, minor: Minor, configOnly: bool): (xs: Option<seq<Chunk>>) {
    var operators :- OperatorsV3(d.operators, configOnly);
    if minor == 3 then Some([operators]) else
      var creator :- CreatorV4(d.creator, configOnly);
      Some([operators, creator])
  }

  /** The fields before the config hash. */
  function FieldsV3(d: Definition, minor: Minor, configOnly: bool): (xs: Option<seq<Chunk>>) {
    var a :- LegacyAddresses(d.validatorAddresses);
    if !AllSome(HeadFields(d)) then None else
      var mid :- MidV3(d, a);
      var tail :- TailV3(d, minor, configOnly);
      Some(Vals(HeadFields(d)) + mid + tail)
  }

  // ----- v1.5 to v1.10 -----

  /** putHexBytes20 as the chunk it appends. */
  function HexBytes20Chunk(addr: Bytes): (c: Option<Chunk>) {
    var b :- From0xHex(addr, ADDRESS_LEN);
    BytesNChunk(b, ADDRESS_LEN)
  }

  function OperatorV5(o: Operator, configOnly: bool): (c: Option<Chunk>) {
    Composite([HexBytes20Chunk(o.address)]
              + if configOnly then []
                else [ByteListChunk(o.enr, MAX_ENR), BytesNChunk(o.configSignature, LEN_K1_SIG),
                      BytesNChunk(o.enrSignature, LEN_K1_SIG)])
  }

  function OperatorsV5(os: seq<Operator>, configOnly: bool): (c: Option<Chunk>) {
    List(seq(|os|, i requires 0 <= i < |os| => OperatorV5(os[i], configOnly)), MAX_OPERATORS)
  }

  function CreatorV5(c: Creator, configOnly: bool): (r: Option<Chunk>) {
    Composite([HexBytes20Chunk(c.address)]
              + if configOnly then [] else [BytesNChunk(c.configSignature, LEN_K1_SIG)])
  }

  function AddressPair(a: ValidatorAddresses): (c: Option<Chunk>) {
    Composite([HexBytes20Chunk(a.feeRecipient), HexBytes20Chunk(a.withdrawal)])
  }

  function AddressPairs(addrs: seq<ValidatorAddresses>): (c: Option<Chunk>) {
    List(seq(|addrs|, i requires 0 <= i < |addrs| => AddressPair(addrs[i])), MAX_VALIDATORS)
  }

  function MidFields(d: Definition, configOnly: bool): (fields: seq<Option<Chunk>>)
    ensures |fields| == 5
  {
    [ByteListChunk(d.dkgAlgorithm, MAX_DKG_ALGORITHM), BytesNChunk(d.forkVersion, LEN_FORK_VERSION),
     OperatorsV5(d.operators, configOnly), CreatorV5(d.creator, configOnly), AddressPairs(d.validatorAddresses)]
  }

  /** The fields from index 11 on, which later versions added one after the other. */
  function ExtraFields(d: Definition, minor: Minor): (fields: seq<Option<Chunk>>)
    ensures |fields| == if minor < 8 then 0 else if minor < 10 then minor - 7 else 4
  {
    (if minor >= 8 then [WordArrayChunk(d.depositAmounts, MAX_DEPOSIT_AMOUNTS)] else [])
    + (if minor >= 9 then [ByteListChunk(d.consensusProtocol, MAX_NAME)] else [])
    + (if minor >= 10 then [Some(WordChunk(d.targetGasLimit)), Some(BoolChunk(d.compounding))] else [])
  }

  /** The fields before the config hash. */
  function FieldsV5(d: Definition, minor: Minor, configOnly: bool): (fields: seq<Option<Chunk>>) {
    HeadFields(d) + MidFields(d, configOnly) + ExtraFields(d, minor)
  }

  // ----- all versions -----

  /** The root that getDefinitionHashFunc's walk leaves for the version of the definition. */
  function DefinitionChunk(d: Definition, configOnly: bool): (c: Option<Chunk>) {
    if d.version.Other? then None else
      var minor := d.version.minor;
      if minor <= 2 then
        var a :- LegacyAddresses(d.validatorAddresses);
        Some(Root(FieldsLegacy(d, minor, a, configOnly), 0))
      else if minor <= 4 then
        var fields :- FieldsV3(d, minor, configOnly);
        Some(Root(fields + if configOnly then [] else DigestChunks(d.configHash), 0))
      else
        Composite(FieldsV5(d, minor, configOnly) + if configOnly then [] else [DigestChunk(d.configHash)])
  }

  // ----- the walks over the hasher -----

  method HashOperatorLegacy(hh: Hasher, o: Operator, minor: Minor)
    modifies hh
    ensures hh.buf == old(hh.buf) + [Root(OperatorFieldsLegacy(o, minor), 0)]
  {
    hide BytesChunks, Pack, Root, ByteListChunk, BytesNChunk, WordChunk;
    var subIdx := hh.Index();
    hh.PutBytes(o.address);
    hh.PutBytes(o.enr);
    if minor <= 1 {
      hh.PutUint64(0);
    }
    hh.PutBytes(o.configSignature);
    hh.PutBytes(o.enrSignature);
    assert hh.buf[subIdx..] == OperatorFieldsLegacy(o, minor) && hh.buf[..subIdx] == old(hh.buf);
    hh.Merkleize(subIdx);
  }

  method HashOperatorsLegacy(hh: Hasher, os: seq<Operator>, minor: Minor, configOnly: bool) returns (ok: bool)
    modifies hh
    ensures ok
    ensures hh.buf == old(hh.buf) + [ListRoot(OperatorsLegacy(os, minor, configOnly), |os|, |os|).value]
  {
    hide BytesChunks, Pack, Root, OperatorFieldsLegacy;
    var subIndx := hh.Index();
    for i := 0 to |os|
      invariant hh.buf == old(hh.buf) + OperatorsLegacy(os[..i], minor, configOnly)
    {
      var o := os[i];
      assert os[..i + 1][..i] == os[..i];
      if configOnly {
        hh.PutBytes(o.address);
        continue;
      }
      HashOperatorLegacy(hh, o, minor);
    }
    assert os[..|os|] == os;
    assert hh.buf[subIndx..] == OperatorsLegacy(os, minor, configOnly);
    ok := hh.MerkleizeWithMixin(subIndx, |os|, |os|);
  }

  method HashHeadLegacy(d: Definition, hh: Hasher)
    modifies hh
    ensures hh.buf == old(hh.buf) + HeadLegacy(d)
  {
    hide BytesChunks, WordChunk, VersionName;
    hh.PutBytes(d.uuid);
    hh.PutBytes(d.name);
    hh.PutBytes(VersionName(d.version));
    hh.PutUint64(ToWord(d.numValidators));
    hh.PutUint64(ToWord(d.threshold));
  }

  method HashMidLegacy(d: Definition, a: ValidatorAddresses, hh: Hasher)
    modifies hh
    ensures hh.buf == old(hh.buf) + MidLegacy(d, a)
  {
    hide BytesChunks, To0xHex;
    hh.PutBytes(a.feeRecipient);
    hh.PutBytes(a.withdrawal);
    hh.PutBytes(d.dkgAlgorithm);
    hh.PutBytes(To0xHex(d.forkVersion));
  }

  method HashTailLegacy(d: Definition, hh: Hasher, minor: Minor, configOnly: bool)
    modifies hh
    ensures hh.buf == old(hh.buf) + TailLegacy(d, minor, configOnly)
  {
    hide Pack, Root, OperatorsLegacy;
    var ok := HashOperatorsLegacy(hh, d.operators, minor, configOnly);
    if configOnly {
      if d.timestamp != [] {
        hh.PutBytes(d.timestamp);
      }
    } else if minor != 0 {
      hh.PutBytes(d.timestamp);
    }
  }

  method HashDefinitionLegacy(d: Definition, hh: Hasher, configOnly: bool) returns (ok: bool)
    requires d.version.V1? && d.version.minor <= 2
    modifies hh
    ensures ok == DefinitionChunk(d, configOnly).Some?
    ensures ok ==> hh.buf == old(hh.buf) + [DefinitionChunk(d, configOnly).value]
  {
    hide HeadLegacy, MidLegacy, TailLegacy, Root;
    var vaddrs := LegacyValidatorAddresses(d);
    if vaddrs == None {
      return false;
    }
    var indx := hh.Index();
    HashHeadLegacy(d, hh);
    HashMidLegacy(d, vaddrs.value, hh);
    HashTailLegacy(d, hh, d.version.minor, configOnly);
    assert hh.buf[indx..] == FieldsLegacy(d, d.version.minor, vaddrs.value, configOnly);
    assert hh.buf[..indx] == old(hh.buf);
    hh.Merkleize(indx);
    return true;
  }

  /** Fields 0 to 5, which all later versions share. */
  method HashHead(d: Definition, hh: Hasher) returns (ok: bool)
    modifies hh
    ensures ok == AllSome(HeadFields(d))
    ensures ok ==> hh.buf == old(hh.buf) + Vals(HeadFields(d))
  {
    hide BytesChunks, Pack, Root, ByteListChunk, BytesNChunk, WordChunk;
    ghost var fields := HeadFields(d);
    ok := hh.PutByteList(d.uuid, MAX_UUID);
    if !ok { assert fields[0] == None; return; }
    ok := hh.PutByteList(d.name, MAX_NAME);
    if !ok { assert fields[1] == None; return; }
    ok := hh.PutByteList(VersionName(d.version), MAX_VERSION);
    if !ok { assert fields[2] == None; return; }
    ok := hh.PutByteList(d.timestamp, MAX_TIMESTAMP);
    if !ok { assert fields[3] == None; return; }
    hh.PutUint64(ToWord(d.numValidators));
    hh.PutUint64(ToWord(d.threshold));
  }

  method HashOperatorV3(hh: Hasher, o: Operator, configOnly: bool) returns (ok: bool)
    modifies hh
    ensures ok == OperatorV3(o, configOnly).Some?
    ensures ok ==> hh.buf == old(hh.buf) + [OperatorV3(o, configOnly).value]
  {
    hide BytesChunks, Pack, Root, ByteListChunk, BytesNChunk, WordChunk;
    var operatorIdx := hh.Index();
    var addrBytes := From0xHex(o.address, ADDRESS_LEN);
    if addrBytes == None { return false; }
    hh.PutBytes(addrBytes.value);
    ghost var fields := BytesChunks(addrBytes.value);
    if !configOnly {
      ok := hh.PutByteList(o.enr, MAX_ENR);
      if !ok { return; }
      hh.PutBytes(o.configSignature);
      hh.PutBytes(o.enrSignature);
      fields := fields + [ByteListChunk(o.enr, MAX_ENR).value]
                + BytesChunks(o.configSignature) + BytesChunks(o.enrSignature);
    }
    assert hh.buf[operatorIdx..] == fields && hh.buf[..operatorIdx] == old(hh.buf);
    hh.Merkleize(operatorIdx);
    return true;
  }

  method HashCreatorV4(hh: Hasher, c: Creator, configOnly: bool) returns (ok: bool)
    modifies hh
    ensures ok == CreatorV4(c, configOnly).Some?
    ensures ok ==> hh.buf == old(hh.buf) + [CreatorV4(c, configOnly).value]
  {
    hide BytesChunks, Pack, Root, ByteListChunk, BytesNChunk, WordChunk;
    var creatorIdx := hh.Index();
    var addrBytes := From0xHex(c.address, ADDRESS_LEN);
    if addrBytes == None { return false; }
    hh.PutBytes(addrBytes.value);
    if !configOnly {
      hh.PutBytes(c.configSignature);
    }
    assert hh.buf[creatorIdx..]
           == BytesChunks(addrBytes.value) + if configOnly then [] else BytesChunks(c.configSignature);
    assert hh.buf[..creatorIdx] == old(hh.buf);
    hh.Merkleize(creatorIdx);
    return true;
  }

  method HashOperatorsV3(hh: Hasher, os: seq<Operator>, configOnly: bool) returns (ok: bool)
    modifies hh
    ensures ok == OperatorsV3(os, configOnly).Some?
    ensures ok ==> hh.buf == old(hh.buf) + [OperatorsV3(os, configOnly).value]
  {
    hide BytesChunks, Pack, Root, ByteListChunk, BytesNChunk, WordChunk;
    ghost var elems := seq(|os|, i requires 0 <= i < |os| => OperatorV3(os[i], configOnly));
    var operatorsIdx := hh.Index();
    for i := 0 to |os|
      invariant AllSome(elems[..i])
      invariant hh.buf == old(hh.buf) + Vals(elems[..i])
    {
      ok := HashOperatorV3(hh, os[i], configOnly);
      if !ok {
        assert elems[i] == None;
        return;
      }
      Snoc(elems, i);
    }
    assert elems[..|os|] == elems;
    assert hh.buf[operatorsIdx..] == Vals(elems);
    ok := hh.MerkleizeWithMixin(operatorsIdx, |os|, MAX_OPERATORS);
  }

  lemma Snoc(elems: seq<Option<Chunk>>, i: nat)
    requires i < |elems| && AllSome(elems[..i]) && elems[i].Some?
    ensures AllSome(elems[..i + 1]) && Vals(elems[..i + 1]) == Vals(elems[..i]) + [elems[i].value]
  {
    assert elems[..i + 1] == elems[..i] + [elems[i]];
    ValsConcat(elems[..i], [elems[i]]);
  }

  method HashMidV3(d: Definition, feeRecipient: Bytes, withdrawal: Bytes, hh: Hasher) returns (ok: bool)
    modifies hh
    ensures ok == ByteListChunk(d.dkgAlgorithm, MAX_DKG_ALGORITHM).Some?
    ensures ok ==> hh.buf == old(hh.buf) + (BytesChunks(feeRecipient) + BytesChunks(withdrawal)
                   + [ByteListChunk(d.dkgAlgorithm, MAX_DKG_ALGORITHM).value] + BytesChunks(d.forkVersion))
  {
    hide BytesChunks, ByteListChunk;
    hh.PutBytes(feeRecipient);
    hh.PutBytes(withdrawal);
    ok := hh.PutByteList(d.dkgAlgorithm, MAX_DKG_ALGORITHM);
    if !ok { return; }
    hh.PutBytes(d.forkVersion);
  }

  method HashTailV3(d: Definition, minor: Minor, hh: Hasher, configOnly: bool) returns (ok: bool)
    modifies hh
    ensures ok == TailV3(d, minor, configOnly).Some?
    ensures ok ==> hh.buf == old(hh.buf) + TailV3(d, minor, configOnly).value
  {
    hide OperatorsV3, CreatorV4;
    ok := HashOperatorsV3(hh, d.operators, configOnly);
    if !ok { return; }
    if minor != 3 {
      ok := HashCreatorV4(hh, d.creator, configOnly);
      if !ok { return; }
    }
  }

  method HashDefinitionV1x3or4(d: Definition, hh: Hasher, configOnly: bool) returns (ok: bool)
    requires d.version.V1? && 3 <= d.version.minor <= 4
    modifies hh
    ensures ok == DefinitionChunk(d, configOnly).Some?
    ensures ok ==> hh.buf == old(hh.buf) + [DefinitionChunk(d, configOnly).value]
  {
    hide BytesChunks, ByteListChunk, HeadFields, TailV3, Root, Vals, DigestChunks, LegacyAddresses, From0xHex;
    var vaddrs := LegacyValidatorAddresses(d);
    if vaddrs == None { return false; }
    var feeRecipient := From0xHex(vaddrs.value.feeRecipient, ADDRESS_LEN);
    if feeRecipient == None { return false; }
    var withdrawal := From0xHex(vaddrs.value.withdrawal, ADDRESS_LEN);
    if withdrawal == None { return false; }
    var indx := hh.Index();
    ok := HashHead(d, hh);
    if !ok { return; }
    ok := HashMidV3(d, feeRecipient.value, withdrawal.value, hh);
    if !ok { return; }
    ok := HashTailV3(d, d.version.minor, hh, configOnly);
    if !ok { return; }
    ghost var fields :=
      Vals(HeadFields(d)) + MidV3(d, vaddrs.value).value + TailV3(d, d.version.minor, configOnly).value;
    assert hh.buf == old(hh.buf) + fields;
    if !configOnly {
      hh.PutDigest(d.configHash);
    }
    assert hh.buf[..indx] == old(hh.buf);
    assert hh.buf[indx..] == fields + if configOnly then [] else DigestChunks(d.configHash);
    hh.Merkleize(indx);
  }

  method PutHexBytes20(hh: Hasher, addr: Bytes) returns (ok: bool)
    modifies hh
    ensures ok == HexBytes20Chunk(addr).Some?
    ensures ok ==> hh.buf == old(hh.buf) + [HexBytes20Chunk(addr).value]
  {
    var b := From0xHex(addr, ADDRESS_LEN);
    if b == None {
      return false;
    }
    var padded := LeftPadLoop(b.value, ADDRESS_LEN);
    hh.PutBytes(padded);
    return true;
  }

  method HashOperatorsV5(hh: Hasher, os: seq<Operator>, configOnly: bool) returns (ok: bool)
    modifies hh
    ensures ok == OperatorsV5(os, configOnly).Some?
    ensures ok ==> hh.buf == old(hh.buf) + [OperatorsV5(os, configOnly).value]
  {
    ghost var elems := seq(|os|, i requires 0 <= i < |os| => OperatorV5(os[i], configOnly));
    var operatorsIdx := hh.Index();
    for i := 0 to |os|
      invariant AllSome(elems[..i])
      invariant hh.buf == old(hh.buf) + Vals(elems[..i])
    {
      ok := HashOperatorV5(hh, os[i], configOnly);
      if !ok {
        assert elems[i] == None;
        return;
      }
      Snoc(elems, i);
    }
    assert elems[..|os|] == elems;
    assert hh.buf[operatorsIdx..] == Vals(elems);
    ok := hh.MerkleizeWithMixin(operatorsIdx, |os|, MAX_OPERATORS);
  }

  method HashOperatorV5(hh: Hasher, o: Operator, configOnly: bool) returns (ok: bool)
    modifies hh
    ensures ok == OperatorV5(o, configOnly).Some?
    ensures ok ==> hh.buf == old(hh.buf) + [OperatorV5(o, configOnly).value]
  {
    ghost var fields := [HexBytes20Chunk(o.address)]
      + if configOnly then []
        else [ByteListChunk(o.enr, MAX_ENR), BytesNChunk(o.configSignature, LEN_K1_SIG),
              BytesNChunk(o.enrSignature, LEN_K1_SIG)];
    var operatorIdx := hh.Index();
    ok := PutHexBytes20(hh, o.address);
    if !ok { assert fields[0] == None; return; }
    if !configOnly {
      ok := hh.PutByteList(o.enr, MAX_ENR);
      if !ok { assert fields[1] == None; return; }
      ok := hh.PutBytesN(o.configSignature, LEN_K1_SIG);
      if !ok { assert fields[2] == None; return; }
      ok := hh.PutBytesN(o.enrSignature, LEN_K1_SIG);
      if !ok { assert fields[3] == None; return; }
    }
    assert hh.buf[operatorIdx..] == Vals(fields) && hh.buf[..operatorIdx] == old(hh.buf);
    hh.Merkleize(operatorIdx);
  }

  method HashCreatorV5(hh: Hasher, c: Creator, configOnly: bool) returns (ok: bool)
    modifies hh
    ensures ok == CreatorV5(c, configOnly).Some?
    ensures ok ==> hh.buf == old(hh.buf) + [CreatorV5(c, configOnly).value]
  {
    ghost var fields := [HexBytes20Chunk(c.address)]
      + if configOnly then [] else [BytesNChunk(c.configSignature, LEN_K1_SIG)];
    var creatorIdx := hh.Index();
    ok := PutHexBytes20(hh, c.address);
    if !ok { assert fields[0] == None; return; }
    if !configOnly {
      ok := hh.PutBytesN(c.configSignature, LEN_K1_SIG);
      if !ok { assert fields[1] == None; return; }
    }
    assert hh.buf[creatorIdx..] == Vals(fields) && hh.buf[..creatorIdx] == old(hh.buf);
    hh.Merkleize(creatorIdx);
  }

  method HashAddressPairs(hh: Hasher, addrs: seq<ValidatorAddresses>) returns (ok: bool)
    modifies hh
    ensures ok == AddressPairs(addrs).Some?
    ensures ok ==> hh.buf == old(hh.buf) + [AddressPairs(addrs).value]
  {
    ghost var elems := seq(|addrs|, i requires 0 <= i < |addrs| => AddressPair(addrs[i]));
    var validatorsIdx := hh.Index();
    for i := 0 to |addrs|
      invariant AllSome(elems[..i])
      invariant hh.buf == old(hh.buf) + Vals(elems[..i])
    {
      ghost var before := hh.buf;
      ghost var fields := [HexBytes20Chunk(addrs[i].feeRecipient), HexBytes20Chunk(addrs[i].withdrawal)];
      assert elems[i] == Composite(fields);
      var validatorIdx := hh.Index();
      ok := PutHexBytes20(hh, addrs[i].feeRecipient);
      if !ok { assert fields[0] == None; return; }
      ok := PutHexBytes20(hh, addrs[i].withdrawal);
      if !ok { assert fields[1] == None; return; }
      assert hh.buf[validatorIdx..] == Vals(fields) && hh.buf[..validatorIdx] == before;
      hh.Merkleize(validatorIdx);
      Snoc(elems, i);
    }
    assert elems[..|addrs|] == elems;
    assert hh.buf[validatorsIdx..] == Vals(elems);
    ok := hh.MerkleizeWithMixin(validatorsIdx, |addrs|, MAX_VALIDATORS);
  }

  method HashMid(d: Definition, hh: Hasher, configOnly: bool) returns (ok: bool)
    modifies hh
    ensures ok == AllSome(MidFields(d, configOnly))
    ensures ok ==> hh.buf == old(hh.buf) + Vals(MidFields(d, configOnly))
  {
    hide BytesChunks, Pack, Root, ByteListChunk, BytesNChunk, WordChunk;
    ghost var fields := MidFields(d, configOnly);
    ok := hh.PutByteList(d.dkgAlgorithm, MAX_DKG_ALGORITHM);
    if !ok { assert fields[0] == None; return; }
    ok := hh.PutBytesN(d.forkVersion, LEN_FORK_VERSION);
    if !ok { assert fields[1] == None; return; }
    ok := HashOperatorsV5(hh, d.operators, configOnly);
    if !ok { assert fields[2] == None; return; }
    ok := HashCreatorV5(hh, d.creator, configOnly);
    if !ok { assert fields[3] == None; return; }
    ok := HashAddressPairs(hh, d.validatorAddresses);
    if !ok { assert fields[4] == None; return; }
  }

  /** The extra field functions that hashDefinitionV1x8 to hashDefinitionV1x10 pass down. */
  method HashExtra(d: Definition, minor: Minor, hh: Hasher) returns (ok: bool)
    modifies hh
    ensures ok == AllSome(ExtraFields(d, minor))
    ensures ok ==> hh.buf == old(hh.buf) + Vals(ExtraFields(d, minor))
  {
    ghost var fields := ExtraFields(d, minor);
    ok := true;
    if minor >= 8 {
      ok := hh.PutUint64Array(d.depositAmounts, MAX_DEPOSIT_AMOUNTS);
      if !ok { assert fields[0] == None; return; }
    }
    if minor >= 9 {
      ok := hh.PutByteList(d.consensusProtocol, MAX_NAME);
      if !ok { assert fields[1] == None; return; }
    }
    if minor >= 10 {
      hh.PutUint64(d.targetGasLimit);
      hh.PutBool(d.compounding);
    }
  }

  method HashDefinitionV1x5to10(d: Definition, hh: Hasher, configOnly: bool) returns (ok: bool)
    requires d.version.V1? && 5 <= d.version.minor
    modifies hh
    ensures ok == DefinitionChunk(d, configOnly).Some?
    ensures ok ==> hh.buf == old(hh.buf) + [DefinitionChunk(d, configOnly).value]
  {
    hide Root, HeadFields, MidFields, ExtraFields, DigestChunk;
    var minor := d.version.minor;
    ghost var last := if configOnly then [] else [DigestChunk(d.configHash)];
    ValsConcat(HeadFields(d), MidFields(d, configOnly));
    ValsConcat(HeadFields(d) + MidFields(d, configOnly), ExtraFields(d, minor));
    ValsConcat(FieldsV5(d, minor, configOnly), last);
    var indx := hh.Index();
    ok := HashHead(d, hh);
    if !ok { return; }
    ok := HashMid(d, hh, configOnly);
    if !ok { return; }
    ok := HashExtra(d, minor, hh);
    if !ok { return; }
    if !configOnly {
      ok := hh.PutDigest32(d.configHash);
      if !ok { assert last[0] == None; return; }
    }
    assert hh.buf[indx..] == Vals(FieldsV5(d, minor, configOnly) + last) && hh.buf[..indx] == old(hh.buf);
    hh.Merkleize(indx);
  }

  /** The walk that getDefinitionHashFunc selects. On success it has added exactly one chunk. */
  method HashDefinitionWith(d: Definition, hh: Hasher, configOnly: bool) returns (ok: bool)
    modifies hh
    ensures ok == DefinitionChunk(d, configOnly).Some?
    ensures ok ==> hh.buf == old(hh.buf) + [DefinitionChunk(d, configOnly).value]
  {
    if d.version.Other? {
      return false;
    } else if d.version.minor <= 2 {
      ok := HashDefinitionLegacy(d, hh, configOnly);
    } else if d.version.minor <= 4 {
      ok := HashDefinitionV1x3or4(d, hh, configOnly);
    } else {
      ok := HashDefinitionV1x5to10(d, hh, configOnly);
    }
  }

  function DefinitionDigest(d: Definition, configOnly: bool): (r: Option<Digest>) {
    var c :- DefinitionChunk(d, configOnly);
    Some(ToDigest(c))
  }

  /** hashDefinition: HashRoot never fails after a successful walk, since it always sees one chunk. */
  method HashDefinition(d: Definition, configOnly: bool) returns (r: Option<Digest>)
    ensures r == DefinitionDigest(d, configOnly)
  {
    var hh := new Hasher();
    var ok := HashDefinitionWith(d, hh, configOnly);
    if !ok {
      return None;
    }
    r := hh.HashRoot();
  }
}
