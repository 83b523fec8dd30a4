/** Persistence of cluster definitions: the JSON record of each schema version, and the hashes kept in it. */
module DefinitionStore {
  import opened Prelude
  import opened Bytes
  import opened Hex
  import opened Merkle
  import opened Definition

  // ----- hashes -----

  function SetDefinitionHashes(d: Definition): (r: Option<Definition>) {
    var configHash :- DefinitionDigest(d, true);
    var d1 := d.(configHash := configHash);
    var definitionHash :- DefinitionDigest(d1, false);
    Some(d1.(definitionHash := definitionHash))
  }

  /** VerifyHashes returns no error. */
  predicate VerifiesHashes(d: Definition) {
    && DefinitionDigest(d, true) == Some(d.configHash)
    && DefinitionDigest(d, false) == Some(d.definitionHash)
  }

  /** The definition without ENRs, signatures and hashes. */
  function Unsigned(d: Definition): (u: Definition) {
    d.(operators := seq(|d.operators|, i requires 0 <= i < |d.operators| =>
                          Operator(d.operators[i].address, [], [], [])),
       creator := Creator(d.creator.address, []),
       configHash := Raw([]), definitionHash := Raw([]))
  }

  lemma {:induction false} OperatorsLegacyUnsigned(os: seq<Operator>, us: seq<Operator>, minor: Minor)
    requires |os| == |us| && forall i | 0 <= i < |os| :: os[i].address == us[i].address
    ensures OperatorsLegacy(os, minor, true) == OperatorsLegacy(us, minor, true)
  {
    if os != [] {
      OperatorsLegacyUnsigned(os[..|os| - 1], us[..|us| - 1], minor);
    }
  }

  lemma LegacyUnsigned(d: Definition, a: ValidatorAddresses, minor: Minor)
    ensures FieldsLegacy(Unsigned(d), minor, a, true) == FieldsLegacy(d, minor, a, true)
  {
    hide HeadLegacy, MidLegacy, OperatorsLegacy, ListRoot, BytesChunks;
    OperatorsLegacyUnsigned(d.operators, Unsigned(d).operators, minor);
    HeadSame(d, Unsigned(d));
    MidSame(d, Unsigned(d), a);
  }

  lemma V3Unsigned(d: Definition, minor: Minor)
    ensures FieldsV3(Unsigned(d), minor, true) == FieldsV3(d, minor, true)
  {
    hide HeadFields, MidV3, OperatorsV3, BytesChunks, LegacyAddresses, Vals, From0xHex, Root;
    HeadSame(d, Unsigned(d));
    OperatorsSame(d.operators, Unsigned(d).operators);
    if LegacyAddresses(d.validatorAddresses).Some? {
      MidSame(d, Unsigned(d), LegacyAddresses(d.validatorAddresses).value);
    }
  }

  lemma V5Unsigned(d: Definition, minor: Minor)
    ensures FieldsV5(Unsigned(d), minor, true) == FieldsV5(d, minor, true)
  {
    hide HeadFields, ExtraFields, OperatorsV5, ByteListChunk, BytesNChunk, AddressPairs, HexBytes20Chunk, Root;
    HeadSame(d, Unsigned(d));
    ExtraSame(d, Unsigned(d));
    OperatorsSame(d.operators, Unsigned(d).operators);
  }

  /** The config hash ignores ENRs and all signatures, in every version. */
  lemma ConfigHashIgnoresSignatures(d: Definition)
    ensures DefinitionChunk(Unsigned(d), true) == DefinitionChunk(d, true)
  {
    hide Root, FieldsLegacy, FieldsV3, FieldsV5, Vals, LegacyAddresses;
    if d.version.V1? {
      var minor := d.version.minor;
      if LegacyAddresses(d.validatorAddresses).Some? {
        LegacyUnsigned(d, LegacyAddresses(d.validatorAddresses).value, minor);
      }
      V3Unsigned(d, minor);
      V5Unsigned(d, minor);
    }
  }

  /** Head fields of definitions that differ only elsewhere. */
  lemma HeadSame(a: Definition, b: Definition)
    requires a.uuid == b.uuid && a.name == b.name && a.version == b.version && a.timestamp == b.timestamp
    requires a.numValidators == b.numValidators && a.threshold == b.threshold
    ensures HeadLegacy(a) == HeadLegacy(b) && HeadFields(a) == HeadFields(b)
  {
    hide BytesChunks, ByteListChunk, WordChunk, VersionName;
  }

  lemma OperatorsSame(os: seq<Operator>, us: seq<Operator>)
    requires |os| == |us| && forall i | 0 <= i < |os| :: os[i].address == us[i].address
    ensures OperatorsV3(os, true) == OperatorsV3(us, true) && OperatorsV5(os, true) == OperatorsV5(us, true)
  {
    hide Root, BytesChunks, HexBytes20Chunk, ListRoot, From0xHex;
    assert seq(|os|, i requires 0 <= i < |os| => OperatorV3(os[i], true))
        == seq(|us|, i requires 0 <= i < |us| => OperatorV3(us[i], true));
    assert seq(|os|, i requires 0 <= i < |os| => OperatorV5(os[i], true))
        == seq(|us|, i requires 0 <= i < |us| => OperatorV5(us[i], true));
  }

  /** Setting the hashes is idempotent, and what it sets verifies. */
  lemma SetHashesIdempotent(d: Definition)
    requires SetDefinitionHashes(d).Some?
    ensures var e := SetDefinitionHashes(d).value; VerifiesHashes(e) && SetDefinitionHashes(e) == Some(e)
  {
    hide DefinitionChunk;
    var e := SetDefinitionHashes(d).value;
    var d1 := d.(configHash := e.configHash);
    ConfigHashIgnoresSignatures(d);
    ConfigHashIgnoresSignatures(e);
    assert Unsigned(d) == Unsigned(e);
    DefinitionHashIgnoresItself(d1, e.definitionHash);
  }

  lemma DefinitionHashIgnoresItself(d: Definition, h: Digest)
    ensures DefinitionChunk(d.(definitionHash := h), false) == DefinitionChunk(d, false)
  {
    hide Root, OperatorsV3, OperatorsV5, CreatorV5, AddressPairs, ListRoot, ExtraFields, DigestChunk, DigestChunks;
    HeadSame(d, d.(definitionHash := h));
    ExtraSame(d, d.(definitionHash := h));
  }

  lemma ExtraSame(a: Definition, b: Definition)
    requires a.depositAmounts == b.depositAmounts && a.consensusProtocol == b.consensusProtocol
    requires a.targetGasLimit == b.targetGasLimit && a.compounding == b.compounding
    ensures forall m: Minor :: ExtraFields(a, m) == ExtraFields(b, m)
  {
    hide WordArrayChunk, ByteListChunk, WordChunk;
  }

  // ----- JSON records -----

  datatype OperatorJSONv1 = OperatorJSONv1(address: Bytes, enr: Bytes, nonce: int, configSignature: Bytes,
                                           enrSignature: Bytes)

  datatype OperatorJSON = OperatorJSON(address: Bytes, enr: Bytes, configSignature: Bytes, enrSignature: Bytes)

  datatype AddressesJSON = AddressesJSON(feeRecipient: Bytes, withdrawal: Bytes)

  /** The fields that every record has, in the same format. */
  datatype Common = Common(
    name: Bytes, uuid: Bytes, version: Version, timestamp: Bytes, numValidators: int64, threshold: int64,
    dkgAlgorithm: Bytes, configHash: Digest, definitionHash: Digest)

  /** The fields of v1.5 and later records. */
  datatype Body = Body(creator: Creator, operators: seq<OperatorJSON>, validators: seq<AddressesJSON>,
                       forkVersion: Bytes)

  datatype DefinitionJSON =
    | JSONv1x0or1(c: Common, operatorsV1: seq<OperatorJSONv1>, addresses: ValidatorAddresses, forkVersionHex: Bytes)
    | JSONv1x2or3(c: Common, operators: seq<OperatorJSON>, addresses: ValidatorAddresses, forkVersion: Bytes)
    | JSONv1x4(c: Common, creator: Creator, operators: seq<OperatorJSON>, addresses: ValidatorAddresses,
               forkVersion: Bytes)
    | JSONv1x5(c: Common, body: Body)
    | JSONv1x8(c: Common, body: Body, depositAmounts: seq<uint64>)
    | JSONv1x9(c: Common, body: Body, depositAmounts: seq<uint64>, consensusProtocol: Bytes)
    | JSONv1x10(c: Common, body: Body, depositAmounts: seq<uint64>, consensusProtocol: Bytes,
                targetGasLimit: uint64, compounding: bool)

  function OperatorsToV1(os: seq<Operator>): (js: seq<OperatorJSONv1>) {
    seq(|os|, i requires 0 <= i < |os| =>
      OperatorJSONv1(os[i].address, os[i].enr, 0, os[i].configSignature, os[i].enrSignature))
  }

  /** operatorsFromV1x1 rejects a record with a nonce. */
  function OperatorsFromV1(js: seq<OperatorJSONv1>): (r: Option<seq<Operator>>) {
    if exists i | 0 <= i < |js| :: js[i].nonce != 0 then None else
      Some(seq(|js|, i requires 0 <= i < |js| =>
        Operator(js[i].address, js[i].enr, js[i].configSignature, js[i].enrSignature)))
  }

  method OperatorsFromV1x1(js: seq<OperatorJSONv1>) returns (r: Option<seq<Operator>>)
    ensures r == OperatorsFromV1(js)
  {
    var resp := [];
    for i := 0 to |js|
      invariant forall k | 0 <= k < i :: js[k].nonce == 0
      invariant resp == seq(i, k requires 0 <= k < i =>
        Operator(js[k].address, js[k].enr, js[k].configSignature, js[k].enrSignature))
    {
      if js[i].nonce != 0 {
        return None;
      }
      resp := resp + [Operator(js[i].address, js[i].enr, js[i].configSignature, js[i].enrSignature)];
    }
    return Some(resp);
  }

  function OperatorsTo(os: seq<Operator>): (js: seq<OperatorJSON>) {
    seq(|os|, i requires 0 <= i < |os| =>
      OperatorJSON(os[i].address, os[i].enr, os[i].configSignature, os[i].enrSignature))
  }

  function OperatorsFrom(js: seq<OperatorJSON>): (os: seq<Operator>) {
    seq(|js|, i requires 0 <= i < |js| => Operator(js[i].address, js[i].enr, js[i].configSignature, js[i].enrSignature))
  }

  function AddressesTo(xs: seq<ValidatorAddresses>): (js: seq<AddressesJSON>) {
    seq(|xs|, i requires 0 <= i < |xs| => AddressesJSON(xs[i].feeRecipient, xs[i].withdrawal))
  }

  function AddressesFrom(js: seq<AddressesJSON>): (xs: seq<ValidatorAddresses>) {
    seq(|js|, i requires 0 <= i < |js| => ValidatorAddresses(js[i].feeRecipient, js[i].withdrawal))
  }

  /** A range over a negative number does not iterate. */
  function Repeat(a: ValidatorAddresses, n: int): (xs: seq<ValidatorAddresses>) {
    seq(if n < 0 then 0 else n, _ => a)
  }

  method RepeatVAddrs(a: ValidatorAddresses, n: int) returns (resp: seq<ValidatorAddresses>)
    ensures resp == Repeat(a, n)
  {
    resp := [];
    var i := 0;
    while i < n
      invariant resp == Repeat(a, i) && (i <= n || i == 0)
    {
      resp := resp + [a];
      i := i + 1;
    }
  }

  function CommonOf(d: Definition): (c: Common) {
    Common(d.name, d.uuid, d.version, d.timestamp, d.numValidators, d.threshold, d.dkgAlgorithm, d.configHash,
           d.definitionHash)
  }

  function BodyOf(d: Definition): (b: Body) {
    Body(d.creator, OperatorsTo(d.operators), AddressesTo(d.validatorAddresses), d.forkVersion)
  }

  /** The record of a definition whose hashes are set. */
  function ToRecord(d: Definition): (r: Option<DefinitionJSON>) {
    if d.version.Other? then None else
      var minor := d.version.minor;
      if minor <= 4 then
        var a :- LegacyAddresses(d.validatorAddresses);
        Some(if minor <= 1 then JSONv1x0or1(CommonOf(d), OperatorsToV1(d.operators), a, To0xHex(d.forkVersion))
             else if minor <= 3 then JSONv1x2or3(CommonOf(d), OperatorsTo(d.operators), a, d.forkVersion)
             else JSONv1x4(CommonOf(d), d.creator, OperatorsTo(d.operators), a, d.forkVersion))
      else if minor <= 7 then Some(JSONv1x5(CommonOf(d), BodyOf(d)))
      else if minor == 8 then Some(JSONv1x8(CommonOf(d), BodyOf(d), d.depositAmounts))
      else if minor == 9 then Some(JSONv1x9(CommonOf(d), BodyOf(d), d.depositAmounts, d.consensusProtocol))
      else Some(JSONv1x10(CommonOf(d), BodyOf(d), d.depositAmounts, d.consensusProtocol, d.targetGasLimit,
                          d.compounding))
  }

  /** Definition.MarshalJSON recomputes the hashes first. */
  function Marshal(d: Definition): (r: Option<DefinitionJSON>) {
    var d2 :- SetDefinitionHashes(d);
    ToRecord(d2)
  }

  const NO_CREATOR := Creator([], [])

  function FromCommon(c: Common, operators: seq<Operator>, creator: Creator, addresses: seq<ValidatorAddresses>,
                      forkVersion: Bytes): (d: Definition) {
    Definition(c.uuid, c.name, c.version, c.timestamp, c.numValidators, c.threshold, c.dkgAlgorithm, forkVersion,
               operators, creator, addresses, [], [], 0, false, c.configHash, c.definitionHash)
  }

  function FromBody(c: Common, b: Body): (r: Option<Definition>) {
    if |b.validators| != c.numValidators then None else
      Some(FromCommon(c, OperatorsFrom(b.operators), b.creator, AddressesFrom(b.validators), b.forkVersion))
  }

  /** The version selects the record to read. The check of the deposit amounts in v1.8 to v1.10 looks at a result
      that is still empty, so it accepts every record. */
  function Unmarshal(j: DefinitionJSON): (r: Option<Definition>) {
    if j.c.version.Other? then None else
      var minor := j.c.version.minor;
      match j
      case JSONv1x0or1(c, os, a, forkVersionHex) =>
        if minor > 1 then None else
          var operators :- OperatorsFromV1(os);
          var forkVersion :- From0xHex(forkVersionHex, LEN_FORK_VERSION);
          Some(FromCommon(c, operators, NO_CREATOR, Repeat(a, c.numValidators), forkVersion))
      case JSONv1x2or3(c, os, a, forkVersion) =>
        if minor !in {2, 3} then None else
          Some(FromCommon(c, OperatorsFrom(os), NO_CREATOR, Repeat(a, c.numValidators), forkVersion))
      case JSONv1x4(c, creator, os, a, forkVersion) =>
        if minor != 4 then None else
          Some(FromCommon(c, OperatorsFrom(os), creator, Repeat(a, c.numValidators), forkVersion))
      case JSONv1x5(c, b) =>
        if minor !in {5, 6, 7} then None else FromBody(c, b)
      case JSONv1x8(c, b, amounts) =>
        if minor != 8 then None else
          var d :- FromBody(c, b);
          Some(d.(depositAmounts := amounts))
      case JSONv1x9(c, b, amounts, protocol) =>
        if minor != 9 then None else
          var d :- FromBody(c, b);
          Some(d.(depositAmounts := amounts, consensusProtocol := protocol))
      case JSONv1x10(c, b, amounts, protocol, gas, compounding) =>
        if minor != 10 then None else
          var d :- FromBody(c, b);
          Some(d.(depositAmounts := amounts, consensusProtocol := protocol, targetGasLimit := gas,
                  compounding := compounding))
  }

  // ----- what survives -----

  /** The part of a definition that the record of its version can hold. */
  function Stored(d: Definition): (e: Definition)
    requires d.version.V1? && (d.version.minor <= 4 ==> LegacyAddresses(d.validatorAddresses).Some?)
  {
    var minor := d.version.minor;
    d.(creator := if minor <= 3 then NO_CREATOR else d.creator,
       validatorAddresses :=
         if minor <= 4 then Repeat(LegacyAddresses(d.validatorAddresses).value, d.numValidators)
             else d.validatorAddresses,
       depositAmounts := if minor < 8 then [] else d.depositAmounts,
       consensusProtocol := if minor < 9 then [] else d.consensusProtocol,
       targetGasLimit := if minor < 10 then 0 else d.targetGasLimit,
       compounding := minor >= 10 && d.compounding)
  }

  /** When the record can be read at all: one address pair per validator from v1.5 on, and before v1.2 a fork
      version of four bytes or none. */
  predicate Readable(d: Definition)
    requires d.version.V1?
  {
    && (d.version.minor <= 1 ==> |d.forkVersion| in {0, LEN_FORK_VERSION})
    && (d.version.minor >= 5 ==> |d.validatorAddresses| == d.numValidators)
  }

  lemma ConversionsRoundTrip(os: seq<Operator>, xs: seq<ValidatorAddresses>)
    ensures OperatorsFromV1(OperatorsToV1(os)) == Some(os)
    ensures OperatorsFrom(OperatorsTo(os)) == os && AddressesFrom(AddressesTo(xs)) == xs
  {
    assert OperatorsFromV1(OperatorsToV1(os)).value == os;
  }

  /** The record of a definition reads back exactly when it is readable, and then as what was stored. */
  lemma RecordRoundTrip(d: Definition)
    requires ToRecord(d).Some?
    ensures Unmarshal(ToRecord(d).value) == if Readable(d) then Some(Stored(d)) else None
  {
    hide From0xHex, To0xHex, LegacyAddresses, OperatorsFrom, OperatorsTo, OperatorsFromV1, OperatorsToV1, AddressesFrom;
    ConversionsRoundTrip(d.operators, d.validatorAddresses);
    HexRoundTrip(d.forkVersion, LEN_FORK_VERSION);
  }

  lemma RepeatLegacy(a: ValidatorAddresses, n: int)
    ensures LegacyAddresses(Repeat(a, n)) == Some(if n > 0 then a else NO_ADDRESSES)
  {
  }

  /** Old records keep the address pair only if there is a validator to repeat it for. */
  predicate KeepsAddresses(d: Definition)
    requires d.version.V1?
  {
    d.version.minor <= 4 ==> d.numValidators > 0 || LegacyAddresses(d.validatorAddresses) == Some(NO_ADDRESSES)
  }

  /** No version hashes a field that its record drops. */
  lemma StoredHashesTheSame(d: Definition, configOnly: bool)
    requires d.version.V1? && (d.version.minor <= 4 ==> LegacyAddresses(d.validatorAddresses).Some?)
    requires KeepsAddresses(d)
    ensures DefinitionChunk(Stored(d), configOnly) == DefinitionChunk(d, configOnly)
  {
    hide Root, Vals, OperatorsLegacy, OperatorsV3, OperatorsV5, CreatorV5, CreatorV4, AddressPairs, ListRoot, MidV3,
      DigestChunk, DigestChunks, BytesChunks, HeadLegacy, HeadFields, WordArrayChunk, ByteListChunk, BytesNChunk,
          WordChunk, To0xHex;
    var e := Stored(d);
    HeadSame(d, e);
    if d.version.minor <= 4 {
      RepeatLegacy(LegacyAddresses(d.validatorAddresses).value, d.numValidators);
      assert MidV3(d, LegacyAddresses(d.validatorAddresses).value)
          == MidV3(e, LegacyAddresses(d.validatorAddresses).value) by {
        MidSame(d, e, LegacyAddresses(d.validatorAddresses).value);
      }
    }
  }

  lemma MidSame(a: Definition, b: Definition, addrs: ValidatorAddresses)
    requires a.dkgAlgorithm == b.dkgAlgorithm && a.forkVersion == b.forkVersion
    ensures MidV3(a, addrs) == MidV3(b, addrs) && MidLegacy(a, addrs) == MidLegacy(b, addrs)
  {
    hide BytesChunks, ByteListChunk, From0xHex, To0xHex;
  }

  /** Dropping the address pair of a definition of v1.0 to v1.2 changes its config hash. */
  lemma LostAddressesShowLegacy(d: Definition, a: ValidatorAddresses, minor: Minor)
    requires a != NO_ADDRESSES
    ensures Root(FieldsLegacy(d, minor, a, true), 0) != Root(FieldsLegacy(d, minor, NO_ADDRESSES, true), 0)
  {
    hide Pack, Root, OperatorsLegacy, WordChunk, To0xHex;
    var p, q := HeadLegacy(d), BytesChunks(a.feeRecipient) + BytesChunks(a.withdrawal);
    var rest := BytesChunks(d.dkgAlgorithm) + BytesChunks(To0xHex(d.forkVersion));
    var s := rest + TailLegacy(d, minor, true);
    InsertionChangesRoot(p, q, s, |rest|);
    assert FieldsLegacy(d, minor, a, true) == p + q + s;
    assert BytesChunks([]) == [];
    assert FieldsLegacy(d, minor, NO_ADDRESSES, true) == p + s;
  }

  lemma TailSame(d: Definition, e: Definition, minor: Minor)
    requires d.operators == e.operators && d.creator == e.creator
    ensures TailV3(d, minor, true) == TailV3(e, minor, true)
  {
    hide OperatorsV3, CreatorV4;
  }

  /** The same for v1.3 and v1.4. */
  lemma LostAddressesShowV3(d: Definition, e: Definition, minor: Minor)
    requires FieldsV3(d, minor, true).Some? && LegacyAddresses(d.validatorAddresses) != Some(NO_ADDRESSES)
    requires e == d.(validatorAddresses := e.validatorAddresses)
    requires LegacyAddresses(e.validatorAddresses) == Some(NO_ADDRESSES)
    ensures FieldsV3(e, minor, true).Some?
    ensures Root(FieldsV3(d, minor, true).value, 0) != Root(FieldsV3(e, minor, true).value, 0)
  {
    hide Pack, Root, HeadFields, ByteListChunk, LegacyAddresses, TailV3, Decode;
    HeadSame(d, e);
    TailSame(d, e, minor);
    var a := LegacyAddresses(d.validatorAddresses).value;
    var fee, wd := From0xHex(a.feeRecipient, ADDRESS_LEN).value, From0xHex(a.withdrawal, ADDRESS_LEN).value;
    var p, q := Vals(HeadFields(d)), BytesChunks(fee) + BytesChunks(wd);
    var s := [ByteListChunk(d.dkgAlgorithm, MAX_DKG_ALGORITHM).value] + BytesChunks(d.forkVersion)
             + TailV3(d, minor, true).value;
    ByteListIsHash(d.dkgAlgorithm, MAX_DKG_ALGORITHM);
    InsertionChangesRoot(p, q, s, 0);
    assert FieldsV3(d, minor, true).value == p + q + s;
    assert BytesChunks([]) == [];
    assert FieldsV3(e, minor, true).value == p + s;
  }

  lemma ByteListIsHash(b: Bytes, limit: nat)
    requires ByteListChunk(b, limit).Some?
    ensures ByteListChunk(b, limit).value.Node?
  {
  }

  /** The hashes of an old definition notice that its addresses were not kept. */
  lemma LostAddressesShow(d: Definition)
    requires DefinitionChunk(d, true).Some? && !KeepsAddresses(d)
    requires LegacyAddresses(d.validatorAddresses).Some?
    ensures DefinitionChunk(Stored(d), true) != DefinitionChunk(d, true)
  {
    hide Root, FieldsLegacy, FieldsV3, LegacyAddresses;
    var e, minor := Stored(d), d.version.minor;
    var a := LegacyAddresses(d.validatorAddresses).value;
    RepeatLegacy(a, d.numValidators);
    if minor <= 2 {
      LostAddressesShowLegacy(d, a, minor);
      LegacyReadsOnly(d, e, minor);
    } else {
      var d1 := d.(validatorAddresses := e.validatorAddresses);
      LostAddressesShowV3(d, d1, minor);
      assert FieldsV3(d, minor, true).value + [] == FieldsV3(d, minor, true).value;
      assert FieldsV3(d1, minor, true).value + [] == FieldsV3(d1, minor, true).value;
      StoredHashesTheSame(d1, true);
      assert Stored(d1) == e by {
        assert e.validatorAddresses == [] == d1.validatorAddresses && Repeat(NO_ADDRESSES, d.numValidators) == [];
      }
    }
  }

  lemma LegacyReadsOnly(d: Definition, e: Definition, minor: Minor)
    requires e == d.(creator := e.creator, validatorAddresses := e.validatorAddresses,
                     depositAmounts := e.depositAmounts, consensusProtocol := e.consensusProtocol,
                     targetGasLimit := e.targetGasLimit, compounding := e.compounding)
    ensures FieldsLegacy(d, minor, NO_ADDRESSES, true) == FieldsLegacy(e, minor, NO_ADDRESSES, true)
  {
    hide HeadLegacy, MidLegacy, OperatorsLegacy, ListRoot, BytesChunks;
    HeadSame(d, e);
    MidSame(d, e, NO_ADDRESSES);
  }

  /** Persistence: for all eleven versions, a definition that hashes is read back if and only if it is readable,
      as exactly what its record stores and with current hashes; and what is read back passes VerifyHashes if and
      only if its addresses were kept. */
  lemma DefinitionPersists(d: Definition)
    requires SetDefinitionHashes(d).Some?
    ensures Marshal(d).Some?
    ensures Unmarshal(Marshal(d).value) == if Readable(d) then Some(Stored(SetDefinitionHashes(d).value)) else None
    ensures Readable(d) ==> (VerifiesHashes(Unmarshal(Marshal(d).value).value) <==> KeepsAddresses(d))
  {
    hide DefinitionChunk, Unmarshal, LegacyAddresses;
    var d2 := SetDefinitionHashes(d).value;
    HashNeedsLegacyAddresses(d);
    RecordRoundTrip(d2);
    if Readable(d) {
      SetHashesIdempotent(d);
      if KeepsAddresses(d) {
        DigestOfStored(d2);
      } else {
        LostAddressesShow(d2);
        DigestOfChunk(DefinitionChunk(d2, true).value);
        if DefinitionChunk(Stored(d2), true).Some? {
          DigestOfChunk(DefinitionChunk(Stored(d2), true).value);
        }
      }
    }
  }

  lemma HashNeedsLegacyAddresses(d: Definition)
    requires DefinitionDigest(d, true).Some?
    ensures d.version.V1? && (d.version.minor <= 4 ==> LegacyAddresses(d.validatorAddresses).Some?)
  {
  }

  lemma DigestOfStored(d: Definition)
    requires d.version.V1? && (d.version.minor <= 4 ==> LegacyAddresses(d.validatorAddresses).Some?)
    requires KeepsAddresses(d)
    ensures forall configOnly :: DefinitionDigest(Stored(d), configOnly) == DefinitionDigest(d, configOnly)
  {
    hide DefinitionChunk, Stored, KeepsAddresses;
    StoredHashesTheSame(d, true);
    StoredHashesTheSame(d, false);
  }
}
