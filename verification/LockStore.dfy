/** Persistence of cluster locks: the JSON record of each schema version (cluster/lock.go, cluster/distvalidator.go). */
module LockStore {
  import opened Prelude
  import opened Bytes
  import opened Merkle
  import opened Definition
  import opened DefinitionStore
  import opened Lock

  // ----- JSON records -----

  datatype RegistrationJSON = RegistrationJSON(feeRecipient: Bytes, gasLimit: int64, timestamp: int64, pubkey: Bytes,
                                               signature: Bytes)

  datatype ValidatorJSON =
    | ValidatorV1x1(pubkey: Bytes, pubshares: seq<Bytes>, feeRecipientAddress: Bytes)
    | ValidatorV1x2to5(pubkey: Bytes, pubshares: seq<Bytes>, feeRecipientAddress: Bytes)
    | ValidatorV1x6(pubkey: Bytes, pubshares: seq<Bytes>, deposit: DepositData)
    | ValidatorV1x7(pubkey: Bytes, pubshares: seq<Bytes>, deposit: DepositData, registration: RegistrationJSON)
    | ValidatorV1x8(pubkey: Bytes, pubshares: seq<Bytes>, registration: RegistrationJSON, deposits: seq<DepositData>)

  /** Records before v1.7 have no node signatures. */
  datatype LockJSON = LockJSON(definition: DefinitionJSON, validators: seq<ValidatorJSON>, signatureAggregate: Bytes,
                               lockHash: Digest, nodeSignatures: seq<Bytes>)

  function RegistrationTo(b: BuilderRegistration): (j: RegistrationJSON) {
    RegistrationJSON(b.message.feeRecipient, b.message.gasLimit, b.message.timestamp.unix, b.message.pubkey,
                     b.signature)
  }

  function RegistrationFrom(j: RegistrationJSON): (b: BuilderRegistration) {
    BuilderRegistration(Registration(j.feeRecipient, j.gasLimit, Time(j.timestamp, 0), j.pubkey), j.signature)
  }

  function ValidatorTo(v: DistValidator, minor: Minor): (j: ValidatorJSON) {
    if minor <= 1 then ValidatorV1x1(v.pubkey, v.pubshares, [])
    else if minor <= 5 then ValidatorV1x2to5(v.pubkey, v.pubshares, [])
    else if minor == 6 then ValidatorV1x6(v.pubkey, v.pubshares, FirstDeposit(v.partialDeposits))
    else if minor == 7 then
      ValidatorV1x7(v.pubkey, v.pubshares, FirstDeposit(v.partialDeposits), RegistrationTo(v.registration))
    else ValidatorV1x8(v.pubkey, v.pubshares, RegistrationTo(v.registration), v.partialDeposits)
  }

  /** None for a record with a fee recipient of its own, or of another version's shape. */
  function ValidatorFrom(j: ValidatorJSON, minor: Minor): (r: Option<DistValidator>) {
    match j
    case ValidatorV1x1(pubkey, shares, fee) =>
      if minor > 1 || fee != [] then None else Some(DistValidator(pubkey, shares, [], NO_REGISTRATION))
    case ValidatorV1x2to5(pubkey, shares, fee) =>
      if minor !in {2, 3, 4, 5} || fee != [] then None else Some(DistValidator(pubkey, shares, [], NO_REGISTRATION))
    case ValidatorV1x6(pubkey, shares, deposit) =>
      if minor != 6 then None else Some(DistValidator(pubkey, shares, [deposit], NO_REGISTRATION))
    case ValidatorV1x7(pubkey, shares, deposit, reg) =>
      if minor != 7 then None else Some(DistValidator(pubkey, shares, [deposit], RegistrationFrom(reg)))
    case ValidatorV1x8(pubkey, shares, reg, deposits) =>
      if minor < 8 then None else Some(DistValidator(pubkey, shares, deposits, RegistrationFrom(reg)))
  }

  function ValidatorsTo(vs: seq<DistValidator>, minor: Minor): (js: seq<ValidatorJSON>) {
    seq(|vs|, i requires 0 <= i < |vs| => ValidatorTo(vs[i], minor))
  }

  function ValidatorsFrom(js: seq<ValidatorJSON>, minor: Minor): (r: Option<seq<DistValidator>>) {
    if exists i | 0 <= i < |js| :: ValidatorFrom(js[i], minor) == None then None else
      Some(seq(|js|, i requires 0 <= i < |js| => ValidatorFrom(js[i], minor).value))
  }

  /** The distValidatorsTo functions, one for each record. */
  method DistValidatorsTo(vs: seq<DistValidator>, minor: Minor) returns (resp: seq<ValidatorJSON>)
    ensures resp == ValidatorsTo(vs, minor)
  {
    resp := [];
    for i := 0 to |vs|
      invariant resp == ValidatorsTo(vs[..i], minor)
    {
      var shares := [];
      for k := 0 to |vs[i].pubshares|
        invariant shares == vs[i].pubshares[..k]
      {
        shares := shares + [vs[i].pubshares[k]];
      }
      assert vs[i].(pubshares := shares) == vs[i];
      resp := resp + [ValidatorTo(vs[i].(pubshares := shares), minor)];
    }
    assert vs[..|vs|] == vs;
  }

  /** The distValidatorsFrom functions, with the fee recipient check of older unmarshallers. */
  method DistValidatorsFrom(js: seq<ValidatorJSON>, minor: Minor) returns (r: Option<seq<DistValidator>>)
    ensures r == ValidatorsFrom(js, minor)
  {
    var resp := [];
    for i := 0 to |js|
      invariant forall k | 0 <= k < i :: ValidatorFrom(js[k], minor).Some?
      invariant resp == seq(i, k requires 0 <= k < i => ValidatorFrom(js[k], minor).value)
    {
      var v := ValidatorFrom(js[i], minor);
      if v == None {
        return None;
      }
      resp := resp + [v.value];
    }
    return Some(resp);
  }

  /** Lock.MarshalJSON: the lock hash covers the definition as it is, while the definition's own record carries
      freshly computed hashes. */
  function MarshalLock(l: Lock): (r: Option<LockJSON>) {
    var lockHash :- LockDigest(l);
    var def :- Marshal(l.def);
    var minor := l.def.version.minor;
    Some(LockJSON(def, ValidatorsTo(l.validators, minor), l.signatureAggregate, lockHash,
                  if minor < 7 then [] else l.nodeSignatures))
  }

  function UnmarshalLock(j: LockJSON): (r: Option<Lock>) {
    if j.definition.c.version.Other? then None else
      var minor := j.definition.c.version.minor;
      var def :- Unmarshal(j.definition);
      var validators :- ValidatorsFrom(j.validators, minor);
      Some(Lock(def, validators, j.lockHash, j.signatureAggregate, if minor < 7 then [] else j.nodeSignatures))
  }

  /** Lock.VerifyHashes returns no error. */
  predicate VerifiesLockHashes(l: Lock) {
    VerifiesHashes(l.def) && LockDigest(l) == Some(l.lockHash)
  }

  // ----- what survives -----

  function StoredRegistration(b: BuilderRegistration): (r: BuilderRegistration) {
    b.(message := b.message.(timestamp := Time(b.message.timestamp.unix, 0)))
  }

  function StoredValidator(v: DistValidator, minor: Minor): (w: DistValidator) {
    DistValidator(
      v.pubkey, v.pubshares,
      if minor <= 5 then [] else if minor <= 7 then [FirstDeposit(v.partialDeposits)] else v.partialDeposits,
      if minor <= 6 then NO_REGISTRATION else StoredRegistration(v.registration))
  }

  function StoredValidators(vs: seq<DistValidator>, minor: Minor): (ws: seq<DistValidator>) {
    seq(|vs|, i requires 0 <= i < |vs| => StoredValidator(vs[i], minor))
  }

  function StoredLock(l: Lock): (e: Lock)
    requires LockDigest(l).Some? && SetDefinitionHashes(l.def).Some?
    requires l.def.version.V1? && (l.def.version.minor <= 4 ==> LegacyAddresses(l.def.validatorAddresses).Some?)
  {
    var minor := l.def.version.minor;
    Lock(Stored(SetDefinitionHashes(l.def).value),
         StoredValidators(l.validators, minor),
         LockDigest(l).value, l.signatureAggregate, if minor < 7 then [] else l.nodeSignatures)
  }

  lemma ValidatorsRoundTrip(vs: seq<DistValidator>, minor: Minor)
    ensures ValidatorsFrom(ValidatorsTo(vs, minor), minor) == Some(StoredValidators(vs, minor))
  {
    var js := ValidatorsTo(vs, minor);
    forall i | 0 <= i < |vs| ensures ValidatorFrom(js[i], minor) == Some(StoredValidator(vs[i], minor)) {
    }
    assert ValidatorsFrom(js, minor).value == StoredValidators(vs, minor);
  }

  /** No version hashes more of a validator than its record keeps: the first deposit, whole seconds. */
  lemma StoredValidatorHashesTheSame(v: DistValidator, minor: Minor)
    ensures ValidatorLegacyChunk(StoredValidator(v, minor)) == ValidatorLegacyChunk(v)
    ensures minor >= 3 ==> ValidatorChunk(StoredValidator(v, minor), minor) == ValidatorChunk(v, minor)
  {
    hide Root, BytesChunks, BytesNChunk, PubsharesChunk, DepositsChunk, DepositChunk, ListRoot, PutAll, WordChunk;
    assert BuilderRegistrationChunk(StoredRegistration(v.registration)) == BuilderRegistrationChunk(v.registration);
  }

  lemma StoredValidatorsHashTheSame(vs: seq<DistValidator>, minor: Minor)
    ensures ValidatorsChunk(StoredValidators(vs, minor), minor) == ValidatorsChunk(vs, minor)
  {
    hide ValidatorChunk, ValidatorLegacyChunk, StoredValidator, ListRoot;
    var ws := StoredValidators(vs, minor);
    forall i | 0 <= i < |vs| ensures ValidatorLegacyChunk(ws[i]) == ValidatorLegacyChunk(vs[i])
      ensures minor >= 3 ==> ValidatorChunk(ws[i], minor) == ValidatorChunk(vs[i], minor)
    {
      StoredValidatorHashesTheSame(vs[i], minor);
    }
    assert seq(|ws|, i requires 0 <= i < |ws| => ValidatorLegacyChunk(ws[i]))
        == seq(|vs|, i requires 0 <= i < |vs| => ValidatorLegacyChunk(vs[i]));
    if minor >= 3 {
      assert seq(|ws|, i requires 0 <= i < |ws| => ValidatorChunk(ws[i], minor))
          == seq(|vs|, i requires 0 <= i < |vs| => ValidatorChunk(vs[i], minor));
    }
  }

  // ----- the config hash inside the lock hash -----

  /** The lock's config hash is hashed like the one its definition's record will carry. Versions before v1.3 do
      not hash it at all. */
  predicate ConfigHashCurrent(d: Definition)
    requires d.version.V1? && SetDefinitionHashes(d).Some?
  {
    var current := SetDefinitionHashes(d).value.configHash;
    || d.version.minor <= 2
    || (d.version.minor <= 4 && DigestChunks(d.configHash) == DigestChunks(current))
    || (d.version.minor >= 5 && DigestChunk(d.configHash) == DigestChunk(current))
  }

  /** A container of two or more chunks is a hash. */
  lemma RootIsHash(xs: seq<Chunk>)
    requires |xs| >= 2
    ensures Root(xs, 0).Node?
  {
    assert Depth(|xs|) >= 1;
  }

  lemma ConfigChunkIsHash(d: Definition)
    requires d.version.V1? && 3 <= d.version.minor <= 4 && DefinitionChunk(d, true).Some?
    ensures DefinitionChunk(d, true).value.Node?
  {
    hide Root, HeadFields, MidV3, TailV3, LegacyAddresses;
    RootIsHash(FieldsV3(d, d.version.minor, true).value + []);
  }

  lemma ConfigHashMattersV3(fields: seq<Chunk>, stale: Digest, c: Chunk)
    requires fields != [] && c.Node?
    ensures Root(fields + DigestChunks(stale), 0) == Root(fields + [c], 0) <==> DigestChunks(stale) == [c]
  {
    hide BytesChunks, Root;
    var ds := DigestChunks(stale);
    if |ds| == 0 {
      assert fields + ds == fields;
      AppendChangesRoot(fields, c);
    } else {
      DigestIsOneChunk(stale);
      if Root(fields + ds, 0) == Root(fields + [c], 0) {
        RootInjective(fields + ds, fields + [c], 0);
        assert (fields + ds)[|fields|..] == (fields + [c])[|fields|..];
      }
    }
  }

  lemma DigestIsOneChunk(d: Digest)
    ensures |DigestChunks(d)| <= 1
  {
  }

  lemma ConfigHashMattersV5(fields: seq<Option<Chunk>>, a: Option<Chunk>, b: Option<Chunk>)
    requires AllSome(fields) && a.Some? && b.Some?
    ensures Composite(fields + [a]) == Composite(fields + [b]) <==> a == b
  {
    hide Root;
    ValsConcat(fields, [a]);
    ValsConcat(fields, [b]);
    if Composite(fields + [a]) == Composite(fields + [b]) {
      CompositeInjective(fields + [a], fields + [b]);
      assert (fields + [a])[|fields|] == (fields + [b])[|fields|];
    }
  }

  /** The definition part of the lock hash is that of the record exactly when the config hash is current. */
  lemma DefinitionPartCurrent(d: Definition)
    requires d.version.V1? && SetDefinitionHashes(d).Some? && DefinitionChunk(d, false).Some?
    ensures DefinitionChunk(SetDefinitionHashes(d).value, false) == DefinitionChunk(d, false) <==> ConfigHashCurrent(d)
  {
    hide Root, FieldsLegacy, FieldsV3, FieldsV5, LegacyAddresses, DigestChunks, DigestChunk, Vals;
    var c := DefinitionChunk(d, true).value;
    var e := d.(configHash := ToDigest(c));
    var f := SetDefinitionHashes(d).value;
    var minor := d.version.minor;
    DefinitionHashIgnoresItself(e, f.definitionHash);
    DigestOfChunk(c);
    FieldsIgnoreConfigHash(d, e, minor);
    if 3 <= minor <= 4 {
      ConfigChunkIsHash(d);
      FieldsV3NonEmpty(d, minor);
      ConfigHashMattersV3(FieldsV3(d, minor, false).value, d.configHash, c);
    } else if minor >= 5 {
      ValsConcat(FieldsV5(d, minor, false), [DigestChunk(d.configHash)]);
      assert [DigestChunk(d.configHash)][0].Some?;
      ConfigHashMattersV5(FieldsV5(d, minor, false), DigestChunk(d.configHash), Some(c));
    }
  }

  lemma FieldsV3NonEmpty(d: Definition, minor: Minor)
    requires FieldsV3(d, minor, false).Some?
    ensures FieldsV3(d, minor, false).value != []
  {
    hide HeadFields, MidV3, TailV3;
  }

  lemma FieldsIgnoreConfigHash(d: Definition, e: Definition, minor: Minor)
    requires e == d.(configHash := e.configHash)
    ensures FieldsV3(e, minor, false) == FieldsV3(d, minor, false)
    ensures FieldsV5(e, minor, false) == FieldsV5(d, minor, false)
    ensures forall a :: FieldsLegacy(e, minor, a, false) == FieldsLegacy(d, minor, a, false)
  {
    hide HeadFields, HeadLegacy, MidLegacy, MidV3, OperatorsLegacy, OperatorsV3, OperatorsV5, CreatorV4, CreatorV5,
      AddressPairs, ListRoot, ExtraFields, BytesChunks, LegacyAddresses, Vals, ByteListChunk, BytesNChunk;
    HeadSame(d, e);
    ExtraSame(d, e);
    forall a ensures MidLegacy(e, a) == MidLegacy(d, a) && MidV3(e, a) == MidV3(d, a) {
      MidSame(d, e, a);
    }
  }

  // ----- persistence -----

  /** Persistence: for every supported version, a lock that hashes is read back if and only if its definition is
      readable, as exactly what its record stores and under the same lock hash; and it then passes VerifyHashes if
      and only if its config hash was current and its addresses were kept, even where only the first partial
      deposit survives. */
  lemma LockPersists(l: Lock)
    requires LockChunk(l).Some? && SetDefinitionHashes(l.def).Some?
    ensures l.def.version.V1? && (l.def.version.minor <= 4 ==> LegacyAddresses(l.def.validatorAddresses).Some?)
    ensures MarshalLock(l).Some?
    ensures UnmarshalLock(MarshalLock(l).value) == if Readable(l.def) then Some(StoredLock(l)) else None
    ensures StoredLock(l).lockHash == LockDigest(l).value
    ensures Readable(l.def) ==>
      (VerifiesLockHashes(StoredLock(l)) <==> KeepsAddresses(l.def) && ConfigHashCurrent(l.def))
  {
    hide DefinitionChunk, Root, ValidatorsChunk, ValidatorsFrom, ValidatorsTo, Unmarshal, ToRecord, LegacyAddresses,
        Stored;
    HashNeedsLegacyAddresses(l.def);
    DefinitionPersists(l.def);
    ValidatorsRoundTrip(l.validators, l.def.version.minor);
    MarshalKeepsVersion(l.def);
    if Readable(l.def) && KeepsAddresses(l.def) {
      StoredLockHashes(l);
    }
  }

  lemma MarshalKeepsVersion(d: Definition)
    requires Marshal(d).Some?
    ensures Marshal(d).value.c.version == d.version
  {
    hide DefinitionChunk, LegacyAddresses;
  }

  lemma StoredLockHashes(l: Lock)
    requires LockChunk(l).Some? && SetDefinitionHashes(l.def).Some?
    requires l.def.version.V1? && (l.def.version.minor <= 4 ==> LegacyAddresses(l.def.validatorAddresses).Some?)
    requires KeepsAddresses(l.def)
    ensures LockDigest(StoredLock(l)) == LockDigest(l) <==> ConfigHashCurrent(l.def)
  {
    hide DefinitionChunk, Root, ValidatorsChunk, LegacyAddresses, ConfigHashCurrent, StoredValidator;
    var e, d2, minor := StoredLock(l), SetDefinitionHashes(l.def).value, l.def.version.minor;
    StoredHashesTheSame(d2, false);
    DefinitionPartCurrent(l.def);
    StoredValidatorsHashTheSame(l.validators, minor);
    SetHashesIdempotent(l.def);
    assert DefinitionChunk(d2, false).Some?;
    var vs := ValidatorsChunk(l.validators, minor).value;
    var x, y := DefinitionChunk(d2, false).value, DefinitionChunk(l.def, false).value;
    assert LockChunk(e) == Some(Root([x, vs], 0)) && LockChunk(l) == Some(Root([y, vs], 0));
    DigestOfChunk(Root([x, vs], 0));
    DigestOfChunk(Root([y, vs], 0));
    if Root([x, vs], 0) == Root([y, vs], 0) {
      RootInjective([x, vs], [y, vs], 0);
    }
  }
}
