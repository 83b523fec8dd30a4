/** The cluster lock of cluster/lock.go and its hash (cluster/ssz.go), in the same two forms as the definition. */
module Lock {
  import opened Prelude
  import opened Bytes
  import opened Hex
  import opened Merkle
  import opened Definition

  // ----- data model -----

  datatype DepositData = DepositData(pubkey: Bytes, withdrawalCredentials: Bytes, amount: int64, signature: Bytes)

  /** A Go time: whole seconds of the Unix epoch and the nanoseconds within the second. */
  datatype Time = Time(unix: int64, nanos: nat)

  datatype Registration = Registration(feeRecipient: Bytes, gasLimit: int64, timestamp: Time, pubkey: Bytes)

  datatype BuilderRegistration = BuilderRegistration(message: Registration, signature: Bytes)

  datatype DistValidator = DistValidator(
    pubkey: Bytes, pubshares: seq<Bytes>, partialDeposits: seq<DepositData>, registration: BuilderRegistration)

  datatype Lock = Lock(def: Definition, validators: seq<DistValidator>, lockHash: Digest,
                       signatureAggregate: Bytes, nodeSignatures: seq<Bytes>)

  const LEN_PUBKEY := 48
  const LEN_BLS_SIG := 96
  const LEN_WITHDRAW_CREDS := 32

  const NO_DEPOSIT := DepositData([], [], 0, [])

  /** Seconds of the zero time of Go, the first of January of year 1. */
  const ZERO_TIME := Time(-62135596800, 0)

  const NO_REGISTRATION := BuilderRegistration(Registration([], 0, ZERO_TIME, []), [])

  /** firstDepositDataOrDefault. */
  function FirstDeposit(ds: seq<DepositData>): (d: DepositData) {
    if ds == [] then NO_DEPOSIT else ds[0]
  }

  // ----- chunks -----

  function DepositFields(d: DepositData): (fields: seq<Option<Chunk>>) {
    [BytesNChunk(d.pubkey, LEN_PUBKEY), BytesNChunk(d.withdrawalCredentials, LEN_WITHDRAW_CREDS),
     Some(WordChunk(ToWord(d.amount))), BytesNChunk(d.signature, LEN_BLS_SIG)]
  }

  function DepositChunk(d: DepositData): (c: Option<Chunk>) {
    Composite(DepositFields(d))
  }

  function RegistrationChunk(r: Registration): (c: Option<Chunk>) {
    var pubkey :- BytesNChunk(r.pubkey, LEN_PUBKEY);
    Some(Root(BytesChunks(r.feeRecipient)
              + [WordChunk(ToWord(r.gasLimit)), WordChunk(ToWord(r.timestamp.unix)), pubkey], 0))
  }

  function BuilderRegistrationChunk(b: BuilderRegistration): (c: Option<Chunk>) {
    Composite([RegistrationChunk(b.message), BytesNChunk(b.signature, LEN_BLS_SIG)])
  }

  function PubsharesChunk(shares: seq<Bytes>): (c: Option<Chunk>) {
    List(seq(|shares|, i requires 0 <= i < |shares| => BytesNChunk(shares[i], LEN_PUBKEY)), MAX_OPERATORS)
  }

  function DepositsChunk(ds: seq<DepositData>): (c: Option<Chunk>) {
    List(seq(|ds|, i requires 0 <= i < |ds| => DepositChunk(ds[i])), MAX_DEPOSIT_AMOUNTS)
  }

  function ValidatorLegacyChunk(v: DistValidator): (c: Chunk) {
    Root(BytesChunks(To0xHex(v.pubkey)) + [ListRoot(PutAll(v.pubshares), |v.pubshares|, |v.pubshares|).value], 0)
  }

  /** What v1.5 to v1.7 hash of the deposits and the registration: v1.5 nothing, v1.6 the four fields of the first
      deposit side by side, v1.7 that deposit and the registration. */
  function MiddleFields(v: DistValidator, minor: Minor): (fields: seq<Option<Chunk>>) {
    if minor <= 5 then []
    else if minor == 6 then DepositFields(FirstDeposit(v.partialDeposits))
    else [DepositChunk(FirstDeposit(v.partialDeposits)), BuilderRegistrationChunk(v.registration)]
  }

  /** The validator hash of v1.3 and later. */
  function ValidatorChunk(v: DistValidator, minor: Minor): (c: Option<Chunk>) {
    if minor <= 4 then
      var shares :- PubsharesChunk(v.pubshares);
      Some(Root(BytesChunks(v.pubkey) + [shares], 0))
    else if minor <= 7 then
      Composite([BytesNChunk(v.pubkey, LEN_PUBKEY), PubsharesChunk(v.pubshares)] + MiddleFields(v, minor))
    else
      Composite([BytesNChunk(v.pubkey, LEN_PUBKEY), PubsharesChunk(v.pubshares),
                 DepositsChunk(v.partialDeposits), BuilderRegistrationChunk(v.registration)])
  }

  function ValidatorsChunk(vs: seq<DistValidator>, minor: Minor): (c: Option<Chunk>) {
    if minor <= 2 then
      ListRoot(seq(|vs|, i requires 0 <= i < |vs| => ValidatorLegacyChunk(vs[i])), |vs|, |vs|)
    else
      List(seq(|vs|, i requires 0 <= i < |vs| => ValidatorChunk(vs[i], minor)), MAX_VALIDATORS)
  }

  function LockChunk(l: Lock): (c: Option<Chunk>) {
    if l.def.version.Other? then None else
      var def :- DefinitionChunk(l.def, false);
      var validators :- ValidatorsChunk(l.validators, l.def.version.minor);
      Some(Root([def, validators], 0))
  }

  function LockDigest(l: Lock): (r: Option<Digest>) {
    var c :- LockChunk(l);
    Some(ToDigest(c))
  }

  // ----- the walks over the hasher -----

  method HashPubsharesField(shares: seq<Bytes>, hh: Hasher) returns (ok: bool)
    modifies hh
    ensures ok == PubsharesChunk(shares).Some?
    ensures ok ==> hh.buf == old(hh.buf) + [PubsharesChunk(shares).value]
  {
    hide BytesNChunk;
    ghost var elems := seq(|shares|, i requires 0 <= i < |shares| => BytesNChunk(shares[i], LEN_PUBKEY));
    var subIndx := hh.Index();
    for i := 0 to |shares|
      invariant AllSome(elems[..i])
      invariant hh.buf == old(hh.buf) + Vals(elems[..i])
    {
      ok := hh.PutBytesN(shares[i], LEN_PUBKEY);
      if !ok {
        assert elems[i] == None;
        return;
      }
      Snoc(elems, i);
    }
    assert elems[..|shares|] == elems;
    assert hh.buf[subIndx..] == Vals(elems);
    ok := hh.MerkleizeWithMixin(subIndx, |shares|, MAX_OPERATORS);
  }

  /** hashDepositDataV1x6, whose four chunks are left for the enclosing container to collapse. */
  method HashDepositDataV1x6(d: DepositData, hh: Hasher) returns (ok: bool)
    modifies hh
    ensures ok == AllSome(DepositFields(d))
    ensures ok ==> hh.buf == old(hh.buf) + Vals(DepositFields(d))
  {
    hide BytesNChunk, WordChunk;
    ghost var fields := DepositFields(d);
    ok := hh.PutBytesN(d.pubkey, LEN_PUBKEY);
    if !ok { assert fields[0] == None; return; }
    ok := hh.PutBytesN(d.withdrawalCredentials, LEN_WITHDRAW_CREDS);
    if !ok { assert fields[1] == None; return; }
    hh.PutUint64(ToWord(d.amount));
    ok := hh.PutBytesN(d.signature, LEN_BLS_SIG);
    if !ok { assert fields[3] == None; return; }
  }

  method HashDepositDataV1x7(d: DepositData, hh: Hasher) returns (ok: bool)
    modifies hh
    ensures ok == DepositChunk(d).Some?
    ensures ok ==> hh.buf == old(hh.buf) + [DepositChunk(d).value]
  {
    hide Root, DepositFields;
    var indx := hh.Index();
    ok := HashDepositDataV1x6(d, hh);
    if !ok { return; }
    assert hh.buf[indx..] == Vals(DepositFields(d)) && hh.buf[..indx] == old(hh.buf);
    hh.Merkleize(indx);
  }

  method HashRegistration(r: Registration, hh: Hasher) returns (ok: bool)
    modifies hh
    ensures ok == RegistrationChunk(r).Some?
    ensures ok ==> hh.buf == old(hh.buf) + [RegistrationChunk(r).value]
  {
    hide Root, BytesChunks, BytesNChunk, WordChunk;
    var indx := hh.Index();
    hh.PutBytes(r.feeRecipient);
    hh.PutUint64(ToWord(r.gasLimit));
    hh.PutUint64(ToWord(r.timestamp.unix));
    ok := hh.PutBytesN(r.pubkey, LEN_PUBKEY);
    if !ok { return; }
    assert hh.buf[..indx] == old(hh.buf);
    assert hh.buf[indx..] == BytesChunks(r.feeRecipient)
      + [WordChunk(ToWord(r.gasLimit)), WordChunk(ToWord(r.timestamp.unix)), BytesNChunk(r.pubkey, LEN_PUBKEY).value];
    hh.Merkleize(indx);
  }

  method HashBuilderRegistration(b: BuilderRegistration, hh: Hasher) returns (ok: bool)
    modifies hh
    ensures ok == BuilderRegistrationChunk(b).Some?
    ensures ok ==> hh.buf == old(hh.buf) + [BuilderRegistrationChunk(b).value]
  {
    hide Root, RegistrationChunk, BytesNChunk;
    ghost var fields := [RegistrationChunk(b.message), BytesNChunk(b.signature, LEN_BLS_SIG)];
    var indx := hh.Index();
    ok := HashRegistration(b.message, hh);
    if !ok { assert fields[0] == None; return; }
    ok := hh.PutBytesN(b.signature, LEN_BLS_SIG);
    if !ok { assert fields[1] == None; return; }
    assert hh.buf[indx..] == Vals(fields) && hh.buf[..indx] == old(hh.buf);
    hh.Merkleize(indx);
  }

  method HashValidatorV1x3Or4(v: DistValidator, hh: Hasher) returns (ok: bool)
    modifies hh
    ensures ok == ValidatorChunk(v, 3).Some? == ValidatorChunk(v, 4).Some?
    ensures ok ==> hh.buf == old(hh.buf) + [ValidatorChunk(v, 3).value] == old(hh.buf) + [ValidatorChunk(v, 4).value]
  {
    hide Root, Pack, PubsharesChunk;
    var indx := hh.Index();
    hh.PutBytes(v.pubkey);
    ok := HashPubsharesField(v.pubshares, hh);
    if !ok { return; }
    ghost var before := hh.buf;
    hh.PutBytes([]);
    assert hh.buf == before;
    assert hh.buf[indx..] == BytesChunks(v.pubkey) + [PubsharesChunk(v.pubshares).value];
    assert hh.buf[..indx] == old(hh.buf);
    hh.Merkleize(indx);
  }

  /** The deposit and registration hash functions that v1.5 to v1.7 select. */
  method HashMiddle(v: DistValidator, minor: Minor, hh: Hasher) returns (ok: bool)
    requires 5 <= minor <= 7
    modifies hh
    ensures ok == AllSome(MiddleFields(v, minor))
    ensures ok ==> hh.buf == old(hh.buf) + Vals(MiddleFields(v, minor))
  {
    hide DepositFields, DepositChunk, BuilderRegistrationChunk;
    ghost var fields := MiddleFields(v, minor);
    var dd := NO_DEPOSIT;
    if |v.partialDeposits| > 0 {
      dd := v.partialDeposits[0];
    }
    ok := true;
    if minor == 6 {
      ok := HashDepositDataV1x6(dd, hh);
    } else if minor == 7 {
      ok := HashDepositDataV1x7(dd, hh);
      if !ok { assert fields[0] == None; return; }
      ok := HashBuilderRegistration(v.registration, hh);
      if !ok { assert fields[1] == None; return; }
    }
  }

  method HashValidatorV1x5to7(v: DistValidator, minor: Minor, hh: Hasher) returns (ok: bool)
    requires 5 <= minor <= 7
    modifies hh
    ensures ok == ValidatorChunk(v, minor).Some?
    ensures ok ==> hh.buf == old(hh.buf) + [ValidatorChunk(v, minor).value]
  {
    hide Root, BytesNChunk, PubsharesChunk, MiddleFields;
    ghost var head := [BytesNChunk(v.pubkey, LEN_PUBKEY), PubsharesChunk(v.pubshares)];
    ValsConcat(head, MiddleFields(v, minor));
    var indx := hh.Index();
    ok := hh.PutBytesN(v.pubkey, LEN_PUBKEY);
    if !ok { assert head[0] == None; return; }
    ok := HashPubsharesField(v.pubshares, hh);
    if !ok { assert head[1] == None; return; }
    ok := HashMiddle(v, minor, hh);
    if !ok { return; }
    assert Vals(head) == [head[0].value, head[1].value];
    assert hh.buf[indx..] == Vals(head + MiddleFields(v, minor)) && hh.buf[..indx] == old(hh.buf);
    hh.Merkleize(indx);
  }

  method HashDeposits(ds: seq<DepositData>, hh: Hasher) returns (ok: bool)
    modifies hh
    ensures ok == DepositsChunk(ds).Some?
    ensures ok ==> hh.buf == old(hh.buf) + [DepositsChunk(ds).value]
  {
    hide Root, DepositChunk;
    ghost var elems := seq(|ds|, i requires 0 <= i < |ds| => DepositChunk(ds[i]));
    var pddIndx := hh.Index();
    for i := 0 to |ds|
      invariant AllSome(elems[..i])
      invariant hh.buf == old(hh.buf) + Vals(elems[..i])
    {
      ghost var before := hh.buf;
      var ddIndx := hh.Index();
      ok := HashDepositDataV1x7(ds[i], hh);
      if !ok {
        assert elems[i] == None;
        return;
      }
      assert hh.buf[ddIndx..] == [DepositChunk(ds[i]).value] && hh.buf[..ddIndx] == before;
      RootOfOne(DepositChunk(ds[i]).value);
      hh.Merkleize(ddIndx);
      Snoc(elems, i);
    }
    assert elems[..|ds|] == elems;
    assert hh.buf[pddIndx..] == Vals(elems);
    ok := hh.MerkleizeWithMixin(pddIndx, |ds|, MAX_DEPOSIT_AMOUNTS);
  }

  method HashValidatorV1x8OrLater(v: DistValidator, minor: Minor, hh: Hasher) returns (ok: bool)
    requires 8 <= minor
    modifies hh
    ensures ok == ValidatorChunk(v, minor).Some?
    ensures ok ==> hh.buf == old(hh.buf) + [ValidatorChunk(v, minor).value]
  {
    hide Root, BytesNChunk, PubsharesChunk, DepositsChunk, BuilderRegistrationChunk;
    ghost var fields := [BytesNChunk(v.pubkey, LEN_PUBKEY), PubsharesChunk(v.pubshares),
                         DepositsChunk(v.partialDeposits), BuilderRegistrationChunk(v.registration)];
    var indx := hh.Index();
    ok := hh.PutBytesN(v.pubkey, LEN_PUBKEY);
    if !ok { assert fields[0] == None; return; }
    ok := HashPubsharesField(v.pubshares, hh);
    if !ok { assert fields[1] == None; return; }
    ok := HashDeposits(v.partialDeposits, hh);
    if !ok { assert fields[2] == None; return; }
    ok := HashBuilderRegistration(v.registration, hh);
    if !ok { assert fields[3] == None; return; }
    assert hh.buf[indx..] == Vals(fields) && hh.buf[..indx] == old(hh.buf);
    hh.Merkleize(indx);
  }

  method HashValidator(v: DistValidator, minor: Minor, hh: Hasher) returns (ok: bool)
    requires 3 <= minor
    modifies hh
    ensures ok == ValidatorChunk(v, minor).Some?
    ensures ok ==> hh.buf == old(hh.buf) + [ValidatorChunk(v, minor).value]
  {
    if minor <= 4 {
      ok := HashValidatorV1x3Or4(v, hh);
    } else if minor <= 7 {
      ok := HashValidatorV1x5to7(v, minor, hh);
    } else {
      ok := HashValidatorV1x8OrLater(v, minor, hh);
    }
  }

  method HashValidatorLegacy(v: DistValidator, hh: Hasher)
    modifies hh
    ensures hh.buf == old(hh.buf) + [ValidatorLegacyChunk(v)]
  {
    hide Root, Pack;
    var indx := hh.Index();
    hh.PutBytes(To0xHex(v.pubkey));
    ghost var before := hh.buf;
    var subIndx := hh.Index();
    for i := 0 to |v.pubshares|
      invariant hh.buf == before + PutAll(v.pubshares[..i])
    {
      assert v.pubshares[..i + 1][..i] == v.pubshares[..i];
      hh.PutBytes(v.pubshares[i]);
    }
    assert v.pubshares[..|v.pubshares|] == v.pubshares;
    assert hh.buf[subIndx..] == PutAll(v.pubshares) && hh.buf[..subIndx] == before;
    var ok := hh.MerkleizeWithMixin(subIndx, |v.pubshares|, |v.pubshares|);
    ghost var done := hh.buf;
    hh.PutBytes([]);
    assert hh.buf == done;
    assert hh.buf[indx..] == BytesChunks(To0xHex(v.pubkey))
                             + [ListRoot(PutAll(v.pubshares), |v.pubshares|, |v.pubshares|).value];
    assert hh.buf[..indx] == old(hh.buf);
    hh.Merkleize(indx);
  }

  method HashValidators(vs: seq<DistValidator>, minor: Minor, hh: Hasher) returns (ok: bool)
    modifies hh
    ensures ok == ValidatorsChunk(vs, minor).Some?
    ensures ok ==> hh.buf == old(hh.buf) + [ValidatorsChunk(vs, minor).value]
  {
    hide ValidatorChunk, ValidatorLegacyChunk, Root;
    var subIndx := hh.Index();
    if minor <= 2 {
      for i := 0 to |vs|
        invariant hh.buf == old(hh.buf) + seq(i, k requires 0 <= k < i => ValidatorLegacyChunk(vs[k]))
      {
        HashValidatorLegacy(vs[i], hh);
      }
      assert hh.buf[subIndx..] == seq(|vs|, k requires 0 <= k < |vs| => ValidatorLegacyChunk(vs[k]));
      ok := hh.MerkleizeWithMixin(subIndx, |vs|, |vs|);
      return;
    }
    ghost var elems := seq(|vs|, i requires 0 <= i < |vs| => ValidatorChunk(vs[i], minor));
    for i := 0 to |vs|
      invariant AllSome(elems[..i])
      invariant hh.buf == old(hh.buf) + Vals(elems[..i])
    {
      ok := HashValidator(vs[i], minor, hh);
      if !ok {
        assert elems[i] == None;
        return;
      }
      Snoc(elems, i);
    }
    assert elems[..|vs|] == elems;
    assert hh.buf[subIndx..] == Vals(elems);
    ok := hh.MerkleizeWithMixin(subIndx, |vs|, MAX_VALIDATORS);
  }

  /** hashLock with hashLockLegacy and hashLockV1x3orLater, which differ in the validator walk they select. */
  method HashLock(l: Lock) returns (r: Option<Digest>)
    ensures r == LockDigest(l)
  {
    hide DefinitionChunk, ValidatorsChunk, Root;
    if l.def.version.Other? {
      return None;
    }
    var hh := new Hasher();
    var indx := hh.Index();
    var ok := HashDefinitionWith(l.def, hh, false);
    if !ok { return None; }
    ok := HashValidators(l.validators, l.def.version.minor, hh);
    if !ok { return None; }
    assert hh.buf[indx..]
        == [DefinitionChunk(l.def, false).value, ValidatorsChunk(l.validators, l.def.version.minor).value];
    assert hh.buf[..indx] == [];
    hh.Merkleize(indx);
    r := hh.HashRoot();
  }
}
