/** Merkle binding of the config and definition hashes: from v1.5 on, equal hashes mean equal definitions. */
module DefinitionBinding {
  import opened Prelude
  import opened Bytes
  import opened Hex
  import opened Merkle
  import opened Definition

  // ----- what a definition hash determines -----

  /** Fixed-size byte arrays are hashed with zeros on the left. */
  predicate SamePadded(a: Bytes, b: Bytes, n: nat) {
    LeftPad(a, n) == LeftPad(b, n)
  }

  /** Addresses are hashed as the twenty bytes they decode to. */
  predicate SameAddress(a: Bytes, b: Bytes) {
    && From0xHex(a, ADDRESS_LEN).Some? && From0xHex(b, ADDRESS_LEN).Some?
    && SamePadded(From0xHex(a, ADDRESS_LEN).value, From0xHex(b, ADDRESS_LEN).value, ADDRESS_LEN)
  }

  /** The config hash covers the address only. */
  predicate SameOperator(a: Operator, b: Operator, configOnly: bool) {
    && SameAddress(a.address, b.address)
    && (configOnly || (
          && a.enr == b.enr
          && SamePadded(a.configSignature, b.configSignature, LEN_K1_SIG)
          && SamePadded(a.enrSignature, b.enrSignature, LEN_K1_SIG)))
  }

  predicate SameOperators(a: seq<Operator>, b: seq<Operator>, configOnly: bool) {
    |a| == |b| && forall i | 0 <= i < |a| :: SameOperator(a[i], b[i], configOnly)
  }

  predicate SameCreator(a: Creator, b: Creator, configOnly: bool) {
    && SameAddress(a.address, b.address)
    && (configOnly || SamePadded(a.configSignature, b.configSignature, LEN_K1_SIG))
  }

  predicate SameAddressPair(a: ValidatorAddresses, b: ValidatorAddresses) {
    SameAddress(a.feeRecipient, b.feeRecipient) && SameAddress(a.withdrawal, b.withdrawal)
  }

  predicate SameAddressPairs(a: seq<ValidatorAddresses>, b: seq<ValidatorAddresses>) {
    |a| == |b| && forall i | 0 <= i < |a| :: SameAddressPair(a[i], b[i])
  }

  predicate SameHead(a: Definition, b: Definition) {
    && a.uuid == b.uuid && a.name == b.name && a.version == b.version && a.timestamp == b.timestamp
    && a.numValidators == b.numValidators && a.threshold == b.threshold
  }

  predicate SameMid(a: Definition, b: Definition, configOnly: bool) {
    && a.dkgAlgorithm == b.dkgAlgorithm
    && SamePadded(a.forkVersion, b.forkVersion, LEN_FORK_VERSION)
    && SameOperators(a.operators, b.operators, configOnly)
    && SameCreator(a.creator, b.creator, configOnly)
    && SameAddressPairs(a.validatorAddresses, b.validatorAddresses)
  }

  /** Later versions hash later fields. */
  predicate SameExtra(a: Definition, b: Definition, minor: Minor) {
    && (minor >= 8 ==> a.depositAmounts == b.depositAmounts)
    && (minor >= 9 ==> a.consensusProtocol == b.consensusProtocol)
    && (minor >= 10 ==> a.targetGasLimit == b.targetGasLimit && a.compounding == b.compounding)
  }

  /** Agreement on every field that the definition hash covers, or the config hash. */
  predicate SameHashedFields(a: Definition, b: Definition, configOnly: bool)
    requires a.version.V1?
  {
    && SameHead(a, b) && SameMid(a, b, configOnly) && SameExtra(a, b, a.version.minor)
    && (configOnly || DigestChunk(a.configHash) == DigestChunk(b.configHash))
  }

  // ----- field by field -----

  lemma AddressBinds(a: Bytes, b: Bytes)
    requires HexBytes20Chunk(a).Some? && HexBytes20Chunk(b).Some?
    ensures HexBytes20Chunk(a) == HexBytes20Chunk(b) <==> SameAddress(a, b)
  {
    BytesNInjective(From0xHex(a, ADDRESS_LEN).value, From0xHex(b, ADDRESS_LEN).value, ADDRESS_LEN);
  }

  lemma ByteListBinds(a: Bytes, b: Bytes, limit: nat)
    requires limit < TWO64 && ByteListChunk(a, limit).Some? && ByteListChunk(b, limit).Some?
    ensures ByteListChunk(a, limit) == ByteListChunk(b, limit) <==> a == b
  {
    if ByteListChunk(a, limit) == ByteListChunk(b, limit) {
      ByteListInjective(a, b, limit);
    }
  }

  function OperatorFields(o: Operator, configOnly: bool): (fields: seq<Option<Chunk>>)
    ensures |fields| == if configOnly then 1 else 4
    ensures OperatorV5(o, configOnly) == Composite(fields)
  {
    [HexBytes20Chunk(o.address)]
    + if configOnly then []
      else [ByteListChunk(o.enr, MAX_ENR), BytesNChunk(o.configSignature, LEN_K1_SIG),
            BytesNChunk(o.enrSignature, LEN_K1_SIG)]
  }

  lemma OperatorBinds(a: Operator, b: Operator, configOnly: bool)
    requires OperatorV5(a, configOnly).Some? && OperatorV5(b, configOnly).Some?
    ensures OperatorV5(a, configOnly) == OperatorV5(b, configOnly) <==> SameOperator(a, b, configOnly)
  {
    hide HexBytes20Chunk, ByteListChunk, BytesNChunk, Root, SameAddress, SamePadded, LeftPad;
    var x, y := OperatorFields(a, configOnly), OperatorFields(b, configOnly);
    CompositeBinds(x, y);
    assert x[0].Some? && y[0].Some?;
    AddressBinds(a.address, b.address);
    if configOnly {
      assert x == y <==> x[0] == y[0];
    } else {
      assert x == y <==> x[0] == y[0] && x[1] == y[1] && x[2] == y[2] && x[3] == y[3];
      assert x[1].Some? && y[1].Some? && x[2].Some? && y[2].Some? && x[3].Some? && y[3].Some?;
      ByteListBinds(a.enr, b.enr, MAX_ENR);
      PaddedBinds(a.configSignature, b.configSignature, LEN_K1_SIG);
      PaddedBinds(a.enrSignature, b.enrSignature, LEN_K1_SIG);
    }
  }

  lemma CompositeBinds(x: seq<Option<Chunk>>, y: seq<Option<Chunk>>)
    requires |x| == |y| && Composite(x).Some? && Composite(y).Some?
    ensures Composite(x) == Composite(y) <==> x == y
  {
    hide Root;
    if Composite(x) == Composite(y) {
      CompositeInjective(x, y);
    }
  }

  lemma ListBinds(x: seq<Option<Chunk>>, y: seq<Option<Chunk>>, limit: nat)
    requires 0 < limit < TWO64 && List(x, limit).Some? && List(y, limit).Some?
    ensures List(x, limit) == List(y, limit) <==> x == y
  {
    hide ListRoot;
    if List(x, limit) == List(y, limit) {
      ListInjective(x, y, limit);
    }
  }

  lemma PaddedBinds(a: Bytes, b: Bytes, n: nat)
    requires n > 0 && BytesNChunk(a, n).Some? && BytesNChunk(b, n).Some?
    ensures BytesNChunk(a, n) == BytesNChunk(b, n) <==> SamePadded(a, b, n)
  {
    BytesNInjective(a, b, n);
  }

  lemma CreatorBinds(a: Creator, b: Creator, configOnly: bool)
    requires CreatorV5(a, configOnly).Some? && CreatorV5(b, configOnly).Some?
    ensures CreatorV5(a, configOnly) == CreatorV5(b, configOnly) <==> SameCreator(a, b, configOnly)
  {
    hide HexBytes20Chunk, BytesNChunk, Root, SameAddress, SamePadded, LeftPad;
    var x := [HexBytes20Chunk(a.address)] + if configOnly then [] else [BytesNChunk(a.configSignature, LEN_K1_SIG)];
    var y := [HexBytes20Chunk(b.address)] + if configOnly then [] else [BytesNChunk(b.configSignature, LEN_K1_SIG)];
    CompositeBinds(x, y);
    assert x[0].Some? && y[0].Some?;
    AddressBinds(a.address, b.address);
    if configOnly {
      assert x == y <==> x[0] == y[0];
    } else {
      assert x == y <==> x[0] == y[0] && x[1] == y[1];
      assert x[1].Some? && y[1].Some?;
      PaddedBinds(a.configSignature, b.configSignature, LEN_K1_SIG);
    }
  }

  lemma AddressPairBinds(a: ValidatorAddresses, b: ValidatorAddresses)
    requires AddressPair(a).Some? && AddressPair(b).Some?
    ensures AddressPair(a) == AddressPair(b) <==> SameAddressPair(a, b)
  {
    hide HexBytes20Chunk, Root, SameAddress;
    var x := [HexBytes20Chunk(a.feeRecipient), HexBytes20Chunk(a.withdrawal)];
    var y := [HexBytes20Chunk(b.feeRecipient), HexBytes20Chunk(b.withdrawal)];
    CompositeBinds(x, y);
    assert x == y <==> x[0] == y[0] && x[1] == y[1];
    assert x[0].Some? && y[0].Some? && x[1].Some? && y[1].Some?;
    AddressBinds(a.feeRecipient, b.feeRecipient);
    AddressBinds(a.withdrawal, b.withdrawal);
  }

  lemma OperatorsBind(a: seq<Operator>, b: seq<Operator>, configOnly: bool)
    requires OperatorsV5(a, configOnly).Some? && OperatorsV5(b, configOnly).Some?
    ensures OperatorsV5(a, configOnly) == OperatorsV5(b, configOnly) <==> SameOperators(a, b, configOnly)
  {
    hide OperatorV5, SameOperator, ListRoot;
    var x := seq(|a|, i requires 0 <= i < |a| => OperatorV5(a[i], configOnly));
    var y := seq(|b|, i requires 0 <= i < |b| => OperatorV5(b[i], configOnly));
    ListBinds(x, y, MAX_OPERATORS);
    forall i | 0 <= i < |a| && i < |b| ensures x[i] == y[i] <==> SameOperator(a[i], b[i], configOnly) {
      assert x[i].Some? && y[i].Some?;
      OperatorBinds(a[i], b[i], configOnly);
    }
    assert |x| == |a| && |y| == |b|;
  }

  lemma AddressPairsBind(a: seq<ValidatorAddresses>, b: seq<ValidatorAddresses>)
    requires AddressPairs(a).Some? && AddressPairs(b).Some?
    ensures AddressPairs(a) == AddressPairs(b) <==> SameAddressPairs(a, b)
  {
    hide AddressPair, SameAddressPair, ListRoot;
    var x := seq(|a|, i requires 0 <= i < |a| => AddressPair(a[i]));
    var y := seq(|b|, i requires 0 <= i < |b| => AddressPair(b[i]));
    ListBinds(x, y, MAX_VALIDATORS);
    forall i | 0 <= i < |a| && i < |b| ensures x[i] == y[i] <==> SameAddressPair(a[i], b[i]) {
      assert x[i].Some? && y[i].Some?;
      AddressPairBinds(a[i], b[i]);
    }
    assert |x| == |a| && |y| == |b|;
  }

  lemma VersionBinds(a: Version, b: Version)
    requires a.V1? && b.V1?
    ensures VersionName(a) == VersionName(b) <==> a == b
  {
    if VersionName(a) == VersionName(b) {
      assert VersionName(a)[3] == VersionName(b)[3];
    }
  }

  lemma HeadBinds(a: Definition, b: Definition)
    requires a.version.V1? && b.version.V1? && AllSome(HeadFields(a)) && AllSome(HeadFields(b))
    ensures HeadFields(a)[2] == HeadFields(b)[2] <==> a.version == b.version
    ensures HeadFields(a) == HeadFields(b) <==> SameHead(a, b)
  {
    hide ByteListChunk, WordChunk, VersionName, ToWord;
    var x, y := HeadFields(a), HeadFields(b);
    assert x[0].Some? && x[1].Some? && x[2].Some? && x[3].Some?;
    assert y[0].Some? && y[1].Some? && y[2].Some? && y[3].Some?;
    ByteListBinds(a.uuid, b.uuid, MAX_UUID);
    ByteListBinds(a.name, b.name, MAX_NAME);
    ByteListBinds(VersionName(a.version), VersionName(b.version), MAX_VERSION);
    VersionBinds(a.version, b.version);
    ByteListBinds(a.timestamp, b.timestamp, MAX_TIMESTAMP);
    IntBinds(a.numValidators, b.numValidators);
    IntBinds(a.threshold, b.threshold);
    assert x == y <==> x[0] == y[0] && x[1] == y[1] && x[2] == y[2] && x[3] == y[3] && x[4] == y[4] && x[5] == y[5];
  }

  lemma IntBinds(a: int64, b: int64)
    ensures WordChunk(ToWord(a)) == WordChunk(ToWord(b)) <==> a == b
  {
    if WordChunk(ToWord(a)) == WordChunk(ToWord(b)) {
      WordChunkInjective(ToWord(a), ToWord(b));
      IntRoundTrip(a, 0);
      IntRoundTrip(b, 0);
    }
  }

  lemma MidBinds(a: Definition, b: Definition, configOnly: bool)
    requires AllSome(MidFields(a, configOnly)) && AllSome(MidFields(b, configOnly))
    ensures MidFields(a, configOnly) == MidFields(b, configOnly) <==> SameMid(a, b, configOnly)
  {
    hide ByteListChunk, BytesNChunk, OperatorsV5, CreatorV5, AddressPairs,
      SamePadded, SameOperators, SameCreator, SameAddressPairs;
    var x, y := MidFields(a, configOnly), MidFields(b, configOnly);
    assert x[0].Some? && x[1].Some? && x[2].Some? && x[3].Some? && x[4].Some?;
    assert y[0].Some? && y[1].Some? && y[2].Some? && y[3].Some? && y[4].Some?;
    ByteListBinds(a.dkgAlgorithm, b.dkgAlgorithm, MAX_DKG_ALGORITHM);
    PaddedBinds(a.forkVersion, b.forkVersion, LEN_FORK_VERSION);
    OperatorsBind(a.operators, b.operators, configOnly);
    CreatorBinds(a.creator, b.creator, configOnly);
    AddressPairsBind(a.validatorAddresses, b.validatorAddresses);
    assert x == y <==> x[0] == y[0] && x[1] == y[1] && x[2] == y[2] && x[3] == y[3] && x[4] == y[4];
  }

  lemma AmountsBind(a: seq<uint64>, b: seq<uint64>)
    requires WordArrayChunk(a, MAX_DEPOSIT_AMOUNTS).Some? && WordArrayChunk(b, MAX_DEPOSIT_AMOUNTS).Some?
    ensures WordArrayChunk(a, MAX_DEPOSIT_AMOUNTS) == WordArrayChunk(b, MAX_DEPOSIT_AMOUNTS) <==> a == b
  {
    if WordArrayChunk(a, MAX_DEPOSIT_AMOUNTS) == WordArrayChunk(b, MAX_DEPOSIT_AMOUNTS) {
      WordArrayInjective(a, b, MAX_DEPOSIT_AMOUNTS);
    }
  }

  lemma ExtraBinds(a: Definition, b: Definition, minor: Minor)
    requires AllSome(ExtraFields(a, minor)) && AllSome(ExtraFields(b, minor))
    ensures ExtraFields(a, minor) == ExtraFields(b, minor) <==> SameExtra(a, b, minor)
  {
    hide WordArrayChunk, ByteListChunk, WordChunk;
    var x, y := ExtraFields(a, minor), ExtraFields(b, minor);
    if minor >= 8 {
      assert x[0].Some? && y[0].Some?;
      AmountsBind(a.depositAmounts, b.depositAmounts);
      assert x[0] == y[0] <==> a.depositAmounts == b.depositAmounts;
    }
    if minor >= 9 {
      assert x[1].Some? && y[1].Some?;
      ByteListBinds(a.consensusProtocol, b.consensusProtocol, MAX_NAME);
      assert x[1] == y[1] <==> a.consensusProtocol == b.consensusProtocol;
    }
    if minor >= 10 {
      GasBinds(a, b);
      assert x[2] == y[2] && x[3] == y[3] <==> a.targetGasLimit == b.targetGasLimit && a.compounding == b.compounding;
      assert x == y <==> x[0] == y[0] && x[1] == y[1] && x[2] == y[2] && x[3] == y[3];
    }
  }

  lemma GasBinds(a: Definition, b: Definition)
    ensures WordChunk(a.targetGasLimit) == WordChunk(b.targetGasLimit) <==> a.targetGasLimit == b.targetGasLimit
    ensures BoolChunk(a.compounding) == BoolChunk(b.compounding) <==> a.compounding == b.compounding
  {
    if WordChunk(a.targetGasLimit) == WordChunk(b.targetGasLimit) {
      WordChunkInjective(a.targetGasLimit, b.targetGasLimit);
    }
    if BoolChunk(a.compounding) == BoolChunk(b.compounding) {
      WordChunkInjective(if a.compounding then 1 else 0, if b.compounding then 1 else 0);
    }
  }

  // ----- the whole definition -----

  function LastField(d: Definition, configOnly: bool): (fields: seq<Option<Chunk>>) {
    if configOnly then [] else [DigestChunk(d.configHash)]
  }

  function AllFields(d: Definition, configOnly: bool): (fields: seq<Option<Chunk>>)
    requires d.version.V1?
  {
    FieldsV5(d, d.version.minor, configOnly) + LastField(d, configOnly)
  }

  lemma AllFieldsShape(d: Definition, configOnly: bool)
    requires d.version.V1? && d.version.minor >= 5 && AllSome(AllFields(d, configOnly))
    ensures var minor, f := d.version.minor, AllFields(d, configOnly);
      && 11 <= |f| <= 16
      && f[..6] == HeadFields(d) && f[6..11] == MidFields(d, configOnly)
      && f[11..] == ExtraFields(d, minor) + LastField(d, configOnly)
      && AllSome(HeadFields(d)) && AllSome(MidFields(d, configOnly)) && AllSome(ExtraFields(d, minor))
  {
    hide HeadFields, MidFields, ExtraFields, DigestChunk;
    var minor := d.version.minor;
    ValsConcat(HeadFields(d), MidFields(d, configOnly));
    ValsConcat(HeadFields(d) + MidFields(d, configOnly), ExtraFields(d, minor));
    ValsConcat(FieldsV5(d, minor, configOnly), LastField(d, configOnly));
  }

  lemma DepthOf9To16(n: nat)
    requires 9 <= n <= 16
    ensures Depth(n) == 4 && Pow2(4) == 16
  {
    assert Depth((n + 1) / 2) == 1 + Depth(((n + 1) / 2 + 1) / 2);
    assert Depth(((n + 1) / 2 + 1) / 2) == 2;
  }

  /** The version is a hashed field at a fixed place, so different versions never share a hash. */
  lemma VersionIsBound(a: Definition, b: Definition, configOnly: bool)
    requires a.version.V1? && a.version.minor >= 5 && b.version.V1? && b.version.minor >= 5
    requires DefinitionChunk(a, configOnly).Some? && DefinitionChunk(a, configOnly) == DefinitionChunk(b, configOnly)
    ensures a.version == b.version
  {
    hide FieldsV5, HeadFields, DigestChunk, Tree, VersionName;
    var x, y := AllFields(a, configOnly), AllFields(b, configOnly);
    AllFieldsShape(a, configOnly);
    AllFieldsShape(b, configOnly);
    DepthOf9To16(|x|);
    DepthOf9To16(|y|);
    TreeInjective(Vals(x), Vals(y), 4, 2);
    assert x[2] == y[2];
    assert x[..6][2] == y[..6][2];
    HeadBinds(a, b);
  }

  lemma TwoParts<T>(f: seq<T>, r: seq<T>, g: seq<T>, s: seq<T>)
    requires |f| == |g|
    ensures f + r == g + s <==> f == g && r == s
  {
    if f + r == g + s {
      assert f == (f + r)[..|f|] == g;
      assert r == (f + r)[|f|..] == s;
    }
  }

  /** Two definitions of versions v1.5 to v1.10 have the same definition hash, or config hash, if and only if they agree
      on the version and on every field that it covers, up to hex decoding of addresses and zero padding of fixed-size
      bytes. */
  lemma DefinitionHashBinds(a: Definition, b: Definition, configOnly: bool)
    requires a.version.V1? && a.version.minor >= 5 && b.version.V1? && b.version.minor >= 5
    requires DefinitionChunk(a, configOnly).Some? && DefinitionChunk(b, configOnly).Some?
    ensures DefinitionDigest(a, configOnly) == DefinitionDigest(b, configOnly) <==> SameHashedFields(a, b, configOnly)
  {
    hide FieldsV5, HeadFields, MidFields, ExtraFields, DigestChunk, Root, Vals, SameMid, SameExtra;
    var x, y := AllFields(a, configOnly), AllFields(b, configOnly);
    DigestOfChunk(DefinitionChunk(a, configOnly).value);
    DigestOfChunk(DefinitionChunk(b, configOnly).value);
    if DefinitionChunk(a, configOnly) == DefinitionChunk(b, configOnly) {
      VersionIsBound(a, b, configOnly);
    }
    AllFieldsShape(a, configOnly);
    AllFieldsShape(b, configOnly);
    if a.version == b.version {
      var minor := a.version.minor;
      TwoParts(ExtraFields(a, minor), LastField(a, configOnly), ExtraFields(b, minor), LastField(b, configOnly));
      assert x == x[..6] + x[6..11] + x[11..] && y == y[..6] + y[6..11] + y[11..];
      CompositeBinds(x, y);
      HeadBinds(a, b);
      MidBinds(a, b, configOnly);
      ExtraBinds(a, b, minor);
    }
  }

  // ----- which definitions hash at all -----

  lemma ByteListSome(b: Bytes, limit: nat)
    requires limit > 0
    ensures ByteListChunk(b, limit).Some? <==> |b| <= limit
  {
  }

  predicate AddressFits(a: Bytes) {
    From0xHex(a, 20).Some?
  }

  predicate OperatorFits(o: Operator) {
    AddressFits(o.address) && |o.enr| <= 1024 && |o.configSignature| <= 65 && |o.enrSignature| <= 65
  }

  predicate OperatorsFit(os: seq<Operator>, configOnly: bool) {
    |os| <= 256 && forall i | 0 <= i < |os| :: if configOnly then AddressFits(os[i].address) else OperatorFits(os[i])
  }

  predicate CreatorFits(c: Creator, configOnly: bool) {
    AddressFits(c.address) && (configOnly || |c.configSignature| <= 65)
  }

  predicate AddressesFit(xs: seq<ValidatorAddresses>) {
    |xs| <= 65536 && forall i | 0 <= i < |xs| :: AddressFits(xs[i].feeRecipient) && AddressFits(xs[i].withdrawal)
  }

  lemma AddressSome(a: Bytes)
    ensures HexBytes20Chunk(a).Some? <==> AddressFits(a)
  {
  }

  lemma OperatorsSome(os: seq<Operator>, configOnly: bool)
    ensures OperatorsV5(os, configOnly).Some? <==> OperatorsFit(os, configOnly)
  {
    hide HexBytes20Chunk, ByteListChunk, BytesNChunk, Root, AddressFits;
    var xs := seq(|os|, i requires 0 <= i < |os| => OperatorV5(os[i], configOnly));
    forall i | 0 <= i < |os|
      ensures xs[i].Some? <==> if configOnly then AddressFits(os[i].address) else OperatorFits(os[i])
    {
      var o, fields := os[i], OperatorFields(os[i], configOnly);
      AddressSome(o.address);
      ByteListSome(o.enr, MAX_ENR);
      PaddedSome(o.configSignature, LEN_K1_SIG);
      PaddedSome(o.enrSignature, LEN_K1_SIG);
      assert configOnly ==> (AllSome(fields) <==> fields[0].Some?);
      assert !configOnly ==>
        (AllSome(fields) <==> fields[0].Some? && fields[1].Some? && fields[2].Some? && fields[3].Some?);
    }
    hide OperatorFits, OperatorV5;
    ListSome(xs, MAX_OPERATORS);
    assert |xs| == |os|;
    assert AllSome(xs) <==> forall i | 0 <= i < |os| :: xs[i].Some?;
  }

  lemma PaddedSome(b: Bytes, n: nat)
    requires n > 0
    ensures BytesNChunk(b, n).Some? <==> |b| <= n
  {
  }

  lemma ListSome(xs: seq<Option<Chunk>>, limit: nat)
    requires limit > 0
    ensures List(xs, limit).Some? <==> AllSome(xs) && |xs| <= limit
  {
  }

  lemma CreatorSome(c: Creator, configOnly: bool)
    ensures CreatorV5(c, configOnly).Some? <==> CreatorFits(c, configOnly)
  {
    hide HexBytes20Chunk, BytesNChunk, Root, AddressFits;
    var sig := BytesNChunk(c.configSignature, LEN_K1_SIG);
    var fields := [HexBytes20Chunk(c.address)] + if configOnly then [] else [sig];
    AddressSome(c.address);
    PaddedSome(c.configSignature, LEN_K1_SIG);
    assert configOnly ==> (AllSome(fields) <==> fields[0].Some?);
    assert !configOnly ==> (AllSome(fields) <==> fields[0].Some? && fields[1].Some?);
  }

  lemma AddressPairsSome(xs: seq<ValidatorAddresses>)
    ensures AddressPairs(xs).Some? <==> AddressesFit(xs)
  {
    hide HexBytes20Chunk, Root, AddressFits;
    var ys := seq(|xs|, i requires 0 <= i < |xs| => AddressPair(xs[i]));
    forall i | 0 <= i < |xs|
      ensures ys[i].Some? <==> AddressFits(xs[i].feeRecipient) && AddressFits(xs[i].withdrawal)
    {
      var fields := [HexBytes20Chunk(xs[i].feeRecipient), HexBytes20Chunk(xs[i].withdrawal)];
      AddressSome(xs[i].feeRecipient);
      AddressSome(xs[i].withdrawal);
      assert AllSome(fields) <==> fields[0].Some? && fields[1].Some?;
    }
    hide AddressPair;
    ListSome(ys, MAX_VALIDATORS);
    assert |ys| == |xs|;
    assert AllSome(ys) <==> forall i | 0 <= i < |xs| :: ys[i].Some?;
  }

  predicate HeadFits(d: Definition) {
    |d.uuid| <= 64 && |d.name| <= 256 && |d.timestamp| <= 32
  }

  lemma HeadSome(d: Definition)
    requires d.version.V1?
    ensures AllSome(HeadFields(d)) <==> HeadFits(d)
  {
    hide ByteListChunk, WordChunk;
    var x := HeadFields(d);
    ByteListSome(d.uuid, MAX_UUID);
    ByteListSome(d.name, MAX_NAME);
    ByteListSome(VersionName(d.version), MAX_VERSION);
    ByteListSome(d.timestamp, MAX_TIMESTAMP);
    assert AllSome(x) <==> x[0].Some? && x[1].Some? && x[2].Some? && x[3].Some? && x[4].Some? && x[5].Some?;
  }

  lemma MidSome(d: Definition, configOnly: bool)
    ensures AllSome(MidFields(d, configOnly)) <==>
      && |d.dkgAlgorithm| <= 32 && |d.forkVersion| <= 4 && OperatorsFit(d.operators, configOnly)
      && CreatorFits(d.creator, configOnly) && AddressesFit(d.validatorAddresses)
  {
    hide ByteListChunk, BytesNChunk, OperatorsV5, CreatorV5, AddressPairs, OperatorsFit, CreatorFits, AddressesFit;
    var x := MidFields(d, configOnly);
    ByteListSome(d.dkgAlgorithm, MAX_DKG_ALGORITHM);
    PaddedSome(d.forkVersion, LEN_FORK_VERSION);
    OperatorsSome(d.operators, configOnly);
    CreatorSome(d.creator, configOnly);
    AddressPairsSome(d.validatorAddresses);
    assert AllSome(x) <==> x[0].Some? && x[1].Some? && x[2].Some? && x[3].Some? && x[4].Some?;
  }

  lemma WordsSome(words: seq<uint64>)
    ensures WordArrayChunk(words, MAX_DEPOSIT_AMOUNTS).Some? <==> |words| <= 256
  {
    hide Root;
  }

  lemma ExtraSome(d: Definition, minor: Minor)
    ensures AllSome(ExtraFields(d, minor)) <==>
      (minor >= 8 ==> |d.depositAmounts| <= 256) && (minor >= 9 ==> |d.consensusProtocol| <= 256)
  {
    hide WordArrayChunk, ByteListChunk, WordChunk;
    var x := ExtraFields(d, minor);
    WordsSome(d.depositAmounts);
    ByteListSome(d.consensusProtocol, MAX_NAME);
    if minor == 8 {
      assert AllSome(x) <==> x[0].Some?;
    } else if minor >= 9 {
      assert AllSome(x) <==> x[0].Some? && x[1].Some?;
    }
  }

  /** A definition of v1.5 or later hashes exactly if all its fields are within their limits: this is when
      hashDefinition returns no error. */
  lemma HashesExactlyIfFits(d: Definition, configOnly: bool)
    requires d.version.V1? && d.version.minor >= 5
    ensures DefinitionDigest(d, configOnly).Some? <==>
      && HeadFits(d)
      && |d.dkgAlgorithm| <= 32 && |d.forkVersion| <= 4 && OperatorsFit(d.operators, configOnly)
      && CreatorFits(d.creator, configOnly) && AddressesFit(d.validatorAddresses)
      && (d.version.minor >= 8 ==> |d.depositAmounts| <= 256)
      && (d.version.minor >= 9 ==> |d.consensusProtocol| <= 256)
      && (!configOnly && d.configHash.Raw? ==> |d.configHash.b| <= 32)
  {
    hide HeadFields, MidFields, ExtraFields, Root, Vals, HeadFits, OperatorsFit, CreatorFits, AddressesFit, LeftPad;
    var minor := d.version.minor;
    HeadSome(d);
    MidSome(d, configOnly);
    ExtraSome(d, minor);
    ValsConcat(HeadFields(d), MidFields(d, configOnly));
    ValsConcat(HeadFields(d) + MidFields(d, configOnly), ExtraFields(d, minor));
    ValsConcat(FieldsV5(d, minor, configOnly), LastField(d, configOnly));
    var last := LastField(d, configOnly);
    assert !configOnly ==> (AllSome(last) <==> last[0].Some?);
  }
}
