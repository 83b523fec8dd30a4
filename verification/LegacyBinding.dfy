/** Merkle binding of the hashes of all versions. Before v1.5 many byte fields are hashed without a fixed size, so that
    an empty one adds no chunk at all: those hashes determine the fields of definitions that agree on which of them are
    empty, and no more. */
module LegacyBinding {
  import opened Prelude
  import opened Bytes
  import opened Hex
  import opened Merkle
  import opened Definition
  import opened DefinitionBinding
  import opened Lock
  import opened LockBinding

  predicate SameEmptiness(a: Bytes, b: Bytes) {
    a == [] <==> b == []
  }

  // ----- lists of chunks -----

  lemma RootBinds(x: seq<Chunk>, y: seq<Chunk>)
    requires |x| == |y|
    ensures Root(x, 0) == Root(y, 0) <==> x == y
  {
    hide Root;
    if Root(x, 0) == Root(y, 0) {
      RootInjective(x, y, 0);
    }
  }

  lemma FourParts<T>(a: seq<T>, b: seq<T>, c: seq<T>, d: seq<T>, e: seq<T>, f: seq<T>, g: seq<T>, h: seq<T>)
    requires |a| == |e| && |b| == |f| && |c| == |g|
    ensures a + b + c + d == e + f + g + h <==> a == e && b == f && c == g && d == h
  {
    TwoParts(a + b + c, d, e + f + g, h);
    TwoParts(a + b, c, e + f, g);
    TwoParts(a, b, e, f);
  }

  /** Roots of lists with the length mixed in, in trees just large enough. */
  lemma MixinBinds(x: seq<Chunk>, m: nat, y: seq<Chunk>, n: nat)
    requires |x| <= m < TWO64 && |y| <= n < TWO64 && (m == n ==> |x| == |y|)
    ensures ListRoot(x, m, m) == ListRoot(y, n, n) <==> m == n && x == y
  {
    hide Root, WordChunk;
    if ListRoot(x, m, m) == ListRoot(y, n, n) {
      WordChunkInjective(m, n);
      ListRootInjective(x, m, y, n, m);
    }
  }

  // ----- hex strings -----

  lemma {:induction false} EncodeHasNoZeros(b: Bytes)
    ensures forall i | 0 <= i < |Encode(b)| :: Encode(b)[i] != 0
  {
    if b != [] {
      EncodeHasNoZeros(b[1..]);
    }
  }

  lemma SamePackedStrings(s: Bytes, t: Bytes)
    requires SamePacked(s, t)
    requires (forall i | 0 <= i < |s| :: s[i] != 0) && forall i | 0 <= i < |t| :: t[i] != 0
    ensures s == t
  {
    hide Depth;
    assert ByteAt(s, |s|) == ByteAt(t, |s|) && ByteAt(s, |t|) == ByteAt(t, |t|);
    assert |s| == |t|;
    forall i | 0 <= i < |s| ensures s[i] == t[i] {
      assert ByteAt(s, i) == ByteAt(t, i);
    }
  }

  /** The hex string of some bytes, hashed like any other string, determines them. */
  lemma HexBinds(a: Bytes, b: Bytes)
    requires SameEmptiness(a, b)
    ensures |BytesChunks(To0xHex(a))| == |BytesChunks(To0xHex(b))|
    ensures BytesChunks(To0xHex(a)) == BytesChunks(To0xHex(b)) <==> a == b
  {
    hide BytesChunks;
    var s, t := To0xHex(a), To0xHex(b);
    PackedIff(s, t);
    EncodeHasNoZeros(a);
    EncodeHasNoZeros(b);
    if SamePacked(s, t) {
      SamePackedStrings(s, t);
      HexRoundTrip(a, |a|);
      HexRoundTrip(b, |a|);
    }
  }

  // ----- v1.0 to v1.2: what the hashes determine -----

  ghost predicate SameOperatorLegacy(a: Operator, b: Operator, configOnly: bool) {
    && SamePacked(a.address, b.address)
    && (configOnly || (
          && SamePacked(a.enr, b.enr)
          && SamePacked(a.configSignature, b.configSignature)
          && SamePacked(a.enrSignature, b.enrSignature)))
  }

  ghost predicate SameOperatorsLegacy(a: seq<Operator>, b: seq<Operator>, configOnly: bool) {
    |a| == |b| && forall i | 0 <= i < |a| :: SameOperatorLegacy(a[i], b[i], configOnly)
  }

  /** Agreement on every field that a hash of v1.0 to v1.2 covers; the definition hash of v1.0 has no timestamp. */
  ghost predicate SameLegacyFields(a: Definition, b: Definition, configOnly: bool)
    requires a.version.V1?
  {
    var x, y := LegacyAddresses(a.validatorAddresses), LegacyAddresses(b.validatorAddresses);
    && SamePacked(a.uuid, b.uuid) && SamePacked(a.name, b.name) && a.version == b.version
    && a.numValidators == b.numValidators && a.threshold == b.threshold
    && x.Some? && y.Some?
    && SamePacked(x.value.feeRecipient, y.value.feeRecipient) && SamePacked(x.value.withdrawal, y.value.withdrawal)
    && SamePacked(a.dkgAlgorithm, b.dkgAlgorithm) && a.forkVersion == b.forkVersion
    && SameOperatorsLegacy(a.operators, b.operators, configOnly)
    && (configOnly || a.version.minor != 0 ==> SamePacked(a.timestamp, b.timestamp))
  }

  predicate ShapeOfOperator(a: Operator, b: Operator, configOnly: bool) {
    && SameEmptiness(a.address, b.address)
    && (configOnly || (
          && SameEmptiness(a.enr, b.enr)
          && SameEmptiness(a.configSignature, b.configSignature)
          && SameEmptiness(a.enrSignature, b.enrSignature)))
  }

  predicate ShapeOfOperators(a: seq<Operator>, b: seq<Operator>, configOnly: bool) {
    forall i | 0 <= i < |a| && i < |b| :: ShapeOfOperator(a[i], b[i], configOnly)
  }

  predicate ShapeOfAddresses(a: seq<ValidatorAddresses>, b: seq<ValidatorAddresses>) {
    var x, y := LegacyAddresses(a), LegacyAddresses(b);
    x.Some? && y.Some? ==>
      SameEmptiness(x.value.feeRecipient, y.value.feeRecipient) && SameEmptiness(x.value.withdrawal, y.value.withdrawal)
  }

  /** A Go slice has fewer than 2^64 elements. */
  predicate ShapeLegacy(a: Definition, b: Definition, configOnly: bool) {
    && |a.operators| < TWO64 && |b.operators| < TWO64
    && SameEmptiness(a.uuid, b.uuid) && SameEmptiness(a.name, b.name)
    && ShapeOfAddresses(a.validatorAddresses, b.validatorAddresses)
    && SameEmptiness(a.dkgAlgorithm, b.dkgAlgorithm) && SameEmptiness(a.forkVersion, b.forkVersion)
    && ShapeOfOperators(a.operators, b.operators, configOnly)
    && SameEmptiness(a.timestamp, b.timestamp)
  }

  // ----- v1.0 to v1.2: field by field -----

  lemma OperatorLegacyBinds(a: Operator, b: Operator, minor: Minor)
    requires ShapeOfOperator(a, b, false)
    ensures Root(OperatorFieldsLegacy(a, minor), 0) == Root(OperatorFieldsLegacy(b, minor), 0)
            <==> SameOperatorLegacy(a, b, false)
  {
    hide BytesChunks, SamePacked, Root, WordChunk;
    var nonce := if minor <= 1 then [WordChunk(0)] else [];
    PackedIff(a.address, b.address);
    PackedIff(a.enr, b.enr);
    PackedIff(a.configSignature, b.configSignature);
    PackedIff(a.enrSignature, b.enrSignature);
    var x := BytesChunks(a.address) + BytesChunks(a.enr) + nonce + BytesChunks(a.configSignature);
    var y := BytesChunks(b.address) + BytesChunks(b.enr) + nonce + BytesChunks(b.configSignature);
    FourParts(BytesChunks(a.address), BytesChunks(a.enr), nonce, BytesChunks(a.configSignature),
              BytesChunks(b.address), BytesChunks(b.enr), nonce, BytesChunks(b.configSignature));
    TwoParts(x, BytesChunks(a.enrSignature), y, BytesChunks(b.enrSignature));
    RootBinds(OperatorFieldsLegacy(a, minor), OperatorFieldsLegacy(b, minor));
  }

  lemma {:induction false} OperatorsLegacyBind(a: seq<Operator>, b: seq<Operator>, minor: Minor, configOnly: bool)
    requires |a| == |b| && ShapeOfOperators(a, b, configOnly)
    ensures |OperatorsLegacy(a, minor, configOnly)| == |OperatorsLegacy(b, minor, configOnly)|
    ensures OperatorsLegacy(a, minor, configOnly) == OperatorsLegacy(b, minor, configOnly)
            <==> SameOperatorsLegacy(a, b, configOnly)
  {
    hide BytesChunks, SamePacked, OperatorFieldsLegacy, Root;
    if a != [] {
      var m := |a| - 1;
      var x := if configOnly then BytesChunks(a[m].address) else [Root(OperatorFieldsLegacy(a[m], minor), 0)];
      var y := if configOnly then BytesChunks(b[m].address) else [Root(OperatorFieldsLegacy(b[m], minor), 0)];
      OperatorsLegacyBind(a[..m], b[..m], minor, configOnly);
      assert ShapeOfOperator(a[m], b[m], configOnly);
      if configOnly {
        PackedIff(a[m].address, b[m].address);
      } else {
        OperatorLegacyBinds(a[m], b[m], minor);
        assert x == y <==> x[0] == y[0];
      }
      assert x == y <==> SameOperatorLegacy(a[m], b[m], configOnly);
      TwoParts(OperatorsLegacy(a[..m], minor, configOnly), x, OperatorsLegacy(b[..m], minor, configOnly), y);
      LastOperator(a, b, configOnly);
    }
  }

  lemma LastOperator(a: seq<Operator>, b: seq<Operator>, configOnly: bool)
    requires |a| == |b| > 0
    ensures var m := |a| - 1;
      SameOperatorsLegacy(a, b, configOnly)
      <==> SameOperatorsLegacy(a[..m], b[..m], configOnly) && SameOperatorLegacy(a[m], b[m], configOnly)
  {
    hide SameOperatorLegacy;
    var m := |a| - 1;
    if SameOperatorsLegacy(a[..m], b[..m], configOnly) && SameOperatorLegacy(a[m], b[m], configOnly) {
      forall i | 0 <= i < |a| ensures SameOperatorLegacy(a[i], b[i], configOnly) {
        if i < m {
          assert SameOperatorLegacy(a[..m][i], b[..m][i], configOnly);
        }
      }
    }
  }

  lemma HeadLegacyBinds(a: Definition, b: Definition)
    requires a.version == b.version && SameEmptiness(a.uuid, b.uuid) && SameEmptiness(a.name, b.name)
    ensures |HeadLegacy(a)| == |HeadLegacy(b)|
    ensures HeadLegacy(a) == HeadLegacy(b) <==>
      && SamePacked(a.uuid, b.uuid) && SamePacked(a.name, b.name)
      && a.numValidators == b.numValidators && a.threshold == b.threshold
  {
    hide BytesChunks, SamePacked, WordChunk, VersionName, ToWord;
    PackedIff(a.uuid, b.uuid);
    PackedIff(a.name, b.name);
    IntBinds(a.numValidators, b.numValidators);
    IntBinds(a.threshold, b.threshold);
    var x := [WordChunk(ToWord(a.numValidators)), WordChunk(ToWord(a.threshold))];
    var y := [WordChunk(ToWord(b.numValidators)), WordChunk(ToWord(b.threshold))];
    assert x == y <==> x[0] == y[0] && x[1] == y[1];
    var v := BytesChunks(VersionName(a.version));
    FourParts(BytesChunks(a.uuid), BytesChunks(a.name), v, x, BytesChunks(b.uuid), BytesChunks(b.name), v, y);
  }

  lemma MidLegacyBinds(a: Definition, b: Definition, x: ValidatorAddresses, y: ValidatorAddresses)
    requires SameEmptiness(x.feeRecipient, y.feeRecipient) && SameEmptiness(x.withdrawal, y.withdrawal)
    requires SameEmptiness(a.dkgAlgorithm, b.dkgAlgorithm) && SameEmptiness(a.forkVersion, b.forkVersion)
    ensures |MidLegacy(a, x)| == |MidLegacy(b, y)|
    ensures MidLegacy(a, x) == MidLegacy(b, y) <==>
      && SamePacked(x.feeRecipient, y.feeRecipient) && SamePacked(x.withdrawal, y.withdrawal)
      && SamePacked(a.dkgAlgorithm, b.dkgAlgorithm) && a.forkVersion == b.forkVersion
  {
    hide BytesChunks, SamePacked, To0xHex;
    PackedIff(x.feeRecipient, y.feeRecipient);
    PackedIff(x.withdrawal, y.withdrawal);
    PackedIff(a.dkgAlgorithm, b.dkgAlgorithm);
    HexBinds(a.forkVersion, b.forkVersion);
    FourParts(BytesChunks(x.feeRecipient), BytesChunks(x.withdrawal), BytesChunks(a.dkgAlgorithm),
              BytesChunks(To0xHex(a.forkVersion)),
              BytesChunks(y.feeRecipient), BytesChunks(y.withdrawal), BytesChunks(b.dkgAlgorithm),
              BytesChunks(To0xHex(b.forkVersion)));
  }

  lemma TailLegacyBinds(a: Definition, b: Definition, minor: Minor, configOnly: bool)
    requires |a.operators| < TWO64 && |b.operators| < TWO64
    requires ShapeOfOperators(a.operators, b.operators, configOnly) && SameEmptiness(a.timestamp, b.timestamp)
    ensures |TailLegacy(a, minor, configOnly)| == |TailLegacy(b, minor, configOnly)|
    ensures TailLegacy(a, minor, configOnly) == TailLegacy(b, minor, configOnly) <==>
      && SameOperatorsLegacy(a.operators, b.operators, configOnly)
      && (configOnly || minor != 0 ==> SamePacked(a.timestamp, b.timestamp))
  {
    hide BytesChunks, SamePacked, Root, WordChunk, OperatorsLegacy, SameOperatorLegacy;
    var m, n := |a.operators|, |b.operators|;
    var x, y := OperatorsLegacy(a.operators, minor, configOnly), OperatorsLegacy(b.operators, minor, configOnly);
    if m == n {
      OperatorsLegacyBind(a.operators, b.operators, minor, configOnly);
    }
    MixinBinds(x, m, y, n);
    PackedIff(a.timestamp, b.timestamp);
    var p, q := [ListRoot(x, m, m).value], [ListRoot(y, n, n).value];
    assert p == q <==> p[0] == q[0];
    if configOnly || minor != 0 {
      TwoParts(p, BytesChunks(a.timestamp), q, BytesChunks(b.timestamp));
    } else {
      TwoParts(p, [], q, []);
    }
  }

  lemma LegacyBinds(a: Definition, b: Definition, configOnly: bool)
    requires a.version == b.version && a.version.V1? && a.version.minor <= 2
    requires ShapeLegacy(a, b, configOnly)
    requires DefinitionChunk(a, configOnly).Some? && DefinitionChunk(b, configOnly).Some?
    ensures DefinitionChunk(a, configOnly) == DefinitionChunk(b, configOnly) <==> SameLegacyFields(a, b, configOnly)
  {
    hide HeadLegacy, MidLegacy, TailLegacy, Root, SamePacked, SameOperatorsLegacy, ShapeOfOperators, LegacyAddresses;
    var minor := a.version.minor;
    var x, y := LegacyAddresses(a.validatorAddresses).value, LegacyAddresses(b.validatorAddresses).value;
    HeadLegacyBinds(a, b);
    MidLegacyBinds(a, b, x, y);
    TailLegacyBinds(a, b, minor, configOnly);
    var s, t := TailLegacy(a, minor, configOnly), TailLegacy(b, minor, configOnly);
    TwoParts(HeadLegacy(a) + MidLegacy(a, x), s, HeadLegacy(b) + MidLegacy(b, y), t);
    TwoParts(HeadLegacy(a), MidLegacy(a, x), HeadLegacy(b), MidLegacy(b, y));
    RootBinds(FieldsLegacy(a, minor, x, configOnly), FieldsLegacy(b, minor, y, configOnly));
  }

  // ----- v1.3 and v1.4: what the hashes determine -----

  /** An address is hashed as the bytes it decodes to, which are twenty or none. */
  predicate SameDecoded(a: Bytes, b: Bytes) {
    From0xHex(a, ADDRESS_LEN).Some? && From0xHex(a, ADDRESS_LEN) == From0xHex(b, ADDRESS_LEN)
  }

  ghost predicate SameOperatorV3(a: Operator, b: Operator, configOnly: bool) {
    && SameDecoded(a.address, b.address)
    && (configOnly || (
          && a.enr == b.enr
          && SamePacked(a.configSignature, b.configSignature)
          && SamePacked(a.enrSignature, b.enrSignature)))
  }

  ghost predicate SameOperatorsV3(a: seq<Operator>, b: seq<Operator>, configOnly: bool) {
    |a| == |b| && forall i | 0 <= i < |a| :: SameOperatorV3(a[i], b[i], configOnly)
  }

  ghost predicate SameCreatorV4(a: Creator, b: Creator, configOnly: bool) {
    SameDecoded(a.address, b.address) && (configOnly || SamePacked(a.configSignature, b.configSignature))
  }

  /** Agreement on every field that a hash of v1.3 or v1.4 covers, the creator from v1.4 on. */
  ghost predicate SameV3Fields(a: Definition, b: Definition, configOnly: bool)
    requires a.version.V1?
  {
    var x, y := LegacyAddresses(a.validatorAddresses), LegacyAddresses(b.validatorAddresses);
    && SameHead(a, b)
    && x.Some? && y.Some?
    && SameDecoded(x.value.feeRecipient, y.value.feeRecipient) && SameDecoded(x.value.withdrawal, y.value.withdrawal)
    && a.dkgAlgorithm == b.dkgAlgorithm && SamePacked(a.forkVersion, b.forkVersion)
    && SameOperatorsV3(a.operators, b.operators, configOnly)
    && (a.version.minor >= 4 ==> SameCreatorV4(a.creator, b.creator, configOnly))
    && (configOnly || DigestChunks(a.configHash) == DigestChunks(b.configHash))
  }

  predicate ShapeOfOperatorV3(a: Operator, b: Operator, configOnly: bool) {
    && SameEmptiness(a.address, b.address)
    && (configOnly || (
          && SameEmptiness(a.configSignature, b.configSignature)
          && SameEmptiness(a.enrSignature, b.enrSignature)))
  }

  predicate ShapeOfCreator(a: Creator, b: Creator, configOnly: bool) {
    SameEmptiness(a.address, b.address) && (configOnly || SameEmptiness(a.configSignature, b.configSignature))
  }

  predicate ShapeV3(a: Definition, b: Definition, configOnly: bool)
    requires a.version.V1?
  {
    && ShapeOfAddresses(a.validatorAddresses, b.validatorAddresses)
    && SameEmptiness(a.forkVersion, b.forkVersion)
    && (forall i | 0 <= i < |a.operators| && i < |b.operators| ::
          ShapeOfOperatorV3(a.operators[i], b.operators[i], configOnly))
    && (a.version.minor >= 4 ==> ShapeOfCreator(a.creator, b.creator, configOnly))
    && (configOnly || (a.configHash == Raw([]) <==> b.configHash == Raw([])))
  }

  // ----- v1.3 and v1.4: field by field -----

  lemma DecodeEmpty(s: Bytes)
    requires From0xHex(s, ADDRESS_LEN).Some?
    ensures From0xHex(s, ADDRESS_LEN).value == [] <==> s == []
  {
  }

  lemma DecodedBinds(a: Bytes, b: Bytes)
    requires From0xHex(a, ADDRESS_LEN).Some? && From0xHex(b, ADDRESS_LEN).Some? && SameEmptiness(a, b)
    ensures var x, y := From0xHex(a, ADDRESS_LEN).value, From0xHex(b, ADDRESS_LEN).value;
      |BytesChunks(x)| == |BytesChunks(y)| && (BytesChunks(x) == BytesChunks(y) <==> SameDecoded(a, b))
  {
    hide BytesChunks;
    var x, y := From0xHex(a, ADDRESS_LEN).value, From0xHex(b, ADDRESS_LEN).value;
    DecodeEmpty(a);
    DecodeEmpty(b);
    hide From0xHex;
    if BytesChunks(x) == BytesChunks(y) {
      BytesChunksInjective(x, y);
    }
  }

  lemma OperatorV3Binds(a: Operator, b: Operator, configOnly: bool)
    requires ShapeOfOperatorV3(a, b, configOnly)
    requires OperatorV3(a, configOnly).Some? && OperatorV3(b, configOnly).Some?
    ensures OperatorV3(a, configOnly) == OperatorV3(b, configOnly) <==> SameOperatorV3(a, b, configOnly)
  {
    hide BytesChunks, SamePacked, Root, ByteListChunk, From0xHex;
    var x := BytesChunks(From0xHex(a.address, ADDRESS_LEN).value);
    var y := BytesChunks(From0xHex(b.address, ADDRESS_LEN).value);
    DecodedBinds(a.address, b.address);
    hide SameDecoded;
    if configOnly {
      RootBinds(x, y);
    } else {
      var p, q := [ByteListChunk(a.enr, MAX_ENR).value], [ByteListChunk(b.enr, MAX_ENR).value];
      assert p == q <==> p[0] == q[0];
      ByteListBinds(a.enr, b.enr, MAX_ENR);
      PackedIff(a.configSignature, b.configSignature);
      PackedIff(a.enrSignature, b.enrSignature);
      FourParts(x, p, BytesChunks(a.configSignature), BytesChunks(a.enrSignature),
                y, q, BytesChunks(b.configSignature), BytesChunks(b.enrSignature));
      RootBinds(x + p + BytesChunks(a.configSignature) + BytesChunks(a.enrSignature),
                y + q + BytesChunks(b.configSignature) + BytesChunks(b.enrSignature));
    }
  }

  lemma OperatorsV3Bind(a: seq<Operator>, b: seq<Operator>, configOnly: bool)
    requires OperatorsV3(a, configOnly).Some? && OperatorsV3(b, configOnly).Some?
    requires forall i | 0 <= i < |a| && i < |b| :: ShapeOfOperatorV3(a[i], b[i], configOnly)
    ensures OperatorsV3(a, configOnly) == OperatorsV3(b, configOnly) <==> SameOperatorsV3(a, b, configOnly)
  {
    hide OperatorV3, SameOperatorV3, ShapeOfOperatorV3, ListRoot;
    var x := seq(|a|, i requires 0 <= i < |a| => OperatorV3(a[i], configOnly));
    var y := seq(|b|, i requires 0 <= i < |b| => OperatorV3(b[i], configOnly));
    ListBinds(x, y, MAX_OPERATORS);
    forall i | 0 <= i < |a| && i < |b| ensures x[i] == y[i] <==> SameOperatorV3(a[i], b[i], configOnly) {
      assert x[i].Some? && y[i].Some?;
      OperatorV3Binds(a[i], b[i], configOnly);
    }
    assert |x| == |a| && |y| == |b|;
  }

  lemma CreatorV4Binds(a: Creator, b: Creator, configOnly: bool)
    requires ShapeOfCreator(a, b, configOnly)
    requires CreatorV4(a, configOnly).Some? && CreatorV4(b, configOnly).Some?
    ensures CreatorV4(a, configOnly) == CreatorV4(b, configOnly) <==> SameCreatorV4(a, b, configOnly)
  {
    hide BytesChunks, SamePacked, Root, From0xHex;
    var x := BytesChunks(From0xHex(a.address, ADDRESS_LEN).value);
    var y := BytesChunks(From0xHex(b.address, ADDRESS_LEN).value);
    var p := if configOnly then [] else BytesChunks(a.configSignature);
    var q := if configOnly then [] else BytesChunks(b.configSignature);
    DecodedBinds(a.address, b.address);
    hide SameDecoded;
    if !configOnly {
      PackedIff(a.configSignature, b.configSignature);
    }
    TwoParts(x, p, y, q);
    RootBinds(x + p, y + q);
  }

  lemma MidV3Binds(a: Definition, b: Definition, x: ValidatorAddresses, y: ValidatorAddresses)
    requires MidV3(a, x).Some? && MidV3(b, y).Some?
    requires SameEmptiness(x.feeRecipient, y.feeRecipient) && SameEmptiness(x.withdrawal, y.withdrawal)
    requires SameEmptiness(a.forkVersion, b.forkVersion)
    ensures |MidV3(a, x).value| == |MidV3(b, y).value|
    ensures MidV3(a, x) == MidV3(b, y) <==>
      && SameDecoded(x.feeRecipient, y.feeRecipient) && SameDecoded(x.withdrawal, y.withdrawal)
      && a.dkgAlgorithm == b.dkgAlgorithm && SamePacked(a.forkVersion, b.forkVersion)
  {
    hide BytesChunks, SamePacked, ByteListChunk, From0xHex;
    DecodedBinds(x.feeRecipient, y.feeRecipient);
    DecodedBinds(x.withdrawal, y.withdrawal);
    hide SameDecoded;
    var p := [ByteListChunk(a.dkgAlgorithm, MAX_DKG_ALGORITHM).value];
    var q := [ByteListChunk(b.dkgAlgorithm, MAX_DKG_ALGORITHM).value];
    assert p == q <==> p[0] == q[0];
    ByteListBinds(a.dkgAlgorithm, b.dkgAlgorithm, MAX_DKG_ALGORITHM);
    PackedIff(a.forkVersion, b.forkVersion);
    FourParts(BytesChunks(From0xHex(x.feeRecipient, ADDRESS_LEN).value),
              BytesChunks(From0xHex(x.withdrawal, ADDRESS_LEN).value), p, BytesChunks(a.forkVersion),
              BytesChunks(From0xHex(y.feeRecipient, ADDRESS_LEN).value),
              BytesChunks(From0xHex(y.withdrawal, ADDRESS_LEN).value), q, BytesChunks(b.forkVersion));
  }

  lemma TailV3Binds(a: Definition, b: Definition, minor: Minor, configOnly: bool)
    requires 3 <= minor <= 4 && TailV3(a, minor, configOnly).Some? && TailV3(b, minor, configOnly).Some?
    requires forall i | 0 <= i < |a.operators| && i < |b.operators| ::
      ShapeOfOperatorV3(a.operators[i], b.operators[i], configOnly)
    requires minor == 4 ==> ShapeOfCreator(a.creator, b.creator, configOnly)
    ensures |TailV3(a, minor, configOnly).value| == |TailV3(b, minor, configOnly).value|
    ensures TailV3(a, minor, configOnly) == TailV3(b, minor, configOnly) <==>
      && SameOperatorsV3(a.operators, b.operators, configOnly)
      && (minor == 4 ==> SameCreatorV4(a.creator, b.creator, configOnly))
  {
    hide OperatorsV3, CreatorV4, SameOperatorsV3, SameCreatorV4, ShapeOfOperatorV3, ShapeOfCreator;
    var x, y := TailV3(a, minor, configOnly).value, TailV3(b, minor, configOnly).value;
    OperatorsV3Bind(a.operators, b.operators, configOnly);
    if minor == 3 {
      assert x == y <==> x[0] == y[0];
    } else {
      CreatorV4Binds(a.creator, b.creator, configOnly);
      assert x == y <==> x[0] == y[0] && x[1] == y[1];
    }
  }

  lemma HeadValsBind(a: Definition, b: Definition)
    requires a.version.V1? && b.version.V1? && AllSome(HeadFields(a)) && AllSome(HeadFields(b))
    ensures Vals(HeadFields(a)) == Vals(HeadFields(b)) <==> SameHead(a, b)
  {
    hide HeadFields, SameHead;
    HeadBinds(a, b);
    if Vals(HeadFields(a)) == Vals(HeadFields(b)) {
      ValsInjective(HeadFields(a), HeadFields(b));
    }
  }

  lemma V3Binds(a: Definition, b: Definition, configOnly: bool)
    requires a.version == b.version && a.version.V1? && 3 <= a.version.minor <= 4 && ShapeV3(a, b, configOnly)
    requires DefinitionChunk(a, configOnly).Some? && DefinitionChunk(b, configOnly).Some?
    ensures DefinitionChunk(a, configOnly) == DefinitionChunk(b, configOnly) <==> SameV3Fields(a, b, configOnly)
  {
    hide HeadFields, MidV3, TailV3, Root, Vals, SamePacked, SameDecoded, SameHead, SameOperatorsV3, SameCreatorV4,
      LegacyAddresses, BytesChunks, ShapeOfOperatorV3, ShapeOfCreator;
    var minor := a.version.minor;
    var x, y := LegacyAddresses(a.validatorAddresses).value, LegacyAddresses(b.validatorAddresses).value;
    HeadValsBind(a, b);
    MidV3Binds(a, b, x, y);
    TailV3Binds(a, b, minor, configOnly);
    var hs, ht := Vals(HeadFields(a)), Vals(HeadFields(b));
    var ms, mt := MidV3(a, x).value, MidV3(b, y).value;
    var ts, tt := TailV3(a, minor, configOnly).value, TailV3(b, minor, configOnly).value;
    var cs := if configOnly then [] else DigestChunks(a.configHash);
    var ct := if configOnly then [] else DigestChunks(b.configHash);
    FourParts(hs, ms, ts, cs, ht, mt, tt, ct);
    RootBinds(hs + ms + ts + cs, ht + mt + tt + ct);
  }

  // ----- versions -----

  /** If a tree's root is also that of a deeper tree, then all its leaves are hashes. */
  lemma {:induction false} ShallowLeaves(xs: seq<Chunk>, ys: seq<Chunk>, d: nat, e: nat, j: nat)
    requires |xs| <= Pow2(d) && |ys| <= Pow2(e) && e < d && Tree(xs, d) == Tree(ys, e) && j < Pow2(e)
    ensures At(ys, j).Node?
    decreases e
  {
    if e > 0 {
      var p, q := Pow2(d - 1), Pow2(e - 1);
      var h := if |xs| <= p then |xs| else p;
      var k := if |ys| <= q then |ys| else q;
      AtHalf(ys, q, j);
      if j < q {
        ShallowLeaves(xs[..h], ys[..k], d - 1, e - 1, j);
      } else {
        ShallowLeaves(xs[h..], ys[k..], d - 1, e - 1, j - q);
      }
    }
  }

  /** So equal roots of chunks with a literal among them have trees of one depth. */
  lemma SameLeaves(xs: seq<Chunk>, ys: seq<Chunk>, i: nat, j: nat)
    requires Root(xs, 0) == Root(ys, 0) && i < |xs| && j < |ys| && xs[i].Leaf? && ys[j].Leaf?
    ensures forall k: nat | k < |xs| && k < |ys| :: xs[k] == ys[k]
  {
    var d, e := Depth(|xs|), Depth(|ys|);
    if e < d {
      ShallowLeaves(xs, ys, d, e, j);
    } else if d < e {
      ShallowLeaves(ys, xs, e, d, i);
    }
    assert d == e;
    hide Tree;
    forall k: nat | k < |xs| && k < |ys| ensures xs[k] == ys[k] {
      TreeInjective(xs, ys, d, k);
    }
  }

  /** A byte list of v1.3 and later: a hash beside a literal, which no plain byte string has at its root. */
  predicate Lopsided(c: Chunk) {
    c.Node? && c.left.Node? && c.right.Leaf?
  }

  lemma BytesAreEven(b: Bytes)
    requires b != []
    ensures !Lopsided(BytesChunks(b)[0])
  {
    var d := Depth((|b| + 31) / 32);
    BytesChunkIsTree(b);
    if d == 1 {
      var half := if |Pack(b)| <= 1 then |Pack(b)| else 1;
      assert BytesChunks(b)[0].left == Tree(Pack(b)[..half], 0);
      PackLeaves(b, 0);
    }
  }

  /** Where the version stands in a definition of v1.0 to v1.2. */
  function VersionPlace(d: Definition): (p: nat) {
    |BytesChunks(d.uuid)| + |BytesChunks(d.name)|
  }

  lemma VersionLeaf(v: Version)
    requires v.V1?
    ensures |BytesChunks(VersionName(v))| == 1 && BytesChunks(VersionName(v))[0].Leaf?
  {
  }

  /** The chunks of a definition of v1.0 to v1.2: the version, and before it none of the later byte lists. */
  lemma LegacyChunks(d: Definition, configOnly: bool) returns (xs: seq<Chunk>)
    requires d.version.V1? && d.version.minor <= 2 && DefinitionChunk(d, configOnly).Some?
    ensures DefinitionChunk(d, configOnly) == Some(Root(xs, 0))
    ensures VersionPlace(d) < |xs| && xs[VersionPlace(d)].Leaf?
    ensures [xs[VersionPlace(d)]] == BytesChunks(VersionName(d.version))
    ensures !Lopsided(xs[0])
  {
    hide BytesChunks, MidLegacy, TailLegacy, Root, WordChunk, VersionName;
    var a := LegacyAddresses(d.validatorAddresses).value;
    xs := FieldsLegacy(d, d.version.minor, a, configOnly);
    var head := HeadLegacy(d);
    var p := VersionPlace(d);
    VersionLeaf(d.version);
    assert head[p] == BytesChunks(VersionName(d.version))[0];
    assert xs[0] == head[0] && xs[p] == head[p];
    if d.uuid != [] {
      BytesAreEven(d.uuid);
      assert head[0] == BytesChunks(d.uuid)[0];
    } else if d.name != [] {
      BytesAreEven(d.name);
      assert head[0] == BytesChunks(d.name)[0];
    }
  }

  lemma ListIsLopsided(b: Bytes)
    requires ByteListChunk(b, MAX_UUID).Some?
    ensures Lopsided(ByteListChunk(b, MAX_UUID).value)
  {
    assert Depth(2) == 1 by {
      assert Depth(1) == 0;
    }
  }

  /** The chunks of a definition of v1.3 and later: the version is at a fixed place. */
  lemma LaterChunks(d: Definition, configOnly: bool) returns (xs: seq<Chunk>)
    requires d.version.V1? && d.version.minor >= 3 && DefinitionChunk(d, configOnly).Some?
    ensures DefinitionChunk(d, configOnly) == Some(Root(xs, 0))
    ensures |xs| >= 6 && AllSome(HeadFields(d)) && xs[..6] == Vals(HeadFields(d))
  {
    hide HeadFields, MidFields, ExtraFields, MidV3, TailV3, Root, DigestChunk, DigestChunks, LegacyAddresses;
    var minor := d.version.minor;
    if minor <= 4 {
      xs := FieldsV3(d, minor, configOnly).value + if configOnly then [] else DigestChunks(d.configHash);
    } else {
      var fields := AllFields(d, configOnly);
      AllFieldsShape(d, configOnly);
      xs := Vals(fields);
      assert fields == fields[..6] + fields[6..];
      ValsConcat(fields[..6], fields[6..]);
    }
  }

  lemma HeadChunks(d: Definition, xs: seq<Chunk>)
    requires |xs| >= 6 && AllSome(HeadFields(d)) && xs[..6] == Vals(HeadFields(d))
    ensures Lopsided(xs[0]) && xs[4].Leaf? && Some(xs[2]) == HeadFields(d)[2]
  {
    hide ByteListChunk, WordChunk, VersionName;
    var fields := HeadFields(d);
    assert xs[0] == xs[..6][0] && xs[2] == xs[..6][2] && xs[4] == xs[..6][4];
    assert fields[0].Some? && fields[2].Some? && fields[4].Some?;
    ListIsLopsided(d.uuid);
    WordIsLeaf(ToWord(d.numValidators));
  }

  lemma WordIsLeaf(n: uint64)
    ensures WordChunk(n).Leaf?
  {
  }

  /** Definitions of different versions never share a hash, those of v1.0 to v1.2 if both or neither have a UUID, and
      both or neither a name. */
  lemma VersionsDiffer(a: Definition, b: Definition, configOnly: bool)
    requires a.version.V1? && b.version.V1? && a.version != b.version
    requires a.version.minor <= 2 && b.version.minor <= 2 ==>
      SameEmptiness(a.uuid, b.uuid) && SameEmptiness(a.name, b.name)
    requires DefinitionChunk(a, configOnly).Some?
    ensures DefinitionChunk(a, configOnly) != DefinitionChunk(b, configOnly)
  {
    hide DefinitionChunk, HeadFields, VersionName, Root, AllSome, Vals, Lopsided, BytesChunks;
    if DefinitionChunk(a, configOnly) == DefinitionChunk(b, configOnly) {
      if a.version.minor <= 2 && b.version.minor <= 2 {
        var xs := LegacyChunks(a, configOnly);
        var ys := LegacyChunks(b, configOnly);
        SameLeaves(xs, ys, VersionPlace(a), VersionPlace(b));
        LegacyVersionBinds(a.version, b.version);
      } else if a.version.minor <= 2 {
        MixedVersions(a, b, configOnly);
      } else if b.version.minor <= 2 {
        MixedVersions(b, a, configOnly);
      } else {
        var xs := LaterChunks(a, configOnly);
        var ys := LaterChunks(b, configOnly);
        HeadChunks(a, xs);
        HeadChunks(b, ys);
        SameLeaves(xs, ys, 4, 4);
        HeadBinds(a, b);
      }
    }
  }

  lemma LegacyVersionBinds(a: Version, b: Version)
    requires a.V1? && b.V1? && a.minor <= 2 && b.minor <= 2 && a != b
    ensures BytesChunks(VersionName(a)) != BytesChunks(VersionName(b))
  {
    hide BytesChunks;
    VersionBinds(a, b);
    if BytesChunks(VersionName(a)) == BytesChunks(VersionName(b)) {
      BytesChunksInjective(VersionName(a), VersionName(b));
    }
  }

  lemma MixedVersions(a: Definition, b: Definition, configOnly: bool)
    requires a.version.V1? && a.version.minor <= 2 && b.version.V1? && b.version.minor >= 3
    requires DefinitionChunk(a, configOnly).Some?
    ensures DefinitionChunk(a, configOnly) != DefinitionChunk(b, configOnly)
  {
    hide DefinitionChunk, HeadFields, VersionName, Root, AllSome, Vals, Lopsided, BytesChunks;
    if DefinitionChunk(a, configOnly) == DefinitionChunk(b, configOnly) {
      var xs := LegacyChunks(a, configOnly);
      var ys := LaterChunks(b, configOnly);
      HeadChunks(b, ys);
      SameLeaves(xs, ys, VersionPlace(a), 4);
    }
  }

  // ----- definitions of all versions -----

  /** Agreement on which of the byte fields are empty that the version hashes without a fixed size. */
  predicate SameShape(a: Definition, b: Definition, configOnly: bool)
    requires a.version.V1? && b.version.V1?
  {
    if a.version.minor <= 2 && b.version.minor <= 2 then ShapeLegacy(a, b, configOnly)
    else a.version == b.version && a.version.minor <= 4 ==> ShapeV3(a, b, configOnly)
  }

  /** Agreement on every field that the version hashes. */
  ghost predicate SameDefinition(a: Definition, b: Definition, configOnly: bool)
    requires a.version.V1?
  {
    if a.version.minor <= 2 then SameLegacyFields(a, b, configOnly)
    else if a.version.minor <= 4 then SameV3Fields(a, b, configOnly)
    else SameHashedFields(a, b, configOnly)
  }

  /** Two definitions of any supported versions that agree on which byte fields are empty have the same definition hash,
      or config hash, if and only if they agree on the version and on every field that it hashes. */
  lemma EveryDefinitionHashBinds(a: Definition, b: Definition, configOnly: bool)
    requires a.version.V1? && b.version.V1? && SameShape(a, b, configOnly)
    requires DefinitionChunk(a, configOnly).Some? && DefinitionChunk(b, configOnly).Some?
    ensures DefinitionDigest(a, configOnly) == DefinitionDigest(b, configOnly) <==> SameDefinition(a, b, configOnly)
  {
    hide DefinitionChunk, SameOperatorsLegacy, SameOperatorsV3, SameCreatorV4, SameMid, SameExtra, SamePacked,
      SameDecoded, LegacyAddresses, ShapeV3, ShapeOfOperators, ShapeOfAddresses, DigestChunks, DigestChunk;
    DigestOfChunk(DefinitionChunk(a, configOnly).value);
    DigestOfChunk(DefinitionChunk(b, configOnly).value);
    if a.version != b.version {
      VersionsDiffer(a, b, configOnly);
    } else if a.version.minor <= 2 {
      LegacyBinds(a, b, configOnly);
    } else if a.version.minor <= 4 {
      V3Binds(a, b, configOnly);
    } else {
      DefinitionHashBinds(a, b, configOnly);
    }
  }

  /** The agreement on emptiness is needed: before v1.5 a lone fee recipient address and a lone withdrawal address give
      the same hash. */
  lemma LoneAddressesCollide(d: Definition, addr: Bytes, configOnly: bool)
    requires d.version.V1? && d.version.minor <= 4
    ensures DefinitionChunk(d.(validatorAddresses := [ValidatorAddresses(addr, [])]), configOnly)
            == DefinitionChunk(d.(validatorAddresses := [ValidatorAddresses([], addr)]), configOnly)
  {
    hide BytesChunks, Root, OperatorsV3, CreatorV4, ByteListChunk, Vals, AllSome, DigestChunks, OperatorsLegacy;
    var a, b := ValidatorAddresses(addr, []), ValidatorAddresses([], addr);
    var x, y := d.(validatorAddresses := [a]), d.(validatorAddresses := [b]);
    assert LegacyAddresses([a]) == Some(a) && LegacyAddresses([b]) == Some(b);
    assert BytesChunks([]) == [];
    if d.version.minor <= 2 {
      assert MidLegacy(x, a) == MidLegacy(y, b);
    } else if From0xHex(addr, ADDRESS_LEN).Some? {
      var c := BytesChunks(From0xHex(addr, ADDRESS_LEN).value);
      assert c + [] == [] + c;
      assert MidV3(x, a) == MidV3(y, b);
    }
  }

  // ----- validators before v1.5 -----

  ghost predicate SamePackedShares(a: seq<Bytes>, b: seq<Bytes>) {
    |a| == |b| && forall i | 0 <= i < |a| :: SamePacked(a[i], b[i])
  }

  /** v1.0 to v1.2 hash the key as a hex string, v1.3 and v1.4 as bytes, and neither more than the public shares. */
  ghost predicate SameEveryValidator(a: DistValidator, b: DistValidator, minor: Minor) {
    if minor <= 2 then a.pubkey == b.pubkey && SamePackedShares(a.pubshares, b.pubshares)
    else if minor <= 4 then SamePacked(a.pubkey, b.pubkey) && SamePubshares(a.pubshares, b.pubshares)
    else SameValidator(a, b, minor)
  }

  ghost predicate SameEveryValidators(a: seq<DistValidator>, b: seq<DistValidator>, minor: Minor) {
    |a| == |b| && forall i | 0 <= i < |a| :: SameEveryValidator(a[i], b[i], minor)
  }

  predicate ShapeOfShares(a: seq<Bytes>, b: seq<Bytes>) {
    && |a| < TWO64 && |b| < TWO64
    && forall i | 0 <= i < |a| && i < |b| :: SameEmptiness(a[i], b[i])
  }

  /** Up to v1.2 an empty public share adds no chunk. */
  predicate ShapeOfValidators(a: seq<DistValidator>, b: seq<DistValidator>) {
    && |a| < TWO64 && |b| < TWO64
    && forall i | 0 <= i < |a| && i < |b| :: ShapeOfShares(a[i].pubshares, b[i].pubshares)
  }

  lemma {:induction false} PutAllBinds(a: seq<Bytes>, b: seq<Bytes>)
    requires |a| == |b| && forall i | 0 <= i < |a| :: SameEmptiness(a[i], b[i])
    ensures |PutAll(a)| == |PutAll(b)|
    ensures PutAll(a) == PutAll(b) <==> SamePackedShares(a, b)
  {
    hide BytesChunks, SamePacked;
    if a != [] {
      var m := |a| - 1;
      PutAllBinds(a[..m], b[..m]);
      PackedIff(a[m], b[m]);
      TwoParts(PutAll(a[..m]), BytesChunks(a[m]), PutAll(b[..m]), BytesChunks(b[m]));
      LastShares(a, b);
    }
  }

  lemma LastShares(a: seq<Bytes>, b: seq<Bytes>)
    requires |a| == |b| > 0
    ensures var m := |a| - 1;
      SamePackedShares(a, b) <==> SamePackedShares(a[..m], b[..m]) && SamePacked(a[m], b[m])
  {
    hide SamePacked;
    var m := |a| - 1;
    if SamePackedShares(a[..m], b[..m]) && SamePacked(a[m], b[m]) {
      forall i | 0 <= i < |a| ensures SamePacked(a[i], b[i]) {
        if i < m {
          assert SamePacked(a[..m][i], b[..m][i]);
        }
      }
    }
  }

  /** A key before a list: whether there is a key shows, since the list is a hash beside a literal length. */
  lemma KeyedBinds(x: seq<Chunk>, s: Chunk, y: seq<Chunk>, t: Chunk)
    requires |x| <= 1 && |y| <= 1 && s.Node? && s.right.Leaf? && t.Node? && t.right.Leaf?
    ensures Root(x + [s], 0) == Root(y + [t], 0) <==> x == y && s == t
  {
    hide Root;
    if |x| == |y| {
      TwoParts(x, [s], y, [t]);
      RootBinds(x + [s], y + [t]);
      assert [s] == [t] <==> [s][0] == [t][0];
    } else if x == [] {
      assert x + [s] == [s] && y + [t] == [y[0], t];
      RootOfOne(s);
      PairRoot(y[0], t);
    } else {
      assert y + [t] == [t] && x + [s] == [x[0], s];
      RootOfOne(t);
      PairRoot(x[0], s);
    }
  }

  lemma HexKeyBinds(a: Bytes, b: Bytes)
    ensures BytesChunks(To0xHex(a)) == BytesChunks(To0xHex(b)) <==> a == b
  {
    hide BytesChunks;
    if SameEmptiness(a, b) {
      HexBinds(a, b);
    }
    assert |BytesChunks(To0xHex(a))| == if a == [] then 0 else 1;
    assert |BytesChunks(To0xHex(b))| == if b == [] then 0 else 1;
  }

  lemma ValidatorLegacyBinds(a: DistValidator, b: DistValidator)
    requires ShapeOfShares(a.pubshares, b.pubshares)
    ensures ValidatorLegacyChunk(a) == ValidatorLegacyChunk(b)
            <==> a.pubkey == b.pubkey && SamePackedShares(a.pubshares, b.pubshares)
  {
    hide BytesChunks, Root, WordChunk, PutAll, To0xHex;
    var m, n := |a.pubshares|, |b.pubshares|;
    if m == n {
      PutAllBinds(a.pubshares, b.pubshares);
    }
    MixinBinds(PutAll(a.pubshares), m, PutAll(b.pubshares), n);
    HexKeyBinds(a.pubkey, b.pubkey);
    WordIsLeaf(m);
    WordIsLeaf(n);
    KeyedBinds(BytesChunks(To0xHex(a.pubkey)), ListRoot(PutAll(a.pubshares), m, m).value,
               BytesChunks(To0xHex(b.pubkey)), ListRoot(PutAll(b.pubshares), n, n).value);
  }

  lemma SharesAreKeyed(shares: seq<Bytes>)
    requires PubsharesChunk(shares).Some?
    ensures PubsharesChunk(shares).value.Node? && PubsharesChunk(shares).value.right.Leaf?
  {
    hide Root, BytesNChunk;
  }

  lemma ValidatorV3Binds(a: DistValidator, b: DistValidator, minor: Minor)
    requires 3 <= minor <= 4 && ValidatorChunk(a, minor).Some? && ValidatorChunk(b, minor).Some?
    ensures ValidatorChunk(a, minor) == ValidatorChunk(b, minor) <==> SameEveryValidator(a, b, minor)
  {
    hide BytesChunks, Root, PubsharesChunk, SamePacked, SamePubshares;
    PackedIff(a.pubkey, b.pubkey);
    PubsharesBind(a.pubshares, b.pubshares);
    SharesAreKeyed(a.pubshares);
    SharesAreKeyed(b.pubshares);
    KeyedBinds(BytesChunks(a.pubkey), PubsharesChunk(a.pubshares).value,
               BytesChunks(b.pubkey), PubsharesChunk(b.pubshares).value);
  }

  lemma EveryValidatorsBind(a: seq<DistValidator>, b: seq<DistValidator>, minor: Minor)
    requires ValidatorsChunk(a, minor).Some? && ValidatorsChunk(b, minor).Some?
    requires minor <= 2 ==> ShapeOfValidators(a, b)
    ensures ValidatorsChunk(a, minor) == ValidatorsChunk(b, minor) <==> SameEveryValidators(a, b, minor)
  {
    if minor <= 2 {
      LegacyValidatorsBind(a, b, minor);
    } else {
      LaterValidatorsBind(a, b, minor);
    }
  }

  lemma LegacyValidatorsBind(a: seq<DistValidator>, b: seq<DistValidator>, minor: Minor)
    requires minor <= 2 && ShapeOfValidators(a, b)
    ensures ValidatorsChunk(a, minor) == ValidatorsChunk(b, minor) <==> SameEveryValidators(a, b, minor)
  {
    hide ValidatorLegacyChunk, ListRoot, ShapeOfShares, SamePackedShares;
    var x := seq(|a|, i requires 0 <= i < |a| => ValidatorLegacyChunk(a[i]));
    var y := seq(|b|, i requires 0 <= i < |b| => ValidatorLegacyChunk(b[i]));
    MixinBinds(x, |a|, y, |b|);
    forall i | 0 <= i < |a| && i < |b| ensures x[i] == y[i] <==> SameEveryValidator(a[i], b[i], minor) {
      ValidatorLegacyBinds(a[i], b[i]);
    }
    hide SameEveryValidator;
    assert |x| == |a| && |y| == |b|;
  }

  lemma LaterValidatorsBind(a: seq<DistValidator>, b: seq<DistValidator>, minor: Minor)
    requires minor >= 3 && ValidatorsChunk(a, minor).Some? && ValidatorsChunk(b, minor).Some?
    ensures ValidatorsChunk(a, minor) == ValidatorsChunk(b, minor) <==> SameEveryValidators(a, b, minor)
  {
    hide ValidatorChunk, ListRoot, SamePackedShares, SamePacked, SamePubshares, SameValidator;
    var x := seq(|a|, i requires 0 <= i < |a| => ValidatorChunk(a[i], minor));
    var y := seq(|b|, i requires 0 <= i < |b| => ValidatorChunk(b[i], minor));
    ListBinds(x, y, MAX_VALIDATORS);
    forall i | 0 <= i < |a| && i < |b| ensures x[i] == y[i] <==> SameEveryValidator(a[i], b[i], minor) {
      assert x[i].Some? && y[i].Some?;
      if minor <= 4 {
        ValidatorV3Binds(a[i], b[i], minor);
      } else {
        ValidatorBinds(a[i], b[i], minor);
      }
    }
    hide SameEveryValidator;
    assert |x| == |a| && |y| == |b|;
  }

  // ----- locks of all versions -----

  predicate SameLockShape(a: Lock, b: Lock)
    requires a.def.version.V1? && b.def.version.V1?
  {
    && SameShape(a.def, b.def, false)
    && (a.def.version.minor <= 2 && b.def.version.minor <= 2 ==> ShapeOfValidators(a.validators, b.validators))
  }

  /** Agreement of two locks on everything that the version hashes. */
  ghost predicate SameHashed(a: Lock, b: Lock)
    requires a.def.version.V1?
  {
    SameDefinition(a.def, b.def, false) && SameEveryValidators(a.validators, b.validators, a.def.version.minor)
  }

  lemma SameDefinitionVersion(a: Definition, b: Definition)
    requires a.version.V1? && SameDefinition(a, b, false)
    ensures a.version == b.version
  {
    hide SameOperatorsLegacy, SameOperatorsV3, SameCreatorV4, SameMid, SameExtra, SamePacked, SameDecoded,
      LegacyAddresses;
  }

  /** Two locks of any supported versions that agree on which byte fields are empty have the same lock hash if and only
      if they agree on everything that the version hashes of their definitions and of their validators. */
  lemma EveryLockHashBinds(a: Lock, b: Lock)
    requires a.def.version.V1? && b.def.version.V1? && SameLockShape(a, b)
    requires LockChunk(a).Some? && LockChunk(b).Some?
    ensures LockDigest(a) == LockDigest(b) <==> SameHashed(a, b)
  {
    hide DefinitionChunk, ValidatorsChunk, Root, SameDefinition, SameEveryValidators, ToDigest, SameShape,
      ShapeOfValidators;
    var da, db := DefinitionChunk(a.def, false).value, DefinitionChunk(b.def, false).value;
    var va := ValidatorsChunk(a.validators, a.def.version.minor).value;
    var vb := ValidatorsChunk(b.validators, b.def.version.minor).value;
    SameDigest(LockChunk(a).value, LockChunk(b).value);
    SameDigest(da, db);
    PairBinds(da, va, db, vb);
    EveryDefinitionHashBinds(a.def, b.def, false);
    if SameDefinition(a.def, b.def, false) {
      SameDefinitionVersion(a.def, b.def);
      EveryValidatorsBind(a.validators, b.validators, a.def.version.minor);
    }
  }
}
