/** Merkle binding of the lock hash: from v1.5 on, equal hashes mean equal definitions and equal validators, as far as
    the version hashes them. */
module LockBinding {
  import opened Prelude
  import opened Bytes
  import opened Merkle
  import opened Definition
  import opened DefinitionBinding
  import opened Lock

  // ----- what a lock hash determines -----

  /** The fee recipient is hashed with zeros on the right, and not at all if it is empty; the time in whole seconds. */
  ghost predicate SameRegistration(a: Registration, b: Registration) {
    && SamePacked(a.feeRecipient, b.feeRecipient) && a.gasLimit == b.gasLimit && a.timestamp.unix == b.timestamp.unix
    && SamePadded(a.pubkey, b.pubkey, LEN_PUBKEY)
  }

  ghost predicate SameBuilderRegistration(a: BuilderRegistration, b: BuilderRegistration) {
    SameRegistration(a.message, b.message) && SamePadded(a.signature, b.signature, LEN_BLS_SIG)
  }

  ghost predicate SameDeposit(a: DepositData, b: DepositData) {
    && SamePadded(a.pubkey, b.pubkey, LEN_PUBKEY)
    && SamePadded(a.withdrawalCredentials, b.withdrawalCredentials, LEN_WITHDRAW_CREDS)
    && a.amount == b.amount && SamePadded(a.signature, b.signature, LEN_BLS_SIG)
  }

  ghost predicate SameDeposits(a: seq<DepositData>, b: seq<DepositData>) {
    |a| == |b| && forall i | 0 <= i < |a| :: SameDeposit(a[i], b[i])
  }

  ghost predicate SamePubshares(a: seq<Bytes>, b: seq<Bytes>) {
    |a| == |b| && forall i | 0 <= i < |a| :: SamePadded(a[i], b[i], LEN_PUBKEY)
  }

  /** v1.6 added the first deposit, v1.7 the registration, and v1.8 the other deposits. */
  ghost predicate SameValidator(a: DistValidator, b: DistValidator, minor: Minor) {
    && SamePadded(a.pubkey, b.pubkey, LEN_PUBKEY) && SamePubshares(a.pubshares, b.pubshares)
    && (6 <= minor <= 7 ==> SameDeposit(FirstDeposit(a.partialDeposits), FirstDeposit(b.partialDeposits)))
    && (minor >= 7 ==> SameBuilderRegistration(a.registration, b.registration))
    && (minor >= 8 ==> SameDeposits(a.partialDeposits, b.partialDeposits))
  }

  ghost predicate SameValidators(a: seq<DistValidator>, b: seq<DistValidator>, minor: Minor) {
    |a| == |b| && forall i | 0 <= i < |a| :: SameValidator(a[i], b[i], minor)
  }

  // ----- field by field -----

  lemma PubkeyIsHash(b: Bytes)
    requires BytesNChunk(b, LEN_PUBKEY).Some?
    ensures BytesNChunk(b, LEN_PUBKEY).value.Node?
  {
    var p := LeftPad(b, LEN_PUBKEY);
    assert |p| == LEN_PUBKEY;
    BytesChunkIsTree(p);
    assert Depth(2) == 1 by {
      assert Depth(1) == 0;
    }
  }

  /** The leaves of a registration: an empty fee recipient moves the others one place to the left, where a hash meets a
      word. */
  lemma RegistrationBinds(a: Registration, b: Registration)
    requires RegistrationChunk(a).Some? && RegistrationChunk(b).Some?
    ensures RegistrationChunk(a) == RegistrationChunk(b) <==> SameRegistration(a, b)
  {
    hide BytesNChunk, WordChunk, Tree, BytesChunks, SamePacked, SamePadded, Depth;
    var pa, pb := BytesNChunk(a.pubkey, LEN_PUBKEY).value, BytesNChunk(b.pubkey, LEN_PUBKEY).value;
    var ra := [WordChunk(ToWord(a.gasLimit)), WordChunk(ToWord(a.timestamp.unix)), pa];
    var rb := [WordChunk(ToWord(b.gasLimit)), WordChunk(ToWord(b.timestamp.unix)), pb];
    var x, y := BytesChunks(a.feeRecipient) + ra, BytesChunks(b.feeRecipient) + rb;
    IntBinds(a.gasLimit, b.gasLimit);
    IntBinds(a.timestamp.unix, b.timestamp.unix);
    PaddedBinds(a.pubkey, b.pubkey, LEN_PUBKEY);
    assert ra == rb <==> ra[0] == rb[0] && ra[1] == rb[1] && ra[2] == rb[2];
    FeesMix(a, b, x, y, ra, rb);
    PackedIff(a.feeRecipient, b.feeRecipient);
    if |BytesChunks(a.feeRecipient)| == |BytesChunks(b.feeRecipient)| {
      TwoParts(BytesChunks(a.feeRecipient), ra, BytesChunks(b.feeRecipient), rb);
    }
  }

  /** With and without a fee recipient the hashes differ. */
  lemma FeesMix(a: Registration, b: Registration, x: seq<Chunk>, y: seq<Chunk>, ra: seq<Chunk>, rb: seq<Chunk>)
    requires BytesNChunk(a.pubkey, LEN_PUBKEY).Some? && BytesNChunk(b.pubkey, LEN_PUBKEY).Some?
    requires ra == [WordChunk(ToWord(a.gasLimit)), WordChunk(ToWord(a.timestamp.unix)),
                    BytesNChunk(a.pubkey, LEN_PUBKEY).value]
    requires rb == [WordChunk(ToWord(b.gasLimit)), WordChunk(ToWord(b.timestamp.unix)),
                    BytesNChunk(b.pubkey, LEN_PUBKEY).value]
    requires x == BytesChunks(a.feeRecipient) + ra && y == BytesChunks(b.feeRecipient) + rb
    ensures Root(x, 0) == Root(y, 0) <==> |BytesChunks(a.feeRecipient)| == |BytesChunks(b.feeRecipient)| && x == y
  {
    hide BytesNChunk, Root, BytesChunks;
    PubkeyIsHash(a.pubkey);
    PubkeyIsHash(b.pubkey);
    if |x| == |y| {
      if Root(x, 0) == Root(y, 0) {
        RootInjective(x, y, 0);
      }
    } else if |x| == 4 {
      Shifted(BytesChunks(a.feeRecipient), ra, rb);
    } else {
      Shifted(BytesChunks(b.feeRecipient), rb, ra);
    }
  }

  lemma Shifted(f: seq<Chunk>, r: seq<Chunk>, s: seq<Chunk>)
    requires |f| == 1 && |r| == |s| == 3 && r[1].Leaf? && s[2].Node?
    ensures Root(f + r, 0) != Root(s, 0) && Root(f + r, 0) != Root([] + s, 0)
  {
    hide Tree;
    DepthOfFour();
    assert [] + s == s;
    assert Pow2(2) == 4 by {
      assert Pow2(1) == 2;
    }
    if Root(f + r, 0) == Root(s, 0) {
      TreeInjective(f + r, s, 2, 2);
    }
  }

  lemma DepthOfFour()
    ensures Depth(3) == 2 && Depth(4) == 2
  {
    assert Depth(2) == 1 by {
      assert Depth(1) == 0;
    }
  }

  lemma BuilderRegistrationBinds(a: BuilderRegistration, b: BuilderRegistration)
    requires BuilderRegistrationChunk(a).Some? && BuilderRegistrationChunk(b).Some?
    ensures BuilderRegistrationChunk(a) == BuilderRegistrationChunk(b) <==> SameBuilderRegistration(a, b)
  {
    hide BytesNChunk, RegistrationChunk, Root, SameRegistration, SamePadded;
    var x := [RegistrationChunk(a.message), BytesNChunk(a.signature, LEN_BLS_SIG)];
    var y := [RegistrationChunk(b.message), BytesNChunk(b.signature, LEN_BLS_SIG)];
    CompositeBinds(x, y);
    assert x[0].Some? && x[1].Some? && y[0].Some? && y[1].Some?;
    assert x == y <==> x[0] == y[0] && x[1] == y[1];
    RegistrationBinds(a.message, b.message);
    PaddedBinds(a.signature, b.signature, LEN_BLS_SIG);
  }

  lemma DepositFieldsBind(a: DepositData, b: DepositData)
    requires AllSome(DepositFields(a)) && AllSome(DepositFields(b))
    ensures DepositFields(a) == DepositFields(b) <==> SameDeposit(a, b)
  {
    hide BytesNChunk, WordChunk, SamePadded;
    var x, y := DepositFields(a), DepositFields(b);
    assert x[0].Some? && x[1].Some? && x[3].Some? && y[0].Some? && y[1].Some? && y[3].Some?;
    PaddedBinds(a.pubkey, b.pubkey, LEN_PUBKEY);
    PaddedBinds(a.withdrawalCredentials, b.withdrawalCredentials, LEN_WITHDRAW_CREDS);
    IntBinds(a.amount, b.amount);
    PaddedBinds(a.signature, b.signature, LEN_BLS_SIG);
    assert x == y <==> x[0] == y[0] && x[1] == y[1] && x[2] == y[2] && x[3] == y[3];
  }

  lemma DepositBinds(a: DepositData, b: DepositData)
    requires DepositChunk(a).Some? && DepositChunk(b).Some?
    ensures DepositChunk(a) == DepositChunk(b) <==> SameDeposit(a, b)
  {
    hide DepositFields, SameDeposit, Root;
    FieldCount(a);
    FieldCount(b);
    CompositeBinds(DepositFields(a), DepositFields(b));
    DepositFieldsBind(a, b);
  }

  lemma FieldCount(a: DepositData)
    ensures |DepositFields(a)| == 4
  {
  }

  lemma DepositsBind(a: seq<DepositData>, b: seq<DepositData>)
    requires DepositsChunk(a).Some? && DepositsChunk(b).Some?
    ensures DepositsChunk(a) == DepositsChunk(b) <==> SameDeposits(a, b)
  {
    hide DepositChunk, SameDeposit, ListRoot;
    var x := seq(|a|, i requires 0 <= i < |a| => DepositChunk(a[i]));
    var y := seq(|b|, i requires 0 <= i < |b| => DepositChunk(b[i]));
    ListBinds(x, y, MAX_DEPOSIT_AMOUNTS);
    forall i | 0 <= i < |a| && i < |b| ensures x[i] == y[i] <==> SameDeposit(a[i], b[i]) {
      assert x[i].Some? && y[i].Some?;
      DepositBinds(a[i], b[i]);
    }
    assert |x| == |a| && |y| == |b|;
  }

  lemma PubsharesBind(a: seq<Bytes>, b: seq<Bytes>)
    requires PubsharesChunk(a).Some? && PubsharesChunk(b).Some?
    ensures PubsharesChunk(a) == PubsharesChunk(b) <==> SamePubshares(a, b)
  {
    hide BytesNChunk, SamePadded, ListRoot;
    var x := seq(|a|, i requires 0 <= i < |a| => BytesNChunk(a[i], LEN_PUBKEY));
    var y := seq(|b|, i requires 0 <= i < |b| => BytesNChunk(b[i], LEN_PUBKEY));
    ListBinds(x, y, MAX_OPERATORS);
    forall i | 0 <= i < |a| && i < |b| ensures x[i] == y[i] <==> SamePadded(a[i], b[i], LEN_PUBKEY) {
      assert x[i].Some? && y[i].Some?;
      PaddedBinds(a[i], b[i], LEN_PUBKEY);
    }
    assert |x| == |a| && |y| == |b|;
  }

  // ----- validators and locks -----

  /** The fields of a validator behind its key and its public shares. */
  function RestFields(v: DistValidator, minor: Minor): (fields: seq<Option<Chunk>>) {
    if minor <= 7 then MiddleFields(v, minor)
    else [DepositsChunk(v.partialDeposits), BuilderRegistrationChunk(v.registration)]
  }

  lemma ValidatorFields(v: DistValidator, minor: Minor)
    requires minor >= 5
    ensures ValidatorChunk(v, minor)
            == Composite([BytesNChunk(v.pubkey, LEN_PUBKEY), PubsharesChunk(v.pubshares)] + RestFields(v, minor))
  {
    hide Composite, BytesNChunk, PubsharesChunk, DepositsChunk, BuilderRegistrationChunk, MiddleFields;
    if minor >= 8 {
      assert [BytesNChunk(v.pubkey, LEN_PUBKEY), PubsharesChunk(v.pubshares), DepositsChunk(v.partialDeposits),
              BuilderRegistrationChunk(v.registration)]
             == [BytesNChunk(v.pubkey, LEN_PUBKEY), PubsharesChunk(v.pubshares)] + RestFields(v, minor);
    }
  }

  lemma RestBinds(a: DistValidator, b: DistValidator, minor: Minor)
    requires minor >= 5 && AllSome(RestFields(a, minor)) && AllSome(RestFields(b, minor))
    ensures |RestFields(a, minor)| == |RestFields(b, minor)|
    ensures RestFields(a, minor) == RestFields(b, minor) <==>
      && (6 <= minor <= 7 ==> SameDeposit(FirstDeposit(a.partialDeposits), FirstDeposit(b.partialDeposits)))
      && (minor >= 7 ==> SameBuilderRegistration(a.registration, b.registration))
      && (minor >= 8 ==> SameDeposits(a.partialDeposits, b.partialDeposits))
  {
    hide DepositChunk, DepositsChunk, BuilderRegistrationChunk, SameDeposit, SameDeposits, SameBuilderRegistration,
      DepositFields, FirstDeposit;
    var x, y := RestFields(a, minor), RestFields(b, minor);
    var da, db := FirstDeposit(a.partialDeposits), FirstDeposit(b.partialDeposits);
    FieldCount(da);
    FieldCount(db);
    if minor == 6 {
      DepositFieldsBind(da, db);
    } else if minor >= 7 {
      assert x[0].Some? && x[1].Some? && y[0].Some? && y[1].Some?;
      assert x == y <==> x[0] == y[0] && x[1] == y[1];
      BuilderRegistrationBinds(a.registration, b.registration);
      if minor == 7 {
        DepositBinds(da, db);
      } else {
        DepositsBind(a.partialDeposits, b.partialDeposits);
      }
    }
  }

  lemma ValidatorBinds(a: DistValidator, b: DistValidator, minor: Minor)
    requires minor >= 5 && ValidatorChunk(a, minor).Some? && ValidatorChunk(b, minor).Some?
    ensures ValidatorChunk(a, minor) == ValidatorChunk(b, minor) <==> SameValidator(a, b, minor)
  {
    ValidatorFields(a, minor);
    ValidatorFields(b, minor);
    hide ValidatorChunk, BytesNChunk, PubsharesChunk, RestFields, Root, SamePadded, SamePubshares, SameDeposit,
      SameDeposits, SameBuilderRegistration, FirstDeposit;
    var ha, hb := [BytesNChunk(a.pubkey, LEN_PUBKEY), PubsharesChunk(a.pubshares)],
                  [BytesNChunk(b.pubkey, LEN_PUBKEY), PubsharesChunk(b.pubshares)];
    var ra, rb := RestFields(a, minor), RestFields(b, minor);
    ValsConcat(ha, ra);
    ValsConcat(hb, rb);
    RestBinds(a, b, minor);
    CompositeBinds(ha + ra, hb + rb);
    TwoParts(ha, ra, hb, rb);
    assert ha[0].Some? && ha[1].Some? && hb[0].Some? && hb[1].Some?;
    assert ha == hb <==> ha[0] == hb[0] && ha[1] == hb[1];
    PaddedBinds(a.pubkey, b.pubkey, LEN_PUBKEY);
    PubsharesBind(a.pubshares, b.pubshares);
  }

  lemma ValidatorsBind(a: seq<DistValidator>, b: seq<DistValidator>, minor: Minor)
    requires minor >= 5 && ValidatorsChunk(a, minor).Some? && ValidatorsChunk(b, minor).Some?
    ensures ValidatorsChunk(a, minor) == ValidatorsChunk(b, minor) <==> SameValidators(a, b, minor)
  {
    hide ValidatorChunk, SameValidator, ListRoot;
    var x := seq(|a|, i requires 0 <= i < |a| => ValidatorChunk(a[i], minor));
    var y := seq(|b|, i requires 0 <= i < |b| => ValidatorChunk(b[i], minor));
    ListBinds(x, y, MAX_VALIDATORS);
    forall i | 0 <= i < |a| && i < |b| ensures x[i] == y[i] <==> SameValidator(a[i], b[i], minor) {
      assert x[i].Some? && y[i].Some?;
      ValidatorBinds(a[i], b[i], minor);
    }
    assert |x| == |a| && |y| == |b|;
  }

  lemma SameDigest(c: Chunk, d: Chunk)
    ensures ToDigest(c) == ToDigest(d) <==> c == d
  {
  }

  /** Two locks of versions v1.5 to v1.10 have the same lock hash if and only if their definitions agree on the version
      and on every hashed field and their validators agree on everything that the version hashes of them. */
  lemma LockHashBinds(a: Lock, b: Lock)
    requires a.def.version.V1? && a.def.version.minor >= 5 && b.def.version.V1? && b.def.version.minor >= 5
    requires LockChunk(a).Some? && LockChunk(b).Some?
    ensures LockDigest(a) == LockDigest(b) <==>
      SameHashedFields(a.def, b.def, false) && SameValidators(a.validators, b.validators, a.def.version.minor)
  {
    hide DefinitionChunk, ValidatorsChunk, Root, SameValidators, SameHashedFields, ToDigest;
    var da, db := DefinitionChunk(a.def, false).value, DefinitionChunk(b.def, false).value;
    var va := ValidatorsChunk(a.validators, a.def.version.minor).value;
    var vb := ValidatorsChunk(b.validators, b.def.version.minor).value;
    SameDigest(LockChunk(a).value, LockChunk(b).value);
    SameDigest(da, db);
    PairBinds(da, va, db, vb);
    DefinitionHashBinds(a.def, b.def, false);
    if SameHashedFields(a.def, b.def, false) {
      SameVersion(a.def, b.def);
      ValidatorsBind(a.validators, b.validators, a.def.version.minor);
    }
  }

  lemma SameVersion(a: Definition, b: Definition)
    requires a.version.V1? && SameHashedFields(a, b, false)
    ensures a.version == b.version
  {
    hide SameMid, SameExtra;
  }

  lemma PairBinds(a: Chunk, b: Chunk, c: Chunk, d: Chunk)
    ensures Root([a, b], 0) == Root([c, d], 0) <==> a == c && b == d
  {
    hide Root;
    if Root([a, b], 0) == Root([c, d], 0) {
      RootInjective([a, b], [c, d], 0);
      assert [a, b][0] == [c, d][0] && [a, b][1] == [c, d][1];
    }
  }
}
