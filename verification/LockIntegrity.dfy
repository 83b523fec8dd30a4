/** What the multi-signature of a lock protects: whoever accepts a lock with the multi-signature of a finished ceremony
    accepts that ceremony's lock, and a stored lock is accepted exactly if it was before. */
module LockIntegrity {
  import opened Prelude
  import opened Bytes
  import opened Merkle
  import opened Definition
  import opened DefinitionBinding
  import opened DefinitionStore
  import opened DefinitionVerify
  import opened Lock
  import opened LockBinding
  import opened LockStore
  import opened LockVerify
  import opened LegacyBinding
  import opened NodeSigs
  import opened Shares
  import opened Aggregation
  import opened DistValidators
  import opened Ceremony
  import Mailbox
  import opened Frost
  import opened FrostRounds
  import opened Agreement

  // ----- tampering -----

  /** No multi-signature verifies for another hash, under whatever keys. */
  ghost predicate SignsOnly(b: Bls, sig: Bytes, h: Digest) {
    forall keys: seq<PubKey>, g: Digest | b.verifyAggregate(keys, sig, g) :: g == h
  }

  /** An accepted lock with the multi-signature for some hash has that hash. */
  lemma AcceptedLockHasHash(b: Bls, e: Eth2, k1: K1, eip: Eip712, l: Lock, h: Digest)
    requires l.signatureAggregate != [] && SignsOnly(b, l.signatureAggregate, h) && LockOk(b, e, k1, eip, l)
    ensures LockDigest(l) == Some(h)
  {
    hide LockDigest, Collect, RegistrationsOk, NodeSignaturesOk, DefinitionSigsOk;
  }

  lemma HashNeedsVersion(l: Lock)
    requires LockDigest(l).Some?
    ensures l.def.version.V1? && LockChunk(l).Some?
  {
    hide DefinitionChunk, ValidatorsChunk, Root;
  }

  /** A later lock and a lock of any version need not agree on empty fields. */
  lemma LaterShape(a: Lock, b: Lock)
    requires a.def.version.V1? && a.def.version.minor >= 5 && b.def.version.V1?
    ensures SameLockShape(a, b)
  {
  }

  lemma FinishedVersion(s: Setup, o: Outcome)
    requires Finished(s, o)
    ensures s.def.version.V1? && s.def.version.minor >= 6
  {
  }

  /** Whatever lock is presented with the multi-signature of a finished ceremony, VerifySignatures accepts it only if it
      has that ceremony's definition and validators, in every field that the version hashes. */
  lemma TamperedLockIsRejected(s: Setup, o: Outcome, k1: K1, eip: Eip712, l: Lock)
    requires s.Valid() && Finished(s, o) && SharesInRange(o.shares, |s.def.operators|)
    requires l.signatureAggregate == o.lock.signatureAggregate
    requires SignsOnly(s.bls, o.lock.signatureAggregate, o.lock.lockHash)
    ensures o.lock.def == s.def && s.def.version.V1?
    ensures LockOk(s.bls, s.eth, k1, eip, l) ==> SameHashed(o.lock, l)
  {
    FinishedShape(s, o);
    FinishedVersion(s, o);
    FinishedAggregateVerifies(s, o);
    hide *;
    if LockOk(s.bls, s.eth, k1, eip, l) {
      AcceptedLockHasHash(s.bls, s.eth, k1, eip, l, o.lock.lockHash);
      HashNeedsVersion(l);
      HashNeedsVersion(o.lock);
      LaterShape(o.lock, l);
      EveryLockHashBinds(o.lock, l);
    }
  }

  /** So nobody is paid but who the ceremony agreed on: the fee recipients and the withdrawal addresses of an accepted
      lock decode to those of the ceremony's definition, and its validators have the ceremony's keys. */
  lemma AcceptedLockPays(s: Setup, o: Outcome, k1: K1, eip: Eip712, l: Lock, i: nat)
    requires s.Valid() && Finished(s, o) && SharesInRange(o.shares, |s.def.operators|)
    requires l.signatureAggregate == o.lock.signatureAggregate
    requires SignsOnly(s.bls, o.lock.signatureAggregate, o.lock.lockHash) && LockOk(s.bls, s.eth, k1, eip, l)
    requires i < |o.shares|
    ensures |l.validators| == |o.shares| && |l.def.validatorAddresses| == |s.def.validatorAddresses| > i
    ensures LeftPad(l.validators[i].pubkey, 48) == LeftPad(o.shares[i].pubkey, 48)
    ensures SameAddress(s.def.validatorAddresses[i].feeRecipient, l.def.validatorAddresses[i].feeRecipient)
    ensures SameAddress(s.def.validatorAddresses[i].withdrawal, l.def.validatorAddresses[i].withdrawal)
  {
    TamperedLockIsRejected(s, o, k1, eip, l);
    FinishedShape(s, o);
    FinishedVersion(s, o);
    FinishedMeaning(s, o, i);
    hide Finished, LockOk, SignsOnly, SamePubshares, SameExtra, SameOperators, SameCreator, SameAddress, LockDigest,
      InKeyOrder, DepositMeans, RegistrationMeans;
    assert SameEveryValidator(o.lock.validators[i], l.validators[i], s.def.version.minor);
    assert SameAddressPair(s.def.validatorAddresses[i], l.def.validatorAddresses[i]);
  }

  /** In particular no lock but that of the ceremony, whichever node of it made the multi-signature. */
  lemma CeremonyIsTamperProof<C(!new)>(
      c: Cluster, lib: Library<C>, s: Setup, bodies1: map<Mailbox.Peer, Round1Casts>,
      bodies2: map<Mailbox.Peer, Round2Casts>, x: Node<C>, k1: K1, eip: Eip712, l: Lock)
    requires Fits(c, s) && Participates(c, lib, s, bodies1, bodies2, x)
    requires var own := x.outcome.lock;
      l.signatureAggregate == own.signatureAggregate && SignsOnly(s.bls, own.signatureAggregate, own.lockHash)
    ensures x.outcome.lock.def == s.def && s.def.version.V1?
    ensures LockOk(s.bls, s.eth, k1, eip, l) ==> SameHashed(x.outcome.lock, l)
  {
    ParticipantFinishes(c, lib, s, bodies1, bodies2, x);
    HeardTheSame(c, lib, s, bodies1, bodies2, x, x);
    hide Generated, Finished, SameBodies, SameShares, SharesInRange, Processed, RoundRun, ExchangeRun, Aggregated,
      LockOk, SignsOnly, SameHashed;
    SharesAgree(c, lib, x.keys, x.keys);
    TamperedLockIsRejected(s, x.outcome, k1, eip, l);
  }

  // ----- storing -----

  /** The definition has nothing that the record of its version drops. */
  predicate FitsRecord(d: Definition)
    requires d.version.V1?
  {
    var minor := d.version.minor;
    && (minor <= 3 ==> d.creator == Creator([], []))
    && (minor <= 4 ==> |d.validatorAddresses| == if d.numValidators > 0 then d.numValidators else 0)
    && (minor <= 7 ==> d.depositAmounts == [])
    && (minor <= 8 ==> d.consensusProtocol == [])
    && (minor <= 9 ==> d.targetGasLimit == 0 && !d.compounding)
  }

  lemma FittingIsKept(d: Definition)
    requires d.version.V1? && VerifiesHashes(d) && FitsRecord(d)
    ensures d.version.minor <= 4 ==> LegacyAddresses(d.validatorAddresses).Some?
    ensures SetDefinitionHashes(d) == Some(d) && Stored(d) == d && KeepsAddresses(d)
  {
    HashNeedsLegacyAddresses(d);
    hide DefinitionDigest;
    assert d.(configHash := d.configHash) == d && d.(definitionHash := d.definitionHash) == d;
    if d.version.minor <= 4 {
      var a := LegacyAddresses(d.validatorAddresses).value;
      assert Repeat(a, d.numValidators) == d.validatorAddresses;
    }
  }

  /** The records of v1.6 and before have no registrations and no node signatures. */
  predicate NoneDropped(l: Lock) {
    l.nodeSignatures == [] && forall i | 0 <= i < |l.validators| :: Unregistered(l.validators[i])
  }

  /** The registrations' times are in whole seconds. */
  predicate WholeSeconds(l: Lock) {
    forall i | 0 <= i < |l.validators| :: l.validators[i].registration.message.timestamp.nanos == 0
  }

  lemma StoredRegistrations(b: Bls, e: Eth2, l: Lock, m: Lock)
    requires l.def.version.V1? && m.def == l.def && m.validators == StoredValidators(l.validators, l.def.version.minor)
    requires l.def.version.minor >= 7 ==> WholeSeconds(l)
    ensures RegistrationsOk(b, e, m) && (l.def.version.minor <= 6 ==>
              forall i | 0 <= i < |l.validators| :: Unregistered(l.validators[i]))
            <==> RegistrationsOk(b, e, l)
  {
    var minor := l.def.version.minor;
    forall i | 0 <= i < |l.validators|
      ensures minor <= 6 ==> RegistrationOk(b, e, m, i)
      ensures minor <= 6 ==> (RegistrationOk(b, e, l, i) <==> Unregistered(l.validators[i]))
      ensures minor >= 7 ==> (RegistrationOk(b, e, m, i) <==> RegistrationOk(b, e, l, i))
    {
      assert m.validators[i] == StoredValidator(l.validators[i], minor);
    }
    hide RegistrationOk, Unregistered, StoredValidator;
    assert |m.validators| == |l.validators|;
    if RegistrationsOk(b, e, m) {
      forall i | 0 <= i < |l.validators| ensures minor >= 7 ==> RegistrationOk(b, e, l, i) {
        assert RegistrationOk(b, e, m, i);
      }
    }
    if RegistrationsOk(b, e, l) {
      forall i | 0 <= i < |l.validators|
        ensures RegistrationOk(b, e, m, i) && (minor <= 6 ==> Unregistered(l.validators[i]))
      {
        assert RegistrationOk(b, e, l, i);
      }
    }
  }

  lemma {:induction false} StoredPubShares(vs: seq<DistValidator>, minor: Minor)
    ensures AllPubShares(StoredValidators(vs, minor)) == AllPubShares(vs)
    ensures forall i | 0 <= i < |vs| :: PubSharesOk(StoredValidators(vs, minor)[i]) == PubSharesOk(vs[i])
  {
    if vs != [] {
      StoredPubShares(vs[1..], minor);
      assert StoredValidators(vs, minor)[1..] == StoredValidators(vs[1..], minor);
    }
  }

  lemma StoredLockOf(l: Lock)
    requires l.def.version.V1? && VerifiesLockHashes(l) && FitsRecord(l.def)
    ensures SetDefinitionHashes(l.def).Some? && LockChunk(l).Some?
    ensures l.def.version.minor <= 4 ==> LegacyAddresses(l.def.validatorAddresses).Some?
    ensures StoredLock(l) == l.(validators := StoredValidators(l.validators, l.def.version.minor),
                                nodeSignatures := if l.def.version.minor < 7 then [] else l.nodeSignatures)
    ensures LockDigest(StoredLock(l)) == LockDigest(l)
  {
    FittingIsKept(l.def);
    hide DefinitionChunk, Root, ValidatorsChunk, Stored, LegacyAddresses, StoredValidators, FitsRecord;
    StoredValidatorsHashTheSame(l.validators, l.def.version.minor);
  }

  /** A lock with valid hashes that fits its record and is readable is read back as a lock that VerifySignatures accepts
      exactly if it accepts the original, except that a record before v1.7 forgives registrations and node signatures,
      which it drops. */
  lemma StoredLockVerifies(b: Bls, e: Eth2, k1: K1, eip: Eip712, l: Lock)
    requires l.def.version.V1? && VerifiesLockHashes(l) && FitsRecord(l.def) && Readable(l.def)
    requires l.def.version.minor >= 7 ==> WholeSeconds(l)
    ensures MarshalLock(l).Some? && UnmarshalLock(MarshalLock(l).value).Some?
    ensures var m := UnmarshalLock(MarshalLock(l).value).value;
      LockOk(b, e, k1, eip, l)
      <==> LockOk(b, e, k1, eip, m) && (l.def.version.minor <= 6 && l.signatureAggregate != [] ==> NoneDropped(l))
  {
    StoredLockOf(l);
    LockPersists(l);
    var m, minor := StoredLock(l), l.def.version.minor;
    AllPubSharesAreCollected(l.validators);
    AllPubSharesAreCollected(m.validators);
    StoredPubShares(l.validators, minor);
    StoredRegistrations(b, e, l, m);
    StoredNodeSignatures(k1, l, m);
    hide StoredLock, LockDigest, Collect, RegistrationsOk, NodeSignaturesOk, DefinitionSigsOk, AllPubShares,
      StoredValidator, PubSharesOk, Unregistered, VerifiesLockHashes, MarshalLock, UnmarshalLock;
  }

  lemma StoredNodeSignatures(k1: K1, l: Lock, m: Lock)
    requires l.def.version.V1? && m.def == l.def && m.lockHash == l.lockHash
    requires m.nodeSignatures == if l.def.version.minor < 7 then [] else l.nodeSignatures
    ensures NodeSignaturesOk(k1, m) && (l.def.version.minor <= 6 ==> l.nodeSignatures == [])
            <==> NodeSignaturesOk(k1, l)
  {
  }

  /** The config hash has to be current: a lock whose multi-signature is for its own hash only, but whose config hash is
      not that of its definition, is rejected once it is read back. */
  lemma StaleConfigHashIsRejected(b: Bls, e: Eth2, k1: K1, eip: Eip712, l: Lock)
    requires LockChunk(l).Some? && SetDefinitionHashes(l.def).Some?
    requires l.def.version.V1? && Readable(l.def) && KeepsAddresses(l.def) && !ConfigHashCurrent(l.def)
    requires l.signatureAggregate != [] && SignsOnly(b, l.signatureAggregate, LockDigest(l).value)
    ensures MarshalLock(l).Some? && UnmarshalLock(MarshalLock(l).value).Some?
    ensures !LockOk(b, e, k1, eip, UnmarshalLock(MarshalLock(l).value).value)
  {
    LockPersists(l);
    StoredLockHashes(l);
    var m := StoredLock(l);
    assert m.signatureAggregate == l.signatureAggregate && LockDigest(m) != LockDigest(l);
    hide StoredLock, LockDigest, LockOk, SignsOnly, ConfigHashCurrent, MarshalLock, UnmarshalLock;
    if LockOk(b, e, k1, eip, m) {
      AcceptedLockHasHash(b, e, k1, eip, m, LockDigest(l).value);
    }
  }
}
