/** Verification of a lock (cluster/lock.go). A Go runtime panic, on a key or a fork version that is too short or on a
    validator without addresses, counts as a failure. */
module LockVerify {
  import opened Prelude
  import opened Bytes
  import opened Merkle
  import opened Definition
  import opened Lock
  import opened DefinitionVerify
  import opened NodeSigs
  import opened Aggregation
  import opened DistValidators

  predicate Unregistered(v: DistValidator) {
    v.registration.signature == [] || v.registration.message.feeRecipient == [] || v.registration.message.pubkey == []
  }

  predicate BeforeV1x7(d: Definition) {
    d.version.V1? && d.version.minor <= 6
  }

  /** The registration of validator i: absent before v1.7, and later signed by the validator over the message that its
      key, its fee recipient in the definition and the registration's own gas limit and time make. */
  predicate RegistrationOk(b: Bls, e: Eth2, l: Lock, i: nat)
    requires i < |l.validators|
  {
    var v := l.validators[i];
    if BeforeV1x7(l.def) then Unregistered(v)
    else
      && !Unregistered(v) && |v.pubkey| == LEN_PUBKEY && |v.registration.signature| == LEN_BLS_SIG
      && i < |l.def.validatorAddresses| && |l.def.forkVersion| >= LEN_FORK_VERSION
      && var m := NewRegistration(e, v.pubkey, l.def.validatorAddresses[i].feeRecipient,
                                  ToWord(v.registration.message.gasLimit), v.registration.message.timestamp);
         m.Some? && (
           var h := e.registrationRoot(m.value, l.def.forkVersion);
           h.Some? && b.verify(v.pubkey, h.value, v.registration.signature))
  }

  predicate RegistrationsOk(b: Bls, e: Eth2, l: Lock) {
    forall i | 0 <= i < |l.validators| :: RegistrationOk(b, e, l, i)
  }

  /** verifyBuilderRegistrations. */
  method VerifyBuilderRegistrations(b: Bls, e: Eth2, l: Lock) returns (ok: bool)
    ensures ok == RegistrationsOk(b, e, l)
  {
    for i := 0 to |l.validators|
      invariant forall k | 0 <= k < i :: RegistrationOk(b, e, l, k)
    {
      assert RegistrationsOk(b, e, l) ==> RegistrationOk(b, e, l, i);
      var val := l.validators[i];
      var noRegistration :=
        |val.registration.signature| == 0 || |val.registration.message.feeRecipient| == 0
            || |val.registration.message.pubkey| == 0;
      if BeforeV1x7(l.def) {
        if !noRegistration {
          return false;
        }
        continue;
      }
      if noRegistration {
        return false;
      }
      if |val.pubkey| < LEN_PUBKEY || i >= |l.def.validatorAddresses| || |l.def.forkVersion| < LEN_FORK_VERSION {
        return false;
      }
      var regMsg := NewRegistration(e, val.pubkey[..LEN_PUBKEY], l.def.validatorAddresses[i].feeRecipient,
                                    ToWord(val.registration.message.gasLimit), val.registration.message.timestamp);
      assert |val.pubkey| == LEN_PUBKEY ==> val.pubkey[..LEN_PUBKEY] == val.pubkey;
      if regMsg == None {
        return false;
      }
      var sigRoot := e.registrationRoot(regMsg.value, l.def.forkVersion);
      if sigRoot == None || |val.pubkey| != LEN_PUBKEY || |val.registration.signature| != LEN_BLS_SIG {
        return false;
      }
      if !b.verify(val.pubkey, sigRoot.value, val.registration.signature) {
        return false;
      }
    }
    return true;
  }

  function PubSharesOfValidator(): (f: DistValidator -> seq<Bytes>) {
    (v: DistValidator) => v.pubshares
  }

  predicate PubSharesOk(v: DistValidator) {
    forall i | 0 <= i < |v.pubshares| :: |v.pubshares[i]| == LEN_PUBKEY
  }

  /** VerifySignatures returns no error. */
  predicate LockOk(b: Bls, e: Eth2, k1: K1, eip: Eip712, l: Lock)
  {
    && DefinitionSigsOk(eip, l.def)
    && if l.signatureAggregate == [] then l.def.version.V1? && l.def.version.minor <= 1
       else
         && |l.signatureAggregate| == LEN_BLS_SIG
         && (forall i | 0 <= i < |l.validators| :: PubSharesOk(l.validators[i]))
         && LockDigest(l).Some?
         && b.verifyAggregate(Collect(l.validators, PubSharesOfValidator()), l.signatureAggregate, LockDigest(l).value)
         && RegistrationsOk(b, e, l) && NodeSignaturesOk(k1, l)
  }

  /** The loop over the public shares of all validators. */
  method GatherPubShares(vs: seq<DistValidator>) returns (r: Option<seq<Bytes>>)
    ensures r.Some? <==> forall i | 0 <= i < |vs| :: PubSharesOk(vs[i])
    ensures r.Some? ==> r.value == Collect(vs, PubSharesOfValidator())
  {
    var pubkeys := [];
    for i := 0 to |vs|
      invariant pubkeys == Collect(vs[..i], PubSharesOfValidator())
      invariant forall k | 0 <= k < i :: PubSharesOk(vs[k])
    {
      for j := 0 to |vs[i].pubshares|
        invariant pubkeys == Collect(vs[..i], PubSharesOfValidator()) + vs[i].pubshares[..j]
        invariant forall k | 0 <= k < j :: |vs[i].pubshares[k]| == LEN_PUBKEY
      {
        if |vs[i].pubshares[j]| != LEN_PUBKEY {
          assert !PubSharesOk(vs[i]);
          return None;
        }
        pubkeys := pubkeys + [vs[i].pubshares[j]];
      }
      assert vs[..i + 1][..i] == vs[..i];
    }
    assert vs[..|vs|] == vs;
    return Some(pubkeys);
  }

  /** VerifySignatures. */
  method VerifySignatures(b: Bls, e: Eth2, k1: K1, eip: Eip712, l: Lock) returns (ok: bool)
    ensures ok == LockOk(b, e, k1, eip, l)
  {
    hide RegistrationsOk, NodeSignaturesOk, LockDigest, Collect, DefinitionSigsOk;
    ok := VerifyDefinition(eip, l.def);
    if !ok {
      return false;
    }
    if |l.signatureAggregate| == 0 {
      return l.def.version.V1? && l.def.version.minor <= 1;
    }
    if |l.signatureAggregate| != LEN_BLS_SIG {
      return false;
    }
    var pubkeys := GatherPubShares(l.validators);
    if pubkeys == None {
      return false;
    }
    var hash := HashLock(l);
    if hash == None {
      return false;
    }
    if !b.verifyAggregate(pubkeys.value, l.signatureAggregate, hash.value) {
      return false;
    }
    ok := VerifyBuilderRegistrations(b, e, l);
    if !ok {
      return false;
    }
    ok := VerifyNodeSignatures(k1, l);
  }

  // ----- what is rejected -----

  /** The public shares of all validators, one validator after the other. */
  ghost function AllPubShares(vs: seq<DistValidator>): (keys: seq<Bytes>) {
    if vs == [] then [] else vs[0].pubshares + AllPubShares(vs[1..])
  }

  lemma {:induction false} AllPubSharesSnoc(vs: seq<DistValidator>)
    requires vs != []
    ensures AllPubShares(vs) == AllPubShares(vs[..|vs| - 1]) + vs[|vs| - 1].pubshares
  {
    var m := |vs| - 1;
    if m > 0 {
      AllPubSharesSnoc(vs[1..]);
      assert vs[1..][..m - 1] == vs[..m][1..] && vs[1..][m - 1] == vs[m];
    }
  }

  lemma {:induction false} AllPubSharesAreCollected(vs: seq<DistValidator>)
    ensures Collect(vs, PubSharesOfValidator()) == AllPubShares(vs)
  {
    if vs != [] {
      AllPubSharesAreCollected(vs[..|vs| - 1]);
      AllPubSharesSnoc(vs);
    }
  }

  lemma AggregateIsOfContents(l: Lock, sig: Bytes)
    ensures LockDigest(l.(signatureAggregate := sig)) == LockDigest(l)
  {
    hide DefinitionChunk, ValidatorsChunk, Root;
  }

  /** A multi-signature that does not verify under the public shares for the hash of the lock is rejected. */
  lemma ForgedAggregateIsRejected(b: Bls, e: Eth2, k1: K1, eip: Eip712, l: Lock, sig: Bytes)
    requires sig != []
    requires var h := LockDigest(l); h == None || !b.verifyAggregate(AllPubShares(l.validators), sig, h.value)
    ensures !LockOk(b, e, k1, eip, l.(signatureAggregate := sig))
  {
    hide LockDigest, Collect, RegistrationsOk, NodeSignaturesOk, DefinitionSigsOk, AllPubShares, PubSharesOk;
    AggregateIsOfContents(l, sig);
    AllPubSharesAreCollected(l.validators);
  }

  /** Only v1.0 and v1.1 do without a multi-signature, and every other length than 96 is rejected. */
  lemma MissingAggregateIsRejected(b: Bls, e: Eth2, k1: K1, eip: Eip712, l: Lock)
    requires |l.signatureAggregate| != 96
    requires l.signatureAggregate != [] || !(l.def.version.V1? && l.def.version.minor <= 1)
    ensures !LockOk(b, e, k1, eip, l)
  {
    hide LockDigest, Collect, RegistrationsOk, NodeSignaturesOk, DefinitionSigsOk;
  }

  /** From v1.7 on, a registration that the validator's key does not vouch for is rejected: that of its own key, of its
      fee recipient in the definition, and of the gas limit and the time that it states. */
  lemma ForgedRegistrationIsRejected(b: Bls, e: Eth2, k1: K1, eip: Eip712, l: Lock, i: nat, m: RegistrationMessage)
    requires l.signatureAggregate != [] && !(l.def.version.V1? && l.def.version.minor <= 6) && i < |l.validators|
    requires m.pubkey == l.validators[i].pubkey && m.timestamp == l.validators[i].registration.message.timestamp
    requires ToInt(m.gasLimit) == l.validators[i].registration.message.gasLimit
    requires i < |l.def.validatorAddresses|
    requires e.executionAddress(l.def.validatorAddresses[i].feeRecipient) == Some(m.feeRecipient)
    requires var h := e.registrationRoot(m, l.def.forkVersion);
      h == None || !b.verify(l.validators[i].pubkey, h.value, l.validators[i].registration.signature)
    ensures !LockOk(b, e, k1, eip, l)
  {
    hide LockDigest, Collect, NodeSignaturesOk, DefinitionSigsOk;
    IntRoundTrip(0, m.gasLimit);
    assert !RegistrationOk(b, e, l, i);
  }

  /** A registration is missing from v1.7 on, or there is one before. */
  lemma MisplacedRegistrationIsRejected(b: Bls, e: Eth2, k1: K1, eip: Eip712, l: Lock, i: nat)
    requires l.signatureAggregate != [] && i < |l.validators|
    requires var r := l.validators[i].registration;
      (l.def.version.V1? && l.def.version.minor <= 6)
      <==> (r.signature != [] && r.message.feeRecipient != [] && r.message.pubkey != [])
    ensures !LockOk(b, e, k1, eip, l)
  {
    hide LockDigest, Collect, NodeSignaturesOk, DefinitionSigsOk;
    assert !RegistrationOk(b, e, l, i);
  }

  /** From v1.7 on, a node signature is rejected that does not verify under the key in the operator's ENR. */
  lemma ForgedNodeSignatureIsRejected(b: Bls, e: Eth2, k1: K1, eip: Eip712, l: Lock, i: nat)
    requires l.signatureAggregate != [] && !(l.def.version.V1? && l.def.version.minor <= 6)
    requires i < |l.def.operators| && i < |l.nodeSignatures|
    requires var key := k1.enr(l.def.operators[i].enr);
      key == None || !k1.verify(key.value, l.lockHash, l.nodeSignatures[i])
    ensures !LockOk(b, e, k1, eip, l)
  {
    hide LockDigest, Collect, RegistrationsOk, DefinitionSigsOk;
  }

  /** There is one node signature for every operator from v1.7 on, and none before. */
  lemma MisplacedNodeSignaturesAreRejected(b: Bls, e: Eth2, k1: K1, eip: Eip712, l: Lock)
    requires l.signatureAggregate != []
    requires |l.nodeSignatures| != if l.def.version.V1? && l.def.version.minor <= 6 then 0 else |l.def.operators|
    ensures !LockOk(b, e, k1, eip, l)
  {
    hide LockDigest, Collect, RegistrationsOk, DefinitionSigsOk;
  }

  /** A definition with a forged signature makes every lock of it unacceptable. */
  lemma ForgedDefinitionIsRejected(b: Bls, e: Eth2, k1: K1, eip: Eip712, l: Lock)
    requires !DefinitionSigsOk(eip, l.def)
    ensures !LockOk(b, e, k1, eip, l)
  {
  }
}
