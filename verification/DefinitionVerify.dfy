/** Verification of the signatures in a cluster definition (cluster/definition.go). */
module DefinitionVerify {
  import opened Prelude
  import opened Bytes
  import opened Merkle
  import opened Definition

  /** EIP-712 digests, the comparison of a recovered signer with an address, and the contract check of ERC-1271. Each of
      them may fail. */
  datatype Eip712 = Eip712(
    configDigest: Definition -> Option<Digest>,
    enrDigest: (Definition, Operator) -> Option<Digest>,
    creatorDigest: Definition -> Option<Digest>,
    verifySig: (Bytes, Digest, Bytes) -> Option<bool>,
    contractSig: (Bytes, Digest, Bytes) -> Option<bool>)

  /** The signer's address matches, or else the contract at the address approves. */
  predicate SigOk(e: Eip712, addr: Bytes, h: Digest, sig: Bytes) {
    || e.verifySig(addr, h, sig) == Some(true)
    || (e.verifySig(addr, h, sig) == Some(false) && e.contractSig(addr, h, sig) == Some(true))
  }

  predicate IsUnsigned(o: Operator) {
    o.address == [] && o.enrSignature == [] && o.configSignature == []
  }

  predicate IsSigned(e: Eip712, d: Definition, h: Digest, o: Operator) {
    && !IsUnsigned(o) && o.enrSignature != [] && o.configSignature != []
    && SigOk(e, o.address, h, o.configSignature)
    && e.enrDigest(d, o).Some? && SigOk(e, o.address, e.enrDigest(d, o).value, o.enrSignature)
  }

  /** eip712SigsPresent. */
  predicate SigsPresent(os: seq<Operator>) {
    exists i | 0 <= i < |os| :: os[i].enrSignature != [] || os[i].configSignature != []
  }

  predicate AllUnsigned(d: Definition) {
    d.operators != [] && forall i | 0 <= i < |d.operators| :: IsUnsigned(d.operators[i])
  }

  predicate AllSigned(e: Eip712, d: Definition, h: Digest) {
    forall i | 0 <= i < |d.operators| :: IsSigned(e, d, h, d.operators[i])
  }

  /** The creator signs exactly if the operators do, except in v1.3, which has no creator signature. */
  predicate CreatorOk(e: Eip712, d: Definition) {
    if d.version == V1(3) then d.creator.configSignature == []
    else if d.creator.address == [] && d.creator.configSignature == [] then AllUnsigned(d)
    else
      && d.creator.configSignature != [] && e.creatorDigest(d).Some?
      && e.verifySig(d.creator.address, e.creatorDigest(d).value, d.creator.configSignature) == Some(true)
  }

  /** What VerifySignatures accepts: no signatures before v1.3, and later either no operator signed or all did. */
  predicate DefinitionSigsOk(e: Eip712, d: Definition) {
    if d.version.V1? && d.version.minor <= 2 then !SigsPresent(d.operators)
    else
      && e.configDigest(d).Some?
      && (AllUnsigned(d) || AllSigned(e, d, e.configDigest(d).value))
      && CreatorOk(e, d)
  }

  method CheckSig(e: Eip712, addr: Bytes, h: Digest, sig: Bytes) returns (ok: bool)
    ensures ok == SigOk(e, addr, h, sig)
  {
    var v := e.verifySig(addr, h, sig);
    if v == None {
      return false;
    }
    if !v.value {
      var w := e.contractSig(addr, h, sig);
      return w == Some(true);
    }
    return true;
  }

  /** One turn of the loop over the operators. */
  method CheckOperator(e: Eip712, d: Definition, h: Digest, o: Operator) returns (ok: bool)
    requires !IsUnsigned(o)
    ensures ok == IsSigned(e, d, h, o)
  {
    if |o.enrSignature| == 0 || |o.configSignature| == 0 {
      return false;
    }
    ok := CheckSig(e, o.address, h, o.configSignature);
    if !ok {
      return;
    }
    var enrDigest := e.enrDigest(d, o);
    if enrDigest == None {
      return false;
    }
    ok := CheckSig(e, o.address, enrDigest.value, o.enrSignature);
  }

  /** The loop over the operators: how many of them did not sign, or an error. */
  method CheckOperators(e: Eip712, d: Definition, h: Digest) returns (noOpSigs: Option<nat>)
    ensures noOpSigs.Some? ==> noOpSigs.value <= |d.operators|
    ensures noOpSigs.Some? <==> forall i | 0 <= i < |d.operators| ::
      IsUnsigned(d.operators[i]) || IsSigned(e, d, h, d.operators[i])
    ensures noOpSigs.Some? ==>
      (noOpSigs.value == 0 <==> forall i | 0 <= i < |d.operators| :: !IsUnsigned(d.operators[i]))
    ensures noOpSigs.Some? ==>
      (noOpSigs.value == |d.operators| <==> forall i | 0 <= i < |d.operators| :: IsUnsigned(d.operators[i]))
  {
    hide IsSigned, IsUnsigned;
    var n: nat := 0;
    for i := 0 to |d.operators|
      invariant n <= i
      invariant forall k | 0 <= k < i :: IsUnsigned(d.operators[k]) || IsSigned(e, d, h, d.operators[k])
      invariant n == 0 <==> forall k | 0 <= k < i :: !IsUnsigned(d.operators[k])
      invariant n == i <==> forall k | 0 <= k < i :: IsUnsigned(d.operators[k])
    {
      if IsUnsigned(d.operators[i]) {
        n := n + 1;
        continue;
      }
      var ok := CheckOperator(e, d, h, d.operators[i]);
      if !ok {
        return None;
      }
    }
    return Some(n);
  }

  /** Definition.VerifySignatures returns no error. */
  method VerifyDefinition(e: Eip712, d: Definition) returns (ok: bool)
    ensures ok == DefinitionSigsOk(e, d)
  {
    hide IsSigned;
    if d.version.V1? && d.version.minor <= 2 {
      return !SigsPresent(d.operators);
    }
    var digest := e.configDigest(d);
    if digest == None {
      return false;
    }
    var noOpSigs := CheckOperators(e, d, digest.value);
    if noOpSigs == None {
      return false;
    }
    SignedOrNot(e, d, digest.value);
    if noOpSigs.value > 0 && noOpSigs.value != |d.operators| {
      return false;
    }
    if d.version == V1(3) {
      return |d.creator.configSignature| == 0;
    } else if |d.creator.address| == 0 && |d.creator.configSignature| == 0 {
      return noOpSigs.value != 0;
    }
    if |d.creator.configSignature| == 0 {
      return false;
    }
    var creatorDigest := e.creatorDigest(d);
    if creatorDigest == None {
      return false;
    }
    return e.verifySig(d.creator.address, creatorDigest.value, d.creator.configSignature) == Some(true);
  }

  /** A signed operator is not an unsigned one. */
  lemma SignedOrNot(e: Eip712, d: Definition, h: Digest)
    ensures forall i | 0 <= i < |d.operators| && IsSigned(e, d, h, d.operators[i]) :: !IsUnsigned(d.operators[i])
  {
  }

  // ----- what is rejected -----

  /** From v1.3 on a signature of an operator that neither its address nor a contract at it vouches for is rejected,
      over the config as well as over the ENR, and so is a missing one beside any trace of a signature. */
  lemma OperatorForgeryIsRejected(e: Eip712, d: Definition, i: nat)
    requires !(d.version.V1? && d.version.minor <= 2) && i < |d.operators|
    requires var o := d.operators[i];
      && (o.address != [] || o.enrSignature != [] || o.configSignature != [])
      && (|| o.enrSignature == [] || o.configSignature == []
          || Forged(e, o.address, e.configDigest(d), o.configSignature)
          || Forged(e, o.address, e.enrDigest(d, o), o.enrSignature))
    ensures !DefinitionSigsOk(e, d)
  {
    assert !IsUnsigned(d.operators[i]);
    assert e.configDigest(d).Some? ==> !IsSigned(e, d, e.configDigest(d).value, d.operators[i]);
  }

  ghost predicate Forged(e: Eip712, addr: Bytes, h: Option<Digest>, sig: Bytes) {
    h == None || (e.verifySig(addr, h.value, sig) != Some(true) && e.contractSig(addr, h.value, sig) != Some(true))
  }

  /** From v1.3 on, some operators cannot leave signing to the others. */
  lemma HalfSignedIsRejected(e: Eip712, d: Definition, i: nat, j: nat)
    requires !(d.version.V1? && d.version.minor <= 2) && i < |d.operators| && j < |d.operators|
    requires d.operators[i].address == [] && d.operators[i].enrSignature == [] && d.operators[i].configSignature == []
    requires d.operators[j].enrSignature != []
    ensures !DefinitionSigsOk(e, d)
  {
    assert IsUnsigned(d.operators[i]) && !IsUnsigned(d.operators[j]);
  }

  /** From v1.4 on the creator signs for their address, unless neither they nor the operators sign at all. */
  lemma CreatorForgeryIsRejected(e: Eip712, d: Definition)
    requires !(d.version.V1? && d.version.minor <= 3)
    requires d.creator.address != [] || d.creator.configSignature != []
             || exists i | 0 <= i < |d.operators| :: d.operators[i].enrSignature != []
    requires var h := e.creatorDigest(d);
      || d.creator.configSignature == [] || h == None
      || e.verifySig(d.creator.address, h.value, d.creator.configSignature) != Some(true)
    ensures !DefinitionSigsOk(e, d)
  {
  }

  /** Before v1.3 no operator signs, and in v1.3 the creator does not. */
  lemma EarlySignatureIsRejected(e: Eip712, d: Definition)
    requires d.version.V1?
    requires (d.version.minor <= 2 && exists i | 0 <= i < |d.operators| ::
                d.operators[i].enrSignature != [] || d.operators[i].configSignature != [])
             || (d.version.minor == 3 && d.creator.configSignature != [])
    ensures !DefinitionSigsOk(e, d)
  {
  }
}
