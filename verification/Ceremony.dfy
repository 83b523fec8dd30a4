/** The end of a ceremony (dkg/dkg.go): every node signs, exchanges and aggregates the deposits, the registrations and
    the lock hash, and assembles the lock. What a node finishes with is determined, the same on all nodes, and passes
    the verification of cluster/lock.go. */
module Ceremony {
  import opened Prelude
  import opened Bytes
  import opened Merkle
  import Sorting
  import opened Definition
  import opened Lock
  import opened Frost
  import opened FrostRounds
  import opened Shares
  import opened Aggregation
  import opened DistValidators
  import opened DefinitionVerify
  import opened LockVerify
  import Mailbox
  import NodeSigs
  import Ex = Exchanger

  /** What all nodes share: the libraries, the definition and the deposit amounts chosen from it. */
  datatype Setup = Setup(bls: Bls, eth: Eth2, def: Definition, amounts: seq<uint64>)
  {
    ghost predicate Valid() {
      bls.Valid() && eth.Valid()
    }

    function GasLimit(): (g: uint64) {
      if def.targetGasLimit == 0 then DEFAULT_GAS_LIMIT else def.targetGasLimit
    }
  }

  // ----- the messages of the shares, by their positions -----

  function DepositOf(s: Setup, amount: uint64): (f: (PubKey, nat) -> Option<DepositMessage>) {
    (pk: PubKey, i: nat) =>
      if i < |s.def.validatorAddresses|
      then NewDeposit(s.eth, pk, s.def.validatorAddresses[i].withdrawal, amount, s.def.compounding) else None
  }

  function DepositRoot(s: Setup): (f: DepositMessage -> Option<Digest>) {
    m => s.eth.depositRoot(m, s.def.forkVersion)
  }

  function RegistrationOf(s: Setup): (f: (PubKey, nat) -> Option<RegistrationMessage>) {
    (pk: PubKey, i: nat) =>
      var timestamp := s.eth.genesisTime(s.def.forkVersion);
      if timestamp.Some? && i < |s.def.validatorAddresses|
      then NewRegistration(s.eth, pk, s.def.validatorAddresses[i].feeRecipient, s.GasLimit(), timestamp.value) else None
  }

  function RegistrationRoot(s: Setup): (f: RegistrationMessage -> Option<Digest>) {
    m => s.eth.registrationRoot(m, s.def.forkVersion)
  }

  function MakeDeposit(m: DepositMessage, sig: Sig): (d: SignedDeposit) {
    SignedDeposit(m, sig)
  }

  /** setRegistrationSignature. */
  function MakeRegistration(m: RegistrationMessage, sig: Sig): (r: SignedRegistration) {
    SignedRegistration(m, sig)
  }

  // ----- the steps -----

  /** What an exchange returns: as many validators as the cluster has, each with one signature of every node. */
  ghost predicate Exchanged(n: nat, numVals: int, data: Ex.DataSet) {
    |data| == numVals && forall pk | pk in data :: |data[pk]| == n && Ex.Idxs(data[pk]) == OneTo(n)
  }

  lemma FullDataIsExchanged(c: Ex.Config, t: Ex.SigType, d: Ex.DataSet)
    requires Ex.FullData(c, t, d)
    ensures Exchanged(c.n, c.numVals, d)
  {
    assert |d| == |d.Keys|;
  }

  ghost predicate Signed<M>(b: Bls, shares: seq<Share>, msg: (PubKey, nat) -> Option<M>, root: M -> Option<Digest>,
                            msgs: map<PubKey, M>) {
    && (forall i | 0 <= i < |shares| :: SignOne(b, shares, msg, root, i).Some?)
    && forall pk ::
         var signed := LastSigned(b, shares, msg, root, |shares|, pk);
         Lookup(msgs, pk) == if signed == None then None else Some(signed.value.0)
  }

  /** rs is what a node aggregates from its own messages and the exchanged signatures. */
  ghost predicate StepDone<M(!new), R>(
      b: Bls, shares: seq<Share>, msg: (PubKey, nat) -> Option<M>, root: M -> Option<Digest>,
                                       signed: (M, Sig) -> R, data: Ex.DataSet, rs: seq<R>) {
    exists msgs, order ::
      Signed(b, shares, msg, root, msgs) && IsOrder(order, data.Keys)
      && IsAggregate(b, data, shares, msgs, root, signed, order, rs)
  }

  /** The messages that a node keeps when every share signs. */
  ghost function MsgsOf<M>(b: Bls, shares: seq<Share>, msg: (PubKey, nat) -> Option<M>, root: M -> Option<Digest>)
    : (msgs: map<PubKey, M>)
  {
    map pk | pk in Keys(shares) && LastSigned(b, shares, msg, root, |shares|, pk).Some? ::
      LastSigned(b, shares, msg, root, |shares|, pk).value.0
  }

  /** A share that cannot sign, or an exchanged validator that cannot be aggregated. */
  ghost predicate StepFails<M(!new), R>(b: Bls, shares: seq<Share>, msg: (PubKey, nat) -> Option<M>,
                                        root: M -> Option<Digest>, signed: (M, Sig) -> R, data: Ex.DataSet) {
    || (exists i | 0 <= i < |shares| :: SignOne(b, shares, msg, root, i) == None)
    || (exists pk | pk in data ::
          AggregateOne(b, data, shares, MsgsOf(b, shares, msg, root), root, signed, pk) == None)
  }

  lemma SignedIsMsgsOf<M(!new)>(b: Bls, shares: seq<Share>, msg: (PubKey, nat) -> Option<M>, root: M -> Option<Digest>,
                                msgs: map<PubKey, M>)
    requires Signed(b, shares, msg, root, msgs)
    ensures msgs == MsgsOf(b, shares, msg, root)
  {
    hide SignOne, LastSigned;
    var want := MsgsOf(b, shares, msg, root);
    forall pk ensures Lookup(msgs, pk) == Lookup(want, pk) {
      if LastSigned(b, shares, msg, root, |shares|, pk).Some? {
        var i := LastSignedOnly(b, shares, msg, root, |shares|, pk);
      }
    }
    SameLookups(msgs, want);
  }

  ghost predicate DepositsFail(s: Setup, shares: seq<Share>, amount: uint64, data: Ex.DataSet) {
    StepFails(s.bls, shares, DepositOf(s, amount), DepositRoot(s), MakeDeposit, data)
  }

  ghost predicate RegistrationsFail(s: Setup, shares: seq<Share>, data: Ex.DataSet) {
    StepFails(s.bls, shares, RegistrationOf(s), RegistrationRoot(s), MakeRegistration, data)
  }

  ghost predicate DepositsDone(s: Setup, shares: seq<Share>, amount: uint64, data: Ex.DataSet, ds: seq<SignedDeposit>) {
    StepDone(s.bls, shares, DepositOf(s, amount), DepositRoot(s), MakeDeposit, data, ds)
  }

  ghost predicate RegistrationsDone(s: Setup, shares: seq<Share>, data: Ex.DataSet, rs: seq<SignedRegistration>) {
    StepDone(s.bls, shares, RegistrationOf(s), RegistrationRoot(s), MakeRegistration, data, rs)
  }

  /** One step over what its exchange returns: sign, exchange, aggregate. */
  method SignAndAggregate<M(!new), R>(b: Bls, shares: seq<Share>, shareIdx: int, msg: (PubKey, nat) -> Option<M>,
                                      root: M -> Option<Digest>, signed: (M, Sig) -> R, peerSigs: Ex.DataSet)
    returns (r: Option<seq<R>>)
    ensures r == None <==> StepFails(b, shares, msg, root, signed, peerSigs)
    ensures r.Some? ==> StepDone(b, shares, msg, root, signed, peerSigs, r.value)
  {
    hide SignOne, LastSigned, IsOrder, IsAggregate, AggregateOne, MsgsOf;
    var own := SignMessages(b, shares, shareIdx, msg, root);
    if own == None {
      return None;
    }
    assert Signed(b, shares, msg, root, own.value.1);
    SignedIsMsgsOf(b, shares, msg, root, own.value.1);
    var rs, order := Aggregate(b, peerSigs, shares, own.value.1, root, signed);
    return rs;
  }

  /** signAndAggDepositData, over what the exchanges return. */
  method SignAndAggDepositData(s: Setup, shares: seq<Share>, shareIdx: int, peerSigs: seq<Ex.DataSet>)
    returns (r: Option<seq<seq<SignedDeposit>>>)
    requires |shares| <= |s.def.validatorAddresses| && |peerSigs| == |s.amounts|
    ensures r == None <==> exists a | 0 <= a < |s.amounts| :: DepositsFail(s, shares, s.amounts[a], peerSigs[a])
    ensures r.Some? ==> |r.value| == |s.amounts| && forall a | 0 <= a < |s.amounts| ::
      DepositsDone(s, shares, s.amounts[a], peerSigs[a], r.value[a])
  {
    hide StepFails, StepDone, DepositOf, DepositRoot;
    var dss := [];
    for a := 0 to |s.amounts|
      invariant |dss| == a && forall k | 0 <= k < a :: DepositsDone(s, shares, s.amounts[k], peerSigs[k], dss[k])
      invariant forall k | 0 <= k < a :: !DepositsFail(s, shares, s.amounts[k], peerSigs[k])
    {
      var ds := SignAndAggregate(s.bls, shares, shareIdx, DepositOf(s, s.amounts[a]), DepositRoot(s), MakeDeposit,
                                 peerSigs[a]);
      if ds == None {
        assert DepositsFail(s, shares, s.amounts[a], peerSigs[a]);
        return None;
      }
      dss := dss + [ds.value];
    }
    return Some(dss);
  }

  /** signAndAggValidatorRegistrations. */
  method SignAndAggValidatorRegistrations(s: Setup, shares: seq<Share>, shareIdx: int, peerSigs: Ex.DataSet)
    returns (r: Option<seq<SignedRegistration>>)
    requires |shares| <= |s.def.validatorAddresses|
    ensures r == None <==> RegistrationsFail(s, shares, peerSigs)
    ensures r.Some? ==> RegistrationsDone(s, shares, peerSigs, r.value)
  {
    hide StepFails, StepDone, RegistrationOf, RegistrationRoot;
    r := SignAndAggregate(s.bls, shares, shareIdx, RegistrationOf(s), RegistrationRoot(s), MakeRegistration, peerSigs);
  }

  /** The validators of the lock: before v1.7 it carries no registrations. */
  function LockValidators(v: Version, vals: seq<DistValidator>): (r: seq<DistValidator>)
    ensures |r| == |vals|
  {
    if v.V1? && v.minor <= 6
    then seq(|vals|, i requires 0 <= i < |vals| => vals[i].(registration := NO_REGISTRATION)) else vals
  }

  /** The multi-signature of the lock, aggregated from data in some order. */
  ghost predicate LockSigned(b: Bls, shares: seq<Share>, data: Ex.DataSet, l: Lock) {
    && AllSigsOk(b, data, shares, l.lockHash)
    && exists order ::
         && IsOrder(order, data.Keys)
         && b.aggregate(Collect(order, SigsIn(data))) == Some(l.signatureAggregate)
         && b.verifyAggregate(Collect(order, PubSharesIn(data, shares)), l.signatureAggregate, l.lockHash)
  }

  ghost predicate AreValidators(shares: seq<Share>, dss: seq<seq<SignedDeposit>>, rs: seq<SignedRegistration>,
                                vals: seq<DistValidator>) {
    |vals| == |shares| && forall i | 0 <= i < |shares| :: IsDistValidator(shares[i], dss, rs, vals[i])
  }

  ghost predicate IsLock(s: Setup, shares: seq<Share>, dss: seq<seq<SignedDeposit>>, rs: seq<SignedRegistration>,
                         data: Ex.DataSet, l: Lock) {
    && l.def == s.def
    && (exists vals :: AreValidators(shares, dss, rs, vals) && l.validators == LockValidators(s.def.version, vals))
    && LockDigest(l) == Some(l.lockHash)
    && LockSigned(s.bls, shares, data, l)
    && l.nodeSignatures == []
  }

  lemma HashIsOfValidators(l: Lock, m: Lock)
    requires l.def == m.def && l.validators == m.validators
    ensures LockDigest(l) == LockDigest(m)
  {
  }

  /** Why a node with these validators gets no lock: it does not hash, a share cannot sign the hash, an exchanged
      signature does not verify, or the aggregate cannot be made or does not verify. */
  ghost predicate LockFails(s: Setup, shares: seq<Share>, data: Ex.DataSet, vals: seq<DistValidator>) {
    var h := LockDigest(NewLock(s, vals));
    || h == None
    || (exists i | 0 <= i < |shares| :: s.bls.sign(shares[i].secret, h.value) == None)
    || !AllSigsOk(s.bls, data, shares, h.value)
    || (exists order :: IsOrder(order, data.Keys) && !AggregateOk(s.bls, data, shares, h.value, order))
  }

  ghost predicate AggregateOk(b: Bls, data: Ex.DataSet, shares: seq<Share>, h: Digest, order: seq<PubKey>) {
    var sig := b.aggregate(Collect(order, SigsIn(data)));
    sig.Some? && b.verifyAggregate(Collect(order, PubSharesIn(data, shares)), sig.value, h)
  }

  /** The lock before its hash. */
  function NewLock(s: Setup, vals: seq<DistValidator>): (l: Lock) {
    Lock(s.def, LockValidators(s.def.version, vals), Raw([]), [], [])
  }

  ghost predicate NoValidators(shares: seq<Share>, dss: seq<seq<SignedDeposit>>, rs: seq<SignedRegistration>) {
    exists i | 0 <= i < |shares| ::
      FirstRegistration(rs, shares[i].pubkey) == None || AllDepositsFor(dss, shares[i].pubkey) == []
  }

  /** signAndAggLockHash. */
  method SignAndAggLockHash(s: Setup, shares: seq<Share>, shareIdx: int, dss: seq<seq<SignedDeposit>>,
                            rs: seq<SignedRegistration>, peerSigs: Ex.DataSet)
    returns (r: Option<Lock>)
    ensures r.Some? ==> IsLock(s, shares, dss, rs, peerSigs, r.value)
    ensures r == None ==> NoValidators(shares, dss, rs)
                          || exists vals :: AreValidators(shares, dss, rs, vals) && LockFails(s, shares, peerSigs, vals)
    ensures r.Some? && s.bls.Valid() ==>
      && !NoValidators(shares, dss, rs)
      && forall vals | AreValidators(shares, dss, rs, vals) :: !LockFails(s, shares, peerSigs, vals)
  {
    hide IsDistValidator, AllSigsOk, Collect, SigsIn, PubSharesIn, LockDigest, IsOrder, LockValidators, SignOne,
      FirstRegistration, AllDepositsFor, LastSigned;
    var vals := CreateDistValidators(shares, dss, rs);
    if vals == None {
      return None;
    }
    assert AreValidators(shares, dss, rs, vals.value) && !NoValidators(shares, dss, rs);
    hide AreValidators, NoValidators;
    var lock := NewLock(s, vals.value);
    var lockHash := HashLock(lock);
    if lockHash == None {
      return None;
    }
    var h := lockHash.value;
    lock := lock.(lockHash := h);
    var lockHashSig := SignMessages(s.bls, shares, shareIdx, HashToSign(h), HashRoot());
    SignsHash(s, shares, h);
    if lockHashSig == None {
      return None;
    }
    var pubkeyToShares := PubkeyToShares(shares);
    var agg, order := AggLockHashSig(s.bls, peerSigs, pubkeyToShares, h, shares);
    if agg == None {
      assert AllSigsOk(s.bls, peerSigs, shares, h) ==> !AggregateOk(s.bls, peerSigs, shares, h, order);
      return None;
    }
    assert AggregateOk(s.bls, peerSigs, shares, h, order) == s.bls.verifyAggregate(agg.value.1, agg.value.0, h);
    if !s.bls.verifyAggregate(agg.value.1, agg.value.0, h) {
      return None;
    }
    var l := lock.(signatureAggregate := agg.value.0);
    HashIsOfValidators(NewLock(s, vals.value), l);
    assert LockSigned(s.bls, shares, peerSigs, l);
    if s.bls.Valid() {
      DoesNotFail(s, shares, dss, rs, peerSigs, vals.value, order);
    }
    return Some(l);
  }

  function HashToSign(h: Digest): (f: (PubKey, nat) -> Option<Digest>) {
    (_, _) => Some(h)
  }

  function HashRoot(): (f: Digest -> Option<Digest>) {
    h => Some(h)
  }

  lemma SignsHash(s: Setup, shares: seq<Share>, h: Digest)
    ensures forall i | 0 <= i < |shares| ::
      SignOne(s.bls, shares, HashToSign(h), HashRoot(), i).Some? <==> s.bls.sign(shares[i].secret, h).Some?
  {
  }

  /** The validators are determined, and the order of aggregation does not matter. */
  lemma DoesNotFail(s: Setup, shares: seq<Share>, dss: seq<seq<SignedDeposit>>, rs: seq<SignedRegistration>,
                    data: Ex.DataSet, vals: seq<DistValidator>, order: seq<PubKey>)
    requires s.bls.Valid() && AreValidators(shares, dss, rs, vals) && IsOrder(order, data.Keys)
    requires var h := LockDigest(NewLock(s, vals));
      && h.Some? && AllSigsOk(s.bls, data, shares, h.value) && AggregateOk(s.bls, data, shares, h.value, order)
      && forall i | 0 <= i < |shares| :: s.bls.sign(shares[i].secret, h.value).Some?
    ensures forall vals' | AreValidators(shares, dss, rs, vals') :: !LockFails(s, shares, data, vals')
  {
    hide AllSigsOk, LockDigest, NewLock, AreValidators, IsOrder, AggregateOk;
    forall vals' | AreValidators(shares, dss, rs, vals') ensures !LockFails(s, shares, data, vals') {
      ValidatorsUnique(shares, dss, rs, vals, vals');
      var h := LockDigest(NewLock(s, vals)).value;
      forall order' | IsOrder(order', data.Keys) ensures AggregateOk(s.bls, data, shares, h, order') {
        SameAggregateOk(s.bls, data, shares, h, order, order');
      }
    }
  }

  lemma ValidatorsUnique(shares: seq<Share>, dss: seq<seq<SignedDeposit>>, rs: seq<SignedRegistration>,
                         v: seq<DistValidator>, w: seq<DistValidator>)
    requires AreValidators(shares, dss, rs, v) && AreValidators(shares, dss, rs, w)
    ensures v == w
  {
    hide InKeyOrder, AllDepositsFor, FirstRegistration;
    forall i | 0 <= i < |shares| ensures v[i] == w[i] {
      assert IsDistValidator(shares[i], dss, rs, v[i]) && IsDistValidator(shares[i], dss, rs, w[i]);
      SamePubShares(shares[i], v[i], w[i]);
    }
  }

  lemma SameAggregateOk(b: Bls, data: Ex.DataSet, shares: seq<Share>, h: Digest, x: seq<PubKey>, y: seq<PubKey>)
    requires b.Valid() && IsOrder(x, data.Keys) && IsOrder(y, data.Keys)
    ensures AggregateOk(b, data, shares, h, x) == AggregateOk(b, data, shares, h, y)
  {
    hide Collect, SigsIn, PubSharesIn;
    SameElements(x, y);
    CollectPermutes(x, y, SigsIn(data));
    CollectPermutes(x, y, PubSharesIn(data, shares));
  }

  // ----- the keys of the validators -----

  ghost function Keys(shares: seq<Share>): (keys: set<PubKey>) {
    set i | 0 <= i < |shares| :: shares[i].pubkey
  }

  ghost function SetOf<T>(xs: seq<T>): (s: set<T>) {
    set x <- xs
  }

  /** A list has at most as many elements as positions, and no repetitions if it has as many. */
  lemma {:induction false} SetSize<T>(xs: seq<T>)
    ensures |SetOf(xs)| <= |xs|
    ensures |SetOf(xs)| == |xs| ==> forall i, j | 0 <= i < j < |xs| :: xs[i] != xs[j]
  {
    if xs != [] {
      var m := |xs| - 1;
      var rest := xs[..m];
      SetSize(rest);
      assert xs == rest + [xs[m]];
      assert SetOf(xs) == SetOf(rest) + {xs[m]};
      if |SetOf(xs)| == |xs| {
        assert xs[m] !in SetOf(rest);
        assert forall i | 0 <= i < m :: rest[i] in SetOf(rest);
      }
    }
  }

  /** The keys in the order of the shares. */
  function KeySeq(shares: seq<Share>): (keys: seq<PubKey>)
    ensures |keys| == |shares| && forall i | 0 <= i < |shares| :: keys[i] == shares[i].pubkey
  {
    seq(|shares|, i requires 0 <= i < |shares| => shares[i].pubkey)
  }

  lemma KeysSize(shares: seq<Share>)
    ensures |Keys(shares)| <= |shares|
    ensures |Keys(shares)| == |shares| ==> DistinctKeys(shares)
  {
    var keys := KeySeq(shares);
    assert Keys(shares) == SetOf(keys);
    SetSize(keys);
    assert |Keys(shares)| == |shares| ==> forall i, j | 0 <= i < j < |shares| :: keys[i] != keys[j];
  }

  lemma AggregatedHasShare<M(!new), R>(
      b: Bls, shares: seq<Share>, msg: (PubKey, nat) -> Option<M>, root: M -> Option<Digest>,
                                       signed: (M, Sig) -> R, data: Ex.DataSet, rs: seq<R>,
                                       msgs: map<PubKey, M>, order: seq<PubKey>, pk: PubKey)
    requires Signed(b, shares, msg, root, msgs) && IsOrder(order, data.Keys)
    requires IsAggregate(b, data, shares, msgs, root, signed, order, rs) && pk in data
    ensures pk in Keys(shares)
  {
    hide SignOne, GroupSig, LastShare, LastSigned;
    assert pk in order;
    var j :| 0 <= j < |order| && order[j] == pk;
    assert Lookup(msgs, pk).Some?;
    var i := LastSignedOnly(b, shares, msg, root, |shares|, pk);
  }

  /** A node that finishes an aggregation over as many validators as it has shares has distinct group keys, and they are
      the validators of the exchange. */
  lemma StepKeys<M(!new), R>(b: Bls, shares: seq<Share>, msg: (PubKey, nat) -> Option<M>, root: M -> Option<Digest>,
                             signed: (M, Sig) -> R, data: Ex.DataSet, rs: seq<R>)
    requires StepDone(b, shares, msg, root, signed, data, rs) && |data| == |shares|
    ensures DistinctKeys(shares) && data.Keys == Keys(shares)
  {
    var msgs, order :|
      Signed(b, shares, msg, root, msgs) && IsOrder(order, data.Keys)
      && IsAggregate(b, data, shares, msgs, root, signed, order, rs);
    hide Signed, IsOrder, IsAggregate;
    forall pk | pk in data ensures pk in Keys(shares) {
      AggregatedHasShare(b, shares, msg, root, signed, data, rs, msgs, order, pk);
    }
    KeysSize(shares);
    assert |data| == |data.Keys|;
    Mailbox.SubsetSize(data.Keys, Keys(shares));
  }

  /** What an aggregation produces for share i: the message of that position, signed by the group, after all the partial
      signatures were verified. */
  ghost predicate IsSignedFor<M(!new), R>(
      b: Bls, shares: seq<Share>, msg: (PubKey, nat) -> Option<M>, root: M -> Option<Digest>,
                                          signed: (M, Sig) -> R, psigs: seq<Ex.ParSig>, i: nat, sig: Sig, r: R)
    requires i < |shares|
  {
    var pk := shares[i].pubkey;
    var m := msg(pk, i);
    && m.Some? && root(m.value).Some? && b.verify(pk, root(m.value).value, sig) && r == signed(m.value, sig)
    && PsigsOk(b, root(m.value).value, Some(shares[i]), psigs)
  }

  lemma StepMeaning<M(!new), R>(b: Bls, shares: seq<Share>, msg: (PubKey, nat) -> Option<M>, root: M -> Option<Digest>,
                                signed: (M, Sig) -> R, data: Ex.DataSet, rs: seq<R>, i: nat) returns (j: nat, sig: Sig)
    requires StepDone(b, shares, msg, root, signed, data, rs) && DistinctKeys(shares) && data.Keys == Keys(shares)
    requires i < |shares|
    ensures shares[i].pubkey in data && j < |rs|
    ensures IsSignedFor(b, shares, msg, root, signed, data[shares[i].pubkey], i, sig, rs[j])
  {
    var msgs, order :|
      Signed(b, shares, msg, root, msgs) && IsOrder(order, data.Keys)
      && IsAggregate(b, data, shares, msgs, root, signed, order, rs);
    j, sig := AggregateMeaning(b, shares, msg, root, signed, data, rs, msgs, order, i);
  }

  lemma AggregateMeaning<M(!new), R>(
      b: Bls, shares: seq<Share>, msg: (PubKey, nat) -> Option<M>, root: M -> Option<Digest>,
                                     signed: (M, Sig) -> R, data: Ex.DataSet, rs: seq<R>,
                                     msgs: map<PubKey, M>, order: seq<PubKey>, i: nat) returns (j: nat, sig: Sig)
    requires Signed(b, shares, msg, root, msgs) && IsOrder(order, data.Keys)
    requires IsAggregate(b, data, shares, msgs, root, signed, order, rs)
    requires DistinctKeys(shares) && data.Keys == Keys(shares) && i < |shares|
    ensures shares[i].pubkey in data && j < |rs| == |order| && order[j] == shares[i].pubkey
    ensures IsSignedFor(b, shares, msg, root, signed, data[shares[i].pubkey], i, sig, rs[j])
  {
    var pk := shares[i].pubkey;
    assert pk in Keys(shares);
    assert pk in order;
    j :| 0 <= j < |order| && order[j] == pk;
    LastSignedOf(b, shares, msg, root, |shares|, i);
    LastShareOf(shares, i);
    var m := Lookup(msgs, pk).value;
    assert SignOne(b, shares, msg, root, i).Some?;
    sig := GroupSig(b, pk, root(m).value, LastShare(shares, pk), data[pk]).value;
  }

  /** The validator that an aggregated message is about. */
  lemma AggregatedKey<M(!new), R(!new)>(
      b: Bls, shares: seq<Share>, msg: (PubKey, nat) -> Option<M>, root: M -> Option<Digest>,
                                        signed: (M, Sig) -> R, data: Ex.DataSet, rs: seq<R>,
                                        msgs: map<PubKey, M>, order: seq<PubKey>, key: R -> PubKey, j: nat)
    requires Signed(b, shares, msg, root, msgs) && IsOrder(order, data.Keys)
    requires IsAggregate(b, data, shares, msgs, root, signed, order, rs) && j < |rs|
    requires forall pk, i, sig | msg(pk, i).Some? :: key(signed(msg(pk, i).value, sig)) == pk
    ensures key(rs[j]) == order[j]
  {
    var pk := order[j];
    assert AggregateOne(b, data, shares, msgs, root, signed, pk) == Some(rs[j]);
    hide GroupSig, LastShare, LastSigned;
    var i := LastSignedOnly(b, shares, msg, root, |shares|, pk);
    assert SignOne(b, shares, msg, root, i).Some?;
  }

  lemma DepositsAreDistinct(s: Setup, shares: seq<Share>, amount: uint64, data: Ex.DataSet, ds: seq<SignedDeposit>)
    requires DepositsDone(s, shares, amount, data, ds)
    ensures DistinctDeposits(ds)
  {
    var b, msg, root := s.bls, DepositOf(s, amount), DepositRoot(s);
    var msgs, order :|
      Signed(b, shares, msg, root, msgs) && IsOrder(order, data.Keys)
      && IsAggregate(b, data, shares, msgs, root, MakeDeposit, order, ds);
    hide Signed, AggregateOne;
    forall j | 0 <= j < |ds| ensures ds[j].message.pubkey == order[j] {
      AggregatedKey(b, shares, msg, root, MakeDeposit, data, ds, msgs, order, (d: SignedDeposit) => d.message.pubkey,
                    j);
    }
  }

  lemma RegistrationsAreDistinct(s: Setup, shares: seq<Share>, data: Ex.DataSet, rs: seq<SignedRegistration>)
    requires RegistrationsDone(s, shares, data, rs)
    ensures DistinctRegistrations(rs)
  {
    var b, msg, root := s.bls, RegistrationOf(s), RegistrationRoot(s);
    var msgs, order :|
      Signed(b, shares, msg, root, msgs) && IsOrder(order, data.Keys)
      && IsAggregate(b, data, shares, msgs, root, MakeRegistration, order, rs);
    hide Signed, AggregateOne;
    forall j | 0 <= j < |rs| ensures rs[j].message.pubkey == order[j] {
      AggregatedKey(b, shares, msg, root, MakeRegistration, data, rs, msgs, order,
                    (r: SignedRegistration) => r.message.pubkey, j);
    }
  }

  // ----- what a finished node holds -----

  /** All that a node went through after the key generation: its shares, and for each step what its exchange returned
      and what it aggregated from that. */
  datatype Outcome = Outcome(
    shares: seq<Share>,
    depositData: seq<Ex.DataSet>, deposits: seq<seq<SignedDeposit>>,
    registrationData: Ex.DataSet, registrations: seq<SignedRegistration>,
    lockData: Ex.DataSet, lock: Lock)

  /** What the node aggregated and assembled from what its exchanges returned. */
  ghost predicate Aggregated(s: Setup, o: Outcome) {
    && s.def.version.V1? && s.def.version.minor >= 6
    && s.def.operators != [] && |o.shares| == s.def.numValidators <= |s.def.validatorAddresses|
    && |o.depositData| == |o.deposits| == |s.amounts|
    && (forall a | 0 <= a < |s.amounts| ::
          DepositsDone(s, o.shares, s.amounts[a], o.depositData[a], o.deposits[a]))
    && RegistrationsDone(s, o.shares, o.registrationData, o.registrations)
    && IsLock(s, o.shares, o.deposits, o.registrations, o.lockData, o.lock)
  }

  ghost predicate AllExchanged(s: Setup, o: Outcome) {
    var n := |s.def.operators|;
    && (forall a | 0 <= a < |o.depositData| :: Exchanged(n, |o.shares|, o.depositData[a]))
    && Exchanged(n, |o.shares|, o.registrationData) && Exchanged(n, |o.shares|, o.lockData)
  }

  ghost predicate Finished(s: Setup, o: Outcome) {
    Aggregated(s, o) && AllExchanged(s, o)
  }

  /** The steps of a ceremony after the key generation, over what the exchanges return. */
  method Conclude(s: Setup, shares: seq<Share>, shareIdx: int, depositData: seq<Ex.DataSet>,
                  registrationData: Ex.DataSet,
                  lockData: Ex.DataSet) returns (r: Option<Outcome>)
    requires s.def.version.V1? && s.def.version.minor >= 6 && s.def.operators != []
    requires |shares| == s.def.numValidators <= |s.def.validatorAddresses| && |depositData| == |s.amounts|
    ensures r.Some? ==> Aggregated(s, r.value) && r.value.shares == shares
    ensures r.Some? ==> r.value.depositData == depositData && r.value.registrationData == registrationData
                        && r.value.lockData == lockData
  {
    hide DepositsDone, RegistrationsDone, DepositsFail, RegistrationsFail, IsLock;
    var ds := SignAndAggDepositData(s, shares, shareIdx, depositData);
    if ds == None {
      return None;
    }
    var rs := SignAndAggValidatorRegistrations(s, shares, shareIdx, registrationData);
    if rs == None {
      return None;
    }
    var lock := SignAndAggLockHash(s, shares, shareIdx, ds.value, rs.value, lockData);
    if lock == None {
      return None;
    }
    return Some(Outcome(shares, depositData, ds.value, registrationData, rs.value, lockData, lock.value));
  }

  /** The deposit of the validator at position i: its own message, signed with the group key. */
  ghost predicate DepositMeans(s: Setup, pk: PubKey, i: nat, amount: uint64, d: DepositData) {
    var m := DepositOf(s, amount)(pk, i);
    && m.Some? && DepositRoot(s)(m.value).Some?
    && s.bls.verify(pk, DepositRoot(s)(m.value).value, d.signature)
    && d == LockDeposit(SignedDeposit(m.value, d.signature))
  }

  ghost predicate RegistrationMeans(s: Setup, pk: PubKey, i: nat, r: BuilderRegistration) {
    var m := RegistrationOf(s)(pk, i);
    && m.Some? && RegistrationRoot(s)(m.value).Some?
    && s.bls.verify(pk, RegistrationRoot(s)(m.value).value, r.signature)
    && r == LockRegistration(SignedRegistration(m.value, r.signature))
  }

  /** The validator at position i of the ceremony: its public shares in the order of the share indexes, for each amount
      in turn its own deposit, and its own registration, all signed with the group key. */
  ghost predicate ValidatorMeans(s: Setup, share: Share, i: nat, v: DistValidator) {
    && v.pubkey == share.pubkey
    && (exists ids :: InKeyOrder(share.publicShares, ids, v.pubshares))
    && |v.partialDeposits| == |s.amounts|
    && (forall a | 0 <= a < |s.amounts| :: DepositMeans(s, share.pubkey, i, s.amounts[a], v.partialDeposits[a]))
    && (if s.def.version.V1? && s.def.version.minor <= 6 then v.registration == NO_REGISTRATION
        else RegistrationMeans(s, share.pubkey, i, v.registration))
  }

  lemma {:induction false} OneOfEachAmount(dss: seq<seq<SignedDeposit>>, pk: PubKey)
    requires forall a | 0 <= a < |dss| :: |DepositsFor(dss[a], pk)| == 1
    ensures |AllDepositsFor(dss, pk)| == |dss|
    ensures forall a | 0 <= a < |dss| :: [AllDepositsFor(dss, pk)[a]] == DepositsFor(dss[a], pk)
  {
    if dss != [] {
      OneOfEachAmount(dss[..|dss| - 1], pk);
    }
  }

  lemma DepositOfShare(s: Setup, shares: seq<Share>, amount: uint64, data: Ex.DataSet, ds: seq<SignedDeposit>, i: nat)
    requires DepositsDone(s, shares, amount, data, ds) && |data| == |shares| && i < |shares|
    ensures var own := DepositsFor(ds, shares[i].pubkey);
      |own| == 1 && DepositMeans(s, shares[i].pubkey, i, amount, LockDeposit(own[0]))
  {
    hide SignOne, LastSigned, Signed, IsOrder, IsAggregate, PsigsOk;
    DepositsAreDistinct(s, shares, amount, data, ds);
    StepKeys(s.bls, shares, DepositOf(s, amount), DepositRoot(s), MakeDeposit, data, ds);
    var j, sig := StepMeaning(s.bls, shares, DepositOf(s, amount), DepositRoot(s), MakeDeposit, data, ds, i);
    assert ds[j].message.pubkey == shares[i].pubkey;
    OneDeposit(ds, j);
  }

  lemma RegistrationOfShare(s: Setup, shares: seq<Share>, data: Ex.DataSet, rs: seq<SignedRegistration>, i: nat)
    requires RegistrationsDone(s, shares, data, rs) && |data| == |shares| && i < |shares|
    ensures var own := FirstRegistration(rs, shares[i].pubkey);
      own.Some? && RegistrationMeans(s, shares[i].pubkey, i, LockRegistration(own.value))
  {
    hide SignOne, LastSigned, Signed, IsOrder, IsAggregate, PsigsOk;
    RegistrationsAreDistinct(s, shares, data, rs);
    StepKeys(s.bls, shares, RegistrationOf(s), RegistrationRoot(s), MakeRegistration, data, rs);
    var j, sig := StepMeaning(s.bls, shares, RegistrationOf(s), RegistrationRoot(s), MakeRegistration, data, rs, i);
    assert rs[j].message.pubkey == shares[i].pubkey;
    OneRegistration(rs, j);
  }

  /** Every validator of a finished node's lock is what its position in the ceremony says, although the aggregations
      visited the validators in map order and the lock picks them by key. */
  lemma FinishedMeaning(s: Setup, o: Outcome, i: nat)
    requires Finished(s, o) && i < |o.shares|
    ensures |o.lock.validators| == |o.shares| && ValidatorMeans(s, o.shares[i], i, o.lock.validators[i])
  {
    hide DepositsDone, RegistrationsDone, LockSigned, Exchanged, AllDepositsFor, FirstRegistration, InKeyOrder,
      LockDigest, DepositMeans, RegistrationMeans, DepositsFor;
    var vals :|
      AreValidators(o.shares, o.deposits, o.registrations, vals)
      && o.lock.validators == LockValidators(s.def.version, vals);
    assert IsDistValidator(o.shares[i], o.deposits, o.registrations, vals[i]);
    var pk := o.shares[i].pubkey;
    forall a | 0 <= a < |s.amounts|
      ensures |DepositsFor(o.deposits[a], pk)| == 1
      ensures DepositMeans(s, pk, i, s.amounts[a], LockDeposit(DepositsFor(o.deposits[a], pk)[0]))
    {
      ExchangedSize(s, o, o.depositData[a]);
      DepositOfShare(s, o.shares, s.amounts[a], o.depositData[a], o.deposits[a], i);
    }
    OneOfEachAmount(o.deposits, pk);
    ExchangedSize(s, o, o.registrationData);
    RegistrationOfShare(s, o.shares, o.registrationData, o.registrations, i);
  }

  /** Deposit a of validator i of a finished lock pays amount a, for that validator's own key, to the withdrawal address
      that the definition lists for it. It is within the limits of a deposit and signed with the group key. */
  lemma FinishedDepositPays(s: Setup, o: Outcome, i: nat, a: nat)
    requires Finished(s, o) && i < |o.shares| && a < |s.amounts|
    ensures |o.lock.validators| == |o.shares| <= |s.def.validatorAddresses|
    ensures |o.lock.validators[i].partialDeposits| == |s.amounts|
    ensures var v := o.lock.validators[i]; var d := v.partialDeposits[a];
            var root := s.eth.depositRoot(DepositMessage(v.pubkey, d.withdrawalCredentials, s.amounts[a]),
                                          s.def.forkVersion);
            && d.pubkey == v.pubkey == o.shares[i].pubkey && d.amount == s.amounts[a]
            && 1_000_000_000 <= d.amount <= (if s.def.compounding then 2_048_000_000_000 else 32_000_000_000)
            && s.eth.withdrawalCreds(s.def.validatorAddresses[i].withdrawal, s.def.compounding)
               == Some(d.withdrawalCredentials)
            && root.Some? && s.bls.verify(v.pubkey, root.value, d.signature)
  {
    FinishedShape(s, o);
    hide Finished, InKeyOrder, DepositMeans, RegistrationMeans;
    FinishedMeaning(s, o, i);
    var v := o.lock.validators[i];
    assert DepositMeans(s, v.pubkey, i, s.amounts[a], v.partialDeposits[a]);
    DepositPays(s, v.pubkey, i, s.amounts[a], v.partialDeposits[a]);
  }

  lemma DepositPays(s: Setup, pk: PubKey, i: nat, amount: uint64, d: DepositData)
    requires DepositMeans(s, pk, i, amount, d) && i < |s.def.validatorAddresses|
    ensures d.pubkey == pk && d.amount == amount
    ensures 1_000_000_000 <= d.amount <= (if s.def.compounding then 2_048_000_000_000 else 32_000_000_000)
    ensures s.eth.withdrawalCreds(s.def.validatorAddresses[i].withdrawal, s.def.compounding)
            == Some(d.withdrawalCredentials)
    ensures var root := s.eth.depositRoot(DepositMessage(pk, d.withdrawalCredentials, amount), s.def.forkVersion);
      root.Some? && s.bls.verify(pk, root.value, d.signature)
  {
    var m := DepositOf(s, amount)(pk, i).value;
    assert m == DepositMessage(pk, d.withdrawalCredentials, amount);
    assert DepositRoot(s)(m) == s.eth.depositRoot(m, s.def.forkVersion);
  }

  /** The registration of validator i of a finished lock of v1.7 or later is for the fee recipient that the definition
      lists for it, with the definition's target gas limit or else thirty million, at the network's genesis. */
  lemma FinishedRegistrationPays(s: Setup, o: Outcome, i: nat)
    requires Finished(s, o) && i < |o.shares| && s.def.version.V1? && s.def.version.minor >= 7
    ensures |o.lock.validators| == |o.shares| <= |s.def.validatorAddresses|
    ensures var v := o.lock.validators[i]; var r := v.registration.message;
            var gas := if s.def.targetGasLimit == 0 then 30_000_000 else s.def.targetGasLimit;
            var root := s.eth.registrationRoot(RegistrationMessage(r.feeRecipient, gas, r.timestamp, v.pubkey),
                                               s.def.forkVersion);
            && r.pubkey == v.pubkey == o.shares[i].pubkey && r.gasLimit == ToInt(gas)
            && s.eth.executionAddress(s.def.validatorAddresses[i].feeRecipient) == Some(r.feeRecipient)
            && s.eth.genesisTime(s.def.forkVersion) == Some(r.timestamp)
            && root.Some? && s.bls.verify(v.pubkey, root.value, v.registration.signature)
  {
    FinishedShape(s, o);
    hide Finished, InKeyOrder, DepositMeans, RegistrationMeans;
    FinishedMeaning(s, o, i);
    RegistrationPays(s, o.lock.validators[i].pubkey, i, o.lock.validators[i].registration);
  }

  lemma RegistrationPays(s: Setup, pk: PubKey, i: nat, b: BuilderRegistration)
    requires RegistrationMeans(s, pk, i, b) && i < |s.def.validatorAddresses|
    ensures var r := b.message;
            var gas := if s.def.targetGasLimit == 0 then 30_000_000 else s.def.targetGasLimit;
            var root := s.eth.registrationRoot(RegistrationMessage(r.feeRecipient, gas, r.timestamp, pk),
                                               s.def.forkVersion);
            && r.pubkey == pk && r.gasLimit == ToInt(gas)
            && s.eth.executionAddress(s.def.validatorAddresses[i].feeRecipient) == Some(r.feeRecipient)
            && s.eth.genesisTime(s.def.forkVersion) == Some(r.timestamp)
            && root.Some? && s.bls.verify(pk, root.value, b.signature)
  {
    var m := RegistrationOf(s)(pk, i).value;
    assert m == RegistrationMessage(b.message.feeRecipient, s.GasLimit(), b.message.timestamp, pk);
    assert RegistrationRoot(s)(m) == s.eth.registrationRoot(m, s.def.forkVersion);
  }

  lemma ExchangedSize(s: Setup, o: Outcome, data: Ex.DataSet)
    requires Exchanged(|s.def.operators|, |o.shares|, data)
    ensures |data| == |o.shares|
  {
  }

  // ----- agreement -----

  /** Shares of two nodes that differ in the secrets only. */
  ghost predicate SameShares(a: seq<Share>, b: seq<Share>) {
    |a| == |b| && forall i | 0 <= i < |a| :: a[i].pubkey == b[i].pubkey && a[i].publicShares == b[i].publicShares
  }

  lemma MeansUnique(s: Setup, a: Share, b: Share, i: nat, v: DistValidator, w: DistValidator)
    requires s.Valid() && a.pubkey == b.pubkey && a.publicShares == b.publicShares
    requires ValidatorMeans(s, a, i, v) && ValidatorMeans(s, b, i, w)
    ensures v == w
  {
    SamePubShares(a, v, w);
    forall k | 0 <= k < |s.amounts| ensures v.partialDeposits[k] == w.partialDeposits[k] {
      assert DepositMeans(s, a.pubkey, i, s.amounts[k], v.partialDeposits[k]);
      assert DepositMeans(s, b.pubkey, i, s.amounts[k], w.partialDeposits[k]);
    }
  }

  /** Any two nodes that finish with the same public keys assemble the same validators and the same lock hash. */
  lemma ValidatorsAgree(s: Setup, o: Outcome, p: Outcome)
    requires s.Valid() && Finished(s, o) && Finished(s, p) && SameShares(o.shares, p.shares)
    ensures o.lock.validators == p.lock.validators && o.lock.lockHash == p.lock.lockHash
  {
    hide *;
    FinishedShape(s, o);
    FinishedShape(s, p);
    SameLength(o.shares, p.shares);
    forall i | 0 <= i < |o.shares| ensures o.lock.validators[i] == p.lock.validators[i] {
      SameValidator(s, o, p, i);
    }
    HashIsOfValidators(o.lock, p.lock);
  }

  lemma SameLength(a: seq<Share>, b: seq<Share>)
    requires SameShares(a, b)
    ensures |a| == |b|
  {
  }

  lemma SameValidator(s: Setup, o: Outcome, p: Outcome, i: nat)
    requires s.Valid() && Finished(s, o) && Finished(s, p) && SameShares(o.shares, p.shares) && i < |o.shares|
    ensures |o.lock.validators| == |o.shares| == |p.lock.validators| && o.lock.validators[i] == p.lock.validators[i]
  {
    hide Finished, ValidatorMeans, Setup.Valid;
    FinishedMeaning(s, o, i);
    FinishedMeaning(s, p, i);
    MeansUnique(s, o.shares[i], p.shares[i], i, o.lock.validators[i], p.lock.validators[i]);
  }

  // ----- one signature of every node -----

  function IdxSeq(psigs: seq<Ex.ParSig>): (xs: seq<int>)
    ensures |xs| == |psigs| && forall i | 0 <= i < |psigs| :: xs[i] == psigs[i].shareIdx
  {
    seq(|psigs|, i requires 0 <= i < |psigs| => psigs[i].shareIdx)
  }

  lemma IdxsSize(psigs: seq<Ex.ParSig>)
    requires |Ex.Idxs(psigs)| == |psigs|
    ensures forall i, j | 0 <= i < j < |psigs| :: psigs[i].shareIdx != psigs[j].shareIdx
  {
    var xs := IdxSeq(psigs);
    assert Ex.Idxs(psigs) == SetOf(xs);
    SetSize(xs);
    assert forall i, j | 0 <= i < j < |psigs| :: xs[i] != xs[j];
  }

  function SigOf(): (f: Ex.ParSig -> seq<Sig>) {
    (psig: Ex.ParSig) => [psig.data]
  }

  lemma {:induction false} SigsAreCollected(psigs: seq<Ex.ParSig>)
    ensures SigsOf(psigs) == Collect(psigs, SigOf())
  {
    if psigs != [] {
      SigsAreCollected(psigs[..|psigs| - 1]);
    }
  }

  /** Two full sets of valid signatures of one validator over one hash hold the same signatures. */
  lemma SameSigs(b: Bls, h: Digest, s: Share, t: Share, n: nat, x: seq<Ex.ParSig>, y: seq<Ex.ParSig>)
    requires b.Valid() && s.publicShares == t.publicShares
    requires PsigsOk(b, h, Some(s), x) && PsigsOk(b, h, Some(t), y)
    requires |x| == |y| == n && Ex.Idxs(x) == OneTo(n) && Ex.Idxs(y) == OneTo(n)
    ensures multiset(SigsOf(x)) == multiset(SigsOf(y))
  {
    IdxsSize(x);
    IdxsSize(y);
    SameMembers(b, h, s, t, x, y);
    SameMembers(b, h, t, s, y, x);
    SameElements(x, y);
    SigsAreCollected(x);
    SigsAreCollected(y);
    CollectPermutes(x, y, SigOf());
  }

  lemma SameMembers(b: Bls, h: Digest, s: Share, t: Share, x: seq<Ex.ParSig>, y: seq<Ex.ParSig>)
    requires b.Valid() && s.publicShares == t.publicShares
    requires PsigsOk(b, h, Some(s), x) && PsigsOk(b, h, Some(t), y) && Ex.Idxs(x) == Ex.Idxs(y)
    ensures forall psig | psig in x :: psig in y
  {
    forall psig | psig in x ensures psig in y {
      assert psig.shareIdx in Ex.Idxs(x);
      var j :| 0 <= j < |y| && y[j].shareIdx == psig.shareIdx;
      assert PsigOk(b, h, Some(s), psig) && PsigOk(b, h, Some(t), y[j]);
      assert y[j].data == psig.data;
    }
  }

  lemma OrderIsShares(shares: seq<Share>, order: seq<PubKey>)
    requires DistinctKeys(shares) && IsOrder(order, Keys(shares))
    ensures multiset(order) == multiset(KeySeq(shares))
  {
    var keys := KeySeq(shares);
    forall pk ensures pk in keys <==> pk in Keys(shares) {
      if pk in Keys(shares) {
        var i :| 0 <= i < |shares| && shares[i].pubkey == pk;
        assert keys[i] == pk;
      }
    }
    SameElements(order, keys);
  }

  /** A finished node has distinct group keys, and its lock signatures are one of every node for each of them. */
  lemma FinishedKeys(s: Setup, o: Outcome)
    requires Finished(s, o)
    ensures DistinctKeys(o.shares) && o.registrationData.Keys == Keys(o.shares)
  {
    StepKeys(s.bls, o.shares, RegistrationOf(s), RegistrationRoot(s), MakeRegistration, o.registrationData,
             o.registrations);
  }

  /** Every signature over the lock hash was accepted for a share of the node: its validators are the node's own. */
  lemma LockDataKeys(s: Setup, o: Outcome)
    requires Finished(s, o)
    ensures o.lockData.Keys == Keys(o.shares)
  {
    FinishedKeys(s, o);
    assert AllSigsOk(s.bls, o.lockData, o.shares, o.lock.lockHash);
    forall pk | pk in o.lockData ensures pk in Keys(o.shares) {
      assert PsigOk(s.bls, o.lock.lockHash, LastShare(o.shares, pk), o.lockData[pk][0]);
      LastShareIn(o.shares, pk);
    }
    assert |o.lockData| == |o.lockData.Keys| && |o.registrationData| == |o.registrationData.Keys|;
    Mailbox.SubsetSize(o.lockData.Keys, Keys(o.shares));
  }

  lemma {:induction false} LastShareIn(shares: seq<Share>, pk: PubKey)
    requires LastShare(shares, pk).Some?
    ensures pk in Keys(shares)
  {
    var m := |shares| - 1;
    if shares[m].pubkey != pk {
      LastShareIn(shares[..m], pk);
      var i :| 0 <= i < m && shares[..m][i].pubkey == pk;
      assert shares[i].pubkey == pk;
    }
  }

  /** The signatures and the hash that node o aggregates for share i. */
  lemma LockSigsOf(s: Setup, o: Outcome, i: nat)
    requires Finished(s, o) && i < |o.shares|
    ensures var pk := o.shares[i].pubkey;
      && LastShare(o.shares, pk) == Some(o.shares[i])
      && pk in o.lockData && PsigsOk(s.bls, o.lock.lockHash, Some(o.shares[i]), o.lockData[pk])
      && |o.lockData[pk]| == |s.def.operators| && Ex.Idxs(o.lockData[pk]) == OneTo(|s.def.operators|)
  {
    FinishedKeys(s, o);
    LockDataKeys(s, o);
    LastShareOf(o.shares, i);
    assert o.shares[i].pubkey in Keys(o.shares);
  }

  /** The aggregated signatures, listed by the shares instead of by the map. */
  lemma LockOrder(s: Setup, o: Outcome) returns (order: seq<PubKey>)
    requires Finished(s, o)
    ensures s.bls.aggregate(Collect(order, SigsIn(o.lockData))) == Some(o.lock.signatureAggregate)
    ensures s.bls.verifyAggregate(Collect(order, PubSharesIn(o.lockData, o.shares)), o.lock.signatureAggregate,
                                  o.lock.lockHash)
    ensures multiset(order) == multiset(KeySeq(o.shares))
  {
    hide SigsIn, PubSharesIn, Collect, IsOrder, DepositsDone, RegistrationsDone;
    order :|
      && IsOrder(order, o.lockData.Keys)
      && s.bls.aggregate(Collect(order, SigsIn(o.lockData))) == Some(o.lock.signatureAggregate)
      && s.bls.verifyAggregate(Collect(order, PubSharesIn(o.lockData, o.shares)), o.lock.signatureAggregate,
                               o.lock.lockHash);
    FinishedKeys(s, o);
    LockDataKeys(s, o);
    OrderIsShares(o.shares, order);
  }

  /** Any two nodes that finish with the same public keys finish with the same lock, whatever order their maps and
      exchanges gave them. */
  lemma LocksAgree(s: Setup, o: Outcome, p: Outcome)
    requires s.Valid() && Finished(s, o) && Finished(s, p) && SameShares(o.shares, p.shares)
    ensures o.lock == p.lock
  {
    hide *;
    FinishedShape(s, o);
    FinishedShape(s, p);
    ValidatorsAgree(s, o, p);
    var x := LockOrder(s, o);
    var y := LockOrder(s, p);
    SameSigBag(s, o, p, x, y);
    SameAggregate(s, Collect(x, SigsIn(o.lockData)), Collect(y, SigsIn(p.lockData)));
  }

  lemma SameAggregate(s: Setup, x: seq<Sig>, y: seq<Sig>)
    requires s.Valid() && multiset(x) == multiset(y)
    ensures s.bls.aggregate(x) == s.bls.aggregate(y)
  {
  }

  lemma SameKeySeq(a: seq<Share>, b: seq<Share>)
    requires SameShares(a, b)
    ensures KeySeq(a) == KeySeq(b)
  {
  }

  lemma SameSigBag(s: Setup, o: Outcome, p: Outcome, x: seq<PubKey>, y: seq<PubKey>)
    requires s.Valid() && Finished(s, o) && Finished(s, p) && SameShares(o.shares, p.shares)
    requires o.lock.lockHash == p.lock.lockHash
    requires multiset(x) == multiset(KeySeq(o.shares)) && multiset(y) == multiset(KeySeq(p.shares))
    ensures multiset(Collect(x, SigsIn(o.lockData))) == multiset(Collect(y, SigsIn(p.lockData)))
  {
    hide *;
    var keys := KeySeq(o.shares);
    SameKeySeq(o.shares, p.shares);
    forall i | 0 <= i < |keys|
      ensures multiset(SigsIn(o.lockData)(keys[i])) == multiset(SigsIn(p.lockData)(keys[i]))
    {
      SameSigsOf(s, o, p, i);
    }
    CollectPermutes(x, keys, SigsIn(o.lockData));
    CollectSame(keys, keys, SigsIn(o.lockData), SigsIn(p.lockData));
    CollectPermutes(keys, y, SigsIn(p.lockData));
  }

  lemma SameSigsOf(s: Setup, o: Outcome, p: Outcome, i: nat)
    requires s.Valid() && Finished(s, o) && Finished(s, p) && SameShares(o.shares, p.shares) && i < |o.shares|
    requires o.lock.lockHash == p.lock.lockHash
    ensures var pk := o.shares[i].pubkey; multiset(SigsIn(o.lockData)(pk)) == multiset(SigsIn(p.lockData)(pk))
  {
    hide Finished, PsigsOk;
    LockSigsOf(s, o, i);
    LockSigsOf(s, p, i);
    var pk := o.shares[i].pubkey;
    SameSigs(s.bls, o.lock.lockHash, o.shares[i], p.shares[i], |s.def.operators|, o.lockData[pk], p.lockData[pk]);
  }

  // ----- the finished lock verifies -----

  /** Public shares belong to nodes of the cluster. */
  ghost predicate SharesInRange(shares: seq<Share>, n: nat) {
    forall i, x | 0 <= i < |shares| && x in shares[i].publicShares :: 1 <= x <= n
  }

  function PubAt(s: Share): (f: int -> seq<PubKey>) {
    (x: int) => var p := PubShare(Some(s), x); if p.Some? then [p.value] else []
  }

  lemma {:induction false} PubSharesAreCollected(s: Share, psigs: seq<Ex.ParSig>)
    requires forall i | 0 <= i < |psigs| :: PubShare(Some(s), psigs[i].shareIdx).Some?
    ensures PubSharesOf(Some(s), psigs) == Collect(IdxSeq(psigs), PubAt(s))
  {
    if psigs != [] {
      var m := |psigs| - 1;
      PubSharesAreCollected(s, psigs[..m]);
      assert IdxSeq(psigs)[..m] == IdxSeq(psigs[..m]);
    }
  }

  lemma {:induction false} OrderedAreCollected(s: Share, ids: seq<int>, xs: seq<PubKey>)
    requires |xs| == |ids| && forall i | 0 <= i < |ids| :: PubShare(Some(s), ids[i]) == Some(xs[i])
    ensures xs == Collect(ids, PubAt(s))
  {
    if ids != [] {
      var m := |ids| - 1;
      OrderedAreCollected(s, ids[..m], xs[..m]);
    }
  }

  /** With a verified signature of every node, a validator's share has exactly the public shares 1 to n. */
  lemma PublicSharesComplete(b: Bls, h: Digest, s: Share, n: nat, psigs: seq<Ex.ParSig>, x: int)
    requires PsigsOk(b, h, Some(s), psigs) && Ex.Idxs(psigs) == OneTo(n)
    requires forall y | y in s.publicShares :: 1 <= y <= n
    ensures PubShare(Some(s), x).Some? <==> 1 <= x <= n
  {
    if 1 <= x <= n {
      assert x in Ex.Idxs(psigs);
      var i :| 0 <= i < |psigs| && psigs[i].shareIdx == x;
      assert PsigOk(b, h, Some(s), psigs[i]);
    }
  }

  /** The public shares that the multi-signature of a validator was aggregated under are its ordered public shares in
      the lock, and they are well-formed. */
  lemma SamePubShareBag(b: Bls, h: Digest, s: Share, n: nat, psigs: seq<Ex.ParSig>, ids: seq<uint32>, xs: seq<PubKey>)
    requires b.Valid() && PsigsOk(b, h, Some(s), psigs) && |psigs| == n && Ex.Idxs(psigs) == OneTo(n)
    requires InKeyOrder(s.publicShares, ids, xs) && forall y | y in s.publicShares :: 1 <= y <= n
    ensures multiset(PubSharesOf(Some(s), psigs)) == multiset(xs)
    ensures forall i | 0 <= i < |xs| :: |xs[i]| == LEN_PUBKEY
  {
    var idxs := IdxSeq(psigs);
    IdxSeqIsIds(b, h, s, n, psigs, ids, xs);
    PubSharesAreCollected(s, psigs);
    OrderedAreCollected(s, ids, xs);
    CollectPermutes<int, PubKey>(idxs, ids, PubAt(s));
    forall i | 0 <= i < |xs| ensures |xs[i]| == LEN_PUBKEY {
      IdxIffId(b, h, s, n, psigs, ids, xs, ids[i]);
      PubShareLength(b, h, s, psigs, ids[i]);
    }
  }

  lemma PubShareLength(b: Bls, h: Digest, s: Share, psigs: seq<Ex.ParSig>, x: int)
    requires b.Valid() && PsigsOk(b, h, Some(s), psigs) && x in IdxSeq(psigs)
    ensures var p := PubShare(Some(s), x); p.Some? && |p.value| == LEN_PUBKEY
  {
    var j :| 0 <= j < |psigs| && psigs[j].shareIdx == x;
    assert PsigOk(b, h, Some(s), psigs[j]);
  }

  lemma IdxSeqIsIds(b: Bls, h: Digest, s: Share, n: nat, psigs: seq<Ex.ParSig>, ids: seq<int>, xs: seq<PubKey>)
    requires PsigsOk(b, h, Some(s), psigs) && |psigs| == n && Ex.Idxs(psigs) == OneTo(n)
    requires (forall i | 0 <= i < |ids| :: 0 <= ids[i] < TWO32) && InKeyOrder(s.publicShares, ids, xs)
    requires forall y | y in s.publicShares :: 1 <= y <= n
    ensures multiset(IdxSeq(psigs)) == multiset(ids)
  {
    hide PsigsOk;
    IdxsSize(psigs);
    forall x ensures x in IdxSeq(psigs) <==> x in ids {
      IdxIffId(b, h, s, n, psigs, ids, xs, x);
    }
    SameElements(IdxSeq(psigs), ids);
  }

  lemma IdxIffId(b: Bls, h: Digest, s: Share, n: nat, psigs: seq<Ex.ParSig>, ids: seq<uint32>, xs: seq<PubKey>, x: int)
    requires PsigsOk(b, h, Some(s), psigs) && Ex.Idxs(psigs) == OneTo(n)
    requires InKeyOrder(s.publicShares, ids, xs) && forall y | y in s.publicShares :: 1 <= y <= n
    ensures x in IdxSeq(psigs) <==> x in ids
  {
    PublicSharesComplete(b, h, s, n, psigs, x);
    assert x in IdxSeq(psigs) <==> 1 <= x <= n by {
      assert x in OneTo(n) <==> x in Ex.Idxs(psigs);
      if x in Ex.Idxs(psigs) {
        var i :| 0 <= i < |psigs| && psigs[i].shareIdx == x;
        assert IdxSeq(psigs)[i] == x;
      }
    }
    assert x in ids <==> x in Sorting.Elements(ids);
  }

  /** The public shares of validator i of a finished lock. */
  lemma LockPubShares(s: Setup, o: Outcome, i: nat)
    requires s.Valid() && Finished(s, o) && i < |o.shares| && SharesInRange(o.shares, |s.def.operators|)
    ensures |o.lock.validators| == |o.shares| && PubSharesOk(o.lock.validators[i])
    ensures multiset(PubSharesIn(o.lockData, o.shares)(o.shares[i].pubkey))
        == multiset(PubSharesOfValidator()(o.lock.validators[i]))
  {
    hide Finished, DepositMeans, RegistrationMeans, InKeyOrder;
    var share, v, n := o.shares[i], o.lock.validators, |s.def.operators|;
    LockSigsOf(s, o, i);
    FinishedMeaning(s, o, i);
    var ids :| InKeyOrder(share.publicShares, ids, o.lock.validators[i].pubshares);
    var psigs := o.lockData[share.pubkey];
    SamePubShareBag(s.bls, o.lock.lockHash, share, n, psigs, ids, o.lock.validators[i].pubshares);
    InPubShares(s.bls, o.lock.lockHash, o.lockData, o.shares, share);
  }

  /** Public share j of a validator in a finished lock is that of the node with share index j + 1. */
  lemma LockShareOrder(s: Setup, o: Outcome, i: nat, j: nat)
    requires s.Valid() && Finished(s, o) && i < |o.shares| && SharesInRange(o.shares, |s.def.operators|)
        && j < |s.def.operators|
    ensures |o.lock.validators| == |o.shares| && |o.lock.validators[i].pubshares| == |s.def.operators|
    ensures PubShare(Some(o.shares[i]), j + 1) == Some(o.lock.validators[i].pubshares[j])
  {
    hide Finished, DepositMeans, RegistrationMeans, InKeyOrder, Setup.Valid;
    LockSigsOf(s, o, i);
    FinishedMeaning(s, o, i);
    var share, xs := o.shares[i], o.lock.validators[i].pubshares;
    var ids :| InKeyOrder(share.publicShares, ids, xs);
    InShareOrder(s.bls, o.lock.lockHash, share, |s.def.operators|, o.lockData[share.pubkey], ids, xs, j);
  }

  lemma InShareOrder(b: Bls, h: Digest, s: Share, n: nat, psigs: seq<Ex.ParSig>, ids: seq<uint32>, xs: seq<PubKey>,
                     j: nat)
    requires PsigsOk(b, h, Some(s), psigs) && Ex.Idxs(psigs) == OneTo(n) && j < n
    requires InKeyOrder(s.publicShares, ids, xs) && forall y | y in s.publicShares :: 1 <= y <= n
    ensures |xs| == n && PubShare(Some(s), j + 1) == Some(xs[j])
  {
    PublicSharesComplete(b, h, s, n, psigs, n);
    forall x ensures x in Sorting.Elements(ids) <==> 1 <= x < 1 + n {
      PublicSharesComplete(b, h, s, n, psigs, x);
    }
    ConsecutiveIds(ids, 1, n);
    assert Lookup(s.publicShares, ids[j]) == Some(xs[j]);
  }

  lemma InPubShares(b: Bls, h: Digest, data: Ex.DataSet, shares: seq<Share>, share: Share)
    requires share.pubkey in data && LastShare(shares, share.pubkey) == Some(share)
        && PsigsOk(b, h, Some(share), data[share.pubkey])
    ensures PubSharesIn(data, shares)(share.pubkey) == PubSharesOf(Some(share), data[share.pubkey])
  {
    hide LastShare;
    assert forall i | 0 <= i < |data[share.pubkey]| :: PsigOk(b, h, Some(share), data[share.pubkey][i]);
  }

  /** The multi-signature verifies against the public shares in the order of the lock, although it was made in the order
      of the map and of the arrival of the signatures. */
  lemma FinishedAggregateVerifies(s: Setup, o: Outcome)
    requires s.Valid() && Finished(s, o) && SharesInRange(o.shares, |s.def.operators|)
    ensures |o.lock.validators| == |o.shares| && |o.lock.signatureAggregate| == LEN_BLS_SIG
    ensures s.bls.verifyAggregate(Collect(o.lock.validators, PubSharesOfValidator()), o.lock.signatureAggregate,
                                  o.lock.lockHash)
  {
    var order := LockOrder(s, o);
    assert |o.lock.validators| == |o.shares|;
    PubShareBag(s, o, order);
    hide Finished;
  }

  lemma PubShareBag(s: Setup, o: Outcome, order: seq<PubKey>)
    requires s.Valid() && Finished(s, o) && SharesInRange(o.shares, |s.def.operators|)
    requires |o.lock.validators| == |o.shares| && multiset(order) == multiset(KeySeq(o.shares))
    ensures multiset(Collect(order, PubSharesIn(o.lockData, o.shares)))
        == multiset(Collect(o.lock.validators, PubSharesOfValidator()))
  {
    hide *;
    var keys := KeySeq(o.shares);
    forall i | 0 <= i < |keys|
      ensures multiset(PubSharesIn(o.lockData, o.shares)(keys[i]))
          == multiset(PubSharesOfValidator()(o.lock.validators[i]))
    {
      LockPubShares(s, o, i);
    }
    CollectPermutes(order, keys, PubSharesIn(o.lockData, o.shares));
    CollectSame(keys, o.lock.validators, PubSharesIn(o.lockData, o.shares), PubSharesOfValidator());
  }

  /** Fee recipients stay with their validators: the registration that was signed for share i is the one that the
      definition's address i makes with the key of validator i. */
  lemma FinishedRegistrationVerifies(s: Setup, o: Outcome, i: nat)
    requires s.Valid() && Finished(s, o) && i < |o.shares|
    ensures |o.lock.validators| == |o.shares| && RegistrationOk(s.bls, s.eth, o.lock, i)
  {
    FinishedShape(s, o);
    hide Finished, InKeyOrder, DepositMeans, RegistrationMeans, RegistrationOk, Setup.Valid;
    FinishedMeaning(s, o, i);
    if BeforeV1x7(s.def) {
      NoneIsOk(s, o.lock, i);
    } else {
      RegistrationMeansOk(s, o.lock, i);
    }
  }

  lemma FinishedShape(s: Setup, o: Outcome)
    requires Finished(s, o)
    ensures o.lock.def == s.def && o.lock.nodeSignatures == [] && LockDigest(o.lock) == Some(o.lock.lockHash)
    ensures |o.lock.validators| == |o.shares| <= |s.def.validatorAddresses|
  {
    hide DepositsDone, RegistrationsDone, LockSigned, AreValidators, LockDigest;
    var vals :|
      AreValidators(o.shares, o.deposits, o.registrations, vals)
      && o.lock.validators == LockValidators(s.def.version, vals);
    ValidatorCount(o, vals);
  }

  lemma ValidatorCount(o: Outcome, vals: seq<DistValidator>)
    requires AreValidators(o.shares, o.deposits, o.registrations, vals)
    ensures |vals| == |o.shares|
  {
  }

  lemma NoneIsOk(s: Setup, l: Lock, i: nat)
    requires l.def == s.def && BeforeV1x7(s.def) && i < |l.validators|
    requires l.validators[i].registration == NO_REGISTRATION
    ensures RegistrationOk(s.bls, s.eth, l, i)
  {
  }

  lemma RegistrationMeansOk(s: Setup, l: Lock, i: nat)
    requires s.Valid() && l.def == s.def && !BeforeV1x7(s.def)
    requires i < |l.validators| && RegistrationMeans(s, l.validators[i].pubkey, i, l.validators[i].registration)
    ensures RegistrationOk(s.bls, s.eth, l, i)
  {
    var v := l.validators[i];
    var m := RegistrationOf(s)(v.pubkey, i).value;
    IntRoundTrip(0, s.GasLimit());
    var fee := s.def.validatorAddresses[i].feeRecipient;
    assert |s.def.forkVersion| == LEN_FORK_VERSION && |s.eth.executionAddress(fee).value| == ADDRESS_LEN;
    assert NewRegistration(s.eth, v.pubkey, fee, ToWord(v.registration.message.gasLimit),
                           v.registration.message.timestamp) == Some(m);
    assert s.bls.verify(v.pubkey, RegistrationRoot(s)(m).value, v.registration.signature);
  }

  /** The lock with the exchanged node signatures, which are left out before v1.7. */
  function WithNodeSignatures(l: Lock, sigs: seq<Bytes>): (r: Lock) {
    l.(nodeSignatures := if BeforeV1x7(l.def) then [] else sigs)
  }

  /** The lock that a node finishes with, completed with the node signatures that its exchange over the lock hash
      returned, passes VerifySignatures exactly if the signatures of the definition do. */
  lemma FinishedLockVerifies(s: Setup, o: Outcome, eip: Eip712, c: NodeSigs.Config, st: seq<NodeSigs.State>,
                             es: seq<NodeSigs.Event>, k: nat)
    requires s.Valid() && Finished(s, o) && SharesInRange(o.shares, |s.def.operators|)
    requires NodeSigs.Run(c, st, es) && k < |es| && es[k].Poll? && es[k].sigs.Some?
    requires NodeSigs.IsPeers(c.k1, s.def, Some(c.peers)) && st[k].exchanged == Some(o.lock.lockHash)
    ensures LockOk(s.bls, s.eth, c.k1, eip, WithNodeSignatures(o.lock, es[k].sigs.value))
        <==> DefinitionSigsOk(eip, s.def)
  {
    FinishedShape(s, o);
    var l := WithNodeSignatures(o.lock, es[k].sigs.value);
    assert l.def == o.lock.def && l.validators == o.lock.validators && l.lockHash == o.lock.lockHash
           && l.signatureAggregate == o.lock.signatureAggregate;
    VersionMinor(s, o, es[k].sigs.value);
    hide *;
    HashIsOfValidators(o.lock, l);
    FinishedAggregateVerifies(s, o);
    forall i | 0 <= i < |l.validators| ensures PubSharesOk(l.validators[i]) && RegistrationOk(s.bls, s.eth, l, i) {
      LockPubShares(s, o, i);
      FinishedRegistrationVerifies(s, o, i);
      SameRegistrationOk(s, o.lock, l, i);
    }
    NodeSigs.ExchangedSignaturesVerify(c, st, es, k, o.lock);
    LockOkParts(s.bls, s.eth, c.k1, eip, l);
  }

  lemma VersionMinor(s: Setup, o: Outcome, sigs: seq<Bytes>)
    requires Finished(s, o) && o.lock.def == s.def
    ensures s.def.version.V1?
    ensures WithNodeSignatures(o.lock, sigs) == o.lock.(nodeSignatures := if s.def.version.minor <= 6 then [] else sigs)
  {
  }

  lemma SameRegistrationOk(s: Setup, l: Lock, m: Lock, i: nat)
    requires l.def == m.def && l.validators == m.validators && i < |l.validators| && RegistrationOk(s.bls, s.eth, l, i)
    ensures RegistrationOk(s.bls, s.eth, m, i)
  {
  }

  lemma LockOkParts(b: Bls, e: Eth2, k1: NodeSigs.K1, eip: Eip712, l: Lock)
    requires |l.signatureAggregate| == LEN_BLS_SIG && LockDigest(l) == Some(l.lockHash)
    requires forall i | 0 <= i < |l.validators| :: PubSharesOk(l.validators[i]) && RegistrationOk(b, e, l, i)
    requires b.verifyAggregate(Collect(l.validators, PubSharesOfValidator()), l.signatureAggregate, l.lockHash)
    requires NodeSigs.NodeSignaturesOk(k1, l)
    ensures LockOk(b, e, k1, eip, l) <==> DefinitionSigsOk(eip, l.def)
  {
    hide LockDigest, Collect, PubSharesOk, RegistrationOk, NodeSigs.NodeSignaturesOk, DefinitionSigsOk;
  }
}
