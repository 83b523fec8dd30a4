/** The messages that a ceremony signs for each validator, and the validators of the lock that createDistValidators
    assembles from the signed ones (dkg/dkg.go, eth2util/deposit, eth2util/registration). */
module DistValidators {
  import opened Prelude
  import opened Bytes
  import opened Sorting
  import opened Merkle
  import opened Definition
  import opened Lock
  import opened Shares
  import opened Aggregation

  // ----- messages -----

  datatype DepositMessage = DepositMessage(pubkey: PubKey, withdrawalCredentials: Bytes, amount: uint64)

  /** The deposit data of the consensus layer. */
  datatype SignedDeposit = SignedDeposit(message: DepositMessage, signature: Sig)

  datatype RegistrationMessage = RegistrationMessage(feeRecipient: Bytes, gasLimit: uint64, timestamp: Time,
                                                     pubkey: PubKey)

  datatype SignedRegistration = SignedRegistration(message: RegistrationMessage, signature: Sig)

  /** Address decoding, the genesis time of a network, and signing roots. */
  datatype Eth2 = Eth2(
    withdrawalCreds: (Bytes, bool) -> Option<Bytes>,
    executionAddress: Bytes -> Option<Bytes>,
    genesisTime: Bytes -> Option<Time>,
    depositRoot: (DepositMessage, Bytes) -> Option<Digest>,
    registrationRoot: (RegistrationMessage, Bytes) -> Option<Digest>)
  {
    /** Addresses have 20 bytes, and only a fork version of 4 bytes names a network. */
    ghost predicate Valid() {
      && (forall a :: executionAddress(a).Some? ==> |executionAddress(a).value| == ADDRESS_LEN)
      && (forall f :: genesisTime(f).Some? ==> |f| == LEN_FORK_VERSION)
    }
  }

  const MIN_DEPOSIT := 1_000_000_000
  const MAX_STANDARD_DEPOSIT := 32_000_000_000
  const MAX_COMPOUNDING_DEPOSIT := 2_048_000_000_000
  const DEFAULT_GAS_LIMIT := 30_000_000

  /** MaxDepositAmount. */
  function MaxDeposit(compounding: bool): (m: uint64) {
    if compounding then MAX_COMPOUNDING_DEPOSIT else MAX_STANDARD_DEPOSIT
  }

  /** NewMessage of the deposits. */
  function NewDeposit(e: Eth2, pk: PubKey, addr: Bytes, amount: uint64, compounding: bool): (r: Option<DepositMessage>)
    ensures r.Some? <==> e.withdrawalCreds(addr, compounding).Some? && MIN_DEPOSIT <= amount <= MaxDeposit(compounding)
    ensures r.Some? ==> r.value.pubkey == pk && r.value.amount == amount
    ensures r.Some? ==> Some(r.value.withdrawalCredentials) == e.withdrawalCreds(addr, compounding)
  {
    var creds :- e.withdrawalCreds(addr, compounding);
    if amount < MIN_DEPOSIT then None
    else if amount > MaxDeposit(compounding) then None
    else Some(DepositMessage(pk, creds, amount))
  }

  /** NewMessage of the registrations. */
  function NewRegistration(e: Eth2, pk: PubKey, addr: Bytes, gasLimit: uint64, timestamp: Time)
    : (r: Option<RegistrationMessage>)
    ensures r.Some? <==> e.executionAddress(addr).Some?
    ensures r.Some? ==> Some(r.value.feeRecipient) == e.executionAddress(addr) && r.value.pubkey == pk
    ensures r.Some? ==> r.value.gasLimit == gasLimit && r.value.timestamp == timestamp
  {
    var execAddr :- e.executionAddress(addr);
    Some(RegistrationMessage(execAddr, gasLimit, timestamp, pk))
  }

  /** DedupAmounts. */
  method DedupAmounts(amounts: seq<uint64>) returns (r: seq<int>)
    ensures Sorted(r) && Distinct(r) && forall x :: x in r <==> x in amounts
  {
    var result: seq<int>, used: set<uint64> := [], {};
    for i := 0 to |amounts|
      invariant forall x :: x in used <==> x in amounts[..i]
      invariant forall x :: x in result <==> x in used
      invariant Distinct(result)
    {
      if amounts[i] in used {
        continue;
      }
      used := used + {amounts[i]};
      result := result + [amounts[i]];
    }
    assert amounts[..|amounts|] == amounts;
    SortDistinct(result);
    r := Sort(result);
    forall x ensures x in r <==> x in result {
      assert x in Elements(r) <==> x in Elements(result);
    }
  }

  // ----- assembling the validators -----

  function LockDeposit(d: SignedDeposit): (r: DepositData) {
    DepositData(d.message.pubkey, d.message.withdrawalCredentials, ToInt(d.message.amount), d.signature)
  }

  function LockDeposits(ds: seq<SignedDeposit>): (r: seq<DepositData>) {
    seq(|ds|, i requires 0 <= i < |ds| => LockDeposit(ds[i]))
  }

  /** builderRegistrationFromETH2. */
  function LockRegistration(r: SignedRegistration): (b: BuilderRegistration) {
    BuilderRegistration(
      Registration(r.message.feeRecipient, ToInt(r.message.gasLimit), r.message.timestamp, r.message.pubkey),
          r.signature)
  }

  /** The deposits of one amount for a validator. */
  function DepositsFor(ds: seq<SignedDeposit>, pk: PubKey): (r: seq<SignedDeposit>) {
    if ds == [] then []
    else DepositsFor(ds[..|ds| - 1], pk) + (if ds[|ds| - 1].message.pubkey == pk then [ds[|ds| - 1]] else [])
  }

  function ForKey(pk: PubKey): (f: seq<SignedDeposit> -> seq<SignedDeposit>) {
    ds => DepositsFor(ds, pk)
  }

  /** The deposits of all amounts for a validator, in the order of the amounts. */
  function AllDepositsFor(dss: seq<seq<SignedDeposit>>, pk: PubKey): (r: seq<SignedDeposit>) {
    Collect(dss, ForKey(pk))
  }

  function FirstRegistration(regs: seq<SignedRegistration>, pk: PubKey): (r: Option<SignedRegistration>) {
    if regs == [] then None
    else if regs[0].message.pubkey == pk then Some(regs[0])
    else FirstRegistration(regs[1..], pk)
  }

  ghost predicate IsDistValidator(share: Share, dss: seq<seq<SignedDeposit>>, regs: seq<SignedRegistration>,
                                  v: DistValidator) {
    && v.pubkey == share.pubkey
    && (exists ids :: InKeyOrder(share.publicShares, ids, v.pubshares))
    && AllDepositsFor(dss, share.pubkey) != [] && v.partialDeposits == LockDeposits(AllDepositsFor(dss, share.pubkey))
    && var reg := FirstRegistration(regs, share.pubkey); reg.Some? && v.registration == LockRegistration(reg.value)
  }

  function Grouped(m: map<PubKey, seq<SignedDeposit>>, pk: PubKey): (r: seq<SignedDeposit>) {
    if pk in m then m[pk] else []
  }

  ghost predicate IsGrouped(before: map<PubKey, seq<SignedDeposit>>, ds: seq<SignedDeposit>,
                            m: map<PubKey, seq<SignedDeposit>>) {
    forall pk :: Grouped(m, pk) == Grouped(before, pk) + DepositsFor(ds, pk)
  }

  lemma GroupOne(before: map<PubKey, seq<SignedDeposit>>, ds: seq<SignedDeposit>, i: nat,
                 m: map<PubKey, seq<SignedDeposit>>)
    requires i < |ds| && IsGrouped(before, ds[..i], m)
    ensures var pk := ds[i].message.pubkey; IsGrouped(before, ds[..i + 1], m[pk := Grouped(m, pk) + [ds[i]]])
  {
    assert ds[..i + 1][..i] == ds[..i];
    var pk := ds[i].message.pubkey;
    var m' := m[pk := Grouped(m, pk) + [ds[i]]];
    forall q ensures Grouped(m', q) == Grouped(before, q) + DepositsFor(ds[..i + 1], q) {
      assert Grouped(m, q) == Grouped(before, q) + DepositsFor(ds[..i], q);
      if q != pk {
        assert Grouped(m', q) == Grouped(m, q);
      }
    }
  }

  /** The inner loop over the deposits of one amount. */
  method GroupAmount(before: map<PubKey, seq<SignedDeposit>>, ds: seq<SignedDeposit>)
      returns (m: map<PubKey, seq<SignedDeposit>>)
    requires forall pk | pk in before :: before[pk] != []
    ensures IsGrouped(before, ds, m)
    ensures forall pk | pk in m :: m[pk] != []
  {
    m := before;
    assert forall pk :: DepositsFor(ds[..0], pk) == [];
    hide DepositsFor;
    for i := 0 to |ds|
      invariant IsGrouped(before, ds[..i], m)
      invariant forall pk | pk in m :: m[pk] != []
    {
      GroupOne(before, ds, i, m);
      m := m[ds[i].message.pubkey := Grouped(m, ds[i].message.pubkey) + [ds[i]]];
    }
    assert ds[..|ds|] == ds;
  }

  method GroupDeposits(dss: seq<seq<SignedDeposit>>) returns (m: map<PubKey, seq<SignedDeposit>>)
    ensures forall pk :: Grouped(m, pk) == AllDepositsFor(dss, pk)
    ensures forall pk | pk in m :: m[pk] != []
  {
    hide DepositsFor;
    m := map[];
    for a := 0 to |dss|
      invariant forall pk :: Grouped(m, pk) == AllDepositsFor(dss[..a], pk)
      invariant forall pk | pk in m :: m[pk] != []
    {
      assert dss[..a + 1][..a] == dss[..a];
      m := GroupAmount(m, dss[a]);
    }
    assert dss[..|dss|] == dss;
  }

  /** The inner loop over the registrations. */
  method FindRegistration(regs: seq<SignedRegistration>, pk: PubKey) returns (r: Option<SignedRegistration>)
    ensures r == FirstRegistration(regs, pk)
  {
    for i := 0 to |regs|
      invariant FirstRegistration(regs, pk) == FirstRegistration(regs[i..], pk)
    {
      if regs[i].message.pubkey != pk {
        continue;
      }
      return Some(regs[i]);
    }
    return None;
  }

  /** createDistValidators. */
  method CreateDistValidators(shares: seq<Share>, dss: seq<seq<SignedDeposit>>, regs: seq<SignedRegistration>)
    returns (r: Option<seq<DistValidator>>)
    ensures r.Some? <==> forall i | 0 <= i < |shares| ::
      FirstRegistration(regs, shares[i].pubkey).Some? && AllDepositsFor(dss, shares[i].pubkey) != []
    ensures r.Some? ==>
      |r.value| == |shares| && forall i | 0 <= i < |shares| :: IsDistValidator(shares[i], dss, regs, r.value[i])
  {
    hide AllDepositsFor, FirstRegistration, InKeyOrder;
    var deposits := GroupDeposits(dss);
    var dvs := [];
    for i := 0 to |shares|
      invariant |dvs| == i && forall k | 0 <= k < i :: IsDistValidator(shares[k], dss, regs, dvs[k])
    {
      var msg, ids := MsgFromShare(shares[i]);
      assert Grouped(deposits, msg.pubkey) == AllDepositsFor(dss, shares[i].pubkey);
      var reg := FindRegistration(regs, msg.pubkey);
      if reg == None {
        return None;
      }
      if msg.pubkey !in deposits {
        return None;
      }
      var ds := deposits[msg.pubkey];
      var dv := DistValidator(msg.pubkey, msg.pubShares, LockDeposits(ds), LockRegistration(reg.value));
      dvs := dvs + [dv];
    }
    return Some(dvs);
  }

  // ----- the order of the deposits and registrations is invisible -----

  ghost predicate DistinctDeposits(ds: seq<SignedDeposit>) {
    forall i, j | 0 <= i < j < |ds| :: ds[i].message.pubkey != ds[j].message.pubkey
  }

  ghost predicate DistinctRegistrations(rs: seq<SignedRegistration>) {
    forall i, j | 0 <= i < j < |rs| :: rs[i].message.pubkey != rs[j].message.pubkey
  }

  lemma {:induction false} NoDeposits(ds: seq<SignedDeposit>, pk: PubKey)
    requires forall i | 0 <= i < |ds| :: ds[i].message.pubkey != pk
    ensures DepositsFor(ds, pk) == []
  {
    if ds != [] {
      NoDeposits(ds[..|ds| - 1], pk);
    }
  }

  lemma {:induction false} OneDeposit(ds: seq<SignedDeposit>, i: nat)
    requires DistinctDeposits(ds) && i < |ds|
    ensures DepositsFor(ds, ds[i].message.pubkey) == [ds[i]]
  {
    var m := |ds| - 1;
    if i < m {
      OneDeposit(ds[..m], i);
    } else {
      NoDeposits(ds[..m], ds[i].message.pubkey);
    }
  }

  lemma SameDeposits(ds: seq<SignedDeposit>, es: seq<SignedDeposit>, pk: PubKey)
    requires DistinctDeposits(ds) && DistinctDeposits(es) && multiset(ds) == multiset(es)
    ensures DepositsFor(ds, pk) == DepositsFor(es, pk)
  {
    if i :| 0 <= i < |ds| && ds[i].message.pubkey == pk {
      assert ds[i] in multiset(es);
      var j :| 0 <= j < |es| && es[j] == ds[i];
      OneDeposit(ds, i);
      OneDeposit(es, j);
    } else {
      forall j | 0 <= j < |es| ensures es[j].message.pubkey != pk {
        assert es[j] in multiset(ds);
      }
      NoDeposits(ds, pk);
      NoDeposits(es, pk);
    }
  }

  lemma {:induction false} OneRegistration(rs: seq<SignedRegistration>, i: nat)
    requires DistinctRegistrations(rs) && i < |rs|
    ensures FirstRegistration(rs, rs[i].message.pubkey) == Some(rs[i])
  {
    if i > 0 {
      OneRegistration(rs[1..], i - 1);
    }
  }

  lemma {:induction false} NoRegistrationFor(rs: seq<SignedRegistration>, pk: PubKey)
    requires forall i | 0 <= i < |rs| :: rs[i].message.pubkey != pk
    ensures FirstRegistration(rs, pk) == None
  {
    if rs != [] {
      NoRegistrationFor(rs[1..], pk);
    }
  }

  lemma SameRegistration(rs: seq<SignedRegistration>, ts: seq<SignedRegistration>, pk: PubKey)
    requires DistinctRegistrations(rs) && DistinctRegistrations(ts) && multiset(rs) == multiset(ts)
    ensures FirstRegistration(rs, pk) == FirstRegistration(ts, pk)
  {
    if i :| 0 <= i < |rs| && rs[i].message.pubkey == pk {
      assert rs[i] in multiset(ts);
      var j :| 0 <= j < |ts| && ts[j] == rs[i];
      OneRegistration(rs, i);
      OneRegistration(ts, j);
    } else {
      forall j | 0 <= j < |ts| ensures ts[j].message.pubkey != pk {
        assert ts[j] in multiset(rs);
      }
      NoRegistrationFor(rs, pk);
      NoRegistrationFor(ts, pk);
    }
  }

  lemma {:induction false} SameAllDeposits(dss: seq<seq<SignedDeposit>>, ess: seq<seq<SignedDeposit>>, pk: PubKey)
    requires |dss| == |ess| && forall a | 0 <= a < |dss| :: DepositsFor(dss[a], pk) == DepositsFor(ess[a], pk)
    ensures AllDepositsFor(dss, pk) == AllDepositsFor(ess, pk)
  {
    if dss != [] {
      SameAllDeposits(dss[..|dss| - 1], ess[..|ess| - 1], pk);
    }
  }

  /** Aggregation visits validators in map order. Permuting the registrations, and the deposits within each amount,
      does not change the validator that createDistValidators assembles. */
  lemma OrderIsInvisible(share: Share, dss: seq<seq<SignedDeposit>>, ess: seq<seq<SignedDeposit>>,
                         rs: seq<SignedRegistration>, ts: seq<SignedRegistration>, v: DistValidator, w: DistValidator)
    requires DistinctRegistrations(rs) && DistinctRegistrations(ts) && multiset(rs) == multiset(ts)
    requires |dss| == |ess| && forall a | 0 <= a < |dss| ::
      DistinctDeposits(dss[a]) && DistinctDeposits(ess[a]) && multiset(dss[a]) == multiset(ess[a])
    requires IsDistValidator(share, dss, rs, v) && IsDistValidator(share, ess, ts, w)
    ensures v == w
  {
    hide InKeyOrder, AllDepositsFor, FirstRegistration, DistinctDeposits, DistinctRegistrations;
    var pk := share.pubkey;
    SameRegistration(rs, ts, pk);
    forall a | 0 <= a < |dss| ensures DepositsFor(dss[a], pk) == DepositsFor(ess[a], pk) {
      SameDeposits(dss[a], ess[a], pk);
    }
    SameAllDeposits(dss, ess, pk);
    SamePubShares(share, v, w);
  }

  lemma SamePubShares(share: Share, v: DistValidator, w: DistValidator)
    requires exists ids :: InKeyOrder(share.publicShares, ids, v.pubshares)
    requires exists ids :: InKeyOrder(share.publicShares, ids, w.pubshares)
    ensures v.pubshares == w.pubshares
  {
    var ids :| InKeyOrder(share.publicShares, ids, v.pubshares);
    var jds :| InKeyOrder(share.publicShares, jds, w.pubshares);
    InKeyOrderUnique(share.publicShares, ids, v.pubshares, jds, w.pubshares);
  }
}
