/** A small ceremony of two operators and one validator that finishes on both, each having heard the other after itself:
    the laws and conditions of the ceremony's theorems can be met together. */
module Witness {
  import opened Prelude
  import opened Bytes
  import opened Sorting
  import opened Merkle
  import opened Definition
  import opened Lock
  import opened Mailbox
  import opened Frost
  import opened FrostRounds
  import opened Shares
  import opened Aggregation
  import opened DistValidators
  import opened Ceremony
  import opened LockIntegrity
  import opened Agreement
  import NodeSigs
  import Ex = Exchanger

  const SIG: Sig := Zeros(LEN_BLS_SIG)
  const KEY: PubKey := Zeros(LEN_PUBKEY)
  const AMOUNT: uint64 := 32_000_000_000

  /** Every key of the right length has one valid signature, for every message, and the only multi-signature is for the
      hash of the ceremony's lock. */
  function OneSignature(): (b: Bls) {
    Bls((_, _) => Some(SIG), (pk, h, s) => |pk| == LEN_PUBKEY && s == SIG, _ => Some(SIG), _ => Some(SIG),
        (_, _, h) => IsSmallHash(h))
  }

  predicate IsSmallHash(h: Digest) {
    LockDigest(Lock(DEF, [SmallValidator()], Raw([]), SIG, [])) == Some(h)
  }

  function SmallEth2(): (e: Eth2) {
    Eth2((_, _) => Some(Zeros(LEN_WITHDRAW_CREDS)), _ => Some(Zeros(ADDRESS_LEN)),
         (f: Bytes) => if |f| == LEN_FORK_VERSION then Some(ZERO_TIME) else None,
         (_, _) => Some(Raw([])), (_, _) => Some(Raw([])))
  }

  /** Two operators and one validator, in v1.7. */
  const DEF := Definition(
    [], [], V1(7), [], 1, 1, [], Zeros(LEN_FORK_VERSION), [Operator([], [1], [], []), Operator([], [2], [], [])],
    Creator([], []), [ValidatorAddresses([], [])], [], [], 0, false, Raw([]), Raw([]))

  function SmallSetup(): (s: Setup) {
    Setup(OneSignature(), SmallEth2(), DEF, [AMOUNT])
  }

  lemma SmallLaws()
    ensures SmallSetup().Valid()
  {
  }

  /** The peers are 0 and 1. */
  type Me = p: nat | p < 2

  function Idx(me: Me): (i: uint32) {
    me + 1
  }

  const SHARE := Share(KEY, [], map[1 := KEY, 2 := KEY])

  /** What the exchanges of a node return: its own signature came first. */
  function Psigs(me: Me): (psigs: seq<Ex.ParSig>) {
    [Ex.ParSig(Idx(me), SIG), Ex.ParSig(Idx(1 - me), SIG)]
  }

  function Data(me: Me): (d: Ex.DataSet) {
    map[KEY := Psigs(me)]
  }

  // ----- the steps after the key generation -----

  lemma PsigsVerify(me: Me, h: Digest)
    ensures LastShare([SHARE], KEY) == Some(SHARE) && PsigsOk(OneSignature(), h, Some(SHARE), Psigs(me))
  {
    hide Zeros;
    var b, psigs := OneSignature(), Psigs(me);
    assert |KEY| == LEN_PUBKEY && |SIG| == LEN_BLS_SIG;
    assert PubShare(Some(SHARE), 1) == Some(KEY) && PubShare(Some(SHARE), 2) == Some(KEY);
    assert PsigOk(b, h, Some(SHARE), psigs[0]) && PsigOk(b, h, Some(SHARE), psigs[1]);
  }

  /** Any message that the one share can sign is aggregated to the signed message. */
  lemma SmallStep<M(!new), R>(me: Me, msg: (PubKey, nat) -> Option<M>, root: M -> Option<Digest>,
                              signed: (M, Sig) -> R, m: M)
    requires msg(KEY, 0) == Some(m) && root(m).Some?
    ensures StepDone(OneSignature(), [SHARE], msg, root, signed, Data(me), [signed(m, SIG)])
  {
    var b, shares, msgs, order := OneSignature(), [SHARE], map[KEY := m], [KEY];
    assert SignOne(b, shares, msg, root, 0) == Some((m, SIG));
    forall pk ensures
      var last := LastSigned(b, shares, msg, root, 1, pk);
      Lookup(msgs, pk) == if last == None then None else Some(last.value.0)
    {
      assert LastSigned(b, shares, msg, root, 0, pk) == None;
    }
    assert Signed(b, shares, msg, root, msgs);
    PsigsVerify(me, root(m).value);
    hide PsigsOk, LastShare, SignOne, LastSigned, Signed, Zeros;
    assert |KEY| == LEN_PUBKEY;
    assert GroupSig(b, KEY, root(m).value, Some(SHARE), Psigs(me)) == Some(SIG);
    assert IsAggregate(b, Data(me), shares, msgs, root, signed, order, [signed(m, SIG)]);
    assert IsOrder(order, Data(me).Keys);
  }

  function SmallDeposit(): (d: SignedDeposit) {
    SignedDeposit(DepositMessage(KEY, Zeros(LEN_WITHDRAW_CREDS), AMOUNT), SIG)
  }

  function SmallRegistration(): (r: SignedRegistration) {
    SignedRegistration(RegistrationMessage(Zeros(ADDRESS_LEN), DEFAULT_GAS_LIMIT, ZERO_TIME, KEY), SIG)
  }

  function SmallValidator(): (v: DistValidator) {
    DistValidator(KEY, [KEY, KEY], LockDeposits([SmallDeposit()]), LockRegistration(SmallRegistration()))
  }

  lemma SmallSharesInOrder(key: PubKey)
    ensures InKeyOrder(map[1 := key, 2 := key], [1, 2], [key, key])
  {
    assert Elements([1, 2]) == {1, 2};
  }

  lemma SmallDepositFound(d: SignedDeposit, key: PubKey)
    requires d.message.pubkey == key
    ensures AllDepositsFor([[d]], key) == [d]
  {
    assert [d][..0] == [];
    assert DepositsFor([d], key) == [d];
    OneOfEachAmount([[d]], key);
  }

  lemma IsSmallValidator()
    ensures IsDistValidator(SHARE, [[SmallDeposit()]], [SmallRegistration()], SmallValidator())
  {
    hide InKeyOrder, AllDepositsFor, Zeros, LockDeposits, LockRegistration;
    SmallDepositFound(SmallDeposit(), KEY);
    assert SmallValidator().pubshares == [KEY, KEY];
    SmallSharesInOrder(KEY);
  }

  lemma SmallDefinitionHashes()
    ensures DefinitionChunk(DEF, false).Some?
  {
    hide Root, BytesChunks, WordChunk, Zeros;
    assert |Zeros(LEN_FORK_VERSION)| == LEN_FORK_VERSION;
    assert HexBytes20Chunk([]).Some?;
    assert OperatorV5(DEF.operators[0], false).Some? && OperatorV5(DEF.operators[1], false).Some?;
    assert AddressPair(DEF.validatorAddresses[0]).Some? && CreatorV5(DEF.creator, false).Some?;
    assert OperatorsV5(DEF.operators, false).Some?;
    assert AddressPairs(DEF.validatorAddresses).Some?;
    assert AllSome(HeadFields(DEF)) && AllSome(MidFields(DEF, false));
  }

  lemma SmallValidatorHashes()
    ensures ValidatorsChunk([SmallValidator()], 7).Some?
  {
    hide Root, BytesChunks, WordChunk;
    var v := SmallValidator();
    assert PubsharesChunk(v.pubshares).Some?;
    assert DepositChunk(FirstDeposit(v.partialDeposits)).Some?;
    assert BuilderRegistrationChunk(v.registration).Some?;
    assert ValidatorChunk(v, 7).Some?;
  }

  lemma SmallDeposits(me: Me)
    ensures DepositsDone(SmallSetup(), [SHARE], AMOUNT, Data(me), [SmallDeposit()])
  {
    hide StepDone;
    var s := SmallSetup();
    SmallStep(me, DepositOf(s, AMOUNT), DepositRoot(s), MakeDeposit, SmallDeposit().message);
  }

  lemma SmallRegistrations(me: Me)
    ensures RegistrationsDone(SmallSetup(), [SHARE], Data(me), [SmallRegistration()])
  {
    hide StepDone;
    var s := SmallSetup();
    SmallStep(me, RegistrationOf(s), RegistrationRoot(s), MakeRegistration, SmallRegistration().message);
  }

  lemma SmallLockHashes(l: Lock)
    requires l.def == DEF && l.validators == [SmallValidator()]
    ensures LockDigest(l).Some?
  {
    hide DefinitionChunk, ValidatorsChunk, Root;
    SmallDefinitionHashes();
    SmallValidatorHashes();
  }

  lemma SmallLock(me: Me, ds: seq<seq<SignedDeposit>>, rs: seq<SignedRegistration>, l: Lock)
    requires l.def == DEF && l.validators == [SmallValidator()] && l.signatureAggregate == SIG
    requires LockDigest(l) == Some(l.lockHash) && l.nodeSignatures == []
    requires IsDistValidator(SHARE, ds, rs, SmallValidator())
    ensures IsLock(SmallSetup(), [SHARE], ds, rs, Data(me), l)
  {
    hide IsDistValidator, LockDigest, PsigsOk, LastShare, Zeros, SigsIn, PubSharesIn;
    HashIsOfValidators(l, Lock(DEF, [SmallValidator()], Raw([]), SIG, []));
    var b, order := OneSignature(), [KEY];
    assert AreValidators([SHARE], ds, rs, [SmallValidator()]);
    PsigsVerify(me, l.lockHash);
    assert AllSigsOk(b, Data(me), [SHARE], l.lockHash);
    assert IsOrder(order, Data(me).Keys);
    assert b.aggregate(Collect(order, SigsIn(Data(me)))) == Some(SIG);
  }

  /** The conclusion of the ceremony on a node. */
  lemma SmallOutcome(me: Me) returns (o: Outcome)
    ensures Aggregated(SmallSetup(), o) && o.shares == [SHARE]
    ensures SignsOnly(SmallSetup().bls, o.lock.signatureAggregate, o.lock.lockHash)
    ensures o.depositData == [Data(me)] && o.registrationData == Data(me) && o.lockData == Data(me)
  {
    hide DepositsDone, RegistrationsDone, IsLock, LockDigest, IsDistValidator, Zeros;
    var ds, rs := [[SmallDeposit()]], [SmallRegistration()];
    SmallDeposits(me);
    SmallRegistrations(me);
    IsSmallValidator();
    var l0 := Lock(DEF, [SmallValidator()], Raw([]), SIG, []);
    SmallLockHashes(l0);
    var l := l0.(lockHash := LockDigest(l0).value);
    HashIsOfValidators(l0, l);
    SmallLock(me, ds, rs, l);
    o := Outcome([SHARE], [Data(me)], ds, Data(me), rs, Data(me), l);
  }

  // ----- the broadcast rounds -----

  const CLUSTER := Cluster(map[0 := 1, 1 := 2], 0, 1)

  lemma SmallClusterFits()
    ensures Fits(CLUSTER, SmallSetup())
  {
    hide Setup.Valid;
    SmallLaws();
    assert |CLUSTER.shareIdx| == 2;
  }

  function CastKey(p: Me): (k: MsgKey) {
    MsgKey(0, Idx(p), 0)
  }

  function Body<P>(p: Me, payload: P): (es: seq<Entry<P>>) {
    [Entry(Some(CastKey(p)), payload)]
  }

  function Bodies<P>(payload: P): (bodies: map<Peer, seq<Entry<P>>>) {
    map[0 := Body(0, payload), 1 := Body(1, payload)]
  }

  /** What a node receives in a round: its own message first. */
  function Recv<P>(me: Me, payload: P): (recv: seq<Envelope<seq<Entry<P>>>>) {
    [Envelope(me, Body(me, payload)), Envelope(1 - me, Body(1 - me, payload))]
  }

  function RoundEvents<P>(me: Me, payload: P): (es: seq<Event<seq<Entry<P>>>>) {
    [SendSelf(Body(me, payload)), Receive, Deliver(1 - me, Body(1 - me, payload)), Receive]
  }

  function RoundStates<P>(me: Me, payload: P): (s: seq<State<seq<Entry<P>>>>) {
    var r := Recv(me, payload);
    [State({}, false, [], []), State({}, true, r[..1], []), State({}, true, [], r[..1]),
     State({1 - me}, true, r[1..], r[..1]), State({1 - me}, true, [], r)]
  }

  lemma SmallTransport<P(!new)>(me: Me, payload: P, cfg: Config<seq<Entry<P>>>)
    requires cfg.peers == {0, 1} && cfg.self == me && cfg.accept(1 - me, Body(1 - me, payload))
    ensures Run(cfg, RoundStates(me, payload), RoundEvents(me, payload))
  {
    hide Body;
    var s, es, r := RoundStates(me, payload), RoundEvents(me, payload), Recv(me, payload);
    assert r[..1] == [r[0]] && r[1..] == [r[1]] && r[..1] + r[1..] == r;
    assert Next(cfg, s[0], es[0], s[1]);
    assert Next(cfg, s[1], es[1], s[2]);
    assert Next(cfg, s[2], es[2], s[3]);
    assert Next(cfg, s[3], es[3], s[4]);
  }

  lemma SmallRun<P(!new)>(me: Me, payload: P, cfg: Config<seq<Entry<P>>>)
    requires cfg.peers == {0, 1} && cfg.self == me && cfg.accept(1 - me, Body(1 - me, payload))
    ensures RoundRun(CLUSTER, cfg, Bodies(payload), RoundStates(me, payload), RoundEvents(me, payload))
  {
    SmallTransport(me, payload, cfg);
    hide Run;
    assert KeyOk(Body(me, payload)[0], CLUSTER.ShareIdx(me), 0, 1);
  }

  lemma SmallResponse<P, V>(me: Me, payload: P, f: P -> Option<V>, v: V)
    requires f(payload) == Some(v)
    ensures IsResponse(Flatten(Msgs(Recv(me, payload))), f, map[CastKey(0) := v, CastKey(1) := v])
  {
    var a, b := Entry(Some(CastKey(me)), payload), Entry(Some(CastKey(1 - me)), payload);
    assert Msgs(Recv(me, payload)) == [[a], [b]];
    FlattenOfTwo(a, b);
    hide Flatten, Msgs, Recv, Last;
    forall k ensures Last([a, b], k) == if k == CastKey(0) || k == CastKey(1) then Some(payload) else None {
      LastOfTwo(a, b, k);
    }
  }

  lemma FlattenOfTwo<P>(a: Entry<P>, b: Entry<P>)
    ensures Flatten([[a], [b]]) == [a, b]
  {
    assert [[a], [b]][..1] == [[a]] && [[a]][..0] == [];
    assert Flatten([[a]]) == Flatten([[a]][..0]) + [a] == [a];
  }

  lemma LastOfTwo<P>(a: Entry<P>, b: Entry<P>, k: MsgKey)
    ensures Last([a, b], k)
            == if b.key == Some(k) then Some(b.payload) else if a.key == Some(k) then Some(a.payload) else None
  {
    assert [a, b][..1] == [a] && [a][..0] == [];
    assert Last([a], k) == if a.key == Some(k) then Some(a.payload) else Last([a][..0], k);
  }

  function SmallLibrary(): (lib: Library<Bytes>) {
    Library(_ => Some([]), (c: Round2Cast) => Some(c), _ => KEY, Conv(_ => Some(KEY), _ => Some([])))
  }

  const CAST1 := Round1Cast([], [], [])
  const CAST2 := Round2Cast([], [])

  function SmallKeyGen(me: Me): (g: KeyGen<Bytes>) {
    KeyGen(Recv(me, CAST1), map[CastKey(0) := [], CastKey(1) := []], map[0 := map[1 := [], 2 := []]],
           Recv(me, CAST2), map[CastKey(0) := CAST2, CastKey(1) := CAST2],
           map[0 := Participant(KEY, [])], [0], [SHARE])
  }

  lemma SmallDemux<V>(v: V)
    ensures IsDemux(map[CastKey(0) := v, CastKey(1) := v], 0, map[1 := v, 2 := v])
  {
    var m := map[CastKey(0) := v, CastKey(1) := v];
    assert CastKey(0) in m && CastKey(1) in m;
  }

  lemma SmallSharesMade(conv: Conv, c: Round2Cast, r2: map<MsgKey, Round2Cast>)
    requires conv.pubkey(c.vkShare) == Some(KEY) && conv.pubkey(KEY) == Some(KEY) && conv.secret([]) == Some([])
    requires r2 == map[CastKey(0) := c, CastKey(1) := c]
    ensures Converts(conv, r2) && IsShares(conv, map[0 := Participant(KEY, [])], r2, [0], [SHARE])
  {
    hide IsDemux, Zeros;
    assert PubShares(conv, r2) == map[CastKey(0) := KEY, CastKey(1) := KEY];
    SmallDemux(KEY);
  }

  lemma OneParticipant(lib: Library<Bytes>, g: KeyGen<Bytes>)
    requires IsResponse(Flatten(Msgs(g.recv1)), lib.cast1, g.casts1)
    requires IsResponse(Flatten(Msgs(g.recv2)), lib.cast2, g.casts2)
    requires g.participants.Keys == {0} == g.inputs.Keys && g.ids == [0]
    requires IsDemux(g.casts1, 0, g.inputs[0]) && g.participants[0].verificationKey == lib.groupKey(g.inputs[0])
    requires Converts(lib.conv, g.casts2) && IsShares(lib.conv, g.participants, g.casts2, g.ids, g.shares)
    ensures Processed(CLUSTER, lib, g)
  {
    hide IsResponse, Flatten, Msgs, IsDemux, Zeros, IsShares, Converts;
    assert Elements(g.ids) == {0};
  }

  lemma SmallProcessed(me: Me)
    ensures Processed(CLUSTER, SmallLibrary(), SmallKeyGen(me))
  {
    hide IsResponse, Flatten, Msgs, Recv, IsDemux, Zeros, IsShares, Converts, Processed;
    var g, lib := SmallKeyGen(me), SmallLibrary();
    var none: Bytes := [];
    SmallResponse(me, CAST1, lib.cast1, none);
    SmallResponse(me, CAST2, lib.cast2, CAST2);
    SmallDemux(none);
    SmallSharesMade(lib.conv, CAST2, g.casts2);
    assert g.participants.Keys == {0} == g.inputs.Keys;
    assert lib.groupKey(g.inputs[0]) == KEY;
    OneParticipant(lib, g);
  }

  // ----- the exchanges -----

  function SmallConfig(me: Me): (c: Ex.Config) {
    Ex.Config(2, Idx(me), 1, {KEY}, (_, _) => map[KEY := SIG])
  }

  function Own(me: Me): (m: map<PubKey, Ex.ParSig>) {
    map[KEY := Ex.ParSig(Idx(me), SIG)]
  }

  /** The last state has nothing running and knows nothing of the type. */
  ghost predicate Ready(s: Ex.State, t: Ex.SigType) {
    && s.tasks == map[] && s.chan == [] && s.current == None
    && t !in s.started && (t, KEY) !in s.entries && t !in s.store
  }

  lemma Extend(c: Ex.Config, s: seq<Ex.State>, es: seq<Ex.Event>, e: Ex.Event, x: Ex.State)
    returns (s': seq<Ex.State>, es': seq<Ex.Event>)
    requires Ex.Run(c, s, es) && Ex.Next(c, s[|es|], e, x)
    ensures Ex.Run(c, s', es') && |s'| == |es'| + 1 && s'[|es'|] == x
  {
    hide Ex.Next;
    s', es' := s + [x], es + [e];
    forall i | 0 <= i < |es'| ensures Ex.Next(c, s'[i], es'[i], s'[i + 1]) {
      if i < |es| {
        assert es[i] == es'[i] && Ex.Next(c, s[i], es[i], s[i + 1]);
      }
    }
  }

  /** Storing the one signature of a call. */
  lemma StoresOne(me: Me, s: Ex.State, t: Ex.SigType, who: Me, before: seq<Ex.ParSig>, s': Ex.State)
    requires s.tasks == map[0 := Ex.Task(t, Own(who), map[], None)]
    requires Ex.Entries(s, t, KEY) == before && before == (if who == me then [] else Psigs(me)[..1])
    requires var sigs := before + [Own(who)[KEY]];
      s' == s.(entries := s.entries[(t, KEY) := sigs],
               tasks := map[0 := Ex.Task(t, map[], if who == me then map[] else map[KEY := sigs], None)])
    ensures Ex.Next(SmallConfig(me), s, Ex.StoreOne(0, KEY), s')
  {
    hide Zeros;
    var sig := Own(who)[KEY];
    assert Own(who) - {KEY} == map[];
    assert Ex.AddSig(before, sig) == Ex.Added(before + [sig]);
    hide Ex.AddSig;
    assert s.tasks[0] == Ex.Task(t, Own(who), map[], None);
  }

  lemma MergesNone(me: Me, s: Ex.State, t: Ex.SigType, s': Ex.State)
    requires s.tasks == map[0 := Ex.Task(t, map[], map[], None)] && s' == s.(tasks := map[])
    ensures Ex.Next(SmallConfig(me), s, Ex.Merge(0), s')
  {
    assert s.tasks - {0} == map[];
  }

  lemma MergesAll(me: Me, s: Ex.State, t: Ex.SigType, s': Ex.State)
    requires s.tasks == map[0 := Ex.Task(t, map[], Data(me), None)] && t !in s.store
    requires s' == s.(store := s.store[t := Data(me)], tasks := map[0 := Ex.Task(t, map[], map[], Some(Data(me)))])
    ensures Ex.Next(SmallConfig(me), s, Ex.Merge(0), s')
  {
    hide Psigs, Zeros;
    assert KEY in Data(me) && |Data(me)| == 1;
    assert map[] + Data(me) == Data(me);
    assert Ex.MergedStore(s.store, t, Data(me)) == s.store[t := Data(me)];
  }

  function Started(me: Me, a: Ex.State, t: Ex.SigType): (s: Ex.State) {
    a.(started := a.started + {t}, current := Some(t), tasks := map[0 := Ex.Task(t, Own(me), map[], None)])
  }

  /** The state of an exchange after this node has stored its own signature. */
  function Waiting(me: Me, a: Ex.State, t: Ex.SigType): (s: Ex.State) {
    Started(me, a, t).(entries := a.entries[(t, KEY) := Psigs(me)[..1]], tasks := map[])
  }

  lemma StartsOne(me: Me, s: seq<Ex.State>, es: seq<Ex.Event>, t: Ex.SigType)
    returns (s': seq<Ex.State>, es': seq<Ex.Event>)
    requires Ex.Run(SmallConfig(me), s, es) && |s| == |es| + 1 && Ready(s[|es|], t) && Ex.Gated(t)
    ensures Ex.Run(SmallConfig(me), s', es') && |s'| == |es'| + 1 && s'[|es'|] == Waiting(me, s[|es|], t)
  {
    hide Ex.Run, Zeros;
    var c, a0 := SmallConfig(me), s[|es|];
    var a1 := Started(me, a0, t);
    assert Ex.MessageOf(c, c.self, t) == Own(me);
    s', es' := Extend(c, s, es, Ex.Start(0, t), a1);
    var a2 := a1.(entries := a0.entries[(t, KEY) := Psigs(me)[..1]], tasks := map[0 := Ex.Task(t, map[], map[], None)]);
    assert [] + [Own(me)[KEY]] == Psigs(me)[..1];
    StoresOne(me, a1, t, me, [], a2);
    MergesNone(me, a2, t, Waiting(me, a0, t));
    hide Ex.Next;
    s', es' := Extend(c, s', es', Ex.StoreOne(0, KEY), a2);
    s', es' := Extend(c, s', es', Ex.Merge(0), Waiting(me, a0, t));
  }

  function Finishing(me: Me, a: Ex.State, t: Ex.SigType): (s: Ex.State) {
    Waiting(me, a, t).(entries := a.entries[(t, KEY) := Psigs(me)], store := a.store[t := Data(me)],
                       tasks := map[0 := Ex.Task(t, map[], map[], Some(Data(me)))])
  }

  function Returned(me: Me, a: Ex.State, t: Ex.SigType): (s: Ex.State) {
    Finishing(me, a, t).(tasks := map[], chan := [], current := None, returned := a.returned[t := Data(me)])
  }

  lemma HearsOther(me: Me, s: seq<Ex.State>, es: seq<Ex.Event>, a: Ex.State, t: Ex.SigType)
    returns (s': seq<Ex.State>, es': seq<Ex.Event>)
    requires Ex.Run(SmallConfig(me), s, es) && |s| == |es| + 1 && Ready(a, t) && Ex.Gated(t)
    requires s[|es|] == Waiting(me, a, t)
    ensures Ex.Run(SmallConfig(me), s', es') && |s'| == |es'| + 1 && s'[|es'|] == Finishing(me, a, t)
  {
    hide Ex.Run, Zeros;
    var c, a3 := SmallConfig(me), Waiting(me, a, t);
    var a4 := a3.(tasks := map[0 := Ex.Task(t, Own(1 - me), map[], None)]);
    var a5 := a4.(entries := a.entries[(t, KEY) := Psigs(me)], tasks := map[0 := Ex.Task(t, map[], Data(me), None)]);
    assert Ex.Next(c, a3, Ex.Arrive(0, t, Own(1 - me)), a4);
    OtherStored(me, a, t, a4, a5);
    hide Ex.Next, Psigs, Own;
    MergesAll(me, a5, t, Finishing(me, a, t));
    s', es' := Extend(c, s, es, Ex.Arrive(0, t, Own(1 - me)), a4);
    s', es' := Extend(c, s', es', Ex.StoreOne(0, KEY), a5);
    s', es' := Extend(c, s', es', Ex.Merge(0), Finishing(me, a, t));
  }

  lemma OtherStored(me: Me, a: Ex.State, t: Ex.SigType, a4: Ex.State, a5: Ex.State)
    requires a4 == Waiting(me, a, t).(tasks := map[0 := Ex.Task(t, Own(1 - me), map[], None)])
    requires a5 == a4.(entries := a.entries[(t, KEY) := Psigs(me)],
                       tasks := map[0 := Ex.Task(t, map[], Data(me), None)])
    ensures Ex.Next(SmallConfig(me), a4, Ex.StoreOne(0, KEY), a5)
  {
    hide Ex.Next, Zeros;
    assert Psigs(me)[..1] + [Own(1 - me)[KEY]] == Psigs(me);
    assert a4.entries[(t, KEY) := Psigs(me)] == a5.entries;
    StoresOne(me, a4, t, 1 - me, Psigs(me)[..1], a5);
  }

  /** One exchange from its start to its return. */
  lemma ExchangesOne(me: Me, s: seq<Ex.State>, es: seq<Ex.Event>, t: Ex.SigType)
    returns (s': seq<Ex.State>, es': seq<Ex.Event>)
    requires Ex.Run(SmallConfig(me), s, es) && |s| == |es| + 1 && Ready(s[|es|], t) && Ex.Gated(t)
    ensures Ex.Run(SmallConfig(me), s', es') && |s'| == |es'| + 1
    ensures s'[|es'|].returned == s[|es|].returned[t := Data(me)]
    ensures forall u: Ex.SigType | u != t && Ready(s[|es|], u) :: Ready(s'[|es'|], u)
  {
    hide Ex.Run, Psigs, Own, Data, Zeros, Ex.Next;
    var c, a := SmallConfig(me), s[|es|];
    s', es' := StartsOne(me, s, es, t);
    s', es' := HearsOther(me, s', es', a, t);
    var a7 := Finishing(me, a, t).(chan := [Data(me)], tasks := map[]);
    LastSteps(me, t, Finishing(me, a, t), a7, Returned(me, a, t));
    s', es' := Extend(c, s', es', Ex.Send(0), a7);
    s', es' := Extend(c, s', es', Ex.Return, Returned(me, a, t));
  }

  lemma LastSteps(me: Me, t: Ex.SigType, a6: Ex.State, a7: Ex.State, a8: Ex.State)
    requires a6.tasks == map[0 := Ex.Task(t, map[], map[], Some(Data(me)))] && a6.chan == [] && a6.current == Some(t)
    requires a7 == a6.(chan := [Data(me)], tasks := map[])
    requires a8 == a7.(chan := [], current := None, returned := a7.returned[t := Data(me)])
    ensures Ex.Next(SmallConfig(me), a6, Ex.Send(0), a7) && Ex.Next(SmallConfig(me), a7, Ex.Return, a8)
  {
    hide Data, Zeros;
    assert a6.tasks - {0} == map[];
    assert [] + [Data(me)] == [Data(me)] && [Data(me)][1..] == [];
  }

  lemma SmallExchanges(me: Me) returns (s: seq<Ex.State>, es: seq<Ex.Event>)
    ensures Ex.Run(SmallConfig(me), s, es) && |s| == |es| + 1
    ensures s[|es|].returned
            == map[Ex.SIG_DEPOSIT_DATA := Data(me), Ex.SIG_VALIDATOR_REGISTRATION := Data(me), Ex.SIG_LOCK := Data(me)]
  {
    s, es := [Ex.State(map[], map[], map[], [], {}, None, map[])], [];
    assert Ex.Run(SmallConfig(me), s, es);
    hide Ex.Run, Data, SmallConfig;
    s, es := ExchangesOne(me, s, es, Ex.SIG_DEPOSIT_DATA);
    s, es := ExchangesOne(me, s, es, Ex.SIG_VALIDATOR_REGISTRATION);
    s, es := ExchangesOne(me, s, es, Ex.SIG_LOCK);
  }

  // ----- all together -----

  /** Each of the two nodes goes through the whole ceremony over the same broadcasts. */
  lemma NodeCanParticipate(me: Me) returns (x: Node<Bytes>)
    ensures Fits(CLUSTER, SmallSetup()) && x.self == me
    ensures Participates(CLUSTER, SmallLibrary(), SmallSetup(), Bodies(CAST1), Bodies(CAST2), x)
    ensures x.keys.recv1 == Recv(me, CAST1)
    ensures SignsOnly(SmallSetup().bls, x.outcome.lock.signatureAggregate, x.outcome.lock.lockHash)
  {
    hide SignsOnly, RoundRun, Processed, Aggregated, Ex.Run, Fits, Data, Zeros, ExchangeRun, SmallConfig, Bodies;
    SmallClusterFits();
    SmallRun(me, CAST1, Round1CastsConfig(CLUSTER, me));
    SmallRun(me, CAST2, Round2CastsConfig(CLUSTER, me));
    SmallProcessed(me);
    var o := SmallOutcome(me);
    var xs, xes := SmallExchanges(me);
    x := Node.Node(me, RoundStates(me, CAST1), RoundEvents(me, CAST1), RoundStates(me, CAST2), RoundEvents(me, CAST2),
                   SmallKeyGen(me), SmallConfig(me), xs, xes, o);
    SmallExchangeRun(me, x);
  }

  lemma SmallExchangeRun(me: Me, x: Node<Bytes>)
    requires x.self == me && x.xc == SmallConfig(me) && x.keys.shares == [SHARE] && |x.xs| == |x.xes| + 1
    requires Ex.Run(x.xc, x.xs, x.xes) && x.outcome.depositData == [Data(me)]
    requires x.outcome.registrationData == Data(me) && x.outcome.lockData == Data(me)
    requires x.xs[|x.xes|].returned
             == map[Ex.SIG_DEPOSIT_DATA := Data(me), Ex.SIG_VALIDATOR_REGISTRATION := Data(me), Ex.SIG_LOCK := Data(me)]
    ensures ExchangeRun(CLUSTER, SmallSetup(), x)
  {
    hide Ex.Run, Data, Zeros, OneSignature, SmallEth2;
    assert Keys([SHARE]) == {KEY} by {
      assert [SHARE][0].pubkey in Keys([SHARE]);
    }
    assert |CLUSTER.shareIdx| == 2;
  }

  /** Both nodes of the ceremony, which received the messages of round 1 in different orders. */
  lemma CeremonyCanHappen() returns (x: Node<Bytes>, y: Node<Bytes>)
    ensures Fits(CLUSTER, SmallSetup()) && x.self != y.self && x.keys.recv1 != y.keys.recv1
    ensures Participates(CLUSTER, SmallLibrary(), SmallSetup(), Bodies(CAST1), Bodies(CAST2), x)
    ensures Participates(CLUSTER, SmallLibrary(), SmallSetup(), Bodies(CAST1), Bodies(CAST2), y)
    ensures SignsOnly(SmallSetup().bls, x.outcome.lock.signatureAggregate, x.outcome.lock.lockHash)
  {
    hide Participates, Fits, SignsOnly;
    x := NodeCanParticipate(0);
    y := NodeCanParticipate(1);
    assert x.keys.recv1[0].from != y.keys.recv1[0].from;
  }

  // ----- the node signatures after it -----

  function OneNodeSignature(): (k: NodeSigs.K1) {
    NodeSigs.K1((_, _) => [1], (_, _, s) => s == [1], _ => [], _ => Some([]))
  }

  /** An exchange of node signatures over any lock hash, with a callback of the other operator, returns. */
  lemma NodeSignaturesCanBeExchanged(me: Me, h: Digest)
    returns (c: NodeSigs.Config, st: seq<NodeSigs.State>, es: seq<NodeSigs.Event>)
    ensures NodeSigs.Run(c, st, es) && |es| == 4 && es[3].Poll? && es[3].sigs.Some? && c.self == me
    ensures NodeSigs.IsPeers(c.k1, DEF, Some(c.peers)) && st[3].exchanged == Some(h)
  {
    c := NodeSigs.Config(OneNodeSignature(), [[], []], me, []);
    var s0 := NodeSigs.State([[], []], None, None, None);
    var s1 := s0.(lockHashCh := Some(h), exchanged := Some(h));
    var s2 := s1.(lockHashCh := None, lockHashData := Some(h), sigs := s0.sigs[1 - me := [1]]);
    var s3 := s2.(sigs := [[1], [1]]);
    st := [s0, s1, s2, s3, s3];
    es := [NodeSigs.Exchange(h), NodeSigs.Callback(1 - me, [1]), NodeSigs.SetLocal, NodeSigs.Poll(Some([[1], [1]]))];
    assert NodeSigs.Next(c, s0, es[0], s1);
    assert NodeSigs.Next(c, s1, es[1], s2);
    assert NodeSigs.Next(c, s2, es[2], s3);
    assert NodeSigs.AllSet(s3.sigs) && NodeSigs.Next(c, s3, es[3], s3);
  }
}
