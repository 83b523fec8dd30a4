/** The FROST rounds of dkg/frostp2p.go and dkg/frost.go around the key generation library: the messages of all
    validators travel together, and each node sorts them back out by validator, source and target. */
module Frost {
  import opened Prelude
  import opened Bytes
  import opened Mailbox

  // ----- messages -----

  /** msgKey; the zero target marks a broadcast. */
  datatype MsgKey = MsgKey(valIdx: uint32, source: uint32, target: uint32)

  /** One element of a round message: a key, which may be missing on the wire, and the encoded value. */
  datatype Entry<P> = Entry(key: Option<MsgKey>, payload: P)

  /** The protobuf getter: a missing key reads as zeros. */
  function GetKey<P>(e: Entry<P>): (k: MsgKey) {
    if e.key == None then MsgKey(0, 0, 0) else e.key.value
  }

  datatype Round1Cast = Round1Cast(wi: Bytes, ci: Bytes, commitments: seq<Bytes>)

  datatype Round2Cast = Round2Cast(verificationKey: Bytes, vkShare: Bytes)

  datatype ShamirShare = ShamirShare(id: uint32, value: Bytes)

  type Round1Casts = seq<Entry<Round1Cast>>
  type Round2Casts = seq<Entry<Round2Cast>>
  type Round1P2P = seq<Entry<ShamirShare>>

  /** The peers with their share indexes, and the parameters of the ceremony. */
  datatype Cluster = Cluster(shareIdx: map<Peer, uint32>, threshold: nat, numVals: nat)
  {
    /** Share indexes are 1 to n, one for each peer. */
    ghost predicate Valid() {
      && (forall p, q | p in shareIdx && q in shareIdx && p != q :: shareIdx[p] != shareIdx[q])
      && (forall p | p in shareIdx :: 1 <= shareIdx[p] <= |shareIdx|)
    }

    /** Reading the Go map: zero for a stranger. */
    function ShareIdx(p: Peer): (i: uint32) {
      if p in shareIdx then shareIdx[p] else 0
    }
  }

  // ----- receiver checks -----

  predicate KeyOk<P>(e: Entry<P>, source: uint32, target: uint32, numVals: nat) {
    GetKey(e).source == source && GetKey(e).target == target && GetKey(e).valIdx < numVals
  }

  predicate KeysOk<P>(es: seq<Entry<P>>, source: uint32, target: uint32, numVals: nat) {
    forall i | 0 <= i < |es| :: KeyOk(es[i], source, target, numVals)
  }

  predicate Round1CastsOk(c: Cluster, from: Peer, msg: Round1Casts) {
    && KeysOk(msg, c.ShareIdx(from), 0, c.numVals)
    && forall i | 0 <= i < |msg| :: |msg[i].payload.commitments| == c.threshold
  }

  predicate Round2CastsOk(c: Cluster, from: Peer, msg: Round2Casts) {
    KeysOk(msg, c.ShareIdx(from), 0, c.numVals)
  }

  predicate Round1P2POk(c: Cluster, self: Peer, from: Peer, msg: Round1P2P) {
    KeysOk(msg, c.ShareIdx(from), c.ShareIdx(self), c.numVals)
  }

  function Round1CastsConfig(c: Cluster, self: Peer): Config<Round1Casts> {
    Config(c.shareIdx.Keys, self, (from, msg) => Round1CastsOk(c, from, msg), true)
  }

  function Round2CastsConfig(c: Cluster, self: Peer): Config<Round2Casts> {
    Config(c.shareIdx.Keys, self, (from, msg) => Round2CastsOk(c, from, msg), true)
  }

  function Round1P2PConfig(c: Cluster, self: Peer): Config<Round1P2P> {
    Config(c.shareIdx.Keys, self, (from, msg) => Round1P2POk(c, self, from, msg), false)
  }

  /** The callbacks and channels of one node. */
  class FrostP2P {
    const cluster: Cluster
    const self: Peer
    var round1Casts: State<Round1Casts>
    var round1P2P: State<Round1P2P>
    var round2Casts: State<Round2Casts>

    /** The channels are in states that a run of the transport reaches; direct messages are never sent to this node. */
    ghost predicate Valid()
      reads this
    {
      && self in cluster.shareIdx
      && Reachable(Round1CastsConfig(cluster, self), round1Casts)
      && Reachable(Round1P2PConfig(cluster, self), round1P2P) && !round1P2P.selfSent
      && Reachable(Round2CastsConfig(cluster, self), round2Casts)
    }

    constructor (cluster: Cluster, self: Peer)
      requires self in cluster.shareIdx
      ensures this.cluster == cluster && this.self == self
      ensures Init(round1Casts) && Init(round1P2P) && Init(round2Casts) && Valid()
    {
      this.cluster := cluster;
      this.self := self;
      round1Casts := State({}, false, [], []);
      round1P2P := State({}, false, [], []);
      round2Casts := State({}, false, [], []);
      new;
      InitReachable(Round1CastsConfig(cluster, self), round1Casts);
      InitReachable(Round1P2PConfig(cluster, self), round1P2P);
      InitReachable(Round2CastsConfig(cluster, self), round2Casts);
    }

    /** newBcastCallback for round 1: the peer is recorded before its message is checked. */
    method Round1CastCallback(from: Peer, msg: Round1Casts) returns (ok: bool)
      modifies this`round1Casts
      ensures round1Casts == DeliverStep(Round1CastsConfig(cluster, self), old(round1Casts), from, msg)
      ensures ok == (from in old(round1Casts).dedup || Round1CastsOk(cluster, from, msg))
      ensures old(Valid()) && from in cluster.shareIdx && from != self ==> Valid()
    {
      DeliverReachable(Round1CastsConfig(cluster, self), round1Casts, from, msg);
      if from in round1Casts.dedup {
        return true;
      }
      round1Casts := round1Casts.(dedup := round1Casts.dedup + {from});
      for i := 0 to |msg|
        invariant forall k | 0 <= k < i ::
          KeyOk(msg[k], cluster.ShareIdx(from), 0, cluster.numVals) && |msg[k].payload.commitments| == cluster.threshold
      {
        var key := GetKey(msg[i]);
        if key.source != cluster.ShareIdx(from) {
          return false;
        } else if key.target != 0 {
          return false;
        } else if key.valIdx >= cluster.numVals {
          return false;
        }
        if |msg[i].payload.commitments| != cluster.threshold {
          return false;
        }
      }
      round1Casts := round1Casts.(chan := round1Casts.chan + [Envelope(from, msg)]);
      return true;
    }

    /** newBcastCallback for round 2. */
    method Round2CastCallback(from: Peer, msg: Round2Casts) returns (ok: bool)
      modifies this`round2Casts
      ensures round2Casts == DeliverStep(Round2CastsConfig(cluster, self), old(round2Casts), from, msg)
      ensures ok == (from in old(round2Casts).dedup || Round2CastsOk(cluster, from, msg))
      ensures old(Valid()) && from in cluster.shareIdx && from != self ==> Valid()
    {
      DeliverReachable(Round2CastsConfig(cluster, self), round2Casts, from, msg);
      if from in round2Casts.dedup {
        return true;
      }
      round2Casts := round2Casts.(dedup := round2Casts.dedup + {from});
      for i := 0 to |msg|
        invariant forall k | 0 <= k < i :: KeyOk(msg[k], cluster.ShareIdx(from), 0, cluster.numVals)
      {
        var key := GetKey(msg[i]);
        if key.source != cluster.ShareIdx(from) {
          return false;
        } else if key.target != 0 {
          return false;
        } else if key.valIdx >= cluster.numVals {
          return false;
        }
      }
      round2Casts := round2Casts.(chan := round2Casts.chan + [Envelope(from, msg)]);
      return true;
    }

    /** newP2PCallback: the message is checked before the peer is recorded. */
    method P2PCallback(from: Peer, msg: Round1P2P) returns (ok: bool)
      modifies this`round1P2P
      ensures round1P2P == DeliverStep(Round1P2PConfig(cluster, self), old(round1P2P), from, msg)
      ensures ok == Round1P2POk(cluster, self, from, msg)
      ensures old(Valid()) && from in cluster.shareIdx && from != self ==> Valid()
    {
      DeliverReachable(Round1P2PConfig(cluster, self), round1P2P, from, msg);
      for i := 0 to |msg|
        invariant forall k | 0 <= k < i ::
          KeyOk(msg[k], cluster.ShareIdx(from), cluster.ShareIdx(self), cluster.numVals)
      {
        var key := GetKey(msg[i]);
        if key.source != cluster.ShareIdx(from) {
          return false;
        } else if key.target != cluster.ShareIdx(self) {
          return false;
        } else if key.valIdx >= cluster.numVals {
          return false;
        }
      }
      if from in round1P2P.dedup {
        return true;
      }
      round1P2P := round1P2P.(dedup := round1P2P.dedup + {from}, chan := round1P2P.chan + [Envelope(from, msg)]);
      return true;
    }

    /** The node's own broadcast of round 1, which the channel always has room for. */
    method SendRound1Casts(casts: Round1Casts)
      requires !round1Casts.selfSent
      modifies this`round1Casts
      ensures Next(Round1CastsConfig(cluster, self), old(round1Casts), SendSelf(casts), round1Casts)
      ensures old(Valid()) ==> Valid() && |old(round1Casts).chan| < |cluster.shareIdx|
    {
      ghost var before := round1Casts;
      round1Casts := round1Casts.(selfSent := true, chan := round1Casts.chan + [Envelope(self, casts)]);
      KeepsReachable(Round1CastsConfig(cluster, self), before, SendSelf(casts), round1Casts);
    }

    /** The node's own broadcast of round 2. */
    method SendRound2Casts(casts: Round2Casts)
      requires !round2Casts.selfSent
      modifies this`round2Casts
      ensures Next(Round2CastsConfig(cluster, self), old(round2Casts), SendSelf(casts), round2Casts)
      ensures old(Valid()) ==> Valid() && |old(round2Casts).chan| < |cluster.shareIdx|
    {
      ghost var before := round2Casts;
      round2Casts := round2Casts.(selfSent := true, chan := round2Casts.chan + [Envelope(self, casts)]);
      KeepsReachable(Round2CastsConfig(cluster, self), before, SendSelf(casts), round2Casts);
    }

    /** One turn of the select in Round1 that reads a broadcast. It never finds too many. */
    method ReceiveRound1Cast() returns (tooMany: bool)
      requires round1Casts.chan != []
      modifies this`round1Casts
      ensures Next(Round1CastsConfig(cluster, self), old(round1Casts), Receive, round1Casts)
      ensures old(Valid()) ==> Valid() && !tooMany
    {
      ghost var before := round1Casts;
      round1Casts := round1Casts.(chan := round1Casts.chan[1..], recv := round1Casts.recv + [round1Casts.chan[0]]);
      tooMany := |round1Casts.recv| > |cluster.shareIdx|;
      KeepsReachable(Round1CastsConfig(cluster, self), before, Receive, round1Casts);
    }

    /** One turn of the select in Round1 that reads a direct message. It never finds too many. */
    method ReceiveRound1P2P() returns (tooMany: bool)
      requires round1P2P.chan != []
      modifies this`round1P2P
      ensures Next(Round1P2PConfig(cluster, self), old(round1P2P), Receive, round1P2P)
      ensures old(Valid()) ==> Valid() && !tooMany
    {
      ghost var before := round1P2P;
      round1P2P := round1P2P.(chan := round1P2P.chan[1..], recv := round1P2P.recv + [round1P2P.chan[0]]);
      tooMany := |round1P2P.recv| > |cluster.shareIdx| - 1;
      KeepsReachable(Round1P2PConfig(cluster, self), before, Receive, round1P2P);
    }

    /** One turn of the select in Round2. */
    method ReceiveRound2Cast()
      requires round2Casts.chan != []
      modifies this`round2Casts
      ensures Next(Round2CastsConfig(cluster, self), old(round2Casts), Receive, round2Casts)
      ensures old(Valid()) ==> Valid() && |round2Casts.recv| <= |cluster.shareIdx|
    {
      ghost var before := round2Casts;
      round2Casts := round2Casts.(chan := round2Casts.chan[1..], recv := round2Casts.recv + [round2Casts.chan[0]]);
      KeepsReachable(Round2CastsConfig(cluster, self), before, Receive, round2Casts);
    }
  }

  lemma DeliverReachable<M(!new)>(c: Config<M>, s: State<M>, from: Peer, msg: M)
    ensures Reachable(c, s) && from in c.peers && from != c.self ==> Reachable(c, DeliverStep(c, s, from, msg))
  {
    if Reachable(c, s) && from in c.peers && from != c.self {
      NextReachable(c, s, Deliver(from, msg), DeliverStep(c, s, from, msg));
    }
  }

  /** A step from a reachable state reaches a state within the bounds. */
  lemma KeepsReachable<M(!new)>(c: Config<M>, s: State<M>, e: Event<M>, s': State<M>)
    requires Next(c, s, e, s')
    ensures Reachable(c, s) ==> Reachable(c, s') && |s'.recv| <= |c.peers| - (if s'.selfSent then 0 else 1)
    ensures Reachable(c, s) && e.SendSelf? ==> |s.chan| < |c.peers|
  {
    if Reachable(c, s) {
      ReachableBounds(c, s);
      NextReachable(c, s, e, s');
      ReachableBounds(c, s');
    }
  }

  // ----- responses -----

  function Lookup<K, V>(m: map<K, V>, k: K): (v: Option<V>) {
    if k in m then Some(m[k]) else None
  }

  /** The last element with the key, whose value the response keeps. */
  function Last<P>(es: seq<Entry<P>>, k: MsgKey): (p: Option<P>) {
    if es == [] then None
    else if es[|es| - 1].key == Some(k) then Some(es[|es| - 1].payload)
    else Last(es[..|es| - 1], k)
  }

  /** All elements in the order in which they were received. */
  function Flatten<P>(msgs: seq<seq<Entry<P>>>): (es: seq<Entry<P>>) {
    if msgs == [] then [] else Flatten(msgs[..|msgs| - 1]) + msgs[|msgs| - 1]
  }

  predicate Decodes<P, V>(e: Entry<P>, f: P -> Option<V>) {
    e.key.Some? && f(e.payload).Some?
  }

  /** m keeps, for each key, the decoded value of the last element that carries it. */
  ghost predicate IsResponse<P, V>(es: seq<Entry<P>>, f: P -> Option<V>, m: map<MsgKey, V>) {
    && (forall i | 0 <= i < |es| :: Decodes(es[i], f))
    && forall k :: Lookup(m, k) == if Last(es, k).Some? then f(Last(es, k).value) else None
  }

  lemma {:induction false} LastIsElement<P>(es: seq<Entry<P>>, k: MsgKey) returns (i: nat)
    requires Last(es, k).Some?
    ensures i < |es| && es[i] == Entry(Some(k), Last(es, k).value)
  {
    var m := |es| - 1;
    if es[m].key == Some(k) {
      i := m;
    } else {
      i := LastIsElement(es[..m], k);
    }
  }

  /** makeRound1Response and makeRound2Response. */
  method MakeResponse<P, V>(msgs: seq<seq<Entry<P>>>, f: P -> Option<V>) returns (r: Option<map<MsgKey, V>>)
    ensures r.Some? ==> IsResponse(Flatten(msgs), f, r.value)
    ensures r == None ==> exists i, j | 0 <= i < |msgs| && 0 <= j < |msgs[i]| :: !Decodes(msgs[i][j], f)
  {
    var m: map<MsgKey, V> := map[];
    for i := 0 to |msgs|
      invariant IsResponse(Flatten(msgs[..i]), f, m)
    {
      assert msgs[..i + 1][..i] == msgs[..i];
      assert Flatten(msgs[..i]) + msgs[i][..0] == Flatten(msgs[..i]);
      for j := 0 to |msgs[i]|
        invariant IsResponse(Flatten(msgs[..i]) + msgs[i][..j], f, m)
      {
        var e := msgs[i][j];
        if !Decodes(e, f) {
          return None;
        }
        ghost var before := Flatten(msgs[..i]) + msgs[i][..j];
        assert Flatten(msgs[..i]) + msgs[i][..j + 1] == before + [e];
        AppendElement(before, e, f, m);
        m := m[e.key.value := f(e.payload).value];
      }
      assert msgs[i][..|msgs[i]|] == msgs[i];
    }
    assert msgs[..|msgs|] == msgs;
    return Some(m);
  }

  lemma AppendElement<P, V>(es: seq<Entry<P>>, e: Entry<P>, f: P -> Option<V>, m: map<MsgKey, V>)
    requires IsResponse(es, f, m) && Decodes(e, f)
    ensures IsResponse(es + [e], f, m[e.key.value := f(e.payload).value])
  {
    var es', m' := es + [e], m[e.key.value := f(e.payload).value];
    assert es'[..|es|] == es;
    forall k ensures Lookup(m', k) == if Last(es', k).Some? then f(Last(es', k).value) else None {
      if k == e.key.value {
        assert Last(es', k) == Some(e.payload);
      } else {
        assert Last(es', k) == Last(es, k);
        assert Lookup(m', k) == Lookup(m, k);
      }
    }
  }

  // ----- arrival order is invisible -----

  function Msgs<M>(recv: seq<Envelope<M>>): (ms: seq<M>) {
    seq(|recv|, i requires 0 <= i < |recv| => recv[i].msg)
  }

  /** Each message carries only keys of its sender, and no sender comes twice. */
  ghost predicate Sourced<P>(c: Cluster, recv: seq<Envelope<seq<Entry<P>>>>) {
    && (forall i, j | 0 <= i < j < |recv| :: recv[i].from != recv[j].from)
    && (forall i | 0 <= i < |recv| :: recv[i].from in c.shareIdx)
    && (forall i, j | 0 <= i < |recv| && 0 <= j < |recv[i].msg| ::
          recv[i].msg[j].key.Some? && recv[i].msg[j].key.value.source == c.shareIdx[recv[i].from])
  }

  lemma {:induction false} LastConcat<P>(a: seq<Entry<P>>, b: seq<Entry<P>>, k: MsgKey)
    ensures Last(a + b, k) == if Last(b, k).Some? then Last(b, k) else Last(a, k)
  {
    if b == [] {
      assert a + b == a;
    } else {
      var m := |b| - 1;
      assert (a + b)[..|a| + m] == a + b[..m];
      LastConcat(a, b[..m], k);
    }
  }

  lemma {:induction false} NoSuchSource<P>(es: seq<Entry<P>>, k: MsgKey)
    requires forall i | 0 <= i < |es| :: es[i].key.Some? && es[i].key.value.source != k.source
    ensures Last(es, k) == None
  {
    if es != [] {
      NoSuchSource(es[..|es| - 1], k);
    }
  }

  /** A key can only come from the message of its source. */
  lemma {:induction false} LastByPeer<P>(c: Cluster, recv: seq<Envelope<seq<Entry<P>>>>, k: MsgKey)
    requires c.Valid() && Sourced(c, recv)
    ensures forall i | 0 <= i < |recv| && c.shareIdx[recv[i].from] == k.source ::
      Last(Flatten(Msgs(recv)), k) == Last(recv[i].msg, k)
    ensures (forall i | 0 <= i < |recv| :: c.shareIdx[recv[i].from] != k.source) ==>
      Last(Flatten(Msgs(recv)), k) == None
  {
    if recv != [] {
      var m := |recv| - 1;
      var init := recv[..m];
      assert Msgs(recv)[..m] == Msgs(init);
      assert Flatten(Msgs(recv)) == Flatten(Msgs(init)) + recv[m].msg;
      LastConcat(Flatten(Msgs(init)), recv[m].msg, k);
      LastByPeer(c, init, k);
      if c.shareIdx[recv[m].from] == k.source {
        assert forall i | 0 <= i < m :: c.shareIdx[init[i].from] != k.source;
      } else {
        NoSuchSource(recv[m].msg, k);
        assert forall i | 0 <= i < m :: init[i] == recv[i];
      }
    }
  }

  /** Two nodes that heard the same peers say the same things hold the same elements, in whatever order they came. */
  ghost predicate SameBodies<M>(a: seq<Envelope<M>>, b: seq<Envelope<M>>) {
    (forall i | 0 <= i < |a| :: a[i] in b) && forall j | 0 <= j < |b| :: b[j] in a
  }

  lemma LastIsOrderFree<P>(c: Cluster, a: seq<Envelope<seq<Entry<P>>>>, b: seq<Envelope<seq<Entry<P>>>>, k: MsgKey)
    requires c.Valid() && Sourced(c, a) && Sourced(c, b) && SameBodies(a, b)
    ensures Last(Flatten(Msgs(a)), k) == Last(Flatten(Msgs(b)), k)
  {
    hide Last, Flatten, Msgs;
    LastByPeer(c, a, k);
    LastByPeer(c, b, k);
    if i :| 0 <= i < |a| && c.shareIdx[a[i].from] == k.source {
      assert a[i] in b;
      var j :| 0 <= j < |b| && a[i] == b[j];
    } else {
      forall j | 0 <= j < |b| ensures c.shareIdx[b[j].from] != k.source {
        assert b[j] in a;
        var i :| 0 <= i < |a| && a[i] == b[j];
      }
    }
  }

  /** The response of a round is a function of what the peers said, not of the order in which it arrived. */
  lemma ResponseIsOrderFree<P, V>(c: Cluster, a: seq<Envelope<seq<Entry<P>>>>, b: seq<Envelope<seq<Entry<P>>>>,
                                  f: P -> Option<V>, m: map<MsgKey, V>, n: map<MsgKey, V>)
    requires c.Valid() && Sourced(c, a) && Sourced(c, b) && SameBodies(a, b)
    requires IsResponse(Flatten(Msgs(a)), f, m) && IsResponse(Flatten(Msgs(b)), f, n)
    ensures m == n
  {
    hide Last, Flatten, Sourced, SameBodies, Lookup, Decodes, Msgs;
    forall k ensures Lookup(m, k) == Lookup(n, k) {
      LastIsOrderFree(c, a, b, k);
    }
    SameLookups(m, n);
  }

  lemma SameLookups<K(!new), V>(m: map<K, V>, n: map<K, V>)
    requires forall k :: Lookup(m, k) == Lookup(n, k)
    ensures m == n
  {
    forall k ensures k in m <==> k in n {
      assert Lookup(m, k) == Lookup(n, k);
    }
    forall k | k in m ensures m[k] == n[k] {
      assert Lookup(m, k) == Lookup(n, k);
    }
  }

  /** In every run of the first round, each broadcast received from a peer is about one of the validators, is sent under
      the peer's own share index to all, and has as many commitments as the threshold. */
  lemma CommitmentsMatchThreshold(c: Cluster, self: Peer, s: seq<State<Round1Casts>>, es: seq<Event<Round1Casts>>,
                                  k: nat, i: nat, j: nat)
    requires Run(Round1CastsConfig(c, self), s, es) && k <= |es|
    requires i < |s[k].recv| && s[k].recv[i].from != self && j < |s[k].recv[i].msg|
    ensures var e := s[k].recv[i].msg[j];
      && |e.payload.commitments| == c.threshold
      && GetKey(e).valIdx < c.numVals && GetKey(e).target == 0
      && Lookup(c.shareIdx, s[k].recv[i].from) == Some(GetKey(e).source)
  {
    RunInv(Round1CastsConfig(c, self), s, es, k);
    assert Sent(s[k])[i] == s[k].recv[i];
  }
}
