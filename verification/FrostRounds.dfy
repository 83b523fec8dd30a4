/** What a node does with the messages of a round: building and grouping the outgoing ones, sorting the incoming ones
    out per validator, and assembling the key shares (dkg/frost.go, dkg/frostp2p.go, dkg/share.go). */
module FrostRounds {
  import opened Prelude
  import opened Bytes
  import opened Mailbox
  import opened Frost

  // ----- outgoing messages -----

  /** What one participant of the library produces in round 1: a broadcast and a share for each other participant. */
  datatype Round1Out<C, S> = Round1Out(cast: C, shares: map<uint32, S>)

  ghost predicate IsRound1Casts<C, S>(id: uint32, outs: map<uint32, Round1Out<C, S>>, casts: map<MsgKey, C>) {
    forall k :: Lookup(casts, k) == if k.source == id && k.target == 0 && k.valIdx in outs
                                    then Some(outs[k.valIdx].cast) else None
  }

  ghost predicate IsRound1Shares<C, S>(id: uint32, outs: map<uint32, Round1Out<C, S>>, shares: map<MsgKey, S>) {
    forall k :: Lookup(shares, k) == if k.source == id && k.valIdx in outs
                                     then Lookup(outs[k.valIdx].shares, k.target) else None
  }

  /** round1 in dkg/frost.go, over the outputs of the library. */
  method Round1<C, S>(id: uint32, outs: map<uint32, Round1Out<C, S>>)
      returns (casts: map<MsgKey, C>, shares: map<MsgKey, S>)
    ensures IsRound1Casts(id, outs, casts) && IsRound1Shares(id, outs, shares)
  {
    casts, shares := map[], map[];
    var todo := outs.Keys;
    while todo != {}
      invariant todo <= outs.Keys
      invariant forall k :: Lookup(casts, k) == if k.source == id && k.target == 0 && k.valIdx in outs.Keys - todo
                                                then Some(outs[k.valIdx].cast) else None
      invariant forall k :: Lookup(shares, k) == if k.source == id && k.valIdx in outs.Keys - todo
                                                 then Lookup(outs[k.valIdx].shares, k.target) else None
      decreases todo
    {
      var vIdx :| vIdx in todo;
      todo := todo - {vIdx};
      casts := casts[MsgKey(vIdx, id, 0) := outs[vIdx].cast];
      shares := AddShares(id, vIdx, outs[vIdx].shares, shares);
    }
  }

  method AddShares<S>(id: uint32, vIdx: uint32, own: map<uint32, S>, shares: map<MsgKey, S>) returns (r: map<MsgKey, S>)
    requires forall k | k in shares :: k.valIdx != vIdx
    ensures forall k :: Lookup(r, k) == if k.source == id && k.valIdx == vIdx then Lookup(own, k.target)
                                        else Lookup(shares, k)
  {
    r := shares;
    var todo := own.Keys;
    while todo != {}
      invariant todo <= own.Keys
      invariant forall k :: Lookup(r, k) == if k.source == id && k.valIdx == vIdx
                                            then (if k.target in own.Keys - todo then Some(own[k.target]) else None)
                                            else Lookup(shares, k)
      decreases todo
    {
      var targetID :| targetID in todo;
      todo := todo - {targetID};
      r := r[MsgKey(vIdx, id, targetID) := own[targetID]];
    }
  }

  /** es lists the map, each key once, in any order. */
  ghost predicate IsListing<V, P>(m: map<MsgKey, V>, enc: V -> P, es: seq<Entry<P>>) {
    && (forall i | 0 <= i < |es| :: es[i].key.Some? && es[i].key.value in m && es[i].payload == enc(m[es[i].key.value]))
    && (forall i, j | 0 <= i < j < |es| :: es[i].key != es[j].key)
    && (forall k | k in m :: exists i | 0 <= i < |es| :: es[i].key == Some(k))
  }

  lemma ListingAppend<V, P>(m: map<MsgKey, V>, enc: V -> P, es: seq<Entry<P>>, k: MsgKey, v: V)
    requires IsListing(m, enc, es) && k !in m
    ensures IsListing(m[k := v], enc, es + [Entry(Some(k), enc(v))])
  {
    var m', es' := m[k := v], es + [Entry(Some(k), enc(v))];
    forall q | q in m' ensures exists i | 0 <= i < |es'| :: es'[i].key == Some(q) {
      if q == k {
        assert es'[|es|].key == Some(q);
      } else {
        var i :| 0 <= i < |es| && es[i].key == Some(q);
        assert es'[i].key == Some(q);
      }
    }
  }

  /** The part of the map with keys outside todo, for one target or for all. */
  function Part<V>(m: map<MsgKey, V>, todo: set<MsgKey>, target: Option<uint32>): (r: map<MsgKey, V>) {
    map k | k in m && k !in todo && (target == None || target == Some(k.target)) :: m[k]
  }

  /** The broadcast of a round, built in map order. */
  method BuildCasts<V, P>(m: map<MsgKey, V>, enc: V -> P) returns (es: seq<Entry<P>>)
    ensures IsListing(m, enc, es)
  {
    es := [];
    var todo := m.Keys;
    while todo != {}
      invariant todo <= m.Keys
      invariant IsListing(Part(m, todo, None), enc, es)
      decreases todo
    {
      var key :| key in todo;
      ListingAppend(Part(m, todo, None), enc, es, key, m[key]);
      assert Part(m, todo - {key}, None) == Part(m, todo, None)[key := m[key]];
      todo := todo - {key};
      es := es + [Entry(Some(key), enc(m[key]))];
    }
    assert Part(m, todo, None) == m;
  }

  function ForTarget<V>(m: map<MsgKey, V>, target: uint32): (r: map<MsgKey, V>) {
    map k | k in m && k.target == target :: m[k]
  }

  /** The peers by share index, as newFrostP2P builds them. */
  ghost predicate IsByShare(c: Cluster, byShare: map<uint32, Peer>) {
    && (forall p | p in c.shareIdx :: Lookup(byShare, c.shareIdx[p]) == Some(p))
    && (forall s | s in byShare :: Lookup(c.shareIdx, byShare[s]) == Some(s))
  }

  function Grouped<P>(msgs: map<Peer, seq<Entry<P>>>, p: Peer): (es: seq<Entry<P>>) {
    if p in msgs then msgs[p] else []
  }

  /** The messages built so far list, for each peer, the keys outside todo that are addressed to it. */
  ghost predicate IsGrouping<V, P>(
      c: Cluster, m: map<MsgKey, V>, todo: set<MsgKey>, enc: V -> P, msgs: map<Peer, seq<Entry<P>>>) {
    && msgs.Keys <= c.shareIdx.Keys
    && (forall p | p in msgs :: msgs[p] != [])
    && (forall p | p in c.shareIdx :: IsListing(Part(m, todo, Some(c.shareIdx[p])), enc, Grouped(msgs, p)))
  }

  lemma GroupOne<V, P>(c: Cluster, byShare: map<uint32, Peer>, m: map<MsgKey, V>, todo: set<MsgKey>, key: MsgKey,
                       enc: V -> P,
                       msgs: map<Peer, seq<Entry<P>>>)
    requires IsByShare(c, byShare) && IsGrouping(c, m, todo, enc, msgs) && key in todo && key in m
        && key.target in byShare
    ensures var p := byShare[key.target];
      IsGrouping(c, m, todo - {key}, enc, msgs[p := Grouped(msgs, p) + [Entry(Some(key), enc(m[key]))]])
  {
    hide IsListing;
    var pID := byShare[key.target];
    assert Lookup(c.shareIdx, pID) == Some(key.target);
    var es := Grouped(msgs, pID) + [Entry(Some(key), enc(m[key]))];
    var msgs' := msgs[pID := es];
    forall p | p in c.shareIdx ensures IsListing(Part(m, todo - {key}, Some(c.shareIdx[p])), enc, Grouped(msgs', p)) {
      var part := Part(m, todo, Some(c.shareIdx[p]));
      if p == pID {
        ListingAppend(part, enc, Grouped(msgs, p), key, m[key]);
        assert Part(m, todo - {key}, Some(c.shareIdx[p])) == part[key := m[key]];
      } else {
        assert Lookup(byShare, c.shareIdx[p]) == Some(p);
        assert Part(m, todo - {key}, Some(c.shareIdx[p])) == part;
      }
    }
  }

  /** The whole map is grouped: a peer has a message exactly if something is addressed to it. */
  lemma GroupAll<V, P>(c: Cluster, m: map<MsgKey, V>, enc: V -> P, msgs: map<Peer, seq<Entry<P>>>, p: Peer)
    requires IsGrouping(c, m, {}, enc, msgs) && p in c.shareIdx
    ensures IsListing(ForTarget(m, c.shareIdx[p]), enc, Grouped(msgs, p))
    ensures p in msgs <==> exists k | k in m :: k.target == c.shareIdx[p]
  {
    var own := ForTarget(m, c.shareIdx[p]);
    assert Part(m, {}, Some(c.shareIdx[p])) == own;
    if p in msgs {
      assert msgs[p][0].key.value in own;
    } else {
      assert forall k | k in m && k.target == c.shareIdx[p] :: k in own;
    }
  }

  /** The direct messages of round 1, grouped by target. An unknown target is an error, and so is this node itself;
      otherwise each peer is sent exactly the shares addressed to it. */
  method BuildP2P<V, P>(c: Cluster, self: Peer, byShare: map<uint32, Peer>, m: map<MsgKey, V>, enc: V -> P)
    returns (r: Option<map<Peer, seq<Entry<P>>>>)
    requires IsByShare(c, byShare) && self in c.shareIdx
    ensures r == None <==> exists k | k in m :: k.target !in byShare || k.target == c.shareIdx[self]
    ensures r.Some? ==> r.value.Keys <= c.shareIdx.Keys - {self}
    ensures r.Some? ==> forall p | p in c.shareIdx :: IsListing(ForTarget(m, c.shareIdx[p]), enc, Grouped(r.value, p))
  {
    hide IsListing;
    var msgs: map<Peer, seq<Entry<P>>> := map[];
    var todo := m.Keys;
    GroupNone(c, m, enc);
    while todo != {}
      invariant todo <= m.Keys
      invariant forall k | k in m.Keys - todo :: k.target in byShare
      invariant IsGrouping(c, m, todo, enc, msgs)
      decreases todo
    {
      var key :| key in todo;
      if key.target !in byShare {
        return None;
      }
      var pID := byShare[key.target];
      var p2pMsg := if pID in msgs then msgs[pID] else [];
      GroupOne(c, byShare, m, todo, key, enc, msgs);
      msgs := msgs[pID := p2pMsg + [Entry(Some(key), enc(m[key]))]];
      todo := todo - {key};
    }
    forall p | p in c.shareIdx ensures IsListing(ForTarget(m, c.shareIdx[p]), enc, Grouped(msgs, p)) {
      GroupAll(c, m, enc, msgs, p);
    }
    GroupAll(c, m, enc, msgs, self);
    if self in msgs {
      return None;
    }
    return Some(msgs);
  }

  lemma GroupNone<V, P>(c: Cluster, m: map<MsgKey, V>, enc: V -> P)
    ensures IsGrouping(c, m, m.Keys, enc, map[])
  {
    forall p | p in c.shareIdx ensures Part(m, m.Keys, Some(c.shareIdx[p])) == map[] {
    }
  }

  lemma {:induction false} DistinctLast<P>(es: seq<Entry<P>>, i: nat)
    requires i < |es| && es[i].key.Some? && forall a, b | 0 <= a < b < |es| :: es[a].key != es[b].key
    ensures Last(es, es[i].key.value) == Some(es[i].payload)
  {
    if i < |es| - 1 {
      DistinctLast(es[..|es| - 1], i);
    }
  }

  /** Reading a listing back gives the map. */
  lemma ListingLast<V, P>(m: map<MsgKey, V>, enc: V -> P, es: seq<Entry<P>>, k: MsgKey)
    requires IsListing(m, enc, es)
    ensures Last(es, k) == if k in m then Some(enc(m[k])) else None
  {
    if k in m {
      var i :| 0 <= i < |es| && es[i].key == Some(k);
      DistinctLast(es, i);
    } else if Last(es, k).Some? {
      var i := LastIsElement(es, k);
    }
  }

  // ----- demultiplexing -----

  /** out holds, for each source, the value of some key of validator v with that source: the target is dropped. */
  ghost predicate IsDemux<V>(m: map<MsgKey, V>, v: uint32, out: map<uint32, V>) {
    && (forall k | k in m && k.valIdx == v :: k.source in out)
    && (forall s | s in out :: exists k | k in m :: k.valIdx == v && k.source == s && m[k] == out[s])
  }

  /** getRound2Inputs, for the broadcasts as for the shares. */
  method Demux<V>(m: map<MsgKey, V>, v: uint32) returns (out: map<uint32, V>)
    ensures IsDemux(m, v, out)
  {
    out := map[];
    var todo := m.Keys;
    while todo != {}
      invariant todo <= m.Keys
      invariant forall k | k in m.Keys - todo && k.valIdx == v :: k.source in out
      invariant forall s | s in out :: exists k | k in m :: k.valIdx == v && k.source == s && m[k] == out[s]
      decreases todo
    {
      var key :| key in todo;
      todo := todo - {key};
      if key.valIdx != v {
        continue;
      }
      out := out[key.source := m[key]];
    }
  }

  /** When all keys of the validator have one target, dropping it loses nothing. */
  lemma DemuxExact<V>(m: map<MsgKey, V>, v: uint32, target: uint32, out: map<uint32, V>, s: uint32)
    requires IsDemux(m, v, out) && forall k | k in m && k.valIdx == v :: k.target == target
    ensures Lookup(out, s) == Lookup(m, MsgKey(v, s, target))
  {
    if s in out {
      var k :| k in m && k.valIdx == v && k.source == s && m[k] == out[s];
      assert k == MsgKey(v, s, target);
    }
  }

  // ----- honest rounds -----

  /** A codec of the library: what it encodes it decodes. */
  ghost predicate IsCodec<V(!new), P>(enc: V -> P, dec: P -> Option<V>) {
    forall v :: dec(enc(v)) == Some(v)
  }

  /** An honest node broadcasts once for each validator. */
  ghost predicate HonestCasts<C>(c: Cluster, p: Peer, casts: map<MsgKey, C>) {
    p in c.shareIdx && forall k :: k in casts <==> k.source == c.shareIdx[p] && k.target == 0 && k.valIdx < c.numVals
  }

  /** An honest node has a share of each validator for each other node. */
  ghost predicate HonestShares<S>(c: Cluster, p: Peer, shares: map<MsgKey, S>) {
    p in c.shareIdx && forall k :: k in shares <==>
      k.source == c.shareIdx[p] && k.target in c.shareIdx.Values - {c.shareIdx[p]} && k.valIdx < c.numVals
  }

  /** A node runs one participant for each validator, each with a share for every other node, and numbers their outputs
      by its own share index. */
  ghost predicate PeerRound1<C, S>(c: Cluster, p: Peer, out: map<uint32, Round1Out<C, S>>,
                                   casts: map<MsgKey, C>, shares: map<MsgKey, S>) {
    && p in c.shareIdx
    && (forall v: uint32 :: v in out <==> v < c.numVals)
    && (forall v | v in out :: out[v].shares.Keys == c.shareIdx.Values - {c.shareIdx[p]})
    && IsRound1Casts(c.shareIdx[p], out, casts) && IsRound1Shares(c.shareIdx[p], out, shares)
  }

  /** A node that runs one participant for each validator, each with a share for every other node, is honest. */
  lemma Round1IsHonest<C, S>(c: Cluster, p: Peer, outs: map<uint32, Round1Out<C, S>>,
                             casts: map<MsgKey, C>, shares: map<MsgKey, S>)
    requires PeerRound1(c, p, outs, casts, shares)
    ensures HonestCasts(c, p, casts) && HonestShares(c, p, shares)
  {
    forall k ensures k in casts <==> k.source == c.shareIdx[p] && k.target == 0 && k.valIdx < c.numVals {
      assert k in casts <==> Lookup(casts, k).Some?;
    }
    forall k ensures k in shares <==>
      k.source == c.shareIdx[p] && k.target in c.shareIdx.Values - {c.shareIdx[p]} && k.valIdx < c.numVals
    {
      assert k in shares <==> Lookup(shares, k).Some?;
    }
  }

  /** Honest broadcasts pass the receiver's checks. */
  lemma HonestCastsAccepted<C>(c: Cluster, p: Peer, casts: map<MsgKey, C>, enc: C -> Round1Cast, msg: Round1Casts)
    requires HonestCasts(c, p, casts) && IsListing(casts, enc, msg)
    requires forall k | k in casts :: |enc(casts[k]).commitments| == c.threshold
    ensures Round1CastsOk(c, p, msg)
  {
    forall i | 0 <= i < |msg|
      ensures KeyOk(msg[i], c.ShareIdx(p), 0, c.numVals) && |msg[i].payload.commitments| == c.threshold
    {
      assert msg[i].key.value in casts;
    }
  }

  /** Honest direct messages pass the receiver's checks. */
  lemma HonestSharesAccepted<S>(c: Cluster, p: Peer, self: Peer, shares: map<MsgKey, S>, enc: S -> ShamirShare,
                                msg: Round1P2P)
    requires HonestShares(c, p, shares)
    requires self in c.shareIdx && IsListing(ForTarget(shares, c.shareIdx[self]), enc, msg)
    ensures Round1P2POk(c, self, p, msg)
  {
    forall i | 0 <= i < |msg| ensures KeyOk(msg[i], c.ShareIdx(p), c.ShareIdx(self), c.numVals) {
      assert msg[i].key.value in ForTarget(shares, c.shareIdx[self]);
    }
  }

  /** Received messages, one from each of the peers, each listing what its sender had for this node. */
  ghost predicate HonestRecv<V, P>(c: Cluster, from: set<Peer>, sent: map<Peer, map<MsgKey, V>>, enc: V -> P,
                                   recv: seq<Envelope<seq<Entry<P>>>>) {
    && from <= c.shareIdx.Keys && from <= sent.Keys
    && Senders(recv) == from
    && (forall i, j | 0 <= i < j < |recv| :: recv[i].from != recv[j].from)
    && (forall i | 0 <= i < |recv| && recv[i].from in from :: IsListing(sent[recv[i].from], enc, recv[i].msg))
    && (forall p, k | p in from && k in sent[p] :: k.source == c.shareIdx[p])
  }

  lemma HonestIsSourced<V, P>(c: Cluster, from: set<Peer>, sent: map<Peer, map<MsgKey, V>>, enc: V -> P,
                              recv: seq<Envelope<seq<Entry<P>>>>)
    requires HonestRecv(c, from, sent, enc, recv)
    ensures Sourced(c, recv)
  {
    forall i | 0 <= i < |recv| ensures recv[i].from in from {
      assert recv[i].from in Senders(recv);
    }
  }

  /** The response holds, under the keys of a peer, exactly what that peer sent. */
  lemma HonestResponse<V(!new), P>(c: Cluster, from: set<Peer>, sent: map<Peer, map<MsgKey, V>>, enc: V -> P,
                                   dec: P -> Option<V>, recv: seq<Envelope<seq<Entry<P>>>>, m: map<MsgKey, V>, p: Peer,
                                       k: MsgKey)
    requires c.Valid() && HonestRecv(c, from, sent, enc, recv) && IsCodec(enc, dec)
    requires IsResponse(Flatten(Msgs(recv)), dec, m)
    requires p in from && k.source == c.shareIdx[p]
    ensures Lookup(m, k) == Lookup(sent[p], k)
  {
    hide Flatten, IsListing;
    HonestIsSourced(c, from, sent, enc, recv);
    LastByPeer(c, recv, k);
    assert p in Senders(recv);
    var i :| 0 <= i < |recv| && recv[i].from == p;
    ListingLast(sent[p], enc, recv[i].msg, k);
  }

  /** Every key of the response belongs to a peer that was heard. */
  lemma HonestResponseOnly<V(!new), P>(c: Cluster, from: set<Peer>, sent: map<Peer, map<MsgKey, V>>, enc: V -> P,
                                       dec: P -> Option<V>, recv: seq<Envelope<seq<Entry<P>>>>, m: map<MsgKey, V>,
                                           k: MsgKey)
    returns (p: Peer)
    requires c.Valid() && HonestRecv(c, from, sent, enc, recv) && IsCodec(enc, dec)
    requires IsResponse(Flatten(Msgs(recv)), dec, m) && k in m
    ensures p in from && c.shareIdx[p] == k.source && k in sent[p]
  {
    hide Flatten, IsListing;
    HonestIsSourced(c, from, sent, enc, recv);
    LastByPeer(c, recv, k);
    assert Lookup(m, k).Some?;
    var i :| 0 <= i < |recv| && c.shareIdx[recv[i].from] == k.source;
    assert recv[i].from in Senders(recv);
    p := recv[i].from;
    HonestResponse(c, from, sent, enc, dec, recv, m, p, k);
  }

  /** The integers from 1 to n. */
  function OneTo(n: nat): (s: set<int>)
    ensures |s| == n
    ensures forall i :: i in s <==> 1 <= i <= n
  {
    if n == 0 then {} else OneTo(n - 1) + {n}
  }

  /** The share indexes of a valid cluster are exactly 1 to n. */
  lemma ShareIdxsAreOneToN(c: Cluster)
    requires c.Valid()
    ensures c.shareIdx.Values == OneTo(|c.shareIdx|)
  {
    InjectiveValues(c.shareIdx);
    SubsetSize<int>(c.shareIdx.Values, OneTo(|c.shareIdx|));
  }

  lemma {:induction false} InjectiveValues<K, V>(m: map<K, V>)
    requires forall p, q | p in m && q in m && p != q :: m[p] != m[q]
    ensures |m.Values| == |m|
    decreases |m|
  {
    if m != map[] {
      var k :| k in m;
      var rest := m - {k};
      assert |rest| == |m| - 1 by {
        assert m.Keys == rest.Keys + {k};
      }
      InjectiveValues(rest);
      assert m.Values == rest.Values + {m[k]} by {
        forall x | x in m.Values ensures x in rest.Values + {m[k]} {
          var q :| q in m && m[q] == x;
          if q != k {
            assert q in rest && rest[q] == x;
          }
        }
      }
      forall q | q in rest ensures rest[q] != m[k] {
        assert q != k;
      }
    } else {
      assert m.Values == {};
    }
  }

  /** Demultiplexing a response whose keys all go to one target: for each source the value its peer sent. */
  lemma HonestDemux<V(!new), P>(c: Cluster, from: set<Peer>, sent: map<Peer, map<MsgKey, V>>, enc: V -> P,
                                dec: P -> Option<V>, recv: seq<Envelope<seq<Entry<P>>>>, m: map<MsgKey, V>,
                                v: uint32, target: uint32, out: map<uint32, V>)
    requires c.Valid() && HonestRecv(c, from, sent, enc, recv) && IsCodec(enc, dec)
    requires IsResponse(Flatten(Msgs(recv)), dec, m) && IsDemux(m, v, out)
    requires forall p, k | p in from && k in sent[p] :: k.target == target
    requires forall p | p in from :: MsgKey(v, c.shareIdx[p], target) in sent[p]
    ensures forall p | p in from :: Lookup(out, c.shareIdx[p]) == Some(sent[p][MsgKey(v, c.shareIdx[p], target)])
    ensures forall s | s in out :: exists p | p in from :: c.shareIdx[p] == s
  {
    assert from <= c.shareIdx.Keys && from <= sent.Keys;
    hide Flatten, IsListing, HonestRecv, IsResponse, IsCodec, IsDemux;
    forall k | k in m && k.valIdx == v ensures k.target == target {
      var p := HonestResponseOnly(c, from, sent, enc, dec, recv, m, k);
    }
    forall p | p in from ensures Lookup(out, c.shareIdx[p]) == Some(sent[p][MsgKey(v, c.shareIdx[p], target)]) {
      DemuxExact(m, v, target, out, c.shareIdx[p]);
      HonestResponse(c, from, sent, enc, dec, recv, m, p, MsgKey(v, c.shareIdx[p], target));
    }
    forall s | s in out ensures exists p | p in from :: c.shareIdx[p] == s {
      DemuxExact(m, v, target, out, s);
      var p := HonestResponseOnly(c, from, sent, enc, dec, recv, m, MsgKey(v, s, target));
    }
  }

  /** The broadcasts input of a validator, from what was received. */
  lemma CastsExact<C(!new), P>(
      c: Cluster, casts: map<Peer, map<MsgKey, C>>, enc: C -> P, dec: P -> Option<C>,
      recv: seq<Envelope<seq<Entry<P>>>>, m: map<MsgKey, C>, v: uint32, castMap: map<uint32, C>)
    requires c.Valid() && v < c.numVals && IsCodec(enc, dec)
    requires casts.Keys == c.shareIdx.Keys && forall p | p in c.shareIdx :: HonestCasts(c, p, casts[p])
    requires HonestRecv(c, c.shareIdx.Keys, casts, enc, recv) && IsResponse(Flatten(Msgs(recv)), dec, m)
    requires IsDemux(m, v, castMap)
    ensures castMap.Keys == OneTo(|c.shareIdx|)
    ensures forall p | p in c.shareIdx ::
      Lookup(castMap, c.shareIdx[p]) == Lookup(casts[p], MsgKey(v, c.shareIdx[p], 0))
  {
    hide Flatten, Msgs, IsListing, HonestRecv, IsResponse, IsCodec, IsDemux, HonestCasts;
    HonestCastKeys(c, casts, v);
    HonestDemux(c, c.shareIdx.Keys, casts, enc, dec, recv, m, v, 0, castMap);
    ExactKeys(c, c.shareIdx.Keys, castMap);
    ValuesOfAll(c);
    ShareIdxsAreOneToN(c);
  }

  lemma HonestCastKeys<C>(c: Cluster, casts: map<Peer, map<MsgKey, C>>, v: uint32)
    requires casts.Keys == c.shareIdx.Keys && v < c.numVals && forall p | p in c.shareIdx :: HonestCasts(c, p, casts[p])
    ensures forall p | p in c.shareIdx :: MsgKey(v, c.shareIdx[p], 0) in casts[p]
    ensures forall p, k | p in c.shareIdx && k in casts[p] :: k.target == 0
  {
    forall p | p in c.shareIdx ensures MsgKey(v, c.shareIdx[p], 0) in casts[p] {
      assert HonestCasts(c, p, casts[p]);
    }
    forall p, k | p in c.shareIdx && k in casts[p] ensures k.target == 0 {
      assert HonestCasts(c, p, casts[p]);
    }
  }

  ghost function IdxsOf(c: Cluster, from: set<Peer>): (idxs: set<uint32>)
    requires from <= c.shareIdx.Keys
  {
    set p | p in from :: c.shareIdx[p]
  }

  /** A map with a value for the share index of each of the peers and for nothing else. */
  lemma ExactKeys<V>(c: Cluster, from: set<Peer>, out: map<uint32, V>)
    requires from <= c.shareIdx.Keys
    requires forall p | p in from :: Lookup(out, c.shareIdx[p]).Some?
    requires forall s | s in out :: exists p | p in from :: c.shareIdx[p] == s
    ensures out.Keys == IdxsOf(c, from)
  {
    forall p | p in from ensures c.shareIdx[p] in out {
      assert Lookup(out, c.shareIdx[p]).Some?;
    }
  }

  lemma ValuesOfAll(c: Cluster)
    ensures IdxsOf(c, c.shareIdx.Keys) == c.shareIdx.Values
  {
  }

  lemma ValuesOfOthers(c: Cluster, q: Peer)
    requires c.Valid() && q in c.shareIdx
    ensures IdxsOf(c, c.shareIdx.Keys - {q}) == c.shareIdx.Values - {c.shareIdx[q]}
  {
    var rest := IdxsOf(c, c.shareIdx.Keys - {q});
    forall s | s in c.shareIdx.Values - {c.shareIdx[q]} ensures s in rest {
      var p :| p in c.shareIdx && c.shareIdx[p] == s;
    }
    forall s | s in rest ensures s in c.shareIdx.Values - {c.shareIdx[q]} {
      var p :| p in c.shareIdx.Keys - {q} && c.shareIdx[p] == s;
    }
  }

  /** What each peer addresses to one target. */
  function Addressed<V>(shares: map<Peer, map<MsgKey, V>>, target: uint32): (r: map<Peer, map<MsgKey, V>>) {
    map p | p in shares :: ForTarget(shares[p], target)
  }

  /** The shares input of a validator, from what was received. */
  lemma SharesExact<S(!new), Q>(
      c: Cluster, self: Peer, shares: map<Peer, map<MsgKey, S>>, enc: S -> Q, dec: Q -> Option<S>,
      recv: seq<Envelope<seq<Entry<Q>>>>, m: map<MsgKey, S>, v: uint32, shareMap: map<uint32, S>)
    requires c.Valid() && self in c.shareIdx && v < c.numVals && IsCodec(enc, dec)
    requires shares.Keys == c.shareIdx.Keys && forall p | p in c.shareIdx :: HonestShares(c, p, shares[p])
    requires HonestRecv(c, c.shareIdx.Keys - {self}, Addressed(shares, c.shareIdx[self]), enc, recv)
    requires IsResponse(Flatten(Msgs(recv)), dec, m) && IsDemux(m, v, shareMap)
    ensures shareMap.Keys == OneTo(|c.shareIdx|) - {c.shareIdx[self]}
    ensures forall p | p in c.shareIdx && p != self ::
      Lookup(shareMap, c.shareIdx[p]) == Lookup(shares[p], MsgKey(v, c.shareIdx[p], c.shareIdx[self]))
  {
    hide Flatten, Msgs, IsListing, HonestRecv, IsResponse, IsCodec, IsDemux, HonestShares;
    hide IdxsOf, OneTo;
    var me, from, sent := c.shareIdx[self], c.shareIdx.Keys - {self}, Addressed(shares, c.shareIdx[self]);
    HonestShareKeys(c, self, shares, v);
    HonestDemux(c, from, sent, enc, dec, recv, m, v, me, shareMap);
    ExactKeys(c, from, shareMap);
    ValuesOfOthers(c, self);
    ShareIdxsAreOneToN(c);
    forall p | p in from ensures Lookup(shareMap, c.shareIdx[p]) == Lookup(shares[p], MsgKey(v, c.shareIdx[p], me)) {
      assert sent[p] == ForTarget(shares[p], me);
    }
  }

  lemma HonestShareKeys<S>(c: Cluster, self: Peer, shares: map<Peer, map<MsgKey, S>>, v: uint32)
    requires c.Valid() && self in c.shareIdx && v < c.numVals
    requires shares.Keys == c.shareIdx.Keys && forall p | p in c.shareIdx :: HonestShares(c, p, shares[p])
    ensures forall p | p in c.shareIdx && p != self ::
      MsgKey(v, c.shareIdx[p], c.shareIdx[self]) in Addressed(shares, c.shareIdx[self])[p]
  {
    assert c.shareIdx[self] in c.shareIdx.Values;
    forall p | p in c.shareIdx && p != self ensures MsgKey(v, c.shareIdx[p], c.shareIdx[self]) in shares[p] {
      assert HonestShares(c, p, shares[p]);
    }
  }

  // ----- honest runs of the transport -----

  /** What the events bring lists, for each sender, what that sender had for this node. */
  ghost predicate HonestEvents<V, P>(self: Peer, sent: map<Peer, map<MsgKey, V>>, enc: V -> P,
                                     es: seq<Event<seq<Entry<P>>>>, k: nat) {
    forall i | 0 <= i < k && i < |es| && !es[i].Receive? ::
      var p := if es[i].Deliver? then es[i].from else self;
      p in sent && IsListing(sent[p], enc, es[i].msg)
  }

  /** A complete round of a run with honest events received exactly what each sender had for this node. */
  lemma HonestRound<V, P(!new)>(c: Cluster, cfg: Config<seq<Entry<P>>>, sent: map<Peer, map<MsgKey, V>>, enc: V -> P,
                                s: seq<State<seq<Entry<P>>>>, es: seq<Event<seq<Entry<P>>>>, k: nat)
    requires Run(cfg, s, es) && k <= |es| && cfg.peers == c.shareIdx.Keys == sent.Keys
    requires HonestEvents(cfg.self, sent, enc, es, k)
    requires |s[k].recv| == |cfg.peers| - (if s[k].selfSent then 0 else 1)
    requires forall p, key | p in sent && key in sent[p] :: key.source == c.shareIdx[p]
    ensures HonestRecv(c, if s[k].selfSent then cfg.peers else cfg.peers - {cfg.self}, sent, enc, s[k].recv)
  {
    assert |s| == |es| + 1;
    hide IsListing, Run;
    RoundIsComplete(cfg, s, es, k);
    forall i | 0 <= i < |s[k].recv|
      ensures s[k].recv[i].from in sent && IsListing(sent[s[k].recv[i].from], enc, s[k].recv[i].msg)
    {
      var j := ReceivedWasSent(cfg, s, es, k, i);
      assert es[j].Deliver? || es[j].SendSelf?;
    }
  }

  /** All events of an honest run pass the receiver's checks. */
  ghost predicate AllAccepted<M(!new)>(cfg: Config<M>, es: seq<Event<M>>, k: nat) {
    forall i | 0 <= i < k && i < |es| && es[i].Deliver? :: cfg.accept(es[i].from, es[i].msg)
  }

  ghost predicate AllDelivered<M(!new)>(cfg: Config<M>, es: seq<Event<M>>, k: nat) {
    forall p | p in cfg.peers && p != cfg.self :: Delivered(es, p, k)
  }

  lemma HonestCastEvents<C>(c: Cluster, self: Peer, casts: map<Peer, map<MsgKey, C>>, enc: C -> Round1Cast,
                            es: seq<Event<Round1Casts>>, k: nat)
    requires casts.Keys == c.shareIdx.Keys && forall p | p in c.shareIdx :: HonestCasts(c, p, casts[p])
    requires forall p, key | p in casts && key in casts[p] :: |enc(casts[p][key]).commitments| == c.threshold
    requires HonestEvents(self, casts, enc, es, k)
    ensures AllAccepted(Round1CastsConfig(c, self), es, k)
  {
    hide IsListing, HonestCasts, Round1CastsOk;
    forall i | 0 <= i < k && i < |es| && es[i].Deliver? ensures Round1CastsOk(c, es[i].from, es[i].msg) {
      HonestCastsAccepted(c, es[i].from, casts[es[i].from], enc, es[i].msg);
    }
  }

  lemma HonestShareEvents<S>(c: Cluster, self: Peer, shares: map<Peer, map<MsgKey, S>>, enc: S -> ShamirShare,
                             es: seq<Event<Round1P2P>>, k: nat)
    requires self in c.shareIdx && shares.Keys == c.shareIdx.Keys
    requires forall p | p in c.shareIdx :: HonestShares(c, p, shares[p])
    requires HonestEvents(self, Addressed(shares, c.shareIdx[self]), enc, es, k)
    ensures AllAccepted(Round1P2PConfig(c, self), es, k)
  {
    hide IsListing, HonestShares, Round1P2POk;
    forall i | 0 <= i < k && i < |es| && es[i].Deliver? ensures Round1P2POk(c, self, es[i].from, es[i].msg) {
      HonestSharesAccepted(c, es[i].from, self, shares[es[i].from], enc, es[i].msg);
    }
  }

  /** In every run with honest peers in which each of them delivered its broadcast and this node sent its own, the round
      is complete once the channel is read, and the round 2 broadcasts input of a validator is exactly one value from
      every node, the one it broadcast. */
  lemma Round2CastsExact<C(!new)>(
      c: Cluster, self: Peer, casts: map<Peer, map<MsgKey, C>>, enc: C -> Round1Cast, dec: Round1Cast -> Option<C>,
      s: seq<State<Round1Casts>>, es: seq<Event<Round1Casts>>, k: nat,
      m: map<MsgKey, C>, v: uint32, castMap: map<uint32, C>)
    requires c.Valid() && self in c.shareIdx && v < c.numVals && IsCodec(enc, dec)
    requires casts.Keys == c.shareIdx.Keys && forall p | p in c.shareIdx :: HonestCasts(c, p, casts[p])
    requires forall p, key | p in casts && key in casts[p] :: |enc(casts[p][key]).commitments| == c.threshold
    requires Run(Round1CastsConfig(c, self), s, es) && k <= |es| && s[k].chan == [] && s[k].selfSent
    requires HonestEvents(self, casts, enc, es, k) && AllDelivered(Round1CastsConfig(c, self), es, k)
    requires IsResponse(Flatten(Msgs(s[k].recv)), dec, m) && IsDemux(m, v, castMap)
    ensures |s[k].recv| == |c.shareIdx| && castMap.Keys == OneTo(|c.shareIdx|)
    ensures forall p | p in c.shareIdx ::
      Lookup(castMap, c.shareIdx[p]) == Lookup(casts[p], MsgKey(v, c.shareIdx[p], 0))
  {
    var cfg := Round1CastsConfig(c, self);
    HonestSources(c, casts);
    hide IsListing, HonestCasts, Run, Flatten, Msgs, IsResponse, IsDemux, IsCodec;
    HonestCastEvents(c, self, casts, enc, es, k);
    AllDeliveredIsComplete(cfg, s, es, k);
    HonestRound(c, cfg, casts, enc, s, es, k);
    CastsExact(c, casts, enc, dec, s[k].recv, m, v, castMap);
  }

  lemma HonestSources<C>(c: Cluster, casts: map<Peer, map<MsgKey, C>>)
    requires casts.Keys == c.shareIdx.Keys && forall p | p in c.shareIdx :: HonestCasts(c, p, casts[p])
    ensures forall p, key | p in casts && key in casts[p] :: key.source == c.shareIdx[p]
  {
    forall p, key | p in casts && key in casts[p] ensures key.source == c.shareIdx[p] {
      assert HonestCasts(c, p, casts[p]);
    }
  }

  lemma AddressedSources<S>(c: Cluster, self: Peer, shares: map<Peer, map<MsgKey, S>>)
    requires self in c.shareIdx && shares.Keys == c.shareIdx.Keys
    requires forall p | p in c.shareIdx :: HonestShares(c, p, shares[p])
    ensures var sent := Addressed(shares, c.shareIdx[self]);
      sent.Keys == c.shareIdx.Keys && forall p, key | p in sent && key in sent[p] :: key.source == c.shareIdx[p]
  {
    var sent := Addressed(shares, c.shareIdx[self]);
    forall p, key: MsgKey | p in sent && key in sent[p] ensures key.source == c.shareIdx[p] {
      assert HonestShares(c, p, shares[p]);
    }
  }

  /** In every run with honest peers in which each of them delivered its direct message, the round is complete once the
      channel is read, and the round 2 shares input of a validator is exactly the share that each other node addressed
      to this one, keyed by its source although the target was dropped. */
  lemma Round2SharesExact<S(!new)>(
      c: Cluster, self: Peer, shares: map<Peer, map<MsgKey, S>>, enc: S -> ShamirShare, dec: ShamirShare -> Option<S>,
      s: seq<State<Round1P2P>>, es: seq<Event<Round1P2P>>, k: nat,
      m: map<MsgKey, S>, v: uint32, shareMap: map<uint32, S>)
    requires c.Valid() && self in c.shareIdx && v < c.numVals && IsCodec(enc, dec)
    requires shares.Keys == c.shareIdx.Keys && forall p | p in c.shareIdx :: HonestShares(c, p, shares[p])
    requires Run(Round1P2PConfig(c, self), s, es) && k <= |es| && s[k].chan == [] && !s[k].selfSent
    requires HonestEvents(self, Addressed(shares, c.shareIdx[self]), enc, es, k)
    requires AllDelivered(Round1P2PConfig(c, self), es, k)
    requires IsResponse(Flatten(Msgs(s[k].recv)), dec, m) && IsDemux(m, v, shareMap)
    ensures |s[k].recv| == |c.shareIdx| - 1 && shareMap.Keys == OneTo(|c.shareIdx|) - {c.shareIdx[self]}
    ensures forall p | p in c.shareIdx && p != self ::
      Lookup(shareMap, c.shareIdx[p]) == Lookup(shares[p], MsgKey(v, c.shareIdx[p], c.shareIdx[self]))
  {
    var cfg, sent := Round1P2PConfig(c, self), Addressed(shares, c.shareIdx[self]);
    AddressedSources(c, self, shares);
    hide IsListing, HonestShares, Run, Flatten, Msgs, IsResponse, IsDemux, IsCodec, Addressed;
    HonestShareEvents(c, self, shares, enc, es, k);
    AllDeliveredIsComplete(cfg, s, es, k);
    HonestRound(c, cfg, sent, enc, s, es, k);
    SharesExact(c, self, shares, enc, dec, s[k].recv, m, v, shareMap);
  }

  /** Honest messages never fail to decode. */
  lemma HonestDecodes<V(!new), P>(c: Cluster, from: set<Peer>, sent: map<Peer, map<MsgKey, V>>, enc: V -> P,
                                  dec: P -> Option<V>, recv: seq<Envelope<seq<Entry<P>>>>, i: nat, j: nat)
    requires HonestRecv(c, from, sent, enc, recv) && IsCodec(enc, dec) && i < |recv| && j < |recv[i].msg|
    ensures Decodes(recv[i].msg[j], dec)
  {
    assert recv[i].from in Senders(recv);
    var key := recv[i].msg[j].key.value;
    assert dec(enc(sent[recv[i].from][key])) == Some(sent[recv[i].from][key]);
  }

  // ----- round 1 as a whole -----

  ghost predicate AllRound1<C, S>(c: Cluster, outs: map<Peer, map<uint32, Round1Out<C, S>>>,
                                  casts: map<Peer, map<MsgKey, C>>, shares: map<Peer, map<MsgKey, S>>) {
    && outs.Keys == casts.Keys == shares.Keys == c.shareIdx.Keys
    && forall p | p in c.shareIdx :: PeerRound1(c, p, outs[p], casts[p], shares[p])
  }

  lemma AllRound1IsHonest<C, S>(c: Cluster, outs: map<Peer, map<uint32, Round1Out<C, S>>>,
                                casts: map<Peer, map<MsgKey, C>>, shares: map<Peer, map<MsgKey, S>>)
    requires AllRound1(c, outs, casts, shares)
    ensures forall p | p in c.shareIdx :: HonestCasts(c, p, casts[p]) && HonestShares(c, p, shares[p])
  {
    hide HonestCasts, HonestShares, PeerRound1;
    forall p | p in c.shareIdx ensures HonestCasts(c, p, casts[p]) && HonestShares(c, p, shares[p]) {
      Round1IsHonest(c, p, outs[p], casts[p], shares[p]);
    }
  }

  /** From the participants of all nodes to the round 2 inputs of this one: whatever the order of the maps and of the
      messages, a validator's input is the broadcast of the participant of every node, and the share for this node of
      the participant of every other node. Grouping, checks and demultiplexing lose, duplicate and mix nothing. */
  lemma Round2Inputs<C(!new), S(!new)>(
      c: Cluster, self: Peer, outs: map<Peer, map<uint32, Round1Out<C, S>>>,
      casts: map<Peer, map<MsgKey, C>>, shares: map<Peer, map<MsgKey, S>>,
      encC: C -> Round1Cast, decC: Round1Cast -> Option<C>, encS: S -> ShamirShare, decS: ShamirShare -> Option<S>,
      s: seq<State<Round1Casts>>, es: seq<Event<Round1Casts>>, k: nat, castR1: map<MsgKey, C>,
      t: seq<State<Round1P2P>>, fs: seq<Event<Round1P2P>>, l: nat, p2pR1: map<MsgKey, S>,
      v: uint32, castMap: map<uint32, C>, shareMap: map<uint32, S>, p: Peer)
    requires c.Valid() && self in c.shareIdx && v < c.numVals && IsCodec(encC, decC) && IsCodec(encS, decS)
    requires AllRound1(c, outs, casts, shares)
    requires forall q, key | q in casts && key in casts[q] :: |encC(casts[q][key]).commitments| == c.threshold
    requires Run(Round1CastsConfig(c, self), s, es) && k <= |es| && s[k].chan == [] && s[k].selfSent
    requires HonestEvents(self, casts, encC, es, k) && AllDelivered(Round1CastsConfig(c, self), es, k)
    requires IsResponse(Flatten(Msgs(s[k].recv)), decC, castR1) && IsDemux(castR1, v, castMap)
    requires Run(Round1P2PConfig(c, self), t, fs) && l <= |fs| && t[l].chan == [] && !t[l].selfSent
    requires HonestEvents(self, Addressed(shares, c.shareIdx[self]), encS, fs, l)
    requires AllDelivered(Round1P2PConfig(c, self), fs, l)
    requires IsResponse(Flatten(Msgs(t[l].recv)), decS, p2pR1) && IsDemux(p2pR1, v, shareMap)
    requires p in c.shareIdx
    ensures castMap.Keys == OneTo(|c.shareIdx|) && shareMap.Keys == OneTo(|c.shareIdx|) - {c.shareIdx[self]}
    ensures v in outs[p] && Lookup(castMap, c.shareIdx[p]) == Some(outs[p][v].cast)
    ensures p != self ==>
      c.shareIdx[self] in outs[p][v].shares
      && Lookup(shareMap, c.shareIdx[p]) == Some(outs[p][v].shares[c.shareIdx[self]])
  {
    RoundOutput(c, outs, casts, shares, self, v, p);
    AllRound1IsHonest(c, outs, casts, shares);
    hide IsListing, HonestCasts, HonestShares, Run, Flatten, Msgs, IsResponse, IsDemux, IsCodec, Addressed,
      HonestEvents, AllDelivered, Lookup, OneTo;
    Round2CastsExact(c, self, casts, encC, decC, s, es, k, castR1, v, castMap);
    Round2SharesExact(c, self, shares, encS, decS, t, fs, l, p2pR1, v, shareMap);
  }

  lemma RoundOutput<C, S>(c: Cluster, outs: map<Peer, map<uint32, Round1Out<C, S>>>,
                          casts: map<Peer, map<MsgKey, C>>, shares: map<Peer, map<MsgKey, S>>,
                          self: Peer, v: uint32, p: Peer)
    requires c.Valid() && AllRound1(c, outs, casts, shares) && self in c.shareIdx && p in c.shareIdx && v < c.numVals
    ensures v in outs[p] && Lookup(casts[p], MsgKey(v, c.shareIdx[p], 0)) == Some(outs[p][v].cast)
    ensures p != self ==>
      c.shareIdx[self] in outs[p][v].shares
      && Lookup(shares[p], MsgKey(v, c.shareIdx[p], c.shareIdx[self])) == Some(outs[p][v].shares[c.shareIdx[self]])
  {
    hide PeerRound1, Lookup;
    OneOutput(c, p, outs[p], casts[p], shares[p], v, self);
  }

  lemma OneOutput<C, S>(c: Cluster, p: Peer, out: map<uint32, Round1Out<C, S>>, casts: map<MsgKey, C>,
                        shares: map<MsgKey, S>, v: uint32, self: Peer)
    requires c.Valid() && PeerRound1(c, p, out, casts, shares) && v < c.numVals && self in c.shareIdx
    ensures v in out && Lookup(casts, MsgKey(v, c.shareIdx[p], 0)) == Some(out[v].cast)
    ensures p != self ==>
      c.shareIdx[self] in out[v].shares
      && Lookup(shares, MsgKey(v, c.shareIdx[p], c.shareIdx[self])) == Some(out[v].shares[c.shareIdx[self]])
  {
    assert c.shareIdx[self] in c.shareIdx.Values;
  }
}
