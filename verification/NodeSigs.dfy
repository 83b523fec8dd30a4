/** The exchange of node signatures over the lock hash (dkg/nodesigs.go) and their verification in the lock
    (cluster/lock.go). Callbacks of peers, the exchange and its polls interleave freely. */
module NodeSigs {
  import opened Prelude
  import opened Bytes
  import opened Merkle
  import opened Definition
  import opened Lock

  type Key = Bytes

  /** secp256k1 signatures and the ENR parser. */
  datatype K1 = K1(
    sign: (Bytes, Digest) -> Bytes,
    verify: (Key, Digest, Bytes) -> bool,
    pub: Bytes -> Key,
    enr: Bytes -> Option<Key>)
  {
    /** A signature verifies under its own key, and nothing that verifies is empty. */
    ghost predicate Valid() {
      && (forall key, h :: verify(pub(key), h, sign(key, h)))
      && (forall k, h, s :: verify(k, h, s) ==> s != [])
    }
  }

  datatype Config = Config(k1: K1, peers: seq<Key>, self: nat, secret: Bytes)
  {
    ghost predicate Valid() {
      k1.Valid() && self < |peers| && peers[self] == k1.pub(secret)
    }
  }

  /** The signature slots, the cached lock hash, the lock hash that the exchange offers on its unbuffered channel, and
      the hash it was called with. */
  datatype State = State(sigs: seq<Bytes>, lockHashData: Option<Digest>, lockHashCh: Option<Digest>,
                         exchanged: Option<Digest>)

  datatype Event =
    | Exchange(lockHash: Digest)
    | Callback(peerIdx: int, sig: Bytes)
    | SetLocal
    | Poll(sigs: Option<seq<Bytes>>)

  // ----- steps -----

  /** broadcastCallback once the lock hash h is there. */
  function SetVerified(c: Config, sigs: seq<Bytes>, h: Digest, peerIdx: int, sig: Bytes): (r: seq<Bytes>)
    requires |sigs| == |c.peers|
  {
    if peerIdx != c.self && 0 <= peerIdx < |c.peers| && c.k1.verify(c.peers[peerIdx], h, sig)
    then sigs[peerIdx := sig] else sigs
  }

  /** A callback for a valid peer waits until there is a lock hash, cached or offered. */
  ghost predicate CallbackStep(c: Config, s: State, peerIdx: int, sig: Bytes, s': State) {
    if peerIdx == c.self || peerIdx < 0 || peerIdx >= |c.peers| then s' == s
    else
      && |s.sigs| == |c.peers|
      && (s.lockHashData.Some? || s.lockHashCh.Some?)
      && var h := if s.lockHashData.Some? then s.lockHashData else s.lockHashCh;
         && s'.lockHashData == h
         && s'.lockHashCh == (if s.lockHashData.Some? then s.lockHashCh else None)
         && s'.exchanged == s.exchanged
         && s'.sigs == SetVerified(c, s.sigs, h.value, peerIdx, sig)
  }

  ghost predicate AllSet(sigs: seq<Bytes>) {
    forall i | 0 <= i < |sigs| :: sigs[i] != []
  }

  ghost predicate Next(c: Config, s: State, e: Event, s': State) {
    match e
    case Exchange(h) => s.exchanged == None && s' == s.(lockHashCh := Some(h), exchanged := Some(h))
    case Callback(peerIdx, sig) => CallbackStep(c, s, peerIdx, sig, s')
    case SetLocal =>
      && s.exchanged.Some? && c.self < |s.sigs|
      && s' == s.(sigs := s.sigs[c.self := c.k1.sign(c.secret, s.exchanged.value)])
    case Poll(r) => s.exchanged.Some? && s' == s && r == if AllSet(s.sigs) then Some(s.sigs) else None
  }

  ghost predicate Init(c: Config, s: State) {
    s == State(seq(|c.peers|, _ => []), None, None, None)
  }

  ghost predicate Run(c: Config, s: seq<State>, es: seq<Event>) {
    && c.Valid() && |s| == |es| + 1 && Init(c, s[0])
    && forall i {:trigger es[i]} | 0 <= i < |es| :: Next(c, s[i], es[i], s[i + 1])
  }

  /** nodeSigBcast, with one method for each critical section. */
  class NodeSigBcast {
    const c: Config
    var sigs: seq<Bytes>
    var lockHashData: Option<Digest>

    constructor (c: Config)
      ensures this.c == c && sigs == seq(|c.peers|, _ => []) && lockHashData == None
    {
      this.c := c;
      sigs := seq(|c.peers|, _ => []);
      lockHashData := None;
    }

    /** lockHash: the cached hash, or else the one received from the channel. */
    method LockHash(received: Digest) returns (h: Digest)
      modifies this`lockHashData
      ensures h == (if old(lockHashData).Some? then old(lockHashData).value else received) && lockHashData == Some(h)
    {
      if lockHashData.Some? {
        return lockHashData.value;
      }
      lockHashData := Some(received);
      return received;
    }

    /** allSigs, which is what a poll observes. */
    method AllSigs(ghost lockHashCh: Option<Digest>, ghost exchanged: Option<Digest>) returns (r: Option<seq<Bytes>>)
      ensures r == if AllSet(sigs) then Some(sigs) else None
      ensures exchanged.Some? ==> Next(c, View(lockHashCh, exchanged), Poll(r), View(lockHashCh, exchanged))
    {
      for i := 0 to |sigs|
        invariant forall k | 0 <= k < i :: sigs[k] != []
      {
        if |sigs[i]| == 0 {
          return None;
        }
      }
      return Some(sigs);
    }

    /** The state of the exchange, with what it offers on the channel and was called with. */
    ghost function View(lockHashCh: Option<Digest>, exchanged: Option<Digest>): (s: State)
      reads this
    {
      State(sigs, lockHashData, lockHashCh, exchanged)
    }

    /** broadcastCallback, given what a wait on the channel would receive, is the callback step. */
    method BroadcastCallback(peerIdx: int, sig: Bytes, received: Digest, ghost exchanged: Option<Digest>)
        returns (ok: bool)
      requires |sigs| == |c.peers|
      modifies this
      ensures CallbackStep(c, old(View(Some(received), exchanged)), peerIdx, sig,
                           View(if lockHashData == old(lockHashData) then Some(received) else None, exchanged))
      ensures var h := if old(lockHashData).Some? then old(lockHashData).value else received;
        if peerIdx == c.self || peerIdx < 0 || peerIdx >= |c.peers|
        then !ok && sigs == old(sigs) && lockHashData == old(lockHashData)
        else
          && lockHashData == Some(h)
          && ok == c.k1.verify(c.peers[peerIdx], h, sig)
          && sigs == SetVerified(c, old(sigs), h, peerIdx, sig)
    {
      if peerIdx == c.self || peerIdx < 0 || peerIdx >= |c.peers| {
        return false;
      }
      var lockHash := LockHash(received);
      if !c.k1.verify(c.peers[peerIdx], lockHash, sig) {
        return false;
      }
      sigs := sigs[peerIdx := sig];
      return true;
    }
  }

  // ----- the invariant -----

  ghost predicate Inv(c: Config, s: State) {
    && |s.sigs| == |c.peers|
    && (s.lockHashData.Some? ==> s.lockHashData == s.exchanged)
    && (s.lockHashCh.Some? ==> s.lockHashCh == s.exchanged)
    && (forall i | 0 <= i < |s.sigs| && s.sigs[i] != [] ::
          s.exchanged.Some? && c.k1.verify(c.peers[i], s.exchanged.value, s.sigs[i]))
  }

  /** Under every interleaving each non-empty slot holds a signature of its own peer over the one lock hash. */
  lemma {:induction false} SlotsVerify(c: Config, s: seq<State>, es: seq<Event>, k: nat)
    requires Run(c, s, es) && k <= |es|
    ensures Inv(c, s[k])
  {
    if k > 0 {
      SlotsVerify(c, s, es, k - 1);
      assert Next(c, s[k - 1], es[k - 1], s[k]);
      assert c.k1.Valid();
    }
  }

  // ----- verification in the lock -----

  /** Definition.Peers as the keys of the peers: none for a duplicate or malformed ENR. */
  ghost predicate IsPeers(k1: K1, d: Definition, peers: Option<seq<Key>>) {
    if peers.Some? then
      && |peers.value| == |d.operators|
      && (forall i | 0 <= i < |d.operators| :: k1.enr(d.operators[i].enr) == Some(peers.value[i]))
      && (forall i, j | 0 <= i < j < |d.operators| :: d.operators[i].enr != d.operators[j].enr)
    else
      || (exists i | 0 <= i < |d.operators| :: k1.enr(d.operators[i].enr) == None)
      || (exists i, j | 0 <= i < j < |d.operators| :: d.operators[i].enr == d.operators[j].enr)
  }

  method Peers(k1: K1, d: Definition) returns (r: Option<seq<Key>>)
    ensures IsPeers(k1, d, r)
  {
    var resp: seq<Key> := [];
    var dedup: set<Bytes> := {};
    for i := 0 to |d.operators|
      invariant |resp| == i && forall k | 0 <= k < i :: k1.enr(d.operators[k].enr) == Some(resp[k])
      invariant forall x :: x in dedup <==> exists k | 0 <= k < i :: d.operators[k].enr == x
      invariant forall j, k | 0 <= j < k < i :: d.operators[j].enr != d.operators[k].enr
    {
      var operator := d.operators[i];
      if operator.enr in dedup {
        return None;
      }
      dedup := dedup + {operator.enr};
      var key := k1.enr(operator.enr);
      if key == None {
        return None;
      }
      resp := resp + [key.value];
    }
    return Some(resp);
  }

  /** verifyNodeSignatures returns no error. */
  predicate NodeSignaturesOk(k1: K1, l: Lock) {
    if l.def.version.V1? && l.def.version.minor <= 6 then l.nodeSignatures == []
    else
      && |l.nodeSignatures| == |l.def.operators|
      && forall i | 0 <= i < |l.def.operators| ::
           var key := k1.enr(l.def.operators[i].enr);
           key.Some? && k1.verify(key.value, l.lockHash, l.nodeSignatures[i])
  }

  method VerifyNodeSignatures(k1: K1, l: Lock) returns (ok: bool)
    ensures ok == NodeSignaturesOk(k1, l)
  {
    if l.def.version.V1? && l.def.version.minor <= 6 {
      return |l.nodeSignatures| == 0;
    }
    if |l.nodeSignatures| != |l.def.operators| {
      return false;
    }
    for idx := 0 to |l.def.operators|
      invariant forall i | 0 <= i < idx ::
        k1.enr(l.def.operators[i].enr).Some?
            && k1.verify(k1.enr(l.def.operators[i].enr).value, l.lockHash, l.nodeSignatures[i])
    {
      var record := k1.enr(l.def.operators[idx].enr);
      if record == None {
        return false;
      }
      if !k1.verify(record.value, l.lockHash, l.nodeSignatures[idx]) {
        return false;
      }
    }
    return true;
  }

  /** In every run of an exchange over the lock's hash, among the peers of the lock's definition, the signatures that a
      poll returns pass verifyNodeSignatures from v1.7 on; before that the ceremony leaves them out, which passes. */
  lemma ExchangedSignaturesVerify(c: Config, s: seq<State>, es: seq<Event>, k: nat, l: Lock)
    requires Run(c, s, es) && k < |es| && es[k].Poll? && es[k].sigs.Some?
    requires IsPeers(c.k1, l.def, Some(c.peers)) && l.def.version.V1? && s[k].exchanged == Some(l.lockHash)
    ensures NodeSignaturesOk(c.k1, l.(nodeSignatures := if l.def.version.minor <= 6 then [] else es[k].sigs.value))
  {
    SlotsVerify(c, s, es, k);
    assert Next(c, s[k], es[k], s[k + 1]);
  }
}
