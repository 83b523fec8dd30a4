/** The whole ceremony, from the messages of the FROST rounds to the lock: all nodes that finish hold the same lock. */
module Agreement {
  import opened Prelude
  import opened Bytes
  import opened Sorting
  import opened Mailbox
  import opened Frost
  import opened FrostRounds
  import opened Shares
  import opened DefinitionVerify
  import opened LockVerify
  import opened Ceremony
  import NodeSigs
  import Ex = Exchanger

  /** The key generation library: decoding of the broadcasts, conversion of keys, and the group key, which the
      broadcasts of round 1 determine. */
  datatype Library<!C> = Library(
    cast1: Round1Cast -> Option<C>, cast2: Round2Cast -> Option<Round2Cast>,
    groupKey: map<uint32, C> -> Bytes, conv: Conv)

  /** The key generation of one node: what it received in the two broadcast rounds and what it made of that. */
  datatype KeyGen<C> = KeyGen(
    recv1: seq<Envelope<Round1Casts>>, casts1: map<MsgKey, C>, inputs: map<uint32, map<uint32, C>>,
    recv2: seq<Envelope<Round2Casts>>, casts2: map<MsgKey, Round2Cast>,
    participants: map<uint32, Participant>, ids: seq<uint32>, shares: seq<Share>)

  /** One message of every peer, with keys that pass the receiver's checks. */
  ghost predicate Accepted<P>(c: Cluster, recv: seq<Envelope<seq<Entry<P>>>>) {
    && Senders(recv) == c.shareIdx.Keys
    && (forall i, j | 0 <= i < j < |recv| :: recv[i].from != recv[j].from)
    && (forall i | 0 <= i < |recv| :: KeysOk(recv[i].msg, c.ShareIdx(recv[i].from), 0, c.numVals))
  }

  /** What the node makes of the received messages. */
  ghost predicate Processed<C(!new)>(c: Cluster, lib: Library<C>, g: KeyGen<C>) {
    && IsResponse(Flatten(Msgs(g.recv1)), lib.cast1, g.casts1)
    && (forall v: uint32 :: v in g.participants <==> v < c.numVals)
    && g.inputs.Keys == g.participants.Keys
    && (forall v | v in g.inputs ::
          IsDemux(g.casts1, v, g.inputs[v]) && g.participants[v].verificationKey == lib.groupKey(g.inputs[v]))
    && IsResponse(Flatten(Msgs(g.recv2)), lib.cast2, g.casts2)
    && Sorted(g.ids) && Distinct(g.ids) && Elements(g.ids) == g.participants.Keys
    && Converts(lib.conv, g.casts2) && IsShares(lib.conv, g.participants, g.casts2, g.ids, g.shares)
  }

  ghost predicate Generated<C(!new)>(c: Cluster, lib: Library<C>, g: KeyGen<C>) {
    Accepted(c, g.recv1) && Accepted(c, g.recv2) && Processed(c, lib, g)
  }

  // ----- from the channels -----

  /** A round of the transport that is complete, in which the node's own message passes the checks too, has accepted
      messages. */
  lemma RoundIsAccepted<P(!new)>(c: Cluster, cfg: Config<seq<Entry<P>>>, s: seq<State<seq<Entry<P>>>>,
                                 es: seq<Event<seq<Entry<P>>>>, k: nat)
    requires Run(cfg, s, es) && k <= |es| && s[k].selfSent && |s[k].recv| == |cfg.peers| && cfg.peers == c.shareIdx.Keys
    requires forall from, msg | cfg.accept(from, msg) :: KeysOk(msg, c.ShareIdx(from), 0, c.numVals)
    requires forall i | 0 <= i < |es| && es[i].SendSelf? :: KeysOk(es[i].msg, c.ShareIdx(cfg.self), 0, c.numVals)
    ensures Accepted(c, s[k].recv)
  {
    assert |s| == |es| + 1;
    hide KeysOk, Run;
    RoundIsComplete(cfg, s, es, k);
    forall i | 0 <= i < |s[k].recv| ensures KeysOk(s[k].recv[i].msg, c.ShareIdx(s[k].recv[i].from), 0, c.numVals) {
      if s[k].recv[i].from == cfg.self {
        var j := ReceivedWasSent(cfg, s, es, k, i);
        assert es[j] == SendSelf(s[k].recv[i].msg);
      }
    }
  }

  lemma AcceptedIsSourced<P, V>(c: Cluster, recv: seq<Envelope<seq<Entry<P>>>>, f: P -> Option<V>, m: map<MsgKey, V>)
    requires c.Valid() && Accepted(c, recv) && IsResponse(Flatten(Msgs(recv)), f, m)
    ensures Sourced(c, recv)
  {
    hide Lookup, Last;
    forall i | 0 <= i < |recv| ensures recv[i].from in c.shareIdx {
      assert recv[i].from in Senders(recv);
    }
    forall i, j | 0 <= i < |recv| && 0 <= j < |recv[i].msg|
      ensures recv[i].msg[j].key.Some? && recv[i].msg[j].key.value.source == c.shareIdx[recv[i].from]
    {
      var k := InFlatten(Msgs(recv), i, j);
      assert Decodes(Flatten(Msgs(recv))[k], f);
      assert KeyOk(recv[i].msg[j], c.ShareIdx(recv[i].from), 0, c.numVals);
    }
  }

  lemma {:induction false} InFlatten<P>(msgs: seq<seq<Entry<P>>>, i: nat, j: nat) returns (k: nat)
    requires i < |msgs| && j < |msgs[i]|
    ensures k < |Flatten(msgs)| && Flatten(msgs)[k] == msgs[i][j]
  {
    var m := |msgs| - 1;
    if i == m {
      k := |Flatten(msgs[..m])| + j;
    } else {
      k := InFlatten(msgs[..m], i, j);
    }
  }

  /** Keys of an accepted response are broadcasts of a node of the cluster about one of its validators. */
  lemma AcceptedKey<P, V>(
      c: Cluster, recv: seq<Envelope<seq<Entry<P>>>>, f: P -> Option<V>, m: map<MsgKey, V>, k: MsgKey)
    requires c.Valid() && Accepted(c, recv) && IsResponse(Flatten(Msgs(recv)), f, m) && k in m
    ensures k.target == 0 && k.valIdx < c.numVals && 1 <= k.source <= |c.shareIdx|
  {
    hide Flatten, Decodes, KeysOk;
    AcceptedIsSourced(c, recv, f, m);
    LastByPeer(c, recv, k);
    assert Lookup(m, k).Some?;
    var i :| 0 <= i < |recv| && c.shareIdx[recv[i].from] == k.source;
    var j := LastIsElement(recv[i].msg, k);
    OkKey(recv[i].msg, c.ShareIdx(recv[i].from), c.numVals, j);
  }

  lemma OkKey<P>(es: seq<Entry<P>>, source: uint32, numVals: nat, j: nat)
    requires KeysOk(es, source, 0, numVals) && j < |es|
    ensures KeyOk(es[j], source, 0, numVals)
  {
  }

  // ----- agreement on the shares -----

  /** Demultiplexing broadcasts is determined. */
  lemma DemuxUnique<V>(m: map<MsgKey, V>, v: uint32, a: map<uint32, V>, b: map<uint32, V>)
    requires IsDemux(m, v, a) && IsDemux(m, v, b) && forall k | k in m :: k.target == 0
    ensures a == b
  {
    forall s: uint32 ensures Lookup(a, s) == Lookup(b, s) {
      DemuxExact(m, v, 0, a, s);
      DemuxExact(m, v, 0, b, s);
    }
    SameLookups(a, b);
  }

  /** The responses of a round of two nodes that heard the same broadcasts. */
  lemma SameRound<P, V>(c: Cluster, a: seq<Envelope<seq<Entry<P>>>>, b: seq<Envelope<seq<Entry<P>>>>,
                        f: P -> Option<V>, m: map<MsgKey, V>, n: map<MsgKey, V>)
    requires c.Valid() && Accepted(c, a) && Accepted(c, b) && SameBodies(a, b)
    requires IsResponse(Flatten(Msgs(a)), f, m) && IsResponse(Flatten(Msgs(b)), f, n)
    ensures m == n
    ensures forall k | k in m :: k.target == 0 && k.valIdx < c.numVals && 1 <= k.source <= |c.shareIdx|
  {
    hide Accepted, IsResponse, Flatten, Msgs;
    AcceptedIsSourced(c, a, f, m);
    AcceptedIsSourced(c, b, f, n);
    ResponseIsOrderFree(c, a, b, f, m, n);
    forall k | k in m ensures k.target == 0 && k.valIdx < c.numVals && 1 <= k.source <= |c.shareIdx| {
      AcceptedKey(c, a, f, m, k);
    }
  }

  lemma SamePubSharesOf(c: Cluster, conv: Conv, r2: map<MsgKey, Round2Cast>, v: uint32, a: map<uint32, PubKey>,
                        b: map<uint32, PubKey>)
    requires Converts(conv, r2) && forall k | k in r2 :: k.target == 0 && 1 <= k.source <= |c.shareIdx|
    requires IsDemux(PubShares(conv, r2), v, a) && IsDemux(PubShares(conv, r2), v, b)
    ensures a == b && forall x | x in a :: 1 <= x <= |c.shareIdx|
  {
    var m := PubShares(conv, r2);
    DemuxUnique(m, v, a, b);
    forall x | x in a ensures 1 <= x <= |c.shareIdx| {
      var k :| k in m && k.valIdx == v && k.source == x && m[k] == a[x];
    }
  }

  lemma SameGroupKeys<C(!new)>(c: Cluster, lib: Library<C>, g: KeyGen<C>, h: KeyGen<C>, v: uint32)
    requires c.Valid() && Generated(c, lib, g) && Generated(c, lib, h) && SameBodies(g.recv1, h.recv1)
        && v in g.participants
    ensures v in h.participants && g.participants[v].verificationKey == h.participants[v].verificationKey
  {
    hide Accepted, IsResponse, Flatten, Msgs, IsShares, IsDemux, SameBodies;
    SameRound(c, g.recv1, h.recv1, lib.cast1, g.casts1, h.casts1);
    assert v < c.numVals && v in h.participants;
    DemuxUnique(g.casts1, v, g.inputs[v], h.inputs[v]);
  }

  /** Nodes that heard the same broadcasts in both rounds, in any order, have one share for each validator, in the same
      order, with the same group keys and public shares, and the public shares belong to nodes of the cluster. */
  lemma SharesAgree<C(!new)>(c: Cluster, lib: Library<C>, g: KeyGen<C>, h: KeyGen<C>)
    requires c.Valid() && Generated(c, lib, g) && Generated(c, lib, h)
    requires SameBodies(g.recv1, h.recv1) && SameBodies(g.recv2, h.recv2)
    ensures g.ids == h.ids && SameShares(g.shares, h.shares) && SharesInRange(g.shares, |c.shareIdx|)
  {
    hide *;
    SameIds(c, lib, g, h);
    RoundTwo(c, lib, g);
    RoundTwo(c, lib, h);
    SameRound(c, g.recv2, h.recv2, lib.cast2, g.casts2, h.casts2);
    forall i | 0 <= i < |g.ids|
      ensures g.shares[i].pubkey == h.shares[i].pubkey && g.shares[i].publicShares == h.shares[i].publicShares
      ensures forall x | x in g.shares[i].publicShares :: 1 <= x <= |c.shareIdx|
    {
      SameShareAt(c, lib, g, h, i);
    }
    SameAndInRange(g.shares, h.shares, |c.shareIdx|);
  }

  lemma RoundTwo<C(!new)>(c: Cluster, lib: Library<C>, g: KeyGen<C>)
    requires Generated(c, lib, g)
    ensures Accepted(c, g.recv2) && IsResponse(Flatten(Msgs(g.recv2)), lib.cast2, g.casts2) && |g.shares| == |g.ids|
  {
    hide Accepted, IsResponse, Flatten, Msgs;
  }

  lemma SameAndInRange(a: seq<Share>, b: seq<Share>, n: nat)
    requires |a| == |b| && forall i | 0 <= i < |a| ::
      a[i].pubkey == b[i].pubkey && a[i].publicShares == b[i].publicShares
          && forall x | x in a[i].publicShares :: 1 <= x <= n
    ensures SameShares(a, b) && SharesInRange(a, n)
  {
  }

  /** The shares of a node are those of validators 0, 1, 2 and so on. */
  lemma OneSharePerValidator<C(!new)>(c: Cluster, lib: Library<C>, g: KeyGen<C>)
    requires Generated(c, lib, g) && c.numVals <= TWO32
    ensures g.ids == From(0, c.numVals) && |g.shares| == c.numVals
  {
    hide Accepted, IsResponse, Flatten, Msgs, IsDemux, Converts;
    forall x ensures x in Elements(g.ids) <==> 0 <= x < c.numVals {
      if 0 <= x < c.numVals {
        assert x in g.participants;
      }
    }
    ConsecutiveIds(g.ids, 0, c.numVals);
  }

  lemma SameIds<C(!new)>(c: Cluster, lib: Library<C>, g: KeyGen<C>, h: KeyGen<C>)
    requires Generated(c, lib, g) && Generated(c, lib, h)
    ensures g.ids == h.ids
  {
    hide Accepted, IsResponse, Flatten, Msgs, IsDemux, IsShares, Converts;
    assert g.participants.Keys == h.participants.Keys;
    SortedUnique(g.ids, h.ids);
  }

  lemma SameShareAt<C(!new)>(c: Cluster, lib: Library<C>, g: KeyGen<C>, h: KeyGen<C>, i: nat)
    requires c.Valid() && Generated(c, lib, g) && Generated(c, lib, h) && SameBodies(g.recv1, h.recv1)
    requires g.ids == h.ids && i < |g.ids| && g.casts2 == h.casts2
    requires forall k | k in g.casts2 :: k.target == 0 && 1 <= k.source <= |c.shareIdx|
    ensures |g.shares| == |h.shares| == |g.ids|
    ensures g.shares[i].pubkey == h.shares[i].pubkey && g.shares[i].publicShares == h.shares[i].publicShares
    ensures forall x | x in g.shares[i].publicShares :: 1 <= x <= |c.shareIdx|
  {
    hide Accepted, IsResponse, Flatten, Msgs, IsDemux, SameBodies, PubShares, Converts;
    SameGroupKeys(c, lib, g, h, g.ids[i]);
    SamePubSharesOf(c, lib.conv, g.casts2, g.ids[i], g.shares[i].publicShares, h.shares[i].publicShares);
  }

  // ----- a ceremony as runs -----

  /** Reliable broadcast: all events of a round carry, for each sender, the one body that it broadcast. */
  ghost predicate Broadcasts<M>(bodies: map<Peer, M>, self: Peer, es: seq<Event<M>>) {
    forall i | 0 <= i < |es| && !es[i].Receive? ::
      var p := if es[i].Deliver? then es[i].from else self;
      p in bodies && es[i].msg == bodies[p]
  }

  /** A run of a broadcast round up to its end, in which the node sends a message with its own keys. */
  ghost predicate RoundRun<P(!new)>(c: Cluster, cfg: Config<seq<Entry<P>>>, bodies: map<Peer, seq<Entry<P>>>,
                                    s: seq<State<seq<Entry<P>>>>, es: seq<Event<seq<Entry<P>>>>) {
    && Run(cfg, s, es) && Broadcasts(bodies, cfg.self, es)
    && s[|es|].selfSent && |s[|es|].recv| == |cfg.peers|
    && (forall i | 0 <= i < |es| && es[i].SendSelf? :: KeysOk(es[i].msg, c.ShareIdx(cfg.self), 0, c.numVals))
  }

  /** A node of the ceremony: its runs of the two broadcast rounds, its key generation, the run of its exchanges, and
      what it concluded. */
  datatype Node<C> = Node(
    self: Peer,
    s1: seq<State<Round1Casts>>, es1: seq<Event<Round1Casts>>,
    s2: seq<State<Round2Casts>>, es2: seq<Event<Round2Casts>>,
    keys: KeyGen<C>, xc: Ex.Config, xs: seq<Ex.State>, xes: seq<Ex.Event>, outcome: Outcome)

  /** The exchanges of a node, and the data that each of them returned. */
  ghost predicate ExchangeRun<C>(c: Cluster, s: Setup, x: Node<C>) {
    && x.self in c.shareIdx && Ex.Run(x.xc, x.xs, x.xes)
    && x.xc.n == |c.shareIdx| && x.xc.self == c.shareIdx[x.self] && x.xc.numVals == c.numVals
    && x.xc.vals == Keys(x.keys.shares)
    && var returned := x.xs[|x.xes|].returned;
       && Lookup(returned, Ex.SIG_LOCK) == Some(x.outcome.lockData)
       && Lookup(returned, Ex.SIG_VALIDATOR_REGISTRATION) == Some(x.outcome.registrationData)
       && forall a | 0 <= a < |x.outcome.depositData| ::
            Lookup(returned, Ex.SIG_DEPOSIT_DATA + a) == Some(x.outcome.depositData[a])
  }

  /** A node that goes through all steps of the ceremony. */
  ghost predicate Participates<C(!new)>(c: Cluster, lib: Library<C>, s: Setup, bodies1: map<Peer, Round1Casts>,
                                        bodies2: map<Peer, Round2Casts>, x: Node<C>) {
    && RoundRun(c, Round1CastsConfig(c, x.self), bodies1, x.s1, x.es1)
    && RoundRun(c, Round2CastsConfig(c, x.self), bodies2, x.s2, x.es2)
    && x.keys.recv1 == x.s1[|x.es1|].recv && x.keys.recv2 == x.s2[|x.es2|].recv
    && Processed(c, lib, x.keys) && x.outcome.shares == x.keys.shares
    && ExchangeRun(c, s, x) && Aggregated(s, x.outcome)
  }

  /** The cluster is that of the definition. */
  ghost predicate Fits(c: Cluster, s: Setup) {
    c.Valid() && s.Valid() && |c.shareIdx| == |s.def.operators| && c.numVals == s.def.numValidators
  }

  lemma ReceivedBody<P(!new)>(c: Cluster, cfg: Config<seq<Entry<P>>>, bodies: map<Peer, seq<Entry<P>>>,
                              s: seq<State<seq<Entry<P>>>>, es: seq<Event<seq<Entry<P>>>>, i: nat)
    requires RoundRun(c, cfg, bodies, s, es) && i < |s[|es|].recv|
    ensures s[|es|].recv[i].from in bodies && s[|es|].recv[i].msg == bodies[s[|es|].recv[i].from]
  {
    assert Sent(s[|es|])[i] == s[|es|].recv[i];
    var j := ReceivedWasSent(cfg, s, es, |es|, i);
  }

  /** Two nodes that ran a round over the same broadcasts received the same messages. */
  lemma SameBodiesOfRuns<P(!new)>(c: Cluster, a: Config<seq<Entry<P>>>, b: Config<seq<Entry<P>>>,
                                  bodies: map<Peer, seq<Entry<P>>>,
                                  s: seq<State<seq<Entry<P>>>>, es: seq<Event<seq<Entry<P>>>>,
                                  t: seq<State<seq<Entry<P>>>>, fs: seq<Event<seq<Entry<P>>>>)
    requires RoundRun(c, a, bodies, s, es) && RoundRun(c, b, bodies, t, fs) && a.peers == b.peers
    ensures SameBodies(s[|es|].recv, t[|fs|].recv)
  {
    ReceivedIn(c, a, b, bodies, s, es, t, fs);
    ReceivedIn(c, b, a, bodies, t, fs, s, es);
  }

  lemma ReceivedIn<P(!new)>(c: Cluster, a: Config<seq<Entry<P>>>, b: Config<seq<Entry<P>>>,
                            bodies: map<Peer, seq<Entry<P>>>,
                            s: seq<State<seq<Entry<P>>>>, es: seq<Event<seq<Entry<P>>>>,
                            t: seq<State<seq<Entry<P>>>>, fs: seq<Event<seq<Entry<P>>>>)
    requires RoundRun(c, a, bodies, s, es) && RoundRun(c, b, bodies, t, fs) && a.peers == b.peers
    ensures forall i | 0 <= i < |s[|es|].recv| :: s[|es|].recv[i] in t[|fs|].recv
  {
    var x, y := s[|es|].recv, t[|fs|].recv;
    RoundIsComplete(a, s, es, |es|);
    RoundIsComplete(b, t, fs, |fs|);
    forall i | 0 <= i < |x| ensures x[i] in y {
      ReceivedBody(c, a, bodies, s, es, i);
      assert x[i].from in Senders(x);
      var j :| 0 <= j < |y| && y[j].from == x[i].from;
      ReceivedBody(c, b, bodies, t, fs, j);
    }
  }

  lemma RoundRunAccepted<P(!new)>(c: Cluster, cfg: Config<seq<Entry<P>>>, bodies: map<Peer, seq<Entry<P>>>,
                                  s: seq<State<seq<Entry<P>>>>, es: seq<Event<seq<Entry<P>>>>)
    requires RoundRun(c, cfg, bodies, s, es) && cfg.peers == c.shareIdx.Keys
    requires forall from, msg | cfg.accept(from, msg) :: KeysOk(msg, c.ShareIdx(from), 0, c.numVals)
    ensures Accepted(c, s[|es|].recv)
  {
    hide KeysOk, Run;
    RoundIsAccepted(c, cfg, s, es, |es|);
  }

  /** A node that goes through all steps generated its keys from accepted messages, and finished with complete data. */
  lemma ParticipantFinishes<C(!new)>(c: Cluster, lib: Library<C>, s: Setup, bodies1: map<Peer, Round1Casts>,
                                     bodies2: map<Peer, Round2Casts>, x: Node<C>)
    requires Fits(c, s) && Participates(c, lib, s, bodies1, bodies2, x)
    ensures Generated(c, lib, x.keys) && Finished(s, x.outcome)
  {
    hide Accepted, Processed, RoundRun, Aggregated, ExchangeRun;
    RoundRunAccepted(c, Round1CastsConfig(c, x.self), bodies1, x.s1, x.es1);
    RoundRunAccepted(c, Round2CastsConfig(c, x.self), bodies2, x.s2, x.es2);
    ExchangesReturn(c, s, x);
  }

  lemma ExchangesReturn<C>(c: Cluster, s: Setup, x: Node<C>)
    requires Fits(c, s) && ExchangeRun(c, s, x) && Aggregated(s, x.outcome)
    ensures AllExchanged(s, x.outcome)
  {
    assert |x.outcome.shares| == c.numVals;
    assert |x.xs| == |x.xes| + 1;
    hide Aggregated, Exchanged, Ex.Run, Setup.Valid;
    var o := x.outcome;
    ReturnedExchanged(c, s, x, Ex.SIG_LOCK, o.lockData);
    ReturnedExchanged(c, s, x, Ex.SIG_VALIDATOR_REGISTRATION, o.registrationData);
    forall a | 0 <= a < |o.depositData| ensures Exchanged(|s.def.operators|, |o.shares|, o.depositData[a]) {
      ReturnedExchanged(c, s, x, Ex.SIG_DEPOSIT_DATA + a, o.depositData[a]);
    }
  }

  lemma ReturnedExchanged<C>(c: Cluster, s: Setup, x: Node<C>, t: Ex.SigType, d: Ex.DataSet)
    requires Ex.Run(x.xc, x.xs, x.xes) && Lookup(x.xs[|x.xes|].returned, t) == Some(d)
    ensures Exchanged(x.xc.n, x.xc.numVals, d)
  {
    Ex.ReturnedIsFull(x.xc, x.xs, x.xes, |x.xes|, t);
    FullDataIsExchanged(x.xc, t, d);
  }

  /** Any two nodes that go through a ceremony of the cluster over the same broadcasts hold the same lock, whatever the
      order of messages, of partial signatures, of concurrent calls and of the iteration over maps on each of them. */
  lemma CeremonyAgrees<C(!new)>(c: Cluster, lib: Library<C>, s: Setup, bodies1: map<Peer, Round1Casts>,
                                bodies2: map<Peer, Round2Casts>, x: Node<C>, y: Node<C>)
    requires Fits(c, s)
    requires Participates(c, lib, s, bodies1, bodies2, x) && Participates(c, lib, s, bodies1, bodies2, y)
    ensures x.outcome.lock == y.outcome.lock
  {
    ParticipantFinishes(c, lib, s, bodies1, bodies2, x);
    ParticipantFinishes(c, lib, s, bodies1, bodies2, y);
    HeardTheSame(c, lib, s, bodies1, bodies2, x, y);
    hide Generated, Finished, SameBodies, SameShares, SharesInRange, Processed, RoundRun, ExchangeRun, Aggregated;
    SharesAgree(c, lib, x.keys, y.keys);
    LocksAgree(s, x.outcome, y.outcome);
  }

  lemma HeardTheSame<C(!new)>(c: Cluster, lib: Library<C>, s: Setup, bodies1: map<Peer, Round1Casts>,
                              bodies2: map<Peer, Round2Casts>, x: Node<C>, y: Node<C>)
    requires Participates(c, lib, s, bodies1, bodies2, x) && Participates(c, lib, s, bodies1, bodies2, y)
    ensures SameBodies(x.keys.recv1, y.keys.recv1) && SameBodies(x.keys.recv2, y.keys.recv2)
  {
    hide Processed, RoundRun, ExchangeRun, Aggregated, SameBodies;
    SameBodiesOfRuns(c, Round1CastsConfig(c, x.self), Round1CastsConfig(c, y.self), bodies1, x.s1, x.es1, y.s1, y.es1);
    SameBodiesOfRuns(c, Round2CastsConfig(c, x.self), Round2CastsConfig(c, y.self), bodies2, x.s2, x.es2, y.s2, y.es2);
  }

  /** The lock of a node that goes through a ceremony, completed with the node signatures that its exchange over the
      lock hash returned, passes VerifySignatures exactly if the signatures of the definition do. */
  lemma CeremonyVerifies<C(!new)>(c: Cluster, lib: Library<C>, s: Setup, bodies1: map<Peer, Round1Casts>,
                                  bodies2: map<Peer, Round2Casts>, x: Node<C>, eip: Eip712,
                                  nc: NodeSigs.Config, st: seq<NodeSigs.State>, es: seq<NodeSigs.Event>, k: nat)
    requires Fits(c, s) && Participates(c, lib, s, bodies1, bodies2, x)
    requires NodeSigs.Run(nc, st, es) && k < |es| && es[k].Poll? && es[k].sigs.Some?
    requires NodeSigs.IsPeers(nc.k1, s.def, Some(nc.peers)) && st[k].exchanged == Some(x.outcome.lock.lockHash)
    ensures LockOk(s.bls, s.eth, nc.k1, eip, WithNodeSignatures(x.outcome.lock, es[k].sigs.value))
            <==> DefinitionSigsOk(eip, s.def)
  {
    ParticipantFinishes(c, lib, s, bodies1, bodies2, x);
    HeardTheSame(c, lib, s, bodies1, bodies2, x, x);
    assert |st| == |es| + 1;
    hide Generated, Finished, SameBodies, SameShares, SharesInRange, Processed, RoundRun, ExchangeRun, Aggregated,
      LockOk, DefinitionSigsOk, NodeSigs.Run, NodeSigs.IsPeers;
    SharesAgree(c, lib, x.keys, x.keys);
    FinishedLockVerifies(s, x.outcome, eip, nc, st, es, k);
  }
}
