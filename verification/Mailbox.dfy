/** One receive channel of the FROST transport (dkg/frostp2p.go): a callback that runs for every incoming message of
    a peer, drops duplicates and invalid messages and sends the rest into a buffered channel, a node that sends its
    own message to itself once, and a round that reads the channel. Steps of all of them interleave freely. */
module Mailbox {

  type Peer = nat

  /** A message with its sender. The sender is known from the connection; a round does not look at it. */
  datatype Envelope<M> = Envelope(from: Peer, msg: M)

  datatype State<M> = State(dedup: set<Peer>, selfSent: bool, chan: seq<Envelope<M>>, recv: seq<Envelope<M>>)

  datatype Event<M> = Deliver(from: Peer, msg: M) | SendSelf(msg: M) | Receive

  /** The peers of the ceremony, this node among them, the callback's check, and whether the callback records a peer
      before checking its message (broadcasts) or after (direct messages). */
  datatype Config<!M> = Config(peers: set<Peer>, self: Peer, accept: (Peer, M) -> bool, marksFirst: bool)
  {
    ghost predicate Valid() {
      self in peers
    }
  }

  ghost predicate Init<M>(s: State<M>) {
    s == State({}, false, [], [])
  }

  function DeliverStep<M>(c: Config<M>, s: State<M>, from: Peer, msg: M): (s': State<M>) {
    if from in s.dedup then s
    else if c.accept(from, msg) then
      s.(dedup := s.dedup + {from}, chan := s.chan + [Envelope(from, msg)])
    else if c.marksFirst then s.(dedup := s.dedup + {from})
    else s
  }

  /** Peers are authenticated, and neither a broadcast nor a direct message is delivered to its own sender. */
  ghost predicate Next<M>(c: Config<M>, s: State<M>, e: Event<M>, s': State<M>) {
    match e
    case Deliver(from, msg) => from in c.peers && from != c.self && s' == DeliverStep(c, s, from, msg)
    case SendSelf(msg) => !s.selfSent && s' == s.(selfSent := true, chan := s.chan + [Envelope(c.self, msg)])
    case Receive => s.chan != [] && s' == s.(chan := s.chan[1..], recv := s.recv + [s.chan[0]])
  }

  ghost predicate Run<M(!new)>(c: Config<M>, s: seq<State<M>>, es: seq<Event<M>>) {
    && c.Valid() && |s| == |es| + 1 && Init(s[0])
    && forall i {:trigger es[i]} | 0 <= i < |es| :: Next(c, s[i], es[i], s[i + 1])
  }

  /** Whether the event sends into the channel. */
  predicate Sends<M>(c: Config<M>, s: State<M>, e: Event<M>) {
    match e
    case Deliver(from, msg) => from !in s.dedup && c.accept(from, msg)
    case SendSelf(_) => true
    case Receive => false
  }

  // ----- the invariant -----

  /** Everything that ever got into the channel, in order. */
  function Sent<M>(s: State<M>): (es: seq<Envelope<M>>) {
    s.recv + s.chan
  }

  ghost predicate Inv<M>(c: Config<M>, s: State<M>) {
    && s.dedup <= c.peers - {c.self}
    && (forall i, j | 0 <= i < j < |Sent(s)| :: Sent(s)[i].from != Sent(s)[j].from)
    && (forall i | 0 <= i < |Sent(s)| ::
          if Sent(s)[i].from == c.self then s.selfSent
          else Sent(s)[i].from in s.dedup && c.accept(Sent(s)[i].from, Sent(s)[i].msg))
  }

  lemma {:induction false} RunInv<M(!new)>(c: Config<M>, s: seq<State<M>>, es: seq<Event<M>>, k: nat)
    requires Run(c, s, es) && k <= |es|
    ensures Inv(c, s[k])
  {
    if k > 0 {
      RunInv(c, s, es, k - 1);
      assert Next(c, s[k - 1], es[k - 1], s[k]);
      if Sends(c, s[k - 1], es[k - 1]) {
        assert Sent(s[k]) == Sent(s[k - 1]) + [s[k].chan[|s[k].chan| - 1]];
      } else {
        assert Sent(s[k]) == Sent(s[k - 1]);
      }
    }
  }

  // ----- pigeonhole -----

  ghost function Senders<M>(es: seq<Envelope<M>>): (ps: set<Peer>) {
    set i | 0 <= i < |es| :: es[i].from
  }

  lemma {:induction false} DistinctSenders<M>(es: seq<Envelope<M>>)
    requires forall i, j | 0 <= i < j < |es| :: es[i].from != es[j].from
    ensures |Senders(es)| == |es|
  {
    if es != [] {
      var m := |es| - 1;
      DistinctSenders(es[..m]);
      assert Senders(es) == Senders(es[..m]) + {es[m].from};
    } else {
      assert Senders(es) == {};
    }
  }

  lemma SubsetSize<T>(a: set<T>, b: set<T>)
    requires a <= b
    ensures |a| <= |b| && (|a| == |b| ==> a == b)
  {
    assert |b| == |a| + |b - a| by {
      assert b == a + (b - a);
    }
  }

  /** The senders of everything in the channel: at most all peers, and only the others unless we sent as well. */
  lemma SentAtMostPeers<M>(c: Config<M>, s: State<M>)
    requires c.Valid() && Inv(c, s)
    ensures Senders(Sent(s)) <= (if s.selfSent then c.peers else c.peers - {c.self})
    ensures |Sent(s)| == |Senders(Sent(s))| <= |c.peers| - (if s.selfSent then 0 else 1)
  {
    DistinctSenders(Sent(s));
    SubsetSize(Senders(Sent(s)), if s.selfSent then c.peers else c.peers - {c.self});
  }

  /** In every run no send ever finds the channel, whose capacity is the number of peers, full. */
  lemma SendNeverBlocks<M(!new)>(c: Config<M>, s: seq<State<M>>, es: seq<Event<M>>, k: nat)
    requires Run(c, s, es) && k < |es| && Sends(c, s[k], es[k])
    ensures |s[k].chan| < |c.peers|
  {
    RunInv(c, s, es, k + 1);
    SentAtMostPeers(c, s[k + 1]);
    assert Next(c, s[k], es[k], s[k + 1]);
  }

  /** In every run a round never receives more messages than there are peers, or than there are other peers when the
      node does not send to itself: the errors for too many messages are unreachable. */
  lemma NeverTooMany<M(!new)>(c: Config<M>, s: seq<State<M>>, es: seq<Event<M>>, k: nat)
    requires Run(c, s, es) && k <= |es|
    ensures |s[k].recv| <= |c.peers| - (if s[k].selfSent then 0 else 1)
  {
    RunInv(c, s, es, k);
    SentAtMostPeers(c, s[k]);
  }

  /** When a round has as many messages as it waits for, it consumed exactly one accepted message of every peer it
      waits for, and nothing is left in the channel. */
  lemma RoundIsComplete<M(!new)>(c: Config<M>, s: seq<State<M>>, es: seq<Event<M>>, k: nat)
    requires Run(c, s, es) && k <= |es|
    requires |s[k].recv| == |c.peers| - (if s[k].selfSent then 0 else 1)
    ensures s[k].chan == []
    ensures Senders(s[k].recv) == if s[k].selfSent then c.peers else c.peers - {c.self}
    ensures forall i, j | 0 <= i < j < |s[k].recv| :: s[k].recv[i].from != s[k].recv[j].from
    ensures forall i | 0 <= i < |s[k].recv| && s[k].recv[i].from != c.self ::
      c.accept(s[k].recv[i].from, s[k].recv[i].msg)
  {
    RunInv(c, s, es, k);
    SentAtMostPeers(c, s[k]);
    assert Sent(s[k]) == s[k].recv;
    SubsetSize(Senders(Sent(s[k])), if s[k].selfSent then c.peers else c.peers - {c.self});
  }

  /** What was received from a peer was delivered from that peer, and the node's own message is the one it sent. */
  lemma {:induction false} ReceivedWasSent<M(!new)>(c: Config<M>, s: seq<State<M>>, es: seq<Event<M>>, k: nat, i: nat)
    returns (j: nat)
    requires Run(c, s, es) && k <= |es| && i < |Sent(s[k])|
    ensures j < k && Sends(c, s[j], es[j])
    ensures es[j] == if Sent(s[k])[i].from == c.self then SendSelf(Sent(s[k])[i].msg)
                     else Deliver(Sent(s[k])[i].from, Sent(s[k])[i].msg)
  {
    assert k > 0;
    assert Next(c, s[k - 1], es[k - 1], s[k]);
    if Sends(c, s[k - 1], es[k - 1]) {
      assert Sent(s[k]) == Sent(s[k - 1]) + [s[k].chan[|s[k].chan| - 1]];
      if i < |Sent(s[k - 1])| {
        j := ReceivedWasSent(c, s, es, k - 1, i);
      } else {
        j := k - 1;
      }
    } else {
      assert Sent(s[k]) == Sent(s[k - 1]);
      j := ReceivedWasSent(c, s, es, k - 1, i);
    }
  }

  // ----- nothing is lost -----

  ghost predicate Delivered<M>(es: seq<Event<M>>, p: Peer, k: nat) {
    exists i | 0 <= i < k && i < |es| :: es[i].Deliver? && es[i].from == p
  }

  /** If the callback accepts all that it is given, whoever delivered has a message in the channel or received. */
  lemma {:induction false} AcceptedArrives<M(!new)>(c: Config<M>, s: seq<State<M>>, es: seq<Event<M>>, k: nat, p: Peer)
    requires Run(c, s, es) && k <= |es|
    requires forall i | 0 <= i < k && es[i].Deliver? :: c.accept(es[i].from, es[i].msg)
    ensures p in s[k].dedup ==> p in Senders(Sent(s[k]))
    ensures Delivered(es, p, k) ==> p in s[k].dedup
  {
    if k > 0 {
      AcceptedArrives(c, s, es, k - 1, p);
      assert Next(c, s[k - 1], es[k - 1], s[k]);
      var a, b := Sent(s[k - 1]), Sent(s[k]);
      if Sends(c, s[k - 1], es[k - 1]) {
        assert b == a + [s[k].chan[|s[k].chan| - 1]];
        assert b[|a|].from in Senders(b);
      } else {
        assert b == a;
      }
      if p in Senders(a) {
        var i :| 0 <= i < |a| && a[i].from == p;
        assert b[i].from == p;
      }
      assert Delivered(es, p, k) ==> Delivered(es, p, k - 1) || (es[k - 1].Deliver? && es[k - 1].from == p);
    }
  }

  lemma {:induction false} SelfArrives<M(!new)>(c: Config<M>, s: seq<State<M>>, es: seq<Event<M>>, k: nat)
    requires Run(c, s, es) && k <= |es|
    ensures s[k].selfSent ==> c.self in Senders(Sent(s[k]))
  {
    if k > 0 {
      SelfArrives(c, s, es, k - 1);
      assert Next(c, s[k - 1], es[k - 1], s[k]);
      var a, b := Sent(s[k - 1]), Sent(s[k]);
      if Sends(c, s[k - 1], es[k - 1]) {
        assert b == a + [s[k].chan[|s[k].chan| - 1]];
        assert b[|a|].from in Senders(b);
      } else {
        assert b == a;
      }
      if c.self in Senders(a) {
        var i :| 0 <= i < |a| && a[i].from == c.self;
        assert b[i].from == c.self;
      }
    }
  }

  /** If the callback accepts all that it is given and every other peer delivered, then the round has what it waits for
      as soon as it has read the channel. */
  lemma AllDeliveredIsComplete<M(!new)>(c: Config<M>, s: seq<State<M>>, es: seq<Event<M>>, k: nat)
    requires Run(c, s, es) && k <= |es| && s[k].chan == []
    requires forall i | 0 <= i < k && es[i].Deliver? :: c.accept(es[i].from, es[i].msg)
    requires forall p | p in c.peers && p != c.self :: Delivered(es, p, k)
    ensures |s[k].recv| == |c.peers| - (if s[k].selfSent then 0 else 1)
  {
    RunInv(c, s, es, k);
    SentAtMostPeers(c, s[k]);
    assert Sent(s[k]) == s[k].recv;
    var all := if s[k].selfSent then c.peers else c.peers - {c.self};
    forall p | p in all ensures p in Senders(s[k].recv) {
      if p == c.self {
        SelfArrives(c, s, es, k);
      } else {
        AcceptedArrives(c, s, es, k, p);
      }
    }
    SubsetSize(all, Senders(s[k].recv));
  }

  // ----- reachable states -----

  ghost predicate Reachable<M(!new)>(c: Config<M>, s: State<M>) {
    exists ss, es :: Run(c, ss, es) && ss[|es|] == s
  }

  lemma InitReachable<M(!new)>(c: Config<M>, s: State<M>)
    requires c.Valid() && Init(s)
    ensures Reachable(c, s)
  {
    var ss: seq<State<M>>, es: seq<Event<M>> := [s], [];
    assert Run(c, ss, es) && ss[|es|] == s;
  }

  lemma NextReachable<M(!new)>(c: Config<M>, s: State<M>, e: Event<M>, s': State<M>)
    requires Reachable(c, s) && Next(c, s, e, s')
    ensures Reachable(c, s')
  {
    var ss, es :| Run(c, ss, es) && ss[|es|] == s;
    var ss', es' := ss + [s'], es + [e];
    forall i | 0 <= i < |es'| ensures Next(c, ss'[i], es'[i], ss'[i + 1]) {
      if i < |es| {
        assert es[i] == es'[i] && Next(c, ss[i], es[i], ss[i + 1]);
      }
    }
    assert Run(c, ss', es') && ss'[|es'|] == s';
  }

  /** In a reachable state the channel has room for another send, and no more was received than there are senders. */
  lemma ReachableBounds<M(!new)>(c: Config<M>, s: State<M>)
    requires Reachable(c, s)
    ensures |s.recv| <= |c.peers| - (if s.selfSent then 0 else 1)
    ensures !s.selfSent ==> |s.chan| < |c.peers|
  {
    var ss, es :| Run(c, ss, es) && ss[|es|] == s;
    RunInv(c, ss, es, |es|);
    SentAtMostPeers(c, s);
  }
}
