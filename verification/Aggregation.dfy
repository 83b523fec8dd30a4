/** Signing with the key shares and aggregating the exchanged partial signatures (dkg/dkg.go). Go iterates over maps in
    any order, and so do the methods here. */
module Aggregation {
  import opened Prelude
  import opened Bytes
  import opened Merkle
  import opened Lock
  import opened Frost
  import opened Shares
  import Ex = Exchanger

  type Sig = Bytes

  /** The BLS library. */
  datatype Bls = Bls(
    sign: (Bytes, Digest) -> Option<Sig>,
    verify: (PubKey, Digest, Sig) -> bool,
    thresholdAggregate: map<int, Sig> -> Option<Sig>,
    aggregate: seq<Sig> -> Option<Sig>,
    verifyAggregate: (seq<PubKey>, Sig, Digest) -> bool)
  {
    /** Keys and signatures are arrays of 48 and 96 bytes, a key has one valid signature for each message, and
        aggregates depend on what is aggregated but not on its order. */
    ghost predicate Valid() {
      && (forall pk, h, s :: verify(pk, h, s) ==> |pk| == LEN_PUBKEY && |s| == LEN_BLS_SIG)
      && (forall pk, h, s, s' :: verify(pk, h, s) && verify(pk, h, s') ==> s == s')
      && (forall a, b :: multiset(a) == multiset(b) ==> aggregate(a) == aggregate(b))
      && (forall a :: aggregate(a).Some? ==> |aggregate(a).value| == LEN_BLS_SIG)
      && (forall p, q, s, h :: multiset(p) == multiset(q) ==> verifyAggregate(p, s, h) == verifyAggregate(q, s, h))
    }
  }

  // ----- shares by validator -----

  /** The last share with the key. */
  function LastShare(shares: seq<Share>, pk: PubKey): (r: Option<Share>) {
    if shares == [] then None
    else if shares[|shares| - 1].pubkey == pk then Some(shares[|shares| - 1])
    else LastShare(shares[..|shares| - 1], pk)
  }

  method PubkeyToShares(shares: seq<Share>) returns (m: map<PubKey, Share>)
    ensures forall pk :: Lookup(m, pk) == LastShare(shares, pk)
  {
    m := map[];
    for i := 0 to |shares|
      invariant forall pk :: Lookup(m, pk) == LastShare(shares[..i], pk)
    {
      assert shares[..i + 1][..i] == shares[..i];
      m := m[shares[i].pubkey := shares[i]];
    }
    assert shares[..|shares|] == shares;
  }

  ghost predicate DistinctKeys(shares: seq<Share>) {
    forall i, j | 0 <= i < j < |shares| :: shares[i].pubkey != shares[j].pubkey
  }

  lemma {:induction false} LastShareOf(shares: seq<Share>, i: nat)
    requires DistinctKeys(shares) && i < |shares|
    ensures LastShare(shares, shares[i].pubkey) == Some(shares[i])
  {
    if i < |shares| - 1 {
      LastShareOf(shares[..|shares| - 1], i);
    }
  }

  // ----- signing -----

  /** What share i signs: its message and its signature. */
  function SignOne<M>(b: Bls, shares: seq<Share>, msg: (PubKey, nat) -> Option<M>, root: M -> Option<Digest>, i: nat)
    : (r: Option<(M, Sig)>)
    requires i < |shares|
  {
    var m :- msg(shares[i].pubkey, i);
    var h :- root(m);
    var sig :- b.sign(shares[i].secret, h);
    Some((m, sig))
  }

  /** What was signed for the last share with the key, among the first n. */
  function LastSigned<M>(b: Bls, shares: seq<Share>, msg: (PubKey, nat) -> Option<M>, root: M -> Option<Digest>,
                         n: nat, pk: PubKey): (r: Option<(M, Sig)>)
    requires n <= |shares|
  {
    if n == 0 then None
    else if shares[n - 1].pubkey == pk then SignOne(b, shares, msg, root, n - 1)
    else LastSigned(b, shares, msg, root, n - 1, pk)
  }

  /** signDepositMsgs, signValidatorRegistrations and signLockHash, which differ in the message of a share. */
  method SignMessages<M>(b: Bls, shares: seq<Share>, shareIdx: int, msg: (PubKey, nat) -> Option<M>,
                         root: M -> Option<Digest>)
    returns (r: Option<(map<PubKey, Ex.ParSig>, map<PubKey, M>)>)
    ensures r.Some? <==> forall i | 0 <= i < |shares| :: SignOne(b, shares, msg, root, i).Some?
    ensures r.Some? ==> forall pk ::
      var signed := LastSigned(b, shares, msg, root, |shares|, pk);
      && Lookup(r.value.0, pk) == (if signed == None then None else Some(Ex.ParSig(shareIdx, signed.value.1)))
      && Lookup(r.value.1, pk) == (if signed == None then None else Some(signed.value.0))
  {
    var pset: map<PubKey, Ex.ParSig>, msgs: map<PubKey, M> := map[], map[];
    for i := 0 to |shares|
      invariant forall k | 0 <= k < i :: SignOne(b, shares, msg, root, k).Some?
      invariant forall pk ::
        var signed := LastSigned(b, shares, msg, root, i, pk);
        && Lookup(pset, pk) == (if signed == None then None else Some(Ex.ParSig(shareIdx, signed.value.1)))
        && Lookup(msgs, pk) == (if signed == None then None else Some(signed.value.0))
    {
      var share := shares[i];
      var m := msg(share.pubkey, i);
      if m == None {
        assert SignOne(b, shares, msg, root, i) == None;
        return None;
      }
      var sigRoot := root(m.value);
      if sigRoot == None {
        assert SignOne(b, shares, msg, root, i) == None;
        return None;
      }
      var sig := b.sign(share.secret, sigRoot.value);
      if sig == None {
        assert SignOne(b, shares, msg, root, i) == None;
        return None;
      }
      pset := pset[share.pubkey := Ex.ParSig(shareIdx, sig.value)];
      msgs := msgs[share.pubkey := m.value];
    }
    return Some((pset, msgs));
  }

  /** Each share's message is the one made from its own position. */
  lemma {:induction false} LastSignedOf<M>(b: Bls, shares: seq<Share>, msg: (PubKey, nat) -> Option<M>,
                                           root: M -> Option<Digest>, n: nat, i: nat)
    requires DistinctKeys(shares) && i < n <= |shares|
    ensures LastSigned(b, shares, msg, root, n, shares[i].pubkey) == SignOne(b, shares, msg, root, i)
  {
    if i < n - 1 {
      LastSignedOf(b, shares, msg, root, n - 1, i);
    }
  }

  lemma {:induction false} LastSignedOnly<M>(b: Bls, shares: seq<Share>, msg: (PubKey, nat) -> Option<M>,
                                             root: M -> Option<Digest>, n: nat, pk: PubKey) returns (i: nat)
    requires n <= |shares| && LastSigned(b, shares, msg, root, n, pk).Some?
    ensures i < n && shares[i].pubkey == pk
    ensures LastSigned(b, shares, msg, root, n, pk) == SignOne(b, shares, msg, root, i)
  {
    if shares[n - 1].pubkey == pk {
      i := n - 1;
    } else {
      i := LastSignedOnly(b, shares, msg, root, n - 1, pk);
    }
  }

  // ----- threshold aggregation -----

  function PubShare(s: Option<Share>, idx: int): (r: Option<PubKey>) {
    if s.Some? && 0 <= idx < TWO32 then Lookup(s.value.publicShares, idx) else None
  }

  /** A partial signature under the public share that its index has in the validator's share. */
  predicate PsigOk(b: Bls, h: Digest, s: Option<Share>, psig: Ex.ParSig) {
    && |psig.data| == LEN_BLS_SIG
    && var p := PubShare(s, psig.shareIdx); p.Some? && b.verify(p.value, h, psig.data)
  }

  predicate PsigsOk(b: Bls, h: Digest, s: Option<Share>, psigs: seq<Ex.ParSig>) {
    forall i | 0 <= i < |psigs| :: PsigOk(b, h, s, psigs[i])
  }

  /** The signatures by share index; a later one replaces an earlier one. */
  function ByIdx(psigs: seq<Ex.ParSig>): (m: map<int, Sig>) {
    if psigs == [] then map[]
    else ByIdx(psigs[..|psigs| - 1])[psigs[|psigs| - 1].shareIdx := psigs[|psigs| - 1].data]
  }

  /** The group signature of one validator: none unless every partial signature and the result verify. */
  function GroupSig(b: Bls, pk: PubKey, h: Digest, s: Option<Share>, psigs: seq<Ex.ParSig>): (r: Option<Sig>)
    ensures r.Some? ==> b.verify(pk, h, r.value) && PsigsOk(b, h, s, psigs)
  {
    if !PsigsOk(b, h, s, psigs) then None else
      var asig :- b.thresholdAggregate(ByIdx(psigs));
      if b.verify(pk, h, asig) then Some(asig) else None
  }

  method AggregateSig(b: Bls, pk: PubKey, h: Digest, s: Option<Share>, data: seq<Ex.ParSig>) returns (r: Option<Sig>)
    ensures r == GroupSig(b, pk, h, s, data)
  {
    var psigs: map<int, Sig> := map[];
    for i := 0 to |data|
      invariant psigs == ByIdx(data[..i]) && PsigsOk(b, h, s, data[..i])
    {
      if |data[i].data| != LEN_BLS_SIG {
        return None;
      }
      var pubshare := PubShare(s, data[i].shareIdx);
      if pubshare == None {
        return None;
      }
      if !b.verify(pubshare.value, h, data[i].data) {
        return None;
      }
      assert data[..i + 1][..i] == data[..i];
      psigs := psigs[data[i].shareIdx := data[i].data];
    }
    assert data[..|data|] == data;
    var asig := b.thresholdAggregate(psigs);
    if asig == None || !b.verify(pk, h, asig.value) {
      return None;
    }
    return asig;
  }

  /** What is aggregated for one validator. */
  function AggregateOne<M, R>(
      b: Bls, data: Ex.DataSet, shares: seq<Share>, msgs: map<PubKey, M>, root: M -> Option<Digest>,
                              signed: (M, Sig) -> R, pk: PubKey): (r: Option<R>)
    requires pk in data
  {
    var m :- Lookup(msgs, pk);
    var h :- root(m);
    var sig :- GroupSig(b, pk, h, LastShare(shares, pk), data[pk]);
    Some(signed(m, sig))
  }

  /** The keys of the map, each once. */
  ghost predicate IsOrder(order: seq<PubKey>, keys: set<PubKey>) {
    (forall i, j | 0 <= i < j < |order| :: order[i] != order[j]) && forall pk :: pk in keys <==> pk in order
  }

  /** rs is what is aggregated for each validator, in the given order. */
  ghost predicate IsAggregate<M, R>(b: Bls, data: Ex.DataSet, shares: seq<Share>, msgs: map<PubKey, M>,
                                    root: M -> Option<Digest>, signed: (M, Sig) -> R, order: seq<PubKey>, rs: seq<R>) {
    && |rs| == |order|
    && forall i | 0 <= i < |order| ::
         order[i] in data && AggregateOne(b, data, shares, msgs, root, signed, order[i]) == Some(rs[i])
  }

  /** aggDepositData and aggValidatorRegistrations, which differ in the message and in the signed form of it. */
  method Aggregate<M, R>(b: Bls, data: Ex.DataSet, shares: seq<Share>, msgs: map<PubKey, M>, root: M -> Option<Digest>,
                         signed: (M, Sig) -> R) returns (r: Option<seq<R>>, order: seq<PubKey>)
    ensures r == None <==> exists pk | pk in data :: AggregateOne(b, data, shares, msgs, root, signed, pk) == None
    ensures r.Some? ==> IsOrder(order, data.Keys) && IsAggregate(b, data, shares, msgs, root, signed, order, r.value)
  {
    hide GroupSig;
    var pubkeyToShares := PubkeyToShares(shares);
    var resp := [];
    order := [];
    var todo := data.Keys;
    while todo != {}
      invariant todo <= data.Keys && IsOrder(order, data.Keys - todo)
      invariant IsAggregate(b, data, shares, msgs, root, signed, order, resp)
      decreases todo
    {
      var pk :| pk in todo;
      if pk !in msgs {
        assert AggregateOne(b, data, shares, msgs, root, signed, pk) == None;
        return None, order;
      }
      var sigRoot := root(msgs[pk]);
      if sigRoot == None {
        assert AggregateOne(b, data, shares, msgs, root, signed, pk) == None;
        return None, order;
      }
      var asig := AggregateSig(b, pk, sigRoot.value, Lookup(pubkeyToShares, pk), data[pk]);
      if asig == None {
        assert AggregateOne(b, data, shares, msgs, root, signed, pk) == None;
        return None, order;
      }
      assert forall q :: q in order + [pk] <==> q in order || q == pk;
      resp, order := resp + [signed(msgs[pk], asig.value)], order + [pk];
      todo := todo - {pk};
    }
    assert data.Keys - todo == data.Keys;
    forall pk | pk in data ensures AggregateOne(b, data, shares, msgs, root, signed, pk).Some? {
      assert pk in order;
      var i :| 0 <= i < |order| && order[i] == pk;
    }
    return Some(resp), order;
  }

  // ----- multi-signature aggregation -----

  function SigsOf(psigs: seq<Ex.ParSig>): (r: seq<Sig>) {
    seq(|psigs|, i requires 0 <= i < |psigs| => psigs[i].data)
  }

  /** The public shares of the signatures. */
  function PubSharesOf(s: Option<Share>, psigs: seq<Ex.ParSig>): (r: seq<PubKey>)
    requires forall i | 0 <= i < |psigs| :: PubShare(s, psigs[i].shareIdx).Some?
  {
    seq(|psigs|, i requires 0 <= i < |psigs| => PubShare(s, psigs[i].shareIdx).value)
  }

  /** The concatenation of f over the keys. */
  function Collect<K, T>(keys: seq<K>, f: K -> seq<T>): (r: seq<T>) {
    if keys == [] then [] else Collect(keys[..|keys| - 1], f) + f(keys[|keys| - 1])
  }

  function DataOf(data: Ex.DataSet, pk: PubKey): (r: seq<Ex.ParSig>) {
    if pk in data then data[pk] else []
  }

  function SigsIn(data: Ex.DataSet): (f: PubKey -> seq<Sig>) {
    pk => SigsOf(DataOf(data, pk))
  }

  function PubSharesIn(data: Ex.DataSet, shares: seq<Share>): (f: PubKey -> seq<PubKey>) {
    pk => if forall i | 0 <= i < |DataOf(data, pk)| ::
               PubShare(LastShare(shares, pk), DataOf(data, pk)[i].shareIdx).Some?
          then PubSharesOf(LastShare(shares, pk), DataOf(data, pk)) else []
  }

  /** The inner loop of aggLockHashSig. */
  method CheckSigs(b: Bls, h: Digest, s: Option<Share>, psigs: seq<Ex.ParSig>)
      returns (r: Option<(seq<Sig>, seq<PubKey>)>)
    ensures r.Some? <==> PsigsOk(b, h, s, psigs)
    ensures r.Some? ==> r.value == (SigsOf(psigs), PubSharesOf(s, psigs))
  {
    var sigs, pubkeys := [], [];
    for i := 0 to |psigs|
      invariant PsigsOk(b, h, s, psigs[..i])
      invariant sigs == SigsOf(psigs[..i]) && pubkeys == PubSharesOf(s, psigs[..i])
    {
      if |psigs[i].data| != LEN_BLS_SIG {
        return None;
      }
      var pubshare := PubShare(s, psigs[i].shareIdx);
      if pubshare == None {
        return None;
      }
      if !b.verify(pubshare.value, h, psigs[i].data) {
        return None;
      }
      sigs, pubkeys := sigs + [psigs[i].data], pubkeys + [pubshare.value];
    }
    assert psigs[..|psigs|] == psigs;
    return Some((sigs, pubkeys));
  }

  ghost predicate AllSigsOk(b: Bls, data: Ex.DataSet, shares: seq<Share>, h: Digest) {
    forall pk | pk in data :: PsigsOk(b, h, LastShare(shares, pk), data[pk])
  }

  lemma CollectNone<K, T, U>(f: K -> seq<T>, g: K -> seq<U>)
    ensures Collect([], f) == [] && Collect([], g) == []
  {
  }

  lemma CollectOne(b: Bls, data: Ex.DataSet, shares: seq<Share>, h: Digest, order: seq<PubKey>, pk: PubKey)
    requires pk in data && PsigsOk(b, h, LastShare(shares, pk), data[pk])
    ensures Collect(order + [pk], SigsIn(data)) == Collect(order, SigsIn(data)) + SigsOf(data[pk])
    ensures Collect(order + [pk], PubSharesIn(data, shares))
            == Collect(order, PubSharesIn(data, shares)) + PubSharesOf(LastShare(shares, pk), data[pk])
  {
    assert (order + [pk])[..|order|] == order;
  }

  /** aggLockHashSig. */
  method AggLockHashSig(b: Bls, data: Ex.DataSet, shares: map<PubKey, Share>, h: Digest, ghost all: seq<Share>)
    returns (r: Option<(Sig, seq<PubKey>)>, order: seq<PubKey>)
    requires forall pk :: Lookup(shares, pk) == LastShare(all, pk)
    ensures r.Some? ==> AllSigsOk(b, data, all, h) && IsOrder(order, data.Keys)
    ensures r.Some? ==> b.aggregate(Collect(order, SigsIn(data))) == Some(r.value.0)
    ensures r.Some? ==> r.value.1 == Collect(order, PubSharesIn(data, all))
    ensures r == None ==> !AllSigsOk(b, data, all, h)
                          || (IsOrder(order, data.Keys) && b.aggregate(Collect(order, SigsIn(data))) == None)
  {
    hide LastShare, PsigsOk, Collect, SigsIn, PubSharesIn, SigsOf, PubSharesOf;
    var sigs, pubkeys := [], [];
    order := [];
    CollectNone(SigsIn(data), PubSharesIn(data, all));
    var todo := data.Keys;
    while todo != {}
      invariant todo <= data.Keys && IsOrder(order, data.Keys - todo)
      invariant forall pk | pk in data.Keys - todo :: PsigsOk(b, h, LastShare(all, pk), data[pk])
      invariant sigs == Collect(order, SigsIn(data)) && pubkeys == Collect(order, PubSharesIn(data, all))
      decreases todo
    {
      var pk :| pk in todo;
      var checked := CheckSigs(b, h, Lookup(shares, pk), data[pk]);
      if checked == None {
        return None, order;
      }
      assert forall q :: q in order + [pk] <==> q in order || q == pk;
      CollectOne(b, data, all, h, order, pk);
      sigs, pubkeys, order := sigs + checked.value.0, pubkeys + checked.value.1, order + [pk];
      todo := todo - {pk};
    }
    var aggSig := b.aggregate(sigs);
    if aggSig == None {
      return None, order;
    }
    return Some((aggSig.value, pubkeys)), order;
  }

  // ----- order does not matter -----

  lemma {:induction false} CollectConcat<K, T>(x: seq<K>, y: seq<K>, f: K -> seq<T>)
    ensures Collect(x + y, f) == Collect(x, f) + Collect(y, f)
  {
    if y == [] {
      assert x + y == x;
    } else {
      var m := |y| - 1;
      assert (x + y)[..|x| + m] == x + y[..m];
      CollectConcat(x, y[..m], f);
    }
  }

  lemma CollectMiddle<K, T>(u: seq<K>, k: K, w: seq<K>, f: K -> seq<T>)
    ensures multiset(Collect(u + [k] + w, f)) == multiset(Collect(u + w, f)) + multiset(f(k))
  {
    CollectConcat(u, w, f);
    CollectConcat(u + [k], w, f);
    assert (u + [k])[..|u|] == u;
  }

  /** The last element of x taken out of both lists. */
  lemma TakeOut<K>(x: seq<K>, y: seq<K>) returns (j: nat)
    requires x != [] && multiset(x) == multiset(y)
    ensures j < |y| && y == y[..j] + [x[|x| - 1]] + y[j + 1..]
    ensures multiset(x[..|x| - 1]) == multiset(y[..j] + y[j + 1..])
  {
    var m := |x| - 1;
    assert x == x[..m] + [x[m]];
    assert x[m] in multiset(y);
    j :| 0 <= j < |y| && y[j] == x[m];
    assert y == y[..j] + [x[m]] + y[j + 1..];
    assert multiset(y) == multiset(y[..j]) + multiset{x[m]} + multiset(y[j + 1..]);
    assert multiset(x[..m]) == multiset(x) - multiset{x[m]};
  }

  lemma {:induction false} CollectPermutes<K, T>(x: seq<K>, y: seq<K>, f: K -> seq<T>)
    requires multiset(x) == multiset(y)
    ensures multiset(Collect(x, f)) == multiset(Collect(y, f))
  {
    if x == [] {
      assert |multiset(y)| == 0;
    } else {
      var m := |x| - 1;
      var j := TakeOut(x, y);
      CollectPermutes(x[..m], y[..j] + y[j + 1..], f);
      CollectMiddle(y[..j], x[m], y[j + 1..], f);
    }
  }

  lemma {:induction false} DistinctCounts<K>(x: seq<K>, k: K)
    requires forall i, j | 0 <= i < j < |x| :: x[i] != x[j]
    ensures multiset(x)[k] == if k in x then 1 else 0
  {
    if x != [] {
      var m := |x| - 1;
      DistinctCounts(x[..m], k);
      assert x == x[..m] + [x[m]];
    }
  }

  lemma SameElements<K(!new)>(x: seq<K>, y: seq<K>)
    requires forall i, j | 0 <= i < j < |x| :: x[i] != x[j]
    requires forall i, j | 0 <= i < j < |y| :: y[i] != y[j]
    requires forall k :: k in x <==> k in y
    ensures multiset(x) == multiset(y)
  {
    forall k ensures multiset(x)[k] == multiset(y)[k] {
      DistinctCounts(x, k);
      DistinctCounts(y, k);
    }
  }

  lemma {:induction false} CollectSame<K, L, T>(x: seq<K>, y: seq<L>, f: K -> seq<T>, g: L -> seq<T>)
    requires |x| == |y| && forall i | 0 <= i < |x| :: multiset(f(x[i])) == multiset(g(y[i]))
    ensures multiset(Collect(x, f)) == multiset(Collect(y, g))
  {
    if x != [] {
      CollectSame(x[..|x| - 1], y[..|y| - 1], f, g);
    }
  }
}
