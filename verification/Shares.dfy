/** From the results of round 2 to the key shares of the validators (makeShares in dkg/frost.go) and to the ordered
    public shares of each validator (dkg/share.go). */
module Shares {
  import opened Prelude
  import opened Bytes
  import opened Sorting
  import opened Frost
  import opened FrostRounds

  type PubKey = Bytes

  /** A key share of one validator: the group key, this node's secret, and everybody's public share by share index. */
  datatype Share = Share(pubkey: PubKey, secret: Bytes, publicShares: map<uint32, PubKey>)

  /** A library participant after round 2. */
  datatype Participant = Participant(verificationKey: Bytes, skShare: Bytes)

  /** tblsconv, which rejects malformed keys. */
  datatype Conv = Conv(pubkey: Bytes -> Option<PubKey>, secret: Bytes -> Option<Bytes>)

  ghost predicate Converts(conv: Conv, r2: map<MsgKey, Round2Cast>) {
    forall k | k in r2 :: conv.pubkey(r2[k].vkShare).Some?
  }

  /** The public share of each key of round 2. */
  ghost function PubShares(conv: Conv, r2: map<MsgKey, Round2Cast>): (m: map<MsgKey, PubKey>)
    requires Converts(conv, r2)
  {
    map k | k in r2 :: conv.pubkey(r2[k].vkShare).value
  }

  function OfValidator(m: map<uint32, map<uint32, PubKey>>, v: uint32): (r: map<uint32, PubKey>) {
    if v in m then m[v] else map[]
  }

  /** The first loop of makeShares: the public shares of each validator by source. */
  method GatherPubShares(conv: Conv, r2: map<MsgKey, Round2Cast>) returns (r: Option<map<uint32, map<uint32, PubKey>>>)
    ensures r.Some? <==> Converts(conv, r2)
    ensures r.Some? ==> forall v :: IsDemux(PubShares(conv, r2), v, OfValidator(r.value, v))
  {
    var pubShares: map<uint32, map<uint32, PubKey>> := map[];
    var todo := r2.Keys;
    while todo != {}
      invariant todo <= r2.Keys
      invariant forall k | k in r2.Keys - todo :: conv.pubkey(r2[k].vkShare).Some?
      invariant forall k | k in r2.Keys - todo :: k.source in OfValidator(pubShares, k.valIdx)
      invariant forall v, s | s in OfValidator(pubShares, v) ::
        exists k | k in r2.Keys - todo :: k.valIdx == v && k.source == s
                                          && conv.pubkey(r2[k].vkShare) == Some(OfValidator(pubShares, v)[s])
      decreases todo
    {
      var key :| key in todo;
      var pubShare := conv.pubkey(r2[key].vkShare);
      if pubShare == None {
        return None;
      }
      ghost var before := pubShares;
      var m := OfValidator(pubShares, key.valIdx);
      pubShares := pubShares[key.valIdx := m[key.source := pubShare.value]];
      forall v, s | s in OfValidator(pubShares, v)
        ensures exists k | k in r2.Keys - (todo - {key}) :: k.valIdx == v && k.source == s
                                                && conv.pubkey(r2[k].vkShare) == Some(OfValidator(pubShares, v)[s])
      {
        if v == key.valIdx && s == key.source {
          assert key in r2.Keys - (todo - {key});
        } else {
          assert s in OfValidator(before, v);
          var k :| k in r2.Keys - todo && k.valIdx == v && k.source == s
                   && conv.pubkey(r2[k].vkShare) == Some(OfValidator(before, v)[s]);
          assert k in r2.Keys - (todo - {key});
        }
      }
      todo := todo - {key};
    }
    assert r2.Keys - todo == r2.Keys;
    forall v ensures IsDemux(PubShares(conv, r2), v, OfValidator(pubShares, v)) {
      var m := PubShares(conv, r2);
      forall s | s in OfValidator(pubShares, v)
        ensures exists k | k in m :: k.valIdx == v && k.source == s && m[k] == OfValidator(pubShares, v)[s]
      {
        var k :| k in r2.Keys - todo && k.valIdx == v && k.source == s
                 && conv.pubkey(r2[k].vkShare) == Some(OfValidator(pubShares, v)[s]);
        assert k in m;
      }
    }
    return Some(pubShares);
  }

  /** The keys of a map, collected in map order and then sorted. */
  method SortedKeys<V>(m: map<uint32, V>) returns (ids: seq<uint32>)
    ensures Sorted(ids) && Distinct(ids) && Elements(ids) == m.Keys
  {
    var keys: seq<uint32> := [];
    var todo := m.Keys;
    while todo != {}
      invariant todo <= m.Keys
      invariant Distinct(keys) && Elements(keys) == m.Keys - todo
      decreases todo
    {
      var id :| id in todo;
      todo := todo - {id};
      assert id !in Elements(keys);
      assert Elements(keys + [id]) == Elements(keys) + {id};
      keys := keys + [id];
    }
    SortDistinct(keys);
    var sorted := Sort(keys);
    forall i | 0 <= i < |sorted| ensures sorted[i] in keys {
      assert sorted[i] in Elements(sorted);
    }
    ids := sorted;
  }

  /** shares holds, in the order of ids, the share of each participant. */
  ghost predicate IsShares(conv: Conv, validators: map<uint32, Participant>, r2: map<MsgKey, Round2Cast>,
                           ids: seq<uint32>, shares: seq<Share>)
    requires Converts(conv, r2)
  {
    && |shares| == |ids|
    && forall i | 0 <= i < |ids| ::
         && ids[i] in validators
         && Some(shares[i].pubkey) == conv.pubkey(validators[ids[i]].verificationKey)
         && Some(shares[i].secret) == conv.secret(validators[ids[i]].skShare)
         && IsDemux(PubShares(conv, r2), ids[i], shares[i].publicShares)
  }

  /** makeShares: one share for each validator, in the order of the validator indexes. */
  method MakeShares(conv: Conv, validators: map<uint32, Participant>, r2: map<MsgKey, Round2Cast>)
    returns (r: Option<seq<Share>>, ids: seq<uint32>)
    ensures Sorted(ids) && Distinct(ids) && Elements(ids) == validators.Keys
    ensures r.Some? ==> Converts(conv, r2) && IsShares(conv, validators, r2, ids, r.value)
    ensures r == None ==> !Converts(conv, r2) || exists v | v in validators ::
      conv.pubkey(validators[v].verificationKey) == None || conv.secret(validators[v].skShare) == None
  {
    ids := SortedKeys(validators);
    var pubShares := GatherPubShares(conv, r2);
    if pubShares == None {
      return None, ids;
    }
    var shares := [];
    for i := 0 to |ids|
      invariant IsShares(conv, validators, r2, ids[..i], shares)
    {
      assert ids[i] in Elements(ids);
      var v := validators[ids[i]];
      var pubkey := conv.pubkey(v.verificationKey);
      if pubkey == None {
        return None, ids;
      }
      var secretShare := conv.secret(v.skShare);
      if secretShare == None {
        return None, ids;
      }
      shares := shares + [Share(pubkey.value, secretShare.value, OfValidator(pubShares.value, ids[i]))];
    }
    assert ids[..|ids|] == ids;
    return Some(shares), ids;
  }

  // ----- ordered public shares -----

  datatype ShareMsg = ShareMsg(pubkey: PubKey, pubShares: seq<PubKey>, secret: Bytes)

  /** The values of the map in ascending order of their keys. */
  ghost predicate InKeyOrder(m: map<uint32, PubKey>, ids: seq<uint32>, xs: seq<PubKey>) {
    && Sorted(ids) && Distinct(ids) && Elements(ids) == m.Keys
    && |xs| == |ids| && forall i | 0 <= i < |ids| :: Lookup(m, ids[i]) == Some(xs[i])
  }

  /** msgFromShare. */
  method MsgFromShare(s: Share) returns (msg: ShareMsg, ids: seq<uint32>)
    ensures msg.pubkey == s.pubkey && msg.secret == s.secret && InKeyOrder(s.publicShares, ids, msg.pubShares)
  {
    ids := SortedKeys(s.publicShares);
    var pubShares := [];
    for i := 0 to |ids|
      invariant |pubShares| == i && forall k | 0 <= k < i :: Lookup(s.publicShares, ids[k]) == Some(pubShares[k])
    {
      assert ids[i] in Elements(ids);
      pubShares := pubShares + [s.publicShares[ids[i]]];
    }
    msg := ShareMsg(s.pubkey, pubShares, s.secret);
  }

  /** The ordered public shares are a function of the map, not of the order in which its keys were visited. */
  lemma InKeyOrderUnique(m: map<uint32, PubKey>, ids: seq<uint32>, xs: seq<PubKey>, jds: seq<uint32>, ys: seq<PubKey>)
    requires InKeyOrder(m, ids, xs) && InKeyOrder(m, jds, ys)
    ensures ids == jds && xs == ys
  {
    SortedUnique(ids, jds);
    forall i | 0 <= i < |xs| ensures xs[i] == ys[i] {
      assert Lookup(m, ids[i]) == Some(xs[i]) && Lookup(m, jds[i]) == Some(ys[i]);
    }
  }

  /** The integers from a, n of them. */
  function From(a: uint32, n: nat): (ids: seq<uint32>)
    requires a + n <= TWO32
    ensures |ids| == n && forall i | 0 <= i < n :: ids[i] == a + i
  {
    seq(n, i requires 0 <= i < n => a + i)
  }

  lemma ConsecutiveIds(ids: seq<uint32>, a: uint32, n: nat)
    requires Sorted(ids) && Distinct(ids) && a + n <= TWO32
    requires forall x :: x in Elements(ids) <==> a <= x < a + n
    ensures ids == From(a, n)
  {
    var js := From(a, n);
    forall x ensures x in Elements(js) <==> a <= x < a + n {
      if a <= x < a + n {
        assert js[x - a] == x;
      }
    }
    SortedUnique(ids, js);
  }
}
