/** The partial signature exchange of dkg/exchanger.go over the in-memory database of core/parsigdb/memory.go. Calls of
    the database run concurrently: each stores its signatures one at a time under the database lock, then pushes the
    validators that became complete under the exchanger's lock, and the shared channel carries no type. */
module Exchanger {
  import opened Prelude
  import opened Bytes
  import opened FrostRounds
  import Mailbox

  type PubKey = Bytes

  /** The slot of a signature duty, which stands for the type of the signatures. */
  type SigType = nat

  const SIG_LOCK: SigType := 101
  const SIG_VALIDATOR_REGISTRATION: SigType := 102
  const SIG_DEPOSIT_DATA: SigType := 200

  /** The duty gater of the ceremony's exchanger: every type from the deposit data on is for a partial amount. */
  predicate Gated(t: SigType) {
    t >= SIG_DEPOSIT_DATA || t in {SIG_LOCK, SIG_VALIDATOR_REGISTRATION}
  }

  datatype ParSig = ParSig(shareIdx: int, data: Bytes)

  type DataSet = map<PubKey, seq<ParSig>>

  // ----- the database -----

  datatype Stored = Added(sigs: seq<ParSig>) | Duplicate | Mismatch

  /** The first signature of a share index. */
  predicate IsFirst(sigs: seq<ParSig>, idx: int, i: nat) {
    i < |sigs| && sigs[i].shareIdx == idx && forall j | 0 <= j < i :: sigs[j].shareIdx != idx
  }

  /** sig against the signatures already held for its validator. */
  function AddSig(sigs: seq<ParSig>, sig: ParSig): (r: Stored) {
    if i: nat :| i < |sigs| && IsFirst(sigs, sig.shareIdx, i)
    then (if sigs[i] == sig then Duplicate else Mismatch)
    else Added(sigs + [sig])
  }

  /** One running call of StoreExternal: what it still has to store, the validators it completed, and after it completed
      its type, the data that it is about to send. */
  datatype Task = Task(t: SigType, todo: map<PubKey, ParSig>, output: DataSet, sending: Option<DataSet>)

  datatype State = State(
    entries: map<(SigType, PubKey), seq<ParSig>>,
    tasks: map<nat, Task>,
    store: map<SigType, DataSet>,
    chan: seq<DataSet>,
    started: set<SigType>,
    current: Option<SigType>,
    returned: map<SigType, DataSet>)

  /** The capacity of the channel. */
  const CAPACITY := 1

  /** The number of nodes, which is also the database threshold, this node's share index, the number of validators that
      the definition asks for, the validators that this node has a share of, and what each share index signs for each
      type. Only this node is known to sign for these validators. */
  datatype Config = Config(n: nat, self: int, numVals: nat, vals: set<PubKey>,
                           signed: (int, SigType) -> map<PubKey, Bytes>)
  {
    ghost predicate Valid() {
      1 <= self <= n && |vals| <= numVals && forall t :: signed(self, t).Keys <= vals
    }
  }

  /** All the validators, as many as the definition asks for. */
  ghost predicate IsAll(c: Config, keys: set<PubKey>) {
    keys == c.vals && |keys| == c.numVals
  }

  function Entries(s: State, t: SigType, pk: PubKey): (sigs: seq<ParSig>) {
    if (t, pk) in s.entries then s.entries[(t, pk)] else []
  }

  function Held(store: map<SigType, DataSet>, t: SigType): (d: DataSet) {
    if t in store then store[t] else map[]
  }

  function Collected(s: State, t: SigType): (d: DataSet) {
    Held(s.store, t)
  }

  // ----- steps -----

  datatype Event =
    | Start(id: nat, t: SigType)
    | Arrive(id: nat, t: SigType, sigs: map<PubKey, ParSig>)
    | StoreOne(id: nat, pk: PubKey)
    | Merge(id: nat)
    | Send(id: nat)
    | Return

  function MessageOf(c: Config, j: int, t: SigType): (m: map<PubKey, ParSig>) {
    map pk | pk in c.signed(j, t) :: ParSig(j, c.signed(j, t)[pk])
  }

  /** store and getThresholdMatching for one validator of a call. A mismatch ends the call and drops its output. */
  function StoreStep(c: Config, s: State, id: nat, pk: PubKey): (s': State)
    requires id in s.tasks && pk in s.tasks[id].todo
  {
    var task := s.tasks[id];
    var rest := task.(todo := task.todo - {pk});
    match AddSig(Entries(s, task.t, pk), task.todo[pk])
    case Mismatch => s.(tasks := s.tasks - {id})
    case Duplicate => s.(tasks := s.tasks[id := rest])
    case Added(sigs) =>
      s.(entries := s.entries[(task.t, pk) := sigs],
         tasks := s.tasks[id := if |sigs| == c.n then rest.(output := task.output[pk := sigs]) else rest])
  }

  /** The store after pushPsigs merged a set into it. */
  function MergedStore(store: map<SigType, DataSet>, t: SigType, psigs: DataSet): (r: map<SigType, DataSet>) {
    if psigs == map[] then store else store[t := Held(store, t) + psigs]
  }

  /** The data of a type that has all its validators. */
  function AllData(store: map<SigType, DataSet>, t: SigType, numVals: nat): (r: Option<DataSet>) {
    if t in store && |store[t]| == numVals then Some(store[t]) else None
  }

  /** Whether merging the output of a call completes its type. */
  predicate Completes(c: Config, s: State, id: nat)
    requires id in s.tasks
  {
    var task := s.tasks[id];
    task.output != map[] && AllData(MergedStore(s.store, task.t, task.output), task.t, c.numVals).Some?
  }

  /** pushPsigs under the lock, unless no validator became complete. A call that completed its type goes on to send. */
  function MergeStep(c: Config, s: State, id: nat): (s': State)
    requires id in s.tasks
  {
    var task := s.tasks[id];
    var store := MergedStore(s.store, task.t, task.output);
    s.(store := store,
       tasks := if Completes(c, s, id) then s.tasks[id := Task(task.t, map[], map[], AllData(store, task.t, c.numVals))]
                else s.tasks - {id})
  }

  /** The signatures of other nodes, of which only the share indexes are known. */
  ghost predicate OfPeers(c: Config, sigs: map<PubKey, ParSig>) {
    forall pk | pk in sigs :: 1 <= sigs[pk].shareIdx <= c.n && sigs[pk].shareIdx != c.self
  }

  /** Exchanges of this node follow one another, each for a type of its own. Peers send what they like under the share
      indexes of other nodes, also different sets for one type, and signatures for unknown validators. */
  ghost predicate Next(c: Config, s: State, e: Event, s': State) {
    match e
    case Start(id, t) =>
      && Gated(t) && s.current == None && t !in s.started && id !in s.tasks
      && s' == s.(started := s.started + {t}, current := Some(t),
                  tasks := s.tasks[id := Task(t, MessageOf(c, c.self, t), map[], None)])
    case Arrive(id, t, sigs) =>
      Gated(t) && OfPeers(c, sigs) && id !in s.tasks && s' == s.(tasks := s.tasks[id := Task(t, sigs, map[], None)])
    case StoreOne(id, pk) => id in s.tasks && pk in s.tasks[id].todo && s' == StoreStep(c, s, id, pk)
    case Merge(id) =>
      id in s.tasks && s.tasks[id].todo == map[] && s.tasks[id].sending == None && s' == MergeStep(c, s, id)
    case Send(id) =>
      && id in s.tasks && s.tasks[id].sending.Some? && |s.chan| < CAPACITY
      && s' == s.(chan := s.chan + [s.tasks[id].sending.value], tasks := s.tasks - {id})
    case Return =>
      && s.current.Some? && s.chan != []
      && s' == s.(chan := s.chan[1..], current := None, returned := s.returned[s.current.value := s.chan[0]])
  }

  ghost predicate Init(s: State) {
    s == State(map[], map[], map[], [], {}, None, map[])
  }

  ghost predicate Run(c: Config, s: seq<State>, es: seq<Event>) {
    && c.Valid() && |s| == |es| + 1 && Init(s[0])
    && forall i {:trigger es[i]} | 0 <= i < |es| :: Next(c, s[i], es[i], s[i + 1])
  }

  // ----- the code of the steps -----

  /** The loop of MemDB.store. */
  method Store(sigs: seq<ParSig>, value: ParSig) returns (r: Stored)
    ensures r == AddSig(sigs, value)
  {
    for i := 0 to |sigs|
      invariant forall j | 0 <= j < i :: sigs[j].shareIdx != value.shareIdx
    {
      if sigs[i].shareIdx == value.shareIdx {
        assert IsFirst(sigs, value.shareIdx, i);
        return if sigs[i] == value then Duplicate else Mismatch;
      }
    }
    return Added(sigs + [value]);
  }

  /** The exchanger's own data. */
  class DataByPubkey {
    var store: map<SigType, DataSet>
    var sigDatasChan: seq<DataSet>
    const numVals: nat

    constructor (numVals: nat)
      ensures store == map[] && sigDatasChan == [] && this.numVals == numVals
    {
      store, sigDatasChan := map[], [];
      this.numVals := numVals;
    }

    /** The loop of pushPsigs under the exchanger's lock. */
    method Merge(t: SigType, psigs: DataSet)
      modifies this`store
      ensures store == MergedStore(old(store), t, psigs)
    {
      ghost var before := Held(store, t);
      var todo := psigs.Keys;
      while todo != {}
        invariant todo <= psigs.Keys
        invariant store == if todo == psigs.Keys then old(store) else old(store)[t := before + (psigs - todo)]
        decreases todo
      {
        var pk :| pk in todo;
        if t !in store {
          store := store[t := map[]];
        }
        store := store[t := store[t][pk := psigs[pk]]];
        MergeOne(before, psigs, todo, pk);
        todo := todo - {pk};
      }
      MergeAll(before, psigs);
    }

    /** pushPsigs up to the release of the lock: false for an unknown type, and the data to send of a complete type. For
        the output of a call in a state of the exchange this is the merge step. */
    method PushPsigs(t: SigType, psigs: DataSet, ghost c: Config, ghost s: State, ghost id: nat)
      returns (ok: bool, ret: Option<DataSet>)
      modifies this`store
      ensures ok == Gated(t)
      ensures !ok ==> store == old(store) && ret == None
      ensures ok ==> store == MergedStore(old(store), t, psigs) && ret == AllData(store, t, numVals)
      ensures ok && s.store == old(store) && c.numVals == numVals && id in s.tasks && psigs != map[]
              && s.tasks[id] == Task(t, map[], psigs, None) ==>
        MergeStep(c, s, id) == s.(store := store, tasks := if ret == None then s.tasks - {id}
                                                           else s.tasks[id := Task(t, map[], map[], ret)])
    {
      if !Gated(t) {
        return false, None;
      }
      Merge(t, psigs);
      if t !in store || |store[t]| != numVals {
        return true, None;
      }
      var data: DataSet := CopyData(store[t]);
      return true, Some(data);
    }

    /** The send after the release of the lock, which waits for room in the channel. */
    method SendData(ret: DataSet, ghost c: Config, ghost s: State, ghost id: nat)
      requires |sigDatasChan| < CAPACITY
      modifies this`sigDatasChan
      ensures sigDatasChan == old(sigDatasChan) + [ret] && |sigDatasChan| <= CAPACITY
      ensures s.chan == old(sigDatasChan) && id in s.tasks && s.tasks[id].sending == Some(ret) ==>
        Next(c, s, Send(id), s.(chan := sigDatasChan, tasks := s.tasks - {id}))
    {
      sigDatasChan := sigDatasChan + [ret];
    }
  }

  lemma MergeOne(before: DataSet, psigs: DataSet, todo: set<PubKey>, pk: PubKey)
    requires todo <= psigs.Keys && pk in todo
    ensures before + (psigs - (todo - {pk})) == (before + (psigs - todo))[pk := psigs[pk]]
    ensures todo == psigs.Keys ==> before + (psigs - todo) == before
  {
  }

  lemma MergeAll(before: DataSet, psigs: DataSet)
    ensures psigs - {} == psigs && (psigs == map[] <==> psigs.Keys == {})
  {
  }

  /** The copy made before the lock is released. */
  method CopyData(data: DataSet) returns (ret: DataSet)
    ensures ret == data
  {
    ret := map[];
    var todo := data.Keys;
    while todo != {}
      invariant todo <= data.Keys
      invariant ret == data - todo
      decreases todo
    {
      var k :| k in todo;
      todo := todo - {k};
      ret := ret[k := data[k]];
    }
  }

  // ----- the invariant -----

  /** A signature of a node of the cluster; this node's own is the one it signed for the type it started. */
  ghost predicate GoodSig(c: Config, t: SigType, pk: PubKey, sig: ParSig, started: set<SigType>) {
    && 1 <= sig.shareIdx <= c.n
    && (sig.shareIdx == c.self ==>
          t in started && pk in c.signed(c.self, t) && sig.data == c.signed(c.self, t)[pk])
  }

  /** Good signatures of distinct share indexes. */
  ghost predicate GoodSigs(c: Config, t: SigType, pk: PubKey, sigs: seq<ParSig>, started: set<SigType>) {
    && (forall i, j | 0 <= i < j < |sigs| :: sigs[i].shareIdx != sigs[j].shareIdx)
    && (forall i | 0 <= i < |sigs| :: GoodSig(c, t, pk, sigs[i], started))
  }

  ghost predicate EntriesInv(c: Config, s: State) {
    forall t: SigType, pk :: GoodSigs(c, t, pk, Entries(s, t, pk), s.started)
  }

  ghost predicate TaskInv(c: Config, task: Task, started: set<SigType>) {
    && (forall pk | pk in task.todo :: GoodSig(c, task.t, pk, task.todo[pk], started))
    && (task.sending.Some? ==> task.todo == map[] && task.output == map[])
  }

  ghost predicate TasksInv(c: Config, s: State) {
    forall id | id in s.tasks :: TaskInv(c, s.tasks[id], s.started)
  }

  /** All signatures of a validator are there, and sigs are they. */
  ghost predicate IsFull(c: Config, s: State, t: SigType, pk: PubKey, sigs: seq<ParSig>) {
    |sigs| == c.n && sigs == Entries(s, t, pk)
  }

  ghost predicate CollectedInv(c: Config, s: State) {
    forall t: SigType, pk | pk in Collected(s, t) :: IsFull(c, s, t, pk, Collected(s, t)[pk])
  }

  ghost predicate OutputInv(c: Config, s: State, task: Task) {
    forall pk | pk in task.output :: IsFull(c, s, task.t, pk, task.output[pk]) && pk !in Collected(s, task.t)
  }

  /** What is collected or waits in the output of a call is complete, and it is in one place only. */
  ghost predicate OutputsInv(c: Config, s: State) {
    && CollectedInv(c, s)
    && (forall id | id in s.tasks :: OutputInv(c, s, s.tasks[id]))
    && (forall a, b | a in s.tasks && b in s.tasks && a != b && s.tasks[a].t == s.tasks[b].t ::
          s.tasks[a].output.Keys !! s.tasks[b].output.Keys)
  }

  ghost predicate Complete(c: Config, s: State, t: SigType) {
    t in s.store && IsAll(c, s.store[t].Keys)
  }

  /** The call is about to send the complete data of the type that is being exchanged, and finds room. */
  ghost predicate SendingInv(c: Config, s: State, id: nat)
    requires id in s.tasks
  {
    var task := s.tasks[id];
    task.sending.Some? ==>
      s.chan == [] && s.current == Some(task.t) && Complete(c, s, task.t) && task.sending.value == s.store[task.t]
  }

  ghost predicate ChanInv(c: Config, s: State) {
    && (forall id | id in s.tasks :: SendingInv(c, s, id))
    && (forall a, b | a in s.tasks && b in s.tasks && s.tasks[a].sending.Some? && s.tasks[b].sending.Some? :: a == b)
    && (s.chan != [] ==>
          s.current.Some? && Complete(c, s, s.current.value) && s.chan == [s.store[s.current.value]])
  }

  ghost predicate ExchangeInv(c: Config, s: State) {
    && s.started == s.returned.Keys + (if s.current.Some? then {s.current.value} else {})
    && (s.current.Some? ==> s.current.value !in s.returned)
    && (forall t | t in s.returned :: Complete(c, s, t) && s.returned[t] == s.store[t])
    && (forall t: SigType :: Complete(c, s, t) ==> t in s.started)
    && (forall t | t in s.store :: s.store[t] != map[])
  }

  ghost predicate Inv(c: Config, s: State) {
    EntriesInv(c, s) && TasksInv(c, s) && OutputsInv(c, s) && ExchangeInv(c, s) && ChanInv(c, s)
  }

  // ----- consequences -----

  ghost function Idxs(sigs: seq<ParSig>): (s: set<int>) {
    set i | 0 <= i < |sigs| :: sigs[i].shareIdx
  }

  lemma {:induction false} DistinctIdxs(sigs: seq<ParSig>)
    requires forall i, j | 0 <= i < j < |sigs| :: sigs[i].shareIdx != sigs[j].shareIdx
    ensures |Idxs(sigs)| == |sigs|
  {
    if sigs != [] {
      var m := |sigs| - 1;
      DistinctIdxs(sigs[..m]);
      assert Idxs(sigs) == Idxs(sigs[..m]) + {sigs[m].shareIdx};
    } else {
      assert Idxs(sigs) == {};
    }
  }

  /** A validator has at most one signature of each node, and with n of them it has one of every node, its type was
      started and the validator is one of the cluster. */
  lemma AtMostN(c: Config, t: SigType, pk: PubKey, sigs: seq<ParSig>, started: set<SigType>)
    requires c.Valid() && GoodSigs(c, t, pk, sigs, started)
    ensures |sigs| <= c.n
    ensures |sigs| == c.n ==> Idxs(sigs) == OneTo(c.n) && t in started && pk in c.vals
  {
    DistinctIdxs(sigs);
    Mailbox.SubsetSize(Idxs(sigs), OneTo(c.n));
    if |sigs| == c.n {
      assert c.self in Idxs(sigs);
      assert c.signed(c.self, t).Keys <= c.vals;
    }
  }

  lemma AddKeepsGood(c: Config, t: SigType, pk: PubKey, sigs: seq<ParSig>, sig: ParSig, started: set<SigType>)
    requires GoodSigs(c, t, pk, sigs, started) && GoodSig(c, t, pk, sig, started)
    ensures AddSig(sigs, sig).Added? ==>
      AddSig(sigs, sig).sigs == sigs + [sig] && GoodSigs(c, t, pk, sigs + [sig], started)
  {
    if AddSig(sigs, sig).Added? {
      NoneWith(sigs, sig.shareIdx);
    }
  }

  /** A list without a first signature of a share index has none. */
  lemma {:induction false} NoneWith(sigs: seq<ParSig>, idx: int)
    requires forall i: nat | i < |sigs| :: !IsFirst(sigs, idx, i)
    ensures forall i | 0 <= i < |sigs| :: sigs[i].shareIdx != idx
  {
    if sigs != [] {
      var m := |sigs| - 1;
      var init := sigs[..m];
      forall i: nat | i < m ensures !IsFirst(init, idx, i) {
        assert !IsFirst(sigs, idx, i);
      }
      NoneWith(init, idx);
      assert forall i | 0 <= i < m :: init[i] == sigs[i];
      assert !IsFirst(sigs, idx, m);
    }
  }

  // ----- preservation -----

  /** What one store does and does not change. */
  lemma StoreFrame(c: Config, s: State, id: nat, pk: PubKey)
    requires id in s.tasks && pk in s.tasks[id].todo
    ensures var s' := StoreStep(c, s, id, pk); var task := s.tasks[id];
      && s'.started == s.started && s'.store == s.store && s'.chan == s.chan
      && s'.current == s.current && s'.returned == s.returned
      && (forall t: SigType, q | (t, q) != (task.t, pk) :: Entries(s', t, q) == Entries(s, t, q))
      && s'.tasks.Keys <= s.tasks.Keys
      && (forall a | a in s'.tasks && a != id :: s'.tasks[a] == s.tasks[a])
      && (id in s'.tasks ==>
            s'.tasks[id] == task.(todo := task.todo - {pk}, output := s'.tasks[id].output))
  {
    hide AddSig;
  }

  lemma StoreKeepsInv(c: Config, s: State, id: nat, pk: PubKey)
    requires c.Valid() && Inv(c, s) && id in s.tasks && pk in s.tasks[id].todo
    ensures Inv(c, StoreStep(c, s, id, pk))
  {
    hide GoodSigs, GoodSig, ExchangeInv, ChanInv, AddSig;
    var task := s.tasks[id];
    var sigs, sig := Entries(s, task.t, pk), task.todo[pk];
    assert GoodSigs(c, task.t, pk, sigs, s.started);
    assert TaskInv(c, task, s.started);
    AddKeepsGood(c, task.t, pk, sigs, sig, s.started);
    StoreFrame(c, s, id, pk);
    StoreKeepsTasks(c, s, id, pk);
    StoreKeepsExchange(c, s, id, pk);
    if AddSig(sigs, sig).Added? {
      AtMostN(c, task.t, pk, sigs + [sig], s.started);
      StoreKeepsEntries(c, s, id, pk);
      StoreKeepsOutputs(c, s, id, pk);
    } else {
      NotAddedKeeps(c, s, id, pk);
    }
  }

  lemma StoreKeepsTasks(c: Config, s: State, id: nat, pk: PubKey)
    requires TasksInv(c, s) && id in s.tasks && pk in s.tasks[id].todo
    ensures TasksInv(c, StoreStep(c, s, id, pk))
  {
    hide AddSig, GoodSig;
    StoreFrame(c, s, id, pk);
    var s' := StoreStep(c, s, id, pk);
    hide StoreStep;
    forall a | a in s'.tasks ensures TaskInv(c, s'.tasks[a], s'.started) {
      assert TaskInv(c, s.tasks[a], s.started);
    }
  }

  /** Completeness depends on the store only. */
  lemma SameStore(c: Config, s: State, s': State)
    requires s'.store == s.store
    ensures forall t: SigType :: Complete(c, s', t) == Complete(c, s, t)
    ensures forall t: SigType :: Collected(s', t) == Collected(s, t)
  {
  }

  /** Nothing about the channel changes if every call that sends was sending before. */
  lemma ChanFrame(c: Config, s: State, s': State)
    requires ChanInv(c, s) && s'.store == s.store && s'.chan == s.chan && s'.current == s.current
    requires forall a | a in s'.tasks && s'.tasks[a].sending.Some? ::
      a in s.tasks && s'.tasks[a].t == s.tasks[a].t && s'.tasks[a].sending == s.tasks[a].sending
    ensures ChanInv(c, s')
  {
    hide Complete;
    SameStore(c, s, s');
    forall a | a in s'.tasks ensures SendingInv(c, s', a) {
      if s'.tasks[a].sending.Some? {
        assert SendingInv(c, s, a);
      }
    }
  }

  lemma StoreKeepsExchange(c: Config, s: State, id: nat, pk: PubKey)
    requires ExchangeInv(c, s) && ChanInv(c, s) && id in s.tasks && pk in s.tasks[id].todo
    ensures ExchangeInv(c, StoreStep(c, s, id, pk)) && ChanInv(c, StoreStep(c, s, id, pk))
  {
    hide AddSig, Complete;
    StoreFrame(c, s, id, pk);
    hide StoreStep;
    SameStore(c, s, StoreStep(c, s, id, pk));
    ChanFrame(c, s, StoreStep(c, s, id, pk));
  }

  lemma StoreKeepsEntries(c: Config, s: State, id: nat, pk: PubKey)
    requires EntriesInv(c, s) && id in s.tasks && pk in s.tasks[id].todo
    requires AddSig(Entries(s, s.tasks[id].t, pk), s.tasks[id].todo[pk]).Added?
    requires GoodSigs(c, s.tasks[id].t, pk, AddSig(Entries(s, s.tasks[id].t, pk), s.tasks[id].todo[pk]).sigs, s.started)
    ensures EntriesInv(c, StoreStep(c, s, id, pk))
  {
    hide AddSig, GoodSigs;
    StoreFrame(c, s, id, pk);
    var s' := StoreStep(c, s, id, pk);
    forall t: SigType, q ensures GoodSigs(c, t, q, Entries(s', t, q), s'.started) {
      if (t, q) != (s.tasks[id].t, pk) {
        assert Entries(s', t, q) == Entries(s, t, q);
        assert GoodSigs(c, t, q, Entries(s, t, q), s.started);
      }
    }
  }

  lemma StoreKeepsOutputs(c: Config, s: State, id: nat, pk: PubKey)
    requires OutputsInv(c, s) && id in s.tasks && pk in s.tasks[id].todo
    requires AddSig(Entries(s, s.tasks[id].t, pk), s.tasks[id].todo[pk])
             == Added(Entries(s, s.tasks[id].t, pk) + [s.tasks[id].todo[pk]])
    requires |Entries(s, s.tasks[id].t, pk)| < c.n
    ensures OutputsInv(c, StoreStep(c, s, id, pk))
  {
    hide AddSig;
    StoreFrame(c, s, id, pk);
    var s', t := StoreStep(c, s, id, pk), s.tasks[id].t;
    var sigs := Entries(s, t, pk) + [s.tasks[id].todo[pk]];
    assert pk !in Collected(s, t);
    forall a | a in s.tasks && s.tasks[a].t == t ensures pk !in s.tasks[a].output {
      assert OutputInv(c, s, s.tasks[a]);
    }
    assert Entries(s', t, pk) == sigs;
    var out := s.tasks[id].output;
    assert s'.tasks[id].output == if |sigs| == c.n then out[pk := sigs] else out;
    assert s'.tasks.Keys == s.tasks.Keys;
    hide StoreStep;
    SameStore(c, s, s');
    forall a | a in s'.tasks ensures OutputInv(c, s', s'.tasks[a]) {
      assert OutputInv(c, s, s.tasks[a]);
    }
  }

  lemma NotAddedKeeps(c: Config, s: State, id: nat, pk: PubKey)
    requires EntriesInv(c, s) && OutputsInv(c, s) && id in s.tasks && pk in s.tasks[id].todo
    requires !AddSig(Entries(s, s.tasks[id].t, pk), s.tasks[id].todo[pk]).Added?
    ensures EntriesInv(c, StoreStep(c, s, id, pk)) && OutputsInv(c, StoreStep(c, s, id, pk))
  {
    hide AddSig, GoodSigs;
    var s' := StoreStep(c, s, id, pk);
    assert s'.entries == s.entries;
    SameStore(c, s, s');
    assert forall a | a in s'.tasks ::
      a in s.tasks && s'.tasks[a].t == s.tasks[a].t && s'.tasks[a].output == s.tasks[a].output;
    hide StoreStep;
    OutputsFrame(c, s, s');
  }

  /** Nothing about entries and outputs changes if no call has a new output. */
  lemma OutputsFrame(c: Config, s: State, s': State)
    requires EntriesInv(c, s) && OutputsInv(c, s) && s'.entries == s.entries && s'.store == s.store
        && s.started <= s'.started
    requires forall a | a in s'.tasks && s'.tasks[a].output != map[] ::
      a in s.tasks && s'.tasks[a].t == s.tasks[a].t && s'.tasks[a].output == s.tasks[a].output
    ensures EntriesInv(c, s') && OutputsInv(c, s')
  {
    SameStore(c, s, s');
    assert forall t: SigType, pk :: Entries(s', t, pk) == Entries(s, t, pk);
    forall t: SigType, pk ensures GoodSigs(c, t, pk, Entries(s', t, pk), s'.started) {
      assert GoodSigs(c, t, pk, Entries(s, t, pk), s.started);
    }
    hide Entries, GoodSigs, Collected;
    forall a | a in s'.tasks ensures OutputInv(c, s', s'.tasks[a]) {
      if s'.tasks[a].output != map[] {
        assert OutputInv(c, s, s.tasks[a]);
      }
    }
  }

  /** What a merge does and does not change. */
  lemma MergeFrame(c: Config, s: State, id: nat)
    requires id in s.tasks
    ensures var s' := MergeStep(c, s, id); var task := s.tasks[id];
      && s'.entries == s.entries && s'.started == s.started && s'.current == s.current && s'.returned == s.returned
      && s'.chan == s.chan
      && s'.tasks.Keys == (if Completes(c, s, id) then s.tasks.Keys else s.tasks.Keys - {id})
      && (forall a | a in s'.tasks && a != id :: s'.tasks[a] == s.tasks[a])
      && (Completes(c, s, id) ==> s'.tasks[id] == Task(task.t, map[], map[], Some(Collected(s', task.t))))
      && (forall t: SigType | t != task.t :: Collected(s', t) == Collected(s, t))
      && Collected(s', task.t) == Collected(s, task.t) + task.output
      && (task.output == map[] ==> s'.store == s.store)
  {
    MergedData(s.store, s.tasks[id].t, s.tasks[id].output);
    hide MergedStore;
  }

  lemma MergedData(store: map<SigType, DataSet>, t: SigType, psigs: DataSet)
    ensures var r := MergedStore(store, t, psigs);
      && (forall u: SigType | u != t :: Held(r, u) == Held(store, u))
      && Held(r, t) == Held(store, t) + psigs
      && (psigs == map[] ==> r == store)
  {
    assert psigs == map[] ==> Held(store, t) + psigs == Held(store, t);
  }

  lemma MergeKeepsInv(c: Config, s: State, id: nat)
    requires c.Valid() && Inv(c, s) && id in s.tasks && s.tasks[id].sending == None
    ensures Inv(c, MergeStep(c, s, id))
    ensures Completes(c, s, id) ==> !Complete(c, s, s.tasks[id].t) && Complete(c, MergeStep(c, s, id), s.tasks[id].t)
  {
    hide GoodSigs, TaskInv, OutputsInv, ExchangeInv, ChanInv, Complete, MergeStep, Completes;
    var task, s' := s.tasks[id], MergeStep(c, s, id);
    MergeFrame(c, s, id);
    assert forall t: SigType, pk :: Entries(s', t, pk) == Entries(s, t, pk);
    MergeKeepsTasks(c, s, id);
    MergeKeepsOutputs(c, s, id);
    if task.output != map[] {
      MergeData(c, s, id);
      MergeCompleteness(c, s, id);
      MergeKeepsExchange(c, s, id);
    } else {
      EmptyMergeKeepsExchange(c, s, id);
    }
  }

  lemma MergeKeepsTasks(c: Config, s: State, id: nat)
    requires TasksInv(c, s) && id in s.tasks
    ensures TasksInv(c, MergeStep(c, s, id))
  {
    hide MergeStep, Completes, GoodSig;
    var s' := MergeStep(c, s, id);
    MergeFrame(c, s, id);
    forall a | a in s'.tasks ensures TaskInv(c, s'.tasks[a], s'.started) {
      if a != id {
        assert TaskInv(c, s.tasks[a], s.started);
      }
    }
  }

  lemma EmptyMergeKeepsExchange(c: Config, s: State, id: nat)
    requires ExchangeInv(c, s) && ChanInv(c, s) && id in s.tasks && s.tasks[id].output == map[]
    ensures ExchangeInv(c, MergeStep(c, s, id)) && ChanInv(c, MergeStep(c, s, id))
    ensures !Completes(c, s, id)
  {
    hide Complete;
    assert !Completes(c, s, id);
    MergeFrame(c, s, id);
    hide MergeStep;
    SameStore(c, s, MergeStep(c, s, id));
    ChanFrame(c, s, MergeStep(c, s, id));
  }

  /** What a call merges was not collected before, belongs to the cluster's validators and to a started type. */
  lemma MergeData(c: Config, s: State, id: nat)
    requires c.Valid() && EntriesInv(c, s) && OutputsInv(c, s) && id in s.tasks && s.tasks[id].output != map[]
    ensures var task := s.tasks[id];
      && task.t in s.started && !Complete(c, s, task.t)
      && (Completes(c, s, id) <==> IsAll(c, (Collected(s, task.t) + task.output).Keys))
  {
    var task := s.tasks[id];
    var data := Collected(s, task.t) + task.output;
    hide Collected;
    forall pk | pk in data ensures pk in c.vals && task.t in s.started {
      assert OutputInv(c, s, task);
      assert IsFull(c, s, task.t, pk, data[pk]);
      assert GoodSigs(c, task.t, pk, Entries(s, task.t, pk), s.started);
      AtMostN(c, task.t, pk, Entries(s, task.t, pk), s.started);
    }
    var pk :| pk in task.output;
    assert pk in data && pk !in Collected(s, task.t);
    NotComplete(c, s, task.t, pk);
    Mailbox.SubsetSize(data.Keys, c.vals);
    CompletesIff(c, s, id);
  }

  lemma NotComplete(c: Config, s: State, t: SigType, pk: PubKey)
    requires pk in c.vals && pk !in Collected(s, t)
    ensures !Complete(c, s, t)
  {
  }

  lemma CompletesIff(c: Config, s: State, id: nat)
    requires id in s.tasks && s.tasks[id].output != map[]
    ensures Completes(c, s, id) <==> |(Collected(s, s.tasks[id].t) + s.tasks[id].output).Keys| == c.numVals
  {
    var data := Collected(s, s.tasks[id].t) + s.tasks[id].output;
    assert |data| == |data.Keys|;
  }

  /** Only the completeness of the merged type changes. */
  lemma MergeCompleteness(c: Config, s: State, id: nat)
    requires id in s.tasks && s.tasks[id].output != map[]
    requires Completes(c, s, id) <==> IsAll(c, (Collected(s, s.tasks[id].t) + s.tasks[id].output).Keys)
    ensures var s', task := MergeStep(c, s, id), s.tasks[id];
      && (forall t: SigType | t != task.t :: Complete(c, s', t) == Complete(c, s, t))
      && (forall t: SigType | t != task.t && t in s.store :: t in s'.store && s'.store[t] == s.store[t])
      && (forall t: SigType | t != task.t && t in s'.store :: t in s.store)
      && task.t in s'.store && s'.store[task.t] != map[]
      && (Complete(c, s', task.t) <==> Completes(c, s, id))
  {
    MergeStored(c, s, id);
    hide MergeStep, Completes, Collected;
    var task, s' := s.tasks[id], MergeStep(c, s, id);
    var pk :| pk in task.output;
    assert pk in s'.store[task.t];
  }

  lemma MergeStored(c: Config, s: State, id: nat)
    requires id in s.tasks && s.tasks[id].output != map[]
    ensures var task := s.tasks[id];
      MergeStep(c, s, id).store == s.store[task.t := Collected(s, task.t) + task.output]
  {
    hide Completes;
  }

  lemma MergeKeepsExchange(c: Config, s: State, id: nat)
    requires ExchangeInv(c, s) && ChanInv(c, s) && id in s.tasks && s.tasks[id].output != map[]
    requires s.tasks[id].sending == None && s.tasks[id].t in s.started && !Complete(c, s, s.tasks[id].t)
    requires Completes(c, s, id) <==> IsAll(c, (Collected(s, s.tasks[id].t) + s.tasks[id].output).Keys)
    ensures ExchangeInv(c, MergeStep(c, s, id)) && ChanInv(c, MergeStep(c, s, id))
  {
    hide MergeStep, Completes, Collected, IsAll;
    assert forall t | t in s.returned :: t in s.store;
    hide Complete, ChanInv;
    MergeFrame(c, s, id);
    MergeCompleteness(c, s, id);
    assert s.tasks[id].t !in s.returned && s.current == Some(s.tasks[id].t);
    MergeKeepsChan(c, s, id);
  }

  lemma MergeKeepsChan(c: Config, s: State, id: nat)
    requires ChanInv(c, s) && id in s.tasks && s.tasks[id].output != map[] && s.tasks[id].sending == None
    requires !Complete(c, s, s.tasks[id].t) && s.current == Some(s.tasks[id].t)
    requires Completes(c, s, id) <==> IsAll(c, (Collected(s, s.tasks[id].t) + s.tasks[id].output).Keys)
    ensures ChanInv(c, MergeStep(c, s, id))
  {
    hide MergeStep, Completes, Collected, IsAll, Complete;
    var task, s' := s.tasks[id], MergeStep(c, s, id);
    MergeFrame(c, s, id);
    MergeCompleteness(c, s, id);
    assert s.chan == [];
    forall a | a in s.tasks ensures s.tasks[a].sending == None {
      assert SendingInv(c, s, a);
    }
    CollectedIsStore(s', task.t);
  }

  lemma CollectedIsStore(s: State, t: SigType)
    ensures t in s.store ==> Collected(s, t) == s.store[t]
  {
  }

  lemma MergeKeepsOutputs(c: Config, s: State, id: nat)
    requires OutputsInv(c, s) && id in s.tasks
    ensures OutputsInv(c, MergeStep(c, s, id))
  {
    hide MergeStep, Collected, Completes;
    var task, s' := s.tasks[id], MergeStep(c, s, id);
    MergeFrame(c, s, id);
    assert forall t: SigType, pk :: Entries(s', t, pk) == Entries(s, t, pk);
    hide Entries;
    assert OutputInv(c, s, task);
    forall a | a in s'.tasks ensures OutputInv(c, s', s'.tasks[a]) {
      if a != id {
        assert OutputInv(c, s, s.tasks[a]);
        assert s.tasks[a].t == task.t ==> s.tasks[a].output.Keys !! task.output.Keys;
      }
    }
    MergeKeepsCollected(c, s, id);
  }

  lemma MergeKeepsCollected(c: Config, s: State, id: nat)
    requires CollectedInv(c, s) && id in s.tasks && OutputInv(c, s, s.tasks[id])
    ensures CollectedInv(c, MergeStep(c, s, id))
  {
    hide MergeStep, Collected, Completes;
    var task, s' := s.tasks[id], MergeStep(c, s, id);
    MergeFrame(c, s, id);
    assert forall t: SigType, pk :: Entries(s', t, pk) == Entries(s, t, pk);
    hide Entries;
    forall t: SigType, pk | pk in Collected(s', t) ensures IsFull(c, s', t, pk, Collected(s', t)[pk]) {
      if t == task.t && pk in task.output {
        assert Collected(s', t)[pk] == task.output[pk];
      } else {
        assert IsFull(c, s, t, pk, Collected(s, t)[pk]);
      }
    }
  }

  lemma SendKeepsInv(c: Config, s: State, id: nat, s': State)
    requires Inv(c, s) && Next(c, s, Send(id), s')
    ensures Inv(c, s')
  {
    hide GoodSig, Complete;
    OutputsFrame(c, s, s');
    SameStore(c, s, s');
    assert SendingInv(c, s, id);
    forall a | a in s'.tasks ensures TaskInv(c, s'.tasks[a], s'.started) && SendingInv(c, s', a) {
      assert TaskInv(c, s.tasks[a], s.started);
    }
  }

  lemma StartKeepsInv(c: Config, s: State, id: nat, t: SigType, s': State)
    requires c.Valid() && Inv(c, s) && Next(c, s, Start(id, t), s')
    ensures Inv(c, s')
  {
    hide Complete, ExchangeInv, ChanInv;
    OutputsFrame(c, s, s');
    StartKeepsExchange(c, s, id, t, s');
    hide GoodSigs, OutputsInv, EntriesInv;
    forall a | a in s'.tasks ensures TaskInv(c, s'.tasks[a], s'.started) {
      if a != id {
        assert TaskInv(c, s.tasks[a], s.started);
      }
    }
  }

  lemma StartKeepsExchange(c: Config, s: State, id: nat, t: SigType, s': State)
    requires ExchangeInv(c, s) && ChanInv(c, s) && Next(c, s, Start(id, t), s')
    ensures ExchangeInv(c, s') && ChanInv(c, s')
  {
    hide Complete;
    SameStore(c, s, s');
    assert s.chan == [];
    forall a | a in s.tasks ensures s.tasks[a].sending == None {
      assert SendingInv(c, s, a);
    }
  }

  lemma ArriveKeepsInv(c: Config, s: State, id: nat, t: SigType, sigs: map<PubKey, ParSig>, s': State)
    requires c.Valid() && Inv(c, s) && Next(c, s, Arrive(id, t, sigs), s')
    ensures Inv(c, s')
  {
    hide Complete;
    OutputsFrame(c, s, s');
    SameStore(c, s, s');
    ChanFrame(c, s, s');
    hide GoodSigs, OutputsInv, ChanInv;
    forall a | a in s'.tasks ensures TaskInv(c, s'.tasks[a], s'.started) {
      if a != id {
        assert TaskInv(c, s.tasks[a], s.started);
      }
    }
  }

  lemma ReturnKeepsInv(c: Config, s: State, s': State)
    requires c.Valid() && Inv(c, s) && Next(c, s, Return, s')
    ensures Inv(c, s')
  {
    hide Complete, ExchangeInv, ChanInv, TaskInv;
    OutputsFrame(c, s, s');
    ReturnKeepsExchange(c, s, s');
  }

  lemma ReturnKeepsExchange(c: Config, s: State, s': State)
    requires ExchangeInv(c, s) && ChanInv(c, s) && Next(c, s, Return, s')
    ensures ExchangeInv(c, s') && ChanInv(c, s')
  {
    var t := s.current.value;
    assert Complete(c, s, t) && t in s.store && s.chan == [s.store[t]];
    hide Complete;
    SameStore(c, s, s');
    forall a | a in s.tasks ensures s.tasks[a].sending == None {
      assert SendingInv(c, s, a);
    }
    assert s'.returned.Keys == s.returned.Keys + {t};
  }

  lemma NextKeepsInv(c: Config, s: State, e: Event, s': State)
    requires c.Valid() && Inv(c, s) && Next(c, s, e, s')
    ensures Inv(c, s')
  {
    hide Inv;
    match e
    case StoreOne(id, pk) => StoreKeepsInv(c, s, id, pk);
    case Merge(id) => MergeKeepsInv(c, s, id);
    case Send(id) => SendKeepsInv(c, s, id, s');
    case Start(id, t) => StartKeepsInv(c, s, id, t, s');
    case Arrive(id, t, sigs) => ArriveKeepsInv(c, s, id, t, sigs, s');
    case Return => ReturnKeepsInv(c, s, s');
  }

  lemma RunPrefix(c: Config, s: seq<State>, es: seq<Event>, k: nat)
    requires Run(c, s, es) && 0 < k <= |es|
    ensures c.Valid() && |s| == |es| + 1 && Next(c, s[k - 1], es[k - 1], s[k])
  {
  }

  lemma RunStart(c: Config, s: seq<State>, es: seq<Event>)
    requires Run(c, s, es)
    ensures |s| == |es| + 1 && Init(s[0]) && Inv(c, s[0])
  {
  }

  lemma {:induction false} RunInv(c: Config, s: seq<State>, es: seq<Event>, k: nat)
    requires Run(c, s, es) && k <= |es|
    ensures Inv(c, s[k])
  {
    hide *;
    RunStart(c, s, es);
    if k > 0 {
      RunPrefix(c, s, es, k);
      RunInv(c, s, es, k - 1);
      NextKeepsInv(c, s[k - 1], es[k - 1], s[k]);
    }
  }

  // ----- the channel -----

  /** In every run a call that is about to send finds the channel empty, and what it sends is the complete data of the
      type that is being exchanged. */
  lemma PushNeverBlocks(c: Config, s: seq<State>, es: seq<Event>, k: nat, id: nat)
    requires Run(c, s, es) && k <= |es| && id in s[k].tasks && s[k].tasks[id].sending.Some?
    ensures s[k].chan == [] && s[k].current == Some(s[k].tasks[id].t)
    ensures FullData(c, s[k].tasks[id].t, s[k].tasks[id].sending.value)
  {
    hide EntriesInv, TasksInv, OutputsInv, FullData;
    RunInv(c, s, es, k);
    assert SendingInv(c, s[k], id);
    CompleteIsFull(c, s[k], s[k].tasks[id].t);
  }

  /** The complete data of a type: every validator, and for each of them one signature of every node, this node's own as
      it signed it. */
  ghost predicate FullData(c: Config, t: SigType, d: DataSet) {
    && IsAll(c, d.Keys)
    && forall pk | pk in d ::
         && |d[pk]| == c.n && Idxs(d[pk]) == OneTo(c.n)
         && forall i | 0 <= i < |d[pk]| && d[pk][i].shareIdx == c.self ::
              pk in c.signed(c.self, t) && d[pk][i].data == c.signed(c.self, t)[pk]
  }

  lemma CompleteIsFull(c: Config, s: State, t: SigType)
    requires c.Valid() && Inv(c, s) && Complete(c, s, t)
    ensures FullData(c, t, s.store[t])
  {
    hide ExchangeInv, TasksInv, ChanInv;
    var d := s.store[t];
    assert Collected(s, t) == d;
    forall pk | pk in d
      ensures |d[pk]| == c.n && Idxs(d[pk]) == OneTo(c.n)
      ensures forall i | 0 <= i < |d[pk]| && d[pk][i].shareIdx == c.self ::
        pk in c.signed(c.self, t) && d[pk][i].data == c.signed(c.self, t)[pk]
    {
      assert IsFull(c, s, t, pk, Collected(s, t)[pk]);
      assert GoodSigs(c, t, pk, d[pk], s.started);
      AtMostN(c, t, pk, d[pk], s.started);
    }
  }

  /** In every run an exchange returns exactly the complete data of its own type, although the channel carries no type
      and whatever the peers sent. */
  lemma ExchangeReturnsItsType(c: Config, s: seq<State>, es: seq<Event>, k: nat)
    requires Run(c, s, es) && k < |es| && es[k].Return?
    ensures s[k].current.Some? && s[k].current.value in s[k + 1].returned
    ensures FullData(c, s[k].current.value, s[k + 1].returned[s[k].current.value])
  {
    RunInv(c, s, es, k);
    assert Next(c, s[k], es[k], s[k + 1]);
    hide EntriesInv, TasksInv, OutputsInv, FullData;
    CompleteIsFull(c, s[k], s[k].current.value);
  }

  /** In every run all that was returned is the complete data of its type. */
  lemma ReturnedIsFull(c: Config, s: seq<State>, es: seq<Event>, k: nat, t: SigType)
    requires Run(c, s, es) && k <= |es| && t in s[k].returned
    ensures FullData(c, t, s[k].returned[t])
  {
    hide EntriesInv, TasksInv, OutputsInv, ChanInv, FullData;
    RunInv(c, s, es, k);
    CompleteIsFull(c, s[k], t);
  }

  // ----- pushed once -----

  ghost predicate Sending(s: State, t: SigType) {
    exists id | id in s.tasks :: s.tasks[id].t == t && s.tasks[id].sending.Some?
  }

  /** How often the first k events sent data of the type. */
  ghost function Sends(s: seq<State>, es: seq<Event>, t: SigType, k: nat): (n: nat)
    requires |s| == |es| + 1 && k <= |es|
  {
    if k == 0 then 0
    else Sends(s, es, t, k - 1)
         + if es[k - 1].Send? && es[k - 1].id in s[k - 1].tasks && s[k - 1].tasks[es[k - 1].id].t == t then 1 else 0
  }

  ghost predicate Sent(c: Config, s: State, t: SigType) {
    Complete(c, s, t) && !Sending(s, t)
  }

  /** A step sends a type exactly if the type counts as sent after it and not before. */
  lemma SentStep(c: Config, s: State, e: Event, s': State, t: SigType)
    requires c.Valid() && Inv(c, s) && Next(c, s, e, s')
    ensures Sent(c, s, t) ==> Sent(c, s', t)
    ensures e.Send? && s.tasks[e.id].t == t <==> !Sent(c, s, t) && Sent(c, s', t)
  {
    hide EntriesInv, TasksInv, OutputsInv, ExchangeInv, Complete, StoreStep, MergeStep, Completes;
    match e
    case StoreOne(id, pk) =>
      StoreFrame(c, s, id, pk);
      SameStore(c, s, s');
      SameSending(c, s, id, pk, t);
    case Merge(id) => MergeSent(c, s, id, t);
    case Send(id) => SendSent(c, s, id, s', t);
    case Start(id, _) =>
      SameStore(c, s, s');
      NewTask(s, id, s', t);
    case Arrive(id, _, _) =>
      SameStore(c, s, s');
      NewTask(s, id, s', t);
    case Return =>
      SameStore(c, s, s');
      assert Sending(s', t) == Sending(s, t);
  }

  lemma NewTask(s: State, id: nat, s': State, t: SigType)
    requires id !in s.tasks && id in s'.tasks && s'.tasks == s.tasks[id := s'.tasks[id]] && s'.tasks[id].sending == None
    ensures Sending(s', t) == Sending(s, t)
  {
    if a :| a in s.tasks && s.tasks[a].t == t && s.tasks[a].sending.Some? {
      assert a in s'.tasks && s'.tasks[a] == s.tasks[a];
    }
  }

  lemma SameSending(c: Config, s: State, id: nat, pk: PubKey, t: SigType)
    requires TasksInv(c, s) && id in s.tasks && pk in s.tasks[id].todo
    ensures Sending(StoreStep(c, s, id, pk), t) == Sending(s, t)
  {
    hide AddSig;
    StoreFrame(c, s, id, pk);
    var s' := StoreStep(c, s, id, pk);
    assert s.tasks.Keys - {id} <= s'.tasks.Keys;
    hide StoreStep;
    assert TaskInv(c, s.tasks[id], s.started);
    if a :| a in s.tasks && s.tasks[a].t == t && s.tasks[a].sending.Some? {
      assert a in s'.tasks && s'.tasks[a] == s.tasks[a];
    }
  }

  lemma MergeSent(c: Config, s: State, id: nat, t: SigType)
    requires c.Valid() && Inv(c, s) && id in s.tasks && s.tasks[id].sending == None
    ensures Sent(c, MergeStep(c, s, id), t) == Sent(c, s, t)
  {
    hide EntriesInv, TasksInv, OutputsInv, ExchangeInv, ChanInv, Complete, MergeStep, Completes;
    var s', task := MergeStep(c, s, id), s.tasks[id];
    MergeFrame(c, s, id);
    if task.output != map[] {
      MergeData(c, s, id);
      MergeCompleteness(c, s, id);
    } else {
      EmptyMergeKeepsExchange(c, s, id);
      SameStore(c, s, s');
    }
    if t == task.t && Completes(c, s, id) {
      assert s'.tasks[id].t == t;
    } else if a :| a in s.tasks && s.tasks[a].t == t && s.tasks[a].sending.Some? {
      assert a in s'.tasks && s'.tasks[a] == s.tasks[a];
    }
  }

  lemma SendSent(c: Config, s: State, id: nat, s': State, t: SigType)
    requires ChanInv(c, s) && Next(c, s, Send(id), s')
    ensures Sent(c, s, t) ==> Sent(c, s', t)
    ensures s.tasks[id].t == t <==> !Sent(c, s, t) && Sent(c, s', t)
  {
    hide Complete;
    SameStore(c, s, s');
    assert SendingInv(c, s, id);
    assert Sending(s, s.tasks[id].t);
    assert forall a | a in s'.tasks :: s'.tasks[a].sending == None;
    if t != s.tasks[id].t {
      assert !Sending(s, t);
    }
  }

  /** In every run a type is sent at most once, namely once as soon as all its validators were merged and the call that
      merged the last one has sent. */
  lemma {:induction false} PushedOnce(c: Config, s: seq<State>, es: seq<Event>, t: SigType, k: nat)
    requires Run(c, s, es) && k <= |es|
    ensures Sends(s, es, t, k) == if Sent(c, s[k], t) then 1 else 0
  {
    hide *;
    RunStart(c, s, es);
    if k > 0 {
      RunPrefix(c, s, es, k);
      PushedOnce(c, s, es, t, k - 1);
      RunInv(c, s, es, k - 1);
      SentStep(c, s[k - 1], es[k - 1], s[k], t);
      SendsOne(c, s, es, t, k);
    } else {
      NothingSent(c, s, es, t);
    }
  }

  lemma NothingSent(c: Config, s: seq<State>, es: seq<Event>, t: SigType)
    requires |s| == |es| + 1 && Init(s[0])
    ensures Sends(s, es, t, 0) == 0 && !Sent(c, s[0], t)
  {
  }

  lemma SendsOne(c: Config, s: seq<State>, es: seq<Event>, t: SigType, k: nat)
    requires |s| == |es| + 1 && 0 < k <= |es| && Next(c, s[k - 1], es[k - 1], s[k])
    ensures es[k - 1].Send? ==> es[k - 1].id in s[k - 1].tasks
    ensures Sends(s, es, t, k)
            == Sends(s, es, t, k - 1) + if es[k - 1].Send? && s[k - 1].tasks[es[k - 1].id].t == t then 1 else 0
  {
  }

  // ----- what a mismatch loses -----

  /** The step stores a signature that differs from one already held for its share index. */
  ghost predicate Mismatches(s: State, e: Event) {
    && e.StoreOne? && e.id in s.tasks && e.pk in s.tasks[e.id].todo
    && AddSig(Entries(s, s.tasks[e.id].t, e.pk), s.tasks[e.id].todo[e.pk]) == Mismatch
  }

  /** The step ends a call of the type that had completed validators. */
  ghost predicate Loses(s: State, e: Event, t: SigType) {
    Mismatches(s, e) && s.tasks[e.id].t == t && s.tasks[e.id].output != map[]
  }

  ghost predicate HasOutput(task: Task, t: SigType, pk: PubKey) {
    task.t == t && pk in task.output
  }

  /** The validator is collected, or waits in the output of a call. */
  ghost predicate IsHeld(s: State, t: SigType, pk: PubKey) {
    pk in Collected(s, t) || exists id | id in s.tasks :: HasOutput(s.tasks[id], t, pk)
  }

  ghost predicate HeldInv(c: Config, s: State, t: SigType) {
    forall pk | |Entries(s, t, pk)| == c.n :: IsHeld(s, t, pk)
  }

  /** A complete validator is held after a step exactly if it was before, unless the step lost it. */
  lemma HeldStep(c: Config, s: State, e: Event, s': State, t: SigType, pk: PubKey)
    requires c.Valid() && Inv(c, s) && Next(c, s, e, s') && |Entries(s, t, pk)| == c.n
    ensures Entries(s', t, pk) == Entries(s, t, pk)
    ensures !IsHeld(s, t, pk) ==> !IsHeld(s', t, pk)
    ensures !Loses(s, e, t) && IsHeld(s, t, pk) ==> IsHeld(s', t, pk)
  {
    assert GoodSigs(c, t, pk, Entries(s, t, pk), s.started) && TasksInv(c, s);
    hide StoreStep, MergeStep, AddSig, Inv, GoodSigs, TasksInv, Entries, IsHeld, Loses;
    match e
    case StoreOne(id, q) => StoreHeld(c, s, id, q, t, pk);
    case Merge(id) => MergeHeld(c, s, id, t, pk);
    case Send(_) => QuietHeld(c, s, e, s', t, pk);
    case Start(_, _) => QuietHeld(c, s, e, s', t, pk);
    case Arrive(_, _, _) => QuietHeld(c, s, e, s', t, pk);
    case Return => QuietHeld(c, s, e, s', t, pk);
  }

  lemma QuietHeld(c: Config, s: State, e: Event, s': State, t: SigType, pk: PubKey)
    requires TasksInv(c, s) && Next(c, s, e, s') && !e.StoreOne? && !e.Merge?
    ensures Entries(s', t, pk) == Entries(s, t, pk) && IsHeld(s', t, pk) == IsHeld(s, t, pk)
  {
    hide IsHeld, Collected;
    SameStore(c, s, s');
    if e.Send? {
      assert TaskInv(c, s.tasks[e.id], s.started);
    }
    SameOutputs(s, s', t, pk);
  }

  /** Calls come and go only without output. */
  lemma SameOutputs(s: State, s': State, t: SigType, pk: PubKey)
    requires forall a | a in s.tasks && s.tasks[a].output != map[] :: a in s'.tasks && s'.tasks[a] == s.tasks[a]
    requires forall a | a in s'.tasks && s'.tasks[a].output != map[] :: a in s.tasks && s'.tasks[a] == s.tasks[a]
    requires Collected(s', t) == Collected(s, t)
    ensures IsHeld(s', t, pk) == IsHeld(s, t, pk)
  {
    if a :| a in s.tasks && HasOutput(s.tasks[a], t, pk) {
      assert HasOutput(s'.tasks[a], t, pk);
    }
  }

  lemma MergeHeld(c: Config, s: State, id: nat, t: SigType, pk: PubKey)
    requires id in s.tasks
    ensures var s' := MergeStep(c, s, id);
      Entries(s', t, pk) == Entries(s, t, pk) && IsHeld(s', t, pk) == IsHeld(s, t, pk)
  {
    hide MergeStep, Completes, Collected;
    var s' := MergeStep(c, s, id);
    MergeFrame(c, s, id);
    if a :| a in s.tasks && HasOutput(s.tasks[a], t, pk) {
      if a == id {
        assert pk in Collected(s', t);
      } else {
        assert a in s'.tasks && HasOutput(s'.tasks[a], t, pk);
      }
    } else if pk in Collected(s', t) {
      assert t == s.tasks[id].t ==> !HasOutput(s.tasks[id], t, pk);
    }
  }

  lemma StoreHeld(c: Config, s: State, id: nat, q: PubKey, t: SigType, pk: PubKey)
    requires c.Valid() && id in s.tasks && q in s.tasks[id].todo && TasksInv(c, s)
    requires GoodSigs(c, t, pk, Entries(s, t, pk), s.started) && |Entries(s, t, pk)| == c.n
    ensures var s' := StoreStep(c, s, id, q);
      && Entries(s', t, pk) == Entries(s, t, pk)
      && (!IsHeld(s, t, pk) ==> !IsHeld(s', t, pk))
      && (!Loses(s, StoreOne(id, q), t) && IsHeld(s, t, pk) ==> IsHeld(s', t, pk))
  {
    hide AddSig;
    var s', task := StoreStep(c, s, id, q), s.tasks[id];
    StoreFrame(c, s, id, q);
    SameStore(c, s, s');
    if (t, pk) == (task.t, q) {
      assert TaskInv(c, task, s.started);
      NoRoom(c, t, pk, Entries(s, t, pk), task.todo[q], s.started);
    }
    if a :| a in s.tasks && HasOutput(s.tasks[a], t, pk) {
      assert a in s'.tasks ==> HasOutput(s'.tasks[a], t, pk);
    }
    if a :| a in s'.tasks && HasOutput(s'.tasks[a], t, pk) {
      assert HasOutput(s.tasks[a], t, pk);
    }
  }

  lemma NoRoom(c: Config, t: SigType, pk: PubKey, sigs: seq<ParSig>, sig: ParSig, started: set<SigType>)
    requires c.Valid() && GoodSigs(c, t, pk, sigs, started) && |sigs| == c.n && GoodSig(c, t, pk, sig, started)
    ensures !AddSig(sigs, sig).Added?
  {
    hide AddSig, GoodSigs;
    AddKeepsGood(c, t, pk, sigs, sig, started);
    if AddSig(sigs, sig).Added? {
      AtMostN(c, t, pk, sigs + [sig], started);
    }
  }

  /** A validator that a step completes is held right after it, and one that a step loses is not. */
  lemma NewlyComplete(c: Config, s: State, e: Event, s': State, t: SigType, pk: PubKey)
    requires Next(c, s, e, s') && |Entries(s, t, pk)| != c.n && |Entries(s', t, pk)| == c.n
    ensures IsHeld(s', t, pk)
  {
    hide AddSig, MergeStep;
    match e
    case StoreOne(id, q) =>
      StoreFrame(c, s, id, q);
      assert HasOutput(s'.tasks[id], t, pk);
    case Merge(id) => MergeFrame(c, s, id);
    case Send(_) =>
    case Start(_, _) =>
    case Arrive(_, _, _) =>
    case Return =>
  }

  lemma LostIsLost(c: Config, s: State, e: Event, s': State, t: SigType) returns (pk: PubKey)
    requires c.Valid() && Inv(c, s) && Next(c, s, e, s') && Loses(s, e, t)
    ensures |Entries(s', t, pk)| == c.n && !IsHeld(s', t, pk) && pk in c.vals
  {
    var task := s.tasks[e.id];
    pk :| pk in task.output;
    assert OutputInv(c, s, task);
    assert IsFull(c, s, t, pk, task.output[pk]);
    assert GoodSigs(c, t, pk, Entries(s, t, pk), s.started);
    AtMostN(c, t, pk, Entries(s, t, pk), s.started);
    hide GoodSigs;
    assert s' == s.(tasks := s.tasks - {e.id});
    assert Entries(s', t, pk) == Entries(s, t, pk) && Collected(s', t) == Collected(s, t);
    forall a | a in s'.tasks ensures !HasOutput(s'.tasks[a], t, pk) {
      assert s.tasks[a].t == t ==> s.tasks[a].output.Keys !! task.output.Keys;
    }
  }

  /** In every run in which no step lost validators of a type, each complete one is collected or held by a call. */
  lemma {:induction false} NothingIsLost(c: Config, s: seq<State>, es: seq<Event>, t: SigType, k: nat)
    requires Run(c, s, es) && k <= |es| && forall i | 0 <= i < k :: !Loses(s[i], es[i], t)
    ensures HeldInv(c, s[k], t)
  {
    if k > 0 {
      hide Run, Next, IsHeld, Loses, Inv, Entries;
      RunPrefix(c, s, es, k);
      NothingIsLost(c, s, es, t, k - 1);
      RunInv(c, s, es, k - 1);
      var a, e, b := s[k - 1], es[k - 1], s[k];
      assert !Loses(a, e, t);
      forall pk | |Entries(b, t, pk)| == c.n ensures IsHeld(b, t, pk) {
        if |Entries(a, t, pk)| == c.n {
          HeldStep(c, a, e, b, t, pk);
        } else {
          NewlyComplete(c, a, e, b, t, pk);
        }
      }
    }
  }

  lemma {:induction false} StaysLost(c: Config, s: seq<State>, es: seq<Event>, t: SigType, pk: PubKey, i: nat, k: nat)
    requires Run(c, s, es) && i <= k <= |es| && |Entries(s[i], t, pk)| == c.n && !IsHeld(s[i], t, pk)
    ensures |Entries(s[k], t, pk)| == c.n && !IsHeld(s[k], t, pk)
  {
    hide *;
    if i < k {
      RunPrefix(c, s, es, k);
      StaysLost(c, s, es, t, pk, i, k - 1);
      RunInv(c, s, es, k - 1);
      HeldStep(c, s[k - 1], es[k - 1], s[k], t, pk);
    }
  }

  /** In every run, once every validator has the signatures of all nodes for a type and no call is running any more, the
      type has been sent exactly once if the keys of the validators are distinct and no mismatch ended a call of it that
      had completed validators, and otherwise it has not been sent. */
  lemma PushedExactlyOnce(c: Config, s: seq<State>, es: seq<Event>, t: SigType, k: nat)
    requires Run(c, s, es) && k <= |es|
    requires c.vals != {} && s[k].tasks == map[] && forall pk | pk in c.vals :: |Entries(s[k], t, pk)| == c.n
    ensures Sends(s, es, t, k)
            == if |c.vals| == c.numVals && forall i | 0 <= i < k :: !Loses(s[i], es[i], t) then 1 else 0
  {
    hide Next, Loses, EntriesInv, TasksInv, OutputsInv, ExchangeInv, ChanInv, IsHeld, HeldInv;
    RunInv(c, s, es, k);
    PushedOnce(c, s, es, t, k);
    if i :| 0 <= i < k && Loses(s[i], es[i], t) {
      LostIsNotSent(c, s, es, t, i, k);
    } else if |c.vals| == c.numVals {
      NothingIsLost(c, s, es, t, k);
      AllHeldIsComplete(c, s[k], t);
      assert !Sending(s[k], t);
    }
  }

  lemma LostIsNotSent(c: Config, s: seq<State>, es: seq<Event>, t: SigType, i: nat, k: nat)
    requires Run(c, s, es) && i < k <= |es| && Loses(s[i], es[i], t)
    ensures !Complete(c, s[k], t)
  {
    hide Next, Loses, Inv;
    RunInv(c, s, es, i);
    assert Next(c, s[i], es[i], s[i + 1]);
    var pk := LostIsLost(c, s[i], es[i], s[i + 1], t);
    StaysLost(c, s, es, t, pk, i + 1, k);
    NotComplete(c, s[k], t, pk);
  }

  lemma AllHeldIsComplete(c: Config, s: State, t: SigType)
    requires c.Valid() && HeldInv(c, s, t) && EntriesInv(c, s) && OutputsInv(c, s)
    requires c.vals != {} && |c.vals| == c.numVals && s.tasks == map[]
    requires forall pk | pk in c.vals :: |Entries(s, t, pk)| == c.n
    ensures Complete(c, s, t)
  {
    forall pk ensures pk in Collected(s, t) <==> pk in c.vals {
      if pk in c.vals {
        assert IsHeld(s, t, pk);
      }
      if pk in Collected(s, t) {
        assert IsFull(c, s, t, pk, Collected(s, t)[pk]);
        assert GoodSigs(c, t, pk, Entries(s, t, pk), s.started);
        AtMostN(c, t, pk, Entries(s, t, pk), s.started);
      }
    }
    var pk :| pk in c.vals;
    assert pk in Collected(s, t);
    assert Collected(s, t).Keys == c.vals;
  }

  // ----- honest peers -----

  /** Each node signs one set for each type, and only it uses its share index. */
  ghost predicate Honest(c: Config, e: Event) {
    e.Arrive? ==> exists j | 1 <= j <= c.n && j != c.self :: e.sigs == MessageOf(c, j, e.t)
  }

  ghost predicate AsSigned(c: Config, t: SigType, pk: PubKey, sig: ParSig) {
    pk in c.signed(sig.shareIdx, t) && sig.data == c.signed(sig.shareIdx, t)[pk]
  }

  ghost predicate SignedInv(c: Config, s: State) {
    && (forall t: SigType, pk, i | 0 <= i < |Entries(s, t, pk)| :: AsSigned(c, t, pk, Entries(s, t, pk)[i]))
    && (forall id, pk | id in s.tasks && pk in s.tasks[id].todo :: AsSigned(c, s.tasks[id].t, pk, s.tasks[id].todo[pk]))
  }

  lemma SignedStep(c: Config, s: State, e: Event, s': State)
    requires SignedInv(c, s) && Next(c, s, e, s') && Honest(c, e)
    ensures SignedInv(c, s') && !Mismatches(s, e)
  {
    hide StoreStep, MergeStep, AddSig, SignedInv;
    match e
    case StoreOne(id, pk) => StoreSigned(c, s, id, pk);
    case Merge(id) =>
      MergeFrame(c, s, id);
      SignedFrame(c, s, s');
    case Send(id) => SignedFrame(c, s, s');
    case Start(id, _) => SignedFrame(c, s, s');
    case Arrive(id, _, _) => SignedFrame(c, s, s');
    case Return => SignedFrame(c, s, s');
  }

  lemma SignedFrame(c: Config, s: State, s': State)
    requires SignedInv(c, s) && s'.entries == s.entries
    requires forall id, pk | id in s'.tasks && pk in s'.tasks[id].todo ::
      || (id in s.tasks && s'.tasks[id] == s.tasks[id])
      || AsSigned(c, s'.tasks[id].t, pk, s'.tasks[id].todo[pk])
    ensures SignedInv(c, s')
  {
    assert forall t: SigType, pk :: Entries(s', t, pk) == Entries(s, t, pk);
    hide Entries;
  }

  lemma StoreSigned(c: Config, s: State, id: nat, pk: PubKey)
    requires SignedInv(c, s) && id in s.tasks && pk in s.tasks[id].todo
    ensures SignedInv(c, StoreStep(c, s, id, pk))
    ensures AddSig(Entries(s, s.tasks[id].t, pk), s.tasks[id].todo[pk]) != Mismatch
  {
    var task, sigs := s.tasks[id], Entries(s, s.tasks[id].t, pk);
    assert AsSigned(c, task.t, pk, task.todo[pk]);
    assert forall i | 0 <= i < |sigs| :: AsSigned(c, task.t, pk, sigs[i]);
    var s' := StoreStep(c, s, id, pk);
    StoreFrame(c, s, id, pk);
    assert Entries(s', task.t, pk) == sigs || Entries(s', task.t, pk) == sigs + [task.todo[pk]];
    hide StoreStep, AddSig, Entries;
    forall t: SigType, q, i | 0 <= i < |Entries(s', t, q)| ensures AsSigned(c, t, q, Entries(s', t, q)[i]) {
      if (t, q) != (task.t, pk) {
        assert Entries(s', t, q) == Entries(s, t, q);
      }
    }
  }

  lemma NothingSigned(c: Config, s: State)
    requires Init(s)
    ensures SignedInv(c, s)
  {
  }

  /** With honest peers no run has a mismatch, and all signatures are as their nodes signed them. */
  lemma {:induction false} HonestRun(c: Config, s: seq<State>, es: seq<Event>, k: nat)
    requires Run(c, s, es) && k <= |es| && forall i | 0 <= i < k :: Honest(c, es[i])
    ensures SignedInv(c, s[k]) && forall i | 0 <= i < k :: !Mismatches(s[i], es[i])
  {
    hide *;
    RunStart(c, s, es);
    if k == 0 {
      NothingSigned(c, s[0]);
    } else {
      RunPrefix(c, s, es, k);
      HonestRun(c, s, es, k - 1);
      assert Honest(c, es[k - 1]);
      SignedStep(c, s[k - 1], es[k - 1], s[k]);
    }
  }

  /** With honest peers an exchange returns what every node signed for its type. */
  lemma HonestExchange(c: Config, s: seq<State>, es: seq<Event>, k: nat, pk: PubKey, i: nat)
    requires Run(c, s, es) && k < |es| && es[k].Return? && forall i | 0 <= i <= k :: Honest(c, es[i])
    requires s[k].current.Some? && s[k].current.value in s[k + 1].returned
    requires var d := s[k + 1].returned[s[k].current.value]; pk in d && i < |d[pk]|
    ensures AsSigned(c, s[k].current.value, pk, s[k + 1].returned[s[k].current.value][pk][i])
  {
    RunInv(c, s, es, k);
    HonestRun(c, s, es, k);
    assert Next(c, s[k], es[k], s[k + 1]);
    hide EntriesInv, TasksInv;
    var t := s[k].current.value;
    assert Collected(s[k], t) == s[k].store[t];
    assert IsFull(c, s[k], t, pk, Collected(s[k], t)[pk]);
  }
}
