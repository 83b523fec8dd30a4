/** The duty deadliner of core/deadline.go: one goroutine that owns the set of pending duties, a cached
    earliest duty with its deadline, and a timer armed for that deadline. */
module Deadliner {
  import opened Prelude

  /** core.DutyType, in declaration order. */
  datatype DutyType =
    | Unknown | Proposer | Attester | Signature | Exit | BuilderProposer | BuilderRegistration | Randao
    | PrepareAggregator | Aggregator | SyncMessage | PrepareSyncContribution | SyncContribution | InfoSync

  datatype Duty = Duty(slot: nat, kind: DutyType)

  /** Nanoseconds since the Unix epoch. */
  type Time = int

  /** The deadline of a duty, or None when it never expires. */
  type DeadlineFunc = Duty -> Option<Time>

  /** 9999-01-01T00:00:00Z, the deadline cached while nothing is pending. */
  const SENTINEL: Time := 253370764800 * 1000000000

  const ZERO_DUTY := Duty(0, Unknown)

  /** Capacity of the output channel. */
  const OUTPUT_BUFFER: nat := 10

  const MARGIN_FACTOR := 12

  /** The goroutine's variables and the contents of the output channel. */
  datatype State = State(pending: set<Duty>, currDuty: Duty, currDeadline: Time, output: seq<Duty>)

  /** What one turn of the goroutine's select, or one read by the consumer, did and when. */
  datatype Event =
    | Add(duty: Duty, now: Time, ok: bool)
    | Fire(duty: Duty, now: Time, sent: bool)
    | Read(duty: Duty, now: Time)

  // ----- specification of one step -----

  /** (d, t) is a legal answer of getCurrDuty: a pending duty of minimal deadline below the sentinel, or the
      zero duty with the sentinel. Ties may be broken either way, since Go iterates maps in random order. */
  ghost predicate IsCurrent(f: DeadlineFunc, pending: set<Duty>, d: Duty, t: Time) {
    && (forall p <- pending :: f(p).Some? ==> t <= f(p).value)
    && t <= SENTINEL
    && (t < SENTINEL ==> d in pending && f(d) == Some(t))
    && (t == SENTINEL ==> d == ZERO_DUTY)
  }

  ghost predicate Init(s: State) {
    s == State({}, ZERO_DUTY, SENTINEL, [])
  }

  ghost predicate AddStep(f: DeadlineFunc, s: State, duty: Duty, now: Time, ok: bool, s': State) {
    && ok == (f(duty).Some? && now <= f(duty).value)
    && if !ok then s' == s else
         && s'.pending == s.pending + {duty}
         && s'.output == s.output
         && if f(duty).value < s.currDeadline
            then IsCurrent(f, s'.pending, s'.currDuty, s'.currDeadline)
            else s'.currDuty == s.currDuty && s'.currDeadline == s.currDeadline
  }

  /** The timer never fires early; when it fires, the cached duty is offered to the output channel, dropped if
      that is full, and leaves the pending set either way. */
  ghost predicate FireStep(f: DeadlineFunc, s: State, duty: Duty, now: Time, sent: bool, s': State) {
    && s.currDeadline <= now
    && duty == s.currDuty
    && sent == (|s.output| < OUTPUT_BUFFER)
    && s'.output == (if sent then s.output + [duty] else s.output)
    && s'.pending == s.pending - {duty}
    && IsCurrent(f, s'.pending, s'.currDuty, s'.currDeadline)
  }

  ghost predicate Next(f: DeadlineFunc, s: State, e: Event, s': State) {
    match e
    case Add(duty, now, ok) => AddStep(f, s, duty, now, ok, s')
    case Fire(duty, now, sent) => FireStep(f, s, duty, now, sent, s')
    case Read(duty, _) => s.output != [] && duty == s.output[0] && s' == s.(output := s.output[1..])
  }

  /** A run from s[0]: every step is legal, the clock is monotone and never reads the year 9999. */
  ghost predicate RunFrom(f: DeadlineFunc, s: seq<State>, es: seq<Event>) {
    && |s| == |es| + 1
    && (forall i {:trigger es[i]} | 0 <= i < |es| :: Next(f, s[i], es[i], s[i + 1]))
    && (forall i, j | 0 <= i <= j < |es| :: es[i].now <= es[j].now)
    && (forall i | 0 <= i < |es| :: es[i].now < SENTINEL)
  }

  ghost predicate Run(f: DeadlineFunc, s: seq<State>, es: seq<Event>) {
    RunFrom(f, s, es) && Init(s[0])
  }

  // ----- the goroutine -----

  /** deadliner.run, with one method per select case. */
  class Deadliner {
    const deadlineFunc: DeadlineFunc
    var duties: set<Duty>
    var currDuty: Duty
    var currDeadline: Time
    var deadlineChan: seq<Duty>

    ghost function View(): (s: State)
      reads this
    {
      State(duties, currDuty, currDeadline, deadlineChan)
    }

    constructor (deadlineFunc: DeadlineFunc)
      ensures this.deadlineFunc == deadlineFunc
      ensures Init(View())
    {
      this.deadlineFunc := deadlineFunc;
      duties := {};
      deadlineChan := [];
      new;
      currDuty, currDeadline := GetCurrDuty(deadlineFunc, duties);
    }

    method HandleInput(duty: Duty, now: Time) returns (success: bool)
      modifies this
      ensures AddStep(deadlineFunc, old(View()), duty, now, success, View())
    {
      var deadline := deadlineFunc(duty);
      if deadline == None {
        return false;
      }
      var expired := deadline.value < now;
      success := !expired;
      if expired {
        return;
      }
      duties := duties + {duty};
      if deadline.value < currDeadline {
        currDuty, currDeadline := GetCurrDuty(deadlineFunc, duties);
      }
    }

    method HandleTimer(now: Time) returns (sent: bool)
      requires currDeadline <= now
      modifies this
      ensures FireStep(deadlineFunc, old(View()), old(currDuty), now, sent, View())
    {
      sent := |deadlineChan| < OUTPUT_BUFFER;
      if sent {
        deadlineChan := deadlineChan + [currDuty];
      }
      duties := duties - {currDuty};
      currDuty, currDeadline := GetCurrDuty(deadlineFunc, duties);
    }
  }

  /** getCurrDuty: the loop visits the map in an order chosen by the runtime. The source comment speaks of the
      latest deadline; the code selects the earliest. */
  method GetCurrDuty(f: DeadlineFunc, duties: set<Duty>) returns (currDuty: Duty, currDeadline: Time)
    ensures IsCurrent(f, duties, currDuty, currDeadline)
  {
    currDuty, currDeadline := ZERO_DUTY, SENTINEL;
    var todo := duties;
    while todo != {}
      invariant todo <= duties
      invariant IsCurrent(f, duties - todo, currDuty, currDeadline)
      decreases todo
    {
      var duty :| duty in todo;
      todo := todo - {duty};
      var deadline := f(duty);
      if deadline.Some? && currDeadline > deadline.value {
        currDuty, currDeadline := duty, deadline.value;
      }
    }
    assert duties - todo == duties;
  }

  // ----- whole runs -----

  /** What holds after every prefix of a run. */
  ghost predicate Inv(f: DeadlineFunc, s: State, past: seq<Event>) {
    && (forall p <- s.pending :: f(p).Some?)
    && IsCurrent(f, s.pending, s.currDuty, s.currDeadline)
    && (forall i | 0 <= i < |past| && past[i].Fire? ::
          && f(past[i].duty).Some?
          && f(past[i].duty).value <= past[i].now
          && forall p <- s.pending :: f(past[i].duty).value <= f(p).value)
  }

  lemma {:induction false} RunInv(f: DeadlineFunc, s: seq<State>, es: seq<Event>, k: nat)
    requires Run(f, s, es) && k <= |es|
    ensures Inv(f, s[k], es[..k])
  {
    if k > 0 {
      RunInv(f, s, es, k - 1);
      assert Next(f, s[k - 1], es[k - 1], s[k]);
      forall i | 0 <= i < k && es[..k][i].Fire?
        ensures f(es[i].duty).Some? && f(es[i].duty).value <= es[i].now
        ensures forall p <- s[k].pending :: f(es[i].duty).value <= f(p).value
      {
        if i < k - 1 {
          assert es[..k - 1][i] == es[i];
        }
        assert es[i].now <= es[k - 1].now;
      }
    }
  }

  /** In every run the cached duty is an earliest pending one, whatever was added or fired before. */
  lemma CachedDutyIsEarliest(f: DeadlineFunc, s: seq<State>, es: seq<Event>, k: nat, p: Duty)
    requires Run(f, s, es) && k <= |es| && p in s[k].pending && f(p).Some? && f(p).value < SENTINEL
    ensures s[k].currDuty in s[k].pending
    ensures f(s[k].currDuty) == Some(s[k].currDeadline) && s[k].currDeadline <= f(p).value
  {
    RunInv(f, s, es, k);
  }

  /** In every run duties fire no earlier than their deadline and in non-decreasing deadline order, even with
      additions interleaved between the fires. */
  lemma FiresInDeadlineOrder(f: DeadlineFunc, s: seq<State>, es: seq<Event>, i: nat, j: nat)
    requires Run(f, s, es) && i <= j < |es| && es[i].Fire? && es[j].Fire?
    ensures es[i].duty in s[i].pending
    ensures f(es[i].duty).Some? && f(es[j].duty).Some?
    ensures f(es[i].duty).value <= es[i].now
    ensures f(es[i].duty).value <= f(es[j].duty).value
  {
    RunInv(f, s, es, i);
    RunInv(f, s, es, j);
    assert Next(f, s[i], es[i], s[i + 1]) && Next(f, s[j], es[j], s[j + 1]);
    if i < j {
      assert es[..j][i] == es[i];
    }
  }

  /** How often d entered the pending set in the first k events. */
  ghost function Entries(s: seq<State>, es: seq<Event>, d: Duty, k: nat): (n: nat)
    requires k <= |es| < |s|
  {
    if k == 0 then 0 else
      Entries(s, es, d, k - 1)
      + if es[k - 1].Add? && es[k - 1].ok && es[k - 1].duty == d && d !in s[k - 1].pending then 1 else 0
  }

  ghost function Fires(es: seq<Event>, d: Duty, k: nat): (n: nat)
    requires k <= |es|
  {
    if k == 0 then 0 else
      Fires(es, d, k - 1) + if es[k - 1].Fire? && es[k - 1].duty == d then 1 else 0
  }

  /** Conservation: per duty, fresh acceptances equal fires plus one if it is still pending. */
  lemma {:induction false} EntriesEqualFiresPlusPending(f: DeadlineFunc, s: seq<State>, es: seq<Event>, d: Duty, k: nat)
    requires Run(f, s, es) && k <= |es|
    ensures Entries(s, es, d, k) == Fires(es, d, k) + if d in s[k].pending then 1 else 0
  {
    if k > 0 {
      EntriesEqualFiresPlusPending(f, s, es, d, k - 1);
      RunInv(f, s, es, k - 1);
      assert Next(f, s[k - 1], es[k - 1], s[k]);
    }
  }

  /** A pending duty that is absent at index i and present at index j was accepted somewhere in between. */
  lemma {:induction false} EnteredBetween(f: DeadlineFunc, s: seq<State>, es: seq<Event>, d: Duty, i: nat, j: nat)
    returns (k: nat)
    requires RunFrom(f, s, es) && i <= j <= |es| && d !in s[i].pending && d in s[j].pending
    ensures i <= k < j && es[k].Add? && es[k].duty == d && es[k].ok
  {
    assert i < j && Next(f, s[j - 1], es[j - 1], s[j]);
    if d in s[j - 1].pending {
      k := EnteredBetween(f, s, es, d, i, j - 1);
    } else {
      k := j - 1;
    }
  }

  /** A duty fires a second time only if it was added again while the clock read exactly its deadline, which
      is then also the time of its first fire. */
  lemma FiresAgainOnlyAtDeadline(f: DeadlineFunc, s: seq<State>, es: seq<Event>, i: nat, j: nat) returns (k: nat)
    requires Run(f, s, es) && i < j < |es| && es[i].Fire? && es[j].Fire? && es[i].duty == es[j].duty
    ensures i < k < j && es[k].Add? && es[k].ok && es[k].duty == es[i].duty
    ensures f(es[i].duty) == Some(es[k].now) && es[i].now == es[k].now
  {
    FiresInDeadlineOrder(f, s, es, i, j);
    FiresInDeadlineOrder(f, s, es, j, j);
    assert Next(f, s[i], es[i], s[i + 1]);
    k := EnteredBetween(f, s, es, es[i].duty, i + 1, j);
    assert Next(f, s[k], es[k], s[k + 1]);
    assert es[i].now <= es[k].now;
  }

  /** How many of the first k events are fires. */
  ghost function FireCount(es: seq<Event>, k: nat): (n: nat)
    requires k <= |es|
  {
    if k == 0 then 0 else FireCount(es, k - 1) + if es[k - 1].Fire? then 1 else 0
  }

  ghost predicate NothingAdded(es: seq<Event>, k: nat)
    requires k <= |es|
  {
    forall i | 0 <= i < k :: !(es[i].Add? && es[i].ok)
  }

  lemma {:induction false} Drains(f: DeadlineFunc, s: seq<State>, es: seq<Event>, k: nat)
    requires RunFrom(f, s, es) && k <= |es| && NothingAdded(es, k)
    requires IsCurrent(f, s[0].pending, s[0].currDuty, s[0].currDeadline)
    ensures |s[k].pending| == |s[0].pending| - FireCount(es, k) && s[k].pending <= s[0].pending
    ensures IsCurrent(f, s[k].pending, s[k].currDuty, s[k].currDeadline)
  {
    if k > 0 {
      StepOf(f, s, es, k - 1);
      hide RunFrom, Next, IsCurrent;
      Drains(f, s, es, k - 1);
      DrainStep(f, s[k - 1], es[k - 1], s[k]);
    }
  }

  lemma {:induction false} FiredIsGone(f: DeadlineFunc, s: seq<State>, es: seq<Event>, k: nat, i: nat)
    requires RunFrom(f, s, es) && k <= |es| && NothingAdded(es, k)
    requires IsCurrent(f, s[0].pending, s[0].currDuty, s[0].currDeadline)
    requires i < k && es[i].Fire?
    ensures es[i].duty in s[0].pending && es[i].duty in s[i].pending && es[i].duty !in s[k].pending
  {
    StepOf(f, s, es, k - 1);
    hide RunFrom, Next, IsCurrent;
    Drains(f, s, es, k - 1);
    DrainStep(f, s[k - 1], es[k - 1], s[k]);
    if i < k - 1 {
      FiredIsGone(f, s, es, k - 1, i);
    }
  }

  /** Without accepted additions, each fire removes one duty that was pending at the start, and no duty fires twice,
      whatever the consumer reads in between; so |pending| fires empty the pending set. */
  lemma DrainsWithoutAdds(f: DeadlineFunc, s: seq<State>, es: seq<Event>, k: nat)
    requires RunFrom(f, s, es) && k <= |es|
    requires IsCurrent(f, s[0].pending, s[0].currDuty, s[0].currDeadline)
    requires forall i | 0 <= i < k :: !(es[i].Add? && es[i].ok)
    ensures |s[k].pending| == |s[0].pending| - FireCount(es, k)
    ensures FireCount(es, k) == |s[0].pending| <==> s[k].pending == {}
    ensures s[k].pending <= s[0].pending
    ensures forall i | 0 <= i < k && es[i].Fire? :: es[i].duty in s[0].pending - s[k].pending
    ensures forall i, j | 0 <= i < j < k && es[i].Fire? && es[j].Fire? :: es[i].duty != es[j].duty
    ensures IsCurrent(f, s[k].pending, s[k].currDuty, s[k].currDeadline)
  {
    assert |s| == |es| + 1;
    hide RunFrom, IsCurrent, FireCount;
    Drains(f, s, es, k);
    forall i | 0 <= i < k && es[i].Fire? ensures es[i].duty in s[0].pending - s[k].pending {
      FiredIsGone(f, s, es, k, i);
    }
    forall i, j | 0 <= i < j < k && es[i].Fire? && es[j].Fire? ensures es[i].duty != es[j].duty {
      FiredIsGone(f, s, es, j, i);
      FiredIsGone(f, s, es, k, j);
    }
  }

  lemma StepOf(f: DeadlineFunc, s: seq<State>, es: seq<Event>, i: nat)
    requires RunFrom(f, s, es) && i < |es|
    ensures |s| == |es| + 1 && Next(f, s[i], es[i], s[i + 1]) && es[i].now < SENTINEL
  {
  }

  lemma DrainStep(f: DeadlineFunc, s: State, e: Event, s': State)
    requires Next(f, s, e, s') && !(e.Add? && e.ok) && e.now < SENTINEL
    requires IsCurrent(f, s.pending, s.currDuty, s.currDeadline)
    ensures IsCurrent(f, s'.pending, s'.currDuty, s'.currDeadline)
    ensures e.Fire? ==> e.duty in s.pending
    ensures s'.pending == if e.Fire? then s.pending - {e.duty} else s.pending
  {
  }

  ghost function SentDuties(es: seq<Event>): (ds: seq<Duty>) {
    if es == [] then [] else
      var e := es[|es| - 1];
      SentDuties(es[..|es| - 1]) + if e.Fire? && e.sent then [e.duty] else []
  }

  ghost function ReadDuties(es: seq<Event>): (ds: seq<Duty>) {
    if es == [] then [] else
      var e := es[|es| - 1];
      ReadDuties(es[..|es| - 1]) + if e.Read? then [e.duty] else []
  }

  lemma RunPrefix(f: DeadlineFunc, s: seq<State>, es: seq<Event>)
    requires Run(f, s, es) && es != []
    ensures |s| == |es| + 1 && Run(f, s[..|es|], es[..|es| - 1]) && Next(f, s[|es| - 1], es[|es| - 1], s[|es|])
  {
    hide Next;
    var t, fs := s[..|es|], es[..|es| - 1];
    forall i | 0 <= i < |fs| ensures Next(f, t[i], fs[i], t[i + 1]) {
      assert es[i] == fs[i] && Next(f, s[i], es[i], s[i + 1]);
    }
  }

  /** The channel neither reorders nor loses what was sent: what the consumer read followed by what is still
      buffered is the sequence of sent duties, and the buffer never exceeds its capacity. */
  lemma {:induction false} OutputIsFifo(f: DeadlineFunc, s: seq<State>, es: seq<Event>)
    requires Run(f, s, es)
    ensures ReadDuties(es) + s[|es|].output == SentDuties(es)
    ensures |s[|es|].output| <= OUTPUT_BUFFER
  {
    if |es| > 0 {
      var m := |es| - 1;
      RunPrefix(f, s, es);
      hide Run, Next;
      OutputIsFifo(f, s[..|es|], es[..m]);
      OutputStep(f, s[m], es[m], s[m + 1], ReadDuties(es[..m]));
    }
  }

  /** A step moves the duties read, the output channel and the duties sent together. */
  lemma OutputStep(f: DeadlineFunc, s: State, e: Event, s': State, read: seq<Duty>)
    requires Next(f, s, e, s') && |s.output| <= OUTPUT_BUFFER
    ensures (read + if e.Read? then [e.duty] else []) + s'.output
            == read + s.output + if e.Fire? && e.sent then [e.duty] else []
    ensures |s'.output| <= OUTPUT_BUFFER
  {
    hide IsCurrent;
  }

  // ----- the deadline function of the beacon chain -----

  /** How long after the start of its slot a duty stays useful, before the margin is added. */
  function DutyDuration(kind: DutyType, slotDuration: nat): (duration: nat)
    ensures slotDuration >= 3 ==> 1 <= duration
    ensures duration <= 2 * slotDuration
  {
    match kind
    case Proposer | Randao => slotDuration / 3
    case SyncMessage => 2 * slotDuration / 3
    case Attester | Aggregator | PrepareAggregator => 2 * slotDuration
    case _ => slotDuration
  }

  /** NewDutyDeadlineFunc; durations are non-negative, so Go's truncating division agrees with `/`. */
  function DutyDeadline(genesis: Time, slotDuration: nat, duty: Duty): Option<Time> {
    if duty.kind == Exit || duty.kind == BuilderRegistration then None else
      Some(genesis + slotDuration * duty.slot + DutyDuration(duty.kind, slotDuration) + slotDuration / MARGIN_FACTOR)
  }

  /** When the n-th slot starts. */
  ghost function SlotStart(genesis: Time, slotDuration: nat, n: nat): Time {
    if n == 0 then genesis else SlotStart(genesis, slotDuration, n - 1) + slotDuration
  }

  lemma {:induction false} SlotStarts(genesis: Time, slotDuration: nat, n: nat)
    ensures SlotStart(genesis, slotDuration, n) == genesis + slotDuration * n
  {
    if n > 0 {
      SlotStarts(genesis, slotDuration, n - 1);
    }
  }

  /** Every deadline by the slots' starts, a twelfth of a slot late: attestations and aggregations live for two slots,
      sync messages for two thirds of one, proposals for a third, all other duties for one, and exits and builder
      registrations for ever. */
  lemma DeadlinesBySlot(genesis: Time, slotDuration: nat, n: nat, kind: DutyType)
    ensures var deadline := DutyDeadline(genesis, slotDuration, Duty(n, kind));
            var margin := slotDuration / 12;
            if kind.Exit? || kind.BuilderRegistration? then deadline == None
            else if kind.Attester? || kind.Aggregator? || kind.PrepareAggregator? then
              deadline == Some(SlotStart(genesis, slotDuration, n + 2) + margin)
            else if kind.SyncMessage? then
              deadline == Some(SlotStart(genesis, slotDuration, n) + 2 * slotDuration / 3 + margin)
            else if kind.Proposer? || kind.Randao? then
              deadline == Some(SlotStart(genesis, slotDuration, n) + slotDuration / 3 + margin)
            else deadline == Some(SlotStart(genesis, slotDuration, n + 1) + margin)
  {
    SlotStarts(genesis, slotDuration, n);
  }

  /** How early a duty of a slot is due: proposals, sync messages, the rest, attestations. */
  ghost function Urgency(kind: DutyType): nat {
    if kind.Proposer? || kind.Randao? then 0
    else if kind.SyncMessage? then 1
    else if kind.Attester? || kind.Aggregator? || kind.PrepareAggregator? then 3
    else 2
  }

  /** In every run under the beacon chain's deadlines, of two duties of one slot the less urgent one never fires
      first: a proposal, for one, never after an attestation, however late either was added. */
  lemma FiresByUrgency(
      f: DeadlineFunc, genesis: Time, slotDuration: nat, s: seq<State>, es: seq<Event>, i: nat, j: nat)
    requires slotDuration >= 1 && forall d :: f(d) == DutyDeadline(genesis, slotDuration, d)
    requires Run(f, s, es) && i < j < |es| && es[i].Fire? && es[j].Fire? && es[i].duty.slot == es[j].duty.slot
    ensures slotDuration >= 2 ==> Urgency(es[i].duty.kind) <= Urgency(es[j].duty.kind)
    ensures !(es[i].duty.kind.Attester? && es[j].duty.kind.Proposer?)
  {
    var n := es[i].duty.slot;
    FiresInDeadlineOrder(f, s, es, i, j);
    DeadlinesBySlot(genesis, slotDuration, n, es[i].duty.kind);
    DeadlinesBySlot(genesis, slotDuration, n, es[j].duty.kind);
    assert f(es[i].duty) == DutyDeadline(genesis, slotDuration, Duty(n, es[i].duty.kind));
    assert f(es[j].duty) == DutyDeadline(genesis, slotDuration, Duty(n, es[j].duty.kind));
    hide DutyDeadline, DutyDuration;
    assert SlotStart(genesis, slotDuration, n + 1) == SlotStart(genesis, slotDuration, n) + slotDuration;
    assert SlotStart(genesis, slotDuration, n + 2) == SlotStart(genesis, slotDuration, n + 1) + slotDuration;
    assert slotDuration / 3 <= 2 * slotDuration / 3 < slotDuration;
    assert slotDuration >= 2 ==> slotDuration / 3 < 2 * slotDuration / 3;
  }

  lemma DeadlinesTwoSlotsApart(genesis: Time, slotDuration: nat, a: Duty, b: Duty)
    requires slotDuration >= 3 && a.slot + 2 <= b.slot
    requires DutyDeadline(genesis, slotDuration, a).Some? && DutyDeadline(genesis, slotDuration, b).Some?
    ensures DutyDeadline(genesis, slotDuration, a).value < DutyDeadline(genesis, slotDuration, b).value
  {
    var gap := b.slot - a.slot - 2;
    assert slotDuration * b.slot == slotDuration * a.slot + 2 * slotDuration + slotDuration * gap;
    assert 0 <= slotDuration * gap;
  }

  /** In every run under the beacon chain's deadlines, a duty fires after another one only if the other one's
      slot is less than two slots later. */
  lemma FiresWithinTwoSlots(
      f: DeadlineFunc, genesis: Time, slotDuration: nat, s: seq<State>, es: seq<Event>, i: nat, j: nat)
    requires slotDuration >= 3 && forall d :: f(d) == DutyDeadline(genesis, slotDuration, d)
    requires Run(f, s, es) && i < j < |es| && es[i].Fire? && es[j].Fire?
    ensures es[i].duty.slot < es[j].duty.slot + 2
  {
    FiresInDeadlineOrder(f, s, es, i, j);
    assert f(es[i].duty) == DutyDeadline(genesis, slotDuration, es[i].duty);
    assert f(es[j].duty) == DutyDeadline(genesis, slotDuration, es[j].duty);
    if es[j].duty.slot + 2 <= es[i].duty.slot {
      DeadlinesTwoSlotsApart(genesis, slotDuration, es[j].duty, es[i].duty);
    }
  }
}
