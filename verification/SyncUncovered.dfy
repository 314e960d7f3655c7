/** Exactly what the requests that touch an unrestricted system counter leave of its coverage: those that store a
  driver's answer without setting the brackets, refused ones among them, and those that set them anew.
 */
module SyncUncovered {
  import opened SyncModel
  import opened SyncLinks
  import opened SyncTypes
  import opened SyncQuiescence
  import opened SyncBrackets
  import opened SyncLazy
  import opened SyncCoverage
  import opened SyncAwaitCoverage
  import opened SyncKept

  // ---------- A value stored and nothing else ----------

  /** With the counter at `value` every armed transition is bracketed. */
  ghost predicate TransitionsAt(s: State, c: XID, b: SysInfo, value: Int64)
    requires c in s.counters
  {
    forall r :: r in s.counters[c].triglist && Armed(s, r) && !IsComparison(Slot(s, r).check) ==>
      Bracketed(b, value, Slot(s, r))
  }

  /** With the counter at `value` nothing that could be seen to fire is missed. */
  ghost predicate NoneMissedAt(s: State, c: XID, b: SysInfo, value: Int64)
    requires c in s.counters
  {
    forall r :: r in s.counters[c].triglist && Armed(s, r) ==> Silent(s, r) || !Misses(b, value, Slot(s, r))
  }

  /** A value stored in the counter without a look at triggers or brackets: the counter can be checked lazily afterwards
    if and only if nothing is missed with that value; a covered counter stays covered if and only if its transitions
    are bracketed there, which they are when the value is strictly inside the brackets. */
  lemma StoredExactly(s: State, c: XID, v: Int64)
    requires ListInv(s) && Coherent(s) && Unrestrained(s, c)
    ensures var s1, b := UpdateCounter(s, c, v), s.counters[c].sys.value;
      && (LazySound(s1, c) <==> NoneMissedAt(s, c, b, v))
      && (Covered(s, c, b) ==> (Covered(s1, c, b) <==> TransitionsAt(s, c, b, v)))
      && (Covered(s, c, b) && Passes(b, v) ==> TransitionsAt(s, c, b, v))
  {
    var s1, b := UpdateCounter(s, c, v), s.counters[c].sys.value;
    UpdateInside(s, c, v);
    SameArmed(s, s1);
    hide ListInv, Coherent, LazySound, Misses, Bracketed, Passes, Armed, Live;
    LazySoundExactly(s1, c);
    if Covered(s, c, b) {
      forall r | r in s.counters[c].triglist && Armed(s, r)
        ensures IsComparison(Slot(s, r).check) ==> Bracketed(b, v, Slot(s, r))
        ensures Passes(b, v) ==> Bracketed(b, v, Slot(s, r))
      {
        BracketedAnywhere(b, s.counters[c].value, v, Slot(s, r));
      }
    }
  }

  lemma SameArmed(s: State, s1: State)
    requires s1.alarms == s.alarms && s1.awaits == s.awaits
    ensures forall r :: Live(s1, r) == Live(s, r) && Armed(s1, r) == Armed(s, r) && Silent(s1, r) == Silent(s, r)
    ensures forall r :: Live(s, r) ==> Slot(s1, r) == Slot(s, r)
  {
  }

  lemma BracketedAnywhere(b: SysInfo, value: Int64, v: Int64, t: Trigger)
    requires Bracketed(b, value, t)
    ensures IsComparison(t.check) || Passes(b, v) ==> Bracketed(b, v, t)
  {
  }

  // ---------- QueryCounter ----------

  lemma QueryStores(s: State, c: XID, clock: map<XID, Int64>)
    requires IsSystem(s, c)
    ensures QueryValue(s, c, clock) == UpdateCounter(s, c, Asked(s, c, clock))
  {
    assert s.counters[c := s.counters[c]] == s.counters;
  }

  /** QueryCounter stores the driver's answer. */
  lemma QueryCovered(s: State, c: XID, clock: map<XID, Int64>)
    requires ListInv(s) && Coherent(s) && Unrestrained(s, c)
    ensures var s1, b, v := Step(s, QueryCounter(c, clock)).1, s.counters[c].sys.value, Asked(s, c, clock);
      && Unrestrained(s1, c) && s1.counters[c] == s.counters[c].(value := v)
      && (LazySound(s1, c) <==> NoneMissedAt(s, c, b, v))
      && (Covered(s, c, b) ==> (Covered(s1, c, b) <==> TransitionsAt(s, c, b, v)))
      && (Covered(s, c, b) && Passes(b, v) ==> Covered(s1, c, b))
  {
    QueryStores(s, c, clock);
    hide ListInv, Coherent, LazySound, NoneMissedAt, TransitionsAt, Covered, Passes, QueryValue;
    StoredExactly(s, c, Asked(s, c, clock));
  }

  // ---------- Refused by SyncInitTrigger ----------

  /** A refused CreateAlarm leaves everything as it was but, if it came as far as SyncInitTrigger, the value. */
  lemma RefusedCreate(s: State, client: Client, a: XID, attrs: AlarmAttributes, clock: map<XID, Int64>)
    requires CreateAlarm(s, client, a, attrs, clock).0 != Success
    ensures CreateAlarm(s, client, a, attrs, clock).1 ==
      if !InUse(s, a) && CheckAttributes(NewAlarm(client), attrs) == Success
      then QueryValue(s, Get(attrs.counter, NONE), clock) else s
  {
    if !InUse(s, a) {
      hide CheckAttributes, CreateFinished, ChangeAlarmAttributes, QueryValue, RefusedAlarmOf, NewAlarm, InUse;
      var s0, c := SetAlarm(s, a, NewAlarm(client)), Get(attrs.counter, NONE);
      if CheckAttributes(NewAlarm(client), attrs) == Success {
        RefusedAttributes(s0, client, a, attrs, clock);
        QueryFields(s, s0, c, clock);
        QueryFields(s, s, c, clock);
        NewAlarmGone(s, a, NewAlarm(client), RefusedAlarmOf(s0, client, a, attrs, clock));
      } else {
        BadAttributes(s0, client, a, attrs, clock);
        NewAlarmGone(s, a, NewAlarm(client), ChangeAlarmAttributes(s0, client, a, attrs, clock).1.alarms[a]);
      }
    }
  }

  lemma NewAlarmGone(s: State, a: XID, al: Alarm, al': Alarm)
    requires a !in s.alarms
    ensures SetAlarm(s, a, al).alarms[a := al'] - {a} == s.alarms
  {
  }

  /** A change refused before SyncInitTrigger at most selects events. */
  lemma BadAttributes(s: State, client: Client, a: XID, attrs: AlarmAttributes, clock: map<XID, Int64>)
    requires a in s.alarms && CheckAttributes(s.alarms[a], attrs) != Success
    ensures var (rc, s1) := ChangeAlarmAttributes(s, client, a, attrs, clock);
      rc != Success && a in s1.alarms && s1 == s.(alarms := s.alarms[a := s1.alarms[a]])
  {
    hide CheckAttributes, EventSelect, InitTrigger;
    assert s.alarms[a := s.alarms[a]] == s.alarms;
  }

  /** The alarm as a refused change leaves it. */
  function RefusedAlarmOf(s: State, client: Client, a: XID, attrs: AlarmAttributes, clock: map<XID, Int64>): Alarm
    requires a in s.alarms
  {
    var al := PreparedAlarm(s.alarms[a], client, attrs);
    al.(trigger := al.trigger.(testValue :=
      RefusedTest(s, al.trigger, Get(attrs.counter, al.trigger.sync), ChangesOf(attrs), clock)))
  }

  lemma RefusedAttributes(s: State, client: Client, a: XID, attrs: AlarmAttributes, clock: map<XID, Int64>)
    requires a in s.alarms && CheckAttributes(s.alarms[a], attrs) == Success
    requires ChangeAlarmAttributes(s, client, a, attrs, clock).0 != Success
    ensures ChangeAlarmAttributes(s, client, a, attrs, clock).1 ==
      s.(counters := QueryValue(s, Get(attrs.counter, s.alarms[a].trigger.sync), clock).counters,
         alarms := s.alarms[a := RefusedAlarmOf(s, client, a, attrs, clock)])
  {
    hide ChangeAlarmAttributes, CheckAttributes, InitTrigger, PreparedAlarm, RefusedTest, QueryValue;
    var al1 := PreparedAlarm(s.alarms[a], client, attrs);
    var s1, c := SetAlarm(s, a, al1), Get(attrs.counter, s.alarms[a].trigger.sync);
    RefusedUnfold(s, client, a, attrs, clock);
    RefusedInit(s1, AlarmTrigger(a), c, ChangesOf(attrs), clock);
    RefusedTestFrame(s, s1, al1.trigger, c, ChangesOf(attrs), clock);
    QueryFields(s, s1, c, clock);
  }

  lemma QueryFields(s: State, s1: State, c: XID, clock: map<XID, Int64>)
    requires s1.counters == s.counters
    ensures QueryValue(s1, c, clock) == s1.(counters := QueryValue(s, c, clock).counters)
  {
  }

  lemma RefusedUnfold(s: State, client: Client, a: XID, attrs: AlarmAttributes, clock: map<XID, Int64>)
    requires a in s.alarms && CheckAttributes(s.alarms[a], attrs) == Success
    requires ChangeAlarmAttributes(s, client, a, attrs, clock).0 != Success
    ensures var s1 := SetAlarm(s, a, PreparedAlarm(s.alarms[a], client, attrs));
      var (rc, s2) := InitTrigger(s1, AlarmTrigger(a), Get(attrs.counter, s.alarms[a].trigger.sync), ChangesOf(attrs), clock);
      rc != Success && ChangeAlarmAttributes(s, client, a, attrs, clock) == (rc, s2)
  {
    EventSelectTrigger(s.alarms[a], client, attrs.events);
    hide EventSelect, InitTrigger, CheckAttributes;
  }

  /** The value a counter has after a refused CreateAlarm that names it. */
  function CreateRefusedValue(s: State, client: Client, a: XID, attrs: AlarmAttributes, clock: map<XID, Int64>): Int64 {
    var c := Get(attrs.counter, NONE);
    if !InUse(s, a) && CheckAttributes(NewAlarm(client), attrs) == Success then Asked(s, c, clock) else ValueOf(s, c)
  }

  lemma CreateRefusedCovered(s: State, client: Client, a: XID, attrs: AlarmAttributes, clock: map<XID, Int64>)
    requires ListInv(s) && Coherent(s) && Unrestrained(s, Get(attrs.counter, NONE))
    requires CreateAlarm(s, client, a, attrs, clock).0 != Success
    ensures var c := Get(attrs.counter, NONE);
      var s1, b, v := CreateAlarm(s, client, a, attrs, clock).1, s.counters[c].sys.value,
                      CreateRefusedValue(s, client, a, attrs, clock);
      && Unrestrained(s1, c) && s1.counters[c] == s.counters[c].(value := v)
      && (LazySound(s1, c) <==> NoneMissedAt(s, c, b, v))
      && (Covered(s, c, b) ==> (Covered(s1, c, b) <==> TransitionsAt(s, c, b, v)))
      && (Covered(s, c, b) && Passes(b, v) ==> Covered(s1, c, b))
  {
    hide ListInv, Coherent, LazySound, NoneMissedAt, TransitionsAt, Covered, Passes, QueryValue, CreateAlarm, CheckAttributes;
    var c := Get(attrs.counter, NONE);
    RefusedCreate(s, client, a, attrs, clock);
    QueryStores(s, c, clock);
    StoredItself(s, c);
    StoredExactly(s, c, CreateRefusedValue(s, client, a, attrs, clock));
  }

  lemma StoredItself(s: State, c: XID)
    requires c in s.counters
    ensures UpdateCounter(s, c, s.counters[c].value) == s
  {
    assert s.counters[c := s.counters[c]] == s.counters;
  }

  /** The value a counter has after a ChangeAlarm that SyncInitTrigger refused. */
  function ChangeRefusedValue(s: State, a: XID, attrs: AlarmAttributes, clock: map<XID, Int64>, d: XID): Int64
    requires a in s.alarms
  {
    if d == Get(attrs.counter, s.alarms[a].trigger.sync) then Asked(s, d, clock) else ValueOf(s, d)
  }

  /** A ChangeAlarm that SyncInitTrigger refuses leaves any unrestricted system counter covered if and only if all other
    armed triggers there are bracketed at the value stored, and the alarm, if it is active there, with the test value
    left. When its test-type is the old one, the counter can be checked lazily if and only if nothing is missed. */
  lemma ChangeRefusedCovered(s: State, client: Client, a: XID, attrs: AlarmAttributes, clock: map<XID, Int64>, d: XID)
    requires ListInv(s) && Coherent(s) && a in s.alarms && Unrestrained(s, d)
    requires CheckAttributes(s.alarms[a], attrs) == Success && ChangeAlarm(s, client, a, attrs, clock).0 != Success
    ensures var s1, k := ChangeAlarm(s, client, a, attrs, clock).1, s.counters[d];
      var v, al := ChangeRefusedValue(s, a, attrs, clock, d), RefusedAlarmOf(s, client, a, attrs, clock);
      && Unrestrained(s1, d) && s1.counters[d] == k.(value := v) && s1.alarms == s.alarms[a := al] && s1.awaits == s.awaits
      && (Covered(s1, d, k.sys.value) <==>
          && (forall r :: r in k.triglist && r != AlarmTrigger(a) && Armed(s, r) ==> Bracketed(k.sys.value, v, Slot(s, r)))
          && (AlarmTrigger(a) in k.triglist && al.state == Active ==> Bracketed(k.sys.value, v, al.trigger)))
      && (HarmlessChange(s, ChangeAlarmReq(client, a, attrs, clock)) ==>
            (LazySound(s1, d) <==> NoneMissed(s1, d, k.sys.value)))
  {
    hide ChangeAlarm, ChangeAlarmAttributes, CheckAttributes, RefusedAlarmOf, Bracketed, ListInv, Coherent, LazySound,
         HarmlessChange, NoneMissed;
    var s1, k := ChangeAlarm(s, client, a, attrs, clock).1, s.counters[d];
    ChangeRefused(s, client, a, attrs, clock, d);
    if HarmlessChange(s, ChangeAlarmReq(client, a, attrs, clock)) {
      ChangeAlarmListInv(s, client, a, attrs, clock);
      RefusedCoherent(s, client, a, attrs, clock);
      LazySoundExactly(s1, d);
    }
    forall r | r != AlarmTrigger(a)
      ensures Armed(s1, r) == Armed(s, r) && (Armed(s, r) ==> Slot(s1, r) == Slot(s, r))
    {
    }
  }

  lemma ChangeRefused(s: State, client: Client, a: XID, attrs: AlarmAttributes, clock: map<XID, Int64>, d: XID)
    requires a in s.alarms && Unrestrained(s, d)
    requires CheckAttributes(s.alarms[a], attrs) == Success && ChangeAlarm(s, client, a, attrs, clock).0 != Success
    ensures var s1 := ChangeAlarm(s, client, a, attrs, clock).1;
      && Unrestrained(s1, d) && s1.counters[d] == s.counters[d].(value := ChangeRefusedValue(s, a, attrs, clock, d))
      && s1.alarms == s.alarms[a := RefusedAlarmOf(s, client, a, attrs, clock)] && s1.awaits == s.awaits
  {
    hide ChangeAlarmAttributes, CheckAttributes, RefusedAlarmOf;
    RefusedAttributes(s, client, a, attrs, clock);
  }

  /** A harmless refusal leaves check functions and test-types in agreement. */
  lemma RefusedCoherent(s: State, client: Client, a: XID, attrs: AlarmAttributes, clock: map<XID, Int64>)
    requires Coherent(s) && a in s.alarms && HarmlessChange(s, ChangeAlarmReq(client, a, attrs, clock))
    requires CheckAttributes(s.alarms[a], attrs) == Success && ChangeAlarm(s, client, a, attrs, clock).0 != Success
    ensures Coherent(ChangeAlarm(s, client, a, attrs, clock).1)
  {
    hide CheckAttributes, ChangeAlarmAttributes, HarmlessChange, RefusedTest, Typed, AwaitPlaced;
    ChangeAlarmTyped(s, client, a, attrs, clock);
    RefusedAttributes(s, client, a, attrs, clock);
    EventSelectTrigger(s.alarms[a], client, attrs.events);
    hide EventSelect;
  }

  /** A ChangeAlarm refused before SyncInitTrigger selects events at most, and leaves every counter covered or not as it
    was. */
  lemma ChangeBadCovered(s: State, client: Client, a: XID, attrs: AlarmAttributes, clock: map<XID, Int64>, d: XID)
    requires a in s.alarms && IsSystem(s, d) && CheckAttributes(s.alarms[a], attrs) != Success
    ensures var (rc, s1) := ChangeAlarm(s, client, a, attrs, clock);
      && rc != Success && s1.counters == s.counters && s1.awaits == s.awaits
      && (Covered(s1, d, s.counters[d].sys.value) <==> Covered(s, d, s.counters[d].sys.value))
  {
    var s1 := ChangeAlarm(s, client, a, attrs, clock).1;
    BadAlarm(s, client, a, attrs, clock);
    hide ChangeAlarm, ChangeAlarmAttributes, CheckAttributes, Bracketed;
    forall r
      ensures Armed(s1, r) == Armed(s, r) && (Armed(s, r) ==> Slot(s1, r) == Slot(s, r))
    {
    }
    hide Armed, Slot;
  }

  lemma BadAlarm(s: State, client: Client, a: XID, attrs: AlarmAttributes, clock: map<XID, Int64>)
    requires a in s.alarms && CheckAttributes(s.alarms[a], attrs) != Success
    ensures var (rc, s1) := ChangeAlarm(s, client, a, attrs, clock);
      && rc != Success && s1.counters == s.counters && s1.awaits == s.awaits && a in s1.alarms
      && s1.alarms == s.alarms[a := s1.alarms[a]]
      && s1.alarms[a].trigger == s.alarms[a].trigger && s1.alarms[a].state == s.alarms[a].state
  {
    EventSelectTrigger(s.alarms[a], client, attrs.events);
    BadAttributes(s, client, a, attrs, clock);
    hide CheckAttributes, EventSelect, InitTrigger, AlarmFired;
  }

  // ---------- Brackets set anew ----------

  /** The list guards every armed trigger on it. */
  ghost predicate GuardsAll(s: State, refs: seq<TriggerRef>, value: Int64) {
    forall r :: r in refs && Armed(s, r) ==> Guarded(s, refs, value, Slot(s, r))
  }

  /** What new brackets for a list of triggers that are as they were before mean. */
  ghost predicate AnewExactly(s: State, s': State, c: XID, refs: seq<TriggerRef>, value: Int64) {
    && Unrestrained(s', c) && s'.counters[c].triglist == refs && s'.counters[c].value == value
    && s'.counters[c].sys.value == BracketWalk(s, refs, value, RESET)
    && (Covered(s', c, s'.counters[c].sys.value) <==> GuardsAll(s, refs, value))
    && (LazySound(s', c) <==> GuardsAll(s, refs, value) || NoSkip(BracketWalk(s, refs, value, RESET)))
  }

  ghost predicate SameOn(s: State, s': State, refs: seq<TriggerRef>) {
    forall r :: r in refs ==>
      Live(s, r) && Live(s', r) && Slot(s', r) == Slot(s, r) && Armed(s', r) == Armed(s, r)
  }

  lemma FreshAnew(s: State, s': State, c: XID, refs: seq<TriggerRef>, value: Int64)
    requires ListInv(s') && Coherent(s') && Fresh(s', c) && SameOn(s, s', refs)
    requires s'.counters[c].triglist == refs && s'.counters[c].value == value
    ensures AnewExactly(s, s', c, refs, value)
  {
    SlotsWalk(s, s', refs, value, RESET);
    SlotsGuard(s, s', refs, value);
    hide BracketWalk, Guarded, Bracketed, LazySound, Covered, TransitionsCovered, ListInv, Coherent, NoSkip;
    ListInvLinked(s');
    FreshCoveredExactly(s', c);
    BracketedSoundExactly(s', c);
  }

  lemma SlotsGuard(s: State, s': State, refs: seq<TriggerRef>, value: Int64)
    requires SameOn(s, s', refs)
    ensures GuardsAll(s', refs, value) == GuardsAll(s, refs, value)
    ensures GuardsAll(s', refs, value) <==> forall r :: r in refs && Armed(s', r) ==> Guarded(s', refs, value, Slot(s', r))
  {
    hide SetsAbove, SetsBelow, Armed, Live, Slot;
    forall t: Trigger
      ensures Guarded(s', refs, value, t) == Guarded(s, refs, value, t)
    {
      GuardedOn(s, s', refs, value, t);
      GuardedOn(s', s, refs, value, t);
    }
    hide Guarded;
  }

  lemma GuardedOn(s: State, s': State, refs: seq<TriggerRef>, value: Int64, t: Trigger)
    requires forall r :: r in refs ==> Live(s, r) && Live(s', r) && Slot(s', r) == Slot(s, r)
    ensures Guarded(s, refs, value, t) ==> Guarded(s', refs, value, t)
  {
    hide SetsAbove, SetsBelow, Live, Slot;
  }

  // ---------- DestroyAlarm ----------

  lemma FreeAlarmFresh(s: State, a: XID)
    requires ListInv(s) && a in s.alarms && Unrestrained(s, s.alarms[a].trigger.sync)
    ensures var s', c := FreeAlarm(s, a), s.alarms[a].trigger.sync;
      && Fresh(s', c) && s'.counters[c].value == s.counters[c].value
      && s'.counters[c].triglist == RemoveFirst(s.counters[c].triglist, AlarmTrigger(a))
      && SameOn(s, s', s'.counters[c].triglist)
  {
    var c, r0 := s.alarms[a].trigger.sync, AlarmTrigger(a);
    var refs := RemoveFirst(s.counters[c].triglist, r0);
    hide Fresh, RemoveFirst, DeleteTrigger, ListInv, SameOn, Unrestrained;
    var s1 := AlarmToldGone(s, a);
    DeletedFresh(s1, r0);
    DeleteTriggerFrame(s1, r0);
    var s3, s' := DeleteTrigger(s1, r0), FreeAlarm(s, a);
    ListedElse(s, c, r0);
    AlarmGoneSame(s, s', a, refs);
    AlarmGoneSame(s3, s', a, refs);
    FreshStays(s3, s', c);
  }

  lemma AlarmToldGone(s: State, a: XID) returns (s1: State)
    requires a in s.alarms
    ensures s1 == SendAlarmNotify(SetAlarm(s, a, s.alarms[a].(state := Destroyed)), a)
    ensures s1.counters == s.counters && s1.awaits == s.awaits && s1.alarms == s.alarms[a := s.alarms[a].(state := Destroyed)]
    ensures Unrestrained(s, s.alarms[a].trigger.sync) ==> Unrestrained(s1, s.alarms[a].trigger.sync)
  {
    hide AlarmEvents;
    s1 := SendAlarmNotify(SetAlarm(s, a, s.alarms[a].(state := Destroyed)), a);
  }

  lemma DeletedFresh(s: State, r: TriggerRef)
    requires Live(s, r) && Unrestrained(s, Slot(s, r).sync)
    ensures Fresh(DeleteTrigger(s, r), Slot(s, r).sync)
  {
    var c := Slot(s, r).sync;
    ComputedFresh(SetCounter(s, c, s.counters[c].(triglist := RemoveFirst(s.counters[c].triglist, r))), c);
    hide ComputeBrackets, Fresh;
  }

  /** Triggers that stay on the list when `r` is taken off. */
  lemma ListedElse(s: State, c: XID, r: TriggerRef)
    requires ListInv(s) && c in s.counters
    ensures forall q :: q in RemoveFirst(s.counters[c].triglist, r) ==> Live(s, q) && q != r
  {
    ListInvLinked(s);
    LinkedLive(s, {}, c);
    RemoveFirstMembers(s.counters[c].triglist, r);
    hide LinkedExcept;
  }

  lemma AlarmGoneSame(s: State, s': State, a: XID, refs: seq<TriggerRef>)
    requires forall q :: q in refs ==> Live(s, q) && q != AlarmTrigger(a)
    requires s'.awaits == s.awaits && s'.alarms == s.alarms - {a}
    ensures SameOn(s, s', refs)
  {
  }

  lemma AwaitGoneSame(s: State, s': State, w: XID, refs: seq<TriggerRef>)
    requires forall q :: q in refs ==> Live(s, q) && (q.AwaitTrigger? ==> q.await != w)
    requires s'.alarms == s.alarms && s'.awaits == s.awaits - {w}
    ensures SameOn(s, s', refs)
  {
  }

  lemma FreshStays(s: State, s': State, c: XID)
    requires Fresh(s, c) && c in s'.counters && s'.counters[c] == s.counters[c] && SameOn(s, s', s.counters[c].triglist)
    ensures Fresh(s', c)
  {
    SlotsWalk(s, s', s.counters[c].triglist, s.counters[c].value, RESET);
    hide BracketWalk;
  }

  /** DestroyAlarm sets the brackets for the value stored, at which an alarm there may hold that has not been checked. */
  lemma DestroyAlarmCovered(s: State, a: XID)
    requires ListInv(s) && Coherent(s) && a in s.alarms && Unrestrained(s, s.alarms[a].trigger.sync)
    ensures var s', c := Step(s, DestroyAlarm(a)).1, s.alarms[a].trigger.sync;
      AnewExactly(s, s', c, RemoveFirst(s.counters[c].triglist, AlarmTrigger(a)), s.counters[c].value)
  {
    hide FreeAlarm, ListInv, Fresh, Typed, AnewExactly, SameOn, RemoveFirst;
    var c := s.alarms[a].trigger.sync;
    FreeAlarmFresh(s, a);
    FreeAlarmListInv(s, a);
    FreeAlarmTyped(s, a);
    FreeAlarmPlaced(s, a);
    FreshAnew(s, FreeAlarm(s, a), c, RemoveFirst(s.counters[c].triglist, AlarmTrigger(a)), s.counters[c].value);
  }

  lemma FreeAlarmPlaced(s: State, a: XID)
    requires Placed(s) && a in s.alarms
    ensures Placed(FreeAlarm(s, a))
  {
    hide FreeAlarm, CounterFrame;
    FreeAlarmFrame(s, a);
  }

  // ---------- Freeing an Await ----------

  lemma FreedFresh(s: State, w: XID, p: nat)
    requires ListInv(s) && w in s.awaits && p < |s.awaits[w].conditions|
    requires Unrestrained(s, s.awaits[w].conditions[p].trigger.sync)
    ensures var s', c, r := FreeAwait(s, w), s.awaits[w].conditions[p].trigger.sync, AwaitTrigger(w, p);
      && Fresh(s', c) && s'.counters[c].value == s.counters[c].value
      && s'.counters[c].triglist == RemoveFirst(s.counters[c].triglist, r)
      && SameOn(s, s', s'.counters[c].triglist)
  {
    var c, r := s.awaits[w].conditions[p].trigger.sync, AwaitTrigger(w, p);
    var s', refs := FreeAwait(s, w), RemoveFirst(s.counters[c].triglist, r);
    hide UnlinkFrom, Fresh, ListInv, LinkedExcept, RemoveFirst, SameOn, Unrestrained;
    ListInvLinked(s);
    SettledNotDying(s, w);
    UnrestrainedIn(s, c);
    NotDying(s, w, c);
    UnlinkedFresh(s, w, 0, p);
    UnlinkFromLinked(s, w, 0, {});
    var s2 := UnlinkFrom(s, w, 0);
    UnlinkFromFrame(s, w, 0);
    NotOfAwait(s2, AwaitRefs(s, w), w, c);
    AwaitGoneSame(s2, s', w, refs);
    ListedElse(s, c, r);
    AwaitGoneSame(s, s', w, refs);
    FreshStays(s2, s', c);
  }

  lemma NotOfAwait(s: State, off: set<TriggerRef>, w: XID, c: XID)
    requires c in s.counters && w in s.awaits && off == AwaitRefs(s, w) && LinkedExcept(s, off)
    ensures forall q :: q in s.counters[c].triglist ==> Live(s, q) && (q.AwaitTrigger? ==> q.await != w)
  {
    LinkedLive(s, off, c);
    hide LinkedExcept;
    assert forall i :: 0 <= i < |s.awaits[w].conditions| ==> AwaitTrigger(w, i) in off;
  }

  lemma NotDying(s: State, w: XID, c: XID)
    requires ListInv(s) && w in s.awaits && c in s.counters
    ensures !s.counters[c].beingDestroyed && DistinctConditions(s.awaits[w])
  {
  }

  lemma {:induction false} UnlinkedFresh(s: State, w: XID, i: nat, p: nat)
    requires w in s.awaits && i <= p < |s.awaits[w].conditions| && DistinctConditions(s.awaits[w])
    requires var c := s.awaits[w].conditions[p].trigger.sync; Unrestrained(s, c) && !s.counters[c].beingDestroyed
    ensures var s', c := UnlinkFrom(s, w, i), s.awaits[w].conditions[p].trigger.sync;
      && Fresh(s', c) && s'.counters[c].value == s.counters[c].value
      && s'.counters[c].triglist == RemoveFirst(s.counters[c].triglist, AwaitTrigger(w, p))
    decreases p - i
  {
    var c := s.awaits[w].conditions[p].trigger.sync;
    var d := s.awaits[w].conditions[i].trigger.sync;
    var s1 := if BeingDestroyed(s, d) then s else DeleteTrigger(s, AwaitTrigger(w, i));
    DeleteTriggerFrame(s, AwaitTrigger(w, i));
    if i < p {
      assert d != c;
      hide DeleteTrigger, Fresh;
      UnlinkedFresh(s1, w, i + 1, p);
    } else {
      var r := AwaitTrigger(w, p);
      var rest := RemoveFirst(s.counters[c].triglist, r);
      assert s1 == ComputeBrackets(SetCounter(s, c, s.counters[c].(triglist := rest)), c);
      ComputedFresh(SetCounter(s, c, s.counters[c].(triglist := rest)), c);
      hide DeleteTrigger, ComputeBrackets, BracketWalk;
      UnlinkOther(s1, w, i + 1, c);
      GuardedSlots(s1, UnlinkFrom(s1, w, i + 1), rest, s1.counters[c].value, Slot(s, r));
    }
  }

  /** Freeing an Await, as when its client dies, does the same on the counter of each of its conditions. */
  lemma FreeAwaitCovered(s: State, w: XID, p: nat)
    requires ListInv(s) && Coherent(s) && w in s.awaits && p < |s.awaits[w].conditions|
    requires Unrestrained(s, s.awaits[w].conditions[p].trigger.sync)
    ensures var s', c := Step(s, FreeAwaitResource(w)).1, s.awaits[w].conditions[p].trigger.sync;
      AnewExactly(s, s', c, RemoveFirst(s.counters[c].triglist, AwaitTrigger(w, p)), s.counters[c].value)
  {
    hide FreeAwait, ListInv, Fresh, AnewExactly, SameOn, RemoveFirst, AwaitFired;
    var c := s.awaits[w].conditions[p].trigger.sync;
    FreedFresh(s, w, p);
    AwaitFiredListInv(s, w);
    FreeAwaitFrame(s, w);
    FreedCoherent(s, FreeAwait(s, w), w);
    FreshAnew(s, FreeAwait(s, w), c, RemoveFirst(s.counters[c].triglist, AwaitTrigger(w, p)), s.counters[c].value);
  }

  lemma FreedCoherent(s: State, s': State, w: XID)
    requires Coherent(s) && s'.alarms == s.alarms && s'.awaits == s.awaits - {w}
    ensures Coherent(s')
  {
    hide AlarmTyped, AwaitTyped, AlarmPlaced, AwaitPlaced;
  }

  // ---------- The counter an alarm is moved away from ----------

  lemma RelinkAway(s: State, r: TriggerRef, pSync: XID)
    requires Linked(s) && Live(s, r) && Unrestrained(s, Slot(s, r).sync) && pSync != Slot(s, r).sync
    ensures var s', c := Relink(s, r, pSync), Slot(s, r).sync;
      && Fresh(s', c) && s'.counters[c].value == s.counters[c].value
      && s'.counters[c].triglist == RemoveFirst(s.counters[c].triglist, r)
      && SameOn(s, s', s'.counters[c].triglist) && r !in s'.counters[c].triglist
  {
    var c := Slot(s, r).sync;
    var k := s.counters[c];
    var refs := RemoveFirst(k.triglist, r);
    LinkedLive(s, {}, c);
    RemoveFirstMembers(k.triglist, r);
    hide LinkedExcept;
    var s1 := DeleteTrigger(s, r);
    assert s1 == ComputeBrackets(SetCounter(s, c, k.(triglist := refs)), c);
    ComputedFresh(SetCounter(s, c, k.(triglist := refs)), c);
    DeleteTriggerFrame(s, r);
    hide DeleteTrigger, ComputeBrackets, Fresh;
    var t := Slot(s, r).(sync := pSync);
    var s2 := SetSlot(s1, r, t);
    var s' := Relink(s, r, pSync);
    SetSlotFrame(s1, r, t);
    AddTriggerFrame(s2, r);
    AddedElsewhere(s2, r, c);
    hide AddTrigger, Relink;
    forall q | q in refs
      ensures Live(s, q) && Live(s', q) && Slot(s', q) == Slot(s, q) && Armed(s', q) == Armed(s, q)
      ensures Live(s1, q) && Slot(s1, q) == Slot(s, q) && Armed(s1, q) == Armed(s, q)
    {
      SlotElsewhere(s1, s', r, t, q);
    }
    FreshStays(s1, s', c);
  }

  lemma AddedElsewhere(s: State, r: TriggerRef, c: XID)
    requires Live(s, r) && c in s.counters && Slot(s, r).sync != c
    ensures AddTrigger(s, r).counters[c] == s.counters[c]
  {
    hide BracketWalk;
  }

  lemma InitAway(s: State, r: TriggerRef, syncObject: XID, ch: Changes, clock: map<XID, Int64>)
    requires Linked(s) && Live(s, r) && Unrestrained(s, Slot(s, r).sync) && ch.counter && syncObject != Slot(s, r).sync
    requires InitTrigger(s, r, syncObject, ch, clock).0 == Success
    ensures var s', c := InitTrigger(s, r, syncObject, ch, clock).1, Slot(s, r).sync;
      && Fresh(s', c) && s'.counters[c].value == s.counters[c].value
      && s'.counters[c].triglist == RemoveFirst(s.counters[c].triglist, r)
      && SameOn(s, s', s'.counters[c].triglist) && r !in s'.counters[c].triglist
  {
    hide InitTrigger, QueryValue, AcceptedTrigger, Relink, Fresh, LinkedExcept, SetSlot, RemoveFirst, SameLinks;
    var c := Slot(s, r).sync;
    var s1 := QueryValue(s, syncObject, clock);
    var t := AcceptedTrigger(s, Slot(s, r), syncObject, ch, clock).(sync := c);
    InitUnfold(s, r, syncObject, ch, clock);
    QueriedOther(s, syncObject, clock, c);
    QueryValueSameLinks(s, syncObject, clock);
    SetSlotFrame(s1, r, t);
    var s2 := SetSlot(s1, r, t);
    StoredLinks(s, s1, s2, r, t);
    SameLinksLinked(s, s2, {});
    RelinkAway(s2, r, syncObject);
    var s' := Relink(s2, r, syncObject);
    SetSlotParts(s, s1, r, t);
    forall q | q in s'.counters[c].triglist
      ensures Live(s, q) && Live(s', q) && Slot(s', q) == Slot(s, q) && Armed(s', q) == Armed(s, q)
    {
      ListedBefore(s, c, r, q);
      SlotElsewhere(s, s2, r, t, q);
    }
  }

  lemma ListedBefore(s: State, c: XID, r: TriggerRef, q: TriggerRef)
    requires Linked(s) && c in s.counters && q in RemoveFirst(s.counters[c].triglist, r)
    ensures Live(s, q) && q != r
  {
    LinkedLive(s, {}, c);
    RemoveFirstMembers(s.counters[c].triglist, r);
  }

  lemma QueriedOther(s: State, d: XID, clock: map<XID, Int64>, c: XID)
    requires c in s.counters && c != d
    ensures QueryValue(s, d, clock).counters[c] == s.counters[c]
    ensures QueryValue(s, d, clock).alarms == s.alarms && QueryValue(s, d, clock).awaits == s.awaits
  {
  }

  lemma StoredLinks(s: State, s1: State, s2: State, r: TriggerRef, t: Trigger)
    requires Live(s, r) && Live(s1, r) && s2 == SetSlot(s1, r, t) && SameLinks(s, s1) && t.sync == Slot(s, r).sync
    ensures SameLinks(s, s2)
  {
    SetSlotFrame(s1, r, t);
    hide SetSlot;
  }

  lemma MovedFresh(s: State, client: Client, a: XID, attrs: AlarmAttributes, clock: map<XID, Int64>)
    requires ListInv(s) && a in s.alarms && Unrestrained(s, s.alarms[a].trigger.sync)
    requires attrs.counter.Some? && attrs.counter.value != s.alarms[a].trigger.sync
    requires ChangeAlarm(s, client, a, attrs, clock).0 == Success
    ensures var s', c := ChangeAlarm(s, client, a, attrs, clock).1, s.alarms[a].trigger.sync;
      && Fresh(s', c) && s'.counters[c].value == s.counters[c].value
      && s'.counters[c].triglist == RemoveFirst(s.counters[c].triglist, AlarmTrigger(a))
      && SameOn(s, s', s'.counters[c].triglist)
  {
    hide ChangeAlarmAttributes, InitTrigger, Fresh, ListInv, PreparedAlarm, RemoveFirst, AlarmFired;
    var c, r := s.alarms[a].trigger.sync, AlarmTrigger(a);
    var al1 := PreparedAlarm(s.alarms[a], client, attrs);
    var s1 := SetAlarm(s, a, al1);
    AttributesUnfold(s, client, a, attrs, clock);
    SetAlarmListInv(s, a, al1);
    ListInvLinked(s1);
    InitAway(s1, r, attrs.counter.value, ChangesOf(attrs), clock);
    var s2 := InitTrigger(s1, r, attrs.counter.value, ChangesOf(attrs), clock).1;
    var s3 := ChangeAlarmAttributes(s, client, a, attrs, clock).1;
    var s' := ChangeAlarm(s, client, a, attrs, clock).1;
    AlarmFiredShape(s3, a);
    assert s'.counters == s2.counters && s'.awaits == s2.awaits;
    var refs := s2.counters[c].triglist;
    forall q | q in refs
      ensures Live(s, q) && Live(s', q) && Slot(s', q) == Slot(s, q) && Armed(s', q) == Armed(s, q)
      ensures Live(s2, q) && Slot(s', q) == Slot(s2, q) && Armed(s', q) == Armed(s2, q)
    {
      assert q != r;
    }
    FreshStays(s2, s', c);
  }

  /** A ChangeAlarm that moves an alarm away does the same on the counter it leaves. */
  lemma MovedCovered(s: State, client: Client, a: XID, attrs: AlarmAttributes, clock: map<XID, Int64>)
    requires ListInv(s) && Coherent(s) && a in s.alarms && Unrestrained(s, s.alarms[a].trigger.sync)
    requires attrs.counter.Some? && attrs.counter.value != s.alarms[a].trigger.sync
    requires ChangeAlarm(s, client, a, attrs, clock).0 == Success
    ensures var s', c := ChangeAlarm(s, client, a, attrs, clock).1, s.alarms[a].trigger.sync;
      AnewExactly(s, s', c, RemoveFirst(s.counters[c].triglist, AlarmTrigger(a)), s.counters[c].value)
  {
    var c := s.alarms[a].trigger.sync;
    ChangedCoherent(s, client, a, attrs, clock);
    hide ChangeAlarm, ListInv, Fresh, Coherent, AnewExactly, SameOn, RemoveFirst;
    MovedFresh(s, client, a, attrs, clock);
    ChangeAlarmListInv(s, client, a, attrs, clock);
    FreshAnew(s, ChangeAlarm(s, client, a, attrs, clock).1, c, RemoveFirst(s.counters[c].triglist, AlarmTrigger(a)),
              s.counters[c].value);
  }

  lemma ChangedCoherent(s: State, client: Client, a: XID, attrs: AlarmAttributes, clock: map<XID, Int64>)
    requires ListInv(s) && Coherent(s) && a in s.alarms && ChangeAlarm(s, client, a, attrs, clock).0 == Success
    ensures Coherent(ChangeAlarm(s, client, a, attrs, clock).1)
  {
    hide ChangeAlarmAttributes, ListInv, Typed, AlarmFired, AwaitPlaced;
    var s1 := ChangeAlarmAttributes(s, client, a, attrs, clock).1;
    AcceptedTyped(s, client, a, attrs, clock);
    FiredTyped(s1, a);
    AttributesAwaits(s, client, a, attrs, clock);
    AttributesTypes(s, client, a, attrs, clock);
    ChangeAttributesActive(s, client, a, attrs, clock);
    ChangeAlarmAttributesListInv(s, client, a, attrs, clock);
    ListedSync(s1, a);
    AlarmFiredShape(s1, a);
    AlarmFiredQuiet(s1, a);
  }

  lemma ListedSync(s: State, a: XID)
    requires ListInv(s) && a in s.alarms
    ensures s.alarms[a].trigger.sync == NONE || s.alarms[a].trigger.sync in s.counters
  {
    if s.alarms[a].trigger.sync != NONE { assert OnItsList(s, AlarmTrigger(a)); }
  }

  // ---------- Inputs on which coverage is lost ----------

  /** A counter last looked at when it stood at 10, and an alarm for the transition below 20. */
  const BELOW_20 := State(
    map[1 := Counter(10, [AlarmTrigger(2)], false, Some(SysInfo(Unrestricted, INT64_MIN, 20, false, true)))],
    map[2 := NewAlarm(0).(trigger := Trigger(1, ABSOLUTE, 20, NEGATIVE_TRANSITION, NegTransition, 20), delta := -1, state := Active)],
    map[], {}, [])

  /** The same with 30 stored. */
  const ABOVE_20 := BELOW_20.(counters := map[1 := BELOW_20.counters[1].(value := 30)])

  /** A CreateAlarm with a value-type that does not exist. */
  const NO_SUCH_TYPE := AlarmAttributes(Some(1), Some(7), None, None, None, None, false)

  /** QueryCounter, and a CreateAlarm that is refused, store the answer 30. */
  lemma ThirtyStored()
    ensures Step(BELOW_20, QueryCounter(1, map[1 := 30])) == (Success, ABOVE_20)
    ensures Step(BELOW_20, CreateAlarmReq(0, 3, NO_SUCH_TYPE, map[1 := 30])) == (BadValue, ABOVE_20)
  {
    var r := AlarmTrigger(3);
    assert QueryValue(BELOW_20, 1, map[1 := 30]) == ABOVE_20;
    var s0 := SetAlarm(BELOW_20, 3, NewAlarm(0));
    var al := NewAlarm(0).(trigger := NEW_TRIGGER.(valueType := 7));
    var s1 := SetAlarm(s0, 3, al);
    assert InitChecks(s1, r, 1, ChangesOf(NO_SUCH_TYPE), map[1 := 30]) == (BadValue, QueryValue(s1, 1, map[1 := 30]));
    assert CheckAttributes(NewAlarm(0), NO_SUCH_TYPE) == Success;
    hide InitChecks, Relink;
    assert ChangeAlarmAttributes(s0, 0, 3, NO_SUCH_TYPE, map[1 := 30]) == (BadValue, QueryValue(s1, 1, map[1 := 30]));
    assert QueryValue(s1, 1, map[1 := 30]).alarms - {3} == BELOW_20.alarms;
  }

  /** At idle time 15 the handler then passes over the alarm: the counter came from 30, but its brackets are those for 10. */
  lemma StoredIsNotCovered()
    ensures Covered(BELOW_20, 1, BELOW_20.counters[1].sys.value) && !Covered(ABOVE_20, 1, ABOVE_20.counters[1].sys.value)
    ensures IdleWakeup(ABOVE_20, 1, false, 15).out == ABOVE_20.out
    ensures ChangeCounter(ABOVE_20, 1, 15).out == ABOVE_20.out + [AlarmNotify(0, 2, 20, 15, Active)]
  {
    var s, r := ABOVE_20, AlarmTrigger(2);
    assert r in s.counters[1].triglist && Armed(s, r) && !Bracketed(s.counters[1].sys.value, 30, Slot(s, r));
    var s1 := UpdateCounter(s, 1, 15);
    assert Rearm(NegTransition, 20, -1, 15) == Some(19);
    assert AlarmEvents([0], 2, 20, 15, Active) == [AlarmNotify(0, 2, 20, 15, Active)];
    assert [0] + [] == [0];
    var s2 := AlarmFired(s1, 2);
    assert s2.out == s.out + [AlarmNotify(0, 2, 20, 15, Active)];
    assert [r][1..] == [] && Check(s1, Slot(s1, r), 30);
    hide AlarmFired;
    assert TriggerWalk(s1, [r], 30) == TriggerWalk(s2, [], 30);
    ComputeBracketsFrame(s2, 1);
  }

  /** So it can be told from checking every trigger. */
  lemma StoredIsNotSound()
    ensures !LazySound(ABOVE_20, 1)
  {
    var r := AlarmTrigger(2);
    var us := [Wakeup(false, 15)];
    StoredIsNotCovered();
    hide Covered, ChangeCounter, IdleWakeup;
    OneWakeup(ABOVE_20, 1, 15);
    hide EagerRun, LazyRun;
    assert InRange(us);
    assert !SameOutside(EagerRun(ABOVE_20, 1, us), LazyRun(ABOVE_20, 1, us), 1);
  }

  /** Two alarms on a counter at 10, due at 25 and at 40. */
  const TWO_DUE := State(
    map[1 := Counter(10, [AlarmTrigger(3), AlarmTrigger(2)], false, Some(SysInfo(Unrestricted, INT64_MIN, 25, false, true)))],
    map[2 := NewAlarm(0).(trigger := NEW_TRIGGER.(sync := 1, waitValue := 25, testValue := 25), delta := 25, state := Active),
        3 := NewAlarm(0).(trigger := NEW_TRIGGER.(sync := 1, waitValue := 40, testValue := 40), state := Active)],
    map[], {}, [])

  /** The second is destroyed when the stored value is 30: the brackets are set for 30, as if the first had been checked. */
  const ONE_LOST := State(
    map[1 := Counter(30, [AlarmTrigger(2)], false, Some(SysInfo(Unrestricted, 25, INT64_MAX, true, false)))],
    map[2 := TWO_DUE.alarms[2]], map[], {}, [AlarmNotify(0, 3, 40, 30, Destroyed)])

  lemma OneLostReached()
    ensures var s1 := Step(TWO_DUE, QueryCounter(1, map[1 := 30])).1;
      && s1.counters[1] == TWO_DUE.counters[1].(value := 30) && Covered(s1, 1, s1.counters[1].sys.value)
      && Step(s1, DestroyAlarm(3)) == (Success, ONE_LOST)
  {
    var s1 := QueryValue(TWO_DUE, 1, map[1 := 30]);
    var s2 := SetAlarm(s1, 3, s1.alarms[3].(state := Destroyed));
    assert AlarmEvents([0], 3, 40, 30, Destroyed) == [AlarmNotify(0, 3, 40, 30, Destroyed)];
    assert [0] + [] == [0];
    var s3 := SendAlarmNotify(s2, 3);
    assert s3 == Emit(s2, [AlarmNotify(0, 3, 40, 30, Destroyed)]);
    var refs := [AlarmTrigger(2)];
    assert [AlarmTrigger(3), AlarmTrigger(2)][1..] == refs;
    assert RemoveFirst([AlarmTrigger(3), AlarmTrigger(2)], AlarmTrigger(3)) == refs;
    var s4 := SetCounter(s3, 1, s3.counters[1].(triglist := refs));
    assert DeleteTrigger(s3, AlarmTrigger(3)) == ComputeBrackets(s4, 1);
    assert BracketStep(RESET, 30, Slot(s4, AlarmTrigger(2))) == SysInfo(Unrestricted, 25, INT64_MAX, true, false);
    assert refs[1..] == [];
    assert BracketWalk(s4, refs, 30, RESET) == SysInfo(Unrestricted, 25, INT64_MAX, true, false);
    var s5 := ComputeBrackets(s4, 1);
    assert s5.counters == ONE_LOST.counters;
    assert s5.alarms - {3} == ONE_LOST.alarms;
    assert [] + [AlarmNotify(0, 3, 40, 30, Destroyed)] == [AlarmNotify(0, 3, 40, 30, Destroyed)];
    hide SendAlarmNotify, DeleteTrigger;
    assert s5.out == ONE_LOST.out;
    assert FreeAlarm(s1, 3) == s5.(alarms := s5.alarms - {3});
    assert FreeAlarm(s1, 3) == ONE_LOST;
  }

  /** At idle time 31 the handler passes over the alarm that was due at 25. */
  lemma DestroyIsNotCovered()
    ensures !Covered(ONE_LOST, 1, ONE_LOST.counters[1].sys.value)
    ensures IdleWakeup(ONE_LOST, 1, false, 31).out == ONE_LOST.out
    ensures ChangeCounter(ONE_LOST, 1, 31).out == ONE_LOST.out + [AlarmNotify(0, 2, 25, 31, Active)]
  {
    var s, r := ONE_LOST, AlarmTrigger(2);
    assert r in s.counters[1].triglist && Armed(s, r) && !Bracketed(s.counters[1].sys.value, 30, Slot(s, r));
    var s1 := UpdateCounter(s, 1, 31);
    assert Rearm(PosComparison, 25, 25, 31) == Some(50);
    assert AlarmEvents([0], 2, 25, 31, Active) == [AlarmNotify(0, 2, 25, 31, Active)];
    assert [0] + [] == [0];
    var s2 := AlarmFired(s1, 2);
    assert s2.out == s.out + [AlarmNotify(0, 2, 25, 31, Active)];
    assert [r][1..] == [] && Check(s1, Slot(s1, r), 30);
    hide AlarmFired;
    assert TriggerWalk(s1, [r], 30) == TriggerWalk(s2, [], 30);
    ComputeBracketsFrame(s2, 1);
  }
}
