/** Exactly which brackets SyncComputeBracketValues computes, and exactly which CreateAlarm and ChangeAlarm
  requests leave an unrestricted system counter so that it can be checked lazily.
 */
module SyncCoverage {
  import opened SyncModel
  import opened SyncLinks
  import opened SyncTypes
  import opened SyncRearm
  import opened SyncQuiescence
  import opened SyncBrackets
  import opened SyncLazy

  // ---------- The brackets as a property of the trigger list ----------

  const RESET := SysInfo(Unrestricted, INT64_MIN, INT64_MAX, false, false)

  /** With the counter at `value` the trigger asks for an upper bracket at its test value. */
  predicate SetsAbove(t: Trigger, value: Int64) {
    t.testType <= NEGATIVE_COMPARISON && (value < t.testValue || (t.testType == POSITIVE_TRANSITION && value == t.testValue))
  }

  predicate SetsBelow(t: Trigger, value: Int64) {
    t.testType <= NEGATIVE_COMPARISON && (value > t.testValue || (t.testType == NEGATIVE_TRANSITION && value == t.testValue))
  }

  /** Some trigger on the list asks for an upper bracket at or below `test`. */
  ghost predicate GuardedAbove(s: State, refs: seq<TriggerRef>, value: Int64, test: Int64) {
    test == INT64_MAX || exists q :: q in refs && Live(s, q) && SetsAbove(Slot(s, q), value) && Slot(s, q).testValue <= test
  }

  ghost predicate GuardedBelow(s: State, refs: seq<TriggerRef>, value: Int64, test: Int64) {
    test == INT64_MIN || exists q :: q in refs && Live(s, q) && SetsBelow(Slot(s, q), value) && Slot(s, q).testValue >= test
  }

  lemma BracketStepExactly(b: SysInfo, value: Int64, t: Trigger, test: Int64)
    requires BracketsSane(b) && b.counterType == Unrestricted
    ensures GuardsAbove(BracketStep(b, value, t), test) <==>
      GuardsAbove(b, test) || (SetsAbove(t, value) && t.testValue <= test)
    ensures GuardsBelow(BracketStep(b, value, t), test) <==>
      GuardsBelow(b, test) || (SetsBelow(t, value) && t.testValue >= test)
    ensures BracketsSane(BracketStep(b, value, t)) && BracketStep(b, value, t).counterType == Unrestricted
  {
  }

  lemma {:induction false} BracketWalkExactly(s: State, refs: seq<TriggerRef>, value: Int64, b: SysInfo, test: Int64)
    requires BracketsSane(b) && b.counterType == Unrestricted
    ensures GuardsAbove(BracketWalk(s, refs, value, b), test) <==> GuardsAbove(b, test) || GuardedAbove(s, refs, value, test)
    ensures GuardsBelow(BracketWalk(s, refs, value, b), test) <==> GuardsBelow(b, test) || GuardedBelow(s, refs, value, test)
    decreases |refs|
  {
    hide BracketStep, SetsAbove, SetsBelow, Slot;
    if refs != [] {
      var q := refs[0];
      if Live(s, q) { BracketStepExactly(b, value, Slot(s, q), test); }
      var b' := if Live(s, q) then BracketStep(b, value, Slot(s, q)) else b;
      BracketWalkExactly(s, refs[1..], value, b', test);
      assert refs == [q] + refs[1..];
    }
  }

  /** Brackets just computed for `refs` at `value` guard the trigger on its way to true. */
  ghost predicate Guarded(s: State, refs: seq<TriggerRef>, value: Int64, t: Trigger) {
    match t.check
    case PosComparison => GuardedAbove(s, refs, value, t.testValue)
    case NegComparison => GuardedBelow(s, refs, value, t.testValue)
    case _ => true
  }

  /** Brackets just computed bracket a trigger of the list, or the comparison of one with another test value,
    if and only if the list guards it. */
  lemma BracketedExactly(s: State, refs: seq<TriggerRef>, value: Int64, t: Trigger)
    requires IsComparison(t.check) || (TriggerOk(t) && exists q :: q in refs && Live(s, q) && Slot(s, q) == t)
    ensures Bracketed(BracketWalk(s, refs, value, RESET), value, t) <==> Guarded(s, refs, value, t)
  {
    BracketWalkExactly(s, refs, value, RESET, t.testValue);
    hide BracketWalk;
  }

  ghost predicate TransitionAt(s: State, refs: seq<TriggerRef>, testType: nat, value: Int64) {
    exists q :: q in refs && Live(s, q) && Slot(s, q).testType == testType && Slot(s, q).testValue == value
  }

  /** What it means for a comparison to be guarded: it is false, or its test value is the counter's value and a
    transition the same way sits there too, or that value is at the end of the range. */
  lemma GuardedExactly(s: State, refs: seq<TriggerRef>, value: Int64, r: TriggerRef)
    requires r in refs && Live(s, r) && TriggerOk(Slot(s, r))
    ensures var t := Slot(s, r); Guarded(s, refs, value, t) <==>
      match t.check
      case PosComparison => value < t.testValue || t.testValue == INT64_MAX
                            || (t.testValue == value && TransitionAt(s, refs, POSITIVE_TRANSITION, value))
      case NegComparison => value > t.testValue || t.testValue == INT64_MIN
                            || (t.testValue == value && TransitionAt(s, refs, NEGATIVE_TRANSITION, value))
      case _ => true
  {
    var t := Slot(s, r);
    if t.check == PosComparison {
      if t.testValue == value && TransitionAt(s, refs, POSITIVE_TRANSITION, value) {
        var q :| q in refs && Live(s, q) && Slot(s, q).testType == POSITIVE_TRANSITION && Slot(s, q).testValue == value;
        assert SetsAbove(Slot(s, q), value);
      }
    } else if t.check == NegComparison {
      if t.testValue == value && TransitionAt(s, refs, NEGATIVE_TRANSITION, value) {
        var q :| q in refs && Live(s, q) && Slot(s, q).testType == NEGATIVE_TRANSITION && Slot(s, q).testValue == value;
        assert SetsBelow(Slot(s, q), value);
      }
    }
  }

  // ---------- A counter whose brackets were just computed ----------

  ghost predicate Fresh(s: State, c: XID) {
    && IsSystem(s, c) && s.counters[c].sys.value.counterType == Unrestricted
    && s.counters[c].sys.value == BracketWalk(s, s.counters[c].triglist, s.counters[c].value, RESET)
  }

  /** SyncComputeBracketValues covers the counter if and only if the list guards each armed trigger; it always
    brackets the transitions. */
  lemma FreshCoveredExactly(s: State, c: XID)
    requires Linked(s) && Coherent(s) && Fresh(s, c)
    ensures var k := s.counters[c];
      && (Covered(s, c, k.sys.value) <==>
            forall r :: r in k.triglist && Armed(s, r) ==> Guarded(s, k.triglist, k.value, Slot(s, r)))
      && TransitionsCovered(s, c, k.sys.value)
  {
    var k := s.counters[c];
    hide BracketWalk, Bracketed, Guarded;
    forall r | r in k.triglist && Armed(s, r)
      ensures Bracketed(k.sys.value, k.value, Slot(s, r)) <==> Guarded(s, k.triglist, k.value, Slot(s, r))
      ensures !IsComparison(Slot(s, r).check) ==> Guarded(s, k.triglist, k.value, Slot(s, r))
    {
      assert TriggerOk(Slot(s, r));
      BracketedExactly(s, k.triglist, k.value, Slot(s, r));
      GuardedExactly(s, k.triglist, k.value, r);
    }
  }

  lemma ComputedFresh(s: State, c: XID)
    requires IsSystem(s, c) && s.counters[c].sys.value.counterType == Unrestricted
    ensures var s' := ComputeBrackets(s, c);
      && Fresh(s', c) && s'.counters[c].value == s.counters[c].value && s'.counters[c].triglist == s.counters[c].triglist
  {
    var k := s.counters[c];
    var s' := ComputeBrackets(s, c);
    BracketWalkKeeps(s, k.triglist, k.value, RESET, 0);
    BracketWalkSame(s, s', k.triglist, k.value, RESET);
  }

  // ---------- SyncInitTrigger ----------

  /** What SyncInitTrigger finds as the counter's value. */
  function Asked(s: State, c: XID, clock: map<XID, Int64>): Int64 {
    if IsSystem(s, c) && c in clock then clock[c] else ValueOf(s, c)
  }

  /** The counter's list with the trigger on it. */
  function WithTrigger(s: State, r: TriggerRef, c: XID): seq<TriggerRef>
    requires c in s.counters
  {
    (if r in s.counters[c].triglist then [] else [r]) + s.counters[c].triglist
  }

  lemma RelinkFresh(s: State, r: TriggerRef, c: XID)
    requires Linked(s) && Live(s, r) && IsSystem(s, c) && s.counters[c].sys.value.counterType == Unrestricted
    ensures var s' := Relink(s, r, c);
      && Fresh(s', c) && s'.counters[c].value == s.counters[c].value && s'.counters[c].triglist == WithTrigger(s, r, c)
  {
    var k := s.counters[c];
    if c != Slot(s, r).sync {
      assert r !in k.triglist;
      hide LinkedExcept;
      DeleteTriggerFrame(s, r);
      var s1 := DeleteTrigger(s, r);
      var t := Slot(s, r).(sync := c);
      SetSlotFrame(s1, r, t);
      var s2 := SetSlot(s1, r, t);
      hide DeleteTrigger, SetSlot, ComputeBrackets, Fresh;
      assert s2.counters[c] == k;
      ComputedFresh(SetCounter(s2, c, k.(triglist := [r] + k.triglist)), c);
    } else {
      assert OnItsList(s, r);
      hide LinkedExcept, ComputeBrackets, Fresh;
      ComputedFresh(s, c);
    }
  }

  /** The trigger an accepted SyncInitTrigger leaves in place of `t`. */
  function AcceptedTrigger(s: State, t: Trigger, syncObject: XID, ch: Changes, clock: map<XID, Int64>): Trigger {
    var c := if ch.counter then syncObject else t.sync;
    t.(sync := c,
       testValue := TestValue(QueryValue(s, c, clock), t, c, ch).1,
       check := if ch.testType then Get(CheckFnOf(t.testType), t.check) else t.check)
  }

  /** An accepted SyncInitTrigger stores the driver's answer, puts the trigger on the counter's list and sets the
    brackets anew. */
  lemma InitFresh(s: State, r: TriggerRef, syncObject: XID, ch: Changes, clock: map<XID, Int64>)
    requires Linked(s) && Live(s, r) && InitTrigger(s, r, syncObject, ch, clock).0 == Success
    requires var c := if ch.counter then syncObject else Slot(s, r).sync;
      IsSystem(s, c) && s.counters[c].sys.value.counterType == Unrestricted
    ensures var s' := InitTrigger(s, r, syncObject, ch, clock).1;
      var c := if ch.counter then syncObject else Slot(s, r).sync;
      && Fresh(s', c) && s'.counters[c].value == Asked(s, c, clock) && s'.counters[c].triglist == WithTrigger(s, r, c)
      && s'.alarms == SetSlot(s, r, AcceptedTrigger(s, Slot(s, r), syncObject, ch, clock)).alarms
      && s'.awaits == SetSlot(s, r, AcceptedTrigger(s, Slot(s, r), syncObject, ch, clock)).awaits
  {
    hide InitTrigger, QueryValue, AcceptedTrigger, Relink, Fresh, LinkedExcept, SetSlot;
    var c := if ch.counter then syncObject else Slot(s, r).sync;
    var s1 := QueryValue(s, c, clock);
    var t := AcceptedTrigger(s, Slot(s, r), syncObject, ch, clock).(sync := Slot(s, r).sync);
    InitUnfold(s, r, syncObject, ch, clock);
    QueriedCounter(s, c, clock);
    QueryValueSameLinks(s, c, clock);
    SetSlotFrame(s1, r, t);
    var s2 := SetSlot(s1, r, t);
    assert SameLinks(s, s2);
    SameLinksLinked(s, s2, {});
    hide SameLinks;
    RelinkFresh(s2, r, c);
    RelinkFrame(s2, r, c);
    SetSlotTwice(s1, r, t, t.(sync := c));
    SetSlotParts(s, s1, r, t.(sync := c));
  }

  lemma InitUnfold(s: State, r: TriggerRef, syncObject: XID, ch: Changes, clock: map<XID, Int64>)
    requires Live(s, r) && InitTrigger(s, r, syncObject, ch, clock).0 == Success
    ensures var c := if ch.counter then syncObject else Slot(s, r).sync;
      var s1 := QueryValue(s, c, clock);
      var t := AcceptedTrigger(s, Slot(s, r), syncObject, ch, clock);
      && t.sync == c && Live(s1, r)
      && InitTrigger(s, r, syncObject, ch, clock).1 == Relink(SetSlot(s1, r, t.(sync := Slot(s, r).sync)), r, c)
  {
    var s1, t := InitChecksShape(s, r, syncObject, ch, clock);
    hide InitChecks, QueryValue, TestValue, Relink, SetSlot;
  }

  lemma QueriedCounter(s: State, c: XID, clock: map<XID, Int64>)
    requires IsSystem(s, c)
    ensures var s1 := QueryValue(s, c, clock);
      && s1.alarms == s.alarms && s1.awaits == s.awaits
      && IsSystem(s1, c) && s1.counters[c] == s.counters[c].(value := Asked(s, c, clock))
  {
  }

  // ---------- CreateAlarm and ChangeAlarm ----------

  /** The alarm with the requested fields, as SyncInitTrigger is given it. */
  function PreparedAlarm(al: Alarm, client: Client, attrs: AlarmAttributes): (al1: Alarm)
    ensures al1.trigger.sync == al.trigger.sync
  {
    var al1 := if attrs.events.Some? then EventSelect(al, client, attrs.events.value == 1) else al;
    al1.(delta := Get(attrs.delta, al.delta), trigger := WithAttributes(al.trigger, attrs))
  }

  /** The alarm that SyncChangeAlarmAttributes makes of `al` when it accepts the request. */
  function AcceptedAlarm(s: State, client: Client, al: Alarm, attrs: AlarmAttributes, clock: map<XID, Int64>): Alarm {
    var al1 := PreparedAlarm(al, client, attrs);
    al1.(state := Active,
         trigger := AcceptedTrigger(s, al1.trigger, Get(attrs.counter, al.trigger.sync), ChangesOf(attrs), clock))
  }

  lemma AttributesFresh(s: State, client: Client, a: XID, attrs: AlarmAttributes, clock: map<XID, Int64>)
    requires ListInv(s) && a in s.alarms && ChangeAlarmAttributes(s, client, a, attrs, clock).0 == Success
    requires var c := Get(attrs.counter, s.alarms[a].trigger.sync);
      IsSystem(s, c) && s.counters[c].sys.value.counterType == Unrestricted
    ensures var s' := ChangeAlarmAttributes(s, client, a, attrs, clock).1;
      var c := Get(attrs.counter, s.alarms[a].trigger.sync);
      && Fresh(s', c) && s'.counters[c].value == Asked(s, c, clock)
      && s'.counters[c].triglist == WithTrigger(s, AlarmTrigger(a), c)
      && s'.alarms == s.alarms[a := AcceptedAlarm(s, client, s.alarms[a], attrs, clock)] && s'.awaits == s.awaits
      && ListInv(s')
  {
    hide ChangeAlarmAttributes, InitTrigger, Fresh, ListInv, AcceptedTrigger, AcceptedAlarm, PreparedAlarm, WithAttributes,
         Asked, WithTrigger, SetAlarm, QueryFrame;
    var c := Get(attrs.counter, s.alarms[a].trigger.sync);
    var al1 := PreparedAlarm(s.alarms[a], client, attrs);
    var s1 := SetAlarm(s, a, al1);
    AttributesUnfold(s, client, a, attrs, clock);
    ChangeAlarmAttributesListInv(s, client, a, attrs, clock);
    SetAlarmListInv(s, a, al1);
    SetAlarmParts(s, a, al1, c, clock);
    ListInvLinked(s1);
    InitAlarmFresh(s1, a, c, ChangesOf(attrs), clock);
    AcceptedFrame(s, s1, client, s.alarms[a], attrs, clock);
    var s2 := InitTrigger(s1, AlarmTrigger(a), c, ChangesOf(attrs), clock).1;
    SetAlarmFresh(s2, a, s2.alarms[a].(state := Active), c);
    SetAlarmParts(s2, a, s2.alarms[a].(state := Active), c, clock);
  }

  lemma SetAlarmParts(s: State, a: XID, al: Alarm, c: XID, clock: map<XID, Int64>)
    requires c in s.counters
    ensures var s1 := SetAlarm(s, a, al);
      && s1.counters == s.counters && s1.awaits == s.awaits && s1.alarms == s.alarms[a := al]
      && Asked(s1, c, clock) == Asked(s, c, clock)
      && WithTrigger(s1, AlarmTrigger(a), c) == WithTrigger(s, AlarmTrigger(a), c)
  {
  }

  lemma ListInvLinked(s: State)
    requires ListInv(s)
    ensures Linked(s)
  {
  }

  lemma AttributesUnfold(s: State, client: Client, a: XID, attrs: AlarmAttributes, clock: map<XID, Int64>)
    requires a in s.alarms && ChangeAlarmAttributes(s, client, a, attrs, clock).0 == Success
    ensures var s1 := SetAlarm(s, a, PreparedAlarm(s.alarms[a], client, attrs));
      var (rc, s2) := InitTrigger(s1, AlarmTrigger(a), Get(attrs.counter, s.alarms[a].trigger.sync), ChangesOf(attrs), clock);
      && rc == Success
      && ChangeAlarmAttributes(s, client, a, attrs, clock).1 == SetAlarm(s2, a, s2.alarms[a].(state := Active))
  {
    EventSelectTrigger(s.alarms[a], client, attrs.events);
    hide EventSelect, InitTrigger;
  }

  lemma InitAlarmFresh(s: State, a: XID, c: XID, ch: Changes, clock: map<XID, Int64>)
    requires Linked(s) && a in s.alarms && InitTrigger(s, AlarmTrigger(a), c, ch, clock).0 == Success
    requires IsSystem(s, c) && s.counters[c].sys.value.counterType == Unrestricted
    requires !ch.counter ==> c == s.alarms[a].trigger.sync
    ensures var s' := InitTrigger(s, AlarmTrigger(a), c, ch, clock).1;
      && Fresh(s', c) && s'.counters[c].value == Asked(s, c, clock)
      && s'.counters[c].triglist == WithTrigger(s, AlarmTrigger(a), c)
      && s'.alarms == s.alarms[a := s.alarms[a].(trigger := AcceptedTrigger(s, s.alarms[a].trigger, c, ch, clock))]
      && s'.awaits == s.awaits
  {
    hide InitTrigger, Fresh, LinkedExcept, AcceptedTrigger;
    InitFresh(s, AlarmTrigger(a), c, ch, clock);
  }

  lemma AcceptedFrame(s: State, s1: State, client: Client, al: Alarm, attrs: AlarmAttributes, clock: map<XID, Int64>)
    requires s1.counters == s.counters
    ensures var al1 := PreparedAlarm(al, client, attrs);
      al1.(state := Active, trigger := AcceptedTrigger(s1, al1.trigger, Get(attrs.counter, al.trigger.sync), ChangesOf(attrs), clock))
      == AcceptedAlarm(s, client, al, attrs, clock)
  {
    hide EventSelect, CheckFnOf;
  }

  /** Brackets depend on an alarm's trigger only. */
  lemma SetAlarmFresh(s: State, a: XID, al: Alarm, c: XID)
    requires Fresh(s, c) && a in s.alarms && al.trigger == s.alarms[a].trigger
    ensures Fresh(SetAlarm(s, a, al), c)
  {
    SlotsWalk(s, SetAlarm(s, a, al), s.counters[c].triglist, s.counters[c].value, RESET);
  }

  lemma {:induction false} SlotsWalk(s: State, s': State, refs: seq<TriggerRef>, value: Int64, b: SysInfo)
    requires forall r :: r in refs ==> Live(s', r) == Live(s, r) && (Live(s, r) ==> Slot(s', r) == Slot(s, r))
    ensures BracketWalk(s', refs, value, b) == BracketWalk(s, refs, value, b)
    decreases |refs|
  {
    if refs != [] {
      var b' := if Live(s, refs[0]) then BracketStep(b, value, Slot(s, refs[0])) else b;
      hide BracketStep, Live, Slot;
      assert refs == [refs[0]] + refs[1..];
      SlotsWalk(s, s', refs[1..], value, b');
    }
  }

  /** The test value the alarm gets when it fires, None if it becomes inactive. */
  function NextTest(al: Alarm, value: Int64): Option<Int64> {
    if al.delta == 0 && IsComparison(al.trigger.check) then None else NextTestValue(al, value)
  }

  /** With the counter at `value` and `al` in the place of alarm `a`, the counter's list guards every other armed
    trigger and, should the alarm's comparison hold already, the test value the alarm gets by firing. */
  ghost predicate LeavesCovered(s: State, a: XID, al: Alarm, value: Int64)
    requires al.trigger.sync in s.counters
  {
    var refs := WithTrigger(s, AlarmTrigger(a), al.trigger.sync);
    var s1 := SetAlarm(s, a, al);
    && (forall r :: r in refs && r != AlarmTrigger(a) && Armed(s, r) ==> Guarded(s1, refs, value, Slot(s, r)))
    && (CheckAt(al.trigger.check, value, value, al.trigger.testValue) && NextTest(al, value).Some? ==>
          Guarded(s1, refs, value, al.trigger.(testValue := NextTest(al, value).value)))
  }

  lemma GuardedSlots(s: State, s': State, refs: seq<TriggerRef>, value: Int64, t: Trigger)
    requires s'.alarms == s.alarms && s'.awaits == s.awaits
    ensures Guarded(s', refs, value, t) == Guarded(s, refs, value, t)
    ensures BracketWalk(s', refs, value, RESET) == BracketWalk(s, refs, value, RESET)
  {
    assert forall q :: Live(s', q) == Live(s, q);
    assert forall q :: Live(s, q) ==> Slot(s', q) == Slot(s, q);
    SlotsWalk(s, s', refs, value, RESET);
    hide Live, Slot, BracketWalk;
  }

  /** The end of both requests on a counter whose brackets were just set. */
  function Finished(s: State, a: XID): State
    requires a in s.alarms
  {
    var t := s.alarms[a].trigger;
    if Check(s, t, ValueOf(s, t.sync)) then AlarmFired(s, a) else s
  }

  /** Firing replaces one alarm, whose trigger keeps all but its test value. */
  lemma FinishedAlarm(s: State, a: XID)
    requires a in s.alarms && s.alarms[a].trigger.sync in s.counters && s.alarms[a].trigger.sync != NONE
    requires s.alarms[a].state == Active && AlarmTyped(s.alarms[a])
    ensures var al, s' := s.alarms[a], Finished(s, a);
      var value := s.counters[al.trigger.sync].value;
      var holds := CheckAt(al.trigger.check, value, value, al.trigger.testValue);
      var al' := if !holds then al
                 else if NextTest(al, value).None? then al.(state := Inactive)
                 else al.(trigger := al.trigger.(testValue := NextTest(al, value).value));
      && s'.counters == s.counters && s'.awaits == s.awaits && s'.alarms == s.alarms[a := al'] && AlarmTyped(al')
      && (holds ==> IsComparison(al.trigger.check))
  {
    assert s.alarms[a := s.alarms[a]] == s.alarms;
    var al := s.alarms[a];
    var value := s.counters[al.trigger.sync].value;
    if CheckAt(al.trigger.check, value, value, al.trigger.testValue) {
      AlarmFiredClosedForm(s, a);
    }
    hide Rearm, NextTestValue, AlarmFired;
  }

  /** Firing or not, the counter is covered if and only if its list guards what waits on it afterwards. */
  lemma FinishedCovered(s: State, a: XID, c: XID)
    requires Linked(s) && Coherent(s) && Fresh(s, c) && a in s.alarms && s.alarms[a].state == Active
    requires s.alarms[a].trigger.sync == c && c != NONE
    ensures var s', k, al := Finished(s, a), s.counters[c], s.alarms[a];
      && s'.counters == s.counters
      && TransitionsCovered(s', c, k.sys.value)
      && (Covered(s', c, k.sys.value) <==>
          && (forall r :: r in k.triglist && r != AlarmTrigger(a) && Armed(s, r) ==> Guarded(s, k.triglist, k.value, Slot(s, r)))
          && (CheckAt(al.trigger.check, k.value, k.value, al.trigger.testValue) && NextTest(al, k.value).Some? ==>
                Guarded(s, k.triglist, k.value, al.trigger.(testValue := NextTest(al, k.value).value))))
  {
    hide LinkedExcept, NextTest, AlarmFired, Finished, BracketWalk, Bracketed, Guarded;
    var s', k, al := Finished(s, a), s.counters[c], s.alarms[a];
    FinishedAlarm(s, a);
    FreshCoveredExactly(s, c);
    var r0 := AlarmTrigger(a);
    ListedAlarm(s, a);
    forall r | r in k.triglist && r != r0
      ensures Armed(s', r) == Armed(s, r)
      ensures Armed(s, r) ==> Slot(s', r) == Slot(s, r)
      ensures Armed(s, r) ==> (Bracketed(k.sys.value, k.value, Slot(s, r)) <==> Guarded(s, k.triglist, k.value, Slot(s, r)))
    {
      if Armed(s, r) {
        CoherentSlot(s, r);
        BracketedExactly(s, k.triglist, k.value, Slot(s, r));
      }
    }
    CoherentSlot(s, r0);
    BracketedExactly(s, k.triglist, k.value, al.trigger);
    GuardedExactly(s, k.triglist, k.value, r0);
    if CheckAt(al.trigger.check, k.value, k.value, al.trigger.testValue) && NextTest(al, k.value).Some? {
      BracketedExactly(s, k.triglist, k.value, al.trigger.(testValue := NextTest(al, k.value).value));
    }
    hide Coherent;
    if !CheckAt(al.trigger.check, k.value, k.value, al.trigger.testValue) {
      assert Bracketed(k.sys.value, k.value, al.trigger) by { hide Armed; QuietGuarded(s, k.triglist, k.value, r0); }
    }
  }

  lemma QuietGuarded(s: State, refs: seq<TriggerRef>, value: Int64, r: TriggerRef)
    requires r in refs && Live(s, r) && TriggerOk(Slot(s, r))
    requires !CheckAt(Slot(s, r).check, value, value, Slot(s, r).testValue)
    ensures Guarded(s, refs, value, Slot(s, r))
  {
    GuardedExactly(s, refs, value, r);
  }

  lemma CoherentSlot(s: State, r: TriggerRef)
    requires Coherent(s) && Live(s, r)
    ensures TriggerOk(Slot(s, r))
  {
  }

  lemma ListedAlarm(s: State, a: XID)
    requires Linked(s) && a in s.alarms && s.alarms[a].trigger.sync in s.counters
    ensures AlarmTrigger(a) in s.counters[s.alarms[a].trigger.sync].triglist
  {
    assert s.alarms[a].trigger.sync != NONE;
    assert OnItsList(s, AlarmTrigger(a));
  }

  lemma AcceptedCoherent(s: State, client: Client, a: XID, attrs: AlarmAttributes, clock: map<XID, Int64>)
    requires ListInv(s) && Coherent(s) && a in s.alarms
    requires ChangeAlarmAttributes(s, client, a, attrs, clock).0 == Success
    requires var c := Get(attrs.counter, s.alarms[a].trigger.sync);
      IsSystem(s, c) && s.counters[c].sys.value.counterType == Unrestricted
    ensures Coherent(ChangeAlarmAttributes(s, client, a, attrs, clock).1)
    ensures AcceptedAlarm(s, client, s.alarms[a], attrs, clock).trigger.sync == Get(attrs.counter, s.alarms[a].trigger.sync) != NONE
  {
    hide ChangeAlarmAttributes, Fresh, ListInv, Typed, AwaitPlaced;
    var c := Get(attrs.counter, s.alarms[a].trigger.sync);
    ListedNotNone(s, c);
    AcceptedSync(s, client, s.alarms[a], attrs, clock);
    hide AcceptedAlarm;
    AttributesFresh(s, client, a, attrs, clock);
    AcceptedTyped(s, client, a, attrs, clock);
  }

  lemma AcceptedSync(s: State, client: Client, al: Alarm, attrs: AlarmAttributes, clock: map<XID, Int64>)
    ensures AcceptedAlarm(s, client, al, attrs, clock).trigger.sync == Get(attrs.counter, al.trigger.sync)
    ensures AcceptedAlarm(s, client, al, attrs, clock).state == Active
  {
    hide EventSelect, TestValue, CheckFnOf;
  }

  /** Attributes and the firing that may follow: the counter is covered afterwards if and only if, before the
    request, what LeavesCovered says held at the value the driver answers. */
  lemma AttributesCovered(s: State, client: Client, a: XID, attrs: AlarmAttributes, clock: map<XID, Int64>)
    requires ListInv(s) && Coherent(s) && a in s.alarms
    requires ChangeAlarmAttributes(s, client, a, attrs, clock).0 == Success
    requires var c := Get(attrs.counter, s.alarms[a].trigger.sync);
      IsSystem(s, c) && s.counters[c].sys.value.counterType == Unrestricted
    ensures var s1 := ChangeAlarmAttributes(s, client, a, attrs, clock).1;
      var c := Get(attrs.counter, s.alarms[a].trigger.sync);
      var s', al := Finished(s1, a), AcceptedAlarm(s, client, s.alarms[a], attrs, clock);
      && ListInv(s') && Coherent(s') && IsSystem(s', c) && al.trigger.sync == c
      && s'.counters[c].sys.value == NewBrackets(s, a, al, Asked(s, c, clock))
      && (Covered(s', c, s'.counters[c].sys.value) <==> LeavesCovered(s, a, al, Asked(s, c, clock)))
      && (LazySound(s', c) <==>
            LeavesCovered(s, a, al, Asked(s, c, clock)) || NoSkip(NewBrackets(s, a, al, Asked(s, c, clock))))
  {
    hide ChangeAlarmAttributes, ListInv, Coherent, AcceptedAlarm, Asked, NextTest, Finished, AlarmFired,
         BracketWalk, Guarded, Covered, TransitionsCovered, LazySound, NoSkip, LinkedExcept;
    var s1 := ChangeAlarmAttributes(s, client, a, attrs, clock).1;
    var c := Get(attrs.counter, s.alarms[a].trigger.sync);
    var al := AcceptedAlarm(s, client, s.alarms[a], attrs, clock);
    AttributesFresh(s, client, a, attrs, clock);
    AcceptedCoherent(s, client, a, attrs, clock);
    AcceptedSync(s, client, s.alarms[a], attrs, clock);
    ListInvLinked(s1);
    FinishedCovered(s1, a, c);
    FinishedInv(s1, a);
    BracketedSoundExactly(Finished(s1, a), c);
    GuardedBefore(s, s1, a, al, Asked(s, c, clock));
  }

  /** The brackets of a counter with `al` on its list in the place of alarm `a`. */
  function NewBrackets(s: State, a: XID, al: Alarm, value: Int64): SysInfo
    requires al.trigger.sync in s.counters
  {
    BracketWalk(SetAlarm(s, a, al), WithTrigger(s, AlarmTrigger(a), al.trigger.sync), value, RESET)
  }

  lemma FinishedInv(s: State, a: XID)
    requires ListInv(s) && Coherent(s) && a in s.alarms && s.alarms[a].state == Active
    requires s.alarms[a].trigger.sync in s.counters
    ensures ListInv(Finished(s, a)) && Coherent(Finished(s, a))
  {
    AlarmFiredListInv(s, a);
    assert s.alarms[a].trigger.sync != NONE by { assert Linked(s); }
    FinishedAlarm(s, a);
    hide ListInv, AlarmFired, AlarmTyped, AwaitTyped, AwaitPlaced, NextTest, CheckAt;
  }

  /** The condition on the state between, stated on the one before the request. */
  lemma GuardedBefore(s: State, s1: State, a: XID, al: Alarm, value: Int64)
    requires al.trigger.sync in s.counters && s1.alarms == s.alarms[a := al] && s1.awaits == s.awaits
    ensures var refs := WithTrigger(s, AlarmTrigger(a), al.trigger.sync);
      && NewBrackets(s, a, al, value) == BracketWalk(s1, refs, value, RESET)
      && (LeavesCovered(s, a, al, value) <==>
          && (forall r :: r in refs && r != AlarmTrigger(a) && Armed(s1, r) ==> Guarded(s1, refs, value, Slot(s1, r)))
          && (CheckAt(al.trigger.check, value, value, al.trigger.testValue) && NextTest(al, value).Some? ==>
                Guarded(s1, refs, value, al.trigger.(testValue := NextTest(al, value).value))))
  {
    hide NextTest, CheckAt, Guarded, BracketWalk;
    var refs := WithTrigger(s, AlarmTrigger(a), al.trigger.sync);
    var s2 := SetAlarm(s, a, al);
    forall t: Trigger
      ensures Guarded(s2, refs, value, t) == Guarded(s1, refs, value, t)
    {
      GuardedSlots(s1, s2, refs, value, t);
    }
    GuardedSlots(s1, s2, refs, value, al.trigger);
    forall r | r != AlarmTrigger(a)
      ensures Armed(s1, r) == Armed(s, r) && (Armed(s, r) ==> Slot(s1, r) == Slot(s, r))
    {
    }
  }

  /** A ChangeAlarm that succeeds on an unrestricted system counter leaves the counter covered if and only if, before
    it, every other armed trigger there and the test value the alarm would go on to are guarded at the value the driver
    answers; and it can be checked lazily afterwards exactly then, or when the brackets let no idle time pass. */
  lemma ChangeAlarmCovered(s: State, client: Client, a: XID, attrs: AlarmAttributes, clock: map<XID, Int64>)
    requires ListInv(s) && Coherent(s) && ChangeAlarm(s, client, a, attrs, clock).0 == Success
    requires var c := Get(attrs.counter, s.alarms[a].trigger.sync);
      IsSystem(s, c) && s.counters[c].sys.value.counterType == Unrestricted
    ensures var s', c := ChangeAlarm(s, client, a, attrs, clock).1, Get(attrs.counter, s.alarms[a].trigger.sync);
      var al := AcceptedAlarm(s, client, s.alarms[a], attrs, clock);
      && IsSystem(s', c) && al.trigger.sync == c
      && (Covered(s', c, s'.counters[c].sys.value) <==> LeavesCovered(s, a, al, Asked(s, c, clock)))
      && (LazySound(s', c) <==>
            LeavesCovered(s, a, al, Asked(s, c, clock)) || NoSkip(NewBrackets(s, a, al, Asked(s, c, clock))))
  {
    hide ChangeAlarmAttributes, ListInv, AcceptedAlarm, NewBrackets, LeavesCovered, Covered, LazySound, NoSkip, AlarmFired;
    AttributesCovered(s, client, a, attrs, clock);
  }

  /** The same for CreateAlarm, where the alarm starts with the defaults of the request. */
  lemma CreateAlarmCovered(s: State, client: Client, a: XID, attrs: AlarmAttributes, clock: map<XID, Int64>)
    requires ListInv(s) && Coherent(s) && CreateAlarm(s, client, a, attrs, clock).0 == Success
    requires var c := Get(attrs.counter, NONE); IsSystem(s, c) && s.counters[c].sys.value.counterType == Unrestricted
    ensures var s', c := CreateAlarm(s, client, a, attrs, clock).1, Get(attrs.counter, NONE);
      var s0, al := SetAlarm(s, a, NewAlarm(client)), AcceptedAlarm(s, client, NewAlarm(client), attrs, clock);
      && IsSystem(s', c) && al.trigger.sync == c
      && (Covered(s', c, s'.counters[c].sys.value) <==> LeavesCovered(s0, a, al, Asked(s, c, clock)))
      && (LazySound(s', c) <==>
            LeavesCovered(s0, a, al, Asked(s, c, clock)) || NoSkip(NewBrackets(s0, a, al, Asked(s, c, clock))))
  {
    hide ChangeAlarmAttributes, ListInv, Coherent, NewBrackets, LeavesCovered, Covered, LazySound, NoSkip,
         AlarmFired, BracketWalk;
    var s0, c := SetAlarm(s, a, NewAlarm(client)), Get(attrs.counter, NONE);
    NewAlarmCoherent(s, client, a);
    SetAlarmListInv(s, a, NewAlarm(client));
    AcceptedAlarmFrame(s, s0, client, NewAlarm(client), attrs, clock);
    hide AcceptedAlarm;
    AttributesCovered(s0, client, a, attrs, clock);
    AttributesFresh(s0, client, a, attrs, clock);
    ListedNotNone(s, c);
  }

  lemma NewAlarmCoherent(s: State, client: Client, a: XID)
    requires Coherent(s)
    ensures Coherent(SetAlarm(s, a, NewAlarm(client)))
  {
    NewAlarmTyped(s, client, a);
    hide Typed;
  }

  lemma ListedNotNone(s: State, c: XID)
    requires ListInv(s) && c in s.counters
    ensures c != NONE
  {
  }

  lemma AcceptedAlarmFrame(s: State, s1: State, client: Client, al: Alarm, attrs: AlarmAttributes, clock: map<XID, Int64>)
    requires s1.counters == s.counters
    ensures AcceptedAlarm(s1, client, al, attrs, clock) == AcceptedAlarm(s, client, al, attrs, clock)
  {
    hide EventSelect, CheckFnOf;
  }

  // ---------- A request that fires nothing and loses an alarm ----------

  /** An idle counter that was last looked at when it stood at 10, and an alarm due at 25, which the brackets guard. */
  const WAITING := State(
    map[1 := Counter(10, [AlarmTrigger(2)], false, Some(SysInfo(Unrestricted, INT64_MIN, 25, false, true)))],
    map[2 := NewAlarm(0).(trigger := NEW_TRIGGER.(sync := 1, waitValue := 25, testValue := 25), delta := 25, state := Active)],
    map[], {}, [])

  const AT_100 := AlarmAttributes(Some(1), None, Some(100), None, None, None, false)

  /** Another client asks for an alarm at 100. The driver answers 30, which is stored without a look at the triggers,
    and the brackets are set for 30: above it 100, below it 25. */
  const OVERTAKEN := State(
    map[1 := Counter(30, [AlarmTrigger(3), AlarmTrigger(2)], false, Some(SysInfo(Unrestricted, 25, 100, true, true)))],
    WAITING.alarms[3 := NewAlarm(0).(trigger := NEW_TRIGGER.(sync := 1, waitValue := 100, testValue := 100), state := Active)],
    map[], {}, [])

  lemma OvertakenReached()
    ensures Step(WAITING, CreateAlarmReq(0, 3, AT_100, map[1 := 30])) == (Success, OVERTAKEN)
  {
    var r := AlarmTrigger(3);
    var s0 := SetAlarm(WAITING, 3, NewAlarm(0));
    var t := NEW_TRIGGER.(waitValue := 100);
    var s1 := SetAlarm(s0, 3, NewAlarm(0).(trigger := t));
    assert CheckAttributes(NewAlarm(0), AT_100) == Success;
    var s2 := SetSlot(QueryValue(s1, 1, map[1 := 30]), r, t.(testValue := 100));
    assert InitChecks(s1, r, 1, ChangesOf(AT_100), map[1 := 30]) == (Success, s2);
    var s5 := RelinkedAt30(s2);
    hide InitChecks, Relink, CheckAttributes;
    assert InitTrigger(s1, r, 1, ChangesOf(AT_100), map[1 := 30]) == (Success, s5);
    assert ChangeAlarmAttributes(s0, 0, 3, AT_100, map[1 := 30]) == (Success, SetAlarm(s5, 3, s5.alarms[3].(state := Active)));
    assert SetAlarm(s5, 3, s5.alarms[3].(state := Active)).alarms == OVERTAKEN.alarms;
    assert SetAlarm(s5, 3, s5.alarms[3].(state := Active)) == OVERTAKEN;
    hide ChangeAlarmAttributes, AlarmFired;
    assert CreateAlarm(WAITING, 0, 3, AT_100, map[1 := 30]) == (Success, OVERTAKEN);
  }

  lemma RelinkedAt30(s2: State) returns (s5: State)
    requires s2 == WAITING.(
      counters := map[1 := WAITING.counters[1].(value := 30)],
      alarms := WAITING.alarms[3 := NewAlarm(0).(trigger := NEW_TRIGGER.(waitValue := 100, testValue := 100))])
    ensures s5 == Relink(s2, AlarmTrigger(3), 1)
    ensures s5 == OVERTAKEN.(alarms := WAITING.alarms[3 := OVERTAKEN.alarms[3].(state := Inactive)])
  {
    var r := AlarmTrigger(3);
    assert DeleteTrigger(s2, r) == s2;
    var s3 := SetSlot(s2, r, s2.alarms[3].trigger.(sync := 1));
    var refs := [r, AlarmTrigger(2)];
    assert [r] + [AlarmTrigger(2)] == refs;
    var s4 := SetCounter(s3, 1, s3.counters[1].(triglist := refs));
    assert AddTrigger(s3, r) == ComputeBrackets(s4, 1);
    var b := SysInfo(Unrestricted, INT64_MIN, 100, false, true);
    assert BracketStep(RESET, 30, Slot(s4, r)) == b;
    assert BracketStep(b, 30, Slot(s4, AlarmTrigger(2))) == SysInfo(Unrestricted, 25, 100, true, true);
    assert refs[1..] == [AlarmTrigger(2)] && refs[1..][1..] == [];
    assert BracketWalk(s4, refs[1..], 30, b) == SysInfo(Unrestricted, 25, 100, true, true);
    assert BracketWalk(s4, refs, 30, RESET) == SysInfo(Unrestricted, 25, 100, true, true);
    s5 := ComputeBrackets(s4, 1);
    assert s5.counters == OVERTAKEN.counters;
  }

  /** Before the request the counter was covered, the request reported nothing, and at idle time 31 the handler
    passes over the alarm that was due at 25. */
  lemma QueryIsNotCovered()
    ensures Covered(WAITING, 1, WAITING.counters[1].sys.value) && !Covered(OVERTAKEN, 1, OVERTAKEN.counters[1].sys.value)
    ensures IdleWakeup(OVERTAKEN, 1, false, 31).out == OVERTAKEN.out == WAITING.out
    ensures ChangeCounter(OVERTAKEN, 1, 31).out == OVERTAKEN.out + [AlarmNotify(0, 2, 25, 31, Active)]
  {
    var s := OVERTAKEN;
    assert AlarmTrigger(2) in s.counters[1].triglist && Armed(s, AlarmTrigger(2));
    assert !Bracketed(s.counters[1].sys.value, 30, Slot(s, AlarmTrigger(2)));
    var s1 := UpdateCounter(s, 1, 31);
    var refs := s.counters[1].triglist;
    assert Rearm(PosComparison, 25, 25, 31) == Some(50);
    assert AlarmEvents([0], 2, 25, 31, Active) == [AlarmNotify(0, 2, 25, 31, Active)];
    assert [0] + [] == [0];
    var s2 := AlarmFired(s1, 2);
    assert s2.out == s.out + [AlarmNotify(0, 2, 25, 31, Active)];
    assert refs[1..] == [AlarmTrigger(2)] && refs[1..][1..] == [];
    assert !Check(s1, Slot(s1, AlarmTrigger(3)), 30);
    assert Check(s1, Slot(s1, AlarmTrigger(2)), 30);
    hide AlarmFired;
    assert TriggerWalk(s1, refs[1..], 30) == TriggerWalk(s2, [], 30);
    assert TriggerWalk(s1, refs, 30) == s2;
    ComputeBracketsFrame(s2, 1);
  }
}
