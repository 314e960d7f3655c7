/** Check functions and test-types: which triggers SyncInitTrigger accepts, and which requests keep the check
  function of every trigger that of its test-type.
 */
module SyncTypes {
  import opened SyncModel
  import opened SyncLinks

  ghost predicate TriggerOk(t: Trigger) {
    CheckFnOf(t.testType) == Some(t.check)
  }

  /** Each check function is that of the test-type, and the sign of each delta suits it. */
  ghost predicate AlarmTyped(al: Alarm) {
    TriggerOk(al.trigger) && !WrongDelta(al.trigger.testType, al.delta)
  }

  ghost predicate AwaitTyped(aw: Await) {
    forall i :: 0 <= i < |aw.conditions| ==> TriggerOk(aw.conditions[i].trigger)
  }

  ghost predicate Typed(s: State) {
    && (forall a :: a in s.alarms ==> AlarmTyped(s.alarms[a]))
    && (forall w :: w in s.awaits ==> AwaitTyped(s.awaits[w]))
  }

  // ---------- SyncInitTrigger ----------

  /** SyncInitTrigger would accept this trigger. */
  ghost predicate InitAccepts(s: State, t: Trigger, syncObject: XID, ch: Changes, clock: map<XID, Int64>) {
    var pSync := if ch.counter then syncObject else t.sync;
    && (ch.counter ==> syncObject == NONE || syncObject in s.counters)
    && (ch.valueType ==> t.valueType == ABSOLUTE || t.valueType == RELATIVE)
    && ((ch.valueType || ch.value) && t.valueType != ABSOLUTE ==>
        pSync != NONE && Fits(ValueOf(QueryValue(s, pSync, clock), pSync) + t.waitValue))
    && (ch.testType ==> t.testType <= NEGATIVE_COMPARISON)
  }

  lemma InitAcceptsExactly(s: State, r: TriggerRef, syncObject: XID, ch: Changes, clock: map<XID, Int64>)
    requires Live(s, r)
    ensures InitTrigger(s, r, syncObject, ch, clock).0 == Success <==> InitAccepts(s, Slot(s, r), syncObject, ch, clock)
  {
    hide Relink, QueryValue, SetSlot;
  }

  /** InitAccepts reads the counters only. */
  lemma InitAcceptsFrame(s: State, s1: State, t: Trigger, syncObject: XID, ch: Changes, clock: map<XID, Int64>)
    requires s1.counters == s.counters
    ensures InitAccepts(s1, t, syncObject, ch, clock) == InitAccepts(s, t, syncObject, ch, clock)
  {
  }

  // ---------- What keeps the types ----------

  /** Delta, check function and test-type are the same. */
  predicate SameType(al: Alarm, al': Alarm) {
    al'.delta == al.delta && al'.trigger.check == al.trigger.check && al'.trigger.testType == al.trigger.testType
  }

  ghost predicate TypesStay(s: State, s': State) {
    forall a :: a in s'.alarms ==> a in s.alarms && SameType(s.alarms[a], s'.alarms[a])
  }

  lemma ChangeCounterTypes(s: State, c: XID, v: Int64)
    requires ListInv(s) && c in s.counters
    ensures TypesStay(s, ChangeCounter(s, c, v))
  {
    ChangeCounterLinked(s, c, v);
    hide ChangeCounter, LinkedExcept, CounterFrame;
  }

  lemma FreeCounterTypes(s: State, c: XID)
    requires ListInv(s) && c in s.counters
    ensures TypesStay(s, FreeCounter(s, c))
  {
    hide DestroyWalk, LinkedExcept, SameLinks, CounterFrame;
    var k := s.counters[c];
    var s0 := SetCounter(s, c, k.(beingDestroyed := true));
    DyingSameLinks(s, c);
    SameLinksLinked(s, s0, {});
    DestroyWalkLinked(s0, c, k.triglist);
  }

  lemma FreeAlarmTypes(s: State, a: XID)
    requires a in s.alarms
    ensures TypesStay(s, FreeAlarm(s, a))
  {
    var s1 := SendAlarmNotify(SetAlarm(s, a, s.alarms[a].(state := Destroyed)), a);
    hide AlarmEvents;
    assert a in s1.alarms && forall b :: b in s1.alarms ==> b in s.alarms && SameType(s.alarms[b], s1.alarms[b]);
    hide SendAlarmNotify, DeleteTrigger;
    DeleteTriggerFrame(s1, AlarmTrigger(a));
  }

  lemma InitTypes(s: State, a: XID, syncObject: XID, ch: Changes, clock: map<XID, Int64>)
    requires a in s.alarms
    ensures var s', al := InitTrigger(s, AlarmTrigger(a), syncObject, ch, clock).1, s.alarms[a];
      && (forall b :: b in s.alarms && b != a ==> s'.alarms[b] == s.alarms[b])
      && s'.alarms[a].delta == al.delta && s'.alarms[a].trigger.testType == al.trigger.testType
      && if ch.testType && InitAccepts(s, al.trigger, syncObject, ch, clock)
         then CheckFnOf(al.trigger.testType) == Some(s'.alarms[a].trigger.check)
         else s'.alarms[a].trigger.check == al.trigger.check
  {
    InitAcceptsExactly(s, AlarmTrigger(a), syncObject, ch, clock);
    hide InitAccepts, InitTrigger, QueryFrame;
    if InitTrigger(s, AlarmTrigger(a), syncObject, ch, clock).0 == Success {
      var t := InitTriggerShape(s, AlarmTrigger(a), syncObject, ch, clock);
    } else {
      var test := RefusedTrigger(s, AlarmTrigger(a), syncObject, ch, clock);
    }
  }

  /** What SyncChangeAlarmAttributes makes of an alarm, as far as delta, check function and test-type go. */
  lemma AttributesTypes(s: State, client: Client, a: XID, attrs: AlarmAttributes, clock: map<XID, Int64>)
    requires a in s.alarms
    ensures var s', al := ChangeAlarmAttributes(s, client, a, attrs, clock).1, s.alarms[a];
      && (forall b :: b in s.alarms && b != a ==> s'.alarms[b] == s.alarms[b])
      && (CheckAttributes(al, attrs) != Success ==> SameType(al, s'.alarms[a]))
      && (CheckAttributes(al, attrs) == Success ==>
            var t := WithAttributes(al.trigger, attrs);
            && s'.alarms[a].delta == Get(attrs.delta, al.delta) && s'.alarms[a].trigger.testType == t.testType
            && if attrs.testType.Some? && InitAccepts(s, t, Get(attrs.counter, t.sync), ChangesOf(attrs), clock)
               then CheckFnOf(t.testType) == Some(s'.alarms[a].trigger.check)
               else s'.alarms[a].trigger.check == al.trigger.check)
  {
    var al := if attrs.events.Some? then EventSelect(s.alarms[a], client, attrs.events.value == 1) else s.alarms[a];
    EventSelectTrigger(s.alarms[a], client, attrs.events);
    if CheckAttributes(s.alarms[a], attrs) == Success {
      var al1 := al.(delta := Get(attrs.delta, al.delta), trigger := WithAttributes(al.trigger, attrs));
      var s1 := SetAlarm(s, a, al1);
      var syncObject := Get(attrs.counter, al1.trigger.sync);
      hide CheckAttributes, EventSelect, InitAccepts, InitTrigger;
      InitAcceptsFrame(s, s1, al1.trigger, syncObject, ChangesOf(attrs), clock);
      InitTypes(s1, a, syncObject, ChangesOf(attrs), clock);
    }
  }

  lemma AttributesAccepted(s: State, client: Client, a: XID, attrs: AlarmAttributes, clock: map<XID, Int64>)
    requires a in s.alarms && ChangeAlarmAttributes(s, client, a, attrs, clock).0 == Success
    ensures CheckAttributes(s.alarms[a], attrs) == Success
    ensures var t := WithAttributes(s.alarms[a].trigger, attrs);
      InitAccepts(s, t, Get(attrs.counter, t.sync), ChangesOf(attrs), clock)
  {
    var al := if attrs.events.Some? then EventSelect(s.alarms[a], client, attrs.events.value == 1) else s.alarms[a];
    EventSelectTrigger(s.alarms[a], client, attrs.events);
    var al1 := al.(delta := Get(attrs.delta, al.delta), trigger := WithAttributes(al.trigger, attrs));
    var s1 := SetAlarm(s, a, al1);
    var syncObject := Get(attrs.counter, al1.trigger.sync);
    hide CheckAttributes, EventSelect, InitAccepts, InitTrigger;
    InitAcceptsFrame(s, s1, al1.trigger, syncObject, ChangesOf(attrs), clock);
    InitAcceptsExactly(s1, AlarmTrigger(a), syncObject, ChangesOf(attrs), clock);
  }

  /** The request is no ChangeAlarm that SyncInitTrigger refuses after another test-type was written. */
  ghost predicate HarmlessChange(s: State, req: Request) {
    req.ChangeAlarmReq? && req.id in s.alarms && CheckAttributes(s.alarms[req.id], req.attrs) == Success ==>
      var al := s.alarms[req.id];
      var t := WithAttributes(al.trigger, req.attrs);
      t.testType == al.trigger.testType || InitAccepts(s, t, Get(req.attrs.counter, t.sync), ChangesOf(req.attrs), req.clock)
  }

  lemma StayTyped(s: State, s': State)
    requires Typed(s) && TypesStay(s, s')
    requires forall w :: w in s'.awaits ==> w in s.awaits && s'.awaits[w] == s.awaits[w]
    ensures Typed(s')
  {
  }

  lemma ChangeCounterTyped(s: State, c: XID, v: Int64)
    requires ListInv(s) && Typed(s) && c in s.counters
    ensures Typed(ChangeCounter(s, c, v))
  {
    hide ChangeCounter, LinkedExcept, CounterFrame, Typed, TypesStay;
    ChangeCounterTypes(s, c, v);
    ChangeCounterLinked(s, c, v);
    StayTyped(s, ChangeCounter(s, c, v));
  }

  lemma FreeCounterTyped(s: State, c: XID)
    requires ListInv(s) && Typed(s) && c in s.counters
    ensures Typed(FreeCounter(s, c))
  {
    FreeCounterTypes(s, c);
    var k := s.counters[c];
    var s0 := SetCounter(s, c, k.(beingDestroyed := true));
    DyingSameLinks(s, c);
    SameLinksLinked(s, s0, {});
    hide DestroyWalk, LinkedExcept, SameLinks, CounterFrame, Typed, TypesStay;
    DestroyWalkLinked(s0, c, k.triglist);
    StayTyped(s, FreeCounter(s, c));
  }

  lemma {:induction false} UnlinkFromFrame(s: State, w: XID, i: nat)
    requires w in s.awaits
    ensures UnlinkFrom(s, w, i).alarms == s.alarms && UnlinkFrom(s, w, i).awaits == s.awaits
    decreases |s.awaits[w].conditions| - i
  {
    hide DeleteTrigger;
    if i < |s.awaits[w].conditions| {
      var c := s.awaits[w].conditions[i].trigger.sync;
      DeleteTriggerFrame(s, AwaitTrigger(w, i));
      UnlinkFromFrame(if BeingDestroyed(s, c) then s else DeleteTrigger(s, AwaitTrigger(w, i)), w, i + 1);
    }
  }

  lemma FreeAwaitFrame(s: State, w: XID)
    requires w in s.awaits
    ensures FreeAwait(s, w).alarms == s.alarms && FreeAwait(s, w).awaits == s.awaits - {w}
    ensures AwaitFired(s, w).alarms == s.alarms && AwaitFired(s, w).awaits == s.awaits - {w}
  {
    hide UnlinkFrom, AwaitEvents;
    UnlinkFromFrame(s, w, 0);
    UnlinkFromFrame(Emit(s, AwaitEvents(s, w)), w, 0);
  }

  // ---------- Await ----------

  ghost predicate TypedBut(s: State, w: XID) {
    && (forall a :: a in s.alarms ==> AlarmTyped(s.alarms[a]))
    && (forall v :: v in s.awaits && v != w ==> AwaitTyped(s.awaits[v]))
  }

  lemma DroppedTyped(s: State, w: XID)
    requires TypedBut(s, w) && w in s.awaits
    ensures Typed(FreeAwait(s, w)) && Typed(AwaitFired(s, w))
  {
    FreeAwaitFrame(s, w);
    hide FreeAwait, AwaitFired, AlarmTyped, AwaitTyped;
  }

  lemma AddConditionTyped(s: State, w: XID, conds: seq<WaitCondition>, cond: Condition, clock: map<XID, Int64>)
    requires Typed(s) && w in s.awaits && conds != []
    ensures var aw := s.awaits[w];
      var s1 := s.(awaits := s.awaits[w := aw.(conditions := aw.conditions + [cond])]);
      var (rc, s2) := InitTrigger(s1, AwaitTrigger(w, |aw.conditions|), conds[0].counter, ALL_CHANGES, clock);
      w in s2.awaits && TypedBut(s2, w) && (rc == Success ==> Typed(s2))
  {
    var aw := s.awaits[w];
    var r := AwaitTrigger(w, |aw.conditions|);
    var s1 := s.(awaits := s.awaits[w := aw.(conditions := aw.conditions + [cond])]);
    var t := InitTriggerShape(s1, r, conds[0].counter, ALL_CHANGES, clock);
    var (rc, s2) := InitTrigger(s1, r, conds[0].counter, ALL_CHANGES, clock);
    hide InitTrigger, QueryFrame, AlarmTyped, CheckFnOf;
    assert s2.awaits == s.awaits[w := s2.awaits[w]];
    assert s2.awaits[w].conditions == aw.conditions + [cond.(trigger := t)];
  }

  lemma {:induction false} AddConditionsTyped(s: State, w: XID, conds: seq<WaitCondition>, clock: map<XID, Int64>)
    requires Typed(s) && w in s.awaits
    ensures Typed(AddConditions(s, w, conds, clock).1)
    decreases |conds|
  {
    hide InitTrigger, FreeAwait, Typed, TypedBut;
    if conds != [] {
      AllTypedBut(s, w);
      if conds[0].counter == NONE {
        DroppedTyped(s, w);
      } else {
        var t := Trigger(NONE, conds[0].valueType, conds[0].waitValue, conds[0].testType, PosComparison, 0);
        var cond := Condition(t, conds[0].threshold);
        AddConditionTyped(s, w, conds, cond, clock);
        var aw := s.awaits[w];
        var s1 := s.(awaits := s.awaits[w := aw.(conditions := aw.conditions + [cond])]);
        var (rc, s2) := InitTrigger(s1, AwaitTrigger(w, |aw.conditions|), conds[0].counter, ALL_CHANGES, clock);
        if rc != Success { DroppedTyped(s2, w); } else { AddConditionsTyped(s2, w, conds[1..], clock); }
      }
    }
  }

  lemma AllTypedBut(s: State, w: XID)
    requires Typed(s)
    ensures TypedBut(s, w)
  {
  }

  lemma {:induction false} AwaitEpilogueTyped(s: State, w: XID, i: nat)
    requires Typed(s) && w in s.awaits
    ensures Typed(AwaitEpilogue(s, w, i))
    decreases |s.awaits[w].conditions| - i
  {
    hide AwaitFired, Typed;
    if i < |s.awaits[w].conditions| {
      AllTypedBut(s, w);
      DroppedTyped(s, w);
      AwaitEpilogueTyped(s, w, i + 1);
    }
  }

  lemma AwaitRequestTyped(s: State, client: Client, w: XID, conds: seq<WaitCondition>, clock: map<XID, Int64>)
    requires Typed(s)
    ensures Typed(AwaitRequest(s, client, w, conds, clock).1)
  {
    if conds != [] && !InUse(s, w) {
      var s0 := s.(awaits := s.awaits[w := Await(client, [])]);
      assert Typed(s0);
      AddConditionsTyped(s0, w, conds, clock);
      var (rc, s1) := AddConditions(s0, w, conds, clock);
      hide AddConditions, AwaitEpilogue;
      if rc == Success {
        assert Typed(Emit(s1, [IgnoreClient(client)]));
        AwaitEpilogueTyped(Emit(s1, [IgnoreClient(client)]), w, 0);
      }
    }
  }

  // ---------- Alarms ----------

  /** Firing an alarm changes nothing that matters here. */
  lemma FiredTyped(s: State, a: XID)
    requires a in s.alarms
    ensures Typed(AlarmFired(s, a)) <==> Typed(s)
  {
    AlarmFiredShape(s, a);
    hide AlarmFired, TriggerOk, WrongDelta;
    var s' := AlarmFired(s, a);
    assert forall b :: b in s.alarms ==> SameType(s.alarms[b], s'.alarms[b]);
    forall b | b in s.alarms
      ensures AlarmTyped(s'.alarms[b]) == AlarmTyped(s.alarms[b])
    {
      SameTyped(s.alarms[b], s'.alarms[b]);
    }
  }

  lemma SameTyped(al: Alarm, al': Alarm)
    requires SameType(al, al')
    ensures AlarmTyped(al') == AlarmTyped(al)
  {
  }

  lemma AttributesAwaits(s: State, client: Client, a: XID, attrs: AlarmAttributes, clock: map<XID, Int64>)
    requires a in s.alarms
    ensures ChangeAlarmAttributes(s, client, a, attrs, clock).1.awaits == s.awaits
    ensures ChangeAlarmAttributes(s, client, a, attrs, clock).1.alarms.Keys == s.alarms.Keys
  {
    var al := if attrs.events.Some? then EventSelect(s.alarms[a], client, attrs.events.value == 1) else s.alarms[a];
    var al1 := al.(delta := Get(attrs.delta, al.delta), trigger := WithAttributes(al.trigger, attrs));
    var s1 := SetAlarm(s, a, al1);
    hide CheckAttributes, EventSelect, InitTrigger, QueryFrame;
    var t := InitTriggerShape(s1, AlarmTrigger(a), Get(attrs.counter, al.trigger.sync), ChangesOf(attrs), clock);
  }

  lemma SameFn(t: nat, t': nat)
    ensures CheckFnOf(t).Some? && CheckFnOf(t') == CheckFnOf(t) ==> t' == t
  {
  }

  /** The change keeps the alarm typed exactly when it is harmless. */
  lemma AttributesTyped(s: State, client: Client, a: XID, attrs: AlarmAttributes, clock: map<XID, Int64>)
    requires Typed(s) && a in s.alarms
    ensures Typed(ChangeAlarmAttributes(s, client, a, attrs, clock).1)
      <==> HarmlessChange(s, ChangeAlarmReq(client, a, attrs, clock))
  {
    AttributesTypes(s, client, a, attrs, clock);
    AttributesAwaits(s, client, a, attrs, clock);
    var al, al' := s.alarms[a], ChangeAlarmAttributes(s, client, a, attrs, clock).1.alarms[a];
    if CheckAttributes(al, attrs) == Success {
      SameFn(al.trigger.testType, WithAttributes(al.trigger, attrs).testType);
      assert !WrongDelta(al'.trigger.testType, al'.delta);
    } else {
      SameTyped(al, al');
    }
    hide ChangeAlarmAttributes, CheckAttributes, InitAccepts, CheckFnOf, AwaitTyped, WrongDelta;
    assert Typed(ChangeAlarmAttributes(s, client, a, attrs, clock).1) <==> AlarmTyped(al');
  }

  lemma ChangeAlarmTyped(s: State, client: Client, a: XID, attrs: AlarmAttributes, clock: map<XID, Int64>)
    requires Typed(s)
    ensures Typed(ChangeAlarm(s, client, a, attrs, clock).1) <==> HarmlessChange(s, ChangeAlarmReq(client, a, attrs, clock))
  {
    if a in s.alarms {
      AttributesTyped(s, client, a, attrs, clock);
      hide ChangeAlarmAttributes, HarmlessChange, Typed, AlarmFired;
      FiredTyped(ChangeAlarmAttributes(s, client, a, attrs, clock).1, a);
    }
  }

  lemma AcceptedTyped(s: State, client: Client, a: XID, attrs: AlarmAttributes, clock: map<XID, Int64>)
    requires Typed(s) && a in s.alarms && ChangeAlarmAttributes(s, client, a, attrs, clock).0 == Success
    ensures Typed(ChangeAlarmAttributes(s, client, a, attrs, clock).1)
  {
    hide ChangeAlarmAttributes, InitAccepts, CheckAttributes, Typed;
    AttributesTyped(s, client, a, attrs, clock);
    AttributesAccepted(s, client, a, attrs, clock);
  }

  /** When the new alarm is taken back, the others are as before. */
  lemma TakenBackTyped(s: State, client: Client, a: XID, attrs: AlarmAttributes, clock: map<XID, Int64>)
    requires Typed(s) && a in s.alarms
    ensures var s1 := ChangeAlarmAttributes(s, client, a, attrs, clock).1; Typed(s1.(alarms := s1.alarms - {a}))
  {
    hide ChangeAlarmAttributes, InitAccepts, CheckAttributes, AlarmTyped, AwaitTyped;
    AttributesTypes(s, client, a, attrs, clock);
    AttributesAwaits(s, client, a, attrs, clock);
  }

  lemma NewAlarmTyped(s: State, client: Client, a: XID)
    requires Typed(s)
    ensures Typed(SetAlarm(s, a, NewAlarm(client)))
  {
    hide AwaitTyped;
  }

  lemma CreateAlarmTyped(s: State, client: Client, a: XID, attrs: AlarmAttributes, clock: map<XID, Int64>)
    requires Typed(s)
    ensures Typed(CreateAlarm(s, client, a, attrs, clock).1)
  {
    if !InUse(s, a) {
      hide ChangeAlarmAttributes, AlarmFired, CreateFinished, Typed;
      var s0 := SetAlarm(s, a, NewAlarm(client));
      NewAlarmTyped(s, client, a);
      var (rc, s1) := ChangeAlarmAttributes(s0, client, a, attrs, clock);
      if rc == Success {
        AcceptedTyped(s0, client, a, attrs, clock);
        FinishedTyped(s1, a);
      } else {
        TakenBackTyped(s0, client, a, attrs, clock);
      }
    }
  }

  lemma FinishedTyped(s: State, a: XID)
    requires Typed(s) && a in s.alarms
    ensures Typed(CreateFinished(s, a))
  {
    FiredTyped(s, a);
    hide AlarmFired, TriggerOk, WrongDelta;
    SameTyped(s.alarms[a], s.alarms[a].(state := Inactive));
  }

  lemma FreeAlarmTyped(s: State, a: XID)
    requires Typed(s) && a in s.alarms
    ensures Typed(FreeAlarm(s, a))
  {
    FreeAlarmTypes(s, a);
    var s1 := SendAlarmNotify(SetAlarm(s, a, s.alarms[a].(state := Destroyed)), a);
    assert s1.awaits == s.awaits;
    hide SendAlarmNotify, DeleteTrigger, TypesStay, Typed;
    DeleteTriggerFrame(s1, AlarmTrigger(a));
    StayTyped(s, FreeAlarm(s, a));
  }

  // ---------- All requests ----------

  /** A request keeps check functions those of the test-types, and the sign rule for deltas, exactly when it is
    harmless. */
  lemma StepTyped(s: State, req: Request)
    requires ListInv(s) && Typed(s)
    ensures Typed(Step(s, req).1) <==> HarmlessChange(s, req)
  {
    hide ChangeCounter, FreeCounter, AwaitRequest, CreateAlarm, ChangeAlarm, FreeAlarm, FreeAwait, ListInv, InitAccepts,
         AwaitTyped;
    match req {
      case SetCounterRequest(id, v) =>
        if id in s.counters { ChangeCounterTyped(s, id, v); }
      case ChangeCounterRequest(id, amount) =>
        if id in s.counters && CheckedAdd(amount, s.counters[id].value).Some? {
          ChangeCounterTyped(s, id, CheckedAdd(amount, s.counters[id].value).value);
        }
      case SystemTick(id, v) =>
        if id in s.counters { ChangeCounterTyped(s, id, v); }
      case DestroyCounter(id) =>
        if id in s.counters { FreeCounterTyped(s, id); }
      case DestroySystemCounter(id) =>
        if id in s.counters { FreeCounterTyped(s, id); }
      case AwaitReq(client, id, conds, clock) => AwaitRequestTyped(s, client, id, conds, clock);
      case CreateAlarmReq(client, id, attrs, clock) => CreateAlarmTyped(s, client, id, attrs, clock);
      case ChangeAlarmReq(client, id, attrs, clock) => ChangeAlarmTyped(s, client, id, attrs, clock);
      case DestroyAlarm(id) =>
        if id in s.alarms { FreeAlarmTyped(s, id); }
      case FreeAwaitResource(id) =>
        if id in s.awaits { AllTypedBut(s, id); DroppedTyped(s, id); }
      case _ =>
    }
  }
}
