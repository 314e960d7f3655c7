/** When the loop that re-arms a firing alarm ends, and which requests keep the server away from
  alarms for which it does not.
 */
module SyncLoops {
  import opened SyncModel
  import opened SyncLinks
  import opened SyncTypes
  import opened SyncQuiescence

  // ---------- The loop ----------

  /** After `n` additions the loop stops: the last left INT64, or the trigger is false at the sum. */
  predicate StopsAt(f: CheckFn, test: Int64, delta: Int64, value: Int64, n: nat) {
    !Fits(test + n * delta) || !CheckAt(f, value, value, test + n * delta)
  }

  ghost predicate Ends(f: CheckFn, test: Int64, delta: Int64, value: Int64) {
    exists n: nat :: n > 0 && StopsAt(f, test, delta, value, n)
  }

  lemma SumLeavesRange(test: Int64, delta: Int64, n: nat)
    requires delta != 0 && n == 0x1_0000_0000_0000_0000
    ensures !Fits(test + n * delta)
  {
    if delta > 0 {
      assert n * delta >= n;
    } else {
      assert n * (delta + 1) <= 0;
    }
  }

  /** On a trigger that holds, the loop ends if and only if delta is not 0 or the trigger is no comparison. */
  lemma LoopEndsExactly(f: CheckFn, test: Int64, delta: Int64, value: Int64)
    requires IsComparison(f) ==> CheckAt(f, value, value, test)
    ensures Ends(f, test, delta, value) <==> delta != 0 || !IsComparison(f)
  {
    if delta != 0 {
      var n := 0x1_0000_0000_0000_0000;
      SumLeavesRange(test, delta, n);
      assert StopsAt(f, test, delta, value, n);
    } else if !IsComparison(f) {
      assert StopsAt(f, test, delta, value, 1);
    } else {
      forall n: nat
        ensures !StopsAt(f, test, delta, value, n)
      {
        assert n * delta == 0;
      }
    }
  }

  lemma ZeroDelta(f: CheckFn, test: Int64, value: Int64, n: nat)
    ensures StopsAt(f, test, 0, value, n) == StopsAt(f, test, 0, value, 1)
  {
    assert n * 0 == 0;
  }

  /** Where the loop stops first is what Rearm answers. */
  lemma {:induction false} RearmIsFirstStop(f: CheckFn, test: Int64, delta: Int64, value: Int64, n: nat)
    requires n > 0 && StopsAt(f, test, delta, value, n)
    requires forall k: nat :: 0 < k < n ==> !StopsAt(f, test, delta, value, k)
    ensures Rearm(f, test, delta, value) == if Fits(test + n * delta) then Some(test + n * delta) else None
    decreases n
  {
    if n > 1 {
      assert !StopsAt(f, test, delta, value, 1);
      ZeroDelta(f, test, value, n);
      var next: Int64 := test + delta;
      forall k: nat
        ensures StopsAt(f, next, delta, value, k) == StopsAt(f, test, delta, value, k + 1)
      {
        assert (k + 1) * delta == k * delta + delta;
      }
      RearmIsFirstStop(f, next, delta, value, n - 1);
      assert (n - 1) * delta + delta == n * delta;
    }
  }

  // ---------- Alarms ----------

  /** Firing the alarm, now or after it is made active, ends: either its test-type keeps a delta of 0 away from the
    loop, or the loop ends. */
  predicate LoopEnds(al: Alarm) {
    al.delta != 0 || ComparisonType(al.trigger.testType) || !IsComparison(al.trigger.check)
  }

  /** SyncAlarmTriggerFired runs the loop. */
  predicate EntersLoop(al: Alarm) {
    al.state == Active && al.trigger.sync != NONE && !(al.delta == 0 && ComparisonType(al.trigger.testType))
  }

  /** An active alarm with a counter whose trigger holds can be fired, with an end to it, exactly when LoopEnds. */
  lemma FiringEndsExactly(al: Alarm, value: Int64)
    requires al.state == Active && al.trigger.sync != NONE
    requires IsComparison(al.trigger.check) ==> CheckAt(al.trigger.check, value, value, al.trigger.testValue)
    ensures (EntersLoop(al) ==> Ends(al.trigger.check, al.trigger.testValue, al.delta, value)) <==> LoopEnds(al)
  {
    LoopEndsExactly(al.trigger.check, al.trigger.testValue, al.delta, value);
  }

  ghost predicate AllEnd(s: State) {
    forall a :: a in s.alarms ==> LoopEnds(s.alarms[a])
  }

  /** In a quiet server every firing ends. */
  lemma QuietAllEnd(s: State)
    requires QuietInv(s)
    ensures AllEnd(s)
  {
    forall a | a in s.alarms
      ensures LoopEnds(s.alarms[a])
    {
      assert AlarmTyped(s.alarms[a]);
    }
  }

  // ---------- Requests ----------

  lemma KeptEnd(s: State, s': State)
    requires AllEnd(s) && TypesStay(s, s')
    ensures AllEnd(s')
  {
  }

  /** A ChangeAlarm after which firing the alarm would end: the new delta is not 0, the new test-type is a comparison,
    the check function kept is none, or the check function is chosen anew. */
  ghost predicate EndingChange(s: State, req: Request) {
    req.ChangeAlarmReq? && req.id in s.alarms && CheckAttributes(s.alarms[req.id], req.attrs) == Success ==>
      var al := s.alarms[req.id];
      var t := WithAttributes(al.trigger, req.attrs);
      || Get(req.attrs.delta, al.delta) != 0 || ComparisonType(t.testType) || !IsComparison(al.trigger.check)
      || (req.attrs.testType.Some? && InitAccepts(s, t, Get(req.attrs.counter, t.sync), ChangesOf(req.attrs), req.clock))
  }

  lemma FiredLoop(s: State, a: XID)
    requires a in s.alarms
    ensures TypesStay(s, AlarmFired(s, a)) && AlarmFired(s, a).alarms.Keys == s.alarms.Keys
    ensures AllEnd(AlarmFired(s, a)) == AllEnd(s)
  {
    AlarmFiredShape(s, a);
    hide AlarmFired;
    var s' := AlarmFired(s, a);
    assert forall b :: b in s.alarms ==> LoopEnds(s'.alarms[b]) == LoopEnds(s.alarms[b]);
  }

  /** The alarm can be fired after its attributes were changed, exactly when the change is an ending one. */
  lemma AttributesEnd(s: State, client: Client, a: XID, attrs: AlarmAttributes, clock: map<XID, Int64>)
    requires AllEnd(s) && a in s.alarms
    ensures AllEnd(ChangeAlarmAttributes(s, client, a, attrs, clock).1)
      <==> EndingChange(s, ChangeAlarmReq(client, a, attrs, clock))
  {
    AttributesTypes(s, client, a, attrs, clock);
    hide ChangeAlarmAttributes, CheckAttributes, InitAccepts;
    var s' := ChangeAlarmAttributes(s, client, a, attrs, clock).1;
    assert AllEnd(s') <==> LoopEnds(s'.alarms[a]);
  }

  lemma ChangeAlarmEnd(s: State, client: Client, a: XID, attrs: AlarmAttributes, clock: map<XID, Int64>)
    requires AllEnd(s)
    ensures AllEnd(ChangeAlarm(s, client, a, attrs, clock).1)
      <==> EndingChange(s, ChangeAlarmReq(client, a, attrs, clock))
  {
    if a in s.alarms {
      AttributesEnd(s, client, a, attrs, clock);
      hide ChangeAlarmAttributes, EndingChange, AllEnd, AlarmFired;
      FiredLoop(ChangeAlarmAttributes(s, client, a, attrs, clock).1, a);
    }
  }

  /** A new alarm starts as a comparison with delta 1, and gets the check function of its test-type. */
  lemma CreatedEnd(s: State, client: Client, a: XID, attrs: AlarmAttributes, clock: map<XID, Int64>)
    requires AllEnd(s) && a !in s.alarms
    ensures var (rc, s1) := ChangeAlarmAttributes(SetAlarm(s, a, NewAlarm(client)), client, a, attrs, clock);
      (rc == Success ==> AllEnd(s1)) && AllEnd(s1.(alarms := s1.alarms - {a}))
  {
    var s0 := SetAlarm(s, a, NewAlarm(client));
    var (rc, s1) := ChangeAlarmAttributes(s0, client, a, attrs, clock);
    AttributesTypes(s0, client, a, attrs, clock);
    if rc == Success {
      AttributesAccepted(s0, client, a, attrs, clock);
      hide ChangeAlarmAttributes, CheckAttributes, InitAccepts;
      assert LoopEnds(s1.alarms[a]);
    }
  }

  lemma FinishedEnd(s: State, a: XID)
    requires AllEnd(s) && a in s.alarms
    ensures AllEnd(CreateFinished(s, a))
  {
    FiredLoop(s, a);
    hide AlarmFired;
  }

  lemma CreateAlarmEnd(s: State, client: Client, a: XID, attrs: AlarmAttributes, clock: map<XID, Int64>)
    requires AllEnd(s)
    ensures AllEnd(CreateAlarm(s, client, a, attrs, clock).1)
  {
    if !InUse(s, a) {
      CreatedEnd(s, client, a, attrs, clock);
      var (rc, s1) := ChangeAlarmAttributes(SetAlarm(s, a, NewAlarm(client)), client, a, attrs, clock);
      hide ChangeAlarmAttributes, CreateFinished, AllEnd, NewAlarm;
      if rc == Success {
        FinishedEnd(s1, a);
      }
    }
  }

  /** From a server where every firing ends, a request leads to another one exactly when it is an ending change. */
  lemma StepEnds(s: State, req: Request)
    requires ListInv(s) && AllEnd(s) && DistinctCounters(req)
    ensures AllEnd(Step(s, req).1) <==> EndingChange(s, req)
  {
    hide ChangeCounter, FreeCounter, AwaitRequest, CreateAlarm, ChangeAlarm, FreeAlarm, FreeAwait,
         ListInv, SameLinks, TypesStay;
    var s' := Step(s, req).1;
    match req {
      case SetCounterRequest(id, v) =>
        if id in s.counters { ChangeCounterTypes(s, id, v); KeptEnd(s, ChangeCounter(s, id, v)); }
      case ChangeCounterRequest(id, amount) =>
        if id in s.counters && CheckedAdd(amount, s.counters[id].value).Some? {
          var v := CheckedAdd(amount, s.counters[id].value).value;
          ChangeCounterTypes(s, id, v);
          KeptEnd(s, ChangeCounter(s, id, v));
        }
      case SystemTick(id, v) =>
        if id in s.counters { ChangeCounterTypes(s, id, v); KeptEnd(s, ChangeCounter(s, id, v)); }
      case DestroyCounter(id) =>
        if id in s.counters { FreeCounterTypes(s, id); KeptEnd(s, FreeCounter(s, id)); }
      case DestroySystemCounter(id) =>
        if id in s.counters { FreeCounterTypes(s, id); KeptEnd(s, FreeCounter(s, id)); }
      case AwaitReq(client, id, conds, clock) => AwaitRequestListInv(s, client, id, conds, clock);
      case CreateAlarmReq(client, id, attrs, clock) => CreateAlarmEnd(s, client, id, attrs, clock);
      case ChangeAlarmReq(client, id, attrs, clock) => ChangeAlarmEnd(s, client, id, attrs, clock);
      case DestroyAlarm(id) =>
        if id in s.alarms { FreeAlarmTypes(s, id); KeptEnd(s, FreeAlarm(s, id)); }
      case FreeAwaitResource(id) =>
        if id in s.awaits { AwaitFiredListInv(s, id); }
      case _ =>
    }
  }

  /** Each request of the run keeps every firing ending. */
  ghost predicate EndingRun(s: State, reqs: seq<Request>)
    decreases |reqs|
  {
    reqs == [] ||
    (DistinctCounters(reqs[0]) && EndingChange(s, reqs[0]) && EndingRun(Step(s, reqs[0]).1, reqs[1..]))
  }

  /** In a quiet server a harmless change is an ending one. */
  lemma HarmlessIsEnding(s: State, req: Request)
    requires QuietInv(s) && DistinctCounters(req) && HarmlessChange(s, req)
    ensures EndingChange(s, req)
  {
    StepQuietInv(s, req);
    QuietAllEnd(s);
    QuietAllEnd(Step(s, req).1);
    QuietListInv(s);
    hide Step, QuietInv, ListInv, EndingChange, HarmlessChange, AllEnd;
    StepEnds(s, req);
  }

  /** So in an orderly run every firing ends. */
  lemma {:induction false} OrderlyEnds(s: State, reqs: seq<Request>)
    requires QuietInv(s) && OrderlyRun(s, reqs)
    ensures EndingRun(s, reqs)
    decreases |reqs|
  {
    if reqs != [] {
      hide Step, QuietInv, HarmlessChange, EndingChange, DistinctCounters;
      StepQuietInv(s, reqs[0]);
      HarmlessIsEnding(s, reqs[0]);
      OrderlyEnds(Step(s, reqs[0]).1, reqs[1..]);
    }
  }

  // ---------- A change after which firing does not end ----------

  /** A counter at 10, an alarm that waits for it to reach 20, and a ChangeAlarm to delta 0 with the test-type 9, which
    does not exist. */
  const LOOPING_CHANGE: seq<Request> :=
    [ CreateCounter(1, 10),
      CreateAlarmReq(0, 2, NO_ATTRIBUTES.(counter := Some(1), value := Some(20)), map[]),
      ChangeAlarmReq(0, 2, NO_ATTRIBUTES.(testType := Some(9), delta := Some(0)), map[]) ]

  /** The refused change leaves the alarm active; as soon as the counter is set to 20 the loop is entered and never ends. */
  lemma RefusedChangeLoops()
    ensures var s2 := Run(INITIAL, LOOPING_CHANGE[..2]);
      var (rc, s3) := Step(s2, LOOPING_CHANGE[2]);
      && rc == BadValue && 1 in s3.counters && s3.counters[1].triglist == [AlarmTrigger(2)] && 2 in s3.alarms
      && var al := s3.alarms[2];
         Check(UpdateCounter(s3, 1, 20), al.trigger, 10) && EntersLoop(al)
         && !Ends(al.trigger.check, al.trigger.testValue, al.delta, 20)
  {
    assert LOOPING_CHANGE[..2] == REFUSED_CHANGE[..2];
    For20Reached();
    hide Run;
    LoopingOnce(FOR_20, FOR_20.alarms[2]);
  }

  lemma LoopingOnce(s2: State, al: Alarm)
    requires al == NewAlarm(0).(trigger := NEW_TRIGGER.(sync := 1, waitValue := 20, testValue := 20), state := Active)
    requires s2 == State(map[1 := Counter(10, [AlarmTrigger(2)], false, None)], map[2 := al], map[], {}, [])
    ensures var (rc, s3) := Step(s2, LOOPING_CHANGE[2]);
      && rc == BadValue && s3.counters == s2.counters
      && s3.alarms == map[2 := al.(delta := 0, trigger := al.trigger.(testType := 9))]
    ensures !Ends(PosComparison, 20, 0, 20)
  {
    var r := AlarmTrigger(2);
    var al3 := al.(delta := 0, trigger := al.trigger.(testType := 9));
    assert InitChecks(SetAlarm(s2, 2, al3), r, 1, Changes(false, false, false, true), map[])
        == (BadValue, SetSlot(SetAlarm(s2, 2, al3), r, al3.trigger));
    LoopEndsExactly(PosComparison, 20, 0, 20);
  }
}
