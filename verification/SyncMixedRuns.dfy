/** Runs in which wakeups of the idle-time handler and requests alternate: as long as each request leaves the counter
  covered, it can be checked lazily from every state on the way.
 */
module SyncMixedRuns {
  import opened SyncModel
  import opened SyncLinks
  import opened SyncTypes
  import opened SyncQuiescence
  import opened SyncBrackets
  import opened SyncLazy
  import opened SyncCoverage
  import opened SyncKept

  datatype Event = Wake(u: Wakeup) | Ask(req: Request)

  /** What the server does. */
  function Handle(s: State, c: XID, ev: Event): State
    requires IsSystem(s, c)
  {
    match ev
    case Wake(u) => IdleWakeup(s, c, u.wasReset, u.idle)
    case Ask(req) => Step(s, req).1
  }

  function MixedRun(s: State, c: XID, evs: seq<Event>): State
    decreases |evs|
  {
    if evs == [] || !IsSystem(s, c) then s else MixedRun(Handle(s, c, evs[0]), c, evs[1..])
  }

  /** The counter is covered and no comparison on it holds unnoticed. */
  ghost predicate CoveredCalm(s: State, c: XID) {
    Unrestrained(s, c) && Covered(s, c, s.counters[c].sys.value) && Calm(s, c)
  }

  /** A wakeup, or a request that is harmless and either does not touch the counter or leaves it covered and calm. */
  ghost predicate Covering(s: State, c: XID, ev: Event) {
    match ev
    case Wake(u) => INT64_MIN < u.idle < INT64_MAX
    case Ask(req) =>
      DistinctCounters(req) && HarmlessChange(s, req) && (Touches(s, req, c) ==> CoveredCalm(Step(s, req).1, c))
  }

  ghost predicate CoveringRun(s: State, c: XID, evs: seq<Event>)
    decreases |evs|
  {
    evs == [] || (IsSystem(s, c) && Covering(s, c, evs[0]) && CoveringRun(Handle(s, c, evs[0]), c, evs[1..]))
  }

  // ---------- Wakeups ----------

  lemma PassedCalm(s: State, c: XID, v: Int64)
    requires QuietInv(s) && CoveredCalm(s, c) && Passes(s.counters[c].sys.value, v)
    ensures QuietInv(UpdateCounter(s, c, v)) && CoveredCalm(UpdateCounter(s, c, v), c)
  {
    var s1, b := UpdateCounter(s, c, v), s.counters[c].sys.value;
    ValueQuietInv(s, c, v);
    hide QuietInv, Bracketed, Passes;
    forall r | r in s1.counters[c].triglist && Armed(s1, r)
      ensures Bracketed(b, v, Slot(s1, r)) && Quiet(s1, r)
    {
      assert Armed(s, r);
      PassedQuiet(b, s.counters[c].value, v, Slot(s, r));
      hide Armed;
      assert Quiet(s1, r) by { SyncListed(s, c, r); }
    }
  }

  lemma SyncListed(s: State, c: XID, r: TriggerRef)
    requires QuietInv(s) && c in s.counters && r in s.counters[c].triglist
    ensures Live(s, r) && Slot(s, r).sync == c
  {
  }

  lemma PassedQuiet(b: SysInfo, value: Int64, v: Int64, t: Trigger)
    requires Bracketed(b, value, t) && Passes(b, v)
    ensures Bracketed(b, v, t) && (IsComparison(t.check) ==> !CheckAt(t.check, v, v, t.testValue))
  {
  }

  lemma ValueQuietInv(s: State, c: XID, v: Int64)
    requires QuietInv(s) && IsSystem(s, c)
    ensures QuietInv(UpdateCounter(s, c, v))
  {
    hide ListInv, Placed, QuiescentExcept, SameLinks, QueryFrame;
    UpdateCounterSameLinks(s, c, v);
    StoredFrame(s, c, v);
    SystemOnlyWaitInv(s, UpdateCounter(s, c, v));
  }

  lemma StoredFrame(s: State, c: XID, v: Int64)
    requires IsSystem(s, c)
    ensures QueryFrame(s, UpdateCounter(s, c, v))
  {
  }

  lemma CheckedCalm(s: State, c: XID, v: Int64)
    requires QuietInv(s) && Unrestrained(s, c)
    ensures QuietInv(ChangeCounter(s, c, v)) && CoveredCalm(ChangeCounter(s, c, v), c)
  {
    var s1 := ChangeCounter(s, c, v);
    QuietParts(s);
    QuietCoherent(s);
    ChangeCounterWaitInv(s, c, v);
    ChangeCounterTyped(s, c, v);
    hide ChangeCounter, WaitInv, Typed, Placed, Covered, Quiet;
    ChangeCounterCovers(s, c, v);
    forall r | r in s1.counters[c].triglist
      ensures Quiet(s1, r)
    {
      ChangeCounterQuiet(s, c, v, r);
      ListInvLinked(s1);
      LinkedLive(s1, {}, c);
    }
  }

  lemma QuietCoherent(s: State)
    requires QuietInv(s)
    ensures Coherent(s) && Placed(s)
  {
  }

  lemma BracketsCalm(s: State, c: XID, v: Int64)
    requires QuietInv(s) && CoveredCalm(s, c) && INT64_MIN < v < INT64_MAX
    ensures QuietInv(CheckBrackets(s, c, v)) && CoveredCalm(CheckBrackets(s, c, v), c)
  {
    hide QuietInv, ChangeCounter, Covered, Calm;
    if Passes(s.counters[c].sys.value, v) { PassedCalm(s, c, v); } else { CheckedCalm(s, c, v); }
  }

  lemma WakeCalm(s: State, c: XID, u: Wakeup)
    requires QuietInv(s) && CoveredCalm(s, c) && INT64_MIN < u.idle < INT64_MAX
    ensures QuietInv(IdleWakeup(s, c, u.wasReset, u.idle)) && CoveredCalm(IdleWakeup(s, c, u.wasReset, u.idle), c)
  {
    hide QuietInv, CheckBrackets, Covered, Calm;
    var s1 := s;
    if u.wasReset && u.idle != 0 {
      BracketsCalm(s, c, 0);
      s1 := CheckBrackets(s, c, 0);
    }
    BracketsCalm(s1, c, u.idle);
  }

  // ---------- Requests and runs ----------

  lemma AskCalm(s: State, c: XID, req: Request)
    requires QuietInv(s) && CoveredCalm(s, c) && Covering(s, c, Ask(req))
    ensures QuietInv(Step(s, req).1) && CoveredCalm(Step(s, req).1, c)
  {
    QuietParts(s);
    QuietCoherent(s);
    hide QuietInv, Step, Covered, Calm, Touches, HarmlessChange, DistinctCounters, ListInv, Coherent;
    StepQuietInv(s, req);
    if !Touches(s, req, c) { StepKeepsCovered(s, req, c); }
  }

  /** In every state such a run reaches from a quiet server whose counter is covered and calm, it is so again, and from
    there on any wakeups can be checked lazily. */
  lemma {:induction false} MixedRunSound(s: State, c: XID, evs: seq<Event>)
    requires QuietInv(s) && CoveredCalm(s, c) && CoveringRun(s, c, evs)
    ensures var s' := MixedRun(s, c, evs); QuietInv(s') && CoveredCalm(s', c) && LazySound(s', c)
    decreases |evs|
  {
    hide QuietInv, LazySound, Covered, Calm, Covering, Handle;
    if evs == [] {
      CalmSound(s, c);
    } else {
      HandleCalm(s, c, evs[0]);
      MixedRunSound(Handle(s, c, evs[0]), c, evs[1..]);
    }
  }

  lemma HandleCalm(s: State, c: XID, ev: Event)
    requires QuietInv(s) && CoveredCalm(s, c) && Covering(s, c, ev)
    ensures QuietInv(Handle(s, c, ev)) && CoveredCalm(Handle(s, c, ev), c)
  {
    hide QuietInv, IdleWakeup, Step, Covered, Calm;
    match ev
    case Wake(u) => WakeCalm(s, c, u);
    case Ask(req) => AskCalm(s, c, req);
  }

  lemma CalmSound(s: State, c: XID)
    requires QuietInv(s) && CoveredCalm(s, c)
    ensures LazySound(s, c)
  {
    QuietParts(s);
    QuietCoherent(s);
    hide QuietInv, LazySound, Covered, Calm, NoneMissed, ListInv, Coherent;
    CoveredNoneMissed(s, c, s.counters[c].sys.value);
    LazySoundExactly(s, c);
  }

  // ---------- Why the two servers are not compared across requests ----------

  /** A counter without brackets, last looked at when it stood at 10, and an alarm there that is not active. */
  const IDLE_ALARM := State(
    map[1 := Counter(10, [AlarmTrigger(2)], false, Some(SysInfo(Unrestricted, INT64_MIN, INT64_MAX, false, false)))],
    map[2 := NewAlarm(0).(trigger := NEW_TRIGGER.(sync := 1, waitValue := 5, testValue := 5), delta := 0, state := Inactive)],
    map[], {}, [])

  /** Without brackets the handler does not store the idle time. After a wakeup at 50 the event that tells of the alarm's
    destruction shows 10, where a server that checked its triggers shows 50. */
  lemma DestroyTellsOldValue()
    ensures IdleWakeup(IDLE_ALARM, 1, false, 50) == IDLE_ALARM
    ensures Step(IDLE_ALARM, DestroyAlarm(2)).1.out == [AlarmNotify(0, 2, 5, 10, Destroyed)]
    ensures Step(UpdateCounter(IDLE_ALARM, 1, 50), DestroyAlarm(2)).1.out == [AlarmNotify(0, 2, 5, 50, Destroyed)]
  {
    ToldValue(IDLE_ALARM);
    ToldValue(UpdateCounter(IDLE_ALARM, 1, 50));
  }

  lemma ToldValue(s: State)
    requires s.alarms == IDLE_ALARM.alarms && s.out == [] && 1 in s.counters
    ensures FreeAlarm(s, 2).out == [AlarmNotify(0, 2, 5, s.counters[1].value, Destroyed)]
  {
    var s1 := SetAlarm(s, 2, s.alarms[2].(state := Destroyed));
    assert [0] + [] == [0];
    assert AlarmEvents([0], 2, 5, s.counters[1].value, Destroyed) == [AlarmNotify(0, 2, 5, s.counters[1].value, Destroyed)];
    assert [] + [AlarmNotify(0, 2, 5, s.counters[1].value, Destroyed)] == [AlarmNotify(0, 2, 5, s.counters[1].value, Destroyed)];
    var s2 := SendAlarmNotify(s1, 2);
    assert s2.out == [AlarmNotify(0, 2, 5, s.counters[1].value, Destroyed)];
    hide SendAlarmNotify, DeleteTrigger;
    DeleteTriggerFrame(s2, AlarmTrigger(2));
  }

  // ---------- Why check functions have to be those of the test-types ----------

  const TO_NO_TYPE := AlarmAttributes(None, None, None, Some(9), None, None, false)

  /** The alarm of WAITING after a ChangeAlarm to a test-type that does not exist. */
  const UNTYPED := WAITING.(alarms := map[2 := WAITING.alarms[2].(trigger := WAITING.alarms[2].trigger.(testType := 9))])

  lemma UntypedReached()
    ensures Step(WAITING, ChangeAlarmReq(0, 2, TO_NO_TYPE, map[1 := 10])) == (BadValue, UNTYPED)
  {
    var al := UNTYPED.alarms[2];
    var s1 := SetAlarm(WAITING, 2, al);
    assert s1 == UNTYPED;
    assert QueryValue(s1, 1, map[1 := 10]) == s1;
    SetSlotSame(s1, AlarmTrigger(2));
    assert InitChecks(s1, AlarmTrigger(2), 1, ChangesOf(TO_NO_TYPE), map[1 := 10]) == (BadValue, s1);
    assert CheckAttributes(WAITING.alarms[2], TO_NO_TYPE) == Success;
    hide InitChecks, Relink, AlarmFired;
    assert ChangeAlarmAttributes(WAITING, 0, 2, TO_NO_TYPE, map[1 := 10]) == (BadValue, UNTYPED);
  }

  /** The next SyncChangeCounter sets no brackets for it, and at idle time 30 it is passed over. */
  lemma UntypedIsNotBracketed()
    ensures var s1 := ChangeCounter(UNTYPED, 1, 12);
      && s1.counters.Keys == {1} && IsSystem(s1, 1) && s1.alarms == UNTYPED.alarms && s1.out == []
      && IdleWakeup(s1, 1, false, 30) == s1
      && ChangeCounter(s1, 1, 30).out == [AlarmNotify(0, 2, 25, 30, Active)]
  {
    var r := AlarmTrigger(2);
    assert [r][1..] == [];
    var s0 := UpdateCounter(UNTYPED, 1, 12);
    assert !Check(s0, Slot(s0, r), 10);
    assert TriggerWalk(s0, [r], 10) == TriggerWalk(s0, [], 10);
    assert BracketStep(RESET, 12, Slot(s0, r)) == RESET;
    assert BracketWalk(s0, [r], 12, RESET) == BracketWalk(s0, [], 12, RESET);
    var s1 := ChangeCounter(UNTYPED, 1, 12);
    assert s1 == ComputeBrackets(s0, 1);
    assert s1.counters[1] == Counter(12, [r], false, Some(RESET));
    UntypedFires(s1);
  }

  lemma UntypedFires(s1: State)
    requires s1 == UNTYPED.(counters := map[1 := Counter(12, [AlarmTrigger(2)], false, Some(RESET))])
    ensures ChangeCounter(s1, 1, 30).out == [AlarmNotify(0, 2, 25, 30, Active)]
  {
    var r := AlarmTrigger(2);
    var s2 := UpdateCounter(s1, 1, 30);
    assert Rearm(PosComparison, 25, 25, 30) == Some(50);
    assert AlarmEvents([0], 2, 25, 30, Active) == [AlarmNotify(0, 2, 25, 30, Active)];
    assert [0] + [] == [0];
    var s3 := AlarmFired(s2, 2);
    assert s3.out == [] + [AlarmNotify(0, 2, 25, 30, Active)];
    assert [r][1..] == [] && Check(s2, Slot(s2, r), 12);
    hide AlarmFired;
    assert TriggerWalk(s2, [r], 12) == TriggerWalk(s3, [], 12);
    ComputeBracketsFrame(s3, 1);
  }
}
