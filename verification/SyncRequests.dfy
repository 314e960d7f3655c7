/** What each request about counters and alarms does, field by field: the status, the values, the alarm and the events
  that follow from the request and the state before it, in the numbers and rules of the protocol.
 */
module SyncRequests {
  import opened SyncModel
  import opened SyncLinks
  import opened SyncTypes
  import opened SyncRearm
  import opened SyncQuiescence
  import opened SyncCoverage
  import opened SyncUncovered
  import opened SyncFires

  // ---------- Values ----------

  /** What a request finds as the value of a counter: the driver's answer for a system counter, 0 without a counter. */
  function Reads(s: State, c: XID, clock: map<XID, Int64>): Int64 {
    if c !in s.counters then 0
    else if s.counters[c].sys.Some? && c in clock then clock[c]
    else s.counters[c].value
  }

  /** The counters are those there were, and only the value of `c` may be another: it is `v`. */
  ghost predicate ValuesBut(s: State, s': State, c: XID, v: int) {
    && s'.counters.Keys == s.counters.Keys
    && forall d :: d in s.counters ==> s'.counters[d].value == if d == c then v else s.counters[d].value
  }

  lemma QueryReads(s: State, c: XID, clock: map<XID, Int64>)
    ensures ValuesBut(s, QueryValue(s, c, clock), c, Reads(s, c, clock))
    ensures ValueOf(QueryValue(s, c, clock), c) == Reads(s, c, clock)
    ensures Asked(s, c, clock) == Reads(s, c, clock)
  {
  }

  lemma ValuesFrame(s: State, s1: State, s2: State, c: XID, v: int)
    requires ValuesBut(s, s1, c, v) && (CounterFrame(s1, s2) || s2.counters == s1.counters)
    ensures ValuesBut(s, s2, c, v)
  {
  }

  // ---------- SyncInitTrigger ----------

  /** The check function is the one for the number of the test-type. */
  predicate Suits(testType: nat, f: CheckFn) {
    || (testType == 0 && f == PosTransition)
    || (testType == 1 && f == NegTransition)
    || (testType == 2 && f == PosComparison)
    || (testType == 3 && f == NegComparison)
  }

  /** An absolute value is the test value; a relative one is added to what the counter shows. */
  function Aim(valueType: nat, waitValue: int, now: int): int {
    if valueType == 0 then waitValue else now + waitValue
  }

  /** The new trigger `t'` after `t` was given to SyncInitTrigger for counter `c`, which shows `now`. */
  predicate Initialised(t: Trigger, t': Trigger, c: XID, ch: Changes, now: int) {
    && t'.sync == c && t'.valueType == t.valueType && t'.waitValue == t.waitValue && t'.testType == t.testType
    && t'.testValue == (if ch.valueType || ch.value then Aim(t.valueType, t.waitValue, now) else t.testValue)
    && (if ch.testType then Suits(t.testType, t'.check) else t'.check == t.check)
  }

  /** The answer of SyncInitTrigger as far as counter, value-type and test value go. */
  function ValueVerdict(s: State, t: Trigger, c: XID, ch: Changes, clock: map<XID, Int64>): Status {
    if ch.counter && c != 0 && c !in s.counters then BadCounter
    else if ch.valueType && t.valueType > 1 then BadValue
    else if (ch.valueType || ch.value) && t.valueType != 0 && c == 0 then BadMatch
    else if (ch.valueType || ch.value) && t.valueType != 0 && !Fits(Reads(s, c, clock) + t.waitValue) then BadValue
    else Success
  }

  /** The answer of SyncInitTrigger. */
  function Verdict(s: State, t: Trigger, syncObject: XID, ch: Changes, clock: map<XID, Int64>): Status {
    var value := ValueVerdict(s, t, if ch.counter then syncObject else t.sync, ch, clock);
    if value != Success then value else if ch.testType && t.testType > 3 then BadValue else Success
  }

  lemma InitVerdict(s: State, r: TriggerRef, syncObject: XID, ch: Changes, clock: map<XID, Int64>)
    requires Live(s, r)
    ensures InitTrigger(s, r, syncObject, ch, clock).0 == Verdict(s, Slot(s, r), syncObject, ch, clock)
  {
    QueryReads(s, if ch.counter then syncObject else Slot(s, r).sync, clock);
    hide Relink, QueryValue, SetSlot, Reads, ValuesBut;
  }

  /** An accepted SyncInitTrigger: the trigger it leaves, and the one value that may have changed. */
  lemma InitStores(s: State, r: TriggerRef, syncObject: XID, ch: Changes, clock: map<XID, Int64>)
    requires Live(s, r) && InitTrigger(s, r, syncObject, ch, clock).0 == Success
    ensures var s' := InitTrigger(s, r, syncObject, ch, clock).1;
      var c := if ch.counter then syncObject else Slot(s, r).sync;
      && Live(s', r) && Initialised(Slot(s, r), Slot(s', r), c, ch, Reads(s, c, clock))
      && (forall q :: Live(s', q) == Live(s, q) && (Live(s, q) && q != r ==> Slot(s', q) == Slot(s, q)))
      && ValuesBut(s, s', c, Reads(s, c, clock)) && s'.out == s.out && s'.gone == s.gone
  {
    hide *;
    var c := if ch.counter then syncObject else Slot(s, r).sync;
    var s1, t := QueryValue(s, c, clock), AcceptedTrigger(s, Slot(s, r), syncObject, ch, clock);
    var t0 := t.(sync := Slot(s, r).sync);
    InitUnfold(s, r, syncObject, ch, clock);
    InitVerdict(s, r, syncObject, ch, clock);
    AcceptedInitialised(s, Slot(s, r), syncObject, ch, clock);
    QueryReads(s, c, clock);
    QueryValueFrame(s, c, clock);
    SetSlotFrame(s1, r, t0);
    SetSlotParts(s, s1, r, t0);
    SetSlotParts(s, s1, r, t);
    var s2 := SetSlot(s1, r, t0);
    RelinkFrame(s2, r, c);
    SetSlotTwice(s1, r, t0, t);
    ValuesFrame(s, s1, s2, c, Reads(s, c, clock));
    ValuesFrame(s, s2, Relink(s2, r, c), c, Reads(s, c, clock));
    SlotsAfter(s, InitTrigger(s, r, syncObject, ch, clock).1, r, t);
  }

  lemma SlotsAfter(s: State, s': State, r: TriggerRef, t: Trigger)
    requires Live(s, r) && s'.alarms == SetSlot(s, r, t).alarms && s'.awaits == SetSlot(s, r, t).awaits
    ensures Live(s', r) && Slot(s', r) == t
    ensures forall q :: Live(s', q) == Live(s, q) && (Live(s, q) && q != r ==> Slot(s', q) == Slot(s, q))
  {
  }

  lemma AcceptedInitialised(s: State, t: Trigger, syncObject: XID, ch: Changes, clock: map<XID, Int64>)
    requires Verdict(s, t, syncObject, ch, clock) == Success
    ensures var c := if ch.counter then syncObject else t.sync;
      Initialised(t, AcceptedTrigger(s, t, syncObject, ch, clock), c, ch, Reads(s, c, clock))
  {
    QueryReads(s, if ch.counter then syncObject else t.sync, clock);
    hide QueryValue, Reads, ValuesBut;
  }

  // ---------- Events ----------

  /** `ys` is `xs` without the first `x`. */
  ghost predicate Lost<T(!new)>(xs: seq<T>, x: T, ys: seq<T>) {
    if x !in xs then ys == xs
    else exists i :: 0 <= i < |xs| && xs[i] == x && x !in xs[..i] && ys == xs[..i] + xs[i + 1..]
  }

  lemma {:induction false} RemovedAt<T(!new)>(xs: seq<T>, x: T) returns (i: nat)
    requires x in xs
    ensures i < |xs| && xs[i] == x && x !in xs[..i] && RemoveFirst(xs, x) == xs[..i] + xs[i + 1..]
  {
    if xs[0] == x {
      i := 0;
    } else {
      var j := RemovedAt(xs[1..], x);
      i := j + 1;
      assert xs[..i] == [xs[0]] + xs[1..][..j] && xs[i + 1..] == xs[1..][j + 1..];
    }
  }

  lemma {:induction false} NothingRemoved<T(!new)>(xs: seq<T>, x: T)
    requires x !in xs
    ensures RemoveFirst(xs, x) == xs
  {
    if xs != [] { NothingRemoved(xs[1..], x); }
  }

  lemma RemoveLoses<T(!new)>(xs: seq<T>, x: T)
    ensures Lost(xs, x, RemoveFirst(xs, x))
  {
    if x in xs {
      var i := RemovedAt(xs, x);
    } else {
      NothingRemoved(xs, x);
    }
  }

  /** The alarm's owner says whether it wants events; other clients come to the front of the list or leave it. */
  ghost predicate Selects(al: Alarm, al': Alarm, client: Client, events: Option<nat>) {
    match events
    case None => al'.events == al.events && al'.eventClients == al.eventClients
    case Some(v) =>
      if client == al.client then al'.events == (v == 1) && al'.eventClients == al.eventClients
      else
        && al'.events == al.events
        && if v != 1 then Lost(al.eventClients, client, al'.eventClients)
           else al'.eventClients == if client in al.eventClients then al.eventClients else [client] + al.eventClients
  }

  lemma SelectSelects(al: Alarm, client: Client, want: nat)
    ensures var al' := EventSelect(al, client, want == 1);
      Selects(al, al', client, Some(want)) && al' == al.(events := al'.events, eventClients := al'.eventClients)
  {
    RemoveLoses(al.eventClients, client);
    hide RemoveFirst, Lost;
    assert Lost(al.eventClients, client, al.eventClients) || client in al.eventClients by { NothingLost(al.eventClients, client); }
  }

  lemma NothingLost<T(!new)>(xs: seq<T>, x: T)
    ensures x !in xs ==> Lost(xs, x, xs)
  {
  }

  // ---------- The attributes of an alarm ----------

  function Or<T>(o: Option<T>, default: T): T {
    if o.Some? then o.value else default
  }

  /** A positive test-type does not go with a negative delta, nor a negative one with a positive delta. */
  predicate SignsDisagree(testType: nat, delta: int) {
    ((testType == 0 || testType == 2) && delta < 0) || ((testType == 1 || testType == 3) && delta > 0)
  }

  /** The requested fields are in the alarm; counter, check function, test value and state are still the old ones. */
  ghost predicate Written(al: Alarm, al1: Alarm, client: Client, attrs: AlarmAttributes) {
    && Selects(al, al1, client, attrs.events)
    && al1.client == al.client && al1.state == al.state && al1.delta == Or(attrs.delta, al.delta)
    && al1.trigger.valueType == Or(attrs.valueType, al.trigger.valueType)
    && al1.trigger.waitValue == Or(attrs.value, al.trigger.waitValue)
    && al1.trigger.testType == Or(attrs.testType, al.trigger.testType)
    && al1.trigger.sync == al.trigger.sync && al1.trigger.check == al.trigger.check
    && al1.trigger.testValue == al.trigger.testValue
  }

  lemma PreparedWritten(al: Alarm, client: Client, attrs: AlarmAttributes)
    ensures Written(al, PreparedAlarm(al, client, attrs), client, attrs)
  {
    if attrs.events.Some? { SelectSelects(al, client, attrs.events.value); }
    hide EventSelect, Lost;
  }

  /** Which of the requested attributes are present. */
  function Present(attrs: AlarmAttributes): Changes {
    Changes(attrs.counter.Some?, attrs.valueType.Some?, attrs.value.Some?, attrs.testType.Some?)
  }

  predicate BadAttribute(attrs: AlarmAttributes) {
    attrs.unknownBits || (attrs.events.Some? && attrs.events.value > 1)
  }

  /** Delta or test-type is given, and what then holds of them does not go together. */
  predicate BadDelta(al: Alarm, attrs: AlarmAttributes) {
    (attrs.delta.Some? || attrs.testType.Some?)
    && SignsDisagree(Or(attrs.testType, al.trigger.testType), Or(attrs.delta, al.delta))
  }

  function AttributesVerdict(s: State, al: Alarm, attrs: AlarmAttributes, clock: map<XID, Int64>): Status {
    if BadAttribute(attrs) then BadValue
    else if BadDelta(al, attrs) then BadMatch
    else
      var t := al.trigger.(valueType := Or(attrs.valueType, al.trigger.valueType),
                           waitValue := Or(attrs.value, al.trigger.waitValue),
                           testType := Or(attrs.testType, al.trigger.testType));
      Verdict(s, t, Or(attrs.counter, al.trigger.sync), Present(attrs), clock)
  }

  lemma VerdictLocal(s: State, s1: State, t: Trigger, syncObject: XID, ch: Changes, clock: map<XID, Int64>)
    requires s1.counters == s.counters
    ensures Verdict(s1, t, syncObject, ch, clock) == Verdict(s, t, syncObject, ch, clock)
    ensures Reads(s1, syncObject, clock) == Reads(s, syncObject, clock)
  {
  }

  lemma CheckedAttributes(al: Alarm, attrs: AlarmAttributes)
    ensures CheckAttributes(al, attrs) ==
      (if BadAttribute(attrs) then BadValue else if BadDelta(al, attrs) then BadMatch else Success)
  {
  }

  lemma AttributesAnswer(s: State, client: Client, a: XID, attrs: AlarmAttributes, clock: map<XID, Int64>)
    requires a in s.alarms
    ensures ChangeAlarmAttributes(s, client, a, attrs, clock).0 == AttributesVerdict(s, s.alarms[a], attrs, clock)
  {
    CheckedAttributes(s.alarms[a], attrs);
    if CheckAttributes(s.alarms[a], attrs) == Success {
      var al1, c := PreparedAlarm(s.alarms[a], client, attrs), Get(attrs.counter, s.alarms[a].trigger.sync);
      var s1 := SetAlarm(s, a, al1);
      EventSelectTrigger(s.alarms[a], client, attrs.events);
      InitVerdict(s1, AlarmTrigger(a), c, ChangesOf(attrs), clock);
      VerdictLocal(s, s1, al1.trigger, c, ChangesOf(attrs), clock);
    }
    hide InitTrigger, EventSelect, Verdict, BadAttribute, BadDelta, CheckAttributes;
  }

  /** The alarm SyncChangeAlarmAttributes makes of `al` when it accepts the request. */
  ghost predicate Becomes(s: State, al: Alarm, al': Alarm, client: Client, attrs: AlarmAttributes, clock: map<XID, Int64>) {
    var c := Or(attrs.counter, al.trigger.sync);
    exists al1: Alarm :: Written(al, al1, client, attrs)
      && Initialised(al1.trigger, al'.trigger, c, Present(attrs), Reads(s, c, clock))
      && al' == al1.(state := Active, trigger := al'.trigger)
  }

  lemma AttributesGive(s: State, client: Client, a: XID, attrs: AlarmAttributes, clock: map<XID, Int64>)
    requires a in s.alarms && ChangeAlarmAttributes(s, client, a, attrs, clock).0 == Success
    ensures var s' := ChangeAlarmAttributes(s, client, a, attrs, clock).1;
      var c := Or(attrs.counter, s.alarms[a].trigger.sync);
      && a in s'.alarms && Becomes(s, s.alarms[a], s'.alarms[a], client, attrs, clock)
      && s'.alarms == s.alarms[a := s'.alarms[a]] && s'.awaits == s.awaits && s'.out == s.out && s'.gone == s.gone
      && ValuesBut(s, s', c, Reads(s, c, clock))
  {
    hide *;
    var al1, c := PreparedAlarm(s.alarms[a], client, attrs), Or(attrs.counter, s.alarms[a].trigger.sync);
    var s1 := SetAlarm(s, a, al1);
    PreparedWritten(s.alarms[a], client, attrs);
    AttributesUnfold(s, client, a, attrs, clock);
    assert al1.trigger.sync == s.alarms[a].trigger.sync;
    AttributesPlain(s, a, al1, attrs);
    VerdictLocal(s, s1, al1.trigger, c, Present(attrs), clock);
    InitStores(s1, AlarmTrigger(a), c, Present(attrs), clock);
    var s2 := InitTrigger(s1, AlarmTrigger(a), c, Present(attrs), clock).1;
    var t := InitTriggerShape(s1, AlarmTrigger(a), c, Present(attrs), clock);
    GivenAlarm(s, s1, s2, a, al1, t, client, attrs, clock);
  }

  lemma AttributesPlain(s: State, a: XID, al1: Alarm, attrs: AlarmAttributes)
    requires a in s.alarms
    ensures ChangesOf(attrs) == Present(attrs)
    ensures Get(attrs.counter, s.alarms[a].trigger.sync) == Or(attrs.counter, s.alarms[a].trigger.sync)
    ensures !Present(attrs).counter ==> Or(attrs.counter, s.alarms[a].trigger.sync) == s.alarms[a].trigger.sync
    ensures var s1 := SetAlarm(s, a, al1);
      && s1.counters == s.counters && Live(s1, AlarmTrigger(a)) && a in s1.alarms && Slot(s1, AlarmTrigger(a)) == al1.trigger
  {
  }

  lemma GivenAlarm(s: State, s1: State, s2: State, a: XID, al1: Alarm, t: Trigger, client: Client,
                   attrs: AlarmAttributes, clock: map<XID, Int64>)
    requires a in s.alarms && s1 == SetAlarm(s, a, al1) && Written(s.alarms[a], al1, client, attrs)
    requires Live(s1, AlarmTrigger(a)) && Live(s2, AlarmTrigger(a))
    requires s2.alarms == SetSlot(s1, AlarmTrigger(a), t).alarms && s2.awaits == SetSlot(s1, AlarmTrigger(a), t).awaits
    requires s2.out == s1.out && s2.gone == s1.gone
    requires var c := Or(attrs.counter, s.alarms[a].trigger.sync);
      && ValuesBut(s1, s2, c, Reads(s, c, clock)) && al1.trigger == Slot(s1, AlarmTrigger(a))
      && Initialised(al1.trigger, Slot(s2, AlarmTrigger(a)), c, Present(attrs), Reads(s, c, clock))
    ensures var s' := SetAlarm(s2, a, s2.alarms[a].(state := Active));
      var c := Or(attrs.counter, s.alarms[a].trigger.sync);
      && Becomes(s, s.alarms[a], s'.alarms[a], client, attrs, clock)
      && s'.alarms == s.alarms[a := s'.alarms[a]] && s'.awaits == s.awaits && s'.out == s.out && s'.gone == s.gone
      && ValuesBut(s, s', c, Reads(s, c, clock))
  {
    hide Written, Initialised, Reads, Present, Or;
    assert s2.alarms[a] == al1.(trigger := t) && Slot(s2, AlarmTrigger(a)) == t;
  }

  // ---------- CreateAlarm and ChangeAlarm ----------

  /** The alarm CreateAlarm starts from: absolute value 0, PositiveComparison, delta 1, events for its owner. */
  function BlankAlarm(client: Client): Alarm {
    Alarm(Trigger(0, 0, 0, 2, PosComparison, 0), client, 1, true, Inactive, [])
  }

  predicate Taken(s: State, id: XID) {
    id == 0 || id in s.counters || id in s.alarms || id in s.awaits
  }

  /** What is true of a counter that stands still at `now`: a comparison may be, a transition never is. */
  predicate HoldsNow(t: Trigger, now: int) {
    (t.testType == 2 && now >= t.testValue) || (t.testType == 3 && now <= t.testValue)
  }

  lemma CreateAlarmAnswer(s: State, client: Client, a: XID, attrs: AlarmAttributes, clock: map<XID, Int64>)
    ensures CreateAlarm(s, client, a, attrs, clock).0 ==
      if Taken(s, a) then BadIDChoice else AttributesVerdict(s, BlankAlarm(client), attrs, clock)
  {
    hide ChangeAlarmAttributes, AttributesVerdict, CreateFinished;
    var s0 := SetAlarm(s, a, NewAlarm(client));
    AttributesAnswer(s0, client, a, attrs, clock);
    AttributesLocal(s, s0, BlankAlarm(client), attrs, clock);
  }

  lemma AttributesLocal(s: State, s1: State, al: Alarm, attrs: AlarmAttributes, clock: map<XID, Int64>)
    requires s1.counters == s.counters
    ensures AttributesVerdict(s1, al, attrs, clock) == AttributesVerdict(s, al, attrs, clock)
    ensures forall al', client :: Becomes(s1, al, al', client, attrs, clock) == Becomes(s, al, al', client, attrs, clock)
    ensures Reads(s1, Or(attrs.counter, al.trigger.sync), clock) == Reads(s, Or(attrs.counter, al.trigger.sync), clock)
  {
    hide Written, Initialised, BadAttribute, BadDelta;
  }

  lemma ChangeAlarmAnswer(s: State, client: Client, a: XID, attrs: AlarmAttributes, clock: map<XID, Int64>)
    ensures ChangeAlarm(s, client, a, attrs, clock).0 ==
      if a !in s.alarms then BadAlarm else AttributesVerdict(s, s.alarms[a], attrs, clock)
  {
    hide ChangeAlarmAttributes, AttributesVerdict, AlarmFired;
    if a in s.alarms { AttributesAnswer(s, client, a, attrs, clock); }
  }

  lemma GivenTyped(s: State, al: Alarm, al': Alarm, client: Client, attrs: AlarmAttributes, clock: map<XID, Int64>)
    requires AlarmTyped(al) && Becomes(s, al, al', client, attrs, clock) && !BadDelta(al, attrs)
    ensures AlarmTyped(al') && al'.state == Active && al'.trigger.sync == Or(attrs.counter, al.trigger.sync)
  {
    hide Selects;
  }

  /** The last step of both requests on a counter: fire if the alarm's comparison holds. */
  lemma HoldsAndFires(s: State, a: XID)
    requires a in s.alarms && s.alarms[a].state == Active && AlarmTyped(s.alarms[a])
    requires s.alarms[a].trigger.sync != NONE && s.alarms[a].trigger.sync in s.counters
    ensures var al, now := s.alarms[a], s.counters[s.alarms[a].trigger.sync].value;
      var al' := FiredAlarm(al, now);
      && (Check(s, al.trigger, now) <==> HoldsNow(al.trigger, now))
      && (HoldsNow(al.trigger, now) ==>
            AlarmFired(s, a) == s.(alarms := s.alarms[a := al'], out := s.out + Told(al, a, now, al'.state)))
  {
    var al, now := s.alarms[a], s.counters[s.alarms[a].trigger.sync].value;
    CheckCrosses(al.trigger, now, now);
    ComparisonCrosses(al.trigger);
    hide AlarmFired, FiredAlarm, Told, TriggerOk, CheckAt;
    if HoldsNow(al.trigger, now) {
      assert Check(s, al.trigger, 0) by { ComparisonForgets(al.trigger, now, 0); }
      FiringTells(s, a);
    }
  }

  lemma ComparisonForgets(t: Trigger, now: Int64, before: Int64)
    requires TriggerOk(t) && HoldsNow(t, now)
    ensures CheckAt(t.check, now, before, t.testValue)
  {
  }

  /** The alarm and the events CreateAlarm ends with: without a counter it is inactive, and it fires at once if its
    comparison holds. */
  lemma CreateAlarmGives(s: State, client: Client, a: XID, attrs: AlarmAttributes, clock: map<XID, Int64>)
    returns (ready: Alarm)
    requires ListInv(s) && CreateAlarm(s, client, a, attrs, clock).0 == Success
    ensures Becomes(s, BlankAlarm(client), ready, client, attrs, clock)
    ensures var s' := CreateAlarm(s, client, a, attrs, clock).1;
      var c := Or(attrs.counter, 0);
      var now := Reads(s, c, clock);
      var fires := c != 0 && HoldsNow(ready.trigger, now);
      var al' := if c == 0 then ready.(state := Inactive) else if fires then FiredAlarm(ready, now) else ready;
      && a !in s.alarms && s'.alarms == s.alarms[a := al'] && s'.awaits == s.awaits && s'.gone == s.gone
      && s'.out == s.out + (if fires then Told(ready, a, now, al'.state) else [])
      && ValuesBut(s, s', c, now)
  {
    var s0, c := SetAlarm(s, a, NewAlarm(client)), Or(attrs.counter, 0);
    assert NewAlarm(client) == BlankAlarm(client) && AlarmTyped(NewAlarm(client)) && s0.counters == s.counters;
    assert s0.alarms == s.alarms[a := NewAlarm(client)];
    CreateAlarmAnswer(s, client, a, attrs, clock);
    CreateAlarmParts(s, client, a, attrs, clock);
    CounterKnown(s, BlankAlarm(client), attrs, clock);
    hide *;
    AttributesLocal(s, s0, BlankAlarm(client), attrs, clock);
    AttributesGive(s0, client, a, attrs, clock);
    var s1 := ChangeAlarmAttributes(s0, client, a, attrs, clock).1;
    ready := s1.alarms[a];
    GivenTyped(s, BlankAlarm(client), ready, client, attrs, clock);
    CreatedEnds(s, s0, s1, a, c, Reads(s, c, clock));
  }

  lemma CreateAlarmParts(s: State, client: Client, a: XID, attrs: AlarmAttributes, clock: map<XID, Int64>)
    requires CreateAlarm(s, client, a, attrs, clock).0 == Success
    ensures var s0 := SetAlarm(s, a, NewAlarm(client));
      && a !in s.alarms && a in s0.alarms && ChangeAlarmAttributes(s0, client, a, attrs, clock).0 == Success
      && CreateAlarm(s, client, a, attrs, clock).1 == CreateFinished(ChangeAlarmAttributes(s0, client, a, attrs, clock).1, a)
  {
    hide ChangeAlarmAttributes, CreateFinished;
  }

  lemma CounterKnown(s: State, al: Alarm, attrs: AlarmAttributes, clock: map<XID, Int64>)
    requires ListInv(s) && AttributesVerdict(s, al, attrs, clock) == Success
    requires al.trigger.sync == NONE || al.trigger.sync in s.counters
    ensures var c := Or(attrs.counter, al.trigger.sync); (c == 0 <==> c !in s.counters) && !BadDelta(al, attrs)
    ensures NONE !in s.counters
  {
    hide BadDelta, BadAttribute;
  }

  lemma CreatedEnds(s: State, s0: State, s1: State, a: XID, c: XID, now: Int64)
    requires a !in s.alarms && a in s0.alarms && s0 == s.(alarms := s.alarms[a := s0.alarms[a]])
    requires a in s1.alarms && s1.alarms == s0.alarms[a := s1.alarms[a]] && s1.awaits == s0.awaits
    requires s1.out == s0.out && s1.gone == s0.gone && ValuesBut(s0, s1, c, now)
    requires s1.alarms[a].state == Active && AlarmTyped(s1.alarms[a]) && s1.alarms[a].trigger.sync == c
    requires c == 0 <==> c !in s.counters
    ensures var s', ready := CreateFinished(s1, a), s1.alarms[a];
      var fires := c != 0 && HoldsNow(ready.trigger, now);
      var al' := if c == 0 then ready.(state := Inactive) else if fires then FiredAlarm(ready, now) else ready;
      && s'.alarms == s.alarms[a := al'] && s'.awaits == s.awaits && s'.gone == s.gone
      && s'.out == s.out + (if fires then Told(ready, a, now, al'.state) else [])
      && ValuesBut(s, s', c, now)
  {
    hide AlarmTyped, HoldsNow, FiredAlarm, Told, AlarmFired, Check;
    if c != 0 { HoldsAndFires(s1, a); }
  }

  /** The same for ChangeAlarm on a coherent state, with the old alarm in the place of the defaults; an alarm without a
    counter fires, becomes inactive and shows the value 0. */
  lemma ChangeAlarmGives(s: State, client: Client, a: XID, attrs: AlarmAttributes, clock: map<XID, Int64>)
    returns (ready: Alarm)
    requires ListInv(s) && Coherent(s) && ChangeAlarm(s, client, a, attrs, clock).0 == Success
    ensures a in s.alarms && Becomes(s, s.alarms[a], ready, client, attrs, clock)
    ensures var s' := ChangeAlarm(s, client, a, attrs, clock).1;
      var c := Or(attrs.counter, s.alarms[a].trigger.sync);
      var now := Reads(s, c, clock);
      var fires := c == 0 || HoldsNow(ready.trigger, now);
      var al' := if c == 0 then ready.(state := Inactive) else if fires then FiredAlarm(ready, now) else ready;
      && s'.alarms == s.alarms[a := al'] && s'.awaits == s.awaits && s'.gone == s.gone
      && s'.out == s.out + (if fires then Told(ready, a, now, al'.state) else [])
      && ValuesBut(s, s', c, now)
  {
    var c := Or(attrs.counter, s.alarms[a].trigger.sync);
    ChangeAlarmAnswer(s, client, a, attrs, clock);
    AlarmTypedHere(s, a);
    CounterKnown(s, s.alarms[a], attrs, clock);
    hide ChangeAlarmAttributes, AlarmFired, ListInv, Coherent, Becomes, BadDelta, AlarmTyped, Reads, ValuesBut, Told,
         FiredAlarm, HoldsNow, AttributesVerdict, Check;
    AttributesGive(s, client, a, attrs, clock);
    var s1 := ChangeAlarmAttributes(s, client, a, attrs, clock).1;
    ready := s1.alarms[a];
    GivenTyped(s, s.alarms[a], ready, client, attrs, clock);
    ChangedEnds(s, s1, a, c, Reads(s, c, clock));
    NothingRead(s, clock);
  }

  lemma NothingRead(s: State, clock: map<XID, Int64>)
    requires NONE !in s.counters
    ensures Reads(s, 0, clock) == 0
  {
  }

  lemma AlarmTypedHere(s: State, a: XID)
    requires ListInv(s) && Coherent(s) && a in s.alarms
    ensures AlarmTyped(s.alarms[a]) && (s.alarms[a].trigger.sync == NONE || s.alarms[a].trigger.sync in s.counters)
  {
    if s.alarms[a].trigger.sync != NONE { assert Live(s, AlarmTrigger(a)) && OnItsList(s, AlarmTrigger(a)); }
  }

  lemma ChangedEnds(s: State, s1: State, a: XID, c: XID, now: Int64)
    requires a in s.alarms && a in s1.alarms && s1.alarms == s.alarms[a := s1.alarms[a]] && s1.awaits == s.awaits
    requires s1.out == s.out && s1.gone == s.gone && ValuesBut(s, s1, c, now)
    requires s1.alarms[a].state == Active && AlarmTyped(s1.alarms[a]) && s1.alarms[a].trigger.sync == c
    requires (c == 0 <==> c !in s.counters) && (c == 0 ==> now == 0)
    ensures var ready := s1.alarms[a];
      var s' := if Check(s1, ready.trigger, ValueOf(s1, c)) then AlarmFired(s1, a) else s1;
      var fires := c == 0 || HoldsNow(ready.trigger, now);
      var al' := if c == 0 then ready.(state := Inactive) else if fires then FiredAlarm(ready, now) else ready;
      && s'.alarms == s.alarms[a := al'] && s'.awaits == s.awaits && s'.gone == s.gone
      && s'.out == s.out + (if fires then Told(ready, a, now, al'.state) else [])
      && ValuesBut(s, s', c, now)
  {
    hide AlarmTyped, HoldsNow, FiredAlarm, Told, AlarmEvents;
    if c != 0 {
      hide AlarmFired, Check;
      HoldsAndFires(s1, a);
    } else {
      ToldExactly(s1.alarms[a], a, 0, Inactive);
    }
  }

  // ---------- Refused requests ----------

  /** Only the value of counter `c` may have changed: it is `v`. */
  ghost predicate OnlyValue(s: State, s': State, c: XID, v: int) {
    && s'.counters.Keys == s.counters.Keys && s'.awaits == s.awaits && s'.out == s.out && s'.gone == s.gone
    && forall d :: d in s.counters ==>
      s'.counters[d] == s.counters[d].(value := s'.counters[d].value)
      && s'.counters[d].value == if d == c then v else s.counters[d].value
  }

  lemma QueryOnly(s: State, c: XID, clock: map<XID, Int64>)
    ensures OnlyValue(s, QueryValue(s, c, clock), c, Reads(s, c, clock))
    ensures OnlyValue(s, s, c, ValueOf(s, c))
    ensures QueryValue(s, c, clock).alarms == s.alarms
  {
  }

  /** A refused CreateAlarm leaves no alarm; if its attributes are in order, the driver's answer has been stored. */
  lemma CreateAlarmRefused(s: State, client: Client, a: XID, attrs: AlarmAttributes, clock: map<XID, Int64>)
    requires CreateAlarm(s, client, a, attrs, clock).0 != Success
    ensures var s', c := CreateAlarm(s, client, a, attrs, clock).1, Or(attrs.counter, 0);
      var asks := !Taken(s, a) && !BadAttribute(attrs) && !BadDelta(BlankAlarm(client), attrs);
      s'.alarms == s.alarms && OnlyValue(s, s', c, if asks then Reads(s, c, clock) else ValueOf(s, c))
  {
    RefusedCreate(s, client, a, attrs, clock);
    CheckedAttributes(BlankAlarm(client), attrs);
    hide CreateAlarm, QueryValue, OnlyValue, CheckAttributes, BadAttribute, BadDelta, Reads;
    QueryOnly(s, Or(attrs.counter, 0), clock);
  }

  /** The test value a refusal leaves: only an unknown test-type is found after the new one has been stored. */
  function LeftTestValue(s: State, t: Trigger, c: XID, ch: Changes, clock: map<XID, Int64>): int {
    if (ch.valueType || ch.value) && ValueVerdict(s, t, c, ch, clock) == Success
    then Aim(t.valueType, t.waitValue, Reads(s, c, clock)) else t.testValue
  }

  lemma RefusedLeaves(s: State, t: Trigger, c: XID, ch: Changes, clock: map<XID, Int64>)
    requires !ch.counter ==> c == t.sync
    ensures RefusedTest(s, t, c, ch, clock) == LeftTestValue(s, t, c, ch, clock)
  {
    QueryReads(s, c, clock);
    hide QueryValue, Reads, ValuesBut;
  }

  /** A refused ChangeAlarm. Bad attributes change nothing; after a delta of the wrong sign only events have been
    selected; otherwise all fields are written, but counter, check function and state are the old ones. */
  lemma ChangeAlarmRefused(s: State, client: Client, a: XID, attrs: AlarmAttributes, clock: map<XID, Int64>)
    requires a in s.alarms && ChangeAlarm(s, client, a, attrs, clock).0 != Success
    ensures var s', al := ChangeAlarm(s, client, a, attrs, clock).1, s.alarms[a];
      && a in s'.alarms && s'.alarms == s.alarms[a := s'.alarms[a]]
      && (BadAttribute(attrs) ==> s' == s)
      && (!BadAttribute(attrs) && BadDelta(al, attrs) ==>
            var al' := s'.alarms[a];
            s' == s.(alarms := s'.alarms) && Selects(al, al', client, attrs.events)
            && al' == al.(events := al'.events, eventClients := al'.eventClients))
      && (!BadAttribute(attrs) && !BadDelta(al, attrs) ==>
            var c, al', t' := Or(attrs.counter, al.trigger.sync), s'.alarms[a], s'.alarms[a].trigger;
            && Written(al, al'.(trigger := t'.(testValue := al.trigger.testValue)), client, attrs)
            && t'.testValue == LeftTestValue(s, t'.(testValue := al.trigger.testValue), c, Present(attrs), clock)
            && OnlyValue(s, s', c, Reads(s, c, clock)))
  {
    var al, c := s.alarms[a], Or(attrs.counter, s.alarms[a].trigger.sync);
    CheckedAttributes(al, attrs);
    if attrs.events.Some? { SelectSelects(al, client, attrs.events.value); }
    if CheckAttributes(al, attrs) == Success {
      hide *;
      var al1 := PreparedAlarm(al, client, attrs);
      ChangeRefusedParts(s, client, a, attrs, clock);
      RefusedAttributes(s, client, a, attrs, clock);
      PreparedWritten(al, client, attrs);
      AttributesPlain(s, a, al1, attrs);
      RefusedLeaves(s, al1.trigger, c, Present(attrs), clock);
      QueryOnly(s, c, clock);
      RefusedGives(s, client, a, al1, attrs, clock);
    } else {
      hide EventSelect, InitTrigger, Selects, BadAttribute, BadDelta, CheckAttributes;
      assert s.alarms[a := al] == s.alarms;
    }
  }

  lemma ChangeRefusedParts(s: State, client: Client, a: XID, attrs: AlarmAttributes, clock: map<XID, Int64>)
    requires a in s.alarms && ChangeAlarm(s, client, a, attrs, clock).0 != Success
    ensures ChangeAlarm(s, client, a, attrs, clock) == ChangeAlarmAttributes(s, client, a, attrs, clock)
  {
    hide ChangeAlarmAttributes;
  }

  lemma RefusedGives(s: State, client: Client, a: XID, al1: Alarm, attrs: AlarmAttributes, clock: map<XID, Int64>)
    requires a in s.alarms && al1 == PreparedAlarm(s.alarms[a], client, attrs) && Written(s.alarms[a], al1, client, attrs)
    requires var c := Or(attrs.counter, s.alarms[a].trigger.sync);
      && RefusedTest(s, al1.trigger, c, Present(attrs), clock) == LeftTestValue(s, al1.trigger, c, Present(attrs), clock)
      && OnlyValue(s, QueryValue(s, c, clock), c, Reads(s, c, clock))
    ensures var al, c := s.alarms[a], Or(attrs.counter, s.alarms[a].trigger.sync);
      var s' := s.(counters := QueryValue(s, c, clock).counters,
                   alarms := s.alarms[a := RefusedAlarmOf(s, client, a, attrs, clock)]);
      var al', t' := s'.alarms[a], s'.alarms[a].trigger;
      && Get(attrs.counter, al.trigger.sync) == c
      && Written(al, al'.(trigger := t'.(testValue := al.trigger.testValue)), client, attrs)
      && t'.testValue == LeftTestValue(s, t'.(testValue := al.trigger.testValue), c, Present(attrs), clock)
      && OnlyValue(s, s', c, Reads(s, c, clock))
  {
    hide PreparedAlarm, RefusedTest, LeftTestValue, QueryValue, Selects;
    assert al1.trigger.sync == s.alarms[a].trigger.sync && ChangesOf(attrs) == Present(attrs);
    var t' := RefusedAlarmOf(s, client, a, attrs, clock).trigger;
    assert t'.(testValue := s.alarms[a].trigger.testValue) == al1.trigger;
  }

  // ---------- Counters ----------

  lemma ChangedValues(s: State, c: XID, v: Int64)
    requires ListInv(s) && c in s.counters
    ensures ValuesBut(s, ChangeCounter(s, c, v), c, v)
  {
    hide ChangeCounter, LinkedExcept;
    ChangeCounterLinked(s, c, v);
  }

  /** The requests that change a counter: who is refused, and the new value. What the change does to alarms and Awaits,
    and what it sends, is the subject of SyncFires and SyncSends. */
  lemma CounterRequests(s: State, id: XID, v: Int64)
    requires ListInv(s)
    ensures id !in s.counters || s.counters[id].sys.Some? ==>
      var refused := if id !in s.counters then BadCounter else BadAccess;
      && Step(s, SetCounterRequest(id, v)) == (refused, s) && Step(s, ChangeCounterRequest(id, v)) == (refused, s)
      && Step(s, DestroyCounter(id)) == (refused, s)
    ensures id in s.counters && s.counters[id].sys.None? ==>
      var sum := s.counters[id].value + v;
      && Step(s, SetCounterRequest(id, v)) == (Success, ChangeCounter(s, id, v)) && ValuesBut(s, ChangeCounter(s, id, v), id, v)
      && Step(s, ChangeCounterRequest(id, v)) == (if Fits(sum) then (Success, ChangeCounter(s, id, sum)) else (BadValue, s))
      && (Fits(sum) ==> ValuesBut(s, ChangeCounter(s, id, sum), id, sum))
      && Step(s, DestroyCounter(id)) == (Success, FreeCounter(s, id))
  {
    hide ChangeCounter, FreeCounter, AwaitRequest, CreateAlarm, ChangeAlarm, FreeAlarm, FreeAwait, QueryValue, RemoveFirst,
         InUse, ValuesBut, ListInv;
    if id in s.counters {
      ChangedValues(s, id, v);
      if Fits(s.counters[id].value + v) { ChangedValues(s, id, s.counters[id].value + v); }
    }
  }

  /** The server's own counters: a tick is a change, an update only stores the value. */
  lemma SystemRequests(s: State, id: XID, v: Int64)
    requires ListInv(s)
    ensures id in s.counters && s.counters[id].sys.Some? ==>
      && Step(s, SystemTick(id, v)) == (Success, ChangeCounter(s, id, v)) && ValuesBut(s, ChangeCounter(s, id, v), id, v)
      && Step(s, SystemUpdate(id, v)) == (Success, s.(counters := s.counters[id := s.counters[id].(value := v)]))
      && Step(s, DestroySystemCounter(id)) == (Success, FreeCounter(s, id))
    ensures id !in s.counters || s.counters[id].sys.None? ==>
      && Step(s, SystemTick(id, v)) == (Success, s) && Step(s, SystemUpdate(id, v)) == (Success, s)
      && Step(s, DestroySystemCounter(id)) == (Success, s)
  {
    hide ChangeCounter, FreeCounter, AwaitRequest, CreateAlarm, ChangeAlarm, FreeAlarm, FreeAwait, QueryValue, RemoveFirst,
         InUse, ValuesBut, ListInv;
    if id in s.counters { ChangedValues(s, id, v); }
  }

  /** QueryCounter asks the driver of a system counter and stores its answer. */
  lemma QueryCounterGives(s: State, id: XID, clock: map<XID, Int64>)
    ensures var (rc, s') := Step(s, QueryCounter(id, clock));
      rc == (if id in s.counters then Success else BadCounter)
      && s'.alarms == s.alarms && OnlyValue(s, s', id, Reads(s, id, clock))
  {
    QueryOnly(s, id, clock);
    if id !in s.counters { UnknownReads(s, id, clock); }
    hide QueryValue, OnlyValue, Reads;
  }

  lemma UnknownReads(s: State, c: XID, clock: map<XID, Int64>)
    requires c !in s.counters
    ensures Reads(s, c, clock) == ValueOf(s, c)
  {
  }

  /** New counters, and what a client that goes leaves: nothing else changes. */
  lemma PlainRequests(s: State, id: XID, v: Int64, ct: CounterType, client: Client)
    ensures Step(s, CreateCounter(id, v)) == (if Taken(s, id) then (BadIDChoice, s)
      else (Success, s.(counters := s.counters[id := Counter(v, [], false, None)])))
    ensures var brackets := SysInfo(ct, -0x8000_0000_0000_0000, 0x7fff_ffff_ffff_ffff, false, false);
      Step(s, CreateSystemCounter(id, v, ct)) == (if Taken(s, id) then (BadIDChoice, s)
        else (Success, s.(counters := s.counters[id := Counter(v, [], false, Some(brackets))])))
    ensures Step(s, ClientGone(client)) == (Success, s.(gone := s.gone + {client}))
    ensures var (rc, s') := Step(s, FreeAlarmClient(id, client));
      && rc == Success && (id !in s.alarms ==> s' == s)
      && (id in s.alarms ==>
            && id in s'.alarms && s' == s.(alarms := s.alarms[id := s'.alarms[id]])
            && s'.alarms[id] == s.alarms[id].(eventClients := s'.alarms[id].eventClients)
            && Lost(s.alarms[id].eventClients, client, s'.alarms[id].eventClients))
  {
    if id in s.alarms { RemoveLoses(s.alarms[id].eventClients, client); }
    hide RemoveFirst, Lost;
  }

  /** DestroyAlarm: the alarm is gone, and its listeners are told so with what its counter shows, 0 without one. */
  lemma DestroyAlarmGives(s: State, a: XID)
    requires ListInv(s)
    ensures var (rc, s') := Step(s, DestroyAlarm(a));
      && (a !in s.alarms ==> rc == BadAlarm && s' == s)
      && (a in s.alarms ==>
            var al := s.alarms[a];
            && rc == Success && s'.alarms == s.alarms - {a} && s'.awaits == s.awaits && s'.gone == s.gone
            && s'.out == s.out + Told(al, a, Reads(s, al.trigger.sync, map[]), Destroyed) && CounterFrame(s, s'))
  {
    if a in s.alarms {
      var al, s1 := s.alarms[a], SendAlarmNotify(SetAlarm(s, a, s.alarms[a].(state := Destroyed)), a);
      ToldExactly(al, a, ValueOf(s, al.trigger.sync), Destroyed);
      hide AlarmEvents, Told, DeleteTrigger;
      DeleteTriggerFrame(s1, AlarmTrigger(a));
      assert s.alarms[a := al.(state := Destroyed)] - {a} == s.alarms - {a};
    }
  }

  /** An Await freed with its client is gone, and nobody is told. */
  lemma FreeAwaitGives(s: State, w: XID)
    requires ListInv(s)
    ensures var (rc, s') := Step(s, FreeAwaitResource(w));
      rc == Success && s'.alarms == s.alarms && s'.awaits == s.awaits - {w} && s'.gone == s.gone && s'.out == s.out
      && CounterFrame(s, s')
  {
    hide FreeAwait, LinkedExcept;
    if w in s.awaits {
      assert OffUpTo(s, w, 0, {});
      FreeAwaitLinked(s, w, {});
    }
  }
}
