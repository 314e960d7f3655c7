/** The state of the SYNC extension and, for every operation of `sync.c`, the function
  from old to new state that the imperative classes of `SyncServer.dfy` refine.

  Resources are named by their XID and a pointer to a trigger becomes a `TriggerRef`:
  an alarm's only trigger, or the trigger of one wait condition of an Await.
 */
module SyncModel {

  const INT64_MIN: int := -0x8000_0000_0000_0000
  const INT64_MAX: int := 0x7fff_ffff_ffff_ffff

  type Int64 = x: int | INT64_MIN <= x <= INT64_MAX

  type XID = nat
  const NONE: XID := 0

  type Client = nat

  /** Wire encodings of the value-type and test-type fields; other numbers are refused
    with BadValue, but only after they have been stored. */
  const ABSOLUTE: nat := 0
  const RELATIVE: nat := 1
  const POSITIVE_TRANSITION: nat := 0
  const NEGATIVE_TRANSITION: nat := 1
  const POSITIVE_COMPARISON: nat := 2
  const NEGATIVE_COMPARISON: nat := 3

  /** The function that `pTrigger->CheckTrigger` points to. */
  datatype CheckFn = PosTransition | NegTransition | PosComparison | NegComparison

  datatype Trigger = Trigger(sync: XID, valueType: nat, waitValue: Int64,
                             testType: nat, check: CheckFn, testValue: Int64)

  datatype TriggerRef = AlarmTrigger(alarm: XID) | AwaitTrigger(await: XID, index: nat)

  datatype CounterType = NeverChanges | NeverIncreases | NeverDecreases | Unrestricted

  /** `hasLess` and `hasGreater` tell whether the last call of the counter's BracketValues
    callback was given a pointer to the bracket rather than NULL. */
  datatype SysInfo = SysInfo(counterType: CounterType, bracketLess: Int64, bracketGreater: Int64,
                             hasLess: bool, hasGreater: bool)

  datatype Option<+T> = None | Some(value: T)

  datatype Counter = Counter(value: Int64, triglist: seq<TriggerRef>, beingDestroyed: bool,
                             sys: Option<SysInfo>)

  datatype AlarmState = Active | Inactive | Destroyed

  datatype Alarm = Alarm(trigger: Trigger, client: Client, delta: Int64, events: bool,
                         state: AlarmState, eventClients: seq<Client>)

  datatype Condition = Condition(trigger: Trigger, threshold: Int64)

  datatype Await = Await(client: Client, conditions: seq<Condition>)

  /** What the outside world sees, in the order in which it happens. */
  datatype Output =
    | AlarmNotify(client: Client, alarm: XID, alarmValue: Int64, counterValue: Int64, state: AlarmState)
    | CounterNotify(client: Client, counter: XID, waitValue: Int64, counterValue: Int64,
                    count: nat, destroyed: bool)
    | AttendClient(client: Client)
    | IgnoreClient(client: Client)

  datatype State = State(counters: map<XID, Counter>, alarms: map<XID, Alarm>, awaits: map<XID, Await>,
                         gone: set<Client>, out: seq<Output>)

  datatype Status = Success | BadValue | BadMatch | BadCounter | BadAlarm | BadAccess | BadIDChoice

  // ---------- 64-bit arithmetic ----------

  predicate Fits(x: int) {
    INT64_MIN <= x <= INT64_MAX
  }

  function CheckedAdd(a: Int64, b: Int64): Option<Int64> {
    if Fits(a + b) then Some(a + b) else None
  }

  function CheckedSubtract(a: Int64, b: Int64): Option<Int64> {
    if Fits(a - b) then Some(a - b) else None
  }

  // ---------- Triggers as places in the state ----------

  predicate Live(s: State, r: TriggerRef) {
    match r
    case AlarmTrigger(a) => a in s.alarms
    case AwaitTrigger(w, i) => w in s.awaits && i < |s.awaits[w].conditions|
  }

  function Slot(s: State, r: TriggerRef): Trigger
    requires Live(s, r)
  {
    match r
    case AlarmTrigger(a) => s.alarms[a].trigger
    case AwaitTrigger(w, i) => s.awaits[w].conditions[i].trigger
  }

  function SetSlot(s: State, r: TriggerRef, t: Trigger): State
    requires Live(s, r)
  {
    match r
    case AlarmTrigger(a) => s.(alarms := s.alarms[a := s.alarms[a].(trigger := t)])
    case AwaitTrigger(w, i) =>
      var aw := s.awaits[w];
      s.(awaits := s.awaits[w := aw.(conditions := aw.conditions[i := aw.conditions[i].(trigger := t)])])
  }

  function SetCounter(s: State, c: XID, k: Counter): State {
    s.(counters := s.counters[c := k])
  }

  predicate IsSystem(s: State, c: XID) {
    c in s.counters && s.counters[c].sys.Some?
  }

  function ValueOf(s: State, c: XID): Int64 {
    if c in s.counters then s.counters[c].value else 0
  }

  predicate BeingDestroyed(s: State, c: XID) {
    c in s.counters && s.counters[c].beingDestroyed
  }

  // ---------- The SyncCheckTrigger functions ----------

  /** The check functions on a counter that holds `value` and held `oldval` before. */
  predicate CheckAt(f: CheckFn, value: Int64, oldval: Int64, test: Int64) {
    match f
    case PosComparison => value >= test
    case NegComparison => value <= test
    case PosTransition => oldval < test && value >= test
    case NegTransition => oldval > test && value <= test
  }

  predicate Check(s: State, t: Trigger, oldval: Int64) {
    t.sync == NONE || CheckAt(t.check, ValueOf(s, t.sync), oldval, t.testValue)
  }

  predicate IsComparison(f: CheckFn) {
    f == PosComparison || f == NegComparison
  }

  function CheckFnOf(testType: nat): Option<CheckFn> {
    if testType == POSITIVE_TRANSITION then Some(PosTransition)
    else if testType == NEGATIVE_TRANSITION then Some(NegTransition)
    else if testType == POSITIVE_COMPARISON then Some(PosComparison)
    else if testType == NEGATIVE_COMPARISON then Some(NegComparison)
    else None
  }

  // ---------- Brackets ----------

  function BracketStep(b: SysInfo, value: Int64, t: Trigger): SysInfo {
    var ct := b.counterType;
    var test := t.testValue;
    if t.testType == POSITIVE_COMPARISON && ct != NeverIncreases then
      if value < test && test < b.bracketGreater then b.(bracketGreater := test, hasGreater := true)
      else if value > test && test > b.bracketLess then b.(bracketLess := test, hasLess := true)
      else b
    else if t.testType == NEGATIVE_COMPARISON && ct != NeverDecreases then
      if value > test && test > b.bracketLess then b.(bracketLess := test, hasLess := true)
      else if value < test && test < b.bracketGreater then b.(bracketGreater := test, hasGreater := true)
      else b
    else if t.testType == NEGATIVE_TRANSITION && ct != NeverIncreases then
      if value >= test && test > b.bracketLess then b.(bracketLess := test, hasLess := true)
      else if value < test && test < b.bracketGreater then b.(bracketGreater := test, hasGreater := true)
      else b
    else if t.testType == POSITIVE_TRANSITION && ct != NeverDecreases then
      if value <= test && test < b.bracketGreater then b.(bracketGreater := test, hasGreater := true)
      else if value > test && test > b.bracketLess then b.(bracketLess := test, hasLess := true)
      else b
    else b
  }

  /** The walk of SyncComputeBracketValues over the rest of a trigger list. */
  function BracketWalk(s: State, refs: seq<TriggerRef>, value: Int64, b: SysInfo): SysInfo
    decreases |refs|
  {
    if refs == [] then b
    else
      var b' := if Live(s, refs[0]) then BracketStep(b, value, Slot(s, refs[0])) else b;
      BracketWalk(s, refs[1..], value, b')
  }

  function ComputeBrackets(s: State, c: XID): (s': State)
    ensures s'.counters.Keys == s.counters.Keys
  {
    if !IsSystem(s, c) || s.counters[c].sys.value.counterType == NeverChanges then s
    else
      var k := s.counters[c];
      var reset := SysInfo(k.sys.value.counterType, INT64_MIN, INT64_MAX, false, false);
      SetCounter(s, c, k.(sys := Some(BracketWalk(s, k.triglist, k.value, reset))))
  }

  // ---------- Trigger lists ----------

  function RemoveFirst<T(==)>(xs: seq<T>, x: T): seq<T> {
    if xs == [] then [] else if xs[0] == x then xs[1..] else [xs[0]] + RemoveFirst(xs[1..], x)
  }

  function DeleteTrigger(s: State, r: TriggerRef): (s': State)
    requires Live(s, r)
    ensures s'.counters.Keys == s.counters.Keys
  {
    var c := Slot(s, r).sync;
    if c !in s.counters then s
    else
      var k := s.counters[c];
      ComputeBrackets(SetCounter(s, c, k.(triglist := RemoveFirst(k.triglist, r))), c)
  }

  function AddTrigger(s: State, r: TriggerRef): (s': State)
    requires Live(s, r)
    ensures s'.counters.Keys == s.counters.Keys
  {
    var c := Slot(s, r).sync;
    if c !in s.counters || r in s.counters[c].triglist then s
    else
      var k := s.counters[c];
      ComputeBrackets(SetCounter(s, c, k.(triglist := [r] + k.triglist)), c)
  }

  // ---------- SyncInitTrigger ----------

  datatype Changes = Changes(counter: bool, valueType: bool, value: bool, testType: bool)

  const ALL_CHANGES := Changes(true, true, true, true)

  /** System counters are asked for their value; `clock` is what they answer. */
  function QueryValue(s: State, c: XID, clock: map<XID, Int64>): State {
    if IsSystem(s, c) && c in clock then SetCounter(s, c, s.counters[c].(value := clock[c])) else s
  }

  /** The test value SyncInitTrigger computes for a trigger on `pSync`. */
  function TestValue(s: State, t: Trigger, pSync: XID, ch: Changes): (Status, Int64) {
    if !ch.valueType && !ch.value then (Success, t.testValue)
    else if t.valueType == ABSOLUTE then (Success, t.waitValue)
    else if pSync == NONE then (BadMatch, t.testValue)
    else
      match CheckedAdd(ValueOf(s, pSync), t.waitValue)
      case None => (BadValue, t.testValue)
      case Some(v) => (Success, v)
  }

  /** The last part of SyncInitTrigger: move the trigger to the list of its new counter. */
  function Relink(s: State, r: TriggerRef, pSync: XID): (s': State)
    requires Live(s, r)
    ensures s'.counters.Keys == s.counters.Keys
    ensures s'.alarms.Keys == s.alarms.Keys && s'.awaits.Keys == s.awaits.Keys
  {
    if pSync != Slot(s, r).sync then
      var s1 := DeleteTrigger(s, r);
      AddTrigger(SetSlot(s1, r, Slot(s, r).(sync := pSync)), r)
    else ComputeBrackets(s, pSync)
  }

  /** Store the trigger, with the check function of its test-type if that has changed. */
  function StoreChecked(s: State, r: TriggerRef, t: Trigger, ch: Changes): (Status, State)
    requires Live(s, r)
  {
    if !ch.testType then (Success, SetSlot(s, r, t))
    else
      match CheckFnOf(t.testType)
      case None => (BadValue, SetSlot(s, r, t))
      case Some(f) => (Success, SetSlot(s, r, t.(check := f)))
  }

  /** SyncInitTrigger up to the point where nothing can fail any more: the test value and
    the check function are stored in the trigger, its counter is still the old one. */
  function InitChecks(s: State, r: TriggerRef, syncObject: XID, ch: Changes, clock: map<XID, Int64>): (Status, State)
    requires Live(s, r)
  {
    var t := Slot(s, r);
    if ch.counter && syncObject != NONE && syncObject !in s.counters then (BadCounter, s)
    else
      var pSync := if ch.counter then syncObject else t.sync;
      var s1 := QueryValue(s, pSync, clock);
      if ch.valueType && t.valueType != RELATIVE && t.valueType != ABSOLUTE then (BadValue, s1)
      else
        var (rc, test) := TestValue(s1, t, pSync, ch);
        if rc != Success then (rc, s1)
        else
          StoreChecked(s1, r, t.(testValue := test), ch)
  }

  function InitTrigger(s: State, r: TriggerRef, syncObject: XID, ch: Changes, clock: map<XID, Int64>): (res: (Status, State))
    requires Live(s, r)
    ensures res.1.counters.Keys == s.counters.Keys
    ensures res.1.alarms.Keys == s.alarms.Keys && res.1.awaits.Keys == s.awaits.Keys
  {
    var (rc, s1) := InitChecks(s, r, syncObject, ch, clock);
    (rc, if rc == Success then Relink(s1, r, if ch.counter then syncObject else Slot(s, r).sync) else s1)
  }

  // ---------- Alarms ----------

  function SetAlarm(s: State, a: XID, al: Alarm): State {
    s.(alarms := s.alarms[a := al])
  }

  function Emit(s: State, o: seq<Output>): State {
    s.(out := s.out + o)
  }

  function AlarmEvents(clients: seq<Client>, a: XID, test: Int64, value: Int64, state: AlarmState): seq<Output> {
    if clients == [] then []
    else [AlarmNotify(clients[0], a, test, value, state)] + AlarmEvents(clients[1..], a, test, value, state)
  }

  /** SyncSendAlarmNotifyEvents: first the owner, then the clients that selected for events. */
  function SendAlarmNotify(s: State, a: XID): State
    requires a in s.alarms
  {
    var al := s.alarms[a];
    var clients := (if al.events then [al.client] else []) + al.eventClients;
    Emit(s, AlarmEvents(clients, a, al.trigger.testValue, ValueOf(s, al.trigger.sync), al.state))
  }

  /** The do-while loop of SyncAlarmTriggerFired, where it ends: None when an addition leaves INT64.
    With delta 0 a comparison that holds would be tried for ever; there the answer None stands for nothing. */
  function Rearm(f: CheckFn, test: Int64, delta: Int64, value: Int64): Option<Int64>
    decreases if delta > 0 then INT64_MAX - test else test - INT64_MIN
  {
    match CheckedAdd(test, delta)
    case None => None
    case Some(next) =>
      if !CheckAt(f, value, value, next) then Some(next)
      else if delta == 0 then None
      else Rearm(f, next, delta, value)
  }

  predicate ComparisonType(testType: nat) {
    testType == POSITIVE_COMPARISON || testType == NEGATIVE_COMPARISON
  }

  function AlarmFired(s: State, a: XID): (s': State)
    requires a in s.alarms
    ensures s'.counters == s.counters
  {
    var al := s.alarms[a];
    var t := al.trigger;
    if al.state != Active then s
    else if t.sync == NONE || (al.delta == 0 && ComparisonType(t.testType)) then
      SendAlarmNotify(SetAlarm(s, a, al.(state := Inactive)), a)
    else
      match Rearm(t.check, t.testValue, al.delta, ValueOf(s, t.sync))
      case None => SendAlarmNotify(SetAlarm(s, a, al.(state := Inactive)), a)
      case Some(test) =>
        // the event carries the old test value
        var s1 := SendAlarmNotify(s, a);
        SetAlarm(s1, a, al.(trigger := t.(testValue := test)))
  }

  function AlarmCounterDestroyed(s: State, a: XID): State
    requires a in s.alarms
  {
    var s1 := SendAlarmNotify(SetAlarm(s, a, s.alarms[a].(state := Inactive)), a);
    SetAlarm(s1, a, s1.alarms[a].(trigger := s1.alarms[a].trigger.(sync := NONE)))
  }

  function FreeAlarm(s: State, a: XID): State
    requires a in s.alarms
  {
    var s1 := SendAlarmNotify(SetAlarm(s, a, s.alarms[a].(state := Destroyed)), a);
    var s2 := DeleteTrigger(s1, AlarmTrigger(a));
    s2.(alarms := s2.alarms - {a})
  }

  // ---------- Awaits ----------

  /** Whether SyncAwaitTriggerFired reports this condition. */
  predicate Reports(s: State, cond: Condition) {
    var t := cond.trigger;
    BeingDestroyed(s, t.sync) ||
    match CheckedSubtract(ValueOf(s, t.sync), t.testValue)
    case None => false
    case Some(diff) =>
      ((t.testType == POSITIVE_COMPARISON || t.testType == POSITIVE_TRANSITION) && diff >= cond.threshold) ||
      ((t.testType == NEGATIVE_COMPARISON || t.testType == NEGATIVE_TRANSITION) && diff <= cond.threshold)
  }

  function SelectEvents(s: State, conds: seq<Condition>): seq<Condition> {
    if conds == [] then []
    else (if Reports(s, conds[0]) then [conds[0]] else []) + SelectEvents(s, conds[1..])
  }

  /** SyncSendCounterNotifyEvents: the count field says how many events still follow. */
  function CounterEvents(s: State, client: Client, conds: seq<Condition>): seq<Output> {
    if conds == [] then []
    else
      var t := conds[0].trigger;
      [CounterNotify(client, t.sync, t.testValue, ValueOf(s, t.sync), |conds| - 1, BeingDestroyed(s, t.sync))]
      + CounterEvents(s, client, conds[1..])
  }

  /** The loop of FreeAwait from condition `i` on. */
  function UnlinkFrom(s: State, w: XID, i: nat): (s': State)
    requires w in s.awaits
    ensures s'.counters.Keys == s.counters.Keys
    decreases |s.awaits[w].conditions| - i
  {
    if i >= |s.awaits[w].conditions| then s
    else
      var c := s.awaits[w].conditions[i].trigger.sync;
      var s1 := if BeingDestroyed(s, c) then s else DeleteTrigger(s, AwaitTrigger(w, i));
      UnlinkFrom(s1, w, i + 1)
  }

  function FreeAwait(s: State, w: XID): (s': State)
    requires w in s.awaits
    ensures s'.counters.Keys == s.counters.Keys
  {
    var s1 := UnlinkFrom(s, w, 0);
    s1.(awaits := s1.awaits - {w})
  }

  function AwaitEvents(s: State, w: XID): seq<Output>
    requires w in s.awaits
  {
    var aw := s.awaits[w];
    (if aw.client in s.gone then [] else CounterEvents(s, aw.client, SelectEvents(s, aw.conditions)))
    + [AttendClient(aw.client)]
  }

  function AwaitFired(s: State, w: XID): (s': State)
    requires w in s.awaits
    ensures s'.counters.Keys == s.counters.Keys
  {
    FreeAwait(Emit(s, AwaitEvents(s, w)), w)
  }

  // ---------- Counters ----------

  function FireTrigger(s: State, r: TriggerRef): State
    requires Live(s, r)
  {
    match r
    case AlarmTrigger(a) => AlarmFired(s, a)
    case AwaitTrigger(w, _) => AwaitFired(s, w)
  }

  /** The loop of SyncChangeCounter from the saved next node on. */
  function TriggerWalk(s: State, refs: seq<TriggerRef>, oldval: Int64): (s': State)
    ensures s'.counters.Keys == s.counters.Keys
    decreases |refs|
  {
    if refs == [] then s
    else
      var s1 := if Live(s, refs[0]) && Check(s, Slot(s, refs[0]), oldval) then FireTrigger(s, refs[0]) else s;
      TriggerWalk(s1, refs[1..], oldval)
  }

  function UpdateCounter(s: State, c: XID, v: Int64): State
    requires c in s.counters
  {
    SetCounter(s, c, s.counters[c].(value := v))
  }

  function ChangeCounter(s: State, c: XID, v: Int64): (s': State)
    requires c in s.counters
    ensures s'.counters.Keys == s.counters.Keys
  {
    ComputeBrackets(TriggerWalk(UpdateCounter(s, c, v), s.counters[c].triglist, s.counters[c].value), c)
  }

  function TriggerDestroyed(s: State, r: TriggerRef): (s': State)
    requires Live(s, r)
    ensures s'.counters.Keys == s.counters.Keys
  {
    match r
    case AlarmTrigger(a) => AlarmCounterDestroyed(s, a)
    case AwaitTrigger(w, _) => AwaitFired(s, w)
  }

  /** The loop of FreeCounter: each node is taken off the dying counter's list as it is told. */
  function DestroyWalk(s: State, c: XID, refs: seq<TriggerRef>): State
    requires c in s.counters
    decreases |refs|
  {
    if refs == [] then s
    else
      var s1 := SetCounter(s, c, s.counters[c].(triglist := refs[1..]));
      var s2 := if Live(s1, refs[0]) then TriggerDestroyed(s1, refs[0]) else s1;
      DestroyWalk(s2, c, refs[1..])
  }

  function FreeCounter(s: State, c: XID): State
    requires c in s.counters
  {
    var k := s.counters[c];
    var s1 := DestroyWalk(SetCounter(s, c, k.(beingDestroyed := true)), c, k.triglist);
    s1.(counters := s1.counters - {c})
  }

  // ---------- The idle-time counters ----------

  /** IdleTimeCheckBrackets: the trigger list is walked only when the idle time has left the brackets. */
  function CheckBrackets(s: State, c: XID, idle: Int64): (s': State)
    requires IsSystem(s, c)
    ensures s'.counters.Keys == s.counters.Keys
  {
    var b := s.counters[c].sys.value;
    if (b.hasGreater && idle >= b.bracketGreater) || (b.hasLess && idle <= b.bracketLess) then ChangeCounter(s, c, idle)
    else UpdateCounter(s, c, idle)
  }

  /** IdleTimeWakeupHandler: when the idle time was reset since the last wakeup, zero is
    checked before the present idle time. Without brackets the handler does nothing. */
  function IdleWakeup(s: State, c: XID, wasReset: bool, idle: Int64): (s': State)
    requires IsSystem(s, c)
    ensures s'.counters.Keys == s.counters.Keys
  {
    var b := s.counters[c].sys.value;
    if !b.hasLess && !b.hasGreater then s
    else
      var s1 := if wasReset && idle != 0 then CheckBrackets(s, c, 0) else s;
      if IsSystem(s1, c) then CheckBrackets(s1, c, idle) else s1
  }

  // ---------- Requests ----------

  /** The attributes present in a CreateAlarm or ChangeAlarm request. */
  datatype AlarmAttributes = AlarmAttributes(counter: Option<XID>, valueType: Option<nat>, value: Option<Int64>,
                                             testType: Option<nat>, delta: Option<Int64>, events: Option<nat>,
                                             unknownBits: bool)

  datatype WaitCondition = WaitCondition(counter: XID, valueType: nat, waitValue: Int64, testType: nat, threshold: Int64)

  function Without<T(==)>(xs: seq<T>, x: T): seq<T> {
    RemoveFirst(xs, x)
  }

  function EventSelect(al: Alarm, client: Client, want: bool): Alarm {
    if client == al.client then al.(events := want)
    else if client in al.eventClients then
      if want then al else al.(eventClients := Without(al.eventClients, client))
    else if want then al.(eventClients := [client] + al.eventClients)
    else al
  }

  /** The Match error of CreateAlarm and ChangeAlarm: the sign of delta must suit the test-type. */
  predicate WrongDelta(testType: nat, delta: Int64) {
    ((testType == POSITIVE_COMPARISON || testType == POSITIVE_TRANSITION) && delta < 0) ||
    ((testType == NEGATIVE_COMPARISON || testType == NEGATIVE_TRANSITION) && delta > 0)
  }

  function Get<T>(o: Option<T>, default: T): T {
    match o
    case None => default
    case Some(v) => v
  }

  function ChangesOf(attrs: AlarmAttributes): Changes {
    Changes(attrs.counter.Some?, attrs.valueType.Some?, attrs.value.Some?, attrs.testType.Some?)
  }

  /** The trigger with the requested fields stored but nothing derived from them yet. */
  function WithAttributes(t: Trigger, attrs: AlarmAttributes): Trigger {
    t.(valueType := Get(attrs.valueType, t.valueType), waitValue := Get(attrs.value, t.waitValue),
       testType := Get(attrs.testType, t.testType))
  }

  /** The checks SyncChangeAlarmAttributes makes before it writes the trigger. */
  function CheckAttributes(al: Alarm, attrs: AlarmAttributes): Status {
    var testType := WithAttributes(al.trigger, attrs).testType;
    var delta := Get(attrs.delta, al.delta);
    if attrs.unknownBits || (attrs.events.Some? && attrs.events.value != 0 && attrs.events.value != 1) then BadValue
    else if (attrs.delta.Some? || attrs.testType.Some?) && WrongDelta(testType, delta) then BadMatch
    else Success
  }

  function ChangeAlarmAttributes(s: State, client: Client, a: XID, attrs: AlarmAttributes,
                                 clock: map<XID, Int64>): (res: (Status, State))
    requires a in s.alarms
    ensures res.1.alarms.Keys == s.alarms.Keys
  {
    var rc := CheckAttributes(s.alarms[a], attrs);
    if rc == BadValue then (rc, s)
    else
      var al := if attrs.events.Some? then EventSelect(s.alarms[a], client, attrs.events.value == 1) else s.alarms[a];
      if rc != Success then (rc, SetAlarm(s, a, al))
      else
        var s1 := SetAlarm(s, a, al.(delta := Get(attrs.delta, al.delta), trigger := WithAttributes(al.trigger, attrs)));
        var (rc2, s2) := InitTrigger(s1, AlarmTrigger(a), Get(attrs.counter, al.trigger.sync), ChangesOf(attrs), clock);
        if rc2 != Success then (rc2, s2)
        else (Success, SetAlarm(s2, a, s2.alarms[a].(state := Active)))
  }

  const NEW_TRIGGER := Trigger(NONE, ABSOLUTE, 0, POSITIVE_COMPARISON, PosComparison, 0)

  function NewAlarm(client: Client): Alarm {
    Alarm(NEW_TRIGGER, client, 1, true, Inactive, [])
  }

  /** The end of ProcSyncCreateAlarm: without a counter the alarm is inactive, and one that holds already fires. */
  function CreateFinished(s: State, a: XID): State
    requires a in s.alarms
  {
    var t := s.alarms[a].trigger;
    if t.sync == NONE then SetAlarm(s, a, s.alarms[a].(state := Inactive))
    else if Check(s, t, ValueOf(s, t.sync)) then AlarmFired(s, a)
    else s
  }

  /** ProcSyncCreateAlarm. */
  function CreateAlarm(s: State, client: Client, a: XID, attrs: AlarmAttributes, clock: map<XID, Int64>): (Status, State) {
    if InUse(s, a) then (BadIDChoice, s)
    else
      var (rc, s1) := ChangeAlarmAttributes(SetAlarm(s, a, NewAlarm(client)), client, a, attrs, clock);
      if rc != Success then (rc, s1.(alarms := s1.alarms - {a})) else (Success, CreateFinished(s1, a))
  }

  /** ProcSyncChangeAlarm: unlike CreateAlarm, a None counter triggers the alarm. */
  function ChangeAlarm(s: State, client: Client, a: XID, attrs: AlarmAttributes, clock: map<XID, Int64>): (Status, State) {
    if a !in s.alarms then (BadAlarm, s)
    else
      var (rc, s1) := ChangeAlarmAttributes(s, client, a, attrs, clock);
      if rc != Success then (rc, s1)
      else
        var t := s1.alarms[a].trigger;
        (Success, if Check(s1, t, ValueOf(s1, t.sync)) then AlarmFired(s1, a) else s1)
  }

  /** The loop of ProcSyncAwait over the wait conditions not yet initialised. */
  function AddConditions(s: State, w: XID, conds: seq<WaitCondition>, clock: map<XID, Int64>): (res: (Status, State))
    requires w in s.awaits
    ensures res.0 == Success ==> w in res.1.awaits
    decreases |conds|
  {
    if conds == [] then (Success, s)
    else if conds[0].counter == NONE then (BadCounter, FreeAwait(s, w))
    else
      var t := Trigger(NONE, conds[0].valueType, conds[0].waitValue, conds[0].testType, PosComparison, 0);
      var aw := s.awaits[w];
      var s1 := s.(awaits := s.awaits[w := aw.(conditions := aw.conditions + [Condition(t, conds[0].threshold)])]);
      var (rc, s2) := InitTrigger(s1, AwaitTrigger(w, |aw.conditions|), conds[0].counter, ALL_CHANGES, clock);
      if rc != Success then (rc, FreeAwait(s2, w))
      else AddConditions(s2, w, conds[1..], clock)
  }

  /** SyncAwaitEpilogue from condition `i` on: the first condition already true ends the Await. */
  function AwaitEpilogue(s: State, w: XID, i: nat): State
    requires w in s.awaits
    decreases |s.awaits[w].conditions| - i
  {
    if i >= |s.awaits[w].conditions| then s
    else
      var t := s.awaits[w].conditions[i].trigger;
      if Check(s, t, ValueOf(s, t.sync)) then AwaitFired(s, w) else AwaitEpilogue(s, w, i + 1)
  }

  /** ProcSyncAwait; `w` is the identifier FakeClientID hands out, so it is never in use. */
  function AwaitRequest(s: State, client: Client, w: XID, conds: seq<WaitCondition>, clock: map<XID, Int64>): (Status, State) {
    if conds == [] then (BadValue, s)
    else if InUse(s, w) then (BadIDChoice, s)
    else
      var (rc, s1) := AddConditions(s.(awaits := s.awaits[w := Await(client, [])]), w, conds, clock);
      if rc != Success then (rc, s1)
      else (Success, AwaitEpilogue(Emit(s1, [IgnoreClient(client)]), w, 0))
  }

  predicate InUse(s: State, id: XID) {
    id == NONE || id in s.counters || id in s.alarms || id in s.awaits
  }

  datatype Request =
    | CreateCounter(id: XID, value: Int64)
    | SetCounterRequest(id: XID, value: Int64)
    | ChangeCounterRequest(id: XID, amount: Int64)
    | DestroyCounter(id: XID)
    | AwaitReq(client: Client, id: XID, conditions: seq<WaitCondition>, clock: map<XID, Int64>)
    | CreateAlarmReq(client: Client, id: XID, attrs: AlarmAttributes, clock: map<XID, Int64>)
    | ChangeAlarmReq(client: Client, id: XID, attrs: AlarmAttributes, clock: map<XID, Int64>)
    | DestroyAlarm(id: XID)
    | QueryCounter(id: XID, clock: map<XID, Int64>)
    // not sent by clients: a dying client's resources are freed one by one,
    // system counters come, tick and go
    | FreeAwaitResource(id: XID)
    | FreeAlarmClient(id: XID, client: Client)
    | ClientGone(client: Client)
    | CreateSystemCounter(id: XID, value: Int64, counterType: CounterType)
    | SystemTick(id: XID, value: Int64)
    | SystemUpdate(id: XID, value: Int64)
    | DestroySystemCounter(id: XID)

  function Step(s: State, req: Request): (Status, State) {
    match req
    case CreateCounter(id, v) =>
      if InUse(s, id) then (BadIDChoice, s) else (Success, SetCounter(s, id, Counter(v, [], false, None)))
    case SetCounterRequest(id, v) =>
      if id !in s.counters then (BadCounter, s)
      else if IsSystem(s, id) then (BadAccess, s)
      else (Success, ChangeCounter(s, id, v))
    case ChangeCounterRequest(id, amount) =>
      if id !in s.counters then (BadCounter, s)
      else if IsSystem(s, id) then (BadAccess, s)
      else
        (match CheckedAdd(amount, s.counters[id].value)
         case None => (BadValue, s)
         case Some(v) => (Success, ChangeCounter(s, id, v)))
    case DestroyCounter(id) =>
      if id !in s.counters then (BadCounter, s)
      else if IsSystem(s, id) then (BadAccess, s)
      else (Success, FreeCounter(s, id))
    case AwaitReq(client, id, conds, clock) => AwaitRequest(s, client, id, conds, clock)
    case CreateAlarmReq(client, id, attrs, clock) => CreateAlarm(s, client, id, attrs, clock)
    case ChangeAlarmReq(client, id, attrs, clock) => ChangeAlarm(s, client, id, attrs, clock)
    case DestroyAlarm(id) =>
      if id !in s.alarms then (BadAlarm, s) else (Success, FreeAlarm(s, id))
    case QueryCounter(id, clock) =>
      if id !in s.counters then (BadCounter, s) else (Success, QueryValue(s, id, clock))
    case FreeAwaitResource(id) =>
      (Success, if id in s.awaits then FreeAwait(s, id) else s)
    case FreeAlarmClient(id, client) =>
      (Success,
       if id in s.alarms then SetAlarm(s, id, s.alarms[id].(eventClients := Without(s.alarms[id].eventClients, client)))
       else s)
    case ClientGone(client) => (Success, s.(gone := s.gone + {client}))
    case CreateSystemCounter(id, v, ct) =>
      if InUse(s, id) then (BadIDChoice, s)
      else (Success, SetCounter(s, id, Counter(v, [], false, Some(SysInfo(ct, INT64_MIN, INT64_MAX, false, false)))))
    case SystemTick(id, v) =>
      (Success, if IsSystem(s, id) then ChangeCounter(s, id, v) else s)
    case SystemUpdate(id, v) =>
      (Success, if IsSystem(s, id) then UpdateCounter(s, id, v) else s)
    case DestroySystemCounter(id) =>
      (Success, if IsSystem(s, id) then FreeCounter(s, id) else s)
  }
}
