/** The SYNC extension as objects that are updated in place. Every method leaves the state
  that the function of the same purpose in `SyncModel.dfy` computes from the old one.
 */
module SyncServer {
  import opened SyncModel
  import opened SyncLinks
  import opened SyncTypes
  import opened SyncLoops
  import opened SyncQuiescence
  import opened SyncAwaitEvents

  class SyncCounter {
    const id: XID
    var value: Int64
    var triglist: seq<TriggerRef>
    var beingDestroyed: bool
    var sys: Option<SysInfo>

    constructor (id: XID, value: Int64, sys: Option<SysInfo>)
      ensures this.id == id && View() == Counter(value, [], false, sys)
    {
      this.id, this.value, this.sys := id, value, sys;
      triglist, beingDestroyed := [], false;
    }

    function View(): Counter
      reads this
    {
      Counter(value, triglist, beingDestroyed, sys)
    }
  }

  class SyncAlarm {
    const id: XID
    const client: Client
    var trigger: Trigger
    var delta: Int64
    var events: bool
    var state: AlarmState
    var eventClients: seq<Client>

    /** The defaults of ProcSyncCreateAlarm. */
    constructor (id: XID, client: Client)
      ensures this.id == id && View() == NewAlarm(client)
    {
      this.id, this.client := id, client;
      trigger, delta, events, state, eventClients := NEW_TRIGGER, 1, true, Inactive, [];
    }

    function View(): Alarm
      reads this
    {
      Alarm(trigger, client, delta, events, state, eventClients)
    }
  }

  /** The header and the wait conditions of one Await request. */
  class SyncAwait {
    const id: XID
    const client: Client
    var conditions: seq<Condition>

    constructor (id: XID, client: Client)
      ensures this.id == id && View() == Await(client, [])
    {
      this.id, this.client := id, client;
      conditions := [];
    }

    function View(): Await
      reads this
    {
      Await(client, conditions)
    }
  }

  class Server {
    var counters: map<XID, SyncCounter>
    var alarms: map<XID, SyncAlarm>
    var awaits: map<XID, SyncAwait>
    var gone: set<Client>
    var out: seq<Output>

    ghost function Repr(): set<object>
      reads this
    {
      {this} + counters.Values + alarms.Values + awaits.Values
    }

    ghost predicate Valid()
      reads Repr()
    {
      && (forall c :: c in counters ==> counters[c].id == c)
      && (forall a :: a in alarms ==> alarms[a].id == a)
      && (forall w :: w in awaits ==> awaits[w].id == w)
    }

    ghost function Abs(): State
      reads Repr()
    {
      State(map c | c in counters :: counters[c].View(), map a | a in alarms :: alarms[a].View(),
            map w | w in awaits :: awaits[w].View(), gone, out)
    }

    constructor ()
      ensures Valid() && fresh(Repr()) && Abs() == INITIAL
    {
      counters, alarms, awaits, gone, out := map[], map[], map[], {}, [];
    }

    /** LEGAL_NEW_RESOURCE fails. */
    predicate IdInUse(id: XID)
      requires Valid()
      reads Repr()
      ensures IdInUse(id) == InUse(Abs(), id)
    {
      id == NONE || id in counters || id in alarms || id in awaits
    }

    twostate lemma CounterWritten(c: SyncCounter)
      requires old(Valid()) && c.id in old(counters) && old(counters)[c.id] == c
      requires unchanged(this, old(alarms).Values, old(awaits).Values, old(counters).Values - {c})
      ensures Valid() && Abs() == SetCounter(old(Abs()), c.id, c.View())
    {
      forall d | d in counters && d != c.id
        ensures counters[d].View() == old(counters[d].View())
      {
        assert counters[d] in old(counters).Values - {c};
      }
    }

    twostate lemma AlarmWritten(a: SyncAlarm)
      requires old(Valid()) && a.id in old(alarms) && old(alarms)[a.id] == a
      requires unchanged(this, old(counters).Values, old(awaits).Values, old(alarms).Values - {a})
      ensures Valid() && Abs() == SetAlarm(old(Abs()), a.id, a.View())
    {
      forall b | b in alarms && b != a.id
        ensures alarms[b].View() == old(alarms[b].View())
      {
        assert alarms[b] in old(alarms).Values - {a};
      }
    }

    twostate lemma AwaitWritten(w: SyncAwait)
      requires old(Valid()) && w.id in old(awaits) && old(awaits)[w.id] == w
      requires unchanged(this, old(counters).Values, old(alarms).Values, old(awaits).Values - {w})
      ensures Valid() && Abs() == old(Abs()).(awaits := old(Abs()).awaits[w.id := w.View()])
    {
      forall v | v in awaits && v != w.id
        ensures awaits[v].View() == old(awaits[v].View())
      {
        assert awaits[v] in old(awaits).Values - {w};
      }
    }

    /** Follow a trigger pointer. */
    function TriggerAt(r: TriggerRef): (t: Trigger)
      requires Valid() && Live(Abs(), r)
      reads Repr()
      ensures t == Slot(Abs(), r)
    {
      match r
      case AlarmTrigger(a) => alarms[a].trigger
      case AwaitTrigger(w, i) => awaits[w].conditions[i].trigger
    }

    // ---------- Trigger lists and brackets ----------

    method SyncComputeBracketValues(c: SyncCounter)
      requires Valid() && c.id in counters && counters[c.id] == c && ListsLive(Abs())
      modifies c
      ensures Valid() && Abs() == ComputeBrackets(old(Abs()), c.id)
    {
      if c.sys.None? || c.sys.value.counterType == NeverChanges {
        return;
      }
      var ct := c.sys.value.counterType;
      var less: Int64, greater: Int64 := INT64_MIN, INT64_MAX;
      var newLess, newGreater := false, false;
      ghost var s := Abs();
      ghost var reset := SysInfo(ct, INT64_MIN, INT64_MAX, false, false);
      var i := 0;
      while i < |c.triglist|
        invariant 0 <= i <= |c.triglist|
        invariant BracketWalk(s, c.triglist, c.value, reset)
               == BracketWalk(s, c.triglist[i..], c.value, SysInfo(ct, less, greater, newLess, newGreater))
      {
        assert c.triglist[i] in s.counters[c.id].triglist;
        var t := TriggerAt(c.triglist[i]);
        assert c.triglist[i..][0] == c.triglist[i] && c.triglist[i..][1..] == c.triglist[i + 1..];
        var test := t.testValue;
        if t.testType == POSITIVE_COMPARISON && ct != NeverIncreases {
          if c.value < test && test < greater {
            greater, newGreater := test, true;
          } else if c.value > test && test > less {
            less, newLess := test, true;
          }
        } else if t.testType == NEGATIVE_COMPARISON && ct != NeverDecreases {
          if c.value > test && test > less {
            less, newLess := test, true;
          } else if c.value < test && test < greater {
            greater, newGreater := test, true;
          }
        } else if t.testType == NEGATIVE_TRANSITION && ct != NeverIncreases {
          if c.value >= test && test > less {
            less, newLess := test, true;
          } else if c.value < test && test < greater {
            greater, newGreater := test, true;
          }
        } else if t.testType == POSITIVE_TRANSITION && ct != NeverDecreases {
          if c.value <= test && test < greater {
            greater, newGreater := test, true;
          } else if c.value > test && test > less {
            less, newLess := test, true;
          }
        }
        i := i + 1;
      }
      c.sys := Some(SysInfo(ct, less, greater, newLess, newGreater));
      CounterWritten(c);
    }

    /** Find the node of `r` on a list and take it out. */
    static method UnlinkNode<T(==)>(list: seq<T>, r: T) returns (rest: seq<T>)
      ensures rest == RemoveFirst(list, r)
    {
      var i := 0;
      while i < |list| && list[i] != r
        invariant 0 <= i <= |list|
        invariant RemoveFirst(list, r) == list[..i] + RemoveFirst(list[i..], r)
      {
        assert list[i..][1..] == list[i + 1..] && list[..i + 1] == list[..i] + [list[i]];
        i := i + 1;
      }
      if i < |list| {
        assert list[i..][1..] == list[i + 1..];
        rest := list[..i] + list[i + 1..];
      } else {
        assert list[..i] + [] == list;
        rest := list;
      }
    }

    method SyncDeleteTriggerFromSyncObject(r: TriggerRef)
      requires Valid() && Live(Abs(), r) && ListsLive(Abs())
      modifies counters.Values
      ensures Valid() && Abs() == DeleteTrigger(old(Abs()), r)
    {
      var pSync := TriggerAt(r).sync;
      if pSync !in counters {
        return;
      }
      var c := counters[pSync];
      ghost var s := Abs();
      assert s.counters[pSync] == c.View();
      RemoveFirstSubset(c.triglist, r);
      c.triglist := UnlinkNode(c.triglist, r);
      CounterWritten(c);
      SetCounterListsLive(s, c.id, c.View());
      SyncComputeBracketValues(c);
    }

    method SyncAddTriggerToSyncObject(r: TriggerRef)
      requires Valid() && Live(Abs(), r) && ListsLive(Abs())
      modifies counters.Values
      ensures Valid() && Abs() == AddTrigger(old(Abs()), r)
    {
      var pSync := TriggerAt(r).sync;
      if pSync !in counters {
        return;
      }
      var c := counters[pSync];
      var i := 0;
      while i < |c.triglist|
        invariant 0 <= i <= |c.triglist| && unchanged(c)
        invariant r !in c.triglist[..i]
      {
        if c.triglist[i] == r {
          return;
        }
        i := i + 1;
      }
      ghost var s := Abs();
      assert s.counters[pSync] == c.View();
      c.triglist := [r] + c.triglist;
      CounterWritten(c);
      SetCounterListsLive(s, c.id, c.View());
      SyncComputeBracketValues(c);
    }

    // ---------- SyncInitTrigger ----------

    method StoreTrigger(r: TriggerRef, t: Trigger)
      requires Valid() && Live(Abs(), r)
      modifies alarms.Values, awaits.Values
      ensures Valid() && Abs() == SetSlot(old(Abs()), r, t)
    {
      match r
      case AlarmTrigger(a) =>
        alarms[a].trigger := t;
        AlarmWritten(alarms[a]);
      case AwaitTrigger(w, i) =>
        var aw := awaits[w];
        aw.conditions := aw.conditions[i := aw.conditions[i].(trigger := t)];
        AwaitWritten(aw);
    }

    /** System counters are asked for their present value. */
    method AskSystemCounter(pSync: XID, clock: map<XID, Int64>)
      requires Valid()
      modifies counters.Values
      ensures Valid() && Abs() == QueryValue(old(Abs()), pSync, clock)
    {
      if pSync in counters && counters[pSync].sys.Some? && pSync in clock {
        counters[pSync].value := clock[pSync];
        CounterWritten(counters[pSync]);
      }
    }

    function NewTestValue(t: Trigger, pSync: XID, ch: Changes): (res: (Status, Int64))
      requires Valid()
      reads Repr()
      ensures res == TestValue(Abs(), t, pSync, ch)
    {
      if !ch.valueType && !ch.value then (Success, t.testValue)
      else if t.valueType == ABSOLUTE then (Success, t.waitValue)
      else if pSync == NONE then (BadMatch, t.testValue)
      else
        var value: Int64 := if pSync in counters then counters[pSync].value else 0;
        match CheckedAdd(value, t.waitValue)
        case None => (BadValue, t.testValue)
        case Some(sum) => (Success, sum)
    }

    /** Select the check function and store the trigger. */
    method SelectCheck(r: TriggerRef, trigger: Trigger, ch: Changes) returns (rc: Status)
      requires Valid() && Live(Abs(), r)
      modifies alarms.Values, awaits.Values
      ensures Valid()
      ensures StoreChecked(old(Abs()), r, trigger, ch) == (rc, Abs())
    {
      hide SetSlot;
      var t := trigger;
      rc := Success;
      if ch.testType {
        if t.testType == POSITIVE_TRANSITION {
          t := t.(check := PosTransition);
        } else if t.testType == NEGATIVE_TRANSITION {
          t := t.(check := NegTransition);
        } else if t.testType == POSITIVE_COMPARISON {
          t := t.(check := PosComparison);
        } else if t.testType == NEGATIVE_COMPARISON {
          t := t.(check := NegComparison);
        } else {
          rc := BadValue;
        }
      }
      StoreTrigger(r, t);
    }

    /** The start of SyncInitTrigger, in which it can still fail. */
    method CheckAndStoreTrigger(r: TriggerRef, pSync: XID, ch: Changes, clock: map<XID, Int64>) returns (rc: Status)
      requires Valid() && Live(Abs(), r)
      requires ch.counter ==> pSync == NONE || pSync in Abs().counters
      requires !ch.counter ==> pSync == Slot(Abs(), r).sync
      modifies counters.Values, alarms.Values, awaits.Values
      ensures Valid()
      ensures InitChecks(old(Abs()), r, pSync, ch, clock) == (rc, Abs())
    {
      hide StoreChecked, SetSlot, QueryFrame, TestValue, Abs;
      var t := TriggerAt(r);
      QueryValueFrame(Abs(), pSync, clock);
      AskSystemCounter(pSync, clock);
      if ch.valueType && t.valueType != RELATIVE && t.valueType != ABSOLUTE {
        return BadValue;
      }
      var (status, test) := NewTestValue(t, pSync, ch);
      rc := status;
      if rc == Success {
        rc := SelectCheck(r, t.(testValue := test), ch);
      }
    }

    method SyncInitTrigger(r: TriggerRef, syncObject: XID, ch: Changes, clock: map<XID, Int64>) returns (rc: Status)
      requires Valid() && Live(Abs(), r) && ListsLive(Abs())
      modifies counters.Values, alarms.Values, awaits.Values
      ensures Valid()
      ensures InitTrigger(old(Abs()), r, syncObject, ch, clock) == (rc, Abs())
    {
      hide InitChecks, Relink, ListsLive, Slot, Live, QueryValue;
      InitChecksPSync(Abs(), r, syncObject, ch, clock);
      if ch.counter && syncObject != NONE && syncObject !in counters {
        return BadCounter;
      }
      var pSync := if ch.counter then syncObject else TriggerAt(r).sync;
      InitChecksListsLive(Abs(), r, pSync, ch, clock);
      rc := CheckAndStoreTrigger(r, pSync, ch, clock);
      if rc == Success {
        RelinkTrigger(r, pSync);
      }
    }

    /** The end of SyncInitTrigger, when nothing can go wrong any more. */
    method RelinkTrigger(r: TriggerRef, pSync: XID)
      requires Valid() && Live(Abs(), r) && ListsLive(Abs())
      modifies counters.Values, alarms.Values, awaits.Values
      ensures Valid() && Abs() == Relink(old(Abs()), r, pSync)
    {
      var t := TriggerAt(r);
      if pSync != t.sync {
        SyncDeleteTriggerFromSyncObject(r);
        DeleteTriggerListsLive(old(Abs()), r);
        ghost var s1 := Abs();
        StoreTrigger(r, t.(sync := pSync));
        SetSlotFrame(s1, r, t.(sync := pSync));
        SyncAddTriggerToSyncObject(r);
      } else if pSync in counters {
        SyncComputeBracketValues(counters[pSync]);
      }
    }

    // ---------- Alarms ----------

    /** The function behind `pTrigger->CheckTrigger`. */
    predicate CheckTrigger(t: Trigger, oldval: Int64)
      requires Valid() && (t.sync == NONE || t.sync in counters)
      reads Repr()
      ensures CheckTrigger(t, oldval) == Check(Abs(), t, oldval)
    {
      t.sync == NONE || CheckAt(t.check, counters[t.sync].value, oldval, t.testValue)
    }

    /** The same event for one client after the other. */
    static method EventForEach(clients: seq<Client>, a: XID, test: Int64, value: Int64, state: AlarmState)
      returns (events: seq<Output>)
      ensures events == AlarmEvents(clients, a, test, value, state)
    {
      events := [];
      var i := 0;
      while i < |clients|
        invariant 0 <= i <= |clients|
        invariant events + AlarmEvents(clients[i..], a, test, value, state) == AlarmEvents(clients, a, test, value, state)
      {
        var event := AlarmNotify(clients[i], a, test, value, state);
        assert clients[i..][0] == clients[i] && clients[i..][1..] == clients[i + 1..];
        assert events + ([event] + AlarmEvents(clients[i + 1..], a, test, value, state))
            == (events + [event]) + AlarmEvents(clients[i + 1..], a, test, value, state);
        events := events + [event];
        i := i + 1;
      }
    }

    method SyncSendAlarmNotifyEvents(a: SyncAlarm)
      requires Valid() && a.id in alarms && alarms[a.id] == a
      modifies this`out
      ensures Valid() && Abs() == SendAlarmNotify(old(Abs()), a.id)
    {
      assert Abs().alarms[a.id] == a.View();
      hide AlarmEvents;
      var value := Value(a.trigger.sync);
      var clients := (if a.events then [a.client] else []) + a.eventClients;
      var events := EventForEach(clients, a.id, a.trigger.testValue, value, a.state);
      out := out + events;
    }

    /** The do-while loop of SyncAlarmTriggerFired. */
    static method RepeatDelta(f: CheckFn, oldvalue: Int64, delta: Int64, value: Int64) returns (overflow: bool, test: Int64)
      requires delta != 0 || !IsComparison(f)
      ensures overflow <==> Rearm(f, oldvalue, delta, value) == None
      ensures !overflow ==> Rearm(f, oldvalue, delta, value) == Some(test)
    {
      test := oldvalue;
      overflow := !Fits(test + delta);
      if !overflow {
        test := test + delta;
      }
      while !overflow && CheckAt(f, value, value, test)
        invariant Rearm(f, oldvalue, delta, value)
          == if overflow then None else if CheckAt(f, value, value, test) then Rearm(f, test, delta, value) else Some(test)
        decreases !overflow, if delta > 0 then INT64_MAX - test else test - INT64_MIN
      {
        overflow := !Fits(test + delta);
        if !overflow {
          test := test + delta;
        }
      }
    }

    method StoreAlarm(a: SyncAlarm, al: Alarm)
      requires Valid() && a.id in alarms && alarms[a.id] == a && al.client == a.client
      modifies a
      ensures Valid() && a.View() == al && Abs() == SetAlarm(old(Abs()), a.id, al)
    {
      a.trigger, a.delta, a.events, a.state, a.eventClients := al.trigger, al.delta, al.events, al.state, al.eventClients;
      AlarmWritten(a);
    }

    /** The state and test value a firing active alarm is to have. */
    method NewStateAndTest(al: Alarm) returns (state: AlarmState, test: Int64)
      requires Valid() && (al.trigger.sync == NONE || al.trigger.sync in counters)
      requires LoopEnds(al)
      ensures FiresTo(al, ValueOf(old(Abs()), al.trigger.sync), state, test)
    {
      state, test := Active, al.trigger.testValue;
      if al.trigger.sync == NONE || (al.delta == 0 && ComparisonType(al.trigger.testType)) {
        state := Inactive;
      } else {
        var value := counters[al.trigger.sync].value;
        var overflow;
        overflow, test := RepeatDelta(al.trigger.check, al.trigger.testValue, al.delta, value);
        if overflow {
          test := al.trigger.testValue;
          state := Inactive;
        }
      }
    }

    /** First the new state, then the events, which show the old test value, then the new one. */
    method UpdateFiredAlarm(a: SyncAlarm, state: AlarmState, test: Int64)
      requires Valid() && a.id in alarms && alarms[a.id] == a && a.state == Active
      requires FiresTo(a.View(), ValueOf(Abs(), a.trigger.sync), state, test)
      modifies this`out, a
      ensures Valid() && Abs() == AlarmFired(old(Abs()), a.id)
    {
      var al := a.View();
      assert Abs().alarms[a.id] == al;
      hide SendAlarmNotify, Abs, FiresTo;
      FiredSteps(Abs(), a.id, state, test);
      hide AlarmFired;
      StoreAlarm(a, al.(state := state));
      SyncSendAlarmNotifyEvents(a);
      StoreAlarm(a, al.(state := state, trigger := al.trigger.(testValue := test)));
    }

    method SyncAlarmTriggerFired(a: SyncAlarm)
      requires Valid() && a.id in alarms && alarms[a.id] == a
      requires a.trigger.sync == NONE || a.trigger.sync in counters
      requires LoopEnds(a.View())
      modifies this`out, a
      ensures Valid() && Abs() == AlarmFired(old(Abs()), a.id)
    {
      hide SendAlarmNotify, FiresTo, AlarmFired, LoopEnds;
      if a.state == Active {
        var state, test := NewStateAndTest(a.View());
        assert Abs() == old(Abs());
        UpdateFiredAlarm(a, state, test);
      } else {
        assert AlarmFired(Abs(), a.id) == Abs() by { InactiveAlarmFired(Abs(), a.id); }
      }
    }

    // ---------- Awaits ----------

    function Value(c: XID): (v: Int64)
      requires Valid()
      reads Repr()
      ensures v == ValueOf(Abs(), c)
    {
      if c in counters then counters[c].value else 0
    }

    predicate Dying(c: XID)
      requires Valid()
      reads Repr()
      ensures Dying(c) == BeingDestroyed(Abs(), c)
    {
      c in counters && counters[c].beingDestroyed
    }

    /** The test of SyncAwaitTriggerFired for one condition. */
    predicate WorthAnEvent(cond: Condition)
      requires Valid()
      reads Repr()
      ensures WorthAnEvent(cond) == Reports(Abs(), cond)
    {
      var t := cond.trigger;
      Dying(t.sync) ||
      var diff := CheckedSubtract(Value(t.sync), t.testValue);
      diff.Some? &&
      var diffgreater, diffequal := diff.value > cond.threshold, diff.value == cond.threshold;
      ((t.testType == POSITIVE_COMPARISON || t.testType == POSITIVE_TRANSITION) && (diffgreater || diffequal))
      || ((t.testType == NEGATIVE_COMPARISON || t.testType == NEGATIVE_TRANSITION) && !diffgreater)
    }

    /** The first loop of SyncAwaitTriggerFired: which conditions are worth an event. */
    method CollectEvents(w: SyncAwait) returns (pp: seq<Condition>)
      requires Valid()
      ensures pp == SelectEvents(Abs(), w.conditions)
    {
      pp := [];
      var i := 0;
      hide Reports, Abs;
      while i < |w.conditions|
        invariant 0 <= i <= |w.conditions|
        invariant pp + SelectEvents(Abs(), w.conditions[i..]) == SelectEvents(Abs(), w.conditions)
      {
        assert w.conditions[i..][0] == w.conditions[i] && w.conditions[i..][1..] == w.conditions[i + 1..];
        if WorthAnEvent(w.conditions[i]) {
          pp := pp + [w.conditions[i]];
        }
        i := i + 1;
      }
    }

    method MakeEvents(client: Client, conds: seq<Condition>) returns (events: seq<Output>)
      requires Valid()
      ensures events == CounterEvents(old(Abs()), client, conds)
    {
      ghost var s := Abs();
      var n := |conds|;
      events := [];
      var i := 0;
      hide Abs;
      while i < n
        invariant 0 <= i <= n
        invariant events + CounterEvents(s, client, conds[i..]) == CounterEvents(s, client, conds)
      {
        var t := conds[i].trigger;
        assert conds[i..][0] == conds[i] && conds[i..][1..] == conds[i + 1..];
        // the count field: how many events are still to follow
        var event := CounterNotify(client, t.sync, t.testValue, Value(t.sync), n - i - 1, Dying(t.sync));
        assert events + ([event] + CounterEvents(s, client, conds[i + 1..])) == (events + [event]) + CounterEvents(s, client, conds[i + 1..]);
        events := events + [event];
        i := i + 1;
      }
    }

    method WriteOutput(o: seq<Output>)
      requires Valid()
      modifies this`out
      ensures Valid() && Abs() == Emit(old(Abs()), o)
    {
      out := out + o;
    }

    method SyncSendCounterNotifyEvents(client: Client, conds: seq<Condition>)
      requires Valid()
      modifies this`out
      ensures Valid()
      ensures Abs() == Emit(old(Abs()), if client in gone then [] else CounterEvents(old(Abs()), client, conds))
    {
      if client !in gone {
        var events := MakeEvents(client, conds);
        WriteOutput(events);
      }
    }

    /** One turn of the loop of FreeAwait. A counter being destroyed is left alone, because
      FreeCounter takes its list apart itself. */
    method UnlinkCondition(w: SyncAwait, i: nat)
      requires Valid() && w.id in awaits && awaits[w.id] == w && ListsLive(Abs()) && i < |w.conditions|
      modifies counters.Values
      ensures Valid() && ListsLive(Abs()) && Abs().awaits == old(Abs()).awaits
      ensures i < |old(Abs()).awaits[w.id].conditions|
      ensures UnlinkFrom(old(Abs()), w.id, i) == UnlinkFrom(Abs(), w.id, i + 1)
    {
      ghost var s := Abs();
      var r := AwaitTrigger(w.id, i);
      assert s.awaits[w.id].conditions == w.conditions && Live(s, r);
      DeleteTriggerListsLive(s, r);
      hide DeleteTrigger;
      if !Dying(w.conditions[i].trigger.sync) {
        SyncDeleteTriggerFromSyncObject(r);
      }
    }

    method UnlinkConditions(w: SyncAwait)
      requires Valid() && w.id in awaits && awaits[w.id] == w && ListsLive(Abs())
      modifies counters.Values
      ensures Valid() && Abs() == UnlinkFrom(old(Abs()), w.id, 0)
    {
      var i := 0;
      ghost var s := Abs();
      assert |s.awaits[w.id].conditions| == |w.conditions|;
      while i < |w.conditions|
        invariant 0 <= i <= |w.conditions|
        invariant Valid() && ListsLive(Abs()) && Abs().awaits == s.awaits
        invariant UnlinkFrom(Abs(), w.id, i) == UnlinkFrom(s, w.id, 0)
      {
        hide UnlinkFrom, ListsLive, Abs;
        UnlinkCondition(w, i);
        i := i + 1;
      }
    }

    method FreeAwaitResource(w: SyncAwait)
      requires Valid() && w.id in awaits && awaits[w.id] == w && ListsLive(Abs())
      modifies this`awaits, counters.Values
      ensures Valid() && Abs() == FreeAwait(old(Abs()), w.id)
      ensures awaits == old(awaits) - {w.id}
    {
      hide Abs, UnlinkFrom, ListsLive;
      UnlinkConditions(w);
      ForgetAwait(w.id);
    }

    method ForgetAwait(id: XID)
      requires Valid()
      modifies this`awaits
      ensures Valid() && awaits == old(awaits) - {id}
      ensures Abs() == old(Abs()).(awaits := old(Abs()).awaits - {id})
    {
      awaits := awaits - {id};
    }

    method SyncAwaitTriggerFired(w: SyncAwait)
      requires Valid() && w.id in awaits && awaits[w.id] == w && ListsLive(Abs())
      modifies this`out, this`awaits, counters.Values
      ensures Valid() && Abs() == AwaitFired(old(Abs()), w.id)
      ensures awaits == old(awaits) - {w.id}
    {
      ghost var s := Abs();
      assert s.awaits[w.id] == w.View();
      var pp := CollectEvents(w);
      assert Abs() == s;
      hide SelectEvents, CounterEvents, FreeAwait;
      SyncSendCounterNotifyEvents(w.client, pp);
      // unblock the client
      WriteOutput([AttendClient(w.client)]);
      EmitTwice(s, if w.client in s.gone then [] else CounterEvents(s, w.client, pp), [AttendClient(w.client)]);
      FreeAwaitResource(w);
    }

    // ---------- Counters ----------

    /** The function behind `pTrigger->TriggerFired`. */
    method TriggerFired(r: TriggerRef)
      requires Valid() && Live(Abs(), r) && ListInv(Abs()) && AllEnd(Abs())
      modifies this`out, this`awaits, counters.Values, alarms.Values
      ensures Valid() && Abs() == FireTrigger(old(Abs()), r)
      ensures forall w :: w in awaits ==> w in old(awaits) && awaits[w] == old(awaits)[w]
    {
      ghost var s := Abs();
      match r {
        case AlarmTrigger(a) =>
          var al := alarms[a];
          assert s.alarms[a] == al.View();
          if al.trigger.sync != NONE { assert OnItsList(s, r); }
          hide AlarmFired;
          SyncAlarmTriggerFired(al);
        case AwaitTrigger(w, _) =>
          hide AwaitFired;
          SyncAwaitTriggerFired(awaits[w]);
      }
    }

    /** One node of the walk of SyncChangeCounter. */
    method VisitTrigger(r: TriggerRef, oldval: Int64)
      requires Valid() && Live(Abs(), r) && ListInv(Abs()) && AllEnd(Abs())
      modifies this`out, this`awaits, counters.Values, alarms.Values
      ensures Valid() && ListInv(Abs()) && AllEnd(Abs())
      ensures Abs() == if Check(old(Abs()), Slot(old(Abs()), r), oldval) then FireTrigger(old(Abs()), r) else old(Abs())
      ensures forall w :: w in awaits ==> w in old(awaits) && awaits[w] == old(awaits)[w]
    {
      ghost var s := Abs();
      var t := TriggerAt(r);
      if t.sync != NONE { assert OnItsList(s, r); }
      if CheckTrigger(t, oldval) {
        FireListInv(s, r);
        hide FireTrigger, ListInv, AllEnd;
        TriggerFired(r);
      }
    }

    method SyncUpdateCounter(c: SyncCounter, newval: Int64) returns (oldval: Int64)
      requires Valid() && c.id in counters && counters[c.id] == c
      modifies c
      ensures Valid() && Abs() == UpdateCounter(old(Abs()), c.id, newval)
      ensures oldval == old(c.value) && c.triglist == old(c.triglist)
    {
      oldval := c.value;
      c.value := newval;
      CounterWritten(c);
    }

    /** The walk over the list of `c`; the next node is saved before a trigger fires. */
    method WalkTriggers(c: SyncCounter, oldval: Int64)
      requires Valid() && c.id in counters && counters[c.id] == c && ListInv(Abs()) && AllEnd(Abs())
      modifies this`out, this`awaits, counters.Values, alarms.Values
      ensures Valid() && ListInv(Abs())
      ensures Abs() == TriggerWalk(old(Abs()), old(c.triglist), oldval)
      ensures forall w :: w in awaits ==> w in old(awaits) && awaits[w] == old(awaits)[w]
    {
      ghost var s := Abs();
      var rest := c.triglist;
      ghost var before: seq<TriggerRef> := [];
      assert s.counters[c.id].triglist == before + rest;
      hide FireTrigger, ListInv, AllEnd, Abs, TriggerWalk, Check;
      while rest != []
        invariant Valid() && ListInv(Abs()) && AllEnd(Abs())
        invariant c.id in Abs().counters && Abs().counters[c.id].triglist == before + rest
        invariant forall w :: w in awaits ==> w in old(awaits) && awaits[w] == old(awaits)[w]
        invariant TriggerWalk(Abs(), rest, oldval) == TriggerWalk(s, old(c.triglist), oldval)
        decreases |rest|
      {
        var r, next := rest[0], rest[1..];
        before := WalkStep(Abs(), c.id, before, rest, oldval);
        VisitTrigger(r, oldval);
        rest := next;
      }
      assert TriggerWalk(Abs(), [], oldval) == Abs() by { TriggerWalkEnd(Abs(), oldval); }
    }

    /** Walk the list, then set the brackets of a system counter anew. */
    method WalkAndBracket(c: SyncCounter, oldval: Int64)
      requires Valid() && c.id in counters && counters[c.id] == c && ListInv(Abs()) && AllEnd(Abs())
      modifies this`out, this`awaits, counters.Values, alarms.Values
      ensures Valid() && Abs() == ComputeBrackets(TriggerWalk(old(Abs()), old(c.triglist), oldval), c.id)
      ensures forall w :: w in awaits ==> w in old(awaits) && awaits[w] == old(awaits)[w]
    {
      hide TriggerWalk, ListInv, AllEnd, ComputeBrackets, Abs, ListsLive;
      WalkTriggers(c, oldval);
      ListInvListsLive(Abs());
      SyncComputeBracketValues(c);
    }

    method SyncChangeCounter(c: SyncCounter, newval: Int64)
      requires Valid() && c.id in counters && counters[c.id] == c && ListInv(Abs()) && AllEnd(Abs())
      modifies this`out, this`awaits, counters.Values, alarms.Values
      ensures Valid() && Abs() == ChangeCounter(old(Abs()), c.id, newval)
      ensures forall w :: w in awaits ==> w in old(awaits) && awaits[w] == old(awaits)[w]
    {
      assert Abs().counters[c.id] == c.View();
      UpdatedListInv(Abs(), c.id, newval);
      hide TriggerWalk, ListInv, AllEnd, ComputeBrackets, Abs, UpdateCounter;
      var oldval := SyncUpdateCounter(c, newval);
      WalkAndBracket(c, oldval);
    }

    /** What an alarm does when its counter goes away. */
    method SyncAlarmCounterDestroyed(a: SyncAlarm)
      requires Valid() && a.id in alarms && alarms[a.id] == a
      modifies this`out, a
      ensures Valid() && Abs() == AlarmCounterDestroyed(old(Abs()), a.id)
    {
      var al := a.View();
      assert Abs().alarms[a.id] == al;
      DestroyedSteps(Abs(), a.id);
      hide SendAlarmNotify, AlarmCounterDestroyed, Abs;
      StoreAlarm(a, al.(state := Inactive));
      SyncSendAlarmNotifyEvents(a);
      StoreAlarm(a, al.(state := Inactive, trigger := al.trigger.(sync := NONE)));
    }

    /** The function behind `pTrigger->CounterDestroyed`. */
    method CounterDestroyed(r: TriggerRef)
      requires Valid() && Live(Abs(), r) && ListsLive(Abs())
      modifies this`out, this`awaits, counters.Values, alarms.Values
      ensures Valid() && Abs() == TriggerDestroyed(old(Abs()), r)
      ensures forall w :: w in awaits ==> w in old(awaits) && awaits[w] == old(awaits)[w]
    {
      match r
      case AlarmTrigger(a) =>
        hide AlarmCounterDestroyed;
        SyncAlarmCounterDestroyed(alarms[a]);
      case AwaitTrigger(w, _) =>
        hide AwaitFired;
        SyncAwaitTriggerFired(awaits[w]);
    }

    method PopTrigger(c: SyncCounter)
      requires Valid() && c.id in counters && counters[c.id] == c && c.triglist != []
      modifies c
      ensures Valid() && c.triglist == old(c.triglist)[1..]
      ensures c.id in old(Abs()).counters && old(Abs()).counters[c.id].triglist == old(c.triglist)
      ensures Abs() == SetCounter(old(Abs()), c.id, old(Abs()).counters[c.id].(triglist := old(c.triglist)[1..]))
    {
      ghost var s := Abs();
      assert s.counters[c.id] == c.View();
      c.triglist := c.triglist[1..];
      CounterWritten(c);
    }

    /** The walk of FreeCounter, which takes the list apart while it tells the triggers. */
    method DestroyTriggers(c: SyncCounter)
      requires Valid() && c.id in counters && counters[c.id] == c
      requires DyingInv(Abs(), c.id, c.triglist)
      modifies this`out, this`awaits, counters.Values, alarms.Values
      ensures Valid() && Abs() == DestroyWalk(old(Abs()), c.id, old(c.triglist))
      ensures forall w :: w in awaits ==> w in old(awaits) && awaits[w] == old(awaits)[w]
    {
      ghost var s := Abs();
      while c.triglist != []
        invariant Valid() && DyingInv(Abs(), c.id, c.triglist)
        invariant forall w :: w in awaits ==> w in old(awaits) && awaits[w] == old(awaits)[w]
        invariant DestroyWalk(Abs(), c.id, c.triglist) == DestroyWalk(s, c.id, old(c.triglist))
        decreases |c.triglist|
      {
        var r := c.triglist[0];
        DyingStep(Abs(), c.id);
        hide TriggerDestroyed, DyingInv, ListsLive;
        ghost var rest := c.triglist[1..];
        PopTrigger(c);
        CounterDestroyed(r);
        assert Abs().counters[c.id].triglist == rest by { DyingList(Abs(), c.id, rest); }
        assert Abs().counters[c.id] == c.View();
      }
    }

    method FreeCounterResource(c: SyncCounter)
      requires Valid() && c.id in counters && counters[c.id] == c && ListInv(Abs())
      modifies this`out, this`awaits, this`counters, counters.Values, alarms.Values
      ensures Valid() && Abs() == FreeCounter(old(Abs()), c.id)
      ensures counters == old(counters) - {c.id}
      ensures forall w :: w in awaits ==> w in old(awaits) && awaits[w] == old(awaits)[w]
    {
      ghost var s := Abs();
      assert s.counters[c.id] == c.View();
      StartDying(s, c.id);
      hide DestroyWalk, DyingInv, ListInv, Abs;
      MarkDying(c);
      DestroyTriggers(c);
      ForgetCounter(c.id);
    }

    method MarkDying(c: SyncCounter)
      requires Valid() && c.id in counters && counters[c.id] == c
      modifies c
      ensures Valid() && c.triglist == old(c.triglist)
      ensures c.id in old(Abs()).counters
      ensures Abs() == SetCounter(old(Abs()), c.id, old(Abs()).counters[c.id].(beingDestroyed := true))
    {
      ghost var s := Abs();
      assert s.counters[c.id] == c.View();
      c.beingDestroyed := true;
      CounterWritten(c);
    }

    method ForgetCounter(id: XID)
      requires Valid()
      modifies this`counters
      ensures Valid() && counters == old(counters) - {id}
      ensures Abs() == old(Abs()).(counters := old(Abs()).counters - {id})
    {
      counters := counters - {id};
    }

    method ForgetAlarm(id: XID)
      requires Valid()
      modifies this`alarms
      ensures Valid() && alarms == old(alarms) - {id}
      ensures Abs() == old(Abs()).(alarms := old(Abs()).alarms - {id})
    {
      alarms := alarms - {id};
    }

    method FreeAlarmResource(a: SyncAlarm)
      requires Valid() && a.id in alarms && alarms[a.id] == a && ListsLive(Abs())
      modifies this`out, this`alarms, counters.Values, a
      ensures Valid() && Abs() == FreeAlarm(old(Abs()), a.id)
      ensures alarms == old(alarms) - {a.id}
    {
      ghost var s := Abs();
      assert s.alarms[a.id] == a.View();
      NotifiedListsLive(s, a.id);
      hide SendAlarmNotify, DeleteTrigger, Abs, ListsLive;
      StoreAlarm(a, a.View().(state := Destroyed));
      SyncSendAlarmNotifyEvents(a);
      SyncDeleteTriggerFromSyncObject(AlarmTrigger(a.id));
      ForgetAlarm(a.id);
    }

    // ---------- Requests on alarms ----------

    method SyncEventSelectForAlarm(a: SyncAlarm, client: Client, wantevents: bool)
      requires Valid() && a.id in alarms && alarms[a.id] == a
      modifies a
      ensures Valid() && a.View() == EventSelect(old(a.View()), client, wantevents)
      ensures Abs() == SetAlarm(old(Abs()), a.id, EventSelect(old(a.View()), client, wantevents))
    {
      if client == a.client {
        a.events := wantevents;
      } else if client in a.eventClients {
        if !wantevents {
          a.eventClients := UnlinkNode(a.eventClients, client);
        }
      } else if wantevents {
        a.eventClients := [client] + a.eventClients;
      }
      AlarmWritten(a);
    }

    /** SyncChangeAlarmAttributes up to the point where it writes the alarm. */
    method WriteAttributes(client: Client, a: SyncAlarm, attrs: AlarmAttributes) returns (rc: Status)
      requires Valid() && a.id in alarms && alarms[a.id] == a
      modifies a
      ensures Valid() && a.id in old(Abs()).alarms
      ensures AttributesWritten(old(Abs()), client, a.id, attrs) == (rc, Abs())
    {
      var trigger := a.trigger.(valueType := Get(attrs.valueType, a.trigger.valueType),
                                waitValue := Get(attrs.value, a.trigger.waitValue),
                                testType := Get(attrs.testType, a.trigger.testType));
      var delta := Get(attrs.delta, a.delta);
      ghost var s := Abs();
      assert s.alarms[a.id] == a.View();
      EventSelectTrigger(a.View(), client, attrs.events);
      hide Abs, EventSelect;
      if attrs.unknownBits || (attrs.events.Some? && attrs.events.value != 0 && attrs.events.value != 1) {
        return BadValue;
      }
      if attrs.events.Some? {
        SyncEventSelectForAlarm(a, client, attrs.events.value == 1);
      }
      if attrs.delta.Some? || attrs.testType.Some? {
        if (((trigger.testType == POSITIVE_COMPARISON || trigger.testType == POSITIVE_TRANSITION) && delta < 0)
            || ((trigger.testType == NEGATIVE_COMPARISON || trigger.testType == NEGATIVE_TRANSITION) && delta > 0)) {
          return BadMatch;
        }
      }
      StoreAlarm(a, a.View().(delta := delta, trigger := trigger));
      return Success;
    }

    method SyncChangeAlarmAttributes(client: Client, a: SyncAlarm, attrs: AlarmAttributes, clock: map<XID, Int64>)
      returns (rc: Status)
      requires Valid() && a.id in alarms && alarms[a.id] == a && ListInv(Abs())
      modifies counters.Values, alarms.Values, awaits.Values
      ensures Valid() && a.id in old(Abs()).alarms
      ensures ChangeAlarmAttributes(old(Abs()), client, a.id, attrs, clock) == (rc, Abs())
    {
      var counter := Get(attrs.counter, a.trigger.sync);
      assert Abs().alarms[a.id] == a.View();
      AttributeSteps(Abs(), client, a.id, attrs, clock);
      hide Abs, ListInv, AttributesWritten, InitTrigger, ChangeAlarmAttributes, ListsLive;
      rc := WriteAttributes(client, a, attrs);
      if rc == Success {
        // the alarm has changed now, whatever SyncInitTrigger says
        rc := SyncInitTrigger(AlarmTrigger(a.id), counter, ChangesOf(attrs), clock);
        if rc == Success {
          Activate(a);
        }
      }
    }

    method Activate(a: SyncAlarm)
      requires Valid() && a.id in alarms && alarms[a.id] == a
      modifies a
      ensures Valid() && a.id in old(Abs()).alarms
      ensures Abs() == SetAlarm(old(Abs()), a.id, old(Abs()).alarms[a.id].(state := Active))
    {
      assert Abs().alarms[a.id] == a.View();
      a.state := Active;
      AlarmWritten(a);
    }

    method AddAlarm(al: SyncAlarm)
      requires Valid() && al.id !in alarms
      modifies this`alarms
      ensures Valid() && alarms == old(alarms)[al.id := al]
      ensures Abs() == SetAlarm(old(Abs()), al.id, al.View())
    {
      alarms := alarms[al.id := al];
    }

    method NewAlarmObject(a: XID, client: Client) returns (al: SyncAlarm)
      requires Valid() && a !in alarms
      modifies this`alarms
      ensures Valid() && fresh(al) && al.id == a && alarms == old(alarms)[a := al]
      ensures Abs() == SetAlarm(old(Abs()), a, NewAlarm(client))
    {
      al := new SyncAlarm(a, client);
      assert Abs() == old(Abs());
      hide Abs;
      AddAlarm(al);
    }

    /** After SyncChangeAlarmAttributes: fire the alarm if its trigger holds already. */
    method CheckReadyAlarm(a: SyncAlarm)
      requires Valid() && a.id in alarms && alarms[a.id] == a && ListInv(Abs()) && LoopReady(Abs(), a.id)
      modifies this`out, a
      ensures Valid() && a.id in old(Abs()).alarms
      ensures var s := old(Abs()); var t := s.alarms[a.id].trigger;
        Abs() == (if Check(s, t, ValueOf(s, t.sync)) then AlarmFired(s, a.id) else s)
    {
      ghost var s := Abs();
      assert s.alarms[a.id] == a.View();
      if a.trigger.sync != NONE { assert OnItsList(s, AlarmTrigger(a.id)); }
      if CheckTrigger(a.trigger, Value(a.trigger.sync)) {
        hide AlarmFired, ListInv;
        SyncAlarmTriggerFired(a);
      }
    }

    /** The end of ProcSyncCreateAlarm: without a counter the new alarm stays inactive. */
    method FinishCreate(a: SyncAlarm)
      requires Valid() && a.id in alarms && alarms[a.id] == a && ListInv(Abs()) && LoopReady(Abs(), a.id)
      modifies this`out, a
      ensures Valid() && a.id in old(Abs()).alarms
      ensures Abs() == CreateFinished(old(Abs()), a.id)
    {
      assert Abs().alarms[a.id] == a.View();
      hide ListInv, LoopReady, AlarmFired, Abs;
      if a.trigger.sync == NONE {
        Deactivate(a);
      } else {
        CheckReadyAlarm(a);
      }
    }

    method ProcSyncCreateAlarm(client: Client, a: XID, attrs: AlarmAttributes, clock: map<XID, Int64>) returns (rc: Status)
      requires Valid() && ListInv(Abs()) && AllEnd(Abs())
      modifies this`out, this`alarms, counters.Values, alarms.Values, awaits.Values
      ensures Valid() && CreateAlarm(old(Abs()), client, a, attrs, clock) == (rc, Abs())
      ensures forall b :: b in alarms ==> (b in old(alarms) && alarms[b] == old(alarms)[b]) || fresh(alarms[b])
    {
      hide ListInv, ChangeAlarmAttributes, CreateFinished, CreateAlarm, Abs, SetAlarm, LoopReady, AllEnd, NewAlarm;
      if IdInUse(a) {
        CreateInUse(Abs(), client, a, attrs, clock);
        return BadIDChoice;
      }
      ReadyAfterCreate(Abs(), client, a, attrs, clock);
      CreateSteps(Abs(), client, a, attrs, clock);
      var al := NewAlarmObject(a, client);
      rc := SyncChangeAlarmAttributes(client, al, attrs, clock);
      if rc != Success {
        ForgetAlarm(a);
      } else {
        FinishCreate(al);
      }
    }

    method Deactivate(a: SyncAlarm)
      requires Valid() && a.id in alarms && alarms[a.id] == a
      modifies a
      ensures Valid() && a.id in old(Abs()).alarms && old(Abs()).alarms[a.id] == old(a.View())
      ensures Abs() == SetAlarm(old(Abs()), a.id, old(Abs()).alarms[a.id].(state := Inactive))
    {
      assert Abs().alarms[a.id] == a.View();
      a.state := Inactive;
      AlarmWritten(a);
    }

    method ProcSyncChangeAlarm(client: Client, a: XID, attrs: AlarmAttributes, clock: map<XID, Int64>) returns (rc: Status)
      requires Valid() && ListInv(Abs()) && AllEnd(Abs())
      requires EndingChange(Abs(), ChangeAlarmReq(client, a, attrs, clock))
      modifies this`out, counters.Values, alarms.Values, awaits.Values
      ensures Valid() && ChangeAlarm(old(Abs()), client, a, attrs, clock) == (rc, Abs())
    {
      if a !in alarms {
        return BadAlarm;
      }
      ReadyAfterChange(Abs(), client, a, attrs, clock);
      hide AllEnd, EndingChange, ListInv, ChangeAlarmAttributes, AlarmFired, Abs, LoopReady;
      rc := SyncChangeAlarmAttributes(client, alarms[a], attrs, clock);
      if rc == Success {
        CheckReadyAlarm(alarms[a]);
      }
    }

    // ---------- Requests on awaits ----------

    method AddAwait(aw: SyncAwait)
      requires Valid() && aw.id !in awaits
      modifies this`awaits
      ensures Valid() && awaits == old(awaits)[aw.id := aw]
      ensures Abs() == old(Abs()).(awaits := old(Abs()).awaits[aw.id := aw.View()])
    {
      awaits := awaits[aw.id := aw];
    }

    /** SyncAwaitPrologue. */
    method SyncAwaitPrologue(w: XID, client: Client) returns (aw: SyncAwait)
      requires Valid() && w !in awaits
      modifies this`awaits
      ensures Valid() && fresh(aw) && aw.id == w && awaits == old(awaits)[w := aw]
      ensures Abs() == old(Abs()).(awaits := old(Abs()).awaits[w := Await(client, [])])
    {
      aw := new SyncAwait(w, client);
      assert Abs() == old(Abs());
      hide Abs;
      AddAwait(aw);
    }

    method AppendCondition(aw: SyncAwait, cond: Condition)
      requires Valid() && aw.id in awaits && awaits[aw.id] == aw
      modifies aw
      ensures Valid() && aw.id in old(Abs()).awaits && old(Abs()).awaits[aw.id] == old(aw.View())
      ensures Abs() == WithCondition(old(Abs()), aw.id, cond)
    {
      assert Abs().awaits[aw.id] == aw.View();
      aw.conditions := aw.conditions + [cond];
      AwaitWritten(aw);
    }

    /** One turn of the loop of ProcSyncAwait. */
    method InitCondition(aw: SyncAwait, p: WaitCondition, clock: map<XID, Int64>) returns (rc: Status)
      requires Valid() && aw.id in awaits && awaits[aw.id] == aw && ListsLive(Abs())
      modifies counters.Values, alarms.Values, awaits.Values
      ensures Valid() && aw.id in old(Abs()).awaits
      ensures InitTrigger(WithCondition(old(Abs()), aw.id, NewCondition(p)),
          AwaitTrigger(aw.id, |old(Abs()).awaits[aw.id].conditions|), p.counter, ALL_CHANGES, clock) == (rc, Abs())
    {
      WithConditionListsLive(Abs(), aw.id, NewCondition(p));
      hide Abs, InitTrigger, ListsLive;
      var i := |aw.conditions|;
      AppendCondition(aw, NewCondition(p));
      rc := SyncInitTrigger(AwaitTrigger(aw.id, i), p.counter, ALL_CHANGES, clock);
    }

    method InitConditions(aw: SyncAwait, conds: seq<WaitCondition>, clock: map<XID, Int64>) returns (rc: Status)
      requires Valid() && aw.id in awaits && awaits[aw.id] == aw && AwaitInv(Abs(), aw.id, conds)
      modifies this`awaits, counters.Values, alarms.Values, awaits.Values
      ensures Valid() && aw.id in old(Abs()).awaits
      ensures AddConditions(old(Abs()), aw.id, conds, clock) == (rc, Abs())
      ensures awaits == if rc == Success then old(awaits) else old(awaits) - {aw.id}
    {
      var rest := conds;
      ghost var s := Abs();
      assert aw.id in s.awaits;
      hide Abs, InitTrigger, FreeAwait, AwaitInv, ListsLive, WithCondition;
      while rest != []
        invariant Valid() && awaits == old(awaits) && aw.id in Abs().awaits && AwaitInv(Abs(), aw.id, rest)
        invariant AddConditions(Abs(), aw.id, rest, clock) == AddConditions(s, aw.id, conds, clock)
        decreases |rest|
      {
        ghost var s1 := Abs();
        AwaitInvStep(s1, aw.id, rest, clock);
        AddConditionsStep(s1, aw.id, rest, clock);
        hide AddConditions;
        if rest[0].counter == NONE {
          FreeAwaitResource(aw);
          return BadCounter;
        }
        rc := InitCondition(aw, rest[0], clock);
        if rc != Success {
          FreeAwaitResource(aw);
          return;
        }
        rest := rest[1..];
      }
      return Success;
    }

    /** See whether any of the triggers holds already; once is enough. */
    method SyncAwaitEpilogue(aw: SyncAwait)
      requires Valid() && aw.id in awaits && awaits[aw.id] == aw && ListInv(Abs())
      modifies this`out, this`awaits, counters.Values
      ensures Valid() && aw.id in old(Abs()).awaits && Abs() == AwaitEpilogue(old(Abs()), aw.id, 0)
      ensures awaits == old(awaits) || awaits == old(awaits) - {aw.id}
    {
      ghost var s := Abs();
      assert s.awaits[aw.id] == aw.View();
      ListInvListsLive(s);
      var i := 0;
      while i < |aw.conditions|
        invariant 0 <= i <= |aw.conditions| && Valid() && Abs() == s && awaits == old(awaits)
        invariant unchanged(aw)
        invariant AwaitEpilogue(s, aw.id, 0) == AwaitEpilogue(s, aw.id, i)
      {
        var t := aw.conditions[i].trigger;
        EpilogueStep(s, aw.id, i);
        hide AwaitFired, AwaitEpilogue, ListInv, ListsLive;
        if CheckTrigger(t, Value(t.sync)) {
          SyncAwaitTriggerFired(aw);
          return;
        }
        i := i + 1;
      }
    }

    method ProcSyncAwait(client: Client, w: XID, conds: seq<WaitCondition>, clock: map<XID, Int64>) returns (rc: Status)
      requires Valid() && ListInv(Abs())
      requires forall i, j :: 0 <= i < j < |conds| ==> conds[i].counter != conds[j].counter
      modifies this`out, this`awaits, counters.Values, alarms.Values, awaits.Values
      ensures Valid() && AwaitRequest(old(Abs()), client, w, conds, clock) == (rc, Abs())
      ensures forall v :: v in awaits ==> (v in old(awaits) && awaits[v] == old(awaits)[v]) || fresh(awaits[v])
    {
      if conds == [] {
        return BadValue;
      }
      hide ListInv, AwaitInv, Abs, AddConditions, AwaitEpilogue, AwaitRequest;
      if IdInUse(w) {
        AwaitInUse(Abs(), client, w, conds, clock);
        return BadIDChoice;
      }
      AwaitRequestSteps(Abs(), client, w, conds, clock);
      hide InUse;
      var aw := SyncAwaitPrologue(w, client);
      rc := InitConditions(aw, conds, clock);
      if rc == Success {
        WriteOutput([IgnoreClient(client)]);
        SyncAwaitEpilogue(aw);
      }
    }

    // ---------- All requests ----------

    method AddCounter(k: SyncCounter)
      requires Valid() && k.id !in counters
      modifies this`counters
      ensures Valid() && counters == old(counters)[k.id := k]
      ensures Abs() == SetCounter(old(Abs()), k.id, k.View())
    {
      counters := counters[k.id := k];
    }

    method NewCounterObject(id: XID, value: Int64, sys: Option<SysInfo>)
      requires Valid() && id !in counters
      modifies this`counters
      ensures Valid() && fresh(counters.Values - old(counters).Values)
      ensures Abs() == SetCounter(old(Abs()), id, Counter(value, [], false, sys))
    {
      var k := new SyncCounter(id, value, sys);
      assert Abs() == old(Abs());
      hide Abs;
      AddCounter(k);
    }

    /** ProcSyncCreateCounter and SyncCreateSystemCounter. */
    method ProcSyncCreateCounter(id: XID, value: Int64, sys: Option<SysInfo>) returns (rc: Status)
      requires Valid()
      modifies this`counters
      ensures Valid() && fresh(counters.Values - old(counters).Values)
      ensures if InUse(old(Abs()), id) then rc == BadIDChoice && Abs() == old(Abs())
              else rc == Success && Abs() == SetCounter(old(Abs()), id, Counter(value, [], false, sys))
    {
      hide Abs;
      if IdInUse(id) {
        return BadIDChoice;
      }
      NewCounterObject(id, value, sys);
      return Success;
    }

    /** ProcSyncSetCounter, and ProcSyncChangeCounter when `relative`. */
    method SetCounterValue(id: XID, v: Int64, relative: bool) returns (rc: Status)
      requires Valid() && ListInv(Abs()) && AllEnd(Abs())
      modifies this`out, this`awaits, counters.Values, alarms.Values
      ensures Valid()
      ensures Step(old(Abs()), if relative then ChangeCounterRequest(id, v) else SetCounterRequest(id, v)) == (rc, Abs())
      ensures forall w :: w in awaits ==> w in old(awaits) && awaits[w] == old(awaits)[w]
    {
      hide ListInv, AllEnd, ChangeCounter, UpdateCounter;
      if id !in counters {
        return BadCounter;
      }
      var c := counters[id];
      assert Abs().counters[id] == c.View();
      hide Abs;
      if c.sys.Some? {
        return BadAccess;
      }
      var newvalue := v;
      if relative {
        if !Fits(v + c.value) {
          return BadValue;
        }
        newvalue := v + c.value;
      }
      SyncChangeCounter(c, newvalue);
      return Success;
    }

    method ProcSyncDestroyCounter(id: XID, system: bool) returns (rc: Status)
      requires Valid() && ListInv(Abs())
      modifies this`out, this`awaits, this`counters, counters.Values, alarms.Values
      ensures Valid()
      ensures Step(old(Abs()), if system then DestroySystemCounter(id) else DestroyCounter(id)) == (rc, Abs())
      ensures counters.Values <= old(counters).Values && awaits.Values <= old(awaits).Values
    {
      assert id in counters ==> Abs().counters[id] == counters[id].View();
      hide ListInv, Abs, FreeCounter;
      if id !in counters {
        return if system then Success else BadCounter;
      }
      var c := counters[id];
      if system != c.sys.Some? {
        return if system then Success else BadAccess;
      }
      FreeCounterResource(c);
      return Success;
    }

    /** A system counter's driver reports a new value, with or without a walk over the triggers. */
    method SystemValue(id: XID, v: Int64, walk: bool)
      requires Valid() && ListInv(Abs()) && AllEnd(Abs())
      modifies this`out, this`awaits, counters.Values, alarms.Values
      ensures Valid()
      ensures Step(old(Abs()), if walk then SystemTick(id, v) else SystemUpdate(id, v)) == (Success, Abs())
      ensures awaits.Values <= old(awaits).Values
    {
      assert id in counters ==> Abs().counters[id] == counters[id].View();
      hide ListInv, Abs, ChangeCounter, UpdateCounter;
      if id in counters && counters[id].sys.Some? {
        if walk {
          SyncChangeCounter(counters[id], v);
        } else {
          var _ := SyncUpdateCounter(counters[id], v);
        }
      }
    }

    /** FreeAlarmClient. */
    method ForgetAlarmClient(id: XID, client: Client)
      requires Valid()
      modifies alarms.Values
      ensures Valid() && Step(old(Abs()), FreeAlarmClient(id, client)) == (Success, Abs())
    {
      if id in alarms {
        var a := alarms[id];
        assert Abs().alarms[id] == a.View();
        a.eventClients := UnlinkNode(a.eventClients, client);
        AlarmWritten(a);
      }
    }

    /** Destroying alarms, asking counters, and what happens without a client's request. */
    method DispatchRest(req: Request) returns (rc: Status)
      requires Valid() && ListInv(Abs()) && AllEnd(Abs()) && ListsLive(Abs())
      requires req.DestroyAlarm? || req.QueryCounter? || req.FreeAwaitResource? || req.FreeAlarmClient? || req.ClientGone?
        || req.CreateSystemCounter? || req.SystemTick? || req.SystemUpdate? || req.DestroySystemCounter?
      modifies Repr()
      ensures Valid() && fresh(Repr() - old(Repr()))
      ensures Step(old(Abs()), req) == (rc, Abs())
    {
      hide ListInv, AllEnd, ChangeCounter, FreeCounter, FreeAlarm, FreeAwait, Abs, ListsLive;
      rc := Success;
      match req {
        case DestroyAlarm(id) => rc := ProcSyncDestroyAlarm(id);
        case QueryCounter(id, clock) => rc := ProcSyncQueryCounter(id, clock);
        case FreeAwaitResource(id) => FreeClientAwait(id);
        case FreeAlarmClient(id, client) => ForgetAlarmClient(id, client);
        case ClientGone(client) => MarkGone(client);
        case CreateSystemCounter(id, v, ct) =>
          rc := ProcSyncCreateCounter(id, v, Some(SysInfo(ct, INT64_MIN, INT64_MAX, false, false)));
        case SystemTick(id, v) => SystemValue(id, v, true);
        case SystemUpdate(id, v) => SystemValue(id, v, false);
        case DestroySystemCounter(id) => rc := ProcSyncDestroyCounter(id, true);
      }
    }

    method ProcSyncDestroyAlarm(id: XID) returns (rc: Status)
      requires Valid() && ListsLive(Abs())
      modifies this`out, this`alarms, counters.Values, alarms.Values
      ensures Valid() && Step(old(Abs()), DestroyAlarm(id)) == (rc, Abs())
      ensures alarms.Values <= old(alarms).Values
    {
      assert id in alarms <==> id in Abs().alarms;
      hide Abs, FreeAlarm, ListsLive;
      if id !in alarms {
        return BadAlarm;
      }
      FreeAlarmResource(alarms[id]);
      return Success;
    }

    method ProcSyncQueryCounter(id: XID, clock: map<XID, Int64>) returns (rc: Status)
      requires Valid()
      modifies counters.Values
      ensures Valid() && Step(old(Abs()), QueryCounter(id, clock)) == (rc, Abs())
    {
      assert id in counters <==> id in Abs().counters;
      hide Abs, QueryValue;
      if id !in counters {
        return BadCounter;
      }
      AskSystemCounter(id, clock);
      return Success;
    }

    method FreeClientAwait(id: XID)
      requires Valid() && ListsLive(Abs())
      modifies this`awaits, counters.Values
      ensures Valid() && Step(old(Abs()), Request.FreeAwaitResource(id)) == (Success, Abs())
      ensures awaits.Values <= old(awaits).Values
    {
      assert id in awaits <==> id in Abs().awaits;
      hide Abs, FreeAwait, ListsLive;
      if id in awaits {
        FreeAwaitResource(awaits[id]);
      }
    }

    method MarkGone(client: Client)
      requires Valid()
      modifies this`gone
      ensures Valid() && Step(old(Abs()), ClientGone(client)) == (Success, Abs())
    {
      gone := gone + {client};
      assert Abs() == old(Abs()).(gone := old(Abs()).gone + {client});
    }

    /** One request, as the dispatcher hands it to the extension. */
    method Dispatch(req: Request) returns (rc: Status)
      requires Valid() && ListInv(Abs()) && AllEnd(Abs()) && DistinctCounters(req) && EndingChange(Abs(), req)
      modifies Repr()
      ensures Valid() && fresh(Repr() - old(Repr()))
      ensures Step(old(Abs()), req) == (rc, Abs())
    {
      hide EndingChange, ListInv, AllEnd, ChangeCounter, FreeCounter, AwaitRequest, CreateAlarm, ChangeAlarm, FreeAlarm,
           FreeAwait, Abs;
      ListInvListsLive(Abs());
      match req {
        case CreateCounter(id, v) => rc := ProcSyncCreateCounter(id, v, None);
        case SetCounterRequest(id, v) => rc := SetCounterValue(id, v, false);
        case ChangeCounterRequest(id, amount) => rc := SetCounterValue(id, amount, true);
        case DestroyCounter(id) => rc := ProcSyncDestroyCounter(id, false);
        case AwaitReq(client, id, conds, clock) => rc := ProcSyncAwait(client, id, conds, clock);
        case CreateAlarmReq(client, id, attrs, clock) => rc := ProcSyncCreateAlarm(client, id, attrs, clock);
        case ChangeAlarmReq(client, id, attrs, clock) => rc := ProcSyncChangeAlarm(client, id, attrs, clock);
        case _ => rc := DispatchRest(req);
      }
    }
  }

  lemma AwaitInUse(s: State, client: Client, w: XID, conds: seq<WaitCondition>, clock: map<XID, Int64>)
    requires conds != [] && InUse(s, w)
    ensures AwaitRequest(s, client, w, conds, clock) == (BadIDChoice, s)
  {
  }

  lemma EmptyAwaitLinked(s: State, client: Client, w: XID)
    requires Linked(s) && w !in s.awaits
    ensures Linked(s.(awaits := s.awaits[w := Await(client, [])]))
  {
    var s0 := s.(awaits := s.awaits[w := Await(client, [])]);
    assert forall q :: Live(s0, q) == Live(s, q);
    assert forall q :: Live(s, q) ==> Slot(s0, q) == Slot(s, q);
  }

  lemma AwaitRequestSteps(s: State, client: Client, w: XID, conds: seq<WaitCondition>, clock: map<XID, Int64>)
    requires ListInv(s) && conds != [] && !InUse(s, w)
    requires forall i, j :: 0 <= i < j < |conds| ==> conds[i].counter != conds[j].counter
    ensures var s0 := s.(awaits := s.awaits[w := Await(client, [])]);
      var (rc, s1) := AddConditions(s0, w, conds, clock);
      var s2 := Emit(s1, [IgnoreClient(client)]);
      && AwaitInv(s0, w, conds)
      && (rc == Success ==> w in s2.awaits && ListInv(s2))
      && AwaitRequest(s, client, w, conds, clock) == if rc != Success then (rc, s1) else (Success, AwaitEpilogue(s2, w, 0))
  {
    var s0 := s.(awaits := s.awaits[w := Await(client, [])]);
    EmptyAwaitLinked(s, client, w);
    AddConditionsLinked(s0, w, conds, clock);
    var (rc, s1) := AddConditions(s0, w, conds, clock);
    hide AddConditions, LinkedExcept, AwaitEpilogue;
    if rc == Success {
      EmitSameLinks(s1, [IgnoreClient(client)]);
      SameLinksLinked(s1, Emit(s1, [IgnoreClient(client)]), {});
    }
  }

  function NewCondition(p: WaitCondition): Condition {
    Condition(Trigger(NONE, p.valueType, p.waitValue, p.testType, PosComparison, 0), p.threshold)
  }

  function WithCondition(s: State, w: XID, cond: Condition): State
    requires w in s.awaits
  {
    var aw := s.awaits[w];
    s.(awaits := s.awaits[w := aw.(conditions := aw.conditions + [cond])])
  }

  /** The invariant of the loop of ProcSyncAwait. */
  ghost predicate AwaitInv(s: State, w: XID, conds: seq<WaitCondition>) {
    Linked(s) && Settled(s) && w in s.awaits && FreshConditions(s.awaits[w], conds)
  }

  lemma WithConditionListsLive(s: State, w: XID, cond: Condition)
    requires ListsLive(s) && w in s.awaits
    ensures var s1 := WithCondition(s, w, cond); ListsLive(s1) && Live(s1, AwaitTrigger(w, |s.awaits[w].conditions|))
  {
    assert forall q :: Live(s, q) ==> Live(WithCondition(s, w, cond), q);
  }

  lemma AwaitInvStep(s: State, w: XID, conds: seq<WaitCondition>, clock: map<XID, Int64>)
    requires w in s.awaits && AwaitInv(s, w, conds) && conds != []
    ensures ListsLive(s)
    ensures conds[0].counter != NONE ==>
      var (rc, s2) := InitTrigger(WithCondition(s, w, NewCondition(conds[0])),
          AwaitTrigger(w, |s.awaits[w].conditions|), conds[0].counter, ALL_CHANGES, clock);
      && w in s2.awaits && ListsLive(s2) && (rc == Success ==> AwaitInv(s2, w, conds[1..]))
  {
    if conds[0].counter != NONE {
      var rc, s2 := AddConditionLinked(s, w, conds, NewCondition(conds[0]), clock);
      hide InitTrigger, FreshConditions;
      assert ListsLive(s2);
    }
  }

  lemma AddConditionsStep(s: State, w: XID, conds: seq<WaitCondition>, clock: map<XID, Int64>)
    requires w in s.awaits && conds != []
    ensures var (rc, s2) := InitTrigger(WithCondition(s, w, NewCondition(conds[0])),
          AwaitTrigger(w, |s.awaits[w].conditions|), conds[0].counter, ALL_CHANGES, clock);
      && w in s2.awaits
      && AddConditions(s, w, conds, clock)
        == if conds[0].counter == NONE then (BadCounter, FreeAwait(s, w))
           else if rc != Success then (rc, FreeAwait(s2, w))
           else AddConditions(s2, w, conds[1..], clock)
  {
    hide InitTrigger, FreeAwait;
  }

  lemma EpilogueStep(s: State, w: XID, i: nat)
    requires ListInv(s) && w in s.awaits && i < |s.awaits[w].conditions|
    ensures var t := s.awaits[w].conditions[i].trigger;
      && (t.sync == NONE || t.sync in s.counters)
      && AwaitEpilogue(s, w, i) == if Check(s, t, ValueOf(s, t.sync)) then AwaitFired(s, w) else AwaitEpilogue(s, w, i + 1)
  {
    var t := Slot(s, AwaitTrigger(w, i));
    if t.sync != NONE { assert OnItsList(s, AwaitTrigger(w, i)); }
    hide AwaitFired;
  }

  lemma ReadyAfterChange(s: State, client: Client, a: XID, attrs: AlarmAttributes, clock: map<XID, Int64>)
    requires ListInv(s) && AllEnd(s) && a in s.alarms && EndingChange(s, ChangeAlarmReq(client, a, attrs, clock))
    ensures var s1 := ChangeAlarmAttributes(s, client, a, attrs, clock).1;
      ListInv(s1) && LoopReady(s1, a)
  {
    ChangeAlarmAttributesListInv(s, client, a, attrs, clock);
    AttributesEnd(s, client, a, attrs, clock);
    hide ChangeAlarmAttributes, EndingChange;
  }

  ghost predicate LoopReady(s: State, a: XID) {
    a in s.alarms && LoopEnds(s.alarms[a])
  }

  lemma CreateInUse(s: State, client: Client, a: XID, attrs: AlarmAttributes, clock: map<XID, Int64>)
    requires InUse(s, a)
    ensures CreateAlarm(s, client, a, attrs, clock) == (BadIDChoice, s)
  {
  }

  lemma CreateSteps(s: State, client: Client, a: XID, attrs: AlarmAttributes, clock: map<XID, Int64>)
    requires !InUse(s, a)
    ensures var (rc, s1) := ChangeAlarmAttributes(SetAlarm(s, a, NewAlarm(client)), client, a, attrs, clock);
      CreateAlarm(s, client, a, attrs, clock)
        == if rc != Success then (rc, s1.(alarms := s1.alarms - {a})) else (Success, CreateFinished(s1, a))
  {
    hide ChangeAlarmAttributes;
  }

  lemma ReadyAfterCreate(s: State, client: Client, a: XID, attrs: AlarmAttributes, clock: map<XID, Int64>)
    requires ListInv(s) && AllEnd(s) && a !in s.alarms
    ensures ListInv(SetAlarm(s, a, NewAlarm(client)))
    ensures var (rc, s1) := ChangeAlarmAttributes(SetAlarm(s, a, NewAlarm(client)), client, a, attrs, clock);
      ListInv(s1) && (rc == Success ==> LoopReady(s1, a))
  {
    var s0 := SetAlarm(s, a, NewAlarm(client));
    SetAlarmListInv(s, a, NewAlarm(client));
    ChangeAlarmAttributesListInv(s0, client, a, attrs, clock);
    CreatedEnd(s, client, a, attrs, clock);
    hide ChangeAlarmAttributes;
  }

  /** What SyncChangeAlarmAttributes does before it calls SyncInitTrigger. */
  function AttributesWritten(s: State, client: Client, a: XID, attrs: AlarmAttributes): (Status, State)
    requires a in s.alarms
  {
    var rc := CheckAttributes(s.alarms[a], attrs);
    var al := if attrs.events.Some? then EventSelect(s.alarms[a], client, attrs.events.value == 1) else s.alarms[a];
    var s0 := if attrs.events.Some? then SetAlarm(s, a, al) else s;
    if rc == BadValue then (rc, s)
    else if rc != Success then (rc, s0)
    else (rc, SetAlarm(s0, a, al.(delta := Get(attrs.delta, al.delta), trigger := WithAttributes(al.trigger, attrs))))
  }

  lemma AttributeSteps(s: State, client: Client, a: XID, attrs: AlarmAttributes, clock: map<XID, Int64>)
    requires a in s.alarms && ListInv(s)
    ensures var (rc, s1) := AttributesWritten(s, client, a, attrs);
      && a in s1.alarms && ListsLive(s1)
      && (rc != Success ==> ChangeAlarmAttributes(s, client, a, attrs, clock) == (rc, s1))
      && (rc == Success ==>
          var res := InitTrigger(s1, AlarmTrigger(a), Get(attrs.counter, s.alarms[a].trigger.sync), ChangesOf(attrs), clock);
          ChangeAlarmAttributes(s, client, a, attrs, clock)
            == if res.0 != Success then res else (Success, SetAlarm(res.1, a, res.1.alarms[a].(state := Active))))
  {
    var al := if attrs.events.Some? then EventSelect(s.alarms[a], client, attrs.events.value == 1) else s.alarms[a];
    EventSelectTrigger(s.alarms[a], client, attrs.events);
    assert al.trigger == s.alarms[a].trigger && al.delta == s.alarms[a].delta;
    var al1 := al.(delta := Get(attrs.delta, al.delta), trigger := WithAttributes(al.trigger, attrs));
    assert SetAlarm(SetAlarm(s, a, al), a, al1) == SetAlarm(s, a, al1);
    assert SetAlarm(s, a, s.alarms[a]) == s;
    SetAlarmListInv(s, a, al);
    SetAlarmListInv(s, a, al1);
    ListInvListsLive(SetAlarm(s, a, al));
    ListInvListsLive(SetAlarm(s, a, al1));
    hide EventSelect, InitTrigger, CheckAttributes, WithAttributes, ListInv, ListsLive;
  }

  lemma NotifiedListsLive(s: State, a: XID)
    requires ListsLive(s) && a in s.alarms
    ensures var s1 := SendAlarmNotify(SetAlarm(s, a, s.alarms[a].(state := Destroyed)), a);
      ListsLive(s1) && a in s1.alarms
  {
    var s0 := SetAlarm(s, a, s.alarms[a].(state := Destroyed));
    var s1 := SendAlarmNotify(s0, a);
    assert forall q :: Live(s1, q) == Live(s, q);
    assert s1.counters == s.counters;
  }

  lemma UpdatedListInv(s: State, c: XID, v: Int64)
    requires ListInv(s) && AllEnd(s) && c in s.counters
    ensures ListInv(UpdateCounter(s, c, v)) && AllEnd(UpdateCounter(s, c, v))
  {
    UpdateCounterSameLinks(s, c, v);
    SameListInv(s, UpdateCounter(s, c, v));
  }

  lemma ListInvListsLive(s: State)
    requires ListInv(s)
    ensures ListsLive(s)
  {
  }

  lemma DestroyedSteps(s: State, a: XID)
    requires a in s.alarms
    ensures var al := s.alarms[a];
      var s1 := SendAlarmNotify(SetAlarm(s, a, al.(state := Inactive)), a);
      AlarmCounterDestroyed(s, a) == SetAlarm(s1, a, al.(state := Inactive, trigger := al.trigger.(sync := NONE)))
  {
  }

  /** The state while the list of the dying counter `c` is being taken apart. */
  ghost predicate DyingInv(s: State, c: XID, refs: seq<TriggerRef>) {
    Linked(s) && AwaitsDistinct(s) && c in s.counters && OnlyDying(s, c) && s.counters[c].triglist == refs
  }

  lemma DyingList(s: State, c: XID, refs: seq<TriggerRef>)
    requires DyingInv(s, c, refs)
    ensures c in s.counters && s.counters[c].triglist == refs
  {
  }

  lemma StartDying(s: State, c: XID)
    requires ListInv(s) && c in s.counters
    ensures DyingInv(SetCounter(s, c, s.counters[c].(beingDestroyed := true)), c, s.counters[c].triglist)
  {
    DyingSameLinks(s, c);
    SameLinksLinked(s, SetCounter(s, c, s.counters[c].(beingDestroyed := true)), {});
  }

  lemma DyingStep(s: State, c: XID)
    requires c in s.counters && DyingInv(s, c, s.counters[c].triglist) && s.counters[c].triglist != []
    ensures var refs := s.counters[c].triglist;
      var s1 := SetCounter(s, c, s.counters[c].(triglist := refs[1..]));
      && Live(s1, refs[0]) && ListsLive(s1)
      && c in TriggerDestroyed(s1, refs[0]).counters
      && DyingInv(TriggerDestroyed(s1, refs[0]), c, refs[1..])
  {
    var refs := s.counters[c].triglist;
    var r := refs[0];
    var s1 := SetCounter(s, c, s.counters[c].(triglist := refs[1..]));
    PopLinked(s, c);
    assert ListsLive(s1);
    hide LinkedExcept, AwaitFired, AlarmCounterDestroyed;
    match r {
      case AlarmTrigger(a) => AlarmCounterDestroyedLinked(s1, a, c);
      case AwaitTrigger(w, i) => AwaitDestroyedLinked(s1, w, i, c);
    }
  }

  lemma TriggerWalkEnd(s: State, oldval: Int64)
    ensures TriggerWalk(s, [], oldval) == s
  {
  }

  lemma WalkStep(s: State, c: XID, before: seq<TriggerRef>, rest: seq<TriggerRef>, oldval: Int64) returns (before': seq<TriggerRef>)
    requires ListInv(s) && c in s.counters && s.counters[c].triglist == before + rest && rest != []
    ensures Live(s, rest[0])
    ensures var s1 := if Check(s, Slot(s, rest[0]), oldval) then FireTrigger(s, rest[0]) else s;
      && c in s1.counters && s1.counters[c].triglist == before' + rest[1..]
      && TriggerWalk(s, rest, oldval) == TriggerWalk(s1, rest[1..], oldval)
  {
    var r := rest[0];
    assert rest == [r] + rest[1..] && before + rest == before + [r] + rest[1..];
    assert (before + rest)[|before|] == r;
    OnListLive(s, c, r);
    before' := before + [r];
    if Check(s, Slot(s, r), oldval) {
      hide FireTrigger, ListInv;
      before' := SavedNextStaysOnList(s, r, c, before, rest[1..]);
    }
  }

  lemma OnListLive(s: State, c: XID, r: TriggerRef)
    requires ListInv(s) && c in s.counters && r in s.counters[c].triglist
    ensures Live(s, r)
  {
  }

  lemma FireListInv(s: State, r: TriggerRef)
    requires ListInv(s) && AllEnd(s) && Live(s, r)
    ensures ListInv(FireTrigger(s, r)) && AllEnd(FireTrigger(s, r))
  {
    match r {
      case AlarmTrigger(a) => AlarmFiredListInv(s, a);
      case AwaitTrigger(w, _) => AwaitFiredListInv(s, w);
    }
    hide FireTrigger;
    KeptEnd(s, FireTrigger(s, r));
  }

  lemma EmitTwice(s: State, o1: seq<Output>, o2: seq<Output>)
    ensures Emit(Emit(s, o1), o2) == Emit(s, o1 + o2)
    ensures ListsLive(s) ==> ListsLive(Emit(s, o1 + o2))
  {
    assert s.out + o1 + o2 == s.out + (o1 + o2);
    EmitSameLinks(s, o1 + o2);
  }

  lemma InactiveAlarmFired(s: State, a: XID)
    requires a in s.alarms && s.alarms[a].state != Active
    ensures AlarmFired(s, a) == s
  {
  }

  lemma SetCounterListsLive(s: State, c: XID, k: Counter)
    requires ListsLive(s) && forall r :: r in k.triglist ==> Live(s, r)
    ensures ListsLive(SetCounter(s, c, k))
  {
    SetCounterFrame(s, c, k);
  }

  lemma DeleteTriggerListsLive(s: State, r: TriggerRef)
    requires ListsLive(s) && Live(s, r)
    ensures ListsLive(DeleteTrigger(s, r))
    ensures DeleteTrigger(s, r).alarms == s.alarms && DeleteTrigger(s, r).awaits == s.awaits
  {
    DeleteTriggerFrame(s, r);
    var c := Slot(s, r).sync;
    if c in s.counters { RemoveFirstSubset(s.counters[c].triglist, r); }
    var s' := DeleteTrigger(s, r);
    hide DeleteTrigger;
    forall d, q | d in s'.counters && q in s'.counters[d].triglist
      ensures Live(s', q)
    {
      assert q in s.counters[d].triglist;
      assert Live(s, q);
    }
  }

  /** Without the counter flag the counter argument is not looked at; with it, it must exist. */
  lemma InitChecksPSync(s: State, r: TriggerRef, syncObject: XID, ch: Changes, clock: map<XID, Int64>)
    requires Live(s, r)
    ensures !ch.counter ==> InitChecks(s, r, syncObject, ch, clock) == InitChecks(s, r, Slot(s, r).sync, ch, clock)
    ensures ch.counter && syncObject != NONE && syncObject !in s.counters ==>
      InitChecks(s, r, syncObject, ch, clock) == (BadCounter, s)
  {
    hide SetSlot, QueryValue;
  }

  lemma InitChecksListsLive(s: State, r: TriggerRef, syncObject: XID, ch: Changes, clock: map<XID, Int64>)
    requires ListsLive(s) && Live(s, r)
    ensures ListsLive(InitChecks(s, r, syncObject, ch, clock).1)
    ensures Live(InitChecks(s, r, syncObject, ch, clock).1, r)
    ensures Slot(InitChecks(s, r, syncObject, ch, clock).1, r).sync == Slot(s, r).sync
  {
    InitChecksSameLinks(s, r, syncObject, ch, clock);
    hide InitChecks;
  }

  ghost predicate FiresTo(al: Alarm, value: Int64, state: AlarmState, test: Int64) {
    var t := al.trigger;
    if t.sync == NONE || (al.delta == 0 && ComparisonType(t.testType)) then state == Inactive && test == t.testValue
    else
      match Rearm(t.check, t.testValue, al.delta, value)
      case None => state == Inactive && test == t.testValue
      case Some(v) => state == Active && test == v
  }

  /** The three writes of SyncAlarmTriggerFired: state, events, test value. */
  lemma FiredSteps(s: State, a: XID, state: AlarmState, test: Int64)
    requires a in s.alarms && s.alarms[a].state == Active
    requires FiresTo(s.alarms[a], ValueOf(s, s.alarms[a].trigger.sync), state, test)
    ensures var al := s.alarms[a];
      var s1 := SendAlarmNotify(SetAlarm(s, a, al.(state := state)), a);
      AlarmFired(s, a) == SetAlarm(s1, a, al.(state := state, trigger := al.trigger.(testValue := test)))
  {
    var al := s.alarms[a];
    assert SetAlarm(s, a, al) == s;
    var s0 := SetAlarm(s, a, al.(state := Inactive));
    assert SendAlarmNotify(s0, a).alarms == s0.alarms;
    hide AlarmEvents, Rearm;
    if state == Inactive {
      var s1 := SendAlarmNotify(s0, a);
      assert SetAlarm(s1, a, al.(state := Inactive)) == s1;
    }
  }

  /** Nothing on a trigger list has been freed. */
  ghost predicate ListsLive(s: State) {
    forall c, r :: c in s.counters && r in s.counters[c].triglist ==> Live(s, r)
  }

  lemma {:induction false} RemoveFirstSubset<T>(xs: seq<T>, x: T)
    ensures forall y :: y in RemoveFirst(xs, x) ==> y in xs
  {
    if xs != [] && xs[0] != x {
      RemoveFirstSubset(xs[1..], x);
      assert RemoveFirst(xs, x) == [xs[0]] + RemoveFirst(xs[1..], x);
    }
  }

  /** A whole run of the server, refused changes included, ends in the state `Run` computes. */
  method Serve(reqs: seq<Request>) returns (server: Server)
    requires EndingRun(INITIAL, reqs)
    ensures server.Valid() && server.Abs() == Run(INITIAL, reqs)
    ensures ListInv(server.Abs()) && AllEnd(server.Abs())
    ensures OrderlyRun(INITIAL, reqs) ==> QuietInv(server.Abs())
  {
    server := new Server();
    var rest := reqs;
    InitialQuiet();
    OrderlyQuiet(reqs);
    hide Step, QuietInv, ListInv, AllEnd, OrderlyRun;
    while rest != []
      invariant server.Valid() && fresh(server.Repr())
      invariant ListInv(server.Abs()) && AllEnd(server.Abs()) && EndingRun(server.Abs(), rest)
      invariant Run(server.Abs(), rest) == Run(INITIAL, reqs)
      decreases |rest|
    {
      ghost var s := server.Abs();
      hide Server.Abs, EndingChange, DistinctCounters;
      StepListInv(s, rest[0]);
      StepEnds(s, rest[0]);
      var _ := server.Dispatch(rest[0]);
      rest := rest[1..];
    }
  }

  lemma InitialQuiet()
    ensures QuietInv(INITIAL) && ListInv(INITIAL) && AllEnd(INITIAL)
  {
  }

  lemma OrderlyQuiet(reqs: seq<Request>)
    ensures OrderlyRun(INITIAL, reqs) ==> QuietInv(Run(INITIAL, reqs))
  {
    InitialQuiet();
    if OrderlyRun(INITIAL, reqs) {
      hide QuietInv, Step;
      OrderlyDistinct(INITIAL, reqs);
      RunQuietInv(INITIAL, reqs);
    }
  }
}
