/** What the change of a counter does to each alarm and each Await, in the words of the protocol: the rule of each
  test-type on the old value, the new value and the test value.
 */
module SyncFires {
  import opened SyncModel
  import opened SyncLinks
  import opened SyncTypes
  import opened SyncRearm
  import opened SyncQuiescence
  import opened SyncLazy

  // ---------- The rules ----------

  /** With the counter changed from `before` to `after`, a trigger of this test-type is true. */
  predicate Crosses(testType: nat, before: int, after: int, test: int) {
    || (testType == 0 && before < test <= after)
    || (testType == 1 && before > test >= after)
    || (testType == 2 && after >= test)
    || (testType == 3 && after <= test)
  }

  lemma CheckCrosses(t: Trigger, before: Int64, after: Int64)
    requires TriggerOk(t)
    ensures CheckAt(t.check, after, before, t.testValue) <==> Crosses(t.testType, before, after, t.testValue)
  {
  }

  lemma ComparisonCrosses(t: Trigger)
    requires TriggerOk(t)
    ensures IsComparison(t.check) <==> t.testType == 2 || t.testType == 3
  {
  }

  /** An alarm that has fired at `value`: inactive if it cannot go on, otherwise with the next test value. */
  function FiredAlarm(al: Alarm, value: Int64): Alarm {
    if al.delta == 0 && (al.trigger.testType == 2 || al.trigger.testType == 3) then al.(state := Inactive)
    else match NextTestValue(al, value)
      case None => al.(state := Inactive)
      case Some(test) => al.(trigger := al.trigger.(testValue := test))
  }

  /** Those an alarm's events go to: its owner, if it wants them, and the clients that selected for them. */
  function Listeners(al: Alarm): seq<Client> {
    (if al.events then [al.client] else []) + al.eventClients
  }

  /** One event for each listener. */
  function Told(al: Alarm, a: XID, value: Int64, state: AlarmState): (events: seq<Output>)
    ensures |events| == |Listeners(al)|
  {
    seq(|Listeners(al)|, i requires 0 <= i < |Listeners(al)| =>
      AlarmNotify(Listeners(al)[i], a, al.trigger.testValue, value, state))
  }

  lemma ToldExactly(al: Alarm, a: XID, value: Int64, state: AlarmState)
    ensures AlarmEvents(Listeners(al), a, al.trigger.testValue, value, state) == Told(al, a, value, state)
  {
    AlarmEventsEach(Listeners(al), a, al.trigger.testValue, value, state);
    hide Listeners;
    assert AlarmEvents(Listeners(al), a, al.trigger.testValue, value, state) == Told(al, a, value, state);
  }

  /** The alarm fires: what becomes of it, and the events with the old test value and the new state. */
  lemma FiringTells(s: State, a: XID)
    requires a in s.alarms && s.alarms[a].state == Active && AlarmTyped(s.alarms[a])
    requires s.alarms[a].trigger.sync != NONE && s.alarms[a].trigger.sync in s.counters
    requires IsComparison(s.alarms[a].trigger.check) ==> Check(s, s.alarms[a].trigger, 0)
    ensures var al, value := s.alarms[a], s.counters[s.alarms[a].trigger.sync].value;
      var al' := FiredAlarm(al, value);
      AlarmFired(s, a) == s.(alarms := s.alarms[a := al'], out := s.out + Told(al, a, value, al'.state))
  {
    var al, value := s.alarms[a], s.counters[s.alarms[a].trigger.sync].value;
    AlarmFiredClosedForm(s, a);
    ComparisonCrosses(al.trigger);
    hide AlarmFired, NextTestValue;
    ToldExactly(al, a, value, FiredAlarm(al, value).state);
  }

  // ---------- The events about one alarm ----------

  function EventsOf(o: seq<Output>, a: XID): seq<Output> {
    if o == [] then []
    else EventsOf(o[..|o| - 1], a) + if o[|o| - 1].AlarmNotify? && o[|o| - 1].alarm == a then [o[|o| - 1]] else []
  }

  lemma {:induction false} EventsOfSum(o: seq<Output>, p: seq<Output>, a: XID)
    ensures EventsOf(o + p, a) == EventsOf(o, a) + EventsOf(p, a)
  {
    if p == [] {
      assert o + p == o;
    } else {
      var n := |p| - 1;
      EventsOfSum(o, p[..n], a);
      assert (o + p)[..|o + p| - 1] == o + p[..n];
    }
  }

  lemma {:induction false} NoEventsOf(o: seq<Output>, a: XID)
    requires forall i :: 0 <= i < |o| ==> !(o[i].AlarmNotify? && o[i].alarm == a)
    ensures EventsOf(o, a) == []
  {
    if o != [] { NoEventsOf(o[..|o| - 1], a); }
  }

  lemma {:induction false} AllEventsOf(o: seq<Output>, a: XID)
    requires forall i :: 0 <= i < |o| ==> o[i].AlarmNotify? && o[i].alarm == a
    ensures EventsOf(o, a) == o
  {
    if o != [] {
      AllEventsOf(o[..|o| - 1], a);
      assert o == o[..|o| - 1] + [o[|o| - 1]];
    }
  }

  /** From `s` to `s'` more was put out, and of that exactly `events` are about alarm `a`. */
  ghost predicate Tells(s: State, s': State, a: XID, events: seq<Output>) {
    |s'.out| >= |s.out| && s'.out[..|s.out|] == s.out && EventsOf(s'.out[|s.out|..], a) == events
  }

  lemma TellsMore(s: State, s1: State, s2: State, a: XID, e1: seq<Output>, e2: seq<Output>)
    requires Tells(s, s1, a, e1) && Tells(s1, s2, a, e2)
    ensures Tells(s, s2, a, e1 + e2)
  {
    hide EventsOf;
    EventsOfSum(s1.out[|s.out|..], s2.out[|s1.out|..], a);
    assert s2.out == s.out + (s1.out[|s.out|..] + s2.out[|s1.out|..]);
    assert s2.out[|s.out|..] == s1.out[|s.out|..] + s2.out[|s1.out|..];
  }

  lemma TellsAppended(s: State, s': State, a: XID, o: seq<Output>)
    requires s'.out == s.out + o
    ensures Tells(s, s', a, EventsOf(o, a))
  {
    assert s'.out[|s.out|..] == o;
    hide EventsOf;
  }

  // ---------- Firing one trigger ----------

  lemma {:induction false} CounterEventsOf(s: State, client: Client, conds: seq<Condition>)
    ensures forall i :: 0 <= i < |CounterEvents(s, client, conds)| ==> CounterEvents(s, client, conds)[i].CounterNotify?
    decreases |conds|
  {
    if conds != [] { CounterEventsOf(s, client, conds[1..]); }
  }

  /** An Await that fires tells nothing of an alarm. */
  lemma AwaitTells(s: State, w: XID, a: XID)
    requires Linked(s) && Settled(s) && w in s.awaits
    ensures Tells(s, AwaitFired(s, w), a, [])
  {
    assert OffUpTo(s, w, 0, {});
    AwaitFiredLinked(s, w, {});
    CounterEventsOf(s, s.awaits[w].client, SelectEvents(s, s.awaits[w].conditions));
    NoEventsOf(AwaitEvents(s, w), a);
    hide AwaitFired, LinkedExcept, AwaitEvents;
    TellsAppended(s, AwaitFired(s, w), a, AwaitEvents(s, w));
  }

  /** An alarm that fires tells nothing of another. */
  lemma OtherTells(s: State, b: XID, a: XID)
    requires b in s.alarms && b != a
    ensures Tells(s, AlarmFired(s, b), a, [])
  {
    var o := FiredOutput(s, b);
    hide AlarmFired;
    NoEventsOf(o, a);
    TellsAppended(s, AlarmFired(s, b), a, o);
  }

  lemma FiredOutput(s: State, b: XID) returns (o: seq<Output>)
    requires b in s.alarms
    ensures AlarmFired(s, b).out == s.out + o
    ensures forall i :: 0 <= i < |o| ==> o[i].AlarmNotify? && o[i].alarm == b
  {
    var al := s.alarms[b];
    hide Rearm, AlarmEvents;
    if AlarmFired(s, b).out == s.out {
      o := [];
      assert s.out + o == s.out;
    } else {
      var state := AlarmFired(s, b).alarms[b].state;
      o := AlarmEvents(Listeners(al), b, al.trigger.testValue, ValueOf(s, al.trigger.sync), state);
      AlarmEventsEach(Listeners(al), b, al.trigger.testValue, ValueOf(s, al.trigger.sync), state);
    }
  }

  // ---------- The walk and one alarm ----------

  /** The alarm is on the list and its check holds: it will be fired. */
  predicate WillFire(s: State, refs: seq<TriggerRef>, oldval: Int64, a: XID)
    requires a in s.alarms
  {
    AlarmTrigger(a) in refs && Check(s, s.alarms[a].trigger, oldval)
  }

  /** What an alarm's firing makes of it depends on the alarm and the value of its counter. */
  lemma FiredLocal(s: State, s1: State, a: XID)
    requires a in s.alarms && a in s1.alarms && s1.alarms[a] == s.alarms[a]
    requires ValueOf(s1, s.alarms[a].trigger.sync) == ValueOf(s, s.alarms[a].trigger.sync)
    ensures a in AlarmFired(s, a).alarms && a in AlarmFired(s1, a).alarms
    ensures AlarmFired(s1, a).alarms[a] == AlarmFired(s, a).alarms[a]
    ensures forall o :: AlarmFired(s, a).out == s.out + o ==> AlarmFired(s1, a).out == s1.out + o
  {
    hide Rearm, AlarmEvents;
    assert s.out + [] == s.out && s1.out + [] == s1.out;
    forall o | AlarmFired(s, a).out == s.out + o
      ensures AlarmFired(s1, a).out == s1.out + o
    {
      var p := AlarmFired(s, a).out[|s.out|..];
      assert p == o;
      assert AlarmFired(s1, a).out[|s1.out|..] == p;
    }
  }

  lemma {:induction false} WalkAlarm(s: State, refs: seq<TriggerRef>, oldval: Int64, a: XID, o: seq<Output>)
    requires Linked(s) && Settled(s) && NoDup(refs) && a in s.alarms && AlarmFired(s, a).out == s.out + o
    requires forall i :: 0 <= i < |o| ==> o[i].AlarmNotify? && o[i].alarm == a
    ensures var s' := TriggerWalk(s, refs, oldval);
      && a in s'.alarms && a in AlarmFired(s, a).alarms
      && s'.alarms[a] == (if WillFire(s, refs, oldval, a) then AlarmFired(s, a).alarms[a] else s.alarms[a])
      && Tells(s, s', a, if WillFire(s, refs, oldval, a) then o else [])
    decreases |refs|
  {
    hide FireTrigger, LinkedExcept, FireFrame, Check, NoDup, AlarmFired, Tells;
    FiredLocal(s, s, a);
    if refs == [] {
      TellsNothing(s, a);
    } else {
      var q := refs[0];
      var fires := Live(s, q) && Check(s, Slot(s, q), oldval);
      var s1 := if fires then FireTrigger(s, q) else s;
      assert refs == [q] + refs[1..];
      NoDupPop(refs);
      if fires {
        FireTriggerLinked(s, q);
        FiredSettled(s, s1);
      }
      if q == AlarmTrigger(a) {
        FiredHere(s, s1, a, o, fires);
        NotAgain(s1, refs[1..], oldval, a);
        TellsMore(s, s1, TriggerWalk(s1, refs[1..], oldval), a, if fires then o else [], []);
        assert (if fires then o else []) + [] == if fires then o else [];
      } else {
        FiredElsewhere(s, s1, q, a, fires);
        FiredLocal(s, s1, a);
        WalkAlarm(s1, refs[1..], oldval, a, o);
        CheckLocal(s, s1, s.alarms[a].trigger, oldval);
        TellsMore(s, s1, TriggerWalk(s1, refs[1..], oldval), a, [], if WillFire(s1, refs[1..], oldval, a) then o else []);
        assert [] + (if WillFire(s1, refs[1..], oldval, a) then o else []) == if WillFire(s, refs, oldval, a) then o else [];
      }
    }
  }

  lemma TellsNothing(s: State, a: XID)
    ensures Tells(s, s, a, [])
  {
    assert s.out[|s.out|..] == [];
  }

  lemma FiredHere(s: State, s1: State, a: XID, o: seq<Output>, fires: bool)
    requires a in s.alarms && s1 == (if fires then FireTrigger(s, AlarmTrigger(a)) else s)
    requires AlarmFired(s, a).out == s.out + o && forall i :: 0 <= i < |o| ==> o[i].AlarmNotify? && o[i].alarm == a
    ensures Tells(s, s1, a, if fires then o else [])
    ensures a in s1.alarms && (fires ==> s1.alarms[a] == AlarmFired(s, a).alarms[a])
  {
    hide AlarmFired, Tells;
    AlarmFiredShape(s, a);
    if fires {
      AllEventsOf(o, a);
      TellsAppended(s, s1, a, o);
    } else {
      TellsNothing(s, a);
    }
  }

  /** Firing another trigger leaves the alarm and the values of counters alone and tells nothing of the alarm. */
  lemma FiredElsewhere(s: State, s1: State, q: TriggerRef, a: XID, fires: bool)
    requires Linked(s) && Settled(s) && a in s.alarms && q != AlarmTrigger(a) && (fires ==> Live(s, q))
    requires s1 == if fires then FireTrigger(s, q) else s
    ensures a in s1.alarms && s1.alarms[a] == s.alarms[a] && Tells(s, s1, a, [])
    ensures forall d :: ValueOf(s1, d) == ValueOf(s, d)
  {
    hide FireTrigger, LinkedExcept, Tells;
    if fires {
      FireOnly(s, q);
      FireTriggerLinked(s, q);
      FireTells(s, q, a);
    } else {
      TellsNothing(s, a);
    }
  }

  lemma FireTells(s: State, q: TriggerRef, a: XID)
    requires Linked(s) && Settled(s) && Live(s, q) && q != AlarmTrigger(a)
    ensures Tells(s, FireTrigger(s, q), a, [])
  {
    hide AlarmFired, AwaitFired, Tells, LinkedExcept;
    match q
    case AlarmTrigger(b) => OtherTells(s, b, a);
    case AwaitTrigger(w, _) => AwaitTells(s, w, a);
  }

  lemma CheckLocal(s: State, s1: State, t: Trigger, oldval: Int64)
    requires forall d :: ValueOf(s1, d) == ValueOf(s, d)
    ensures Check(s1, t, oldval) == Check(s, t, oldval)
  {
  }

  /** A walk that does not meet the alarm leaves it alone. */
  lemma {:induction false} NotAgain(s: State, refs: seq<TriggerRef>, oldval: Int64, a: XID)
    requires Linked(s) && Settled(s) && a in s.alarms && AlarmTrigger(a) !in refs
    ensures var s' := TriggerWalk(s, refs, oldval); a in s'.alarms && s'.alarms[a] == s.alarms[a] && Tells(s, s', a, [])
    decreases |refs|
  {
    hide FireTrigger, LinkedExcept, FireFrame, Check, Tells;
    if refs == [] {
      TellsNothing(s, a);
    } else {
      var q := refs[0];
      var fires := Live(s, q) && Check(s, Slot(s, q), oldval);
      var s1 := if fires then FireTrigger(s, q) else s;
      assert refs == [q] + refs[1..];
      if fires {
        FireTriggerLinked(s, q);
        FiredSettled(s, s1);
      }
      FiredElsewhere(s, s1, q, a, fires);
      NotAgain(s1, refs[1..], oldval, a);
      var nothing: seq<Output> := [];
      TellsMore(s, s1, TriggerWalk(s1, refs[1..], oldval), a, nothing, nothing);
      assert nothing + nothing == nothing;
    }
  }

  // ---------- SyncChangeCounter and one alarm ----------

  /** An active alarm on the counter fires if and only if the rule of its test-type holds on the old value, the new value
    and its test value: it then has its next test value or is inactive, and each of its listeners is told once, with the
    old test value, the new counter value and the new state. Otherwise it is as it was, and nobody is told. */
  lemma ChangeFiresAlarm(s: State, c: XID, v: Int64, a: XID)
    requires ListInv(s) && Coherent(s) && c in s.counters
    requires a in s.alarms && s.alarms[a].state == Active && s.alarms[a].trigger.sync == c
    ensures var al, s' := s.alarms[a], ChangeCounter(s, c, v);
      var fires := Crosses(al.trigger.testType, s.counters[c].value, v, al.trigger.testValue);
      && a in s'.alarms
      && s'.alarms[a] == (if fires then FiredAlarm(al, v) else al)
      && Tells(s, s', a, if fires then Told(al, a, v, FiredAlarm(al, v).state) else [])
  {
    var al, s1 := s.alarms[a], UpdateCounter(s, c, v);
    var refs, oldval := s.counters[c].triglist, s.counters[c].value;
    UpdateCounterSameLinks(s, c, v);
    SameLinksLinked(s, s1, {});
    AlarmOnList(s, a);
    CheckCrosses(al.trigger, oldval, v);
    assert Settled(s1) && s1.alarms == s.alarms && s1.out == s.out && ValueOf(s1, c) == v;
    hide TriggerWalk, ComputeBrackets, LinkedExcept, SameLinks, FiredAlarm, Told, NoDup, Crosses, ListInv;
    var o := FiredOutput(s1, a);
    WalkAlarm(s1, refs, oldval, a, o);
    var s2 := TriggerWalk(s1, refs, oldval);
    ComputeBracketsSameLinks(s2, c);
    ComputeBracketsFrame(s2, c);
    if WillFire(s1, refs, oldval, a) {
      FiringTells(s1, a);
      assert o == Told(al, a, v, FiredAlarm(al, v).state) by { SameTail(s1.out, o, Told(al, a, v, FiredAlarm(al, v).state)); }
    }
    hide Tells, AlarmFired;
    TellsFrom(s, s1, s2, ChangeCounter(s, c, v), a,
              if WillFire(s1, refs, oldval, a) then o else []);
  }

  lemma SameTail(x: seq<Output>, y: seq<Output>, z: seq<Output>)
    requires x + y == x + z
    ensures y == z
  {
    assert (x + y)[|x|..] == y && (x + z)[|x|..] == z;
  }

  lemma TellsFrom(s: State, s1: State, s2: State, s3: State, a: XID, e: seq<Output>)
    requires Tells(s1, s2, a, e) && s1.out == s.out && s3.out == s2.out
    ensures Tells(s, s3, a, e)
  {
  }

  lemma AlarmOnList(s: State, a: XID)
    requires ListInv(s) && Coherent(s) && a in s.alarms && s.alarms[a].trigger.sync in s.counters
    ensures s.alarms[a].trigger.sync != NONE && AlarmTyped(s.alarms[a])
    ensures NoDup(s.counters[s.alarms[a].trigger.sync].triglist)
    ensures AlarmTrigger(a) in s.counters[s.alarms[a].trigger.sync].triglist
  {
    assert s.alarms[a].trigger.sync != NONE;
    assert OnItsList(s, AlarmTrigger(a));
  }

  /** An alarm on another counter, or not active, is as it was, and nobody is told. */
  lemma ChangeLeavesAlarm(s: State, c: XID, v: Int64, a: XID)
    requires ListInv(s) && Coherent(s) && c in s.counters
    requires a in s.alarms && (s.alarms[a].state != Active || s.alarms[a].trigger.sync != c)
    ensures var s' := ChangeCounter(s, c, v); a in s'.alarms && s'.alarms[a] == s.alarms[a] && Tells(s, s', a, [])
  {
    var s1, refs, oldval := UpdateCounter(s, c, v), s.counters[c].triglist, s.counters[c].value;
    UpdateCounterSameLinks(s, c, v);
    SameLinksLinked(s, s1, {});
    var s2 := TriggerWalk(s1, refs, oldval);
    ComputeBracketsSameLinks(s2, c);
    ComputeBracketsFrame(s2, c);
    ListedOnce(s, c, a);
    assert Settled(s1);
    hide TriggerWalk, ComputeBrackets, LinkedExcept, SameLinks, NoDup, Tells;
    if AlarmTrigger(a) in refs {
      assert AlarmFired(s1, a) == s1;
      assert s1.out + [] == s1.out;
      hide AlarmFired;
      WalkAlarm(s1, refs, oldval, a, []);
    } else {
      NotAgain(s1, refs, oldval, a);
    }
    TellsFrom(s, s1, s2, ChangeCounter(s, c, v), a, []);
  }

  lemma ListedOnce(s: State, c: XID, a: XID)
    requires ListInv(s) && c in s.counters && a in s.alarms
    ensures NoDup(s.counters[c].triglist)
    ensures AlarmTrigger(a) in s.counters[c].triglist ==> s.alarms[a].trigger.sync == c
  {
    if AlarmTrigger(a) in s.counters[c].triglist { assert Slot(s, AlarmTrigger(a)).sync == c; }
  }

  // ---------- SyncChangeCounter and one Await ----------

  /** Some condition of the Await is on the list and its check holds. */
  ghost predicate WillEnd(s: State, refs: seq<TriggerRef>, oldval: Int64, w: XID)
    requires w in s.awaits
  {
    exists i :: 0 <= i < |s.awaits[w].conditions| && AwaitTrigger(w, i) in refs
      && Check(s, s.awaits[w].conditions[i].trigger, oldval)
  }

  lemma {:induction false} WalkAwait(s: State, refs: seq<TriggerRef>, oldval: Int64, w: XID)
    requires Linked(s) && Settled(s) && w in s.awaits
    ensures var s' := TriggerWalk(s, refs, oldval);
      (w in s'.awaits <==> !WillEnd(s, refs, oldval, w)) && (w in s'.awaits ==> s'.awaits[w] == s.awaits[w])
    decreases |refs|
  {
    if refs != [] {
      var q := refs[0];
      var fires := Live(s, q) && Check(s, Slot(s, q), oldval);
      var s1 := if fires then FireTrigger(s, q) else s;
      assert refs == [q] + refs[1..];
      hide FireTrigger, LinkedExcept, FireFrame, Check;
      if fires {
        FireTriggerLinked(s, q);
        FiredSettled(s, s1);
        FireAwaits(s, q, w);
      }
      if w in s1.awaits {
        WalkAwait(s1, refs[1..], oldval, w);
        AwaitStill(s, s1, refs, oldval, w);
      } else {
        assert q.AwaitTrigger? && q.await == w;
        GoneStays(s1, refs[1..], oldval, w);
      }
    }
  }

  lemma FireAwaits(s: State, q: TriggerRef, w: XID)
    requires Linked(s) && Settled(s) && Live(s, q) && w in s.awaits
    ensures var s1 := FireTrigger(s, q);
      && (w in s1.awaits <==> !(q.AwaitTrigger? && q.await == w)) && (w in s1.awaits ==> s1.awaits[w] == s.awaits[w])
      && (forall d :: ValueOf(s1, d) == ValueOf(s, d))
  {
    FireTriggerLinked(s, q);
    match q {
      case AlarmTrigger(a) => AlarmFiredFrame(s, a);
      case AwaitTrigger(x, _) => FreeAwaitFrame(s, x);
    }
    hide AlarmFired, AwaitFired, LinkedExcept;
  }

  lemma AwaitStill(s: State, s1: State, refs: seq<TriggerRef>, oldval: Int64, w: XID)
    requires refs != [] && w in s.awaits && w in s1.awaits && s1.awaits[w] == s.awaits[w]
    requires forall d :: ValueOf(s1, d) == ValueOf(s, d)
    requires Live(s, refs[0]) && Check(s, Slot(s, refs[0]), oldval) ==> !(refs[0].AwaitTrigger? && refs[0].await == w)
    ensures WillEnd(s1, refs[1..], oldval, w) <==> WillEnd(s, refs, oldval, w)
  {
    assert refs == [refs[0]] + refs[1..];
    forall i | 0 <= i < |s.awaits[w].conditions|
      ensures Check(s1, s.awaits[w].conditions[i].trigger, oldval) == Check(s, s.awaits[w].conditions[i].trigger, oldval)
    {
      CheckLocal(s, s1, s.awaits[w].conditions[i].trigger, oldval);
    }
    hide Check;
    if WillEnd(s, refs, oldval, w) {
      var i :| 0 <= i < |s.awaits[w].conditions| && AwaitTrigger(w, i) in refs
        && Check(s, s.awaits[w].conditions[i].trigger, oldval);
      assert AwaitTrigger(w, i) != refs[0];
      assert AwaitTrigger(w, i) in refs[1..];
    }
  }

  lemma {:induction false} GoneStays(s: State, refs: seq<TriggerRef>, oldval: Int64, w: XID)
    requires Linked(s) && Settled(s) && w !in s.awaits
    ensures w !in TriggerWalk(s, refs, oldval).awaits
  {
    WalkOnly(s, refs, oldval, 0);
  }

  /** Some condition is on counter `c` and becomes true as the counter goes from `before` to `after`. */
  ghost predicate SomeCrosses(conds: seq<Condition>, c: XID, before: int, after: int) {
    exists i :: 0 <= i < |conds| && conds[i].trigger.sync == c &&
                Crosses(conds[i].trigger.testType, before, after, conds[i].trigger.testValue)
  }

  /** A pending Await is over after the change if and only if one of its conditions is on the counter and the rule of its
    test-type holds; otherwise it is as it was. */
  lemma ChangeEndsAwait(s: State, c: XID, v: Int64, w: XID)
    requires ListInv(s) && Coherent(s) && c in s.counters && w in s.awaits
    ensures var conds, s' := s.awaits[w].conditions, ChangeCounter(s, c, v);
      && (w !in s'.awaits <==> SomeCrosses(conds, c, s.counters[c].value, v))
      && (w in s'.awaits ==> s'.awaits[w] == s.awaits[w])
  {
    var s1, refs, oldval := UpdateCounter(s, c, v), s.counters[c].triglist, s.counters[c].value;
    var conds := s.awaits[w].conditions;
    UpdateCounterSameLinks(s, c, v);
    SameLinksLinked(s, s1, {});
    assert Settled(s1) && s1.awaits == s.awaits;
    forall i | 0 <= i < |conds|
      ensures AwaitTrigger(w, i) in refs <==> conds[i].trigger.sync == c
      ensures conds[i].trigger.sync == c ==> (Check(s1, conds[i].trigger, oldval)
        <==> Crosses(conds[i].trigger.testType, oldval, v, conds[i].trigger.testValue))
    {
      ConditionListed(s, w, i, c);
      CheckCrosses(conds[i].trigger, oldval, v);
    }
    hide TriggerWalk, ComputeBrackets, LinkedExcept, SameLinks, Check, Crosses;
    WalkAwait(s1, refs, oldval, w);
    ComputeBracketsSameLinks(TriggerWalk(s1, refs, oldval), c);
  }

  lemma ConditionListed(s: State, w: XID, i: nat, c: XID)
    requires ListInv(s) && Coherent(s) && w in s.awaits && i < |s.awaits[w].conditions| && c in s.counters
    ensures AwaitTrigger(w, i) in s.counters[c].triglist <==> s.awaits[w].conditions[i].trigger.sync == c
    ensures TriggerOk(s.awaits[w].conditions[i].trigger) && c != NONE
  {
    var r := AwaitTrigger(w, i);
    assert Live(s, r) && Slot(s, r) == s.awaits[w].conditions[i].trigger && AwaitTyped(s.awaits[w]);
    if r in s.counters[c].triglist { assert Slot(s, r).sync == c; }
    if s.awaits[w].conditions[i].trigger.sync == c { assert OnItsList(s, r); }
  }
}
