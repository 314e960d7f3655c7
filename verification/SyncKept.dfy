/** What requests about other things leave of an unrestricted system counter: its value, its other triggers, and
  brackets that are the old ones or were computed anew.
 */
module SyncKept {
  import opened SyncModel
  import opened SyncLinks
  import opened SyncTypes
  import opened SyncQuiescence
  import opened SyncBrackets
  import opened SyncLazy
  import opened SyncCoverage

  // ---------- The relation ----------

  ghost predicate LiveRefs(s: State, c: XID)
    requires c in s.counters
  {
    forall r :: r in s.counters[c].triglist ==> Live(s, r)
  }

  /** The triggers still on the counter's list are as they were. */
  ghost predicate SameTriggers(s: State, s': State, c: XID)
    requires c in s.counters && c in s'.counters
  {
    forall r :: r in s'.counters[c].triglist ==>
      && r in s.counters[c].triglist && Live(s, r) && Live(s', r)
      && Slot(s', r) == Slot(s, r) && (Armed(s', r) ==> Armed(s, r))
  }

  ghost predicate Unrestrained(s: State, c: XID) {
    IsSystem(s, c) && s.counters[c].sys.value.counterType == Unrestricted
  }

  /** Nothing was added, and the counter is the same or its brackets were computed anew. */
  ghost predicate Held(s: State, s': State, c: XID) {
    && Unrestrained(s, c) && Unrestrained(s', c)
    && s'.counters[c].value == s.counters[c].value && s'.counters[c].beingDestroyed == s.counters[c].beingDestroyed
    && SameTriggers(s, s', c)
    && (s'.counters[c] == s.counters[c] || Fresh(s', c))
  }

  lemma HeldLive(s: State, s': State, c: XID)
    requires Held(s, s', c)
    ensures LiveRefs(s', c) && Unrestrained(s', c)
  {
  }

  lemma HeldTransitive(s: State, s1: State, s2: State, c: XID)
    requires Held(s, s1, c) && Held(s1, s2, c)
    ensures Held(s, s2, c)
  {
    hide BracketWalk;
    if s2.counters[c] == s1.counters[c] && Fresh(s1, c) {
      SlotsWalk(s1, s2, s1.counters[c].triglist, s1.counters[c].value, RESET);
    }
  }

  /** The same counter, and the same triggers on it. */
  lemma HeldOther(s: State, s': State, c: XID)
    requires Unrestrained(s, c) && c in s'.counters && s'.counters[c] == s.counters[c] && LiveRefs(s, c)
    requires forall r :: r in s.counters[c].triglist ==>
      Live(s', r) && Slot(s', r) == Slot(s, r) && (Armed(s', r) ==> Armed(s, r))
    ensures Held(s, s', c)
  {
    hide Fresh;
  }

  lemma LinkedLive(s: State, off: set<TriggerRef>, c: XID)
    requires LinkedExcept(s, off) && c in s.counters
    ensures LiveRefs(s, c)
    ensures forall r :: r in s.counters[c].triglist ==> Live(s, r) && Slot(s, r).sync == c && r !in off
  {
  }

  // ---------- Triggers taken off lists ----------

  lemma {:induction false} RemoveFirstLess<T>(xs: seq<T>, x: T)
    ensures forall y :: y in RemoveFirst(xs, x) ==> y in xs
  {
    if xs != [] && xs[0] != x {
      RemoveFirstLess(xs[1..], x);
      assert xs == [xs[0]] + xs[1..];
    }
  }

  lemma DeleteHeld(s: State, r: TriggerRef, c: XID)
    requires Unrestrained(s, c) && LiveRefs(s, c) && Live(s, r)
    ensures Held(s, DeleteTrigger(s, r), c)
  {
    var s' := DeleteTrigger(s, r);
    DeleteTriggerFrame(s, r);
    if Slot(s, r).sync == c {
      var k := s.counters[c];
      RemoveFirstLess(k.triglist, r);
      ComputedFresh(SetCounter(s, c, k.(triglist := RemoveFirst(k.triglist, r))), c);
      hide ComputeBrackets, BracketWalk;
      assert s' == ComputeBrackets(SetCounter(s, c, k.(triglist := RemoveFirst(k.triglist, r))), c);
      forall q | q in s'.counters[c].triglist
        ensures q in k.triglist && Live(s, q) && Live(s', q) && Slot(s', q) == Slot(s, q) && (Armed(s', q) ==> Armed(s, q))
      {
      }
    } else {
      hide DeleteTrigger;
      HeldOther(s, s', c);
    }
  }

  lemma {:induction false} UnlinkHeld(s: State, w: XID, i: nat, c: XID)
    requires Unrestrained(s, c) && LiveRefs(s, c) && w in s.awaits
    ensures Held(s, UnlinkFrom(s, w, i), c)
    decreases |s.awaits[w].conditions| - i
  {
    hide DeleteTrigger, Held;
    if i < |s.awaits[w].conditions| {
      var r := AwaitTrigger(w, i);
      DeleteHeld(s, r, c);
      DeleteTriggerFrame(s, r);
      HeldItself(s, c);
      var s1 := if BeingDestroyed(s, Slot(s, r).sync) then s else DeleteTrigger(s, r);
      HeldLive(s, s1, c);
      UnlinkHeld(s1, w, i + 1, c);
      HeldTransitive(s, s1, UnlinkFrom(s1, w, i + 1), c);
    } else {
      HeldItself(s, c);
    }
  }

  lemma HeldItself(s: State, c: XID)
    requires Unrestrained(s, c) && LiveRefs(s, c)
    ensures Held(s, s, c)
  {
    HeldOther(s, s, c);
  }

  lemma FreeAwaitHeld(s: State, w: XID, off: set<TriggerRef>, c: XID)
    requires Unrestrained(s, c) && w in s.awaits && LinkedExcept(s, off) && OffUpTo(s, w, 0, off)
    ensures Held(s, FreeAwait(s, w), c)
  {
    hide UnlinkFrom, Held, Fresh;
    LinkedLive(s, off, c);
    UnlinkHeld(s, w, 0, c);
    UnlinkFromLinked(s, w, 0, off);
    var s1 := UnlinkFrom(s, w, 0);
    HeldLive(s, s1, c);
    LinkedLive(s1, AwaitRefs(s, w), c);
    hide LinkedExcept;
    var s' := FreeAwait(s, w);
    forall r | r in s1.counters[c].triglist
      ensures Live(s', r) && Slot(s', r) == Slot(s1, r) && (Armed(s', r) ==> Armed(s1, r))
    {
    }
    HeldOther(s1, s', c);
    HeldTransitive(s, s1, s', c);
  }

  lemma AwaitFiredHeld(s: State, w: XID, off: set<TriggerRef>, c: XID)
    requires Unrestrained(s, c) && w in s.awaits && LinkedExcept(s, off) && OffUpTo(s, w, 0, off)
    ensures Held(s, AwaitFired(s, w), c)
  {
    hide FreeAwait, Held, AwaitEvents;
    var s1 := Emit(s, AwaitEvents(s, w));
    LinkedLive(s, off, c);
    EmitSameLinks(s, AwaitEvents(s, w));
    SameLinksLinked(s, s1, off);
    HeldOther(s, s1, c);
    FreeAwaitHeld(s1, w, off, c);
    HeldTransitive(s, s1, FreeAwait(s1, w), c);
  }

  // ---------- Firing the triggers of another counter ----------

  /** One alarm differs that is not on the list. */
  lemma OtherAlarmHeld(s: State, s': State, a: XID, c: XID)
    requires Unrestrained(s, c) && LiveRefs(s, c) && s'.counters == s.counters && s'.awaits == s.awaits
    requires a in s'.alarms && s'.alarms == s.alarms[a := s'.alarms[a]]
    requires AlarmTrigger(a) !in s.counters[c].triglist
    ensures Held(s, s', c)
  {
    forall r | r in s.counters[c].triglist
      ensures Live(s', r) && Slot(s', r) == Slot(s, r) && (Armed(s', r) ==> Armed(s, r))
    {
    }
    HeldOther(s, s', c);
  }

  lemma FireHeld(s: State, r: TriggerRef, c: XID)
    requires Linked(s) && Settled(s) && Unrestrained(s, c) && Live(s, r) && Slot(s, r).sync != c
    ensures Held(s, FireTrigger(s, r), c)
  {
    hide Held, AlarmFired, AwaitFired;
    LinkedLive(s, {}, c);
    match r
    case AlarmTrigger(a) =>
      AlarmFiredShape(s, a);
      OtherAlarmHeld(s, AlarmFired(s, a), a, c);
    case AwaitTrigger(w, _) =>
      assert OffUpTo(s, w, 0, {});
      AwaitFiredHeld(s, w, {}, c);
  }

  lemma {:induction false} WalkHeld(s: State, refs: seq<TriggerRef>, oldval: Int64, d: XID, c: XID)
    requires Linked(s) && Settled(s) && Unrestrained(s, c) && d in s.counters && c != d
    requires forall r :: r in refs && Live(s, r) ==> Slot(s, r).sync == d
    ensures Held(s, TriggerWalk(s, refs, oldval), c)
    decreases |refs|
  {
    hide FireTrigger, LinkedExcept, Held;
    if refs == [] {
      LinkedLive(s, {}, c);
      HeldItself(s, c);
    } else {
      var r := refs[0];
      assert r in refs;
      var fires := Live(s, r) && Check(s, Slot(s, r), oldval);
      var s1 := if fires then FireTrigger(s, r) else s;
      if fires {
        FireTriggerLinked(s, r);
        FireHeld(s, r, c);
      } else {
        LinkedLive(s, {}, c);
        HeldItself(s, c);
      }
      HeldLive(s, s1, c);
      forall p | p in refs[1..] && Live(s1, p)
        ensures Slot(s1, p).sync == d
      {
        if fires && p != r { FireKeepsOthers(s, r, p); }
        assert p in refs;
      }
      WalkHeld(s1, refs[1..], oldval, d, c);
      HeldTransitive(s, s1, TriggerWalk(s1, refs[1..], oldval), c);
    }
  }

  /** Another counter differs. */
  lemma OtherCounterHeld(s: State, s': State, c: XID)
    requires Unrestrained(s, c) && LiveRefs(s, c) && s'.alarms == s.alarms && s'.awaits == s.awaits
    requires c in s'.counters && s'.counters[c] == s.counters[c]
    ensures Held(s, s', c)
  {
    HeldOther(s, s', c);
  }

  lemma ChangeCounterHeld(s: State, d: XID, v: Int64, c: XID)
    requires ListInv(s) && Unrestrained(s, c) && d in s.counters && c != d
    ensures Held(s, ChangeCounter(s, d, v), c)
  {
    hide TriggerWalk, ComputeBrackets, LinkedExcept, Held;
    var s1, refs := UpdateCounter(s, d, v), s.counters[d].triglist;
    LinkedLive(s, {}, c);
    LinkedLive(s, {}, d);
    UpdateCounterSameLinks(s, d, v);
    SameLinksLinked(s, s1, {});
    OtherCounterHeld(s, s1, c);
    WalkHeld(s1, refs, s.counters[d].value, d, c);
    var s2 := TriggerWalk(s1, refs, s.counters[d].value);
    HeldLive(s1, s2, c);
    ComputeBracketsFrame(s2, d);
    ComputeBracketsSameLinks(s2, d);
    OtherCounterHeld(s2, ComputeBrackets(s2, d), c);
    HeldTransitive(s, s1, s2, c);
    HeldTransitive(s, s2, ComputeBrackets(s2, d), c);
  }

  // ---------- Destroying another counter ----------

  lemma DestroyedHeld(s: State, r: TriggerRef, d: XID, c: XID)
    requires LinkedExcept(s, {r}) && AwaitsDistinct(s) && OnlyDying(s, d) && Unrestrained(s, c) && c != d
    requires Live(s, r) && Slot(s, r).sync == d && d in s.counters
    ensures Held(s, TriggerDestroyed(s, r), c)
  {
    hide Held, AwaitFired;
    LinkedLive(s, {r}, c);
    match r
    case AlarmTrigger(a) =>
      OtherAlarmHeld(s, AlarmCounterDestroyed(s, a), a, c);
    case AwaitTrigger(w, i) =>
      assert OffUpTo(s, w, 0, {r});
      AwaitFiredHeld(s, w, {r}, c);
  }

  lemma {:induction false} DestroyWalkHeld(s: State, d: XID, refs: seq<TriggerRef>, c: XID)
    requires Linked(s) && AwaitsDistinct(s) && d in s.counters && OnlyDying(s, d) && s.counters[d].triglist == refs
    requires Unrestrained(s, c) && c != d
    ensures Held(s, DestroyWalk(s, d, refs), c)
    decreases |refs|
  {
    hide LinkedExcept, Held, TriggerDestroyed;
    LinkedLive(s, {}, c);
    if refs == [] {
      HeldItself(s, c);
    } else {
      var s1 := SetCounter(s, d, s.counters[d].(triglist := refs[1..]));
      PopLinked(s, d);
      OtherCounterHeld(s, s1, c);
      DestroyedHeld(s1, refs[0], d, c);
      PoppedLinked(s, s1, refs[0], d);
      var s2 := TriggerDestroyed(s1, refs[0]);
      HeldTransitive(s, s1, s2, c);
      HeldLive(s, s2, c);
      DestroyWalkHeld(s2, d, refs[1..], c);
      HeldTransitive(s, s2, DestroyWalk(s2, d, refs[1..]), c);
    }
  }

  lemma PoppedLinked(s: State, s1: State, r: TriggerRef, d: XID)
    requires LinkedExcept(s1, {r}) && AwaitsDistinct(s1) && d in s1.counters && OnlyDying(s1, d)
    requires Live(s1, r) && Slot(s1, r).sync == d && s1.awaits == s.awaits
    ensures var s2 := TriggerDestroyed(s1, r);
      && Linked(s2) && AwaitsDistinct(s2) && d in s2.counters && OnlyDying(s2, d)
      && s2.counters[d].triglist == s1.counters[d].triglist
  {
    hide LinkedExcept, AwaitFired, AlarmCounterDestroyed;
    match r
    case AlarmTrigger(a) => AlarmCounterDestroyedLinked(s1, a, d);
    case AwaitTrigger(w, i) => AwaitDestroyedLinked(s1, w, i, d);
  }

  lemma FreeCounterHeld(s: State, d: XID, c: XID)
    requires ListInv(s) && Unrestrained(s, c) && d in s.counters && c != d
    ensures Held(s, FreeCounter(s, d), c)
  {
    hide DestroyWalk, LinkedExcept, SameLinks, Held;
    var k := s.counters[d];
    var s0 := SetCounter(s, d, k.(beingDestroyed := true));
    LinkedLive(s, {}, c);
    DyingSameLinks(s, d);
    SameLinksLinked(s, s0, {});
    OtherCounterHeld(s, s0, c);
    DestroyWalkHeld(s0, d, k.triglist, c);
    var s1 := DestroyWalk(s0, d, k.triglist);
    HeldLive(s0, s1, c);
    OtherCounterHeld(s1, FreeCounter(s, d), c);
    HeldTransitive(s, s0, s1, c);
    HeldTransitive(s, s1, FreeCounter(s, d), c);
  }

  // ---------- Alarms elsewhere ----------

  lemma FreeAlarmHeld(s: State, a: XID, c: XID)
    requires ListInv(s) && Unrestrained(s, c) && a in s.alarms
    ensures Held(s, FreeAlarm(s, a), c)
  {
    var r0 := AlarmTrigger(a);
    var s0 := SetAlarm(s, a, s.alarms[a].(state := Destroyed));
    var s1 := SendAlarmNotify(s0, a);
    assert s1.counters == s.counters && s1.awaits == s.awaits && s1.alarms == s0.alarms;
    hide SendAlarmNotify, DeleteTrigger, Held, LinkedExcept;
    LinkedLive(s, {}, c);
    SetAlarmLinked(s, a, s.alarms[a].(state := Destroyed));
    assert SameLinks(s0, s1);
    SameLinksLinked(s0, s1, {});
    HeldOther(s, s1, c);
    HeldLive(s, s1, c);
    DeleteHeld(s1, r0, c);
    DeleteTriggerLinked(s1, r0, {});
    assert {} + {r0} == {r0};
    var s2 := DeleteTrigger(s1, r0);
    HeldLive(s1, s2, c);
    LinkedLive(s2, {r0}, c);
    HeldOther(s2, FreeAlarm(s, a), c);
    HeldTransitive(s, s1, s2, c);
    HeldTransitive(s, s2, FreeAlarm(s, a), c);
  }

  /** SyncInitTrigger for a trigger that is elsewhere and goes elsewhere, or is refused. */
  lemma InitHeld(s: State, r: TriggerRef, syncObject: XID, ch: Changes, clock: map<XID, Int64>, c: XID)
    requires Linked(s) && Unrestrained(s, c) && Live(s, r) && Slot(s, r).sync != c
    requires (if ch.counter then syncObject else Slot(s, r).sync) != c
    ensures Held(s, InitTrigger(s, r, syncObject, ch, clock).1, c)
  {
    var pSync := if ch.counter then syncObject else Slot(s, r).sync;
    LinkedLive(s, {}, c);
    var t := InitTriggerShape(s, r, syncObject, ch, clock);
    var s' := InitTrigger(s, r, syncObject, ch, clock).1;
    InitKeepsCounter(s, r, syncObject, ch, clock, c);
    SetSlotFrame(s, r, t);
    hide InitTrigger, LinkedExcept, QueryFrame, SetSlot;
    forall q | q in s.counters[c].triglist
      ensures Live(s', q) && Slot(s', q) == Slot(s, q) && (Armed(s', q) ==> Armed(s, q))
    {
      SlotElsewhere(s, s', r, t, q);
    }
    HeldOther(s, s', c);
  }

  lemma SlotElsewhere(s: State, s': State, r: TriggerRef, t: Trigger, q: TriggerRef)
    requires Live(s, r) && Live(s, q) && q != r
    requires s'.alarms == SetSlot(s, r, t).alarms && s'.awaits == SetSlot(s, r, t).awaits
    ensures Live(s', q) && Slot(s', q) == Slot(s, q) && Armed(s', q) == Armed(s, q)
  {
  }

  lemma InitKeepsCounter(s: State, r: TriggerRef, syncObject: XID, ch: Changes, clock: map<XID, Int64>, c: XID)
    requires Live(s, r) && c in s.counters && Slot(s, r).sync != c
    requires (if ch.counter then syncObject else Slot(s, r).sync) != c
    ensures InitTrigger(s, r, syncObject, ch, clock).1.counters[c] == s.counters[c]
  {
    var pSync := if ch.counter then syncObject else Slot(s, r).sync;
    var s1, t := InitChecksShape(s, r, syncObject, ch, clock);
    var (rc, s2) := InitChecks(s, r, syncObject, ch, clock);
    assert s1.counters[c] == s.counters[c];
    hide InitChecks, QueryValue;
    SetSlotFrame(s1, r, t);
    hide SetSlot, TestValue;
    if rc == Success { RelinkKeepsCounter(s2, r, pSync, c); }
  }

  lemma RelinkKeepsCounter(s: State, r: TriggerRef, pSync: XID, c: XID)
    requires Live(s, r) && c in s.counters && Slot(s, r).sync != c && pSync != c
    ensures Relink(s, r, pSync).counters[c] == s.counters[c]
  {
    if pSync != Slot(s, r).sync {
      DeleteTriggerFrame(s, r);
      var s1 := DeleteTrigger(s, r);
      SetSlotFrame(s1, r, Slot(s, r).(sync := pSync));
      hide DeleteTrigger, SetSlot, BracketWalk;
    } else {
      ComputeBracketsFrame(s, pSync);
    }
  }

  lemma AttributesHeld(s: State, client: Client, a: XID, attrs: AlarmAttributes, clock: map<XID, Int64>, c: XID)
    requires ListInv(s) && Unrestrained(s, c) && a in s.alarms && s.alarms[a].trigger.sync != c
    requires Get(attrs.counter, s.alarms[a].trigger.sync) != c
    ensures Held(s, ChangeAlarmAttributes(s, client, a, attrs, clock).1, c)
  {
    var al := if attrs.events.Some? then EventSelect(s.alarms[a], client, attrs.events.value == 1) else s.alarms[a];
    EventSelectTrigger(s.alarms[a], client, attrs.events);
    assert al.trigger == s.alarms[a].trigger;
    var syncObject := Get(attrs.counter, al.trigger.sync);
    var al1 := al.(delta := Get(attrs.delta, al.delta), trigger := WithAttributes(al.trigger, attrs));
    var s1 := SetAlarm(s, a, al1);
    hide EventSelect, InitTrigger, Held, CheckAttributes;
    LinkedLive(s, {}, c);
    SetAlarmListInv(s, a, al1);
    hide LinkedExcept;
    HeldItself(s, c);
    OtherAlarmHeld(s, SetAlarm(s, a, al), a, c);
    OtherAlarmHeld(s, s1, a, c);
    HeldLive(s, s1, c);
    InitHeld(s1, AlarmTrigger(a), syncObject, ChangesOf(attrs), clock, c);
    var s2 := InitTrigger(s1, AlarmTrigger(a), syncObject, ChangesOf(attrs), clock).1;
    HeldTransitive(s, s1, s2, c);
    HeldLive(s1, s2, c);
    HeldNew(s, s2, AlarmTrigger(a), c);
    var s3 := SetAlarm(s2, a, s2.alarms[a].(state := Active));
    OtherAlarmHeld(s2, s3, a, c);
    HeldTransitive(s, s2, s3, c);
  }

  lemma HeldNew(s: State, s': State, r: TriggerRef, c: XID)
    requires Held(s, s', c) && r !in s.counters[c].triglist
    ensures r !in s'.counters[c].triglist
  {
  }

  lemma ChangeAlarmHeld(s: State, client: Client, a: XID, attrs: AlarmAttributes, clock: map<XID, Int64>, c: XID)
    requires ListInv(s) && Unrestrained(s, c) && a in s.alarms && s.alarms[a].trigger.sync != c
    requires Get(attrs.counter, s.alarms[a].trigger.sync) != c
    ensures Held(s, ChangeAlarm(s, client, a, attrs, clock).1, c)
  {
    hide ChangeAlarmAttributes, Held, AlarmFired;
    var s1 := ChangeAlarmAttributes(s, client, a, attrs, clock).1;
    AttributesHeld(s, client, a, attrs, clock, c);
    LinkedLive(s, {}, c);
    hide ListInv;
    HeldLive(s, s1, c);
    HeldNew(s, s1, AlarmTrigger(a), c);
    AlarmFiredShape(s1, a);
    OtherAlarmHeld(s1, AlarmFired(s1, a), a, c);
    HeldTransitive(s, s1, AlarmFired(s1, a), c);
  }

  lemma CreateAlarmHeld(s: State, client: Client, a: XID, attrs: AlarmAttributes, clock: map<XID, Int64>, c: XID)
    requires ListInv(s) && Unrestrained(s, c) && !InUse(s, a) && Get(attrs.counter, NONE) != c
    ensures Held(s, CreateAlarm(s, client, a, attrs, clock).1, c)
  {
    hide ChangeAlarmAttributes, Held, AlarmFired, CreateFinished;
    LinkedLive(s, {}, c);
    ListedNotNone(s, c);
    var r := AlarmTrigger(a);
    var s0 := SetAlarm(s, a, NewAlarm(client));
    SetAlarmListInv(s, a, NewAlarm(client));
    hide ListInv;
    OtherAlarmHeld(s, s0, a, c);
    AttributesHeld(s0, client, a, attrs, clock, c);
    var s1 := ChangeAlarmAttributes(s0, client, a, attrs, clock).1;
    HeldTransitive(s, s0, s1, c);
    HeldLive(s, s1, c);
    HeldNew(s, s1, r, c);
    TakenBackHeld(s1, a, c);
    HeldTransitive(s, s1, s1.(alarms := s1.alarms - {a}), c);
    CreateFinishedShape(s1, a);
    OtherAlarmHeld(s1, CreateFinished(s1, a), a, c);
    HeldTransitive(s, s1, CreateFinished(s1, a), c);
  }

  lemma TakenBackHeld(s: State, a: XID, c: XID)
    requires Unrestrained(s, c) && LiveRefs(s, c) && AlarmTrigger(a) !in s.counters[c].triglist
    ensures Held(s, s.(alarms := s.alarms - {a}), c)
  {
    var s' := s.(alarms := s.alarms - {a});
    forall r | r in s.counters[c].triglist
      ensures Live(s', r) && Slot(s', r) == Slot(s, r) && (Armed(s', r) ==> Armed(s, r))
    {
    }
    HeldOther(s, s', c);
  }

  lemma CreateFinishedShape(s: State, a: XID)
    requires a in s.alarms
    ensures var s' := CreateFinished(s, a);
      a in s'.alarms && s'.counters == s.counters && s'.awaits == s.awaits && s'.alarms == s.alarms[a := s'.alarms[a]]
  {
    AlarmFiredShape(s, a);
    hide AlarmFired;
    assert s.alarms[a := s.alarms[a]] == s.alarms;
  }

  // ---------- Awaits elsewhere ----------

  ghost predicate Names(conds: seq<WaitCondition>, c: XID) {
    exists j :: 0 <= j < |conds| && conds[j].counter == c
  }

  lemma {:induction false} AddConditionsHeld(s: State, w: XID, conds: seq<WaitCondition>, clock: map<XID, Int64>, c: XID)
    requires Linked(s) && Settled(s) && w in s.awaits && FreshConditions(s.awaits[w], conds)
    requires Unrestrained(s, c) && !Names(conds, c) && c != NONE
    ensures Held(s, AddConditions(s, w, conds, clock).1, c)
    decreases |conds|
  {
    hide InitTrigger, FreeAwait, LinkedExcept, Held, FreshConditions, Unrestrained, Fresh;
    LinkedLive(s, {}, c) by { UnrestrainedIn(s, c); }
    if conds == [] {
      HeldItself(s, c);
    } else if conds[0].counter == NONE {
      assert OffUpTo(s, w, 0, {});
      FreeAwaitHeld(s, w, {}, c);
    } else {
      var t := Trigger(NONE, conds[0].valueType, conds[0].waitValue, conds[0].testType, PosComparison, 0);
      var cond := Condition(t, conds[0].threshold);
      var rc, s2 := AddConditionLinked(s, w, conds, cond, clock);
      assert conds[0].counter != c;
      ConditionHeld(s, w, cond, conds[0].counter, clock, c);
      HeldLive(s, s2, c);
      assert OffUpTo(s2, w, 0, {});
      if rc != Success {
        FreeAwaitHeld(s2, w, {}, c);
        HeldTransitive(s, s2, FreeAwait(s2, w), c);
      } else {
        assert !Names(conds[1..], c) by {
          assert forall j :: 0 <= j < |conds[1..]| ==> conds[1..][j] == conds[j + 1];
        }
        AddConditionsHeld(s2, w, conds[1..], clock, c);
        HeldTransitive(s, s2, AddConditions(s2, w, conds[1..], clock).1, c);
      }
    }
  }

  lemma UnrestrainedIn(s: State, c: XID)
    requires Unrestrained(s, c)
    ensures c in s.counters
  {
  }

  lemma ConditionHeld(s: State, w: XID, cond: Condition, syncObject: XID, clock: map<XID, Int64>, c: XID)
    requires Linked(s) && w in s.awaits && Unrestrained(s, c) && cond.trigger.sync == NONE && syncObject != c && c != NONE
    ensures var aw := s.awaits[w];
      var s1 := s.(awaits := s.awaits[w := aw.(conditions := aw.conditions + [cond])]);
      Held(s, InitTrigger(s1, AwaitTrigger(w, |aw.conditions|), syncObject, ALL_CHANGES, clock).1, c)
  {
    var aw := s.awaits[w];
    var s1 := s.(awaits := s.awaits[w := aw.(conditions := aw.conditions + [cond])]);
    hide InitTrigger, Held, LinkedExcept;
    LinkedLive(s, {}, c);
    AppendConditionLinked(s, w, cond);
    forall r | r in s.counters[c].triglist
      ensures Live(s1, r) && Slot(s1, r) == Slot(s, r) && (Armed(s1, r) ==> Armed(s, r))
    {
    }
    HeldOther(s, s1, c);
    InitHeld(s1, AwaitTrigger(w, |aw.conditions|), syncObject, ALL_CHANGES, clock, c);
    HeldTransitive(s, s1, InitTrigger(s1, AwaitTrigger(w, |aw.conditions|), syncObject, ALL_CHANGES, clock).1, c);
  }

  lemma {:induction false} EpilogueHeld(s: State, w: XID, i: nat, c: XID)
    requires ListInv(s) && w in s.awaits && Unrestrained(s, c)
    ensures Held(s, AwaitEpilogue(s, w, i), c)
    decreases |s.awaits[w].conditions| - i
  {
    hide ListInv, Held, AwaitFired;
    ListInvLinked(s);
    LinkedLive(s, {}, c) by { hide LinkedExcept; }
    hide LinkedExcept;
    HeldItself(s, c);
    SettledNotDying(s, w);
    AwaitFiredHeld(s, w, {}, c);
    if i < |s.awaits[w].conditions| { EpilogueHeld(s, w, i + 1, c); }
  }

  lemma SettledNotDying(s: State, w: XID)
    requires ListInv(s) && w in s.awaits
    ensures OffUpTo(s, w, 0, {})
  {
  }

  lemma AwaitRequestHeld(s: State, client: Client, w: XID, conds: seq<WaitCondition>, clock: map<XID, Int64>, c: XID)
    requires ListInv(s) && Unrestrained(s, c) && !Names(conds, c)
    requires forall i, j :: 0 <= i < j < |conds| ==> conds[i].counter != conds[j].counter
    ensures Held(s, AwaitRequest(s, client, w, conds, clock).1, c)
  {
    hide AddConditions, AwaitEpilogue, Held, FreshConditions;
    ListInvLinked(s);
    ListedNotNone(s, c);
    LinkedLive(s, {}, c);
    HeldItself(s, c);
    if conds != [] && !InUse(s, w) {
      var s0 := s.(awaits := s.awaits[w := Await(client, [])]);
      EmptyAwaitLinked(s, client, w, conds);
      hide LinkedExcept;
      forall r | r in s.counters[c].triglist
        ensures Live(s0, r) && Slot(s0, r) == Slot(s, r) && (Armed(s0, r) ==> Armed(s, r))
      {
      }
      HeldOther(s, s0, c);
      AddConditionsHeld(s0, w, conds, clock, c);
      var (rc, s1) := AddConditions(s0, w, conds, clock);
      HeldTransitive(s, s0, s1, c);
      HeldLive(s, s1, c);
      AddConditionsLinked(s0, w, conds, clock);
      if rc == Success {
        var s2 := Emit(s1, [IgnoreClient(client)]);
        EmitSameLinks(s1, [IgnoreClient(client)]);
        SameLinksLinked(s1, s2, {});
        OtherCounterHeld(s1, s2, c);
        HeldTransitive(s, s1, s2, c);
        AddedDistinct(s, s2, w);
        EpilogueHeld(s2, w, 0, c);
        HeldTransitive(s, s2, AwaitEpilogue(s2, w, 0), c);
      }
    }
  }

  lemma EmptyAwaitLinked(s: State, client: Client, w: XID, conds: seq<WaitCondition>)
    requires ListInv(s) && w !in s.awaits
    requires forall i, j :: 0 <= i < j < |conds| ==> conds[i].counter != conds[j].counter
    ensures var s0 := s.(awaits := s.awaits[w := Await(client, [])]);
      Linked(s0) && Settled(s0) && FreshConditions(s0.awaits[w], conds)
  {
    var s0 := s.(awaits := s.awaits[w := Await(client, [])]);
    assert forall q :: Live(s0, q) == Live(s, q);
    assert forall q :: Live(s, q) ==> Slot(s0, q) == Slot(s, q);
  }

  lemma AddedDistinct(s: State, s2: State, w: XID)
    requires ListInv(s) && Linked(s2) && Settled(s2)
    requires forall v :: v in s2.awaits && v != w ==> v in s.awaits && s2.awaits[v] == s.awaits[v]
    requires w in s2.awaits ==> FreshConditions(s2.awaits[w], [])
    ensures ListInv(s2)
  {
  }

  // ---------- All requests ----------

  /** The request asks the driver of the counter, gives it a value, destroys it, or is about a trigger that is on its
    list or is to be put there. */
  ghost predicate Touches(s: State, req: Request, c: XID) {
    match req
    case QueryCounter(id, _) => id == c
    case SystemUpdate(id, _) => id == c
    case SystemTick(id, _) => id == c
    case DestroySystemCounter(id) => id == c
    case CreateAlarmReq(_, _, attrs, _) => Get(attrs.counter, NONE) == c
    case ChangeAlarmReq(_, id, attrs, _) =>
      id in s.alarms && (s.alarms[id].trigger.sync == c || Get(attrs.counter, s.alarms[id].trigger.sync) == c)
    case AwaitReq(_, _, conds, _) => Names(conds, c)
    case _ => false
  }

  /** Any other request leaves of the counter what Held says. */
  lemma StepHeld(s: State, req: Request, c: XID)
    requires ListInv(s) && DistinctCounters(req) && Unrestrained(s, c) && !Touches(s, req, c)
    ensures Held(s, Step(s, req).1, c)
  {
    hide ChangeCounter, FreeCounter, AwaitRequest, CreateAlarm, ChangeAlarm, FreeAlarm, FreeAwait, ListInv, Held, Names;
    ListInvLinked(s);
    LinkedLive(s, {}, c);
    hide LinkedExcept;
    HeldItself(s, c);
    match req {
      case CreateCounter(id, v) =>
        if !InUse(s, id) { OtherCounterHeld(s, Step(s, req).1, c); }
      case SetCounterRequest(id, v) =>
        if id in s.counters && id != c { ChangeCounterHeld(s, id, v, c); }
      case ChangeCounterRequest(id, amount) =>
        if id in s.counters && id != c && CheckedAdd(amount, s.counters[id].value).Some? {
          ChangeCounterHeld(s, id, CheckedAdd(amount, s.counters[id].value).value, c);
        }
      case DestroyCounter(id) =>
        if id in s.counters && id != c { FreeCounterHeld(s, id, c); }
      case AwaitReq(client, id, conds, clock) => AwaitRequestHeld(s, client, id, conds, clock, c);
      case CreateAlarmReq(client, id, attrs, clock) =>
        if InUse(s, id) {
          assert CreateAlarm(s, client, id, attrs, clock).1 == s by { RefusedId(s, client, id, attrs, clock); }
        } else {
          CreateAlarmHeld(s, client, id, attrs, clock, c);
        }
      case ChangeAlarmReq(client, id, attrs, clock) =>
        if id in s.alarms {
          ChangeAlarmHeld(s, client, id, attrs, clock, c);
        } else {
          NoSuchAlarm(s, client, id, attrs, clock);
        }
      case DestroyAlarm(id) =>
        if id in s.alarms { FreeAlarmHeld(s, id, c); }
      case QueryCounter(id, clock) => OtherCounterHeld(s, QueryValue(s, id, clock), c);
      case FreeAwaitResource(id) =>
        if id in s.awaits {
          SettledNotDying(s, id);
          FreeAwaitHeld(s, id, {}, c);
        }
      case FreeAlarmClient(id, client) =>
        if id in s.alarms {
          HeldOther(s, Step(s, req).1, c);
        }
      case ClientGone(client) => OtherCounterHeld(s, Step(s, req).1, c);
      case CreateSystemCounter(id, v, ct) =>
        if !InUse(s, id) { OtherCounterHeld(s, Step(s, req).1, c); }
      case SystemTick(id, v) =>
        if id in s.counters { ChangeCounterHeld(s, id, v, c); }
      case SystemUpdate(id, v) => OtherCounterHeld(s, Step(s, req).1, c);
      case DestroySystemCounter(id) =>
        if id in s.counters { FreeCounterHeld(s, id, c); }
    }
  }

  lemma RefusedId(s: State, client: Client, a: XID, attrs: AlarmAttributes, clock: map<XID, Int64>)
    requires InUse(s, a)
    ensures CreateAlarm(s, client, a, attrs, clock) == (BadIDChoice, s)
  {
  }

  lemma NoSuchAlarm(s: State, client: Client, a: XID, attrs: AlarmAttributes, clock: map<XID, Int64>)
    requires a !in s.alarms
    ensures ChangeAlarm(s, client, a, attrs, clock) == (BadAlarm, s)
  {
  }

  // ---------- What that means for the brackets ----------

  /** No armed comparison on the counter holds. */
  ghost predicate Calm(s: State, c: XID)
    requires c in s.counters
  {
    forall r :: r in s.counters[c].triglist ==> Quiet(s, r)
  }

  /** A covered counter on which no comparison holds stays so. */
  lemma HeldCovered(s: State, s': State, c: XID)
    requires Coherent(s) && Held(s, s', c) && Covered(s, c, s.counters[c].sys.value) && Calm(s, c)
    requires forall r :: r in s.counters[c].triglist ==> Live(s, r) && Slot(s, r).sync == c
    ensures Covered(s', c, s'.counters[c].sys.value) && Calm(s', c)
  {
    hide BracketWalk, Bracketed, Guarded, CheckAt;
    var k := s'.counters[c];
    forall r | r in k.triglist && Armed(s', r)
      ensures Quiet(s', r) && Bracketed(k.sys.value, k.value, Slot(s', r))
    {
      assert Armed(s, r) && Quiet(s, r);
      var t := Slot(s, r);
      if Fresh(s', c) {
        CoherentSlot(s, r);
        BracketedExactly(s', k.triglist, k.value, t);
        if !IsComparison(t.check) { GuardedExactly(s', k.triglist, k.value, r); } else { QuietGuarded(s', k.triglist, k.value, r); }
      }
    }
  }

  /** Every request that does not touch the counter leaves it covered, and no comparison on it true, if it was so before. */
  lemma StepKeepsCovered(s: State, req: Request, c: XID)
    requires ListInv(s) && Coherent(s) && DistinctCounters(req) && Unrestrained(s, c) && !Touches(s, req, c)
    requires Covered(s, c, s.counters[c].sys.value) && Calm(s, c)
    ensures var s' := Step(s, req).1; Unrestrained(s', c) && Covered(s', c, s'.counters[c].sys.value) && Calm(s', c)
  {
    hide Step, ListInv, Coherent, Covered, Calm, Touches, Fresh;
    StepHeld(s, req, c);
    ListInvLinked(s);
    LinkedLive(s, {}, c);
    HeldCovered(s, Step(s, req).1, c);
  }
}
