/** Trigger lists and triggers agree: every live trigger with a counter is exactly once on that
  counter's list and on no other, and no list holds a trigger that is dead or points elsewhere.
  Every request keeps this, through re-targeting, firing and destruction.
 */
module SyncLinks {
  import opened SyncModel

  ghost predicate NoDup<T>(xs: seq<T>) {
    forall i, j :: 0 <= i < j < |xs| ==> xs[i] != xs[j]
  }

  /** The list invariant, apart from the triggers in `off`, which are on no list. */
  ghost predicate LinkedExcept(s: State, off: set<TriggerRef>) {
    && NONE !in s.counters
    && (forall c :: c in s.counters ==> NoDup(s.counters[c].triglist))
    && (forall c, r :: c in s.counters && r in s.counters[c].triglist ==> Live(s, r) && Slot(s, r).sync == c && r !in off)
    && (forall r :: Live(s, r) && r !in off && Slot(s, r).sync != NONE ==> OnItsList(s, r))
  }

  ghost predicate OnItsList(s: State, r: TriggerRef)
    requires Live(s, r)
  {
    var c := Slot(s, r).sync;
    c in s.counters && r in s.counters[c].triglist
  }

  ghost predicate Linked(s: State) {
    LinkedExcept(s, {})
  }

  /** The two states have the same triggers on the same counters and the same lists. */
  ghost predicate SameLinks(s: State, s': State) {
    && s.counters.Keys == s'.counters.Keys
    && (forall c :: c in s.counters ==> s'.counters[c].triglist == s.counters[c].triglist)
    && (forall r :: Live(s', r) == Live(s, r))
    && (forall r :: Live(s, r) ==> Slot(s', r).sync == Slot(s, r).sync)
  }

  lemma SameLinksLinked(s: State, s': State, off: set<TriggerRef>)
    requires LinkedExcept(s, off) && SameLinks(s, s')
    ensures LinkedExcept(s', off)
  {
  }

  lemma NoDupPush<T>(x: T, xs: seq<T>)
    requires NoDup(xs) && x !in xs
    ensures NoDup([x] + xs)
  {
  }

  lemma NoDupPop<T>(xs: seq<T>)
    requires xs != [] && NoDup(xs)
    ensures NoDup(xs[1..]) && xs[0] in xs
    ensures forall y :: y in xs[1..] <==> y in xs && y != xs[0]
  {
    assert xs == [xs[0]] + xs[1..];
  }

  lemma {:induction false} RemoveFirstMembers<T>(xs: seq<T>, x: T)
    requires NoDup(xs)
    ensures NoDup(RemoveFirst(xs, x))
    ensures forall y :: y in RemoveFirst(xs, x) <==> y in xs && y != x
  {
    if xs != [] {
      NoDupPop(xs);
      if xs[0] != x {
        var tail := xs[1..];
        RemoveFirstMembers(tail, x);
        var rest := RemoveFirst(tail, x);
        assert RemoveFirst(xs, x) == [xs[0]] + rest;
        hide NoDup, RemoveFirst;
        NoDupPush(xs[0], rest);
      }
    }
  }

  lemma ComputeBracketsSameLinks(s: State, c: XID)
    ensures SameLinks(s, ComputeBrackets(s, c))
    ensures ComputeBrackets(s, c).alarms == s.alarms && ComputeBrackets(s, c).awaits == s.awaits
  {
  }

  /** The list of `r`'s counter without `r`. */
  lemma PopTriggerLinked(s: State, r: TriggerRef, off: set<TriggerRef>)
    requires LinkedExcept(s, off) && Live(s, r) && r !in off && Slot(s, r).sync in s.counters
    ensures var c := Slot(s, r).sync; var k := s.counters[c];
      LinkedExcept(SetCounter(s, c, k.(triglist := RemoveFirst(k.triglist, r))), off + {r})
  {
    var c := Slot(s, r).sync;
    var k := s.counters[c];
    RemoveFirstMembers(k.triglist, r);
    hide RemoveFirst, NoDup;
    var s1 := SetCounter(s, c, k.(triglist := RemoveFirst(k.triglist, r)));
    assert forall q :: Live(s1, q) == Live(s, q);
    assert forall q :: Live(s, q) ==> Slot(s1, q) == Slot(s, q);
    assert forall d :: d in s.counters && d != c ==> s1.counters[d] == s.counters[d];
    hide Live, Slot;
    forall q | Live(s1, q) && q !in off + {r} && Slot(s1, q).sync != NONE
      ensures OnItsList(s1, q)
    {
      assert OnItsList(s, q);
    }
  }

  lemma DeleteTriggerLinked(s: State, r: TriggerRef, off: set<TriggerRef>)
    requires LinkedExcept(s, off) && Live(s, r) && r !in off
    ensures LinkedExcept(DeleteTrigger(s, r), off + {r})
    ensures DeleteTrigger(s, r).alarms == s.alarms && DeleteTrigger(s, r).awaits == s.awaits
  {
    var c := Slot(s, r).sync;
    if c in s.counters {
      hide LinkedExcept, ComputeBrackets, RemoveFirst;
      var k := s.counters[c];
      var s1 := SetCounter(s, c, k.(triglist := RemoveFirst(k.triglist, r)));
      PopTriggerLinked(s, r, off);
      ComputeBracketsSameLinks(s1, c);
      SameLinksLinked(s1, ComputeBrackets(s1, c), off + {r});
    }
  }

  lemma SetSlotFrame(s: State, r: TriggerRef, t: Trigger)
    requires Live(s, r)
    ensures SetSlot(s, r, t).counters == s.counters
    ensures forall q :: Live(SetSlot(s, r, t), q) == Live(s, q)
    ensures forall q :: Live(s, q) ==> Slot(SetSlot(s, r, t), q) == if q == r then t else Slot(s, q)
  {
  }

  lemma PushTriggerLinked(s: State, r: TriggerRef, off: set<TriggerRef>)
    requires LinkedExcept(s, off + {r}) && Live(s, r) && r !in off
    requires Slot(s, r).sync in s.counters
    ensures var c := Slot(s, r).sync; var k := s.counters[c];
      LinkedExcept(SetCounter(s, c, k.(triglist := [r] + k.triglist)), off)
  {
    var c := Slot(s, r).sync;
    var k := s.counters[c];
    var s2 := SetCounter(s, c, k.(triglist := [r] + k.triglist));
    assert forall q :: Live(s2, q) == Live(s, q);
    assert forall q :: Live(s, q) ==> Slot(s2, q) == Slot(s, q);
    assert forall d :: d in s.counters && d != c ==> s2.counters[d] == s.counters[d];
    assert r !in k.triglist;
    assert NoDup(s2.counters[c].triglist);
  }

  /** Give the off-list trigger `r` a new counter and put it on that counter's list. */
  lemma AddTriggerLinked(s: State, r: TriggerRef, pSync: XID, off: set<TriggerRef>)
    requires LinkedExcept(s, off + {r}) && Live(s, r) && r !in off
    requires pSync == NONE || pSync in s.counters
    ensures var s1 := SetSlot(s, r, Slot(s, r).(sync := pSync)); LinkedExcept(AddTrigger(s1, r), off)
  {
    var t := Slot(s, r).(sync := pSync);
    var s1 := SetSlot(s, r, t);
    SetSlotFrame(s, r, t);
    assert LinkedExcept(s1, off + {r});
    if pSync in s.counters {
      PushTriggerLinked(s1, r, off);
      var k := s.counters[pSync];
      assert r !in k.triglist;
      var s2 := SetCounter(s1, pSync, k.(triglist := [r] + k.triglist));
      ComputeBracketsSameLinks(s2, pSync);
      SameLinksLinked(s2, ComputeBrackets(s2, pSync), off);
    }
  }

  // ---------- Operations on one trigger ----------

  /** Values, destruction flags and kinds of counters are the same; lists and brackets may differ. */
  ghost predicate CounterFrame(s: State, s': State) {
    && s'.counters.Keys == s.counters.Keys
    && forall c :: c in s.counters ==>
      && s'.counters[c].value == s.counters[c].value
      && s'.counters[c].beingDestroyed == s.counters[c].beingDestroyed
      && s'.counters[c].sys.Some? == s.counters[c].sys.Some?
  }

  lemma DeleteTriggerFrame(s: State, r: TriggerRef)
    requires Live(s, r)
    ensures CounterFrame(s, DeleteTrigger(s, r))
    ensures DeleteTrigger(s, r).alarms == s.alarms && DeleteTrigger(s, r).awaits == s.awaits
    ensures DeleteTrigger(s, r).out == s.out && DeleteTrigger(s, r).gone == s.gone
    ensures forall d :: d in s.counters && d != Slot(s, r).sync ==> DeleteTrigger(s, r).counters[d] == s.counters[d]
    ensures forall d :: d in s.counters ==>
      (DeleteTrigger(s, r).counters[d].triglist
       == if d == Slot(s, r).sync then RemoveFirst(s.counters[d].triglist, r) else s.counters[d].triglist)
  {
  }

  /** A trigger that is on its list already is not added again. */
  lemma AddedOnce(s: State, r: TriggerRef)
    requires Live(s, r)
    ensures Live(AddTrigger(s, r), r) && AddTrigger(AddTrigger(s, r), r) == AddTrigger(s, r)
    ensures Slot(s, r).sync in s.counters && r in s.counters[Slot(s, r).sync].triglist ==> AddTrigger(s, r) == s
  {
    AddTriggerFrame(s, r);
    var c := Slot(s, r).sync;
    if c in s.counters && r !in s.counters[c].triglist {
      var s1 := SetCounter(s, c, s.counters[c].(triglist := [r] + s.counters[c].triglist));
      ComputeBracketsSameLinks(s1, c);
      assert ([r] + s.counters[c].triglist)[0] == r;
    }
    hide ComputeBrackets, SameLinks;
  }

  lemma AddTriggerFrame(s: State, r: TriggerRef)
    requires Live(s, r)
    ensures CounterFrame(s, AddTrigger(s, r))
    ensures AddTrigger(s, r).alarms == s.alarms && AddTrigger(s, r).awaits == s.awaits
    ensures AddTrigger(s, r).out == s.out && AddTrigger(s, r).gone == s.gone
  {
  }

  lemma RelinkLinked(s: State, r: TriggerRef, pSync: XID)
    requires Linked(s) && Live(s, r)
    requires pSync == NONE || pSync in s.counters
    ensures Linked(Relink(s, r, pSync))
  {
    if pSync != Slot(s, r).sync {
      DeleteTriggerLinked(s, r, {});
      assert {} + {r} == {r};
      AddTriggerLinked(DeleteTrigger(s, r), r, pSync, {});
    } else {
      ComputeBracketsSameLinks(s, pSync);
      SameLinksLinked(s, ComputeBrackets(s, pSync), {});
    }
  }

  lemma RelinkFrame(s: State, r: TriggerRef, pSync: XID)
    requires Live(s, r)
    ensures CounterFrame(s, Relink(s, r, pSync))
    ensures var s1 := SetSlot(s, r, Slot(s, r).(sync := pSync));
      && Relink(s, r, pSync).alarms == s1.alarms && Relink(s, r, pSync).awaits == s1.awaits
      && Relink(s, r, pSync).out == s.out && Relink(s, r, pSync).gone == s.gone
  {
    if pSync != Slot(s, r).sync {
      DeleteTriggerFrame(s, r);
      AddTriggerFrame(SetSlot(DeleteTrigger(s, r), r, Slot(s, r).(sync := pSync)), r);
    } else {
      SetSlotSame(s, r);
    }
  }

  lemma SetSlotSame(s: State, r: TriggerRef)
    requires Live(s, r)
    ensures SetSlot(s, r, Slot(s, r)) == s
  {
    match r
    case AlarmTrigger(a) =>
      assert s.alarms[a := s.alarms[a]] == s.alarms;
    case AwaitTrigger(w, i) =>
      var aw := s.awaits[w];
      assert aw.conditions[i := aw.conditions[i]] == aw.conditions;
      assert s.awaits[w := aw] == s.awaits;
  }

  /** InitChecks stores one trigger, after asking at most one system counter for its value. */
  lemma InitChecksShape(s: State, r: TriggerRef, syncObject: XID, ch: Changes, clock: map<XID, Int64>)
    returns (s1: State, t: Trigger)
    requires Live(s, r)
    ensures s1 == s || s1 == QueryValue(s, if ch.counter then syncObject else Slot(s, r).sync, clock)
    ensures InitChecks(s, r, syncObject, ch, clock).1 == SetSlot(s1, r, t)
    ensures t == Slot(s, r).(testValue := t.testValue, check := t.check)
    ensures var rc := InitChecks(s, r, syncObject, ch, clock).0;
      rc == Success ==>
        && s1 == QueryValue(s, if ch.counter then syncObject else Slot(s, r).sync, clock)
        && (ch.counter ==> syncObject == NONE || syncObject in s.counters)
        && (if ch.testType then CheckFnOf(t.testType) == Some(t.check) else t.check == Slot(s, r).check)
        && TestValue(s1, Slot(s, r), if ch.counter then syncObject else Slot(s, r).sync, ch) == (Success, t.testValue)
  {
    var t0 := Slot(s, r);
    t := t0;
    SetSlotSame(s, r);
    if ch.counter && syncObject != NONE && syncObject !in s.counters {
      s1 := s;
    } else {
      var pSync := if ch.counter then syncObject else t0.sync;
      s1 := QueryValue(s, pSync, clock);
      SetSlotSame(s1, r);
      hide SetSlot, QueryValue;
      if !(ch.valueType && t.valueType != RELATIVE && t.valueType != ABSOLUTE) {
        var (rc, test) := TestValue(s1, t0, pSync, ch);
        if rc == Success {
          t := t.(testValue := test);
          if ch.testType && CheckFnOf(t.testType).Some? {
            t := t.(check := CheckFnOf(t.testType).value);
          }
        }
      }
    }
  }

  lemma QueryValueSameLinks(s: State, c: XID, clock: map<XID, Int64>)
    ensures SameLinks(s, QueryValue(s, c, clock))
  {
  }

  lemma InitChecksSameLinks(s: State, r: TriggerRef, syncObject: XID, ch: Changes, clock: map<XID, Int64>)
    requires Live(s, r)
    ensures SameLinks(s, InitChecks(s, r, syncObject, ch, clock).1)
  {
    hide InitChecks, QueryValue, TestValue;
    var s1, t := InitChecksShape(s, r, syncObject, ch, clock);
    QueryValueSameLinks(s, if ch.counter then syncObject else Slot(s, r).sync, clock);
    SetSlotFrame(s1, r, t);
    hide SetSlot;
  }

  lemma InitTriggerLinked(s: State, r: TriggerRef, syncObject: XID, ch: Changes, clock: map<XID, Int64>)
    requires Linked(s) && Live(s, r)
    ensures Linked(InitTrigger(s, r, syncObject, ch, clock).1)
  {
    InitChecksSameLinks(s, r, syncObject, ch, clock);
    var (rc, s1) := InitChecks(s, r, syncObject, ch, clock);
    SameLinksLinked(s, s1, {});
    if rc == Success {
      var pSync := if ch.counter then syncObject else Slot(s, r).sync;
      assert pSync == NONE || pSync in s1.counters by {
        if !ch.counter && Slot(s, r).sync != NONE { assert OnItsList(s, r); }
      }
      hide InitChecks, Relink;
      RelinkLinked(s1, r, pSync);
    }
  }

  // ---------- Firing and freeing awaits ----------

  ghost predicate DistinctConditions(aw: Await) {
    forall i, j :: 0 <= i < j < |aw.conditions| ==> aw.conditions[i].trigger.sync != aw.conditions[j].trigger.sync
  }

  ghost function AwaitRefs(s: State, w: XID): set<TriggerRef>
    requires w in s.awaits
  {
    set i | 0 <= i < |s.awaits[w].conditions| :: AwaitTrigger(w, i)
  }

  /** The triggers of `w` that are off every list when FreeAwait comes to condition `i`. */
  ghost predicate OffUpTo(s: State, w: XID, i: nat, off: set<TriggerRef>)
    requires w in s.awaits
  {
    && off <= AwaitRefs(s, w)
    && forall j :: 0 <= j < |s.awaits[w].conditions| ==>
      (AwaitTrigger(w, j) in off <==> j < i || BeingDestroyed(s, s.awaits[w].conditions[j].trigger.sync))
  }

  lemma {:induction false} UnlinkFromLinked(s: State, w: XID, i: nat, off: set<TriggerRef>)
    requires w in s.awaits && LinkedExcept(s, off) && OffUpTo(s, w, i, off)
    ensures var s' := UnlinkFrom(s, w, i);
      && LinkedExcept(s', AwaitRefs(s, w))
      && CounterFrame(s, s') && s'.alarms == s.alarms && s'.awaits == s.awaits && s'.out == s.out && s'.gone == s.gone
      && (forall d :: BeingDestroyed(s, d) ==> s'.counters[d] == s.counters[d])
    decreases |s.awaits[w].conditions| - i
  {
    hide DeleteTrigger, LinkedExcept;
    if i >= |s.awaits[w].conditions| {
      assert off == AwaitRefs(s, w);
    } else {
      var r := AwaitTrigger(w, i);
      var c := Slot(s, r).sync;
      var s1 := if BeingDestroyed(s, c) then s else DeleteTrigger(s, r);
      var off1 := off + {r};
      if BeingDestroyed(s, c) {
        assert off1 == off;
      } else {
        DeleteTriggerLinked(s, r, off);
        DeleteTriggerFrame(s, r);
      }
      assert r in AwaitRefs(s, w);
      assert OffUpTo(s1, w, i + 1, off1);
      UnlinkFromLinked(s1, w, i + 1, off1);
    }
  }

  lemma FreeAwaitLinked(s: State, w: XID, off: set<TriggerRef>)
    requires w in s.awaits && LinkedExcept(s, off) && OffUpTo(s, w, 0, off)
    ensures var s' := FreeAwait(s, w);
      && Linked(s') && CounterFrame(s, s')
      && s'.alarms == s.alarms && s'.awaits == s.awaits - {w} && s'.out == s.out && s'.gone == s.gone
      && (forall d :: BeingDestroyed(s, d) ==> s'.counters[d] == s.counters[d])
  {
    hide UnlinkFrom;
    UnlinkFromLinked(s, w, 0, off);
    RemoveAwaitLinked(UnlinkFrom(s, w, 0), w);
    hide LinkedExcept;
  }

  /** An Await whose triggers are off all lists can go. */
  lemma RemoveAwaitLinked(s: State, w: XID)
    requires w in s.awaits && LinkedExcept(s, AwaitRefs(s, w))
    ensures Linked(s.(awaits := s.awaits - {w}))
  {
    var s' := s.(awaits := s.awaits - {w});
    forall r | Live(s', r)
      ensures Live(s, r) && Slot(s', r) == Slot(s, r) && r !in AwaitRefs(s, w)
    {
    }
    forall r | Live(s, r) && r !in AwaitRefs(s, w)
      ensures Live(s', r)
    {
    }
  }

  ghost predicate Settled(s: State) {
    forall c :: c in s.counters ==> !s.counters[c].beingDestroyed
  }

  lemma EmitSameLinks(s: State, o: seq<Output>)
    ensures SameLinks(s, Emit(s, o))
  {
  }

  lemma AwaitFiredLinked(s: State, w: XID, off: set<TriggerRef>)
    requires w in s.awaits && LinkedExcept(s, off) && OffUpTo(s, w, 0, off)
    ensures var s' := AwaitFired(s, w);
      && Linked(s') && CounterFrame(s, s')
      && s'.alarms == s.alarms && s'.awaits == s.awaits - {w} && s'.gone == s.gone
      && s'.out == s.out + AwaitEvents(s, w)
      && (forall d :: BeingDestroyed(s, d) ==> s'.counters[d] == s.counters[d])
  {
    var s1 := Emit(s, AwaitEvents(s, w));
    EmitSameLinks(s, AwaitEvents(s, w));
    SameLinksLinked(s, s1, off);
    hide FreeAwait, LinkedExcept;
    FreeAwaitLinked(s1, w, off);
  }

  /** What firing triggers can change: lists and brackets, alarm states and test values,
    and awaits can disappear. */
  ghost predicate FireFrame(s: State, s': State) {
    && CounterFrame(s, s')
    && s'.gone == s.gone
    && (forall w :: w in s'.awaits ==> w in s.awaits && s'.awaits[w] == s.awaits[w])
    && s'.alarms.Keys == s.alarms.Keys
    && forall a :: a in s.alarms ==> AlarmFrame(s.alarms[a], s'.alarms[a])
  }

  ghost predicate AlarmFrame(al: Alarm, al': Alarm) {
    al' == al.(state := al'.state, trigger := al.trigger.(testValue := al'.trigger.testValue))
  }

  /** A firing alarm keeps its counter, and nothing else changes but the output. */
  lemma AlarmFiredShape(s: State, a: XID)
    requires a in s.alarms
    ensures var s' := AlarmFired(s, a);
      && s'.counters == s.counters && s'.awaits == s.awaits && s'.gone == s.gone && a in s'.alarms
      && s'.alarms == s.alarms[a := s'.alarms[a]] && AlarmFrame(s.alarms[a], s'.alarms[a])
  {
    hide Rearm, AlarmEvents;
  }

  lemma AlarmFiredFrame(s: State, a: XID)
    requires a in s.alarms
    ensures FireFrame(s, AlarmFired(s, a)) && SameLinks(s, AlarmFired(s, a))
    ensures AlarmFired(s, a).awaits == s.awaits
    ensures forall b :: b in s.alarms && b != a ==> AlarmFired(s, a).alarms[b] == s.alarms[b]
  {
    AlarmFiredShape(s, a);
    hide AlarmFired;
  }

  lemma FireTriggerLinked(s: State, r: TriggerRef)
    requires Linked(s) && Settled(s) && Live(s, r)
    ensures Linked(FireTrigger(s, r)) && FireFrame(s, FireTrigger(s, r))
  {
    match r
    case AlarmTrigger(a) =>
      AlarmFiredFrame(s, a);
      SameLinksLinked(s, AlarmFired(s, a), {});
    case AwaitTrigger(w, _) =>
      assert OffUpTo(s, w, 0, {});
      hide AwaitFired;
      AwaitFiredLinked(s, w, {});
  }

  lemma FireFrameTransitive(s: State, s1: State, s2: State)
    requires FireFrame(s, s1) && FireFrame(s1, s2)
    ensures FireFrame(s, s2)
  {
  }

  lemma {:induction false} TriggerWalkLinked(s: State, refs: seq<TriggerRef>, oldval: Int64)
    requires Linked(s) && Settled(s)
    ensures Linked(TriggerWalk(s, refs, oldval)) && FireFrame(s, TriggerWalk(s, refs, oldval))
    decreases |refs|
  {
    if refs != [] {
      hide FireTrigger, LinkedExcept;
      var fires := Live(s, refs[0]) && Check(s, Slot(s, refs[0]), oldval);
      if fires { FireTriggerLinked(s, refs[0]); }
      var s1 := if fires then FireTrigger(s, refs[0]) else s;
      assert FireFrame(s, s1);
      assert Settled(s1);
      TriggerWalkLinked(s1, refs[1..], oldval);
      FireFrameTransitive(s, s1, TriggerWalk(s1, refs[1..], oldval));
    }
  }

  lemma UpdateCounterSameLinks(s: State, c: XID, v: Int64)
    requires c in s.counters
    ensures SameLinks(s, UpdateCounter(s, c, v))
  {
  }

  lemma ComputeBracketsFrame(s: State, c: XID)
    ensures FireFrame(s, ComputeBrackets(s, c))
    ensures ComputeBrackets(s, c).out == s.out
    ensures forall d :: d in s.counters && d != c ==> ComputeBrackets(s, c).counters[d] == s.counters[d]
  {
  }

  lemma ChangeCounterLinked(s: State, c: XID, v: Int64)
    requires Linked(s) && Settled(s) && c in s.counters
    ensures Linked(ChangeCounter(s, c, v)) && FireFrame(UpdateCounter(s, c, v), ChangeCounter(s, c, v))
  {
    hide TriggerWalk, LinkedExcept, FireFrame, ComputeBrackets;
    var s1 := UpdateCounter(s, c, v);
    UpdateCounterSameLinks(s, c, v);
    SameLinksLinked(s, s1, {});
    TriggerWalkLinked(s1, s.counters[c].triglist, s.counters[c].value);
    var s2 := TriggerWalk(s1, s.counters[c].triglist, s.counters[c].value);
    ComputeBracketsSameLinks(s2, c);
    ComputeBracketsFrame(s2, c);
    SameLinksLinked(s2, ComputeBrackets(s2, c), {});
    FireFrameTransitive(s1, s2, ComputeBrackets(s2, c));
  }

  // ---------- Destroying a counter ----------

  ghost predicate OnlyDying(s: State, c: XID) {
    forall d :: d in s.counters ==> (s.counters[d].beingDestroyed <==> d == c)
  }

  ghost predicate AwaitsDistinct(s: State) {
    forall w :: w in s.awaits ==> DistinctConditions(s.awaits[w])
  }

  /** What destroying a counter can change in alarms. */
  ghost predicate DestroyFrame(s: State, s': State, c: XID) {
    && CounterFrame(s, s')
    && s'.gone == s.gone
    && (forall w :: w in s'.awaits ==> w in s.awaits && s'.awaits[w] == s.awaits[w])
    && s'.alarms.Keys == s.alarms.Keys
    && forall a :: a in s.alarms ==>
      s'.alarms[a] == s.alarms[a] ||
      (s.alarms[a].trigger.sync == c
       && s'.alarms[a] == s.alarms[a].(state := Inactive, trigger := s.alarms[a].trigger.(sync := NONE)))
  }

  lemma SetCounterFrame(s: State, c: XID, k: Counter)
    ensures forall q :: Live(SetCounter(s, c, k), q) == Live(s, q)
    ensures forall q :: Live(s, q) ==> Slot(SetCounter(s, c, k), q) == Slot(s, q)
  {
  }

  /** Taking the head off the dying counter's list leaves exactly that trigger off. */
  lemma PopLinked(s: State, c: XID)
    requires Linked(s) && c in s.counters && s.counters[c].triglist != []
    ensures var refs := s.counters[c].triglist;
      var s1 := SetCounter(s, c, s.counters[c].(triglist := refs[1..]));
      LinkedExcept(s1, {refs[0]}) && CounterFrame(s, s1) && Live(s1, refs[0]) && Slot(s1, refs[0]).sync == c
  {
    var refs := s.counters[c].triglist;
    var s1 := SetCounter(s, c, s.counters[c].(triglist := refs[1..]));
    NoDupPop(refs);
    SetCounterFrame(s, c, s.counters[c].(triglist := refs[1..]));
    hide Live, Slot;
    assert forall d :: d in s.counters && d != c ==> s1.counters[d] == s.counters[d];
  }

  lemma AlarmCounterDestroyedLinked(s: State, a: XID, c: XID)
    requires a in s.alarms && LinkedExcept(s, {AlarmTrigger(a)}) && s.alarms[a].trigger.sync == c
    ensures var s' := AlarmCounterDestroyed(s, a);
      Linked(s') && DestroyFrame(s, s', c) && s'.counters == s.counters
  {
    var s' := AlarmCounterDestroyed(s, a);
    assert forall q :: Live(s', q) == Live(s, q);
    assert forall q :: Live(s, q) && q != AlarmTrigger(a) ==> Slot(s', q) == Slot(s, q);
    assert Slot(s', AlarmTrigger(a)).sync == NONE;
  }

  lemma AwaitDestroyedLinked(s: State, w: XID, i: nat, c: XID)
    requires Live(s, AwaitTrigger(w, i)) && LinkedExcept(s, {AwaitTrigger(w, i)})
    requires Slot(s, AwaitTrigger(w, i)).sync == c && c in s.counters
    requires OnlyDying(s, c) && DistinctConditions(s.awaits[w])
    ensures var s' := AwaitFired(s, w);
      Linked(s') && DestroyFrame(s, s', c) && s'.counters[c] == s.counters[c]
  {
    assert OffUpTo(s, w, 0, {AwaitTrigger(w, i)});
    hide AwaitFired, LinkedExcept;
    AwaitFiredLinked(s, w, {AwaitTrigger(w, i)});
  }

  lemma DestroyFrameTransitive(s: State, s1: State, s2: State, c: XID)
    requires DestroyFrame(s, s1, c) && DestroyFrame(s1, s2, c) && c != NONE
    ensures DestroyFrame(s, s2, c)
  {
  }

  lemma {:induction false} DestroyWalkLinked(s: State, c: XID, refs: seq<TriggerRef>)
    requires Linked(s) && AwaitsDistinct(s) && c in s.counters
    requires OnlyDying(s, c) && s.counters[c].triglist == refs
    ensures var s' := DestroyWalk(s, c, refs);
      && Linked(s') && DestroyFrame(s, s', c) && c in s'.counters && s'.counters[c].triglist == []
    decreases |refs|
  {
    if refs != [] {
      var r := refs[0];
      var s1 := SetCounter(s, c, s.counters[c].(triglist := refs[1..]));
      PopLinked(s, c);
      assert c != NONE;
      hide LinkedExcept, AwaitFired, AlarmCounterDestroyed;
      match r {
        case AlarmTrigger(a) => AlarmCounterDestroyedLinked(s1, a, c);
        case AwaitTrigger(w, i) => AwaitDestroyedLinked(s1, w, i, c);
      }
      var s2 := TriggerDestroyed(s1, r);
      assert DestroyFrame(s, s1, c);
      DestroyFrameTransitive(s, s1, s2, c);
      DestroyWalkLinked(s2, c, refs[1..]);
      DestroyFrameTransitive(s, s2, DestroyWalk(s2, c, refs[1..]), c);
    }
  }

  lemma RemoveCounterLinked(s: State, c: XID)
    requires Linked(s) && c in s.counters && s.counters[c].triglist == []
    ensures Linked(s.(counters := s.counters - {c}))
  {
    var s' := s.(counters := s.counters - {c});
    assert forall q :: Live(s', q) == Live(s, q);
    assert forall q :: Live(s, q) ==> Slot(s', q) == Slot(s, q);
    forall r | Live(s', r) && Slot(s', r).sync != NONE
      ensures OnItsList(s', r)
    {
      assert OnItsList(s, r);
    }
  }

  lemma DyingSameLinks(s: State, c: XID)
    requires c in s.counters
    ensures SameLinks(s, SetCounter(s, c, s.counters[c].(beingDestroyed := true)))
  {
  }

  lemma FreeCounterLinked(s: State, c: XID)
    requires Linked(s) && Settled(s) && AwaitsDistinct(s) && c in s.counters
    ensures Linked(FreeCounter(s, c)) && Settled(FreeCounter(s, c)) && AwaitsDistinct(FreeCounter(s, c))
  {
    hide DestroyWalk, LinkedExcept, SameLinks;
    var k := s.counters[c];
    var s0 := SetCounter(s, c, k.(beingDestroyed := true));
    DyingSameLinks(s, c);
    SameLinksLinked(s, s0, {});
    DestroyWalkLinked(s0, c, k.triglist);
    RemoveCounterLinked(DestroyWalk(s0, c, k.triglist), c);
  }

  // ---------- Requests ----------

  /** Destruction flags and kinds are the same, and so are the values of client-created counters. */
  ghost predicate QueryFrame(s: State, s': State) {
    && s'.counters.Keys == s.counters.Keys
    && forall c :: c in s.counters ==>
      && s'.counters[c].beingDestroyed == s.counters[c].beingDestroyed
      && s'.counters[c].sys.Some? == s.counters[c].sys.Some?
      && (s.counters[c].sys.None? ==> s'.counters[c].value == s.counters[c].value)
  }

  lemma SetSlotTwice(s: State, r: TriggerRef, t: Trigger, t': Trigger)
    requires Live(s, r)
    ensures SetSlot(SetSlot(s, r, t), r, t') == SetSlot(s, r, t')
  {
    match r
    case AlarmTrigger(a) =>
      assert s.alarms[a := s.alarms[a].(trigger := t)][a := s.alarms[a].(trigger := t')]
          == s.alarms[a := s.alarms[a].(trigger := t')];
    case AwaitTrigger(w, i) =>
      var aw := s.awaits[w];
      assert aw.conditions[i := aw.conditions[i].(trigger := t)][i := aw.conditions[i].(trigger := t')]
          == aw.conditions[i := aw.conditions[i].(trigger := t')];
      var aw1 := aw.(conditions := aw.conditions[i := aw.conditions[i].(trigger := t)]);
      var aw2 := aw.(conditions := aw.conditions[i := aw.conditions[i].(trigger := t')]);
      assert s.awaits[w := aw1][w := aw2] == s.awaits[w := aw2];
  }

  /** SyncInitTrigger touches one trigger, trigger lists, brackets and at most one system
    counter's value. `t` is the trigger it leaves behind. */
  lemma InitTriggerShape(s: State, r: TriggerRef, syncObject: XID, ch: Changes, clock: map<XID, Int64>)
    returns (t: Trigger)
    requires Live(s, r)
    ensures var (rc, s') := InitTrigger(s, r, syncObject, ch, clock);
      && s'.alarms == SetSlot(s, r, t).alarms && s'.awaits == SetSlot(s, r, t).awaits
      && s'.out == s.out && s'.gone == s.gone && QueryFrame(s, s')
      && t == Slot(s, r).(testValue := t.testValue, check := t.check, sync := t.sync)
      && (rc != Success ==> t.sync == Slot(s, r).sync)
      && (rc == Success ==>
          && t.sync == (if ch.counter then syncObject else Slot(s, r).sync)
          && (ch.counter ==> syncObject == NONE || syncObject in s.counters)
          && (if ch.testType then CheckFnOf(t.testType) == Some(t.check) else t.check == Slot(s, r).check))
  {
    var pSync := if ch.counter then syncObject else Slot(s, r).sync;
    var (rc, s2) := InitChecks(s, r, syncObject, ch, clock);
    var s1, t1 := InitChecksShape(s, r, syncObject, ch, clock);
    QueryValueFrame(s, pSync, clock);
    hide InitChecks, QueryValue, QueryFrame, CounterFrame, Relink;
    SetSlotFrame(s1, r, t1);
    SetSlotParts(s, s1, r, t1);
    SetSlotParts(s, s2, r, t1.(sync := pSync));
    hide SetSlot;
    QueryFrameTransitive(s, s1, s2);
    if rc == Success {
      t := t1.(sync := pSync);
      RelinkFrame(s2, r, pSync);
      SetSlotTwice(s1, r, t1, t);
      SetSlotParts(s, s1, r, t);
      QueryFrameTransitive(s, s2, Relink(s2, r, pSync));
    } else {
      t := t1;
    }
  }

  /** The test value that a refusal of SyncInitTrigger leaves in the trigger: the new one if the refusal came after it
    was worked out. */
  function RefusedTest(s: State, t: Trigger, syncObject: XID, ch: Changes, clock: map<XID, Int64>): Int64 {
    var pSync := if ch.counter then syncObject else t.sync;
    if ch.counter && syncObject != NONE && syncObject !in s.counters then t.testValue
    else if ch.valueType && t.valueType != RELATIVE && t.valueType != ABSOLUTE then t.testValue
    else TestValue(QueryValue(s, pSync, clock), t, pSync, ch).1
  }

  /** A refusal stores the driver's answer and perhaps a test value, and touches no list and no brackets. */
  lemma RefusedInit(s: State, r: TriggerRef, syncObject: XID, ch: Changes, clock: map<XID, Int64>)
    requires Live(s, r) && InitTrigger(s, r, syncObject, ch, clock).0 != Success
    ensures var pSync := if ch.counter then syncObject else Slot(s, r).sync;
      var s1 := QueryValue(s, pSync, clock);
      && Live(s1, r)
      && InitTrigger(s, r, syncObject, ch, clock).1
        == SetSlot(s1, r, Slot(s, r).(testValue := RefusedTest(s, Slot(s, r), syncObject, ch, clock)))
  {
    hide SetSlot, Relink, Slot, Live, QueryValue;
    var pSync := if ch.counter then syncObject else Slot(s, r).sync;
    QuerySlot(s, pSync, clock, r);
    NoSuchCounter(s, syncObject, clock);
    SetSlotSame(s, r);
    SetSlotSame(QueryValue(s, pSync, clock), r);
  }

  lemma QuerySlot(s: State, c: XID, clock: map<XID, Int64>, r: TriggerRef)
    requires Live(s, r)
    ensures Live(QueryValue(s, c, clock), r) && Slot(QueryValue(s, c, clock), r) == Slot(s, r)
  {
  }

  lemma NoSuchCounter(s: State, c: XID, clock: map<XID, Int64>)
    ensures c !in s.counters ==> QueryValue(s, c, clock) == s
  {
  }

  /** A refusal of SyncInitTrigger leaves the trigger's check function, and with a test-type that exists all of it. */
  lemma RefusedTrigger(s: State, r: TriggerRef, syncObject: XID, ch: Changes, clock: map<XID, Int64>)
    returns (test: Int64)
    requires Live(s, r) && InitTrigger(s, r, syncObject, ch, clock).0 != Success
    ensures var s' := InitTrigger(s, r, syncObject, ch, clock).1;
      && s'.alarms == SetSlot(s, r, Slot(s, r).(testValue := test)).alarms
      && s'.awaits == SetSlot(s, r, Slot(s, r).(testValue := test)).awaits
      && QueryFrame(s, s')
    ensures CheckFnOf(Slot(s, r).testType).Some? ==> test == Slot(s, r).testValue
    ensures test == RefusedTest(s, Slot(s, r), syncObject, ch, clock)
  {
    hide InitTrigger, QueryValue, SetSlot, RefusedTest, QueryFrame;
    var pSync := if ch.counter then syncObject else Slot(s, r).sync;
    var s1 := QueryValue(s, pSync, clock);
    test := RefusedTest(s, Slot(s, r), syncObject, ch, clock);
    RefusedInit(s, r, syncObject, ch, clock);
    RefusedEarly(s, r, syncObject, ch, clock);
    QueryValueFrame(s, pSync, clock);
    SetSlotParts(s, s1, r, Slot(s, r).(testValue := test));
    QueryFrameTransitive(s, s1, InitTrigger(s, r, syncObject, ch, clock).1);
  }

  /** With a test-type that exists the refusal comes before the test value is stored. */
  lemma RefusedEarly(s: State, r: TriggerRef, syncObject: XID, ch: Changes, clock: map<XID, Int64>)
    requires Live(s, r) && InitTrigger(s, r, syncObject, ch, clock).0 != Success
    ensures CheckFnOf(Slot(s, r).testType).Some? ==>
      RefusedTest(s, Slot(s, r), syncObject, ch, clock) == Slot(s, r).testValue
  {
    hide SetSlot, Relink, QueryValue, CheckFnOf;
  }

  lemma QueryValueFrame(s: State, c: XID, clock: map<XID, Int64>)
    ensures var s1 := QueryValue(s, c, clock);
      QueryFrame(s, s1) && s1.alarms == s.alarms && s1.awaits == s.awaits && s1.out == s.out && s1.gone == s.gone
    ensures QueryFrame(s, s)
  {
  }

  lemma QueryFrameTransitive(s: State, s1: State, s2: State)
    requires QueryFrame(s, s1) && (CounterFrame(s1, s2) || s2.counters == s1.counters)
    ensures QueryFrame(s, s2)
  {
  }

  /** Storing a trigger leaves counters and output alone and does not depend on them. */
  lemma SetSlotParts(s: State, s1: State, r: TriggerRef, t: Trigger)
    requires Live(s, r) && Live(s1, r)
    ensures s1.alarms == s.alarms && s1.awaits == s.awaits ==>
      SetSlot(s1, r, t).alarms == SetSlot(s, r, t).alarms && SetSlot(s1, r, t).awaits == SetSlot(s, r, t).awaits
    ensures SetSlot(s1, r, t).counters == s1.counters
    ensures SetSlot(s1, r, t).out == s1.out && SetSlot(s1, r, t).gone == s1.gone
  {
  }

  /** The counters of an Await under construction and those still to come are all different. */
  ghost predicate FreshConditions(aw: Await, conds: seq<WaitCondition>) {
    && (forall i, j :: 0 <= i < j < |conds| ==> conds[i].counter != conds[j].counter)
    && (forall i, j :: 0 <= i < |aw.conditions| && 0 <= j < |conds| ==> aw.conditions[i].trigger.sync != conds[j].counter)
    && (forall i :: 0 <= i < |aw.conditions| ==> aw.conditions[i].trigger.sync != NONE)
    && DistinctConditions(aw)
  }

  lemma {:induction false} AddConditionsLinked(s: State, w: XID, conds: seq<WaitCondition>, clock: map<XID, Int64>)
    requires Linked(s) && Settled(s) && w in s.awaits && FreshConditions(s.awaits[w], conds)
    ensures var s' := AddConditions(s, w, conds, clock).1;
      && Linked(s') && Settled(s') && s'.alarms == s.alarms
      && (forall v :: v in s'.awaits && v != w ==> v in s.awaits && s'.awaits[v] == s.awaits[v])
      && (w in s'.awaits ==> FreshConditions(s'.awaits[w], []))
    decreases |conds|
  {
    if conds == [] {
    } else if conds[0].counter == NONE {
      assert OffUpTo(s, w, 0, {});
      hide LinkedExcept, FreeAwait;
      FreeAwaitLinked(s, w, {});
    } else {
      var cond := Condition(Trigger(NONE, conds[0].valueType, conds[0].waitValue, conds[0].testType, PosComparison, 0),
                            conds[0].threshold);
      var rc, s2 := AddConditionLinked(s, w, conds, cond, clock);
      hide LinkedExcept, FreeAwait, InitTrigger, FreshConditions;
      if rc != Success {
        assert OffUpTo(s2, w, 0, {});
        FreeAwaitLinked(s2, w, {});
      } else {
        AddConditionsLinked(s2, w, conds[1..], clock);
      }
    }
  }

  /** One turn of the loop of ProcSyncAwait. */
  lemma AddConditionLinked(s: State, w: XID, conds: seq<WaitCondition>, cond: Condition, clock: map<XID, Int64>)
    returns (rc: Status, s2: State)
    requires Linked(s) && Settled(s) && w in s.awaits && conds != [] && conds[0].counter != NONE
    requires FreshConditions(s.awaits[w], conds) && cond.trigger.sync == NONE
    ensures var aw := s.awaits[w];
      var s1 := s.(awaits := s.awaits[w := aw.(conditions := aw.conditions + [cond])]);
      (rc, s2) == InitTrigger(s1, AwaitTrigger(w, |aw.conditions|), conds[0].counter, ALL_CHANGES, clock)
    ensures Linked(s2) && Settled(s2) && w in s2.awaits && s2.alarms == s.alarms
    ensures forall v :: v in s2.awaits && v != w ==> v in s.awaits && s2.awaits[v] == s.awaits[v]
    ensures rc == Success ==> FreshConditions(s2.awaits[w], conds[1..])
  {
    var aw := s.awaits[w];
    var r := AwaitTrigger(w, |aw.conditions|);
    var s1 := s.(awaits := s.awaits[w := aw.(conditions := aw.conditions + [cond])]);
    AppendConditionLinked(s, w, cond);
    InitTriggerLinked(s1, r, conds[0].counter, ALL_CHANGES, clock);
    var t := InitTriggerShape(s1, r, conds[0].counter, ALL_CHANGES, clock);
    var res := InitTrigger(s1, r, conds[0].counter, ALL_CHANGES, clock);
    rc, s2 := res.0, res.1;
    hide InitTrigger, LinkedExcept, FreshConditions;
    assert s2.awaits[w] == aw.(conditions := aw.conditions + [cond.(trigger := t)]);
    if rc == Success { FreshPush(aw, conds, cond.(trigger := t)); }
  }

  lemma FreshPush(aw: Await, conds: seq<WaitCondition>, cond: Condition)
    requires conds != [] && FreshConditions(aw, conds) && cond.trigger.sync == conds[0].counter != NONE
    ensures FreshConditions(aw.(conditions := aw.conditions + [cond]), conds[1..])
  {
  }

  lemma AppendConditionLinked(s: State, w: XID, cond: Condition)
    requires Linked(s) && w in s.awaits && cond.trigger.sync == NONE
    ensures var aw := s.awaits[w];
      Linked(s.(awaits := s.awaits[w := aw.(conditions := aw.conditions + [cond])]))
  {
    var aw := s.awaits[w];
    var s1 := s.(awaits := s.awaits[w := aw.(conditions := aw.conditions + [cond])]);
    assert forall q :: Live(s, q) ==> Live(s1, q) && Slot(s1, q) == Slot(s, q);
    forall q | Live(s1, q) && Slot(s1, q).sync != NONE
      ensures Live(s, q) && OnItsList(s1, q)
    {
      assert q != AwaitTrigger(w, |aw.conditions|);
      assert OnItsList(s, q);
    }
  }

  /** The list invariant between two requests. */
  ghost predicate ListInv(s: State) {
    Linked(s) && Settled(s) && AwaitsDistinct(s)
  }

  lemma SetAlarmLinked(s: State, a: XID, al: Alarm)
    requires Linked(s)
    requires if a in s.alarms then al.trigger.sync == s.alarms[a].trigger.sync else al.trigger.sync == NONE
    ensures Linked(SetAlarm(s, a, al))
  {
    var s' := SetAlarm(s, a, al);
    assert forall q :: Live(s', q) == (Live(s, q) || q == AlarmTrigger(a));
    assert forall q :: Live(s, q) ==> Slot(s', q).sync == Slot(s, q).sync;
    forall q | Live(s', q) && Slot(s', q).sync != NONE
      ensures OnItsList(s', q)
    {
      assert OnItsList(s, q);
    }
  }

  /** An alarm whose trigger is on no list can go. */
  lemma RemoveAlarmLinked(s: State, a: XID)
    requires a in s.alarms
    requires LinkedExcept(s, {AlarmTrigger(a)}) || (Linked(s) && s.alarms[a].trigger.sync == NONE)
    ensures Linked(s.(alarms := s.alarms - {a}))
  {
    var s', r := s.(alarms := s.alarms - {a}), AlarmTrigger(a);
    assert forall q :: Live(s', q) == (Live(s, q) && q != r);
    assert forall q :: Live(s', q) ==> Slot(s', q) == Slot(s, q);
    assert Slot(s, r) == s.alarms[a].trigger;
    hide Live, Slot, NoDup;
    forall c, q | c in s'.counters && q in s'.counters[c].triglist
      ensures Live(s', q) && Slot(s', q).sync == c
    {
      assert c != NONE && Live(s, q) && Slot(s, q).sync == c;
      assert q != r by { if LinkedExcept(s, {r}) { assert q !in {r}; } }
    }
    forall q | Live(s', q) && Slot(s', q).sync != NONE
      ensures OnItsList(s', q)
    {
      assert OnItsList(s, q);
    }
  }

  lemma FreeAlarmListInv(s: State, a: XID)
    requires ListInv(s) && a in s.alarms
    ensures ListInv(FreeAlarm(s, a))
  {
    var s0 := SetAlarm(s, a, s.alarms[a].(state := Destroyed));
    SetAlarmLinked(s, a, s.alarms[a].(state := Destroyed));
    var s1 := SendAlarmNotify(s0, a);
    assert s1.counters == s.counters && s1.awaits == s.awaits && s1.alarms == s0.alarms;
    hide SendAlarmNotify, DeleteTrigger;
    assert Linked(s1) by { SameLinksLinked(s0, s1, {}); }
    DeleteTriggerLinked(s1, AlarmTrigger(a), {});
    DeleteTriggerFrame(s1, AlarmTrigger(a));
    assert {} + {AlarmTrigger(a)} == {AlarmTrigger(a)};
    hide LinkedExcept;
    RemoveAlarmLinked(DeleteTrigger(s1, AlarmTrigger(a)), a);
  }

  lemma SetAlarmListInv(s: State, a: XID, al: Alarm)
    requires ListInv(s)
    requires if a in s.alarms then al.trigger.sync == s.alarms[a].trigger.sync else al.trigger.sync == NONE
    ensures ListInv(SetAlarm(s, a, al))
  {
    SetAlarmLinked(s, a, al);
  }

  lemma InitAlarmListInv(s: State, a: XID, syncObject: XID, ch: Changes, clock: map<XID, Int64>)
    requires ListInv(s) && a in s.alarms
    ensures var (rc, s') := InitTrigger(s, AlarmTrigger(a), syncObject, ch, clock);
      && ListInv(s') && s'.awaits == s.awaits && s'.out == s.out && s'.gone == s.gone && QueryFrame(s, s')
      && s'.alarms == s.alarms[a := s.alarms[a].(trigger := s'.alarms[a].trigger)]
      && (rc != Success ==> s'.alarms[a].trigger.sync == s.alarms[a].trigger.sync)
      && (rc == Success ==> s'.alarms[a].trigger.sync == if ch.counter then syncObject else s.alarms[a].trigger.sync)
  {
    InitTriggerLinked(s, AlarmTrigger(a), syncObject, ch, clock);
    var t := InitTriggerShape(s, AlarmTrigger(a), syncObject, ch, clock);
    hide InitTrigger, LinkedExcept;
  }

  lemma ChangeAlarmAttributesListInv(s: State, client: Client, a: XID, attrs: AlarmAttributes, clock: map<XID, Int64>)
    requires ListInv(s) && a in s.alarms
    ensures var (rc, s') := ChangeAlarmAttributes(s, client, a, attrs, clock);
      && ListInv(s') && s'.awaits == s.awaits && s'.counters.Keys == s.counters.Keys
      && (rc != Success ==> s'.alarms[a].trigger.sync == s.alarms[a].trigger.sync)
  {
    var rc := CheckAttributes(s.alarms[a], attrs);
    var al := if attrs.events.Some? then EventSelect(s.alarms[a], client, attrs.events.value == 1) else s.alarms[a];
    assert al.trigger == s.alarms[a].trigger by { EventSelectTrigger(s.alarms[a], client, attrs.events); }
    hide CheckAttributes, ListInv, EventSelect, InitTrigger, QueryFrame;
    SetAlarmListInv(s, a, al);
    if rc == Success {
      var al1 := al.(delta := Get(attrs.delta, al.delta), trigger := WithAttributes(al.trigger, attrs));
      var s1 := SetAlarm(s, a, al1);
      SetAlarmListInv(s, a, al1);
      var syncObject := Get(attrs.counter, al.trigger.sync);
      InitAlarmListInv(s1, a, syncObject, ChangesOf(attrs), clock);
      var (rc2, s2) := InitTrigger(s1, AlarmTrigger(a), syncObject, ChangesOf(attrs), clock);
      SetAlarmListInv(s2, a, s2.alarms[a].(state := Active));
    }
  }

  lemma EventSelectTrigger(al: Alarm, client: Client, events: Option<nat>)
    ensures events.Some? ==> EventSelect(al, client, events.value == 1) == al.(events := EventSelect(al, client, events.value == 1).events,
                                 eventClients := EventSelect(al, client, events.value == 1).eventClients)
  {
  }

  lemma AlarmFiredListInv(s: State, a: XID)
    requires ListInv(s) && a in s.alarms
    ensures ListInv(AlarmFired(s, a))
  {
    AlarmFiredFrame(s, a);
    SameLinksLinked(s, AlarmFired(s, a), {});
  }

  lemma CreateAlarmListInv(s: State, client: Client, a: XID, attrs: AlarmAttributes, clock: map<XID, Int64>)
    requires ListInv(s)
    ensures ListInv(CreateAlarm(s, client, a, attrs, clock).1)
  {
    if !InUse(s, a) {
      var s0 := SetAlarm(s, a, NewAlarm(client));
      SetAlarmListInv(s, a, NewAlarm(client));
      ChangeAlarmAttributesListInv(s0, client, a, attrs, clock);
      var (rc, s1) := ChangeAlarmAttributes(s0, client, a, attrs, clock);
      hide ChangeAlarmAttributes, LinkedExcept, AlarmFired;
      if rc != Success {
        RemoveAlarmLinked(s1, a);
      } else {
        SetAlarmListInv(s1, a, s1.alarms[a].(state := Inactive));
        AlarmFiredListInv(s1, a);
      }
    }
  }

  lemma ChangeAlarmListInv(s: State, client: Client, a: XID, attrs: AlarmAttributes, clock: map<XID, Int64>)
    requires ListInv(s)
    ensures ListInv(ChangeAlarm(s, client, a, attrs, clock).1)
  {
    if a in s.alarms {
      ChangeAlarmAttributesListInv(s, client, a, attrs, clock);
      var (rc, s1) := ChangeAlarmAttributes(s, client, a, attrs, clock);
      hide ChangeAlarmAttributes, ListInv, AlarmFired;
      if rc == Success { AlarmFiredListInv(s1, a); }
    }
  }

  lemma AwaitFiredListInv(s: State, w: XID)
    requires ListInv(s) && w in s.awaits
    ensures ListInv(AwaitFired(s, w)) && ListInv(FreeAwait(s, w))
    ensures AwaitFired(s, w).alarms == s.alarms && FreeAwait(s, w).alarms == s.alarms
  {
    assert OffUpTo(s, w, 0, {});
    hide LinkedExcept, AwaitFired, FreeAwait;
    AwaitFiredLinked(s, w, {});
    FreeAwaitLinked(s, w, {});
  }

  lemma {:induction false} AwaitEpilogueListInv(s: State, w: XID, i: nat)
    requires ListInv(s) && w in s.awaits
    ensures ListInv(AwaitEpilogue(s, w, i)) && AwaitEpilogue(s, w, i).alarms == s.alarms
    decreases |s.awaits[w].conditions| - i
  {
    hide ListInv, AwaitFired;
    if i < |s.awaits[w].conditions| {
      AwaitFiredListInv(s, w);
      AwaitEpilogueListInv(s, w, i + 1);
    }
  }

  lemma AwaitRequestListInv(s: State, client: Client, w: XID, conds: seq<WaitCondition>, clock: map<XID, Int64>)
    requires ListInv(s)
    requires forall i, j :: 0 <= i < j < |conds| ==> conds[i].counter != conds[j].counter
    ensures ListInv(AwaitRequest(s, client, w, conds, clock).1)
    ensures AwaitRequest(s, client, w, conds, clock).1.alarms == s.alarms
  {
    if conds != [] && !InUse(s, w) {
      var s0 := s.(awaits := s.awaits[w := Await(client, [])]);
      assert forall q :: Live(s0, q) == Live(s, q);
      assert forall q :: Live(s, q) ==> Slot(s0, q) == Slot(s, q);
      assert Linked(s0);
      AddConditionsLinked(s0, w, conds, clock);
      var (rc, s1) := AddConditions(s0, w, conds, clock);
      hide AddConditions, LinkedExcept, AwaitEpilogue;
      assert ListInv(s1);
      if rc == Success {
        var s2 := Emit(s1, [IgnoreClient(client)]);
        EmitSameLinks(s1, [IgnoreClient(client)]);
        SameLinksLinked(s1, s2, {});
        AwaitEpilogueListInv(s2, w, 0);
      }
    }
  }

  /** The conditions of one Await name different counters; nothing else is asked of a request. */
  ghost predicate DistinctCounters(req: Request) {
    req.AwaitReq? ==>
      forall i, j :: 0 <= i < j < |req.conditions| ==> req.conditions[i].counter != req.conditions[j].counter
  }

  lemma NewCounterLinked(s: State, c: XID, k: Counter)
    requires Linked(s) && !InUse(s, c) && k.triglist == []
    ensures Linked(SetCounter(s, c, k))
  {
    SetCounterFrame(s, c, k);
    forall q | Live(s, q) && Slot(s, q).sync != NONE
      ensures OnItsList(SetCounter(s, c, k), q)
    {
      assert OnItsList(s, q);
    }
  }

  lemma ChangeCounterListInv(s: State, c: XID, v: Int64)
    requires ListInv(s) && c in s.counters
    ensures ListInv(ChangeCounter(s, c, v))
  {
    hide LinkedExcept, ChangeCounter;
    ChangeCounterLinked(s, c, v);
  }

  lemma SameListInv(s: State, s': State)
    requires ListInv(s) && SameLinks(s, s') && Settled(s') && s'.awaits == s.awaits
    ensures ListInv(s')
  {
    SameLinksLinked(s, s', {});
  }

  /** Every request keeps the list invariant, whether it succeeds or not. */
  lemma StepListInv(s: State, req: Request)
    requires ListInv(s) && DistinctCounters(req)
    ensures ListInv(Step(s, req).1)
  {
    hide ChangeCounter, FreeCounter, AwaitRequest, CreateAlarm, ChangeAlarm, FreeAlarm, FreeAwait, LinkedExcept, SameLinks;
    match req {
      case CreateCounter(id, v) =>
        if !InUse(s, id) { NewCounterLinked(s, id, Counter(v, [], false, None)); }
      case SetCounterRequest(id, v) =>
        if id in s.counters { ChangeCounterListInv(s, id, v); }
      case ChangeCounterRequest(id, amount) =>
        if id in s.counters && CheckedAdd(amount, s.counters[id].value).Some? {
          ChangeCounterListInv(s, id, CheckedAdd(amount, s.counters[id].value).value);
        }
      case DestroyCounter(id) =>
        if id in s.counters { FreeCounterLinked(s, id); }
      case AwaitReq(client, id, conds, clock) => AwaitRequestListInv(s, client, id, conds, clock);
      case CreateAlarmReq(client, id, attrs, clock) => CreateAlarmListInv(s, client, id, attrs, clock);
      case ChangeAlarmReq(client, id, attrs, clock) => ChangeAlarmListInv(s, client, id, attrs, clock);
      case DestroyAlarm(id) =>
        if id in s.alarms { FreeAlarmListInv(s, id); }
      case QueryCounter(id, clock) =>
        QueryValueSameLinks(s, id, clock);
        SameListInv(s, QueryValue(s, id, clock));
      case FreeAwaitResource(id) =>
        if id in s.awaits { AwaitFiredListInv(s, id); }
      case FreeAlarmClient(id, client) =>
        if id in s.alarms {
          SetAlarmListInv(s, id, s.alarms[id].(eventClients := Without(s.alarms[id].eventClients, client)));
        }
      case ClientGone(client) =>
        GoneSameLinks(s, client);
        SameListInv(s, s.(gone := s.gone + {client}));
      case CreateSystemCounter(id, v, ct) =>
        if !InUse(s, id) {
          NewCounterLinked(s, id, Counter(v, [], false, Some(SysInfo(ct, INT64_MIN, INT64_MAX, false, false))));
        }
      case SystemTick(id, v) =>
        if id in s.counters { ChangeCounterListInv(s, id, v); }
      case SystemUpdate(id, v) =>
        if id in s.counters {
          UpdateCounterSameLinks(s, id, v);
          SameListInv(s, UpdateCounter(s, id, v));
        }
      case DestroySystemCounter(id) =>
        if id in s.counters { FreeCounterLinked(s, id); }
    }
  }

  lemma GoneSameLinks(s: State, client: Client)
    ensures SameLinks(s, s.(gone := s.gone + {client}))
  {
  }

  const INITIAL := State(map[], map[], map[], {}, [])

  function Run(s: State, reqs: seq<Request>): State
    decreases |reqs|
  {
    if reqs == [] then s else Run(Step(s, reqs[0]).1, reqs[1..])
  }

  lemma {:induction false} RunListInv(s: State, reqs: seq<Request>)
    requires ListInv(s)
    requires forall i :: 0 <= i < |reqs| ==> DistinctCounters(reqs[i])
    ensures ListInv(Run(s, reqs))
    decreases |reqs|
  {
    if reqs != [] {
      hide Step, ListInv;
      StepListInv(s, reqs[0]);
      RunListInv(Step(s, reqs[0]).1, reqs[1..]);
    }
  }

  lemma {:induction false} OccursOnce<T>(xs: seq<T>, x: T)
    requires NoDup(xs) && x in xs
    ensures multiset(xs)[x] == 1
  {
    NoDupPop(xs);
    assert xs == [xs[0]] + xs[1..];
    if xs[0] != x { OccursOnce(xs[1..], x); }
  }

  /** `r` is once on the list of its counter, if it has one, and on no other list. */
  ghost predicate OnExactlyItsList(s: State, r: TriggerRef)
    requires Live(s, r)
  {
    var c := Slot(s, r).sync;
    && (c != NONE ==> c in s.counters && multiset(s.counters[c].triglist)[r] == 1)
    && forall d :: d in s.counters && d != c ==> r !in s.counters[d].triglist
  }

  lemma LinkedMeansExactly(s: State, r: TriggerRef)
    requires Linked(s) && Live(s, r)
    ensures OnExactlyItsList(s, r)
  {
    if Slot(s, r).sync != NONE {
      assert OnItsList(s, r);
      OccursOnce(s.counters[Slot(s, r).sync].triglist, r);
    }
  }

  /** Every trigger is exactly on its list, and the lists hold live triggers of their counter only. */
  ghost predicate ListsExact(s: State) {
    && (forall r :: Live(s, r) ==> OnExactlyItsList(s, r))
    && (forall c, r :: c in s.counters && r in s.counters[c].triglist ==> Live(s, r) && Slot(s, r).sync == c)
  }

  lemma LinkedListsExact(s: State)
    requires Linked(s)
    ensures ListsExact(s)
  {
    hide OnExactlyItsList;
    forall r | Live(s, r)
      ensures OnExactlyItsList(s, r)
    {
      LinkedMeansExactly(s, r);
    }
  }

  /** In every reachable state each live trigger with a counter is exactly once on that
    counter's list and on no other list, and the lists hold live triggers only. */
  lemma ReachableLists(reqs: seq<Request>)
    requires forall i :: 0 <= i < |reqs| ==> DistinctCounters(reqs[i])
    ensures ListsExact(Run(INITIAL, reqs))
  {
    hide Run, ListsExact;
    RunListInv(INITIAL, reqs);
    LinkedListsExact(Run(INITIAL, reqs));
  }
}
