/** After every request each pending Await is still waiting for a reason, and each active
  alarm has a counter and waits for it to move.
 */
module SyncQuiescence {
  import opened SyncModel
  import opened SyncLinks
  import opened SyncRearm
  import opened SyncTypes

  /** The trigger is a comparison that holds at its counter's present value. */
  ghost predicate LevelTrue(s: State, t: Trigger) {
    t.sync in s.counters && IsComparison(t.check)
    && CheckAt(t.check, s.counters[t.sync].value, s.counters[t.sync].value, t.testValue)
  }

  /** The trigger of an active alarm or of a pending Await. */
  ghost predicate Armed(s: State, r: TriggerRef) {
    Live(s, r) && (r.AlarmTrigger? ==> s.alarms[r.alarm].state == Active)
  }

  ghost predicate Quiet(s: State, r: TriggerRef) {
    Armed(s, r) ==> !LevelTrue(s, Slot(s, r))
  }

  /** What is active or pending has a counter. */
  ghost predicate AlarmPlaced(al: Alarm) {
    al.state == Active ==> al.trigger.sync != NONE
  }

  ghost predicate AwaitPlaced(aw: Await) {
    forall i :: 0 <= i < |aw.conditions| ==> aw.conditions[i].trigger.sync != NONE
  }

  ghost predicate Placed(s: State) {
    && (forall a :: a in s.alarms ==> AlarmPlaced(s.alarms[a]))
    && (forall w :: w in s.awaits ==> AwaitPlaced(s.awaits[w]))
  }

  ghost predicate Coherent(s: State) {
    Placed(s) && Typed(s)
  }

  ghost predicate OnClientCounter(s: State, r: TriggerRef)
    requires Live(s, r)
  {
    !IsSystem(s, Slot(s, r).sync)
  }

  /** Every armed trigger on a client-created counter is false, apart from those in `off`. */
  ghost predicate QuiescentExcept(s: State, off: set<TriggerRef>) {
    forall r :: Live(s, r) && r !in off && OnClientCounter(s, r) ==> Quiet(s, r)
  }

  ghost predicate Quiescent(s: State) {
    QuiescentExcept(s, {})
  }

  /** What waits on a client-created counter has a reason to wait. */
  ghost predicate WaitInv(s: State) {
    ListInv(s) && Placed(s) && Quiescent(s)
  }

  /** And check functions and deltas suit the test-types. */
  ghost predicate QuietInv(s: State) {
    WaitInv(s) && Typed(s)
  }

  // ---------- Firing ----------

  lemma AlarmFiredQuiet(s: State, a: XID)
    requires a in s.alarms
    requires s.alarms[a].trigger.sync == NONE || s.alarms[a].trigger.sync in s.counters
    ensures AlarmPlaced(AlarmFired(s, a).alarms[a])
    ensures Quiet(AlarmFired(s, a), AlarmTrigger(a))
  {
    var al := s.alarms[a];
    if al.state == Active && al.trigger.sync != NONE {
      RearmFalse(al.trigger.check, al.trigger.testValue, al.delta, ValueOf(s, al.trigger.sync));
    }
  }

  /** Firing one trigger does not wake another. */
  lemma FireKeepsOthers(s: State, r: TriggerRef, q: TriggerRef)
    requires Linked(s) && Settled(s) && Live(s, r)
    requires Live(FireTrigger(s, r), q) && q != r
    ensures Live(s, q) && Slot(FireTrigger(s, r), q) == Slot(s, q)
    ensures Quiet(s, q) ==> Quiet(FireTrigger(s, r), q)
  {
    FireTriggerLinked(s, r);
    match r {
      case AlarmTrigger(a) => AlarmFiredFrame(s, a);
      case AwaitTrigger(w, i) =>
        assert OffUpTo(s, w, 0, {});
        AwaitFiredLinked(s, w, {});
    }
    hide AlarmFired, AwaitFired, LinkedExcept;
  }

  lemma FireQuiet(s: State, r: TriggerRef)
    requires Linked(s) && Settled(s) && Live(s, r) && Placed(s)
    ensures Placed(FireTrigger(s, r)) && Quiet(FireTrigger(s, r), r)
  {
    match r
    case AlarmTrigger(a) =>
      if Slot(s, r).sync != NONE { assert OnItsList(s, r); }
      AlarmFiredFrame(s, a);
      hide LinkedExcept;
      AlarmFiredQuiet(s, a);
      hide AlarmFired;
    case AwaitTrigger(w, i) =>
      assert OffUpTo(s, w, 0, {});
      AwaitFiredLinked(s, w, {});
  }

  /** Walking a list of triggers of `c` makes each of them quiet and wakes none. */
  lemma {:induction false} TriggerWalkQuiet(s: State, refs: seq<TriggerRef>, oldval: Int64, c: XID, q: TriggerRef)
    requires Linked(s) && Settled(s) && Placed(s) && c in s.counters
    requires forall r :: r in refs && Live(s, r) ==> Slot(s, r).sync == c
    ensures Placed(TriggerWalk(s, refs, oldval))
    ensures Live(TriggerWalk(s, refs, oldval), q) && (q in refs || Quiet(s, q)) ==> Quiet(TriggerWalk(s, refs, oldval), q)
    decreases |refs|
  {
    if refs != [] {
      var r := refs[0];
      var fires := Live(s, r) && Check(s, Slot(s, r), oldval);
      var s1 := if fires then FireTrigger(s, r) else s;
      if fires {
        FireTriggerLinked(s, r);
        FireQuiet(s, r);
      }
      assert Live(s1, r) ==> Quiet(s1, r);
      forall p | p in refs[1..] && Live(s1, p)
        ensures Slot(s1, p).sync == c
      {
        if fires && p != r { FireKeepsOthers(s, r, p); }
        assert p in refs;
      }
      if Live(s1, q) && fires && q != r { FireKeepsOthers(s, r, q); }
      hide FireTrigger, LinkedExcept, Placed;
      TriggerWalkQuiet(s1, refs[1..], oldval, c, q);
      TriggerWalkLinked(s1, refs[1..], oldval);
      assert refs == [r] + refs[1..];
    }
  }

  // ---------- Changing a counter ----------

  lemma UpdateCounterOthers(s: State, c: XID, v: Int64, q: TriggerRef)
    requires c in s.counters && Live(s, q) && Slot(s, q).sync != c
    ensures Quiet(s, q) ==> Quiet(UpdateCounter(s, c, v), q)
  {
  }

  lemma ComputeBracketsQuiet(s: State, c: XID, q: TriggerRef)
    requires Live(s, q)
    ensures Live(ComputeBrackets(s, c), q) && Slot(ComputeBrackets(s, c), q) == Slot(s, q)
    ensures Quiet(s, q) == Quiet(ComputeBrackets(s, c), q)
  {
    ComputeBracketsFrame(s, c);
    ComputeBracketsSameLinks(s, c);
    hide ComputeBrackets;
  }

  /** The walk of SyncChangeCounter, before the brackets are set anew. */
  lemma WalkQuiet(s: State, c: XID, v: Int64, q: TriggerRef)
    requires ListInv(s) && Placed(s) && c in s.counters
    ensures var s2 := TriggerWalk(UpdateCounter(s, c, v), s.counters[c].triglist, s.counters[c].value);
      && Placed(s2)
      && (Live(s2, q) ==>
          && Live(s, q) && Slot(s2, q).sync == Slot(s, q).sync
          && (Slot(s, q).sync == c || Quiet(s, q) ==> Quiet(s2, q)))
  {
    var s1 := UpdateCounter(s, c, v);
    UpdateCounterSameLinks(s, c, v);
    SameLinksLinked(s, s1, {});
    var refs := s.counters[c].triglist;
    assert forall r :: r in refs && Live(s1, r) ==> Slot(s1, r).sync == c;
    if Live(s, q) {
      if Slot(s, q).sync == c {
        assert OnItsList(s, q);
      } else {
        UpdateCounterOthers(s, c, v, q);
      }
    }
    hide TriggerWalk, LinkedExcept, Quiet;
    TriggerWalkLinked(s1, refs, s.counters[c].value);
    TriggerWalkQuiet(s1, refs, s.counters[c].value, c, q);
  }

  /** After SyncChangeCounter every armed trigger of that counter is false, be it a system
    counter or not, and no trigger of another counter was disturbed. */
  lemma ChangeCounterQuiet(s: State, c: XID, v: Int64, q: TriggerRef)
    requires ListInv(s) && Placed(s) && c in s.counters
    ensures Placed(ChangeCounter(s, c, v))
    ensures Live(ChangeCounter(s, c, v), q) ==>
      && Live(s, q) && Slot(ChangeCounter(s, c, v), q).sync == Slot(s, q).sync
      && (Slot(s, q).sync == c || Quiet(s, q) ==> Quiet(ChangeCounter(s, c, v), q))
  {
    var s2 := TriggerWalk(UpdateCounter(s, c, v), s.counters[c].triglist, s.counters[c].value);
    hide TriggerWalk, ComputeBrackets, ListInv, Quiet, UpdateCounter;
    WalkQuiet(s, c, v, q);
    ComputeBracketsSameLinks(s2, c);
    if Live(s2, q) { ComputeBracketsQuiet(s2, c, q); }
  }

  lemma ChangeCounterWaitInv(s: State, c: XID, v: Int64)
    requires WaitInv(s) && c in s.counters
    ensures WaitInv(ChangeCounter(s, c, v))
  {
    ChangeCounterListInv(s, c, v);
    ChangeCounterLinked(s, c, v);
    var s' := ChangeCounter(s, c, v);
    ChangeCounterQuiet(s, c, v, AlarmTrigger(0));
    hide ChangeCounter, ListInv, Placed;
    forall q | Live(s', q) && OnClientCounter(s', q)
      ensures Quiet(s', q)
    {
      ChangeCounterQuiet(s, c, v, q);
      assert OnClientCounter(s, q);
    }
  }

  // ---------- Destroying things ----------

  lemma FreeCounterFrame(s: State, c: XID)
    requires ListInv(s) && c in s.counters
    ensures var s' := FreeCounter(s, c);
      && s'.counters.Keys == s.counters.Keys - {c}
      && (forall d :: d in s'.counters ==>
          s'.counters[d].value == s.counters[d].value && s'.counters[d].sys.Some? == s.counters[d].sys.Some?)
      && (forall w :: w in s'.awaits ==> w in s.awaits && s'.awaits[w] == s.awaits[w])
      && s'.alarms.Keys == s.alarms.Keys
      && (forall a :: a in s.alarms ==>
          || s'.alarms[a] == s.alarms[a]
          || s'.alarms[a] == s.alarms[a].(state := Inactive, trigger := s.alarms[a].trigger.(sync := NONE)))
  {
    var k := s.counters[c];
    var s0 := SetCounter(s, c, k.(beingDestroyed := true));
    DyingSameLinks(s, c);
    SameLinksLinked(s, s0, {});
    hide DestroyWalk, LinkedExcept, SameLinks;
    DestroyWalkLinked(s0, c, k.triglist);
  }

  lemma FreeCounterWaitInv(s: State, c: XID)
    requires WaitInv(s) && c in s.counters
    ensures WaitInv(FreeCounter(s, c))
  {
    FreeCounterLinked(s, c);
    FreeCounterFrame(s, c);
    var s' := FreeCounter(s, c);
    hide FreeCounter;
    forall q | Live(s', q) && OnClientCounter(s', q)
      ensures Quiet(s', q)
    {
      if Slot(s', q).sync != NONE {
        assert OnItsList(s', q);
        assert Live(s, q) && Slot(s', q) == Slot(s, q);
        assert OnClientCounter(s, q);
      }
    }
  }

  /** Dropping an Await leaves every other trigger as it was. */
  lemma FreeAwaitQuiet(s: State, w: XID, off: set<TriggerRef>)
    requires Linked(s) && Settled(s) && w in s.awaits
    requires QuiescentExcept(s, off) && off <= AwaitRefs(s, w)
    ensures Quiescent(FreeAwait(s, w))
  {
    assert OffUpTo(s, w, 0, {});
    FreeAwaitLinked(s, w, {});
    var s' := FreeAwait(s, w);
    hide FreeAwait, LinkedExcept;
    forall q | Live(s', q) && OnClientCounter(s', q)
      ensures Quiet(s', q)
    {
      assert Live(s, q) && q !in AwaitRefs(s, w) && Slot(s', q) == Slot(s, q);
      assert OnClientCounter(s, q);
    }
  }

  lemma FreeAwaitWaitInv(s: State, w: XID)
    requires WaitInv(s) && w in s.awaits
    ensures WaitInv(FreeAwait(s, w))
  {
    assert OffUpTo(s, w, 0, {});
    AwaitFiredListInv(s, w);
    FreeAwaitLinked(s, w, {});
    hide FreeAwait, LinkedExcept;
    FreeAwaitQuiet(s, w, {});
  }

  lemma EmitQuiet(s: State, o: seq<Output>, off: set<TriggerRef>)
    requires QuiescentExcept(s, off)
    ensures QuiescentExcept(Emit(s, o), off)
  {
    forall q | Live(Emit(s, o), q) && q !in off && OnClientCounter(Emit(s, o), q)
      ensures Quiet(Emit(s, o), q)
    {
      assert Live(s, q) && OnClientCounter(s, q);
      assert Quiet(s, q);
    }
  }

  lemma FreeAlarmWaitInv(s: State, a: XID)
    requires WaitInv(s) && a in s.alarms
    ensures WaitInv(FreeAlarm(s, a))
  {
    FreeAlarmListInv(s, a);
    FreeAlarmFrame(s, a);
    var s' := FreeAlarm(s, a);
    hide FreeAlarm, ListInv;
    forall q | Live(s', q) && OnClientCounter(s', q)
      ensures Quiet(s', q)
    {
      assert Live(s, q) && Slot(s', q) == Slot(s, q);
      assert OnClientCounter(s, q);
    }
  }

  lemma FreeAlarmFrame(s: State, a: XID)
    requires a in s.alarms
    ensures CounterFrame(s, FreeAlarm(s, a))
    ensures FreeAlarm(s, a).awaits == s.awaits && FreeAlarm(s, a).alarms == s.alarms - {a}
  {
    var s1 := SendAlarmNotify(SetAlarm(s, a, s.alarms[a].(state := Destroyed)), a);
    assert s1.counters == s.counters && s1.awaits == s.awaits;
    hide SendAlarmNotify;
    DeleteTriggerFrame(s1, AlarmTrigger(a));
  }

  // ---------- Await ----------

  ghost predicate PlacedBut(s: State, w: XID) {
    && (forall a :: a in s.alarms ==> AlarmPlaced(s.alarms[a]))
    && (forall v :: v in s.awaits && v != w ==> AwaitPlaced(s.awaits[v]))
  }

  lemma QueryFrameQuiet(s: State, s': State, off: set<TriggerRef>)
    requires QuiescentExcept(s, off) && QueryFrame(s, s')
    requires forall q :: Live(s', q) && q !in off ==> Live(s, q) && Slot(s', q) == Slot(s, q) && Armed(s', q) == Armed(s, q)
    ensures QuiescentExcept(s', off)
  {
    forall q | Live(s', q) && q !in off && OnClientCounter(s', q)
      ensures Quiet(s', q)
    {
      assert OnClientCounter(s, q);
    }
  }

  lemma AddConditionQuiet(s: State, w: XID, conds: seq<WaitCondition>, cond: Condition, clock: map<XID, Int64>)
    requires ListInv(s) && Placed(s) && w in s.awaits && conds != [] && conds[0].counter != NONE
    requires QuiescentExcept(s, AwaitRefs(s, w)) && cond.trigger.sync == NONE
    ensures var aw := s.awaits[w];
      var s1 := s.(awaits := s.awaits[w := aw.(conditions := aw.conditions + [cond])]);
      var (rc, s2) := InitTrigger(s1, AwaitTrigger(w, |aw.conditions|), conds[0].counter, ALL_CHANGES, clock);
      && w in s2.awaits && PlacedBut(s2, w) && QuiescentExcept(s2, AwaitRefs(s2, w))
      && (rc == Success ==> Placed(s2))
  {
    var aw := s.awaits[w];
    var r := AwaitTrigger(w, |aw.conditions|);
    var s1 := s.(awaits := s.awaits[w := aw.(conditions := aw.conditions + [cond])]);
    var t := InitTriggerShape(s1, r, conds[0].counter, ALL_CHANGES, clock);
    var (rc, s2) := InitTrigger(s1, r, conds[0].counter, ALL_CHANGES, clock);
    hide InitTrigger, ListInv, QuiescentExcept, QueryFrame;
    assert s2.awaits == s.awaits[w := s2.awaits[w]];
    assert s2.awaits[w].conditions == aw.conditions + [cond.(trigger := t)];
    assert AwaitRefs(s, w) <= AwaitRefs(s2, w);
    forall q | Live(s2, q) && q !in AwaitRefs(s2, w)
      ensures Live(s, q) && Slot(s2, q) == Slot(s, q)
    {
    }
    assert QuiescentExcept(s, AwaitRefs(s2, w)) by { QuietSubset(s, AwaitRefs(s, w), AwaitRefs(s2, w)); }
    QueryFrameQuiet(s, s2, AwaitRefs(s2, w));
  }

  lemma QuietSubset(s: State, off: set<TriggerRef>, off': set<TriggerRef>)
    requires QuiescentExcept(s, off) && off <= off'
    ensures QuiescentExcept(s, off')
  {
  }

  lemma AbandonAwaitQuiet(s: State, w: XID)
    requires Linked(s) && Settled(s) && w in s.awaits
    requires PlacedBut(s, w) && QuiescentExcept(s, AwaitRefs(s, w))
    ensures Placed(FreeAwait(s, w)) && Quiescent(FreeAwait(s, w))
  {
    assert OffUpTo(s, w, 0, {});
    FreeAwaitLinked(s, w, {});
    hide FreeAwait, LinkedExcept, QuiescentExcept;
    FreeAwaitQuiet(s, w, AwaitRefs(s, w));
  }

  lemma FreshListInv(s: State, s2: State, w: XID, conds: seq<WaitCondition>)
    requires ListInv(s) && Linked(s2) && Settled(s2)
    requires forall v :: v in s2.awaits && v != w ==> v in s.awaits && s2.awaits[v] == s.awaits[v]
    requires w in s2.awaits && FreshConditions(s2.awaits[w], conds)
    ensures ListInv(s2)
  {
  }

  lemma {:induction false} AddConditionsQuiet(s: State, w: XID, conds: seq<WaitCondition>, clock: map<XID, Int64>)
    requires ListInv(s) && Placed(s) && w in s.awaits && FreshConditions(s.awaits[w], conds)
    requires QuiescentExcept(s, AwaitRefs(s, w))
    ensures var (rc, s') := AddConditions(s, w, conds, clock);
      && Placed(s')
      && (if rc == Success then w in s'.awaits && QuiescentExcept(s', AwaitRefs(s', w)) else Quiescent(s'))
    decreases |conds|
  {
    hide InitTrigger, FreeAwait, LinkedExcept, QuiescentExcept, Placed, PlacedBut, AwaitsDistinct, Settled;
    if conds == [] {
    } else if conds[0].counter == NONE {
      assert PlacedBut(s, w) by { PlacedPlacedBut(s, w); }
      AbandonAwaitQuiet(s, w);
    } else {
      var cond := Condition(Trigger(NONE, conds[0].valueType, conds[0].waitValue, conds[0].testType, PosComparison, 0),
                            conds[0].threshold);
      var rc, s2 := AddConditionLinked(s, w, conds, cond, clock);
      AddConditionQuiet(s, w, conds, cond, clock);
      hide FreshConditions;
      if rc != Success {
        AbandonAwaitQuiet(s2, w);
      } else {
        FreshListInv(s, s2, w, conds[1..]);
        AddConditionsQuiet(s2, w, conds[1..], clock);
      }
    }
  }

  lemma PlacedPlacedBut(s: State, w: XID)
    requires Placed(s)
    ensures PlacedBut(s, w)
  {
  }

  /** The epilogue fires the Await unless none of its conditions holds. */
  lemma {:induction false} AwaitEpilogueQuiet(s: State, w: XID, i: nat)
    requires ListInv(s) && Placed(s) && w in s.awaits
    requires QuiescentExcept(s, AwaitRefs(s, w))
    requires forall j :: 0 <= j < i && j < |s.awaits[w].conditions| ==> Quiet(s, AwaitTrigger(w, j))
    ensures Placed(AwaitEpilogue(s, w, i)) && Quiescent(AwaitEpilogue(s, w, i))
    decreases |s.awaits[w].conditions| - i
  {
    if i >= |s.awaits[w].conditions| {
      forall q | Live(s, q) && OnClientCounter(s, q)
        ensures Quiet(s, q)
      {
        if q in AwaitRefs(s, w) { assert q == AwaitTrigger(w, q.index); }
      }
    } else {
      var r := AwaitTrigger(w, i);
      var t := Slot(s, r);
      if Check(s, t, ValueOf(s, t.sync)) {
        var s1 := Emit(s, AwaitEvents(s, w));
        EmitQuiet(s, AwaitEvents(s, w), AwaitRefs(s, w));
        EmitSameLinks(s, AwaitEvents(s, w));
        SameLinksLinked(s, s1, {});
        assert OffUpTo(s, w, 0, {});
        AwaitFiredLinked(s, w, {});
        hide FreeAwait, LinkedExcept, QuiescentExcept;
        FreeAwaitQuiet(s1, w, AwaitRefs(s1, w));
      } else {
        assert Quiet(s, r);
        hide ListInv, QuiescentExcept, Quiet, Placed;
        AwaitEpilogueQuiet(s, w, i + 1);
      }
    }
  }

  lemma AwaitRequestWaitInv(s: State, client: Client, w: XID, conds: seq<WaitCondition>, clock: map<XID, Int64>)
    requires WaitInv(s)
    requires forall i, j :: 0 <= i < j < |conds| ==> conds[i].counter != conds[j].counter
    ensures WaitInv(AwaitRequest(s, client, w, conds, clock).1)
  {
    AwaitRequestListInv(s, client, w, conds, clock);
    if conds != [] && !InUse(s, w) {
      var s0 := s.(awaits := s.awaits[w := Await(client, [])]);
      EmptyAwaitWaitInv(s, client, w);
      AddConditionsLinked(s0, w, conds, clock);
      AddConditionsQuiet(s0, w, conds, clock);
      var (rc, s1) := AddConditions(s0, w, conds, clock);
      hide AddConditions, LinkedExcept, AwaitEpilogue, QuiescentExcept;
      if rc == Success {
        assert ListInv(s1);
        EmitWaitInv(s1, w, [IgnoreClient(client)]);
        AwaitEpilogueQuiet(Emit(s1, [IgnoreClient(client)]), w, 0);
      }
    }
  }

  lemma EmptyAwaitWaitInv(s: State, client: Client, w: XID)
    requires WaitInv(s) && !InUse(s, w)
    ensures var s0 := s.(awaits := s.awaits[w := Await(client, [])]);
      ListInv(s0) && Placed(s0) && QuiescentExcept(s0, AwaitRefs(s0, w))
  {
    var s0 := s.(awaits := s.awaits[w := Await(client, [])]);
    assert forall q :: Live(s0, q) == Live(s, q);
    assert forall q :: Live(s, q) ==> Slot(s0, q) == Slot(s, q);
    forall q | Live(s0, q) && OnClientCounter(s0, q)
      ensures Quiet(s0, q)
    {
      assert OnClientCounter(s, q);
    }
    assert Linked(s0);
  }

  lemma EmitWaitInv(s: State, w: XID, o: seq<Output>)
    requires ListInv(s) && Placed(s) && w in s.awaits && QuiescentExcept(s, AwaitRefs(s, w))
    ensures var s' := Emit(s, o); ListInv(s') && Placed(s') && QuiescentExcept(s', AwaitRefs(s', w))
  {
    EmitSameLinks(s, o);
    SameLinksLinked(s, Emit(s, o), {});
    EmitQuiet(s, o, AwaitRefs(s, w));
    hide LinkedExcept, QuiescentExcept;
  }

  // ---------- Alarms ----------

  ghost predicate ActiveAlarm(s: State, a: XID) {
    a in s.alarms && s.alarms[a].state == Active
  }

  ghost predicate PlacedButAlarm(s: State, a: XID) {
    && (forall b :: b in s.alarms && b != a ==> AlarmPlaced(s.alarms[b]))
    && (forall v :: v in s.awaits ==> AwaitPlaced(s.awaits[v]))
  }

  lemma QuietAlarmFields(s: State, a: XID, al: Alarm)
    requires QuiescentExcept(s, {AlarmTrigger(a)})
    ensures QuiescentExcept(SetAlarm(s, a, al), {AlarmTrigger(a)})
  {
    var s' := SetAlarm(s, a, al);
    forall q | Live(s', q) && q !in {AlarmTrigger(a)} && OnClientCounter(s', q)
      ensures Quiet(s', q)
    {
      assert q != AlarmTrigger(a);
      assert Live(s, q) && Slot(s', q) == Slot(s, q) && OnClientCounter(s, q);
      assert Quiet(s, q);
    }
  }

  lemma InitAlarmQuiet(s: State, a: XID, syncObject: XID, ch: Changes, clock: map<XID, Int64>)
    requires a in s.alarms && QuiescentExcept(s, {AlarmTrigger(a)})
    ensures QuiescentExcept(InitTrigger(s, AlarmTrigger(a), syncObject, ch, clock).1, {AlarmTrigger(a)})
  {
    var t := InitTriggerShape(s, AlarmTrigger(a), syncObject, ch, clock);
    var s2 := InitTrigger(s, AlarmTrigger(a), syncObject, ch, clock).1;
    hide InitTrigger;
    QueryFrameQuiet(s, s2, {AlarmTrigger(a)});
  }

  /** Same alarm as far as triggers go. */
  lemma EventFieldsWaitInv(s: State, a: XID, al: Alarm)
    requires WaitInv(s) && a in s.alarms
    requires al == s.alarms[a].(events := al.events, eventClients := al.eventClients)
    ensures WaitInv(SetAlarm(s, a, al))
  {
    SetAlarmListInv(s, a, al);
    var s' := SetAlarm(s, a, al);
    hide ListInv;
    forall q | Live(s', q) && OnClientCounter(s', q)
      ensures Quiet(s', q)
    {
      assert Live(s, q) && Slot(s', q) == Slot(s, q) && OnClientCounter(s, q);
      assert Quiet(s, q);
    }
  }

  /** Whatever becomes of the change, other alarms and all awaits stay as they are. */
  lemma ChangeAttributesOthers(s: State, client: Client, a: XID, attrs: AlarmAttributes, clock: map<XID, Int64>)
    requires a in s.alarms && PlacedButAlarm(s, a) && QuiescentExcept(s, {AlarmTrigger(a)})
    ensures var s' := ChangeAlarmAttributes(s, client, a, attrs, clock).1;
      PlacedButAlarm(s', a) && QuiescentExcept(s', {AlarmTrigger(a)})
  {
    var al := if attrs.events.Some? then EventSelect(s.alarms[a], client, attrs.events.value == 1) else s.alarms[a];
    var al1 := al.(delta := Get(attrs.delta, al.delta), trigger := WithAttributes(al.trigger, attrs));
    var s1 := SetAlarm(s, a, al1);
    var syncObject := Get(attrs.counter, al.trigger.sync);
    hide EventSelect, InitTrigger, QuiescentExcept, PlacedButAlarm, CheckAttributes, WithAttributes, ChangesOf, SetAlarm;
    OneAlarmOthers(s, a, al);
    OneAlarmOthers(s, a, al1);
    SetAlarmHas(s, a, al1);
    InitAlarmQuiet(s1, a, syncObject, ChangesOf(attrs), clock);
    InitAlarmOthers(s1, a, syncObject, ChangesOf(attrs), clock);
    var s2 := InitTrigger(s1, AlarmTrigger(a), syncObject, ChangesOf(attrs), clock).1;
    OneAlarmOthers(s2, a, s2.alarms[a].(state := Active));
  }

  lemma SetAlarmHas(s: State, a: XID, al: Alarm)
    ensures a in SetAlarm(s, a, al).alarms
  {
  }

  lemma OneAlarmOthers(s: State, a: XID, al: Alarm)
    requires PlacedButAlarm(s, a) && QuiescentExcept(s, {AlarmTrigger(a)})
    ensures PlacedButAlarm(SetAlarm(s, a, al), a) && QuiescentExcept(SetAlarm(s, a, al), {AlarmTrigger(a)})
  {
    hide AlarmPlaced, AwaitPlaced, QuiescentExcept;
    QuietAlarmFields(s, a, al);
  }

  lemma InitAlarmOthers(s: State, a: XID, syncObject: XID, ch: Changes, clock: map<XID, Int64>)
    requires a in s.alarms && PlacedButAlarm(s, a)
    ensures PlacedButAlarm(InitTrigger(s, AlarmTrigger(a), syncObject, ch, clock).1, a)
  {
    var t := InitTriggerShape(s, AlarmTrigger(a), syncObject, ch, clock);
    hide InitTrigger, QueryFrame, AlarmPlaced, AwaitPlaced;
  }

  lemma ChangeAttributesActive(s: State, client: Client, a: XID, attrs: AlarmAttributes, clock: map<XID, Int64>)
    requires a in s.alarms && ChangeAlarmAttributes(s, client, a, attrs, clock).0 == Success
    ensures ActiveAlarm(ChangeAlarmAttributes(s, client, a, attrs, clock).1, a)
  {
    hide CheckAttributes, EventSelect, InitTrigger;
  }

  lemma ReadyFired(s: State, a: XID)
    requires ListInv(s) && ActiveAlarm(s, a) && PlacedButAlarm(s, a) && QuiescentExcept(s, {AlarmTrigger(a)})
    ensures WaitInv(AlarmFired(s, a))
  {
    AlarmFiredListInv(s, a);
    AlarmFiredFrame(s, a);
    if s.alarms[a].trigger.sync != NONE { assert OnItsList(s, AlarmTrigger(a)); }
    AlarmFiredQuiet(s, a);
    var s' := AlarmFired(s, a);
    hide AlarmFired, ListInv, LinkedExcept;
    forall q | Live(s', q) && OnClientCounter(s', q)
      ensures Quiet(s', q)
    {
      if q != AlarmTrigger(a) {
        assert Live(s, q) && Slot(s', q) == Slot(s, q) && q !in {AlarmTrigger(a)};
        assert OnClientCounter(s, q);
        assert Quiet(s, q);
      }
    }
  }

  lemma ReadyWaits(s: State, a: XID)
    requires ListInv(s) && ActiveAlarm(s, a) && PlacedButAlarm(s, a) && QuiescentExcept(s, {AlarmTrigger(a)})
    requires !Check(s, s.alarms[a].trigger, ValueOf(s, s.alarms[a].trigger.sync))
    ensures WaitInv(s)
  {
    forall q | Live(s, q) && OnClientCounter(s, q)
      ensures Quiet(s, q)
    {
      if q != AlarmTrigger(a) { assert q !in {AlarmTrigger(a)}; }
    }
  }

  lemma ReadyWithoutCounter(s: State, a: XID)
    requires ListInv(s) && ActiveAlarm(s, a) && PlacedButAlarm(s, a) && QuiescentExcept(s, {AlarmTrigger(a)})
    requires s.alarms[a].trigger.sync == NONE
    ensures WaitInv(SetAlarm(s, a, s.alarms[a].(state := Inactive)))
  {
    var s' := SetAlarm(s, a, s.alarms[a].(state := Inactive));
    SetAlarmListInv(s, a, s.alarms[a].(state := Inactive));
    hide ListInv;
    forall q | Live(s', q) && OnClientCounter(s', q)
      ensures Quiet(s', q)
    {
      if q != AlarmTrigger(a) {
        assert Live(s, q) && Slot(s', q) == Slot(s, q) && q !in {AlarmTrigger(a)};
        assert OnClientCounter(s, q);
        assert Quiet(s, q);
      }
    }
  }

  /** The alarm waits for a client-created counter, and with this test value its comparison holds. */
  ghost predicate HoldsWith(s: State, al: Alarm, test: Int64) {
    && al.state == Active && al.trigger.sync in s.counters && !IsSystem(s, al.trigger.sync)
    && IsComparison(al.trigger.check)
    && CheckAt(al.trigger.check, s.counters[al.trigger.sync].value, s.counters[al.trigger.sync].value, test)
  }

  /** The request is no ChangeAlarm that SyncInitTrigger refuses after it gave the alarm a test value with which its
    comparison holds. */
  ghost predicate WaitingChange(s: State, req: Request) {
    req.ChangeAlarmReq? && req.id in s.alarms && CheckAttributes(s.alarms[req.id], req.attrs) == Success ==>
      var al := s.alarms[req.id];
      var t, ch := WithAttributes(al.trigger, req.attrs), ChangesOf(req.attrs);
      || InitAccepts(s, t, Get(req.attrs.counter, t.sync), ch, req.clock)
      || !HoldsWith(s, al, RefusedTest(s, t, Get(req.attrs.counter, t.sync), ch, req.clock))
  }

  /** A ChangeAlarm, accepted or refused, leaves the server waiting for good reason exactly then. */
  lemma ChangeAlarmWaitInv(s: State, client: Client, a: XID, attrs: AlarmAttributes, clock: map<XID, Int64>)
    requires WaitInv(s)
    ensures WaitInv(ChangeAlarm(s, client, a, attrs, clock).1) <==> WaitingChange(s, ChangeAlarmReq(client, a, attrs, clock))
    ensures Quiescent(ChangeAlarm(s, client, a, attrs, clock).1) <==> WaitingChange(s, ChangeAlarmReq(client, a, attrs, clock))
  {
    if a in s.alarms {
      var (rc, s1) := ChangeAlarmAttributes(s, client, a, attrs, clock);
      RejectedChange(s, client, a, attrs, clock);
      hide WaitingChange;
      if rc == Success {
        assert QuiescentExcept(s, {AlarmTrigger(a)});
        ChangeAlarmAttributesListInv(s, client, a, attrs, clock);
        ChangeAttributesOthers(s, client, a, attrs, clock);
        ChangeAttributesActive(s, client, a, attrs, clock);
        hide ChangeAlarmAttributes, ListInv, QuiescentExcept, PlacedButAlarm, AlarmFired;
        if Check(s1, s1.alarms[a].trigger, ValueOf(s1, s1.alarms[a].trigger.sync)) {
          ReadyFired(s1, a);
        } else {
          ReadyWaits(s1, a);
        }
      }
    }
  }

  /** A change that succeeds is none of those; one that is refused leaves the server quiescent exactly when it is none. */
  lemma RejectedChange(s: State, client: Client, a: XID, attrs: AlarmAttributes, clock: map<XID, Int64>)
    requires WaitInv(s) && a in s.alarms
    ensures var (rc, s') := ChangeAlarmAttributes(s, client, a, attrs, clock);
      var waiting := WaitingChange(s, ChangeAlarmReq(client, a, attrs, clock));
      && (rc == Success ==> waiting)
      && (rc != Success ==> (WaitInv(s') <==> waiting) && (Quiescent(s') <==> waiting))
  {
    if CheckAttributes(s.alarms[a], attrs) == Success {
      hide WaitingChange, ChangeAlarmAttributes, WaitInv, QuiescentExcept;
      RefusedByInit(s, client, a, attrs, clock);
    } else {
      var al := if attrs.events.Some? then EventSelect(s.alarms[a], client, attrs.events.value == 1) else s.alarms[a];
      EventSelectTrigger(s.alarms[a], client, attrs.events);
      hide CheckAttributes, EventSelect, InitTrigger, WaitInv, QuiescentExcept;
      EventFieldsWaitInv(s, a, al);
      WaitQuiescent(SetAlarm(s, a, al));
      WaitQuiescent(s);
    }
  }

  lemma WaitQuiescent(s: State)
    requires WaitInv(s)
    ensures ListInv(s) && Placed(s) && Quiescent(s)
  {
  }

  /** The test value left depends on the counters only. */
  lemma RefusedTestFrame(s: State, s1: State, t: Trigger, syncObject: XID, ch: Changes, clock: map<XID, Int64>)
    requires s1.counters == s.counters
    ensures RefusedTest(s1, t, syncObject, ch, clock) == RefusedTest(s, t, syncObject, ch, clock)
  {
  }

  lemma RefusedByInit(s: State, client: Client, a: XID, attrs: AlarmAttributes, clock: map<XID, Int64>)
    requires WaitInv(s) && a in s.alarms && CheckAttributes(s.alarms[a], attrs) == Success
    ensures var (rc, s') := ChangeAlarmAttributes(s, client, a, attrs, clock);
      var waiting := WaitingChange(s, ChangeAlarmReq(client, a, attrs, clock));
      && (rc == Success ==> waiting)
      && (rc != Success ==> (WaitInv(s') <==> waiting) && (Quiescent(s') <==> waiting))
  {
    var al := if attrs.events.Some? then EventSelect(s.alarms[a], client, attrs.events.value == 1) else s.alarms[a];
    EventSelectTrigger(s.alarms[a], client, attrs.events);
    assert al.trigger == s.alarms[a].trigger && al.delta == s.alarms[a].delta && al.state == s.alarms[a].state;
    var al1 := al.(delta := Get(attrs.delta, al.delta), trigger := WithAttributes(al.trigger, attrs));
    var s1 := SetAlarm(s, a, al1);
    var syncObject := Get(attrs.counter, al1.trigger.sync);
    hide CheckAttributes, EventSelect, InitAccepts, InitTrigger, ListInv, WaitInv, RefusedTest, QuiescentExcept;
    InitAcceptsFrame(s, s1, al1.trigger, syncObject, ChangesOf(attrs), clock);
    InitAcceptsExactly(s1, AlarmTrigger(a), syncObject, ChangesOf(attrs), clock);
    if InitTrigger(s1, AlarmTrigger(a), syncObject, ChangesOf(attrs), clock).0 != Success {
      var test := RefusedTrigger(s1, AlarmTrigger(a), syncObject, ChangesOf(attrs), clock);
      RefusedTestFrame(s, s1, al1.trigger, syncObject, ChangesOf(attrs), clock);
      WaitQuiescent(s);
      ChangeAlarmAttributesListInv(s, client, a, attrs, clock);
      hide QueryFrame, HoldsWith;
      RefusedAlarm(s, a, al1, test, InitTrigger(s1, AlarmTrigger(a), syncObject, ChangesOf(attrs), clock).1);
    }
  }

  lemma QuietListInv(s: State)
    requires QuietInv(s)
    ensures ListInv(s)
  {
  }

  /** The alarm of a refused change waits with the test value the refusal left. */
  lemma RefusedAlarm(s: State, a: XID, al1: Alarm, test: Int64, s2: State)
    requires WaitInv(s) && a in s.alarms && ListInv(s2) && QueryFrame(SetAlarm(s, a, al1), s2) && s2.awaits == s.awaits
    requires s2.alarms == SetAlarm(s, a, al1).alarms[a := al1.(trigger := al1.trigger.(testValue := test))]
    requires al1.state == s.alarms[a].state
    requires var t, t1 := s.alarms[a].trigger, al1.trigger;
      t1 == t.(valueType := t1.valueType, waitValue := t1.waitValue, testType := t1.testType)
    ensures WaitInv(s2) <==> !HoldsWith(s, s.alarms[a], test)
    ensures Quiescent(s2) <==> !HoldsWith(s, s.alarms[a], test)
  {
    hide ListInv;
    var r := AlarmTrigger(a);
    if HoldsWith(s, s.alarms[a], test) {
      assert Live(s2, r) && OnClientCounter(s2, r) && !Quiet(s2, r);
    } else {
      forall q | Live(s2, q) && OnClientCounter(s2, q)
        ensures Quiet(s2, q)
      {
        assert Live(s, q) && OnClientCounter(s, q) && Slot(s2, q).sync == Slot(s, q).sync;
        assert Quiet(s, q);
      }
    }
  }

  lemma CreateAlarmWaitInv(s: State, client: Client, a: XID, attrs: AlarmAttributes, clock: map<XID, Int64>)
    requires WaitInv(s)
    ensures WaitInv(CreateAlarm(s, client, a, attrs, clock).1)
  {
    if !InUse(s, a) {
      var s0 := SetAlarm(s, a, NewAlarm(client));
      SetAlarmListInv(s, a, NewAlarm(client));
      QuietAlarmFields(s, a, NewAlarm(client));
      var (rc, s1) := ChangeAlarmAttributes(s0, client, a, attrs, clock);
      ChangeAlarmAttributesListInv(s0, client, a, attrs, clock);
      ChangeAttributesOthers(s0, client, a, attrs, clock);
      if rc == Success {
        ChangeAttributesActive(s0, client, a, attrs, clock);
        hide ChangeAlarmAttributes, ListInv, QuiescentExcept, PlacedButAlarm, AlarmFired;
        if s1.alarms[a].trigger.sync == NONE {
          ReadyWithoutCounter(s1, a);
        } else if Check(s1, s1.alarms[a].trigger, ValueOf(s1, s1.alarms[a].trigger.sync)) {
          ReadyFired(s1, a);
        } else {
          ReadyWaits(s1, a);
        }
      } else {
        CreateAlarmListInv(s, client, a, attrs, clock);
        hide ChangeAlarmAttributes, ListInv;
        RemovedAlarmQuiet(s1, a);
      }
    }
  }

  lemma RemovedAlarmQuiet(s: State, a: XID)
    requires PlacedButAlarm(s, a) && QuiescentExcept(s, {AlarmTrigger(a)})
    ensures Placed(s.(alarms := s.alarms - {a})) && Quiescent(s.(alarms := s.alarms - {a}))
  {
    var s' := s.(alarms := s.alarms - {a});
    forall q | Live(s', q) && OnClientCounter(s', q)
      ensures Quiet(s', q)
    {
      assert Live(s, q) && Slot(s', q) == Slot(s, q) && q !in {AlarmTrigger(a)};
      assert OnClientCounter(s, q);
      assert Quiet(s, q);
    }
  }

  // ---------- All requests ----------

  /** Changes to system counters alone, to lists of clients and to dead clients wake nothing. */
  lemma SystemOnlyWaitInv(s: State, s': State)
    requires WaitInv(s) && QueryFrame(s, s') && s'.alarms == s.alarms && s'.awaits == s.awaits
    requires SameLinks(s, s')
    ensures WaitInv(s')
  {
    SameListInv(s, s');
    hide ListInv, SameLinks;
    forall q | Live(s', q)
      ensures Live(s, q) && Slot(s', q) == Slot(s, q) && Armed(s', q) == Armed(s, q)
    {
    }
    QueryFrameQuiet(s, s', {});
  }

  lemma NewCounterWaitInv(s: State, c: XID, k: Counter)
    requires WaitInv(s) && !InUse(s, c) && k.triglist == [] && !k.beingDestroyed
    ensures WaitInv(SetCounter(s, c, k))
  {
    NewCounterLinked(s, c, k);
    var s' := SetCounter(s, c, k);
    SetCounterFrame(s, c, k);
    forall q | Live(s', q) && OnClientCounter(s', q)
      ensures Quiet(s', q)
    {
      if Slot(s, q).sync != NONE { assert OnItsList(s, q); }
      assert OnClientCounter(s, q);
      assert Quiet(s, q);
    }
  }

  /** From a server where what waits has a reason to, a request leads to another one exactly when it is no such refused
    change. */
  lemma StepWaitInv(s: State, req: Request)
    requires WaitInv(s) && DistinctCounters(req)
    ensures WaitInv(Step(s, req).1) <==> WaitingChange(s, req)
  {
    hide ChangeCounter, FreeCounter, AwaitRequest, CreateAlarm, ChangeAlarm, FreeAlarm, FreeAwait,
         ListInv, Placed, QuiescentExcept, SameLinks, InitAccepts, RefusedTest, HoldsWith;
    match req {
      case CreateCounter(id, v) =>
        if !InUse(s, id) { NewCounterWaitInv(s, id, Counter(v, [], false, None)); }
      case SetCounterRequest(id, v) =>
        if id in s.counters { ChangeCounterWaitInv(s, id, v); }
      case ChangeCounterRequest(id, amount) =>
        if id in s.counters && CheckedAdd(amount, s.counters[id].value).Some? {
          ChangeCounterWaitInv(s, id, CheckedAdd(amount, s.counters[id].value).value);
        }
      case DestroyCounter(id) =>
        if id in s.counters { FreeCounterWaitInv(s, id); }
      case AwaitReq(client, id, conds, clock) => AwaitRequestWaitInv(s, client, id, conds, clock);
      case CreateAlarmReq(client, id, attrs, clock) => CreateAlarmWaitInv(s, client, id, attrs, clock);
      case ChangeAlarmReq(client, id, attrs, clock) => ChangeAlarmWaitInv(s, client, id, attrs, clock);
      case DestroyAlarm(id) =>
        if id in s.alarms { FreeAlarmWaitInv(s, id); }
      case QueryCounter(id, clock) =>
        QueryValueSameLinks(s, id, clock);
        QueryValueFrame(s, id, clock);
        SystemOnlyWaitInv(s, QueryValue(s, id, clock));
      case FreeAwaitResource(id) =>
        if id in s.awaits { FreeAwaitWaitInv(s, id); }
      case FreeAlarmClient(id, client) =>
        if id in s.alarms {
          EventFieldsWaitInv(s, id, s.alarms[id].(eventClients := Without(s.alarms[id].eventClients, client)));
        }
      case ClientGone(client) =>
        GoneSameLinks(s, client);
        SystemOnlyWaitInv(s, s.(gone := s.gone + {client}));
      case CreateSystemCounter(id, v, ct) =>
        if !InUse(s, id) {
          NewCounterWaitInv(s, id, Counter(v, [], false, Some(SysInfo(ct, INT64_MIN, INT64_MAX, false, false))));
        }
      case SystemTick(id, v) =>
        if id in s.counters { ChangeCounterWaitInv(s, id, v); }
      case SystemUpdate(id, v) =>
        if IsSystem(s, id) {
          UpdateCounterSameLinks(s, id, v);
          SystemOnlyWaitInv(s, UpdateCounter(s, id, v));
        }
      case DestroySystemCounter(id) =>
        if id in s.counters { FreeCounterWaitInv(s, id); }
    }
  }

  /** In a quiet server a harmless change leaves no test value with which the comparison holds. */
  lemma HarmlessWaits(s: State, req: Request)
    requires QuietInv(s) && HarmlessChange(s, req)
    ensures WaitingChange(s, req)
  {
    if req.ChangeAlarmReq? && req.id in s.alarms && CheckAttributes(s.alarms[req.id], req.attrs) == Success {
      var al := s.alarms[req.id];
      var t, ch := WithAttributes(al.trigger, req.attrs), ChangesOf(req.attrs);
      if !InitAccepts(s, t, Get(req.attrs.counter, t.sync), ch, req.clock) {
        RefusedTestKept(s, t, Get(req.attrs.counter, t.sync), ch, req.clock);
        assert AlarmTyped(al);
        hide InitAccepts, CheckAttributes, RefusedTest, ListInv, Placed;
        assert Quiet(s, AlarmTrigger(req.id)) || IsSystem(s, al.trigger.sync);
      }
    }
  }

  /** With a test-type that exists a refusal leaves the old test value. */
  lemma RefusedTestKept(s: State, t: Trigger, syncObject: XID, ch: Changes, clock: map<XID, Int64>)
    requires CheckFnOf(t.testType).Some? && !InitAccepts(s, t, syncObject, ch, clock)
    ensures RefusedTest(s, t, syncObject, ch, clock) == t.testValue
  {
  }

  /** A request keeps all of that, the check functions of the test-types and the sign rule for delta included, exactly
    when it is harmless. */
  lemma StepQuietInv(s: State, req: Request)
    requires QuietInv(s) && DistinctCounters(req)
    ensures QuietInv(Step(s, req).1) <==> HarmlessChange(s, req)
  {
    QuietParts(s);
    hide Step, HarmlessChange, WaitingChange, WaitInv, ListInv, Typed, DistinctCounters;
    StepWaitInv(s, req);
    StepTyped(s, req);
    if HarmlessChange(s, req) { HarmlessWaits(s, req); }
  }

  lemma QuietParts(s: State)
    requires QuietInv(s)
    ensures WaitInv(s) && ListInv(s) && Typed(s)
  {
  }

  // ---------- Runs ----------

  /** What waits has a reason to, at the start of the run and after each of its requests. */
  ghost predicate AlwaysWaiting(s: State, reqs: seq<Request>)
    decreases |reqs|
  {
    WaitInv(s) && (reqs == [] || AlwaysWaiting(Step(s, reqs[0]).1, reqs[1..]))
  }

  /** No request of the run is a refused ChangeAlarm that leaves a test value with which a comparison holds, or an Await
    with a repeated counter. */
  ghost predicate WaitingRun(s: State, reqs: seq<Request>)
    decreases |reqs|
  {
    reqs == [] ||
    (DistinctCounters(reqs[0]) && WaitingChange(s, reqs[0]) && WaitingRun(Step(s, reqs[0]).1, reqs[1..]))
  }

  /** In a run with distinct counters in each Await what waits has a reason to throughout, exactly when no request is such
    a refused change. */
  lemma {:induction false} RunWaitInv(s: State, reqs: seq<Request>)
    requires WaitInv(s) && forall i :: 0 <= i < |reqs| ==> DistinctCounters(reqs[i])
    ensures AlwaysWaiting(s, reqs) <==> WaitingRun(s, reqs)
    ensures WaitingRun(s, reqs) ==> WaitInv(Run(s, reqs))
    decreases |reqs|
  {
    if reqs != [] {
      hide Step, WaitInv, WaitingChange, DistinctCounters;
      StepWaitInv(s, reqs[0]);
      assert DistinctCounters(reqs[0]);
      if WaitingChange(s, reqs[0]) {
        RunWaitInv(Step(s, reqs[0]).1, reqs[1..]);
      }
    }
  }

  /** No request of the run is a ChangeAlarm that SyncInitTrigger refuses after another test-type was written, or an
    Await with a repeated counter. */
  ghost predicate OrderlyRun(s: State, reqs: seq<Request>)
    decreases |reqs|
  {
    reqs == [] ||
    (DistinctCounters(reqs[0]) && HarmlessChange(s, reqs[0]) && OrderlyRun(Step(s, reqs[0]).1, reqs[1..]))
  }

  /** The server is quiet at the start of the run and after each of its requests. */
  ghost predicate AlwaysQuiet(s: State, reqs: seq<Request>)
    decreases |reqs|
  {
    QuietInv(s) && (reqs == [] || AlwaysQuiet(Step(s, reqs[0]).1, reqs[1..]))
  }

  /** A run from a quiet state, with distinct counters in each Await, is quiet throughout exactly when it is orderly. */
  lemma {:induction false} RunQuietInv(s: State, reqs: seq<Request>)
    requires QuietInv(s) && forall i :: 0 <= i < |reqs| ==> DistinctCounters(reqs[i])
    ensures AlwaysQuiet(s, reqs) <==> OrderlyRun(s, reqs)
    ensures OrderlyRun(s, reqs) ==> QuietInv(Run(s, reqs))
    decreases |reqs|
  {
    if reqs != [] {
      hide Step, QuietInv, HarmlessChange, DistinctCounters;
      StepQuietInv(s, reqs[0]);
      assert DistinctCounters(reqs[0]);
      if HarmlessChange(s, reqs[0]) {
        RunQuietInv(Step(s, reqs[0]).1, reqs[1..]);
      }
    }
  }

  lemma {:induction false} OrderlyDistinct(s: State, reqs: seq<Request>)
    requires OrderlyRun(s, reqs)
    ensures forall i :: 0 <= i < |reqs| ==> DistinctCounters(reqs[i])
    decreases |reqs|
  {
    if reqs != [] {
      hide DistinctCounters, HarmlessChange;
      OrderlyDistinct(Step(s, reqs[0]).1, reqs[1..]);
      forall i | 0 <= i < |reqs|
        ensures DistinctCounters(reqs[i])
      {
        if i > 0 { assert reqs[i] == reqs[1..][i - 1]; }
      }
    }
  }

  lemma {:induction false} WaitingDistinct(s: State, reqs: seq<Request>)
    requires WaitingRun(s, reqs)
    ensures forall i :: 0 <= i < |reqs| ==> DistinctCounters(reqs[i])
    decreases |reqs|
  {
    if reqs != [] {
      hide DistinctCounters, WaitingChange;
      WaitingDistinct(Step(s, reqs[0]).1, reqs[1..]);
      forall i | 0 <= i < |reqs|
        ensures DistinctCounters(reqs[i])
      {
        if i > 0 { assert reqs[i] == reqs[1..][i - 1]; }
      }
    }
  }

  /** In every state such a run reaches: no pending Await has a comparison that holds, each
    active alarm has a counter, and its comparison, if its check is one, does not hold. */
  lemma ReachableQuiet(reqs: seq<Request>)
    requires WaitingRun(INITIAL, reqs)
    ensures forall w, i :: w in Run(INITIAL, reqs).awaits && 0 <= i < |Run(INITIAL, reqs).awaits[w].conditions| ==>
      WaitsQuietly(Run(INITIAL, reqs), Run(INITIAL, reqs).awaits[w].conditions[i].trigger)
    ensures forall a :: a in Run(INITIAL, reqs).alarms && Run(INITIAL, reqs).alarms[a].state == Active ==>
      WaitsQuietly(Run(INITIAL, reqs), Run(INITIAL, reqs).alarms[a].trigger)
  {
    WaitingDistinct(INITIAL, reqs);
    RunWaitInv(INITIAL, reqs);
    var s := Run(INITIAL, reqs);
    hide Run, WaitingRun;
    forall w, i | w in s.awaits && 0 <= i < |s.awaits[w].conditions|
      ensures WaitsQuietly(s, s.awaits[w].conditions[i].trigger)
    {
      assert OnItsList(s, AwaitTrigger(w, i));
      if OnClientCounter(s, AwaitTrigger(w, i)) { assert Quiet(s, AwaitTrigger(w, i)); }
    }
    forall a | a in s.alarms && s.alarms[a].state == Active
      ensures WaitsQuietly(s, s.alarms[a].trigger)
    {
      assert OnItsList(s, AlarmTrigger(a));
      if OnClientCounter(s, AlarmTrigger(a)) { assert Quiet(s, AlarmTrigger(a)); }
    }
  }

  /** The trigger has a counter; on a client-created counter the comparison that is checked does not hold. */
  ghost predicate WaitsQuietly(s: State, t: Trigger) {
    && t.sync in s.counters
    && (!IsSystem(s, t.sync) && t.check == PosComparison ==> s.counters[t.sync].value < t.testValue)
    && (!IsSystem(s, t.sync) && t.check == NegComparison ==> s.counters[t.sync].value > t.testValue)
  }

  // ---------- What the test-type says ----------

  /** On a client-created counter the comparison that the test-type names holds. */
  ghost predicate HoldsAsTyped(s: State, t: Trigger) {
    && t.sync in s.counters && !IsSystem(s, t.sync)
    && (|| (t.testType == POSITIVE_COMPARISON && s.counters[t.sync].value >= t.testValue)
        || (t.testType == NEGATIVE_COMPARISON && s.counters[t.sync].value <= t.testValue))
  }

  /** No active alarm or pending Await shows a comparison that holds. */
  ghost predicate QuietAsTyped(s: State) {
    forall r :: Armed(s, r) ==> !HoldsAsTyped(s, Slot(s, r))
  }

  /** What is checked and what is shown agree in a quiet server. */
  lemma QuietShows(s: State)
    requires QuietInv(s)
    ensures QuietAsTyped(s)
  {
    forall r | Armed(s, r)
      ensures !HoldsAsTyped(s, Slot(s, r))
    {
      assert TriggerOk(Slot(s, r));
      if OnClientCounter(s, r) { assert Quiet(s, r); }
    }
  }

  /** After a refused ChangeAlarm they may differ: what is shown is quiet exactly when the alarm is not active, or the
    new test-type and the test value left make no comparison that holds. */
  lemma RefusedShows(s: State, client: Client, a: XID, attrs: AlarmAttributes, clock: map<XID, Int64>)
    requires QuietInv(s) && a in s.alarms && CheckAttributes(s.alarms[a], attrs) == Success
    requires ChangeAlarm(s, client, a, attrs, clock).0 != Success
    ensures var t, ch := WithAttributes(s.alarms[a].trigger, attrs), ChangesOf(attrs);
      QuietAsTyped(ChangeAlarm(s, client, a, attrs, clock).1) <==>
        s.alarms[a].state != Active
        || !HoldsAsTyped(s, t.(testValue := RefusedTest(s, t, Get(attrs.counter, t.sync), ch, clock)))
  {
    var al := if attrs.events.Some? then EventSelect(s.alarms[a], client, attrs.events.value == 1) else s.alarms[a];
    EventSelectTrigger(s.alarms[a], client, attrs.events);
    var al1 := al.(delta := Get(attrs.delta, al.delta), trigger := WithAttributes(al.trigger, attrs));
    var s1 := SetAlarm(s, a, al1);
    var syncObject := Get(attrs.counter, al1.trigger.sync);
    hide CheckAttributes, EventSelect, InitTrigger, QuietInv, RefusedTest, QuietAsTyped, QueryFrame;
    var test := RefusedTrigger(s1, AlarmTrigger(a), syncObject, ChangesOf(attrs), clock);
    RefusedTestFrame(s, s1, al1.trigger, syncObject, ChangesOf(attrs), clock);
    QuietShows(s);
    RefusedShown(s, a, al1, test, InitTrigger(s1, AlarmTrigger(a), syncObject, ChangesOf(attrs), clock).1);
  }

  lemma RefusedShown(s: State, a: XID, al1: Alarm, test: Int64, s2: State)
    requires QuietAsTyped(s) && a in s.alarms && QueryFrame(SetAlarm(s, a, al1), s2) && s2.awaits == s.awaits
    requires s2.alarms == SetAlarm(s, a, al1).alarms[a := al1.(trigger := al1.trigger.(testValue := test))]
    requires al1.state == s.alarms[a].state
    ensures QuietAsTyped(s2) <==> s.alarms[a].state != Active || !HoldsAsTyped(s, al1.trigger.(testValue := test))
  {
    var r := AlarmTrigger(a);
    assert Armed(s2, r) <==> s.alarms[a].state == Active;
    assert HoldsAsTyped(s2, Slot(s2, r)) <==> HoldsAsTyped(s, al1.trigger.(testValue := test));
    forall q | q != r
      ensures Armed(s2, q) == Armed(s, q)
      ensures Armed(s, q) ==> HoldsAsTyped(s2, Slot(s2, q)) == HoldsAsTyped(s, Slot(s, q))
    {
    }
    hide Armed, HoldsAsTyped, Slot;
  }

  // ---------- A change that is not harmless ----------

  const NO_ATTRIBUTES := AlarmAttributes(None, None, None, None, None, None, false)

  /** A counter at 10, an alarm that waits for it to reach 20, and a ChangeAlarm to value 5
    with the test-type 9, which does not exist. */
  const REFUSED_CHANGE: seq<Request> :=
    [ CreateCounter(1, 10),
      CreateAlarmReq(0, 2, NO_ATTRIBUTES.(counter := Some(1), value := Some(20)), map[]),
      ChangeAlarmReq(0, 2, NO_ATTRIBUTES.(value := Some(5), testType := Some(9)), map[]) ]

  /** The alarm before it is changed. */
  const FOR_20 := State(map[1 := Counter(10, [AlarmTrigger(2)], false, None)],
    map[2 := NewAlarm(0).(trigger := NEW_TRIGGER.(sync := 1, waitValue := 20, testValue := 20), state := Active)], map[], {}, [])

  lemma For20Reached()
    ensures Run(INITIAL, REFUSED_CHANGE[..2]) == FOR_20
  {
    var s1 := SetCounter(INITIAL, 1, Counter(10, [], false, None));
    hide CreateAlarm;
    assert Step(INITIAL, REFUSED_CHANGE[0]).1 == s1;
    assert Step(s1, REFUSED_CHANGE[1]).1 == FOR_20 by { CreatedAlarm(s1, FOR_20); }
    assert REFUSED_CHANGE[..2] == [REFUSED_CHANGE[0], REFUSED_CHANGE[1]];
    assert REFUSED_CHANGE[..2][1..] == [REFUSED_CHANGE[1]];
    assert Run(s1, [REFUSED_CHANGE[1]]) == Run(FOR_20, []);
  }

  /** SyncChangeAlarmAttributes writes the alarm before SyncInitTrigger has accepted the change:
    the refused request leaves an active alarm whose test 10 >= 5 holds and that did not fire. */
  lemma RefusedChangeIsNotQuiet()
    ensures var s2 := Run(INITIAL, REFUSED_CHANGE[..2]);
      var (rc, s3) := Step(s2, REFUSED_CHANGE[2]);
      rc == BadValue && Armed(s3, AlarmTrigger(2)) && !WaitsQuietly(s3, Slot(s3, AlarmTrigger(2)))
  {
    For20Reached();
    hide Run, Step;
    RefusedOnce(FOR_20);
  }

  lemma RefusedOnce(s2: State)
    requires s2 == FOR_20
    ensures var (rc, s3) := Step(s2, REFUSED_CHANGE[2]);
      rc == BadValue && Armed(s3, AlarmTrigger(2)) && !WaitsQuietly(s3, Slot(s3, AlarmTrigger(2)))
  {
    var r := AlarmTrigger(2);
    var al3 := s2.alarms[2].(trigger := s2.alarms[2].trigger.(waitValue := 5, testType := 9));
    assert InitChecks(SetAlarm(s2, 2, al3), r, 1, Changes(false, false, true, true), map[])
        == (BadValue, SetSlot(SetAlarm(s2, 2, al3), r, al3.trigger.(testValue := 5)));
  }

  lemma CreatedAlarm(s1: State, s2: State)
    requires s1 == SetCounter(INITIAL, 1, Counter(10, [], false, None))
    requires s2 == State(map[1 := Counter(10, [AlarmTrigger(2)], false, None)],
      map[2 := NewAlarm(0).(trigger := NEW_TRIGGER.(sync := 1, waitValue := 20, testValue := 20), state := Active)], map[], {}, [])
    ensures Step(s1, REFUSED_CHANGE[1]) == (Success, s2)
  {
    var r := AlarmTrigger(2);
    var attrs := NO_ATTRIBUTES.(counter := Some(1), value := Some(20));
    var s0 := SetAlarm(s1, 2, NewAlarm(0));
    var al := NewAlarm(0).(trigger := NEW_TRIGGER.(waitValue := 20));
    var s3 := SetAlarm(s0, 2, al);
    var s4 := SetSlot(s3, r, al.trigger.(testValue := 20));
    assert InitChecks(s3, r, 1, ChangesOf(attrs), map[]) == (Success, s4);
    var s5 := Relink(s4, r, 1);
    assert DeleteTrigger(s4, r) == s4;
    var s4' := SetSlot(s4, r, Slot(s4, r).(sync := 1));
    assert s4'.counters[1] == Counter(10, [], false, None) && [r] + [] == [r];
    assert AddTrigger(s4', r) == SetCounter(s4', 1, Counter(10, [r], false, None));
    assert s5.counters == map[1 := Counter(10, [r], false, None)];
    var (rc, s6) := ChangeAlarmAttributes(s0, 0, 2, attrs, map[]);
    assert rc == Success && s6 == s2;
  }

  /** An alarm for 20 or more on a counter at 10, and a ChangeAlarm to 20 or less with a counter that does not exist. */
  const MISTYPED_CHANGE: Request :=
    ChangeAlarmReq(0, 2, NO_ATTRIBUTES.(counter := Some(7), testType := Some(NEGATIVE_COMPARISON), delta := Some(-1)), map[])

  /** It is refused, and leaves an active alarm that shows the comparison 10 <= 20 and goes on checking 10 >= 20. */
  lemma MistypedChangeShows()
    ensures var s2 := Run(INITIAL, REFUSED_CHANGE[..2]);
      var (rc, s3) := Step(s2, MISTYPED_CHANGE);
      && rc == BadCounter && Armed(s3, AlarmTrigger(2)) && Quiet(s3, AlarmTrigger(2))
      && HoldsAsTyped(s3, Slot(s3, AlarmTrigger(2)))
  {
    For20Reached();
    hide Run;
    var al := FOR_20.alarms[2];
    var al3 := al.(delta := -1, trigger := al.trigger.(testType := NEGATIVE_COMPARISON));
    assert InitChecks(SetAlarm(FOR_20, 2, al3), AlarmTrigger(2), 7, Changes(true, false, false, true), map[])
        == (BadCounter, SetAlarm(FOR_20, 2, al3));
  }
}
