/** Exactly which Await requests leave an unrestricted system counter so that it can be checked lazily. */
module SyncAwaitCoverage {
  import opened SyncModel
  import opened SyncLinks
  import opened SyncTypes
  import opened SyncQuiescence
  import opened SyncBrackets
  import opened SyncLazy
  import opened SyncCoverage

  // ---------- The conditions of an accepted request ----------

  function WaitTrigger(cond: WaitCondition): Trigger {
    Trigger(NONE, cond.valueType, cond.waitValue, cond.testType, PosComparison, 0)
  }

  function AcceptedCondition(s: State, cond: WaitCondition, clock: map<XID, Int64>): Condition {
    Condition(AcceptedTrigger(s, WaitTrigger(cond), cond.counter, ALL_CHANGES, clock), cond.threshold)
  }

  /** The conditions as they stand when all of them are accepted. */
  function AcceptedConditions(s: State, conds: seq<WaitCondition>, clock: map<XID, Int64>): (accepted: seq<Condition>)
    ensures |accepted| == |conds|
  {
    if conds == [] then []
    else [AcceptedCondition(s, conds[0], clock)] + AcceptedConditions(s, conds[1..], clock)
  }

  lemma {:induction false} AcceptedAt(s: State, conds: seq<WaitCondition>, clock: map<XID, Int64>, i: nat)
    requires i < |conds|
    ensures AcceptedConditions(s, conds, clock)[i] == AcceptedCondition(s, conds[i], clock)
  {
    hide AcceptedCondition;
    if i > 0 { AcceptedAt(s, conds[1..], clock, i - 1); }
  }

  lemma AcceptedConditionLocal(s: State, s': State, cond: WaitCondition, clock: map<XID, Int64>)
    requires s'.counters.Keys == s.counters.Keys
    requires cond.counter in s.counters ==> s'.counters[cond.counter] == s.counters[cond.counter]
    ensures AcceptedCondition(s', cond, clock) == AcceptedCondition(s, cond, clock)
    ensures Asked(s', cond.counter, clock) == Asked(s, cond.counter, clock)
  {
    hide CheckFnOf;
  }

  lemma {:induction false} AcceptedLocal(s: State, s': State, conds: seq<WaitCondition>, clock: map<XID, Int64>)
    requires s'.counters.Keys == s.counters.Keys
    requires forall j :: 0 <= j < |conds| && conds[j].counter in s.counters ==>
      s'.counters[conds[j].counter] == s.counters[conds[j].counter]
    ensures AcceptedConditions(s', conds, clock) == AcceptedConditions(s, conds, clock)
    decreases |conds|
  {
    if conds != [] {
      AcceptedConditionLocal(s, s', conds[0], clock);
      hide AcceptedCondition;
      AcceptedLocal(s, s', conds[1..], clock);
    }
  }

  // ---------- One condition ----------

  /** Only counter `c` may differ. */
  ghost predicate OnlyCounter(s: State, s': State, c: XID) {
    && s'.counters.Keys == s.counters.Keys
    && forall d :: d in s.counters && d != c ==> s'.counters[d] == s.counters[d]
  }

  lemma RelinkOnly(s: State, r: TriggerRef, c: XID)
    requires Live(s, r) && Slot(s, r).sync == NONE && NONE !in s.counters
    ensures OnlyCounter(s, Relink(s, r, c), c)
  {
    if c != NONE {
      assert DeleteTrigger(s, r) == s;
      SetSlotFrame(s, r, Slot(s, r).(sync := c));
      hide SetSlot;
    }
  }

  /** Initialising a trigger that was on no list touches its new counter only. */
  lemma InitOnly(s: State, r: TriggerRef, c: XID, clock: map<XID, Int64>)
    requires Live(s, r) && Slot(s, r).sync == NONE && NONE !in s.counters
    requires InitTrigger(s, r, c, ALL_CHANGES, clock).0 == Success
    ensures var s' := InitTrigger(s, r, c, ALL_CHANGES, clock).1;
      && OnlyCounter(s, s', c) && ValueOf(s', c) == Asked(s, c, clock)
      && s'.alarms == SetSlot(s, r, AcceptedTrigger(s, Slot(s, r), c, ALL_CHANGES, clock)).alarms
      && s'.awaits == SetSlot(s, r, AcceptedTrigger(s, Slot(s, r), c, ALL_CHANGES, clock)).awaits
  {
    hide InitTrigger, AcceptedTrigger, Relink, SetSlot;
    var s1 := QueryValue(s, c, clock);
    var t := AcceptedTrigger(s, Slot(s, r), c, ALL_CHANGES, clock);
    InitUnfold(s, r, c, ALL_CHANGES, clock);
    var s2 := SetSlot(s1, r, t.(sync := NONE));
    SetSlotFrame(s1, r, t.(sync := NONE));
    RelinkOnly(s2, r, c);
    RelinkFrame(s2, r, c);
    SetSlotTwice(s1, r, t.(sync := NONE), t);
    SetSlotParts(s, s1, r, t);
  }

  /** The state before a condition is initialised. */
  function Appended(s: State, w: XID, cond: WaitCondition): State
    requires w in s.awaits
  {
    var aw := s.awaits[w];
    s.(awaits := s.awaits[w := aw.(conditions := aw.conditions + [Condition(WaitTrigger(cond), cond.threshold)])])
  }

  /** One accepted condition, whatever its counter is. */
  lemma ConditionAdded(s: State, w: XID, cond: WaitCondition, clock: map<XID, Int64>)
    requires Linked(s) && w in s.awaits
    requires InitTrigger(Appended(s, w, cond), AwaitTrigger(w, |s.awaits[w].conditions|), cond.counter, ALL_CHANGES, clock).0 == Success
    ensures var aw, c := s.awaits[w], cond.counter;
      var s2 := InitTrigger(Appended(s, w, cond), AwaitTrigger(w, |aw.conditions|), c, ALL_CHANGES, clock).1;
      && OnlyCounter(s, s2, c) && ValueOf(s2, c) == Asked(s, c, clock) && s2.alarms == s.alarms
      && s2.awaits == s.awaits[w := aw.(conditions := aw.conditions + [AcceptedCondition(s, cond, clock)])]
  {
    var s1, aw := Appended(s, w, cond), s.awaits[w];
    var r := AwaitTrigger(w, |aw.conditions|);
    hide InitTrigger, AcceptedTrigger, LinkedExcept;
    assert NONE !in s.counters by { LinkedNotNone(s); }
    InitOnly(s1, r, cond.counter, clock);
    assert AcceptedTrigger(s1, WaitTrigger(cond), cond.counter, ALL_CHANGES, clock)
        == AcceptedCondition(s, cond, clock).trigger by { AcceptedConditionLocal(s, s1, cond, clock); }
    assert (aw.conditions + [Condition(WaitTrigger(cond), cond.threshold)])[|aw.conditions| := AcceptedCondition(s, cond, clock)]
        == aw.conditions + [AcceptedCondition(s, cond, clock)];
  }

  lemma LinkedNotNone(s: State)
    requires Linked(s)
    ensures NONE !in s.counters
  {
  }

  /** One accepted condition on a system counter without restrictions. */
  lemma ConditionFresh(s: State, w: XID, cond: WaitCondition, clock: map<XID, Int64>)
    requires Linked(s) && w in s.awaits && IsSystem(s, cond.counter)
    requires s.counters[cond.counter].sys.value.counterType == Unrestricted
    requires InitTrigger(Appended(s, w, cond), AwaitTrigger(w, |s.awaits[w].conditions|), cond.counter, ALL_CHANGES, clock).0 == Success
    ensures var r, c := AwaitTrigger(w, |s.awaits[w].conditions|), cond.counter;
      var s2 := InitTrigger(Appended(s, w, cond), r, c, ALL_CHANGES, clock).1;
      && Fresh(s2, c) && s2.counters[c].triglist == [r] + s.counters[c].triglist
  {
    var s1, r, c := Appended(s, w, cond), AwaitTrigger(w, |s.awaits[w].conditions|), cond.counter;
    hide InitTrigger, AcceptedTrigger, Fresh;
    AppendConditionLinked(s, w, Condition(WaitTrigger(cond), cond.threshold));
    assert r !in s.counters[c].triglist;
    hide LinkedExcept;
    InitFresh(s1, r, c, ALL_CHANGES, clock);
  }

  // ---------- All conditions ----------

  ghost predicate Named(conds: seq<WaitCondition>, d: XID) {
    exists j :: 0 <= j < |conds| && conds[j].counter == d
  }

  /** One turn of the loop of ProcSyncAwait, when it succeeds. */
  lemma OneTurn(s: State, w: XID, conds: seq<WaitCondition>, clock: map<XID, Int64>) returns (s2: State)
    requires Linked(s) && Settled(s) && w in s.awaits && FreshConditions(s.awaits[w], conds) && conds != []
    requires AddConditions(s, w, conds, clock).0 == Success
    ensures var r := AwaitTrigger(w, |s.awaits[w].conditions|);
      && InitTrigger(Appended(s, w, conds[0]), r, conds[0].counter, ALL_CHANGES, clock) == (Success, s2)
    ensures w in s2.awaits && AddConditions(s, w, conds, clock) == AddConditions(s2, w, conds[1..], clock)
    ensures Linked(s2) && Settled(s2) && FreshConditions(s2.awaits[w], conds[1..])
    ensures conds[0].counter != NONE
  {
    var cond := Condition(WaitTrigger(conds[0]), conds[0].threshold);
    var rc: Status;
    hide InitTrigger, LinkedExcept, FreshConditions, Settled, FreeAwait;
    rc, s2 := AddConditionLinked(s, w, conds, cond, clock);
  }

  /** What adding the conditions to the Await changes apart from lists and brackets. */
  ghost predicate Added(s: State, s': State, w: XID, conds: seq<WaitCondition>, clock: map<XID, Int64>)
    requires w in s.awaits
  {
    var aw := s.awaits[w];
    && s'.counters.Keys == s.counters.Keys && s'.alarms == s.alarms
    && s'.awaits == s.awaits[w := aw.(conditions := aw.conditions + AcceptedConditions(s, conds, clock))]
    && (forall d :: d in s.counters && !Named(conds, d) ==> s'.counters[d] == s.counters[d])
    && (forall j :: 0 <= j < |conds| ==> ValueOf(s', conds[j].counter) == Asked(s, conds[j].counter, clock))
  }

  lemma {:induction false} AddedAll(s: State, w: XID, conds: seq<WaitCondition>, clock: map<XID, Int64>)
    requires Linked(s) && Settled(s) && w in s.awaits && FreshConditions(s.awaits[w], conds)
    requires AddConditions(s, w, conds, clock).0 == Success
    ensures Added(s, AddConditions(s, w, conds, clock).1, w, conds, clock)
    decreases |conds|
  {
    if conds == [] {
      assert s.awaits[w].conditions + [] == s.awaits[w].conditions;
      assert s.awaits[w := s.awaits[w]] == s.awaits;
    } else {
      hide AddConditions, InitTrigger, LinkedExcept, Settled, AcceptedCondition, FreshConditions, Added;
      var s2 := OneTurn(s, w, conds, clock);
      ConditionAdded(s, w, conds[0], clock);
      AddedAll(s2, w, conds[1..], clock);
      AddedStep(s, s2, AddConditions(s2, w, conds[1..], clock).1, w, conds, clock);
    }
  }

  lemma AddedStep(s: State, s2: State, s': State, w: XID, conds: seq<WaitCondition>, clock: map<XID, Int64>)
    requires w in s.awaits && FreshConditions(s.awaits[w], conds) && conds != [] && OnlyCounter(s, s2, conds[0].counter)
    requires ValueOf(s2, conds[0].counter) == Asked(s, conds[0].counter, clock) && s2.alarms == s.alarms
    requires var aw := s.awaits[w];
      s2.awaits == s.awaits[w := aw.(conditions := aw.conditions + [AcceptedCondition(s, conds[0], clock)])]
    requires Added(s2, s', w, conds[1..], clock)
    ensures Added(s, s', w, conds, clock)
  {
    hide AcceptedCondition, Asked, Named, FreshConditions;
    LaterCounters(s, s2, w, conds, clock);
    var aw := s.awaits[w];
    assert (aw.conditions + [AcceptedCondition(s, conds[0], clock)]) + AcceptedConditions(s, conds[1..], clock)
        == aw.conditions + AcceptedConditions(s, conds, clock);
    forall j | 0 <= j < |conds|
      ensures ValueOf(s', conds[j].counter) == Asked(s, conds[j].counter, clock)
    {
      if j > 0 { assert conds[j] == conds[1..][j - 1]; }
    }
  }

  /** Conditions still to come are about other counters. */
  lemma LaterCounters(s: State, s2: State, w: XID, conds: seq<WaitCondition>, clock: map<XID, Int64>)
    requires w in s.awaits && FreshConditions(s.awaits[w], conds) && conds != [] && OnlyCounter(s, s2, conds[0].counter)
    ensures AcceptedConditions(s2, conds[1..], clock) == AcceptedConditions(s, conds[1..], clock)
    ensures !Named(conds[1..], conds[0].counter)
    ensures forall d :: !Named(conds, d) ==> !Named(conds[1..], d) && d != conds[0].counter
    ensures forall j :: 0 < j < |conds| ==> Asked(s2, conds[j].counter, clock) == Asked(s, conds[j].counter, clock)
  {
    assert conds == [conds[0]] + conds[1..];
    assert conds[0].counter == conds[0].counter;
    forall j | 0 <= j < |conds[1..]|
      ensures conds[1..][j] == conds[j + 1] && conds[j + 1].counter != conds[0].counter
    {
    }
    AcceptedLocal(s, s2, conds[1..], clock);
  }

  lemma {:induction false} AddedFresh(s: State, w: XID, conds: seq<WaitCondition>, clock: map<XID, Int64>, p: nat)
    requires Linked(s) && Settled(s) && w in s.awaits && FreshConditions(s.awaits[w], conds) && p < |conds|
    requires AddConditions(s, w, conds, clock).0 == Success
    requires IsSystem(s, conds[p].counter) && s.counters[conds[p].counter].sys.value.counterType == Unrestricted
    ensures var s', c := AddConditions(s, w, conds, clock).1, conds[p].counter;
      && Fresh(s', c) && s'.counters[c].triglist == [AwaitTrigger(w, |s.awaits[w].conditions| + p)] + s.counters[c].triglist
    decreases |conds|
  {
    hide AddConditions, InitTrigger, LinkedExcept, Settled, AcceptedCondition, Asked, Fresh, Named, FreshConditions;
    var s2 := OneTurn(s, w, conds, clock);
    ConditionAdded(s, w, conds[0], clock);
    LaterCounters(s, s2, w, conds, clock);
    if p == 0 {
      ConditionFresh(s, w, conds[0], clock);
      AddedAll(s2, w, conds[1..], clock);
      StaysFresh(s2, AddConditions(s2, w, conds[1..], clock).1, w, conds[0].counter, AcceptedConditions(s2, conds[1..], clock));
    } else {
      assert conds[p] == conds[1..][p - 1];
      OtherCounter(s.awaits[w], conds, p);
      AddedFresh(s2, w, conds[1..], clock, p - 1);
    }
  }

  lemma OtherCounter(aw: Await, conds: seq<WaitCondition>, p: nat)
    requires FreshConditions(aw, conds) && 0 < p < |conds|
    ensures conds[p].counter != conds[0].counter
  {
  }

  lemma StaysFresh(s: State, s': State, w: XID, c: XID, more: seq<Condition>)
    requires Linked(s) && Fresh(s, c) && c in s'.counters && s'.counters[c] == s.counters[c] && w in s.awaits
    requires s'.alarms == s.alarms
    requires s'.awaits == s.awaits[w := s.awaits[w].(conditions := s.awaits[w].conditions + more)]
    ensures Fresh(s', c)
  {
    hide BracketWalk;
    var refs := s.counters[c].triglist;
    forall r | r in refs
      ensures Live(s, r) && Live(s', r) && Slot(s', r) == Slot(s, r)
    {
      assert Live(s, r);
    }
    SlotsWalk(s, s', refs, s.counters[c].value, RESET);
  }

  // ---------- The epilogue ----------

  ghost predicate SomeHolds(s: State, w: XID, i: nat)
    requires w in s.awaits
  {
    exists j :: i <= j < |s.awaits[w].conditions| && ConditionHolds(s, s.awaits[w].conditions[j].trigger)
  }

  ghost predicate ConditionHolds(s: State, t: Trigger) {
    Check(s, t, ValueOf(s, t.sync))
  }

  lemma {:induction false} EpilogueExactly(s: State, w: XID, i: nat)
    requires w in s.awaits
    ensures AwaitEpilogue(s, w, i) == if SomeHolds(s, w, i) then AwaitFired(s, w) else s
    decreases |s.awaits[w].conditions| - i
  {
    hide AwaitFired, Check;
    if i < |s.awaits[w].conditions| {
      if !ConditionHolds(s, s.awaits[w].conditions[i].trigger) { EpilogueExactly(s, w, i + 1); }
    }
  }

  lemma {:induction false} UnlinkOther(s: State, w: XID, i: nat, c: XID)
    requires w in s.awaits && c in s.counters
    requires forall j :: i <= j < |s.awaits[w].conditions| ==> s.awaits[w].conditions[j].trigger.sync != c
    ensures UnlinkFrom(s, w, i).counters[c] == s.counters[c]
    ensures UnlinkFrom(s, w, i).alarms == s.alarms && UnlinkFrom(s, w, i).awaits == s.awaits
    decreases |s.awaits[w].conditions| - i
  {
    if i < |s.awaits[w].conditions| {
      var d := s.awaits[w].conditions[i].trigger.sync;
      var s1 := if BeingDestroyed(s, d) then s else DeleteTrigger(s, AwaitTrigger(w, i));
      DeleteTriggerFrame(s, AwaitTrigger(w, i));
      hide DeleteTrigger;
      UnlinkOther(s1, w, i + 1, c);
    }
  }

  /** Taking an Await's condition off its counter's list sets the brackets anew. */
  lemma {:induction false} UnlinkFresh(s: State, w: XID, i: nat, p: nat, rest: seq<TriggerRef>)
    requires w in s.awaits && i <= p < |s.awaits[w].conditions| && DistinctConditions(s.awaits[w])
    requires var c := s.awaits[w].conditions[p].trigger.sync;
      && IsSystem(s, c) && s.counters[c].sys.value.counterType == Unrestricted
      && !s.counters[c].beingDestroyed && s.counters[c].triglist == [AwaitTrigger(w, p)] + rest
    ensures var s', c := UnlinkFrom(s, w, i), s.awaits[w].conditions[p].trigger.sync;
      && Fresh(s', c) && s'.counters[c].triglist == rest && s'.counters[c].value == s.counters[c].value
      && s'.alarms == s.alarms && s'.awaits == s.awaits
    decreases p - i
  {
    var c := s.awaits[w].conditions[p].trigger.sync;
    var d := s.awaits[w].conditions[i].trigger.sync;
    var s1 := if BeingDestroyed(s, d) then s else DeleteTrigger(s, AwaitTrigger(w, i));
    DeleteTriggerFrame(s, AwaitTrigger(w, i));
    if i < p {
      assert d != c;
      hide DeleteTrigger, Fresh;
      UnlinkFresh(s1, w, i + 1, p, rest);
    } else {
      var r := AwaitTrigger(w, p);
      assert ([r] + rest)[0] == r && ([r] + rest)[1..] == rest;
      assert s1 == ComputeBrackets(SetCounter(s, c, s.counters[c].(triglist := rest)), c);
      ComputedFresh(SetCounter(s, c, s.counters[c].(triglist := rest)), c);
      hide DeleteTrigger, ComputeBrackets, BracketWalk;
      UnlinkOther(s1, w, i + 1, c);
      GuardedSlots(s1, UnlinkFrom(s1, w, i + 1), rest, s1.counters[c].value, Slot(s, r));
    }
  }

  lemma FiredFresh(s: State, w: XID, p: nat, rest: seq<TriggerRef>)
    requires w in s.awaits && p < |s.awaits[w].conditions| && DistinctConditions(s.awaits[w])
    requires var c := s.awaits[w].conditions[p].trigger.sync;
      && IsSystem(s, c) && s.counters[c].sys.value.counterType == Unrestricted
      && !s.counters[c].beingDestroyed && s.counters[c].triglist == [AwaitTrigger(w, p)] + rest
    requires forall r :: r in rest ==> Live(s, r) && (r.AwaitTrigger? ==> r.await != w)
    ensures var s', c := AwaitFired(s, w), s.awaits[w].conditions[p].trigger.sync;
      && Fresh(s', c) && s'.counters[c].triglist == rest && s'.counters[c].value == s.counters[c].value
      && s'.alarms == s.alarms && s'.awaits == s.awaits - {w}
  {
    hide UnlinkFrom, AwaitEvents, BracketWalk;
    var s1 := Emit(s, AwaitEvents(s, w));
    UnlinkFresh(s1, w, 0, p, rest);
    var s2 := UnlinkFrom(s1, w, 0);
    var c := s.awaits[w].conditions[p].trigger.sync;
    var s' := AwaitFired(s, w);
    assert s' == s2.(awaits := s2.awaits - {w});
    SlotsWalk(s2, s', rest, s2.counters[c].value, RESET);
  }

  // ---------- The whole request ----------

  lemma {:induction false} AddedOk(s: State, w: XID, conds: seq<WaitCondition>, clock: map<XID, Int64>)
    requires Linked(s) && Settled(s) && w in s.awaits && FreshConditions(s.awaits[w], conds)
    requires AddConditions(s, w, conds, clock).0 == Success
    ensures forall j :: 0 <= j < |conds| ==> conds[j].counter != NONE && CheckFnOf(conds[j].testType).Some?
    decreases |conds|
  {
    if conds != [] {
      hide AddConditions, InitTrigger, LinkedExcept, Settled, FreshConditions, InitAccepts;
      var s2 := OneTurn(s, w, conds, clock);
      var r := AwaitTrigger(w, |s.awaits[w].conditions|);
      InitAcceptsExactly(Appended(s, w, conds[0]), r, conds[0].counter, ALL_CHANGES, clock);
      AcceptsTestType(Appended(s, w, conds[0]), Slot(Appended(s, w, conds[0]), r), conds[0].counter, clock);
      AddedOk(s2, w, conds[1..], clock);
      forall j | 0 <= j < |conds|
        ensures conds[j].counter != NONE && CheckFnOf(conds[j].testType).Some?
      {
        if j > 0 { assert conds[j] == conds[1..][j - 1]; }
      }
    }
  }

  lemma AcceptsTestType(s: State, t: Trigger, c: XID, clock: map<XID, Int64>)
    requires InitAccepts(s, t, c, ALL_CHANGES, clock)
    ensures CheckFnOf(t.testType).Some?
  {
  }

  /** Some condition holds already when the request is made, at the values the drivers answer. */
  ghost predicate HoldsAlready(s: State, conds: seq<WaitCondition>, clock: map<XID, Int64>) {
    exists j :: 0 <= j < |conds| && HoldsAt(AcceptedCondition(s, conds[j], clock).trigger, Asked(s, conds[j].counter, clock))
  }

  ghost predicate HoldsAt(t: Trigger, value: Int64) {
    CheckAt(t.check, value, value, t.testValue)
  }

  /** The awaits that are pending after an accepted request. */
  ghost function AwaitsAfter(s: State, client: Client, w: XID, conds: seq<WaitCondition>, clock: map<XID, Int64>): map<XID, Await> {
    if HoldsAlready(s, conds, clock) then s.awaits else s.awaits[w := Await(client, AcceptedConditions(s, conds, clock))]
  }

  /** The list of the counter of condition `p` after an accepted request. */
  ghost function ListAfter(s: State, w: XID, conds: seq<WaitCondition>, clock: map<XID, Int64>, p: nat): seq<TriggerRef>
    requires p < |conds| && conds[p].counter in s.counters
  {
    (if HoldsAlready(s, conds, clock) then [] else [AwaitTrigger(w, p)]) + s.counters[conds[p].counter].triglist
  }

  /** The state in which the epilogue starts. */
  lemma BeforeEpilogue(s: State, client: Client, w: XID, conds: seq<WaitCondition>, clock: map<XID, Int64>, p: nat)
    returns (s2: State)
    requires ListInv(s) && forall i, j :: 0 <= i < j < |conds| ==> conds[i].counter != conds[j].counter
    requires AwaitRequest(s, client, w, conds, clock).0 == Success && p < |conds|
    requires IsSystem(s, conds[p].counter) && s.counters[conds[p].counter].sys.value.counterType == Unrestricted
    ensures w in s2.awaits && w !in s.awaits && AwaitRequest(s, client, w, conds, clock).1 == AwaitEpilogue(s2, w, 0)
    ensures s2.alarms == s.alarms && s2.awaits == s.awaits[w := Await(client, AcceptedConditions(s, conds, clock))]
    ensures forall j :: 0 <= j < |conds| ==> ValueOf(s2, conds[j].counter) == Asked(s, conds[j].counter, clock)
    ensures forall j :: 0 <= j < |conds| ==> conds[j].counter != NONE && CheckFnOf(conds[j].testType).Some?
    ensures Fresh(s2, conds[p].counter) && !s2.counters[conds[p].counter].beingDestroyed
    ensures s2.counters[conds[p].counter].triglist == [AwaitTrigger(w, p)] + s.counters[conds[p].counter].triglist
  {
    hide AddConditions, AwaitEpilogue, AcceptedCondition, Fresh, Asked, Named, AcceptedConditions;
    var s0 := s.(awaits := s.awaits[w := Await(client, [])]);
    var s1 := AddConditions(s0, w, conds, clock).1;
    s2 := Emit(s1, [IgnoreClient(client)]);
    EmptyLinked(s, client, w);
    EmptyFresh(client, conds);
    hide LinkedExcept, FreshConditions;
    AddedAll(s0, w, conds, clock);
    AddedFresh(s0, w, conds, clock, p);
    AddedOk(s0, w, conds, clock);
    AcceptedLocal(s, s0, conds, clock);
    AddConditionsLinked(s0, w, conds, clock);
    assert [] + AcceptedConditions(s, conds, clock) == AcceptedConditions(s, conds, clock);
    assert s0.awaits[w := Await(client, AcceptedConditions(s, conds, clock))]
        == s.awaits[w := Await(client, AcceptedConditions(s, conds, clock))];
    EmitFresh(s1, conds[p].counter, [IgnoreClient(client)]);
    forall j | 0 <= j < |conds|
      ensures ValueOf(s2, conds[j].counter) == Asked(s, conds[j].counter, clock)
    {
      AskedLocal(s, s0, conds[j].counter, clock);
    }
  }

  lemma AskedLocal(s: State, s0: State, c: XID, clock: map<XID, Int64>)
    requires s0.counters == s.counters
    ensures Asked(s0, c, clock) == Asked(s, c, clock)
  {
  }

  lemma EmitFresh(s: State, c: XID, o: seq<Output>)
    requires Fresh(s, c)
    ensures Fresh(Emit(s, o), c)
  {
    GuardedSlots(s, Emit(s, o), s.counters[c].triglist, s.counters[c].value, NEW_TRIGGER);
    hide BracketWalk, Guarded;
  }

  lemma EmptyLinked(s: State, client: Client, w: XID)
    requires ListInv(s) && w !in s.awaits
    ensures Linked(s.(awaits := s.awaits[w := Await(client, [])])) && Settled(s)
  {
    var s0 := s.(awaits := s.awaits[w := Await(client, [])]);
    assert forall q :: Live(s0, q) == Live(s, q);
    assert forall q :: Live(s, q) ==> Slot(s0, q) == Slot(s, q);
  }

  lemma EmptyFresh(client: Client, conds: seq<WaitCondition>)
    requires forall i, j :: 0 <= i < j < |conds| ==> conds[i].counter != conds[j].counter
    ensures FreshConditions(Await(client, []), conds)
  {
  }

  /** The epilogue fires the Await exactly when a condition holds already. */
  lemma HoldsExactly(s: State, s2: State, client: Client, w: XID, conds: seq<WaitCondition>, clock: map<XID, Int64>)
    requires s2.awaits == s.awaits[w := Await(client, AcceptedConditions(s, conds, clock))]
    requires forall j :: 0 <= j < |conds| ==> ValueOf(s2, conds[j].counter) == Asked(s, conds[j].counter, clock)
    requires forall j :: 0 <= j < |conds| ==> conds[j].counter != NONE
    ensures SomeHolds(s2, w, 0) <==> HoldsAlready(s, conds, clock)
  {
    hide AcceptedCondition, Asked, CheckAt, AcceptedConditions;
    forall j | 0 <= j < |conds|
      ensures ConditionHolds(s2, s2.awaits[w].conditions[j].trigger)
        <==> HoldsAt(AcceptedCondition(s, conds[j], clock).trigger, Asked(s, conds[j].counter, clock))
    {
      AcceptedAt(s, conds, clock, j);
      AcceptedSyncAt(s, conds[j], clock);
    }
  }

  lemma AcceptedSyncAt(s: State, cond: WaitCondition, clock: map<XID, Int64>)
    ensures AcceptedCondition(s, cond, clock).trigger.sync == cond.counter
    ensures CheckFnOf(cond.testType).Some? ==> TriggerOk(AcceptedCondition(s, cond, clock).trigger)
  {
    hide TestValue;
  }

  /** The counter of each condition after an accepted request: its value, its list and its brackets. */
  lemma AwaitedFresh(s: State, client: Client, w: XID, conds: seq<WaitCondition>, clock: map<XID, Int64>, p: nat)
    requires ListInv(s) && forall i, j :: 0 <= i < j < |conds| ==> conds[i].counter != conds[j].counter
    requires AwaitRequest(s, client, w, conds, clock).0 == Success && p < |conds|
    requires IsSystem(s, conds[p].counter) && s.counters[conds[p].counter].sys.value.counterType == Unrestricted
    ensures var s', c := AwaitRequest(s, client, w, conds, clock).1, conds[p].counter;
      && Fresh(s', c) && s'.counters[c].value == Asked(s, c, clock)
      && s'.counters[c].triglist == ListAfter(s, w, conds, clock, p)
      && s'.alarms == s.alarms && s'.awaits == AwaitsAfter(s, client, w, conds, clock)
    ensures w !in s.awaits
    ensures forall j :: 0 <= j < |conds| ==> conds[j].counter != NONE && CheckFnOf(conds[j].testType).Some?
  {
    hide AwaitRequest, AwaitEpilogue, AwaitFired, AcceptedCondition, Asked, HoldsAlready, SomeHolds, Fresh, ListInv,
         AcceptedConditions;
    var s2 := BeforeEpilogue(s, client, w, conds, clock, p);
    HoldsExactly(s, s2, client, w, conds, clock);
    EpilogueExactly(s2, w, 0);
    var c := conds[p].counter;
    var rest := s.counters[c].triglist;
    FreshValue(s2, c);
    assert s2.counters[c].value == Asked(s, conds[p].counter, clock);
    if HoldsAlready(s, conds, clock) {
      AcceptedDistinct(s, client, conds, clock, p);
      OldRefs(s, s2, w, c);
      FiredFresh2(s2, w, p, rest, c);
      assert s2.awaits - {w} == s.awaits;
      assert [] + rest == rest;
    }
  }

  lemma FreshValue(s: State, c: XID)
    requires Fresh(s, c)
    ensures c in s.counters && ValueOf(s, c) == s.counters[c].value
  {
  }

  lemma FiredFresh2(s: State, w: XID, p: nat, rest: seq<TriggerRef>, c: XID)
    requires w in s.awaits && p < |s.awaits[w].conditions| && DistinctConditions(s.awaits[w])
    requires c == s.awaits[w].conditions[p].trigger.sync && Fresh(s, c)
    requires !s.counters[c].beingDestroyed && s.counters[c].triglist == [AwaitTrigger(w, p)] + rest
    requires forall r :: r in rest ==> Live(s, r) && (r.AwaitTrigger? ==> r.await != w)
    ensures var s' := AwaitFired(s, w);
      && Fresh(s', c) && s'.counters[c].triglist == rest && s'.counters[c].value == s.counters[c].value
      && s'.alarms == s.alarms && s'.awaits == s.awaits - {w}
  {
    hide AwaitFired, BracketWalk;
    FiredFresh(s, w, p, rest);
  }

  lemma AcceptedDistinct(s: State, client: Client, conds: seq<WaitCondition>, clock: map<XID, Int64>, p: nat)
    requires p < |conds| && forall i, j :: 0 <= i < j < |conds| ==> conds[i].counter != conds[j].counter
    ensures DistinctConditions(Await(client, AcceptedConditions(s, conds, clock)))
    ensures AcceptedConditions(s, conds, clock)[p].trigger.sync == conds[p].counter
  {
    hide AcceptedCondition, AcceptedConditions;
    forall j | 0 <= j < |conds|
      ensures AcceptedConditions(s, conds, clock)[j].trigger.sync == conds[j].counter
    {
      AcceptedAt(s, conds, clock, j);
      AcceptedSyncAt(s, conds[j], clock);
    }
  }

  /** Triggers that were on the list before are no conditions of the new Await. */
  lemma OldRefs(s: State, s2: State, w: XID, c: XID)
    requires ListInv(s) && c in s.counters && w !in s.awaits && w in s2.awaits
    requires s2.alarms == s.alarms && s2.awaits == s.awaits[w := s2.awaits[w]]
    ensures forall r :: r in s.counters[c].triglist ==>
      Live(s, r) && Live(s2, r) && Slot(s2, r) == Slot(s, r) && (r.AwaitTrigger? ==> r.await != w)
  {
    forall r | r in s.counters[c].triglist
      ensures Live(s, r)
    {
    }
  }

  // ---------- When it leaves a counter covered ----------

  /** With these awaits pending, the list guards every trigger that was armed on the counter before. */
  ghost predicate GuardsOld(s: State, s1: State, c: XID, refs: seq<TriggerRef>, value: Int64)
    requires c in s.counters
  {
    forall r :: r in s.counters[c].triglist && Armed(s, r) ==> Guarded(s1, refs, value, Slot(s, r))
  }

  lemma AwaitsCoherent(s: State, s': State, client: Client, w: XID, conds: seq<WaitCondition>, clock: map<XID, Int64>)
    requires Coherent(s) && s'.alarms == s.alarms && s'.awaits == AwaitsAfter(s, client, w, conds, clock)
    requires forall j :: 0 <= j < |conds| ==> conds[j].counter != NONE && CheckFnOf(conds[j].testType).Some?
    ensures Coherent(s')
  {
    hide AcceptedCondition, AcceptedConditions, HoldsAlready, AlarmTyped, AlarmPlaced, TriggerOk, CheckFnOf;
    forall j | 0 <= j < |conds|
      ensures TriggerOk(AcceptedConditions(s, conds, clock)[j].trigger)
      ensures AcceptedConditions(s, conds, clock)[j].trigger.sync != NONE
    {
      AcceptedAt(s, conds, clock, j);
      AcceptedSyncAt(s, conds[j], clock);
    }
    var aw := Await(client, AcceptedConditions(s, conds, clock));
    assert AwaitTyped(aw) && AwaitPlaced(aw);
    hide AwaitTyped, AwaitPlaced;
  }

  /** The Await's own condition, if it is still pending, is false and therefore guarded. */
  lemma OwnGuarded(s: State, s': State, client: Client, w: XID, conds: seq<WaitCondition>, clock: map<XID, Int64>, p: nat)
    requires p < |conds| && !HoldsAlready(s, conds, clock) && s'.awaits == AwaitsAfter(s, client, w, conds, clock)
    requires CheckFnOf(conds[p].testType).Some?
    ensures forall list: seq<TriggerRef> :: AwaitTrigger(w, p) in list ==>
        Live(s', AwaitTrigger(w, p)) && Guarded(s', list, Asked(s, conds[p].counter, clock), Slot(s', AwaitTrigger(w, p)))
  {
    hide AcceptedCondition, AcceptedConditions, Asked, TriggerOk, Guarded, CheckAt;
    AcceptedAt(s, conds, clock, p);
    AcceptedSyncAt(s, conds[p], clock);
    assert !HoldsAt(AcceptedCondition(s, conds[p], clock).trigger, Asked(s, conds[p].counter, clock));
    forall list: seq<TriggerRef> | AwaitTrigger(w, p) in list
      ensures Guarded(s', list, Asked(s, conds[p].counter, clock), Slot(s', AwaitTrigger(w, p)))
    {
      QuietGuarded(s', list, Asked(s, conds[p].counter, clock), AwaitTrigger(w, p));
    }
  }

  lemma OldAndOwn(s: State, s': State, client: Client, w: XID, conds: seq<WaitCondition>, clock: map<XID, Int64>, p: nat)
    requires ListInv(s) && w !in s.awaits && p < |conds| && conds[p].counter in s.counters
    requires s'.alarms == s.alarms && s'.awaits == AwaitsAfter(s, client, w, conds, clock)
    requires CheckFnOf(conds[p].testType).Some?
    ensures var c, refs, value := conds[p].counter, ListAfter(s, w, conds, clock, p), Asked(s, conds[p].counter, clock);
      (forall r :: r in refs && Armed(s', r) ==> Guarded(s', refs, value, Slot(s', r))) <==> GuardsOld(s, s', c, refs, value)
  {
    var c, refs, value := conds[p].counter, ListAfter(s, w, conds, clock, p), Asked(s, conds[p].counter, clock);
    if !HoldsAlready(s, conds, clock) { OwnGuarded(s, s', client, w, conds, clock, p); }
    hide Guarded, HoldsAlready, AcceptedConditions, Asked;
    forall r | r in s.counters[c].triglist
      ensures r in refs && Armed(s', r) == Armed(s, r) && (Armed(s, r) ==> Slot(s', r) == Slot(s, r))
      ensures r != AwaitTrigger(w, p)
    {
      OnListBefore(s, c, r);
    }
    assert forall r :: r in refs ==> r in s.counters[c].triglist || (r == AwaitTrigger(w, p) && !HoldsAlready(s, conds, clock));
    hide ListInv, Armed, Slot;
  }

  lemma OnListBefore(s: State, c: XID, r: TriggerRef)
    requires ListInv(s) && c in s.counters && r in s.counters[c].triglist
    ensures Live(s, r)
  {
  }

  /** An Await that succeeds leaves the unrestricted system counter of each of its conditions covered if and only if the
    list guards every trigger armed there before, at the value the driver answers; and the counter can be checked lazily
    afterwards exactly then, or when the brackets let no idle time pass. */
  lemma AwaitCovered(s: State, client: Client, w: XID, conds: seq<WaitCondition>, clock: map<XID, Int64>, p: nat)
    requires ListInv(s) && Coherent(s) && forall i, j :: 0 <= i < j < |conds| ==> conds[i].counter != conds[j].counter
    requires AwaitRequest(s, client, w, conds, clock).0 == Success && p < |conds|
    requires IsSystem(s, conds[p].counter) && s.counters[conds[p].counter].sys.value.counterType == Unrestricted
    ensures var s', c := AwaitRequest(s, client, w, conds, clock).1, conds[p].counter;
      var s1 := s.(awaits := AwaitsAfter(s, client, w, conds, clock));
      var refs, value := ListAfter(s, w, conds, clock, p), Asked(s, c, clock);
      && IsSystem(s', c)
      && (Covered(s', c, s'.counters[c].sys.value) <==> GuardsOld(s, s1, c, refs, value))
      && (LazySound(s', c) <==> GuardsOld(s, s1, c, refs, value) || NoSkip(BracketWalk(s1, refs, value, RESET)))
  {
    hide AwaitRequest, ListInv, Coherent, BracketWalk, Guarded, Covered, LazySound, NoSkip, TransitionsCovered, Asked,
         AwaitsAfter, ListAfter, GuardsOld, LinkedExcept, Armed, CheckFnOf;
    var s', c := AwaitRequest(s, client, w, conds, clock).1, conds[p].counter;
    var s1 := s.(awaits := AwaitsAfter(s, client, w, conds, clock));
    var refs, value := ListAfter(s, w, conds, clock, p), Asked(s, c, clock);
    AwaitedFresh(s, client, w, conds, clock, p);
    AwaitRequestListInv(s, client, w, conds, clock);
    AwaitsCoherent(s, s', client, w, conds, clock);
    ListInvLinked(s');
    FreshCoveredExactly(s', c);
    BracketedSoundExactly(s', c);
    OldAndOwn(s, s', client, w, conds, clock, p);
    SameGuards(s, s', s1, c, refs, value);
  }

  lemma SameGuards(s: State, s': State, s1: State, c: XID, refs: seq<TriggerRef>, value: Int64)
    requires c in s.counters && s'.alarms == s1.alarms && s'.awaits == s1.awaits
    ensures GuardsOld(s, s', c, refs, value) == GuardsOld(s, s1, c, refs, value)
    ensures BracketWalk(s', refs, value, RESET) == BracketWalk(s1, refs, value, RESET)
  {
    hide Guarded, BracketWalk;
    GuardedSlots(s', s1, refs, value, NEW_TRIGGER);
    forall t: Trigger
      ensures Guarded(s', refs, value, t) == Guarded(s1, refs, value, t)
    {
      GuardedSlots(s', s1, refs, value, t);
    }
  }
}
