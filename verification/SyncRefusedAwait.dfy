/** Exactly what an Await that is refused leaves of the system counters it names: its conditions before the one
  refused are undone, the counter of that one has been asked, and those after it are as they were.
 */
module SyncRefusedAwait {
  import opened SyncModel
  import opened SyncLinks
  import opened SyncTypes
  import opened SyncQuiescence
  import opened SyncBrackets
  import opened SyncLazy
  import opened SyncCoverage
  import opened SyncAwaitCoverage
  import opened SyncKept
  import opened SyncUncovered

  // ---------- Which condition is refused ----------

  ghost predicate Refuses(s: State, cond: WaitCondition, clock: map<XID, Int64>) {
    cond.counter == NONE || !InitAccepts(s, WaitTrigger(cond), cond.counter, ALL_CHANGES, clock)
  }

  /** The place of the first condition that is refused, or the number of conditions. */
  ghost function FirstRefused(s: State, conds: seq<WaitCondition>, clock: map<XID, Int64>): (k: nat)
    ensures k <= |conds|
    ensures k < |conds| ==> Refuses(s, conds[k], clock)
    ensures forall j :: 0 <= j < k ==> !Refuses(s, conds[j], clock)
  {
    if conds == [] || Refuses(s, conds[0], clock) then 0 else 1 + FirstRefused(s, conds[1..], clock)
  }

  lemma RefusesLocal(s: State, s': State, cond: WaitCondition, clock: map<XID, Int64>)
    requires s'.counters.Keys == s.counters.Keys
    requires cond.counter in s.counters ==> s'.counters[cond.counter] == s.counters[cond.counter]
    ensures Refuses(s', cond, clock) == Refuses(s, cond, clock)
  {
  }

  lemma {:induction false} FirstRefusedLocal(s: State, s': State, conds: seq<WaitCondition>, clock: map<XID, Int64>)
    requires s'.counters.Keys == s.counters.Keys
    requires forall j :: 0 <= j < |conds| && conds[j].counter in s.counters ==>
      s'.counters[conds[j].counter] == s.counters[conds[j].counter]
    ensures FirstRefused(s', conds, clock) == FirstRefused(s, conds, clock)
    decreases |conds|
  {
    if conds != [] {
      RefusesLocal(s, s', conds[0], clock);
      hide Refuses;
      FirstRefusedLocal(s, s', conds[1..], clock);
    }
  }

  // ---------- One turn that is refused ----------

  /** The Await with the refused condition, on no list, before it is freed. */
  lemma RefusedTurn(s: State, w: XID, cond: WaitCondition, clock: map<XID, Int64>)
    requires w in s.awaits
    requires InitTrigger(Appended(s, w, cond), AwaitTrigger(w, |s.awaits[w].conditions|), cond.counter, ALL_CHANGES, clock).0
      != Success
    ensures var aw := s.awaits[w];
      var s2 := InitTrigger(Appended(s, w, cond), AwaitTrigger(w, |aw.conditions|), cond.counter, ALL_CHANGES, clock).1;
      && s2.counters == QueryValue(s, cond.counter, clock).counters && s2.alarms == s.alarms && w in s2.awaits
      && s2.awaits == s.awaits[w := s2.awaits[w]]
      && |s2.awaits[w].conditions| == |aw.conditions| + 1
      && (forall i :: 0 <= i < |aw.conditions| ==> s2.awaits[w].conditions[i] == aw.conditions[i])
      && s2.awaits[w].conditions[|aw.conditions|].trigger.sync == NONE
  {
    var s1, aw := Appended(s, w, cond), s.awaits[w];
    var r := AwaitTrigger(w, |aw.conditions|);
    hide InitTrigger, QueryValue, RefusedTest;
    RefusedInit(s1, r, cond.counter, ALL_CHANGES, clock);
    QueryFields(s, s1, cond.counter, clock);
    QueryFields(s, s, cond.counter, clock);
  }

  /** The turn is refused exactly when SyncInitTrigger does not accept the condition. */
  lemma TurnRefuses(s: State, w: XID, cond: WaitCondition, clock: map<XID, Int64>)
    requires w in s.awaits && cond.counter != NONE
    ensures var rc := InitTrigger(Appended(s, w, cond), AwaitTrigger(w, |s.awaits[w].conditions|),
                                  cond.counter, ALL_CHANGES, clock).0;
      rc == Success <==> !Refuses(s, cond, clock)
  {
    var s1, r := Appended(s, w, cond), AwaitTrigger(w, |s.awaits[w].conditions|);
    hide InitTrigger, InitAccepts;
    InitAcceptsExactly(s1, r, cond.counter, ALL_CHANGES, clock);
    InitAcceptsFrame(s, s1, WaitTrigger(cond), cond.counter, ALL_CHANGES, clock);
  }

  // ---------- The loop ----------

  ghost predicate Building(s: State, w: XID, conds: seq<WaitCondition>) {
    Linked(s) && Settled(s) && w in s.awaits && FreshConditions(s.awaits[w], conds)
  }

  /** What the loop does with the conditions left: give up, or take one and go on. */
  lemma TurnCases(s: State, w: XID, conds: seq<WaitCondition>, clock: map<XID, Int64>) returns (s2: State)
    requires Building(s, w, conds) && AddConditions(s, w, conds, clock).0 != Success
    ensures conds != [] && w in s2.awaits
    ensures Refuses(s, conds[0], clock) ==> AddConditions(s, w, conds, clock).1 == FreeAwait(s2, w)
    ensures conds[0].counter == NONE ==> s2 == s && Refuses(s, conds[0], clock)
    ensures conds[0].counter != NONE ==>
      s2 == InitTrigger(Appended(s, w, conds[0]), AwaitTrigger(w, |s.awaits[w].conditions|), conds[0].counter, ALL_CHANGES, clock).1
    ensures !Refuses(s, conds[0], clock) ==>
      && InitTrigger(Appended(s, w, conds[0]), AwaitTrigger(w, |s.awaits[w].conditions|), conds[0].counter, ALL_CHANGES, clock).0
        == Success
      && Building(s2, w, conds[1..]) && AddConditions(s, w, conds, clock) == AddConditions(s2, w, conds[1..], clock)
  {
    s2 := s;
    hide InitTrigger, LinkedExcept, FreshConditions, Settled, FreeAwait;
    if conds[0].counter != NONE {
      hide Refuses;
      TurnRefuses(s, w, conds[0], clock);
      var cond := Condition(WaitTrigger(conds[0]), conds[0].threshold);
      var rc: Status;
      rc, s2 := AddConditionLinked(s, w, conds, cond, clock);
    }
  }

  /** Nothing of the Await is left. */
  lemma {:induction false} GivenUp(s: State, w: XID, conds: seq<WaitCondition>, clock: map<XID, Int64>)
    requires Building(s, w, conds) && AddConditions(s, w, conds, clock).0 != Success
    ensures AddConditions(s, w, conds, clock).1.alarms == s.alarms
    ensures AddConditions(s, w, conds, clock).1.awaits == s.awaits - {w}
    decreases |conds|
  {
    hide AddConditions, InitTrigger, LinkedExcept, FreeAwait, AwaitFired, Settled, FreshConditions, Refuses, AcceptedCondition;
    var s2 := TurnCases(s, w, conds, clock);
    if Refuses(s, conds[0], clock) {
      if conds[0].counter != NONE {
        TurnRefuses(s, w, conds[0], clock);
        RefusedTurn(s, w, conds[0], clock);
      }
      FreeAwaitFrame(s2, w);
    } else {
      ConditionAdded(s, w, conds[0], clock);
      GivenUp(s2, w, conds[1..], clock);
    }
  }

  /** A counter that none of the Await's conditions is on keeps list and brackets when the Await is freed. */
  lemma FreedElsewhere(s: State, w: XID, c: XID)
    requires w in s.awaits && c in s.counters
    requires forall i :: 0 <= i < |s.awaits[w].conditions| ==> s.awaits[w].conditions[i].trigger.sync != c
    ensures FreeAwait(s, w).counters[c] == s.counters[c]
  {
    hide UnlinkFrom;
    UnlinkOther(s, w, 0, c);
  }

  /** Freeing the Await takes its condition off the head of the list and sets the brackets anew. */
  lemma FreedHead(s: State, w: XID, i0: nat, rest: seq<TriggerRef>)
    requires w in s.awaits && i0 < |s.awaits[w].conditions| && DistinctConditions(s.awaits[w])
    requires var c := s.awaits[w].conditions[i0].trigger.sync;
      Unrestrained(s, c) && !s.counters[c].beingDestroyed && s.counters[c].triglist == [AwaitTrigger(w, i0)] + rest
    requires forall r :: r in rest ==> Live(s, r) && (r.AwaitTrigger? ==> r.await != w)
    ensures var s', c := FreeAwait(s, w), s.awaits[w].conditions[i0].trigger.sync;
      Fresh(s', c) && s'.counters[c].triglist == rest && s'.counters[c].value == s.counters[c].value
  {
    hide UnlinkFrom, Fresh, SameOn;
    var s', c, r := FreeAwait(s, w), s.awaits[w].conditions[i0].trigger.sync, AwaitTrigger(w, i0);
    assert ([r] + rest)[0] == r && ([r] + rest)[1..] == rest;
    UnlinkedFresh(s, w, 0, i0);
    UnlinkFromFrame(s, w, 0);
    var s2 := UnlinkFrom(s, w, 0);
    AwaitGoneSame(s2, s', w, rest);
    FreshStays(s2, s', c);
  }

  /** A condition that was added is undone. */
  lemma {:induction false} AddedUndone(s: State, w: XID, conds: seq<WaitCondition>, clock: map<XID, Int64>,
                                       i0: nat, rest: seq<TriggerRef>)
    requires Building(s, w, conds) && AddConditions(s, w, conds, clock).0 != Success && i0 < |s.awaits[w].conditions|
    requires var c := s.awaits[w].conditions[i0].trigger.sync;
      Unrestrained(s, c) && s.counters[c].triglist == [AwaitTrigger(w, i0)] + rest
    requires forall r :: r in rest ==> Live(s, r) && (r.AwaitTrigger? ==> r.await != w)
    ensures var s', c := AddConditions(s, w, conds, clock).1, s.awaits[w].conditions[i0].trigger.sync;
      Fresh(s', c) && s'.counters[c].triglist == rest && s'.counters[c].value == s.counters[c].value
    decreases |conds|
  {
    hide AddConditions, InitTrigger, LinkedExcept, FreeAwait, Fresh, Refuses, AcceptedCondition;
    var c := s.awaits[w].conditions[i0].trigger.sync;
    var s2 := TurnCases(s, w, conds, clock);
    assert c != conds[0].counter;
    if Refuses(s, conds[0], clock) {
      if conds[0].counter != NONE {
        TurnRefuses(s, w, conds[0], clock);
        RefusedTurn(s, w, conds[0], clock);
        QueriedOther(s, conds[0].counter, clock, c);
        RefusedDistinct(s.awaits[w], s2.awaits[w], conds);
      }
      hide FreshConditions;
      FreedHead(s2, w, i0, rest);
    } else {
      ConditionAdded(s, w, conds[0], clock);
      hide FreshConditions, Settled;
      AddedUndone(s2, w, conds[1..], clock, i0, rest);
    }
  }

  lemma RefusedDistinct(aw: Await, aw2: Await, conds: seq<WaitCondition>)
    requires FreshConditions(aw, conds) && |aw2.conditions| == |aw.conditions| + 1
    requires forall i :: 0 <= i < |aw.conditions| ==> aw2.conditions[i] == aw.conditions[i]
    requires aw2.conditions[|aw.conditions|].trigger.sync == NONE
    ensures DistinctConditions(aw2)
  {
  }

  /** What is left of the counter of condition `p`. */
  ghost predicate RefusedOn(s: State, s': State, c: XID, k: nat, p: nat, value: Int64)
    requires c in s.counters
  {
    && c in s'.counters
    && (p < k ==> Fresh(s', c) && s'.counters[c].triglist == s.counters[c].triglist && s'.counters[c].value == value)
    && (p == k ==> s'.counters[c] == s.counters[c].(value := value))
    && (p > k ==> s'.counters[c] == s.counters[c])
  }

  lemma {:induction false} RefusedCounter(s: State, w: XID, conds: seq<WaitCondition>, clock: map<XID, Int64>, p: nat)
    requires Building(s, w, conds) && AddConditions(s, w, conds, clock).0 != Success && p < |conds|
    requires Unrestrained(s, conds[p].counter)
    requires forall r :: r in s.counters[conds[p].counter].triglist ==> Live(s, r) && (r.AwaitTrigger? ==> r.await != w)
    ensures var c := conds[p].counter;
      RefusedOn(s, AddConditions(s, w, conds, clock).1, c, FirstRefused(s, conds, clock), p, Asked(s, c, clock))
    ensures FirstRefused(s, conds, clock) < |conds|
    decreases |conds|
  {
    hide AddConditions, InitTrigger, LinkedExcept, FreeAwait, Fresh, Refuses, AcceptedCondition, Asked, QueryValue;
    var c := conds[p].counter;
    assert c != NONE by { LinkedNotNone(s); }
    var s2 := TurnCases(s, w, conds, clock);
    if Refuses(s, conds[0], clock) {
      RefusedAt(s, s2, w, conds, clock, p);
    } else {
      ConditionAdded(s, w, conds[0], clock);
      LaterCounters(s, s2, w, conds, clock);
      assert forall j :: 0 <= j < |conds[1..]| ==> conds[1..][j] == conds[j + 1];
      if p == 0 {
        AcceptedFirst(s, s2, w, conds, clock);
      } else {
        OtherCounter(s.awaits[w], conds, p);
        FirstIsLater(s, s2, w, conds, clock);
        OldTriggers(s, s2, w, c, conds[0], clock);
        hide FreshConditions, Settled;
        RefusedCounter(s2, w, conds[1..], clock, p - 1);
      }
    }
  }

  /** The first condition is accepted, and undone later. */
  lemma AcceptedFirst(s: State, s2: State, w: XID, conds: seq<WaitCondition>, clock: map<XID, Int64>)
    requires Building(s, w, conds) && AddConditions(s, w, conds, clock).0 != Success && conds != []
    requires Unrestrained(s, conds[0].counter) && !Refuses(s, conds[0], clock)
    requires forall r :: r in s.counters[conds[0].counter].triglist ==> Live(s, r) && (r.AwaitTrigger? ==> r.await != w)
    requires InitTrigger(Appended(s, w, conds[0]), AwaitTrigger(w, |s.awaits[w].conditions|), conds[0].counter, ALL_CHANGES, clock)
      == (Success, s2)
    requires Building(s2, w, conds[1..]) && AddConditions(s, w, conds, clock) == AddConditions(s2, w, conds[1..], clock)
    ensures var c := conds[0].counter;
      RefusedOn(s, AddConditions(s, w, conds, clock).1, c, FirstRefused(s, conds, clock), 0, Asked(s, c, clock))
    ensures FirstRefused(s, conds, clock) < |conds|
  {
    hide AddConditions, InitTrigger, LinkedExcept, Fresh, Refuses, AcceptedCondition, Asked, Settled, Unrestrained;
    var c := conds[0].counter;
    UnrestrainedIn(s, c);
    UnrestrainedParts(s, c);
    ConditionAdded(s, w, conds[0], clock);
    ConditionFresh(s, w, conds[0], clock);
    FreshValue(s2, c);
    FreshUnrestrained(s2, c);
    AcceptedHere(s, s2, w, conds, clock);
    FirstIsLater(s, s2, w, conds, clock);
    hide FreshConditions;
    AddedUndone(s2, w, conds[1..], clock, |s.awaits[w].conditions|, s.counters[c].triglist);
    FreshValue(AddConditions(s2, w, conds[1..], clock).1, c);
    AddedFails(s2, w, conds[1..], clock);
  }

  lemma UnrestrainedParts(s: State, c: XID)
    requires Unrestrained(s, c)
    ensures IsSystem(s, c) && s.counters[c].sys.value.counterType == Unrestricted
  {
  }

  lemma FreshUnrestrained(s: State, c: XID)
    requires Fresh(s, c)
    ensures Unrestrained(s, c)
  {
  }

  lemma OldTriggers(s: State, s2: State, w: XID, c: XID, cond: WaitCondition, clock: map<XID, Int64>)
    requires w in s.awaits && c in s.counters && c in s2.counters && s2.counters[c] == s.counters[c]
    requires s2.alarms == s.alarms && w in s2.awaits && s2.awaits == s.awaits[w := s2.awaits[w]]
    requires forall r :: r in s.counters[c].triglist ==> Live(s, r) && (r.AwaitTrigger? ==> r.await != w)
    ensures forall r :: r in s2.counters[c].triglist ==> Live(s2, r) && (r.AwaitTrigger? ==> r.await != w)
  {
  }

  /** The condition just added, and the triggers that were on its counter's list before. */
  lemma AcceptedHere(s: State, s2: State, w: XID, conds: seq<WaitCondition>, clock: map<XID, Int64>)
    requires w in s.awaits && conds != [] && conds[0].counter in s.counters
    requires s2.awaits == s.awaits[w := s.awaits[w].(conditions := s.awaits[w].conditions + [AcceptedCondition(s, conds[0], clock)])]
    requires s2.alarms == s.alarms
    requires forall r :: r in s.counters[conds[0].counter].triglist ==> Live(s, r) && (r.AwaitTrigger? ==> r.await != w)
    ensures s2.awaits[w].conditions[|s.awaits[w].conditions|].trigger.sync == conds[0].counter
    ensures forall r :: r in s.counters[conds[0].counter].triglist ==> Live(s2, r) && (r.AwaitTrigger? ==> r.await != w)
  {
    AcceptedSyncAt(s, conds[0], clock);
    hide AcceptedCondition;
  }

  lemma FirstIsLater(s: State, s2: State, w: XID, conds: seq<WaitCondition>, clock: map<XID, Int64>)
    requires w in s.awaits && FreshConditions(s.awaits[w], conds) && conds != [] && OnlyCounter(s, s2, conds[0].counter)
    requires !Refuses(s, conds[0], clock)
    ensures FirstRefused(s, conds, clock) == 1 + FirstRefused(s2, conds[1..], clock)
  {
    hide Refuses;
    forall j | 0 <= j < |conds[1..]|
      ensures conds[1..][j] == conds[j + 1] && conds[j + 1].counter != conds[0].counter
    {
    }
    FirstRefusedLocal(s, s2, conds[1..], clock);
  }

  /** When the loop fails some condition is refused. */
  lemma {:induction false} AddedFails(s: State, w: XID, conds: seq<WaitCondition>, clock: map<XID, Int64>)
    requires Building(s, w, conds) && AddConditions(s, w, conds, clock).0 != Success
    ensures FirstRefused(s, conds, clock) < |conds|
    decreases |conds|
  {
    hide AddConditions, InitTrigger, LinkedExcept, FreeAwait, Refuses, AcceptedCondition, Settled, Asked;
    var s2 := TurnCases(s, w, conds, clock);
    if !Refuses(s, conds[0], clock) {
      ConditionAdded(s, w, conds[0], clock);
      FirstIsLater(s, s2, w, conds, clock);
      AddedFails(s2, w, conds[1..], clock);
    }
  }

  lemma RefusedAt(s: State, s2: State, w: XID, conds: seq<WaitCondition>, clock: map<XID, Int64>, p: nat)
    requires Building(s, w, conds) && p < |conds| && Unrestrained(s, conds[p].counter) && conds[p].counter != NONE
    requires Refuses(s, conds[0], clock) && w in s2.awaits
    requires conds[0].counter == NONE ==> s2 == s
    requires conds[0].counter != NONE ==>
      s2 == InitTrigger(Appended(s, w, conds[0]), AwaitTrigger(w, |s.awaits[w].conditions|), conds[0].counter, ALL_CHANGES, clock).1
    ensures var c := conds[p].counter;
      RefusedOn(s, FreeAwait(s2, w), c, FirstRefused(s, conds, clock), p, Asked(s, c, clock))
  {
    hide InitTrigger, LinkedExcept, FreeAwait, Fresh, Refuses;
    var c := conds[p].counter;
    assert FirstRefused(s, conds, clock) == 0;
    if conds[0].counter != NONE {
      TurnRefuses(s, w, conds[0], clock);
      RefusedTurn(s, w, conds[0], clock);
      if p == 0 {
        QueryStores(s, c, clock);
      } else {
        OtherCounter(s.awaits[w], conds, p);
        QueriedOther(s, conds[0].counter, clock, c);
      }
    }
    hide QueryValue, Asked;
    FreedElsewhere(s2, w, c);
  }

  // ---------- The whole request ----------

  lemma AwaitRefused(s: State, client: Client, w: XID, conds: seq<WaitCondition>, clock: map<XID, Int64>, p: nat)
    requires ListInv(s) && forall i, j :: 0 <= i < j < |conds| ==> conds[i].counter != conds[j].counter
    requires !InUse(s, w) && AwaitRequest(s, client, w, conds, clock).0 != Success && p < |conds|
    requires Unrestrained(s, conds[p].counter)
    ensures var s', c, k := AwaitRequest(s, client, w, conds, clock).1, conds[p].counter, FirstRefused(s, conds, clock);
      && k < |conds| && s'.alarms == s.alarms && s'.awaits == s.awaits
      && RefusedOn(s, s', c, k, p, Asked(s, c, clock))
  {
    hide AddConditions, AwaitEpilogue, FreshConditions, Refuses, Asked, Fresh;
    var c := conds[p].counter;
    var s0 := s.(awaits := s.awaits[w := Await(client, [])]);
    SyncKept.EmptyAwaitLinked(s, client, w, conds);
    ListInvLinked(s);
    LinkedLive(s, {}, c);
    hide LinkedExcept, Settled;
    FirstRefusedLocal(s, s0, conds, clock);
    AskedLocal(s, s0, c, clock);
    RefusedCounter(s0, w, conds, clock, p);
    GivenUp(s0, w, conds, clock);
    assert s0.awaits - {w} == s.awaits;
  }

  /** The coverage of the counter of condition `p` when condition `k` was refused. */
  ghost predicate RefusedCoverage(s: State, s': State, c: XID, k: nat, p: nat, value: Int64)
    requires IsSystem(s, c)
  {
    var b := s.counters[c].sys.value;
    && c in s'.counters
    && (p < k ==> AnewExactly(s, s', c, s.counters[c].triglist, value))
    && (p == k ==>
        && s'.counters[c] == s.counters[c].(value := value)
        && (LazySound(s', c) <==> NoneMissedAt(s, c, b, value))
        && (Covered(s, c, b) ==> (Covered(s', c, b) <==> TransitionsAt(s, c, b, value))))
    && (p > k ==> s'.counters[c] == s.counters[c] && s'.alarms == s.alarms && s'.awaits == s.awaits)
  }

  /** A refused Await leaves the counter of each condition before the refused one with new brackets, that of the refused
    one with the driver's answer and its old brackets, and those after it alone. */
  lemma AwaitRefusedCovered(s: State, client: Client, w: XID, conds: seq<WaitCondition>, clock: map<XID, Int64>, p: nat)
    requires ListInv(s) && Coherent(s) && forall i, j :: 0 <= i < j < |conds| ==> conds[i].counter != conds[j].counter
    requires !InUse(s, w) && AwaitRequest(s, client, w, conds, clock).0 != Success && p < |conds|
    requires Unrestrained(s, conds[p].counter)
    ensures var s', c, k := AwaitRequest(s, client, w, conds, clock).1, conds[p].counter, FirstRefused(s, conds, clock);
      k < |conds| && RefusedCoverage(s, s', c, k, p, Asked(s, c, clock))
  {
    var s', c, k := AwaitRequest(s, client, w, conds, clock).1, conds[p].counter, FirstRefused(s, conds, clock);
    hide AwaitRequest, ListInv, Coherent, LazySound, NoneMissedAt, TransitionsAt, Covered, AnewExactly, Asked, Fresh, Refuses,
         FirstRefused, SameOn;
    AwaitRefused(s, client, w, conds, clock, p);
    AwaitRequestListInv(s, client, w, conds, clock);
    CoherentSame(s, s');
    var refs := s.counters[c].triglist;
    if p < k {
      UnchangedSame(s, s', c);
      FreshAnew(s, s', c, refs, Asked(s, c, clock));
    } else if p == k {
      StoredAlike(s, s', c, Asked(s, c, clock));
    }
  }

  lemma CoherentSame(s: State, s': State)
    requires Coherent(s) && s'.alarms == s.alarms && s'.awaits == s.awaits
    ensures Coherent(s')
  {
  }

  lemma UnchangedSame(s: State, s': State, c: XID)
    requires ListInv(s) && c in s.counters && s'.alarms == s.alarms && s'.awaits == s.awaits
    ensures SameOn(s, s', s.counters[c].triglist)
  {
    ListInvLinked(s);
    LinkedLive(s, {}, c);
    hide LinkedExcept;
  }

  /** Only the counter's value differs from before, as far as its triggers go. */
  lemma StoredAlike(s: State, s': State, c: XID, v: Int64)
    requires ListInv(s') && Coherent(s') && Unrestrained(s, c) && s'.alarms == s.alarms && s'.awaits == s.awaits
    requires c in s'.counters && s'.counters[c] == s.counters[c].(value := v)
    ensures var b := s.counters[c].sys.value;
      && (LazySound(s', c) <==> NoneMissedAt(s, c, b, v))
      && (Covered(s, c, b) ==> (Covered(s', c, b) <==> TransitionsAt(s, c, b, v)))
  {
    SameArmed(s, s');
    hide ListInv, Coherent, LazySound, Misses, Bracketed, Armed, Live, Silent;
    var b := s.counters[c].sys.value;
    LazySoundExactly(s', c);
    if Covered(s, c, b) {
      forall r | r in s.counters[c].triglist && Armed(s, r)
        ensures IsComparison(Slot(s, r).check) ==> Bracketed(b, v, Slot(s, r))
      {
        BracketedAnywhere(b, s.counters[c].value, v, Slot(s, r));
      }
    }
  }
}
