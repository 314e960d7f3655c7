/** What an Await request does: the first condition that is refused gives the answer, otherwise the conditions are
  pending as requested, or the Await is over at once.
 */
module SyncAwaitRequests {
  import opened SyncModel
  import opened SyncLinks
  import opened SyncTypes
  import opened SyncAwaitEvents
  import opened SyncQuiescence
  import opened SyncCoverage
  import opened SyncAwaitCoverage
  import opened SyncRefusedAwait
  import opened SyncRequests

  // ---------- The answer ----------

  const ALL := Changes(true, true, true, true)

  function ConditionVerdict(s: State, cond: WaitCondition, clock: map<XID, Int64>): Status {
    if cond.counter == 0 then BadCounter
    else Verdict(s, Trigger(0, cond.valueType, cond.waitValue, cond.testType, PosComparison, 0), cond.counter, ALL, clock)
  }

  /** The answer to the first condition that is refused. */
  function FirstVerdict(s: State, conds: seq<WaitCondition>, clock: map<XID, Int64>): Status {
    if conds == [] then Success
    else if ConditionVerdict(s, conds[0], clock) != Success then ConditionVerdict(s, conds[0], clock)
    else FirstVerdict(s, conds[1..], clock)
  }

  lemma {:induction false} FirstVerdictLocal(s: State, s': State, conds: seq<WaitCondition>, clock: map<XID, Int64>)
    requires s'.counters.Keys == s.counters.Keys
    requires forall j :: 0 <= j < |conds| && conds[j].counter in s.counters ==>
      s'.counters[conds[j].counter] == s.counters[conds[j].counter]
    ensures FirstVerdict(s', conds, clock) == FirstVerdict(s, conds, clock)
    decreases |conds|
  {
    if conds != [] {
      assert ConditionVerdict(s', conds[0], clock) == ConditionVerdict(s, conds[0], clock);
      hide ConditionVerdict;
      FirstVerdictLocal(s, s', conds[1..], clock);
    }
  }

  lemma TurnAnswer(s: State, w: XID, cond: WaitCondition, clock: map<XID, Int64>)
    requires w in s.awaits && cond.counter != NONE
    ensures InitTrigger(Appended(s, w, cond), AwaitTrigger(w, |s.awaits[w].conditions|), cond.counter, ALL_CHANGES, clock).0
      == ConditionVerdict(s, cond, clock)
  {
    hide InitTrigger, Verdict;
    var s1, r := Appended(s, w, cond), AwaitTrigger(w, |s.awaits[w].conditions|);
    InitVerdict(s1, r, cond.counter, ALL, clock);
    VerdictLocal(s, s1, WaitTrigger(cond), cond.counter, ALL, clock);
  }

  /** The loop of ProcSyncAwait: its answer; it sends nothing, and alarms stay. */
  lemma {:induction false} AddAnswer(s: State, w: XID, conds: seq<WaitCondition>, clock: map<XID, Int64>)
    requires Building(s, w, conds)
    ensures var (rc, s') := AddConditions(s, w, conds, clock);
      rc == FirstVerdict(s, conds, clock) && s'.out == s.out && s'.gone == s.gone
    decreases |conds|
  {
    hide LinkedExcept, FreshConditions, Settled, FreeAwait, InitTrigger, ConditionVerdict;
    if conds == [] {
    } else if conds[0].counter == NONE {
      assert ConditionVerdict(s, conds[0], clock) == BadCounter by { NoCounter(s, conds[0], clock); }
      FreedSilent(s, w, conds);
    } else {
      TurnAnswer(s, w, conds[0], clock);
      var cond := Condition(WaitTrigger(conds[0]), conds[0].threshold);
      var rc, s2 := AddConditionLinked(s, w, conds, cond, clock);
      TurnSilent(s, w, conds[0], clock);
      if rc != Success {
        FreedDistinct(s2, w);
      } else {
        AddAnswer(s2, w, conds[1..], clock);
        ConditionAdded(s, w, conds[0], clock);
        VerdictLater(s, s2, w, conds, clock);
      }
    }
  }

  lemma NoCounter(s: State, cond: WaitCondition, clock: map<XID, Int64>)
    requires cond.counter == NONE
    ensures ConditionVerdict(s, cond, clock) == BadCounter
  {
  }

  lemma FreedSilent(s: State, w: XID, conds: seq<WaitCondition>)
    requires Building(s, w, conds)
    ensures FreeAwait(s, w).out == s.out && FreeAwait(s, w).gone == s.gone
  {
    assert Linked(s) && Settled(s);
    hide FreeAwait;
    FreedDistinct(s, w);
  }

  lemma FreedDistinct(s: State, w: XID)
    requires Linked(s) && Settled(s) && w in s.awaits
    ensures FreeAwait(s, w).out == s.out && FreeAwait(s, w).gone == s.gone
  {
    assert OffUpTo(s, w, 0, {});
    hide FreeAwait, LinkedExcept;
    FreeAwaitLinked(s, w, {});
  }

  lemma TurnSilent(s: State, w: XID, cond: WaitCondition, clock: map<XID, Int64>)
    requires w in s.awaits
    ensures var r := AwaitTrigger(w, |s.awaits[w].conditions|);
      var s2 := InitTrigger(Appended(s, w, cond), r, cond.counter, ALL_CHANGES, clock).1;
      s2.out == s.out && s2.gone == s.gone
  {
    hide InitTrigger, QueryFrame;
    var r := AwaitTrigger(w, |s.awaits[w].conditions|);
    var t := InitTriggerShape(Appended(s, w, cond), r, cond.counter, ALL_CHANGES, clock);
  }

  lemma VerdictLater(s: State, s2: State, w: XID, conds: seq<WaitCondition>, clock: map<XID, Int64>)
    requires w in s.awaits && FreshConditions(s.awaits[w], conds) && conds != [] && OnlyCounter(s, s2, conds[0].counter)
    ensures FirstVerdict(s2, conds[1..], clock) == FirstVerdict(s, conds[1..], clock)
  {
    forall j | 0 <= j < |conds[1..]|
      ensures conds[1..][j] == conds[j + 1] && conds[j + 1].counter != conds[0].counter
    {
    }
    FirstVerdictLocal(s, s2, conds[1..], clock);
  }

  ghost predicate DifferentCounters(conds: seq<WaitCondition>) {
    forall i, j :: 0 <= i < j < |conds| ==> conds[i].counter != conds[j].counter
  }

  lemma StartsEmpty(s: State, client: Client, w: XID, conds: seq<WaitCondition>)
    requires ListInv(s) && w !in s.awaits && DifferentCounters(conds)
    ensures var s0 := s.(awaits := s.awaits[w := Await(client, [])]);
      Building(s0, w, conds) && s0.awaits - {w} == s.awaits && s0.awaits[w].conditions == []
  {
    EmptyLinked(s, client, w);
    EmptyFresh(client, conds);
    hide LinkedExcept, FreshConditions;
  }

  /** The answer to an Await, and what is left when it is refused. */
  lemma AwaitAnswer(s: State, client: Client, w: XID, conds: seq<WaitCondition>, clock: map<XID, Int64>)
    requires ListInv(s) && DifferentCounters(conds)
    ensures var (rc, s') := AwaitRequest(s, client, w, conds, clock);
      && rc == (if conds == [] then BadValue else if Taken(s, w) then BadIDChoice else FirstVerdict(s, conds, clock))
      && (rc != Success ==> s'.alarms == s.alarms && s'.awaits == s.awaits && s'.out == s.out && s'.gone == s.gone)
  {
    if conds != [] && !InUse(s, w) {
      var s0 := s.(awaits := s.awaits[w := Await(client, [])]);
      StartsEmpty(s, client, w, conds);
      FirstVerdictLocal(s, s0, conds, clock);
      hide AddConditions, FirstVerdict, Building, DifferentCounters, ListInv, AwaitEpilogue;
      AddAnswer(s0, w, conds, clock);
      if AddConditions(s0, w, conds, clock).0 != Success { GivenUp(s0, w, conds, clock); }
    }
  }

  // ---------- An accepted Await ----------

  /** The condition is pending as requested, when its counter showed `now`. */
  predicate Pending(cond: Condition, req: WaitCondition, now: int) {
    && cond.threshold == req.threshold
    && cond.trigger.sync == req.counter && cond.trigger.valueType == req.valueType
    && cond.trigger.waitValue == req.waitValue && cond.trigger.testType == req.testType
    && Suits(req.testType, cond.trigger.check)
    && cond.trigger.testValue == Aim(req.valueType, req.waitValue, now)
  }

  ghost predicate AllPending(s: State, pending: seq<Condition>, conds: seq<WaitCondition>, clock: map<XID, Int64>) {
    |pending| == |conds| &&
    forall i :: 0 <= i < |conds| ==> Pending(pending[i], conds[i], Reads(s, conds[i].counter, clock))
  }

  lemma {:induction false} AcceptedPending(s: State, conds: seq<WaitCondition>, clock: map<XID, Int64>)
    requires FirstVerdict(s, conds, clock) == Success
    ensures AllPending(s, AcceptedConditions(s, conds, clock), conds, clock)
    ensures forall i :: 0 <= i < |conds| ==> conds[i].counter != 0
    decreases |conds|
  {
    if conds != [] {
      var t := WaitTrigger(conds[0]);
      if conds[0].counter != 0 { AcceptedInitialised(s, t, conds[0].counter, ALL, clock); }
      hide Verdict, AcceptedTrigger, Reads;
      AcceptedPending(s, conds[1..], clock);
      var accepted := AcceptedConditions(s, conds, clock);
      hide AcceptedCondition;
      assert accepted == [AcceptedCondition(s, conds[0], clock)] + AcceptedConditions(s, conds[1..], clock);
      forall i | 0 <= i < |conds|
        ensures Pending(accepted[i], conds[i], Reads(s, conds[i].counter, clock)) && conds[i].counter != 0
      {
        if i > 0 { assert conds[i] == conds[1..][i - 1] && accepted[i] == AcceptedConditions(s, conds[1..], clock)[i - 1]; }
      }
    }
  }

  /** A condition holds already: a comparison that is true of what its counter shows. */
  ghost predicate SomeHoldsNow(s: State, pending: seq<Condition>, clock: map<XID, Int64>) {
    exists i :: 0 <= i < |pending| && HoldsNow(pending[i].trigger, Reads(s, pending[i].trigger.sync, clock))
  }

  /** The rule for CounterNotify: the difference to the test value is an INT64 and has reached the threshold. */
  predicate Reached(cond: Condition, now: int) {
    var difference := now - cond.trigger.testValue;
    Fits(difference) &&
    if cond.trigger.testType == 0 || cond.trigger.testType == 2 then difference >= cond.threshold else difference <= cond.threshold
  }

  function Notice(client: Client, cond: Condition, now: Int64, following: nat): Output {
    CounterNotify(client, cond.trigger.sync, cond.trigger.testValue, now, following, false)
  }

  ghost predicate ReachedOnly(s: State, pending: seq<Condition>, clock: map<XID, Int64>, idx: seq<nat>) {
    && (forall k :: 0 <= k < |idx| ==> idx[k] < |pending|)
    && Increasing(idx)
    && forall i :: 0 <= i < |pending| ==> (i in idx <==> Reached(pending[i], Reads(s, pending[i].trigger.sync, clock)))
  }

  /** An accepted Await: the client is ignored; if a condition holds already it is told at once which have reached their
    thresholds, in the order of the request, and goes on; otherwise the Await is pending. */
  lemma AwaitGives(s: State, client: Client, w: XID, conds: seq<WaitCondition>, clock: map<XID, Int64>)
    returns (pending: seq<Condition>, idx: seq<nat>)
    requires ListInv(s) && DifferentCounters(conds) && AwaitRequest(s, client, w, conds, clock).0 == Success
    ensures AllPending(s, pending, conds, clock) && ReachedOnly(s, pending, clock, idx)
    ensures var s' := AwaitRequest(s, client, w, conds, clock).1;
      var over := SomeHoldsNow(s, pending, clock);
      var notices := if client in s.gone then []
        else seq(|idx|, k requires 0 <= k < |idx| =>
               Notice(client, pending[idx[k]], Reads(s, pending[idx[k]].trigger.sync, clock), |idx| - 1 - k));
      && w !in s.awaits && s'.alarms == s.alarms && s'.gone == s.gone
      && s'.awaits == (if over then s.awaits else s.awaits[w := Await(client, pending)])
      && s'.out == s.out + [IgnoreClient(client)] + (if over then notices + [AttendClient(client)] else [])
      && AskedValues(s, s', conds, clock)
  {
    hide *;
    pending := AcceptedConditions(s, conds, clock);
    var s2 := AcceptedState(s, client, w, conds, clock);
    AcceptedPending(s, conds, clock);
    PendingTyped(s, pending, conds, clock);
    AskedShows(s, s2, pending, conds, clock);
    AcceptedHolds(s, s2, w, pending, clock);
    EpilogueExactly(s2, w, 0);
    idx := AwaitFiredOutput(s2, w);
    AcceptedReports(s, s2, w, pending, clock, idx);
    FiredAway(s, s2, client, w, conds, clock);
  }

  /** The counters named in the request show what their drivers answered. */
  ghost predicate AskedValues(s: State, s': State, conds: seq<WaitCondition>, clock: map<XID, Int64>) {
    && s'.counters.Keys == s.counters.Keys
    && forall d :: d in s.counters ==>
      s'.counters[d].value == if Named(conds, d) then Reads(s, d, clock) else s.counters[d].value
  }

  /** The state in which the epilogue starts. */
  lemma AcceptedState(s: State, client: Client, w: XID, conds: seq<WaitCondition>, clock: map<XID, Int64>)
    returns (s2: State)
    requires ListInv(s) && DifferentCounters(conds) && AwaitRequest(s, client, w, conds, clock).0 == Success
    ensures w !in s.awaits && w in s2.awaits && ListInv(s2) && Settled(s2) && FirstVerdict(s, conds, clock) == Success
    ensures AwaitRequest(s, client, w, conds, clock).1 == AwaitEpilogue(s2, w, 0)
    ensures s2.alarms == s.alarms && s2.gone == s.gone && s2.out == s.out + [IgnoreClient(client)]
    ensures s2.awaits == s.awaits[w := Await(client, AcceptedConditions(s, conds, clock))]
    ensures AskedValues(s, s2, conds, clock)
  {
    AwaitAnswer(s, client, w, conds, clock);
    var s0 := s.(awaits := s.awaits[w := Await(client, [])]);
    var s1 := AddConditions(s0, w, conds, clock).1;
    s2 := Emit(s1, [IgnoreClient(client)]);
    StartsEmpty(s, client, w, conds);
    hide AddConditions, AwaitEpilogue, FreshConditions, LinkedExcept, AcceptedCondition, FirstVerdict, Reads, Added, AskedValues;
    AddAnswer(s0, w, conds, clock);
    AddedAll(s0, w, conds, clock);
    AcceptedLocal(s, s0, conds, clock);
    AddedPlain(s, s0, s1, client, w, conds, clock);
    AddConditionsLinked(s0, w, conds, clock);
    AddedListInv(s0, s1, w);
    EmitSameLinks(s1, [IgnoreClient(client)]);
    SameListInv(s1, s2);
    assert AskedValues(s, s1, conds, clock) ==> AskedValues(s, s2, conds, clock) by { EmitAsked(s, s1, s2, conds, clock); }
  }

  lemma EmitAsked(s: State, s1: State, s2: State, conds: seq<WaitCondition>, clock: map<XID, Int64>)
    requires s2.counters == s1.counters
    ensures AskedValues(s, s1, conds, clock) ==> AskedValues(s, s2, conds, clock)
  {
  }

  lemma AddedListInv(s0: State, s1: State, w: XID)
    requires AwaitsDistinct(s0) && Linked(s1) && Settled(s1)
    requires forall v :: v in s1.awaits && v != w ==> v in s0.awaits && s1.awaits[v] == s0.awaits[v]
    requires w in s1.awaits ==> FreshConditions(s1.awaits[w], [])
    ensures ListInv(s1)
  {
  }

  lemma AddedPlain(s: State, s0: State, s1: State, client: Client, w: XID, conds: seq<WaitCondition>, clock: map<XID, Int64>)
    requires s0 == s.(awaits := s.awaits[w := Await(client, [])]) && Added(s0, s1, w, conds, clock)
    requires AcceptedConditions(s0, conds, clock) == AcceptedConditions(s, conds, clock)
    ensures s1.alarms == s.alarms && AskedValues(s, s1, conds, clock)
    ensures s1.awaits == s.awaits[w := Await(client, AcceptedConditions(s, conds, clock))]
  {
    hide AcceptedConditions, Reads;
    assert [] + AcceptedConditions(s, conds, clock) == AcceptedConditions(s, conds, clock);
    assert s0.awaits[w := Await(client, AcceptedConditions(s, conds, clock))]
        == s.awaits[w := Await(client, AcceptedConditions(s, conds, clock))];
    forall d | d in s.counters
      ensures s1.counters[d].value == if Named(conds, d) then Reads(s, d, clock) else s.counters[d].value
    {
      QueryReads(s0, d, clock);
      VerdictLocal(s, s0, NEW_TRIGGER, d, ALL, clock);
      if Named(conds, d) {
        var j :| 0 <= j < |conds| && conds[j].counter == d;
        assert ValueOf(s1, conds[j].counter) == Asked(s0, conds[j].counter, clock);
      }
    }
  }

  lemma PendingTyped(s: State, pending: seq<Condition>, conds: seq<WaitCondition>, clock: map<XID, Int64>)
    requires AllPending(s, pending, conds, clock) && forall i :: 0 <= i < |conds| ==> conds[i].counter != 0
    ensures forall i :: 0 <= i < |pending| ==>
      TriggerOk(pending[i].trigger) && pending[i].trigger.testType <= NEGATIVE_COMPARISON && pending[i].trigger.sync != 0
    ensures forall i :: 0 <= i < |pending| ==> Named(conds, pending[i].trigger.sync)
  {
    forall i | 0 <= i < |pending|
      ensures Named(conds, pending[i].trigger.sync)
    {
      assert conds[i].counter == pending[i].trigger.sync;
    }
  }

  /** In the state the epilogue starts in, the values are those the drivers answered. */
  ghost predicate ShowsAsked(s: State, s2: State, pending: seq<Condition>, clock: map<XID, Int64>) {
    forall i :: 0 <= i < |pending| ==> ValueOf(s2, pending[i].trigger.sync) == Reads(s, pending[i].trigger.sync, clock)
  }

  lemma AskedShows(s: State, s2: State, pending: seq<Condition>, conds: seq<WaitCondition>, clock: map<XID, Int64>)
    requires AskedValues(s, s2, conds, clock) && forall i :: 0 <= i < |pending| ==> Named(conds, pending[i].trigger.sync)
    ensures ShowsAsked(s, s2, pending, clock)
  {
    hide Named;
    forall i | 0 <= i < |pending|
      ensures ValueOf(s2, pending[i].trigger.sync) == Reads(s, pending[i].trigger.sync, clock)
    {
      if pending[i].trigger.sync !in s.counters { UnknownReads(s, pending[i].trigger.sync, clock); }
    }
  }

  lemma AcceptedHolds(s: State, s2: State, w: XID, pending: seq<Condition>, clock: map<XID, Int64>)
    requires w in s2.awaits && s2.awaits[w].conditions == pending && ShowsAsked(s, s2, pending, clock)
    requires forall i :: 0 <= i < |pending| ==> TriggerOk(pending[i].trigger) && pending[i].trigger.sync != 0
    ensures SomeHolds(s2, w, 0) <==> SomeHoldsNow(s, pending, clock)
  {
    hide Reads;
    forall i | 0 <= i < |pending|
      ensures ConditionHolds(s2, pending[i].trigger)
        <==> HoldsNow(pending[i].trigger, Reads(s, pending[i].trigger.sync, clock))
    {
      assert ValueOf(s2, pending[i].trigger.sync) == Reads(s, pending[i].trigger.sync, clock);
    }
    hide ConditionHolds, HoldsNow;
  }

  lemma AcceptedReports(s: State, s2: State, w: XID, pending: seq<Condition>, clock: map<XID, Int64>, idx: seq<nat>)
    requires w in s2.awaits && s2.awaits[w].conditions == pending && ShowsAsked(s, s2, pending, clock) && Settled(s2)
    requires forall k :: 0 <= k < |idx| ==> idx[k] < |pending|
    requires Increasing(idx) && forall i :: 0 <= i < |pending| ==> (i in idx <==> ProtocolReports(s2, pending[i]))
    requires forall i :: 0 <= i < |pending| ==> pending[i].trigger.testType <= NEGATIVE_COMPARISON
    ensures ReachedOnly(s, pending, clock, idx)
    ensures forall k, n: nat {:trigger EventFor(s2, s2.awaits[w].client, pending[idx[k]], n)} :: 0 <= k < |idx| ==>
      EventFor(s2, s2.awaits[w].client, pending[idx[k]], n)
        == Notice(s2.awaits[w].client, pending[idx[k]], Reads(s, pending[idx[k]].trigger.sync, clock), n)
  {
    hide Reads, Increasing;
    forall i | 0 <= i < |pending|
      ensures ProtocolReports(s2, pending[i]) <==> Reached(pending[i], Reads(s, pending[i].trigger.sync, clock))
    {
      assert ValueOf(s2, pending[i].trigger.sync) == Reads(s, pending[i].trigger.sync, clock);
    }
  }

  lemma FiredAway(s: State, s2: State, client: Client, w: XID, conds: seq<WaitCondition>, clock: map<XID, Int64>)
    requires ListInv(s2) && w in s2.awaits && w !in s.awaits && s2.awaits == s.awaits[w := s2.awaits[w]]
    requires AskedValues(s, s2, conds, clock)
    ensures var s' := AwaitFired(s2, w);
      s'.awaits == s.awaits && s'.alarms == s2.alarms && s'.gone == s2.gone && AskedValues(s, s', conds, clock)
  {
    assert OffUpTo(s2, w, 0, {});
    hide AwaitFired, LinkedExcept, Named, Reads;
    AwaitFiredLinked(s2, w, {});
    assert s.awaits[w := s2.awaits[w]] - {w} == s.awaits;
  }
}
