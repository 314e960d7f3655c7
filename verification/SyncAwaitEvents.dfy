/** What a client sees when its Await fires, and what remains of the Await. */
module SyncAwaitEvents {
  import opened SyncModel
  import opened SyncLinks
  import opened SyncTypes

  /** Positions of the conditions that report, counted from `base`. */
  ghost function ReportIndices(s: State, conds: seq<Condition>, base: nat): seq<nat> {
    if conds == [] then []
    else (if Reports(s, conds[0]) then [base] else []) + ReportIndices(s, conds[1..], base + 1)
  }

  ghost predicate ReportsAt(s: State, conds: seq<Condition>, i: int) {
    0 <= i < |conds| && Reports(s, conds[i])
  }

  ghost predicate AllReport(s: State, conds: seq<Condition>, base: nat, idx: seq<nat>) {
    forall k :: 0 <= k < |idx| ==> ReportsAt(s, conds, idx[k] - base)
  }

  ghost predicate Increasing(idx: seq<nat>) {
    forall k, m :: 0 <= k < m < |idx| ==> idx[k] < idx[m]
  }

  lemma {:induction false} ReportIndicesExact(s: State, conds: seq<Condition>, base: nat)
    ensures AllReport(s, conds, base, ReportIndices(s, conds, base))
    ensures Increasing(ReportIndices(s, conds, base))
    decreases |conds|
  {
    hide Reports;
    if conds != [] {
      ReportIndicesExact(s, conds[1..], base + 1);
      var rest := ReportIndices(s, conds[1..], base + 1);
      forall k | 0 <= k < |rest|
        ensures base < rest[k] && ReportsAt(s, conds, rest[k] - base)
      {
        assert ReportsAt(s, conds[1..], rest[k] - (base + 1));
      }
    }
  }

  lemma {:induction false} ReportIndicesAll(s: State, conds: seq<Condition>, base: nat, i: nat)
    requires i < |conds| && Reports(s, conds[i])
    ensures base + i in ReportIndices(s, conds, base)
    decreases |conds|
  {
    hide Reports;
    if i > 0 { ReportIndicesAll(s, conds[1..], base + 1, i - 1); }
  }

  lemma {:induction false} SelectEventsAt(s: State, conds: seq<Condition>, base: nat)
    ensures var idx := ReportIndices(s, conds, base);
      |SelectEvents(s, conds)| == |idx| &&
      forall k :: 0 <= k < |idx| ==> base <= idx[k] < base + |conds| && SelectEvents(s, conds)[k] == conds[idx[k] - base]
    decreases |conds|
  {
    hide Reports;
    if conds != [] { SelectEventsAt(s, conds[1..], base + 1); }
  }

  lemma {:induction false} CounterEventsEach(s: State, client: Client, conds: seq<Condition>)
    ensures var ev := CounterEvents(s, client, conds);
      && |ev| == |conds|
      && forall k :: 0 <= k < |ev| ==> ev[k] == EventFor(s, client, conds[k], |ev| - 1 - k)
    decreases |conds|
  {
    if conds != [] { CounterEventsEach(s, client, conds[1..]); }
  }

  ghost function EventFor(s: State, client: Client, cond: Condition, following: nat): Output {
    var t := cond.trigger;
    CounterNotify(client, t.sync, t.testValue, ValueOf(s, t.sync), following, BeingDestroyed(s, t.sync))
  }

  /** The rule of the SYNC protocol for CounterNotify, for one of the four test-types. */
  ghost predicate ProtocolReports(s: State, cond: Condition) {
    var t := cond.trigger;
    var difference := ValueOf(s, t.sync) - t.testValue;
    || BeingDestroyed(s, t.sync)
    || (Fits(difference)
        && if t.testType == POSITIVE_TRANSITION || t.testType == POSITIVE_COMPARISON
           then difference >= cond.threshold else difference <= cond.threshold)
  }

  /** Firing an Await appends, contiguously and in request order, exactly one event for each
    condition the protocol reports, numbered down to 0, and then lets the client go on. */
  lemma AwaitFiredOutput(s: State, w: XID) returns (idx: seq<nat>)
    requires ListInv(s) && w in s.awaits
    requires forall i :: 0 <= i < |s.awaits[w].conditions| ==> s.awaits[w].conditions[i].trigger.testType <= NEGATIVE_COMPARISON
    ensures var aw := s.awaits[w];
      && (forall k :: 0 <= k < |idx| ==> idx[k] < |aw.conditions|)
      && Increasing(idx)
      && (forall i :: 0 <= i < |aw.conditions| ==> (i in idx <==> ProtocolReports(s, aw.conditions[i])))
      && AwaitFired(s, w).out == s.out
          + (if aw.client in s.gone then []
             else seq(|idx|, k requires 0 <= k < |idx| => EventFor(s, aw.client, aw.conditions[idx[k]], |idx| - 1 - k)))
          + [AttendClient(aw.client)]
  {
    var aw := s.awaits[w];
    idx := ReportIndices(s, aw.conditions, 0);
    ReportIndicesExact(s, aw.conditions, 0);
    IndicesByProtocol(s, aw.conditions, idx);
    hide LinkedExcept, AwaitFired, Reports, ReportsAt, AllReport, ProtocolReports, SelectEvents, CounterEvents;
    assert OffUpTo(s, w, 0, {});
    AwaitFiredLinked(s, w, {});
    EventSequence(s, aw.client, aw.conditions, idx);
  }

  lemma IndicesByProtocol(s: State, conds: seq<Condition>, idx: seq<nat>)
    requires idx == ReportIndices(s, conds, 0)
    requires forall i :: 0 <= i < |conds| ==> conds[i].trigger.testType <= NEGATIVE_COMPARISON
    ensures forall i :: 0 <= i < |conds| ==> (i in idx <==> ProtocolReports(s, conds[i]))
  {
    ReportIndicesExact(s, conds, 0);
    forall i | 0 <= i < |conds|
      ensures i in idx <==> ProtocolReports(s, conds[i])
    {
      assert Reports(s, conds[i]) == ProtocolReports(s, conds[i]);
      hide Reports, ProtocolReports;
      if Reports(s, conds[i]) { ReportIndicesAll(s, conds, 0, i); }
      if i in idx {
        var k :| 0 <= k < |idx| && idx[k] == i;
        assert ReportsAt(s, conds, idx[k] - 0);
      }
    }
  }

  lemma EventSequence(s: State, client: Client, conds: seq<Condition>, idx: seq<nat>)
    requires idx == ReportIndices(s, conds, 0)
    ensures forall k :: 0 <= k < |idx| ==> idx[k] < |conds|
    ensures CounterEvents(s, client, SelectEvents(s, conds))
      == seq(|idx|, k requires 0 <= k < |idx| => EventFor(s, client, conds[idx[k]], |idx| - 1 - k))
  {
    SelectEventsAt(s, conds, 0);
    CounterEventsEach(s, client, SelectEvents(s, conds));
    hide SelectEvents, CounterEvents, ReportIndices, EventFor;
  }

  // ---------- The Await leaves every list ----------

  function WithoutAwait(refs: seq<TriggerRef>, w: XID, i: nat): seq<TriggerRef> {
    if refs == [] then []
    else
      (if refs[0].AwaitTrigger? && refs[0].await == w && refs[0].index >= i then [] else [refs[0]])
      + WithoutAwait(refs[1..], w, i)
  }

  lemma {:induction false} WithoutAwaitNext(refs: seq<TriggerRef>, w: XID, i: nat)
    requires NoDup(refs)
    ensures WithoutAwait(refs, w, i) == WithoutAwait(RemoveFirst(refs, AwaitTrigger(w, i)), w, i + 1)
    decreases |refs|
  {
    if refs != [] {
      NoDupPop(refs);
      if refs[0] == AwaitTrigger(w, i) {
        WithoutAwaitSkip(refs[1..], w, i);
      } else {
        WithoutAwaitNext(refs[1..], w, i);
        var rest := RemoveFirst(refs[1..], AwaitTrigger(w, i));
        assert RemoveFirst(refs, AwaitTrigger(w, i)) == [refs[0]] + rest;
        assert ([refs[0]] + rest)[1..] == rest;
      }
    }
  }

  lemma {:induction false} WithoutAwaitSkip(refs: seq<TriggerRef>, w: XID, i: nat)
    requires AwaitTrigger(w, i) !in refs
    ensures WithoutAwait(refs, w, i) == WithoutAwait(refs, w, i + 1)
    decreases |refs|
  {
    if refs != [] { WithoutAwaitSkip(refs[1..], w, i); }
  }

  lemma {:induction false} WithoutAwaitAll(refs: seq<TriggerRef>, w: XID, i: nat)
    requires forall r :: r in refs && r.AwaitTrigger? && r.await == w ==> r.index < i
    ensures WithoutAwait(refs, w, i) == refs
    decreases |refs|
  {
    if refs != [] { WithoutAwaitAll(refs[1..], w, i); }
  }

  lemma LastConditionLists(s: State, w: XID, off: set<TriggerRef>, d: XID)
    requires w in s.awaits && LinkedExcept(s, off) && d in s.counters
    ensures WithoutAwait(s.counters[d].triglist, w, |s.awaits[w].conditions|) == s.counters[d].triglist
    ensures UnlinkFrom(s, w, |s.awaits[w].conditions|) == s
  {
    forall r | r in s.counters[d].triglist
      ensures Live(s, r)
    {
    }
    hide LinkedExcept;
    WithoutAwaitAll(s.counters[d].triglist, w, |s.awaits[w].conditions|);
  }

  lemma OneConditionList(s: State, r: TriggerRef, off: set<TriggerRef>, d: XID)
    requires r.AwaitTrigger? && Live(s, r) && LinkedExcept(s, off) && d in s.counters
    ensures WithoutAwait(s.counters[d].triglist, r.await, r.index)
      == WithoutAwait(DeleteTrigger(s, r).counters[d].triglist, r.await, r.index + 1)
  {
    DeleteTriggerFrame(s, r);
    if d == Slot(s, r).sync {
      WithoutAwaitNext(s.counters[d].triglist, r.await, r.index);
    } else {
      WithoutAwaitSkip(s.counters[d].triglist, r.await, r.index);
    }
  }

  /** One condition deleted from the list it is on: what the deletion of the rest still needs. */
  lemma OneConditionStep(s: State, w: XID, i: nat, off: set<TriggerRef>)
    requires w in s.awaits && i < |s.awaits[w].conditions|
    requires LinkedExcept(s, off) && OffUpTo(s, w, i, off) && Settled(s)
    ensures Live(s, AwaitTrigger(w, i))
    ensures var r := AwaitTrigger(w, i);
      var s1 := DeleteTrigger(s, r);
      && s1.awaits == s.awaits && s1.counters.Keys == s.counters.Keys && Settled(s1)
      && LinkedExcept(s1, off + {r}) && OffUpTo(s1, w, i + 1, off + {r})
      && UnlinkFrom(s, w, i) == UnlinkFrom(s1, w, i + 1)
  {
    var r := AwaitTrigger(w, i);
    hide DeleteTrigger, LinkedExcept;
    DeleteTriggerLinked(s, r, off);
    DeleteTriggerFrame(s, r);
    assert r in AwaitRefs(s, w);
  }

  lemma {:induction false} UnlinkFromLists(s: State, w: XID, i: nat, off: set<TriggerRef>, d: XID)
    requires w in s.awaits && LinkedExcept(s, off) && OffUpTo(s, w, i, off) && Settled(s)
    requires d in s.counters && i <= |s.awaits[w].conditions|
    ensures UnlinkFrom(s, w, i).counters[d].triglist == WithoutAwait(s.counters[d].triglist, w, i)
    decreases |s.awaits[w].conditions| - i
  {
    hide *;
    if i == |s.awaits[w].conditions| {
      LastConditionLists(s, w, off, d);
    } else {
      OneConditionStep(s, w, i, off);
      OneConditionList(s, AwaitTrigger(w, i), off, d);
      UnlinkFromLists(DeleteTrigger(s, AwaitTrigger(w, i)), w, i + 1, off + {AwaitTrigger(w, i)}, d);
    }
  }

  /** A fired Await is gone from the list of every counter that lives on; what else is on
    those lists stays, in the same order. */
  lemma AwaitLeavesLists(s: State, w: XID, d: XID)
    requires ListInv(s) && w in s.awaits && d in s.counters
    ensures AwaitFired(s, w).counters[d].triglist == WithoutAwait(s.counters[d].triglist, w, 0)
    ensures AwaitFired(s, w).awaits == s.awaits - {w}
  {
    var s1 := Emit(s, AwaitEvents(s, w));
    EmitSameLinks(s, AwaitEvents(s, w));
    SameLinksLinked(s, s1, {});
    assert OffUpTo(s1, w, 0, {});
    assert OffUpTo(s, w, 0, {});
    hide LinkedExcept, UnlinkFrom;
    UnlinkFromLists(s1, w, 0, {}, d);
    AwaitFiredLinked(s, w, {});
  }

  // ---------- The saved next pointer of a list walk ----------

  lemma {:induction false} WithoutAwaitConcat(xs: seq<TriggerRef>, ys: seq<TriggerRef>, w: XID, i: nat)
    ensures WithoutAwait(xs + ys, w, i) == WithoutAwait(xs, w, i) + WithoutAwait(ys, w, i)
    decreases |xs|
  {
    if xs == [] {
      assert xs + ys == ys;
    } else {
      WithoutAwaitConcat(xs[1..], ys, w, i);
      assert (xs + ys)[0] == xs[0] && (xs + ys)[1..] == xs[1..] + ys;
      var head := if xs[0].AwaitTrigger? && xs[0].await == w && xs[0].index >= i then [] else [xs[0]];
      assert WithoutAwait(xs + ys, w, i) == head + WithoutAwait(xs[1..] + ys, w, i);
      assert WithoutAwait(xs, w, i) == head + WithoutAwait(xs[1..], w, i);
    }
  }

  lemma {:induction false} WithoutAwaitNone(xs: seq<TriggerRef>, w: XID)
    requires forall r :: r in xs ==> !(r.AwaitTrigger? && r.await == w)
    ensures WithoutAwait(xs, w, 0) == xs
    decreases |xs|
  {
    if xs != [] { WithoutAwaitNone(xs[1..], w); }
  }

  lemma OnlyOneOfAwait(s: State, w: XID, i: nat, c: XID, before: seq<TriggerRef>, rest: seq<TriggerRef>)
    requires ListInv(s) && c in s.counters && s.counters[c].triglist == before + [AwaitTrigger(w, i)] + rest
    ensures w in s.awaits
    ensures forall q :: q in before || q in rest ==> !(q.AwaitTrigger? && q.await == w)
  {
    var r := AwaitTrigger(w, i);
    var list := s.counters[c].triglist;
    assert list[|before|] == r && r in list;
    assert Live(s, r) && Slot(s, r).sync == c;
    forall k | 0 <= k < |list| && k != |before|
      ensures !(list[k].AwaitTrigger? && list[k].await == w)
    {
      assert list[k] in list && list[k] != r;
      assert Live(s, list[k]) && Slot(s, list[k]).sync == c;
    }
    hide LinkedExcept;
    forall q | q in before || q in rest
      ensures !(q.AwaitTrigger? && q.await == w)
    {
      if q in before {
        var k :| 0 <= k < |before| && before[k] == q;
        assert list[k] == q;
      } else {
        var k :| 0 <= k < |rest| && rest[k] == q;
        assert list[|before| + 1 + k] == q;
      }
    }
  }

  lemma WithoutOne(before: seq<TriggerRef>, r: TriggerRef, rest: seq<TriggerRef>)
    requires r.AwaitTrigger?
    requires forall q :: q in before || q in rest ==> !(q.AwaitTrigger? && q.await == r.await)
    ensures WithoutAwait(before + [r] + rest, r.await, 0) == before + rest
  {
    WithoutAwaitNone(before, r.await);
    WithoutAwaitNone(rest, r.await);
    WithoutAwaitConcat(before + [r], rest, r.await, 0);
    WithoutAwaitConcat(before, [r], r.await, 0);
    assert WithoutAwait([r], r.await, 0) == [];
    hide WithoutAwait;
    assert before + [] == before;
  }

  lemma SavedNextAwait(s: State, w: XID, i: nat, c: XID, before: seq<TriggerRef>, rest: seq<TriggerRef>)
    requires ListInv(s) && c in s.counters && s.counters[c].triglist == before + [AwaitTrigger(w, i)] + rest
    ensures w in s.awaits && c in AwaitFired(s, w).counters
    ensures AwaitFired(s, w).counters[c].triglist == before + rest
  {
    var r := AwaitTrigger(w, i);
    OnlyOneOfAwait(s, w, i, c, before, rest);
    AwaitFiredListInv(s, w);
    hide AwaitFired, ListInv;
    AwaitLeavesLists(s, w, c);
    WithoutOne(before, r, rest);
  }

  /** The walks of SyncChangeCounter save the node after the one they fire. Firing removes at
    most the fired node from the list being walked, so the saved node is never freed. */
  lemma SavedNextStaysOnList(s: State, r: TriggerRef, c: XID, before: seq<TriggerRef>, rest: seq<TriggerRef>)
    returns (before': seq<TriggerRef>)
    requires ListInv(s) && c in s.counters && s.counters[c].triglist == before + [r] + rest && Live(s, r)
    ensures c in FireTrigger(s, r).counters && FireTrigger(s, r).counters[c].triglist == before' + rest
    ensures before' == before || before' == before + [r]
  {
    hide ListInv, AwaitFired, AlarmFired;
    match r {
      case AlarmTrigger(a) =>
        before' := before + [r];
        AlarmFiredFrame(s, a);
      case AwaitTrigger(w, i) =>
        before' := before;
        SavedNextAwait(s, w, i, c, before, rest);
    }
  }
}
