/** Everything that is sent when a counter changes or is destroyed, in the order of its trigger list, and what its
  destruction makes of alarms and Awaits.
 */
module SyncSends {
  import opened SyncModel
  import opened SyncLinks
  import opened SyncTypes
  import opened SyncAwaitEvents
  import opened SyncQuiescence
  import opened SyncLazy
  import opened SyncFires

  // ---------- The events of one Await ----------

  /** The events of an Await: one for each condition the protocol reports, in the order of the request and numbered
    down to 0, unless the client has gone; then the client goes on. */
  lemma AwaitEventsGive(s: State, w: XID) returns (idx: seq<nat>)
    requires w in s.awaits
    requires forall i :: 0 <= i < |s.awaits[w].conditions| ==> s.awaits[w].conditions[i].trigger.testType <= 3
    ensures var aw := s.awaits[w];
      && (forall k :: 0 <= k < |idx| ==> idx[k] < |aw.conditions|)
      && Increasing(idx)
      && (forall i :: 0 <= i < |aw.conditions| ==> (i in idx <==> ProtocolReports(s, aw.conditions[i])))
      && AwaitEvents(s, w) ==
          (if aw.client in s.gone then []
           else seq(|idx|, k requires 0 <= k < |idx| => EventFor(s, aw.client, aw.conditions[idx[k]], |idx| - 1 - k)))
          + [AttendClient(aw.client)]
  {
    var aw := s.awaits[w];
    idx := ReportIndices(s, aw.conditions, 0);
    ReportIndicesExact(s, aw.conditions, 0);
    IndicesByProtocol(s, aw.conditions, idx);
    EventSequence(s, aw.client, aw.conditions, idx);
    hide Reports, ReportsAt, AllReport, ProtocolReports, SelectEvents, CounterEvents, ReportIndices, EventFor;
  }

  predicate SameOwner(s: State, s1: State, r: TriggerRef) {
    match r
    case AlarmTrigger(a) => a in s.alarms && a in s1.alarms && s1.alarms[a] == s.alarms[a]
    case AwaitTrigger(w, i) =>
      w in s.awaits && w in s1.awaits && s1.awaits[w] == s.awaits[w] && i < |s.awaits[w].conditions|
  }

  /** What events tell of counters and clients is the same. */
  ghost predicate SameFacts(s: State, s1: State) {
    s1.gone == s.gone && forall d :: ValueOf(s1, d) == ValueOf(s, d) && BeingDestroyed(s1, d) == BeingDestroyed(s, d)
  }

  ghost predicate Agree(s: State, s1: State, refs: seq<TriggerRef>) {
    SameFacts(s, s1) && forall r :: r in refs ==> SameOwner(s, s1, r)
  }

  lemma {:induction false} SelectLocal(s: State, s1: State, conds: seq<Condition>)
    requires SameFacts(s, s1)
    ensures SelectEvents(s1, conds) == SelectEvents(s, conds)
    decreases |conds|
  {
    if conds != [] {
      assert Reports(s1, conds[0]) == Reports(s, conds[0]);
      hide Reports, SameFacts;
      SelectLocal(s, s1, conds[1..]);
    }
  }

  lemma {:induction false} CounterEventsLocal(s: State, s1: State, client: Client, conds: seq<Condition>)
    requires SameFacts(s, s1)
    ensures CounterEvents(s1, client, conds) == CounterEvents(s, client, conds)
    decreases |conds|
  {
    if conds != [] { CounterEventsLocal(s, s1, client, conds[1..]); }
  }

  lemma AwaitEventsLocal(s: State, s1: State, w: XID)
    requires SameFacts(s, s1) && w in s.awaits && w in s1.awaits && s1.awaits[w] == s.awaits[w]
    ensures AwaitEvents(s1, w) == AwaitEvents(s, w)
  {
    SelectLocal(s, s1, s.awaits[w].conditions);
    CounterEventsLocal(s, s1, s.awaits[w].client, SelectEvents(s, s.awaits[w].conditions));
    hide SelectEvents, CounterEvents;
  }

  /** A list names each alarm and each Await at most once. */
  ghost predicate OneEach(refs: seq<TriggerRef>) {
    forall i, j :: 0 <= i < j < |refs| ==> OtherOwner(refs[i], refs[j])
  }

  predicate OtherOwner(q: TriggerRef, r: TriggerRef) {
    q != r && !(q.AwaitTrigger? && r.AwaitTrigger? && q.await == r.await)
  }

  lemma ListedOneEach(s: State, c: XID)
    requires ListInv(s) && c in s.counters
    ensures OneEach(s.counters[c].triglist) && c != NONE
    ensures forall r :: r in s.counters[c].triglist ==> Live(s, r) && Slot(s, r).sync == c
  {
    var refs := s.counters[c].triglist;
    assert forall r :: r in refs ==> Live(s, r) && Slot(s, r).sync == c;
    forall i, j | 0 <= i < j < |refs|
      ensures OtherOwner(refs[i], refs[j])
    {
      assert refs[i] != refs[j] && refs[i] in refs && refs[j] in refs;
    }
  }

  lemma OneEachPop(refs: seq<TriggerRef>)
    requires OneEach(refs) && refs != []
    ensures OneEach(refs[1..]) && forall r :: r in refs[1..] ==> OtherOwner(refs[0], r) && r in refs
  {
    forall r | r in refs[1..]
      ensures OtherOwner(refs[0], r) && r in refs
    {
      var k :| 0 <= k < |refs[1..]| && refs[1..][k] == r;
      assert refs[k + 1] == r;
    }
  }

  // ---------- A counter changes ----------

  /** What a trigger on the counter sends as the counter goes from `before` to `now`. */
  function ChangeSends(s: State, r: TriggerRef, before: Int64, now: Int64): seq<Output>
    requires Live(s, r)
  {
    match r
    case AlarmTrigger(a) =>
      var al := s.alarms[a];
      if al.state == Active && Crosses(al.trigger.testType, before, now, al.trigger.testValue)
      then Told(al, a, now, FiredAlarm(al, now).state) else []
    case AwaitTrigger(w, i) =>
      var t := s.awaits[w].conditions[i].trigger;
      if Crosses(t.testType, before, now, t.testValue) then AwaitEvents(s, w) else []
  }

  function ChangeListSends(s: State, refs: seq<TriggerRef>, before: Int64, now: Int64): seq<Output>
    decreases |refs|
  {
    if refs == [] then []
    else (if Live(s, refs[0]) then ChangeSends(s, refs[0], before, now) else []) + ChangeListSends(s, refs[1..], before, now)
  }

  lemma {:induction false} ChangeListLocal(s: State, s1: State, refs: seq<TriggerRef>, before: Int64, now: Int64)
    requires Agree(s, s1, refs)
    ensures ChangeListSends(s1, refs, before, now) == ChangeListSends(s, refs, before, now)
    decreases |refs|
  {
    if refs != [] {
      assert SameOwner(s, s1, refs[0]);
      if refs[0].AwaitTrigger? { AwaitEventsLocal(s, s1, refs[0].await); }
      hide SameFacts, AwaitEvents, Told, FiredAlarm, Crosses;
      ChangeListLocal(s, s1, refs[1..], before, now);
    }
  }

  /** All triggers of the list are there, on counter `c`, with the check function of their test-type. */
  ghost predicate Listed(s: State, refs: seq<TriggerRef>, c: XID) {
    forall r :: r in refs ==> Live(s, r) && Slot(s, r).sync == c && TypedOwner(s, r)
  }

  ghost predicate TypedOwner(s: State, r: TriggerRef)
    requires Live(s, r)
  {
    match r
    case AlarmTrigger(a) => AlarmTyped(s.alarms[a])
    case AwaitTrigger(w, i) => TriggerOk(s.awaits[w].conditions[i].trigger)
  }

  /** One trigger of the walk: what it sends, and that it leaves the owners of the others alone. */
  lemma FireSends(s: State, refs: seq<TriggerRef>, c: XID, before: Int64)
    requires Linked(s) && Settled(s) && c in s.counters && c != NONE && refs != [] && OneEach(refs) && Listed(s, refs, c)
    ensures var r, now := refs[0], s.counters[c].value;
      var s1 := if Check(s, Slot(s, r), before) then FireTrigger(s, r) else s;
      && Live(s, r) && s1.out == s.out + ChangeSends(s, r, before, now)
      && Linked(s1) && Settled(s1) && c in s1.counters && s1.counters[c].value == now
      && Agree(s, s1, refs[1..]) && Listed(s1, refs[1..], c)
  {
    var r, now := refs[0], s.counters[c].value;
    assert r in refs;
    OneEachPop(refs);
    assert Slot(s, r).sync == c && TypedOwner(s, r);
    CheckCrosses(Slot(s, r), before, now);
    var fires := Check(s, Slot(s, r), before);
    hide FireTrigger, LinkedExcept, TriggerOk, WrongDelta, Crosses, CheckAt;
    if fires {
      FireTriggerLinked(s, r);
      FiredSettled(s, FireTrigger(s, r));
      FireOnly(s, r);
      FiresAgree(s, r, refs[1..]);
      match r {
        case AlarmTrigger(a) => AlarmSends(s, a, before);
        case AwaitTrigger(w, _) => AwaitSends(s, w);
      }
    } else {
      StaysAgree(s, refs[1..]);
    }
    var s1 := if fires then FireTrigger(s, r) else s;
    ListedStays(s, s1, refs[1..], c);
  }

  lemma StaysAgree(s: State, refs: seq<TriggerRef>)
    requires forall r :: r in refs ==> Live(s, r)
    ensures Agree(s, s, refs)
  {
  }

  lemma ListedStays(s: State, s1: State, refs: seq<TriggerRef>, c: XID)
    requires Agree(s, s1, refs) && Listed(s, refs, c)
    ensures Listed(s1, refs, c)
  {
    hide AlarmTyped, TriggerOk, SameFacts;
    forall r | r in refs
      ensures Live(s1, r) && Slot(s1, r).sync == c && TypedOwner(s1, r)
    {
      assert SameOwner(s, s1, r) && Live(s, r);
    }
  }

  lemma AlarmSends(s: State, a: XID, before: Int64)
    requires a in s.alarms && AlarmTyped(s.alarms[a])
    requires s.alarms[a].trigger.sync != NONE && s.alarms[a].trigger.sync in s.counters
    requires Check(s, s.alarms[a].trigger, before)
    ensures var al, now := s.alarms[a], s.counters[s.alarms[a].trigger.sync].value;
      AlarmFired(s, a).out == s.out + if al.state == Active then Told(al, a, now, FiredAlarm(al, now).state) else []
  {
    if s.alarms[a].state == Active {
      hide AlarmFired, FiredAlarm, Told;
      FiringTells(s, a);
    } else {
      assert s.out + [] == s.out;
    }
  }

  lemma AwaitSends(s: State, w: XID)
    requires Linked(s) && Settled(s) && w in s.awaits
    ensures AwaitFired(s, w).out == s.out + AwaitEvents(s, w)
  {
    assert OffUpTo(s, w, 0, {});
    hide AwaitFired, LinkedExcept, AwaitEvents;
    AwaitFiredLinked(s, w, {});
  }

  lemma FiresAgree(s: State, r: TriggerRef, refs: seq<TriggerRef>)
    requires Linked(s) && Settled(s) && Live(s, r)
    requires forall q :: q in refs ==> Live(s, q) && OtherOwner(r, q)
    ensures Agree(s, FireTrigger(s, r), refs)
  {
    var s1 := FireTrigger(s, r);
    FireTriggerLinked(s, r);
    FireOnly(s, r);
    hide FireTrigger, LinkedExcept;
    forall q | q in refs
      ensures SameOwner(s, s1, q)
    {
      if q.AwaitTrigger? { FireAwaits(s, r, q.await); }
    }
  }

  lemma {:induction false} WalkSends(s: State, refs: seq<TriggerRef>, c: XID, before: Int64)
    requires Linked(s) && Settled(s) && c in s.counters && c != NONE && OneEach(refs) && Listed(s, refs, c)
    ensures TriggerWalk(s, refs, before).out == s.out + ChangeListSends(s, refs, before, s.counters[c].value)
    decreases |refs|
  {
    hide FireTrigger, LinkedExcept, Settled, ChangeSends, Agree, Check;
    if refs == [] {
      assert s.out + [] == s.out;
    } else {
      FireSends(s, refs, c, before);
      var now := s.counters[c].value;
      var s1 := if Check(s, Slot(s, refs[0]), before) then FireTrigger(s, refs[0]) else s;
      OneEachPop(refs);
      hide OneEach, Listed;
      WalkSends(s1, refs[1..], c, before);
      ChangeListLocal(s, s1, refs[1..], before, now);
    }
  }

  /** Everything a change sends: for each trigger on the counter's list, in its order, what the rule of its test-type
    asks for, and nothing else. */
  lemma ChangeCounterSends(s: State, c: XID, v: Int64)
    requires ListInv(s) && Coherent(s) && c in s.counters
    ensures ChangeCounter(s, c, v).out ==
      s.out + ChangeListSends(UpdateCounter(s, c, v), s.counters[c].triglist, s.counters[c].value, v)
  {
    var s1, refs := UpdateCounter(s, c, v), s.counters[c].triglist;
    UpdateCounterSameLinks(s, c, v);
    SameLinksLinked(s, s1, {});
    ListedOneEach(s, c);
    ListedTyped(s, s1, refs, c);
    assert Settled(s1) && s1.counters[c].value == v && s1.out == s.out;
    hide TriggerWalk, ComputeBrackets, LinkedExcept, SameLinks, OneEach, Listed, ChangeListSends, ListInv, Coherent;
    WalkSends(s1, refs, c, s.counters[c].value);
    ComputeBracketsFrame(TriggerWalk(s1, refs, s.counters[c].value), c);
  }

  lemma ListedTyped(s: State, s1: State, refs: seq<TriggerRef>, c: XID)
    requires Coherent(s) && s1.alarms == s.alarms && s1.awaits == s.awaits
    requires forall r :: r in refs ==> Live(s, r) && Slot(s, r).sync == c
    ensures Listed(s1, refs, c)
  {
    hide AlarmTyped, TriggerOk, AlarmPlaced, AwaitPlaced;
    forall r | r in refs
      ensures Live(s1, r) && Slot(s1, r).sync == c && TypedOwner(s1, r)
    {
      assert Live(s, r);
    }
  }

  // ---------- A counter is destroyed ----------

  /** What a trigger sends when its counter is destroyed. */
  function DestroySends(s: State, r: TriggerRef): seq<Output>
    requires Live(s, r)
  {
    match r
    case AlarmTrigger(a) => Told(s.alarms[a], a, ValueOf(s, s.alarms[a].trigger.sync), Inactive)
    case AwaitTrigger(w, _) => AwaitEvents(s, w)
  }

  function DestroyListSends(s: State, refs: seq<TriggerRef>): seq<Output>
    decreases |refs|
  {
    if refs == [] then []
    else (if Live(s, refs[0]) then DestroySends(s, refs[0]) else []) + DestroyListSends(s, refs[1..])
  }

  lemma {:induction false} DestroyListLocal(s: State, s1: State, refs: seq<TriggerRef>)
    requires Agree(s, s1, refs)
    ensures DestroyListSends(s1, refs) == DestroyListSends(s, refs)
    decreases |refs|
  {
    if refs != [] {
      assert SameOwner(s, s1, refs[0]);
      if refs[0].AwaitTrigger? { AwaitEventsLocal(s, s1, refs[0].await); }
      assert DestroySends(s1, refs[0]) == DestroySends(s, refs[0]);
      hide SameFacts, DestroySends;
      DestroyListLocal(s, s1, refs[1..]);
    }
  }

  predicate HasAwait(refs: seq<TriggerRef>, w: XID) {
    exists i :: 0 <= i < |refs| && refs[i].AwaitTrigger? && refs[i].await == w
  }

  function OrphanOf(al: Alarm): Alarm {
    al.(state := Inactive, trigger := al.trigger.(sync := 0))
  }

  /** The alarms of the list are inactive and without a counter, its Awaits are gone, and all others are as they were. */
  ghost predicate Orphaned(s: State, s': State, refs: seq<TriggerRef>) {
    && s'.alarms.Keys == s.alarms.Keys
    && (forall a :: a in s.alarms ==>
          s'.alarms[a] == if AlarmTrigger(a) in refs then OrphanOf(s.alarms[a]) else s.alarms[a])
    && (forall w :: w in s'.awaits <==> w in s.awaits && !HasAwait(refs, w))
    && (forall w :: w in s'.awaits ==> s'.awaits[w] == s.awaits[w])
    && s'.gone == s.gone
  }

  lemma OrphanedMore(s: State, s1: State, s2: State, r: TriggerRef, refs: seq<TriggerRef>)
    requires Orphaned(s, s1, [r]) && Orphaned(s1, s2, refs) && forall q :: q in refs ==> OtherOwner(r, q)
    ensures Orphaned(s, s2, [r] + refs)
  {
    var all := [r] + refs;
    forall a | a in s.alarms
      ensures AlarmTrigger(a) in all <==> AlarmTrigger(a) in refs || AlarmTrigger(a) in [r]
    {
    }
    forall w: XID
      ensures HasAwait(all, w) <==> HasAwait([r], w) || HasAwait(refs, w)
    {
      if HasAwait([r], w) { assert all[0] == r; }
      if HasAwait(refs, w) {
        var i :| 0 <= i < |refs| && refs[i].AwaitTrigger? && refs[i].await == w;
        assert all[i + 1] == refs[i];
      }
      if HasAwait(all, w) {
        var i :| 0 <= i < |all| && all[i].AwaitTrigger? && all[i].await == w;
        if i > 0 { assert refs[i - 1] == all[i]; } else { assert [r][0] == all[0]; }
      }
    }
    hide HasAwait;
  }

  /** One turn of FreeCounter's loop. */
  lemma DestroyTurn(s: State, c: XID, refs: seq<TriggerRef>) returns (s2: State)
    requires Linked(s) && AwaitsDistinct(s) && c in s.counters && OnlyDying(s, c)
    requires s.counters[c].triglist == refs && refs != [] && OneEach(refs)
    ensures Live(s, refs[0]) && c in s2.counters && DestroyWalk(s, c, refs) == DestroyWalk(s2, c, refs[1..])
    ensures s2.out == s.out + DestroySends(s, refs[0]) && Orphaned(s, s2, [refs[0]]) && SameFacts(s, s2)
    ensures Linked(s2) && AwaitsDistinct(s2) && OnlyDying(s2, c) && s2.counters[c].triglist == refs[1..]
  {
    hide LinkedExcept;
    var r := refs[0];
    var s1 := SetCounter(s, c, s.counters[c].(triglist := refs[1..]));
    PopLinked(s, c);
    SetCounterFrame(s, c, s.counters[c].(triglist := refs[1..]));
    s2 := TriggerDestroyed(s1, r);
    PoppedSends(s, s1, c, r);
    hide AwaitFired, AlarmCounterDestroyed, DestroySends, Orphaned, SameFacts;
    match r {
      case AlarmTrigger(a) =>
        AlarmCounterDestroyedLinked(s1, a, c);
        AlarmOrphaned(s1, a);
      case AwaitTrigger(w, i) =>
        AwaitDestroyedLinked(s1, w, i, c);
        AwaitOrphaned(s1, w, i, c);
    }
    OrphanedFrom(s, s1, s2, r);
  }

  lemma PoppedSends(s: State, s1: State, c: XID, r: TriggerRef)
    requires c in s.counters && c in s1.counters && Live(s, r)
    requires s1 == SetCounter(s, c, s.counters[c].(triglist := s1.counters[c].triglist))
    ensures Live(s1, r) && DestroySends(s1, r) == DestroySends(s, r) && SameFacts(s, s1)
  {
    if r.AwaitTrigger? { AwaitEventsLocal(s, s1, r.await); }
    hide AwaitEvents;
  }

  lemma OrphanedFrom(s: State, s1: State, s2: State, r: TriggerRef)
    requires s1.alarms == s.alarms && s1.awaits == s.awaits && s1.gone == s.gone && Orphaned(s1, s2, [r])
    requires SameFacts(s, s1) && SameFacts(s1, s2)
    ensures Orphaned(s, s2, [r]) && SameFacts(s, s2)
  {
    hide HasAwait;
  }

  lemma AlarmOrphaned(s: State, a: XID)
    requires a in s.alarms
    ensures var s' := AlarmCounterDestroyed(s, a);
      && Orphaned(s, s', [AlarmTrigger(a)]) && SameFacts(s, s')
      && s'.out == s.out + DestroySends(s, AlarmTrigger(a))
  {
    ToldExactly(s.alarms[a], a, ValueOf(s, s.alarms[a].trigger.sync), Inactive);
    hide AlarmEvents, Told;
    assert !exists w :: HasAwait([AlarmTrigger(a)], w);
  }

  lemma AwaitOrphaned(s: State, w: XID, i: nat, c: XID)
    requires Live(s, AwaitTrigger(w, i)) && LinkedExcept(s, {AwaitTrigger(w, i)})
    requires Slot(s, AwaitTrigger(w, i)).sync == c && c in s.counters
    requires OnlyDying(s, c) && DistinctConditions(s.awaits[w])
    ensures var s' := AwaitFired(s, w);
      && Orphaned(s, s', [AwaitTrigger(w, i)]) && SameFacts(s, s')
      && s'.out == s.out + DestroySends(s, AwaitTrigger(w, i))
  {
    assert OffUpTo(s, w, 0, {AwaitTrigger(w, i)});
    hide AwaitFired, LinkedExcept, AwaitEvents;
    AwaitFiredLinked(s, w, {AwaitTrigger(w, i)});
    assert [AwaitTrigger(w, i)][0].await == w;
    assert forall v :: HasAwait([AwaitTrigger(w, i)], v) <==> v == w;
  }

  lemma {:induction false} DestroyWalkGives(s: State, c: XID, refs: seq<TriggerRef>)
    requires Linked(s) && AwaitsDistinct(s) && c in s.counters && OnlyDying(s, c)
    requires s.counters[c].triglist == refs && OneEach(refs)
    ensures var s' := DestroyWalk(s, c, refs);
      Orphaned(s, s', refs) && s'.out == s.out + DestroyListSends(s, refs)
    decreases |refs|
  {
    hide *;
    if refs == [] {
      NothingDestroyed(s, c);
    } else {
      var r := refs[0];
      OneEachPop(refs);
      var s2 := DestroyTurn(s, c, refs);
      DestroyWalkGives(s2, c, refs[1..]);
      OrphanedAgree(s, s2, r, c, refs[1..]);
      DestroyListLocal(s, s2, refs[1..]);
      OrphanedMore(s, s2, DestroyWalk(s, c, refs), r, refs[1..]);
      DestroyListPush(s, refs);
      assert refs == [r] + refs[1..];
    }
  }

  lemma NothingDestroyed(s: State, c: XID)
    requires c in s.counters
    ensures Orphaned(s, DestroyWalk(s, c, []), []) && DestroyWalk(s, c, []).out == s.out + DestroyListSends(s, [])
  {
  }

  lemma DestroyListPush(s: State, refs: seq<TriggerRef>)
    requires refs != [] && Live(s, refs[0])
    ensures DestroyListSends(s, refs) == DestroySends(s, refs[0]) + DestroyListSends(s, refs[1..])
  {
    hide DestroySends;
  }

  lemma OrphanedAgree(s: State, s2: State, r: TriggerRef, c: XID, refs: seq<TriggerRef>)
    requires Linked(s) && c in s.counters && Orphaned(s, s2, [r]) && SameFacts(s, s2)
    requires forall q :: q in refs ==> OtherOwner(r, q) && q in s.counters[c].triglist
    ensures Agree(s, s2, refs)
  {
    hide SameFacts;
    forall q | q in refs
      ensures SameOwner(s, s2, q)
    {
      assert OtherOwner(r, q) && Live(s, q);
    }
  }

  /** Destroying a counter: every alarm on it, active or not, becomes inactive and is told of the old value; every Await
    with a condition on it is over; all others stay; and this is everything that is sent, in the order of the list. */
  lemma FreeCounterGives(s: State, c: XID)
    requires ListInv(s) && c in s.counters
    ensures var s', refs := FreeCounter(s, c), s.counters[c].triglist;
      var dying := SetCounter(s, c, s.counters[c].(beingDestroyed := true));
      && Orphaned(s, s', refs) && s'.out == s.out + DestroyListSends(dying, refs)
      && s'.counters.Keys == s.counters.Keys - {c}
      && forall d :: d in s'.counters ==> s'.counters[d].value == s.counters[d].value
    ensures forall a :: a in s.alarms ==> (AlarmTrigger(a) in s.counters[c].triglist <==> s.alarms[a].trigger.sync == c)
    ensures forall w :: w in s.awaits ==> (HasAwait(s.counters[c].triglist, w) <==> WaitsFor(s.awaits[w], c))
  {
    hide *;
    var s0, refs := SetCounter(s, c, s.counters[c].(beingDestroyed := true)), s.counters[c].triglist;
    DyingParts(s, c);
    ListedOneEach(s, c);
    ListedAre(s, c);
    DestroyWalkGives(s0, c, refs);
    DestroyWalkLinked(s0, c, refs);
    FreedFrom(s, s0, DestroyWalk(s0, c, refs), c, refs);
  }

  lemma DyingParts(s: State, c: XID)
    requires ListInv(s) && c in s.counters
    ensures var s0 := SetCounter(s, c, s.counters[c].(beingDestroyed := true));
      && Linked(s0) && AwaitsDistinct(s0) && OnlyDying(s0, c) && c in s0.counters
      && s0.counters[c].triglist == s.counters[c].triglist
  {
    DyingSameLinks(s, c);
    SameLinksLinked(s, SetCounter(s, c, s.counters[c].(beingDestroyed := true)), {});
    hide LinkedExcept, SameLinks;
  }

  lemma FreedFrom(s: State, s0: State, s1: State, c: XID, refs: seq<TriggerRef>)
    requires c in s.counters && s0 == SetCounter(s, c, s.counters[c].(beingDestroyed := true))
    requires Orphaned(s0, s1, refs) && DestroyFrame(s0, s1, c)
    requires s1 == DestroyWalk(s0, c, refs) && refs == s.counters[c].triglist
    ensures FreeCounter(s, c) == s1.(counters := s1.counters - {c})
    ensures Orphaned(s, FreeCounter(s, c), refs) && s0.out == s.out
    ensures FreeCounter(s, c).counters.Keys == s.counters.Keys - {c}
    ensures forall d :: d in FreeCounter(s, c).counters ==> FreeCounter(s, c).counters[d].value == s.counters[d].value
  {
    hide DestroyWalk, HasAwait, OrphanOf;
  }

  ghost predicate WaitsFor(aw: Await, c: XID) {
    exists i :: 0 <= i < |aw.conditions| && aw.conditions[i].trigger.sync == c
  }

  lemma ListedAre(s: State, c: XID)
    requires ListInv(s) && c in s.counters
    ensures forall a :: a in s.alarms ==> (AlarmTrigger(a) in s.counters[c].triglist <==> s.alarms[a].trigger.sync == c)
    ensures forall w :: w in s.awaits ==> (HasAwait(s.counters[c].triglist, w) <==> WaitsFor(s.awaits[w], c))
  {
    var refs := s.counters[c].triglist;
    ListedOneEach(s, c);
    forall r | Live(s, r) && Slot(s, r).sync == c
      ensures r in refs
    {
      assert OnItsList(s, r);
    }
    forall a | a in s.alarms
      ensures AlarmTrigger(a) in refs <==> s.alarms[a].trigger.sync == c
    {
      assert Live(s, AlarmTrigger(a)) && Slot(s, AlarmTrigger(a)) == s.alarms[a].trigger;
    }
    hide ListInv, OneEach;
    forall w | w in s.awaits
      ensures HasAwait(refs, w) <==> WaitsFor(s.awaits[w], c)
    {
      if HasAwait(refs, w) {
        var i :| 0 <= i < |refs| && refs[i].AwaitTrigger? && refs[i].await == w;
        assert refs[i] in refs;
        assert s.awaits[w].conditions[refs[i].index].trigger.sync == c;
      }
      if WaitsFor(s.awaits[w], c) {
        var i: nat :| i < |s.awaits[w].conditions| && s.awaits[w].conditions[i].trigger.sync == c;
        assert Live(s, AwaitTrigger(w, i)) && AwaitTrigger(w, i) in refs;
      }
    }
  }
}
