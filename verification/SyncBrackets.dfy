/** The brackets of a system counter: as long as the counter stays strictly between them, the
  walk over its triggers would change no alarm and no Await, so skipping it is sound.
 */
module SyncBrackets {
  import opened SyncModel
  import opened SyncLinks
  import opened SyncTypes
  import opened SyncQuiescence

  // ---------- What the brackets guarantee ----------

  /** The upper bracket is reported and lies at or below `test`. No counter passes INT64_MAX,
    so a test there needs no bracket. */
  predicate GuardsAbove(b: SysInfo, test: Int64) {
    test == INT64_MAX || (b.hasGreater && b.bracketGreater <= test)
  }

  predicate GuardsBelow(b: SysInfo, test: Int64) {
    test == INT64_MIN || (b.hasLess && b.bracketLess >= test)
  }

  /** With the counter at `value`, the trigger does not fire on the way to any value inside `b`. */
  predicate Bracketed(b: SysInfo, value: Int64, t: Trigger) {
    match t.check
    case PosComparison => GuardsAbove(b, t.testValue)
    case NegComparison => GuardsBelow(b, t.testValue)
    case PosTransition => if value <= t.testValue then GuardsAbove(b, t.testValue) else GuardsBelow(b, t.testValue)
    case NegTransition => if value >= t.testValue then GuardsBelow(b, t.testValue) else GuardsAbove(b, t.testValue)
  }

  /** Every armed trigger of `c` is bracketed by `b`. */
  ghost predicate Covered(s: State, c: XID, b: SysInfo)
    requires c in s.counters
  {
    forall r :: r in s.counters[c].triglist && Armed(s, r) ==> Bracketed(b, s.counters[c].value, Slot(s, r))
  }

  predicate Inside(b: SysInfo, v: Int64) {
    (b.hasGreater ==> v < b.bracketGreater) && (b.hasLess ==> v > b.bracketLess)
  }

  /** A wakeup with this idle time is let pass. */
  predicate Passes(b: SysInfo, v: Int64) {
    Inside(b, v) && INT64_MIN < v < INT64_MAX
  }

  /** With the counter at `value`, wakeups that are let pass can take it to where the trigger fires: from `value`, or
    from another idle time inside the brackets, to one inside the brackets. */
  ghost predicate Misses(b: SysInfo, value: Int64, t: Trigger) {
    exists x: Int64, v: Int64 :: (x == value || Passes(b, x)) && Passes(b, v) && CheckAt(t.check, v, x, t.testValue)
  }

  /** The trigger of an alarm that nobody can see fire: a transition that no delta moves and no client hears of. */
  ghost predicate Silent(s: State, r: TriggerRef) {
    && r.AlarmTrigger? && r.alarm in s.alarms
    && var al := s.alarms[r.alarm];
       !IsComparison(al.trigger.check) && al.delta == 0 && !al.events && al.eventClients == []
  }

  /** No armed trigger of `c` that somebody could see fire is missed. */
  ghost predicate NoneMissed(s: State, c: XID, b: SysInfo)
    requires c in s.counters
  {
    forall r :: r in s.counters[c].triglist && Armed(s, r) ==>
      Silent(s, r) || !Misses(b, s.counters[c].value, Slot(s, r))
  }

  // ---------- SyncComputeBracketValues establishes them ----------

  predicate BracketsSane(b: SysInfo) {
    (b.hasGreater || b.bracketGreater == INT64_MAX) && (b.hasLess || b.bracketLess == INT64_MIN)
  }

  lemma {:induction false} BracketWalkKeeps(s: State, refs: seq<TriggerRef>, value: Int64, b: SysInfo, test: Int64)
    requires BracketsSane(b)
    ensures BracketsSane(BracketWalk(s, refs, value, b))
    ensures BracketWalk(s, refs, value, b).counterType == b.counterType
    ensures GuardsAbove(b, test) ==> GuardsAbove(BracketWalk(s, refs, value, b), test)
    ensures GuardsBelow(b, test) ==> GuardsBelow(BracketWalk(s, refs, value, b), test)
    decreases |refs|
  {
    if refs != [] {
      var b' := if Live(s, refs[0]) then BracketStep(b, value, Slot(s, refs[0])) else b;
      BracketWalkKeeps(s, refs[1..], value, b', test);
    }
  }

  lemma BracketStepGuards(b: SysInfo, value: Int64, t: Trigger)
    requires BracketsSane(b) && b.counterType == Unrestricted && TriggerOk(t)
    requires IsComparison(t.check) ==> !CheckAt(t.check, value, value, t.testValue)
    ensures Bracketed(BracketStep(b, value, t), value, t)
  {
  }

  lemma BracketedKept(b: SysInfo, b': SysInfo, value: Int64, t: Trigger)
    requires Bracketed(b, value, t)
    requires GuardsAbove(b, t.testValue) ==> GuardsAbove(b', t.testValue)
    requires GuardsBelow(b, t.testValue) ==> GuardsBelow(b', t.testValue)
    ensures Bracketed(b', value, t)
  {
  }

  lemma {:induction false} BracketWalkCovers(s: State, refs: seq<TriggerRef>, value: Int64, b: SysInfo, r: TriggerRef)
    requires BracketsSane(b) && b.counterType == Unrestricted
    requires r in refs && Live(s, r) && TriggerOk(Slot(s, r))
    requires var t := Slot(s, r); IsComparison(t.check) ==> !CheckAt(t.check, value, value, t.testValue)
    ensures Bracketed(BracketWalk(s, refs, value, b), value, Slot(s, r))
    decreases |refs|
  {
    var t := Slot(s, r);
    var b' := if Live(s, refs[0]) then BracketStep(b, value, Slot(s, refs[0])) else b;
    BracketWalkKeeps(s, refs[1..], value, b', t.testValue);
    if refs[0] == r {
      BracketStepGuards(b, value, t);
      hide Bracketed, BracketStep;
      BracketedKept(b', BracketWalk(s, refs[1..], value, b'), value, t);
    } else {
      assert refs == [refs[0]] + refs[1..];
      BracketWalkCovers(s, refs[1..], value, b', r);
    }
  }

  /** SyncComputeBracketValues covers the counter when all its armed triggers are false. */
  lemma ComputeBracketsCovers(s: State, c: XID)
    requires Linked(s) && Coherent(s) && IsSystem(s, c) && s.counters[c].sys.value.counterType == Unrestricted
    requires forall r :: r in s.counters[c].triglist ==> Quiet(s, r)
    ensures var s' := ComputeBrackets(s, c); IsSystem(s', c) && Covered(s', c, s'.counters[c].sys.value)
    ensures ComputeBrackets(s, c).counters[c].sys.value.counterType == Unrestricted
  {
    var k := s.counters[c];
    var reset := SysInfo(Unrestricted, INT64_MIN, INT64_MAX, false, false);
    BracketWalkKeeps(s, k.triglist, k.value, reset, 0);
    var b := BracketWalk(s, k.triglist, k.value, reset);
    var s' := ComputeBrackets(s, c);
    assert s'.counters[c] == k.(sys := Some(b));
    hide BracketWalk, Bracketed;
    forall r | r in s'.counters[c].triglist && Armed(s', r)
      ensures Bracketed(b, s'.counters[c].value, Slot(s', r))
    {
      assert Armed(s, r) && Slot(s, r).sync == c && Quiet(s, r);
      assert TriggerOk(Slot(s, r));
      BracketWalkCovers(s, k.triglist, k.value, reset, r);
    }
  }

  /** Just after SyncChangeCounter a counter without restrictions is covered by its brackets. */
  lemma ChangeCounterCovers(s: State, c: XID, v: Int64)
    requires ListInv(s) && Coherent(s) && IsSystem(s, c) && s.counters[c].sys.value.counterType == Unrestricted
    ensures var s' := ChangeCounter(s, c, v);
      && IsSystem(s', c) && s'.counters[c].sys.value.counterType == Unrestricted && s'.counters[c].value == v
      && Covered(s', c, s'.counters[c].sys.value)
      && ListInv(s') && Coherent(s')
  {
    hide TriggerWalk, Coherent, LinkedExcept, ComputeBrackets, ChangeCounter, Covered, FireFrame;
    ChangeCounterListInv(s, c, v);
    ChangeCounterCoherent(s, c, v);
    var s2 := WalkedState(s, c, v);
    hide ListInv;
    forall r | r in s2.counters[c].triglist
      ensures Quiet(s2, r)
    {
      OnListQuiet(s, c, v, r);
    }
    ComputeBracketsCovers(s2, c);
    NewBracketsValue(s2, c);
    ChangeCounterUnfold(s, c, v);
  }

  lemma WalkedState(s: State, c: XID, v: Int64) returns (s2: State)
    requires ListInv(s) && IsSystem(s, c)
    ensures s2 == TriggerWalk(UpdateCounter(s, c, v), s.counters[c].triglist, s.counters[c].value)
    ensures Linked(s2) && IsSystem(s2, c) && s2.counters[c].value == v
    ensures s2.counters[c].sys.value.counterType == s.counters[c].sys.value.counterType
    ensures Coherent(s) ==> Coherent(s2)
  {
    var s1 := UpdateCounter(s, c, v);
    UpdateCounterSameLinks(s, c, v);
    SameLinksLinked(s, s1, {});
    if Coherent(s) { WalkCoherent(s, c, v); }
    hide TriggerWalk, LinkedExcept, Coherent;
    s2 := TriggerWalk(s1, s.counters[c].triglist, s.counters[c].value);
    TriggerWalkLinked(s1, s.counters[c].triglist, s.counters[c].value);
    TriggerWalkType(s1, s.counters[c].triglist, s.counters[c].value);
  }

  lemma WalkCoherent(s: State, c: XID, v: Int64)
    requires ListInv(s) && Coherent(s) && c in s.counters
    ensures Coherent(TriggerWalk(UpdateCounter(s, c, v), s.counters[c].triglist, s.counters[c].value))
  {
    var s1 := UpdateCounter(s, c, v);
    UpdateCounterSameLinks(s, c, v);
    SameLinksLinked(s, s1, {});
    WalkQuiet(s, c, v, AlarmTrigger(0));
    hide TriggerWalk, LinkedExcept, Placed, CounterFrame;
    TriggerWalkLinked(s1, s.counters[c].triglist, s.counters[c].value);
    FiredTypes(s1, TriggerWalk(s1, s.counters[c].triglist, s.counters[c].value));
  }

  lemma FiredTypes(s: State, s': State)
    requires Typed(s) && FireFrame(s, s')
    ensures Typed(s')
  {
    hide CounterFrame;
    assert forall a :: a in s.alarms ==> AlarmFrame(s.alarms[a], s'.alarms[a]);
    assert TypesStay(s, s');
    StayTyped(s, s');
  }

  lemma ChangeCounterCoherent(s: State, c: XID, v: Int64)
    requires ListInv(s) && Coherent(s) && c in s.counters
    ensures Coherent(ChangeCounter(s, c, v))
  {
    hide ChangeCounter, ListInv, Placed, Typed;
    ChangeCounterQuiet(s, c, v, AlarmTrigger(0));
    ChangeCounterTyped(s, c, v);
  }

  lemma ChangeCounterUnfold(s: State, c: XID, v: Int64)
    requires c in s.counters
    ensures ChangeCounter(s, c, v)
      == ComputeBrackets(TriggerWalk(UpdateCounter(s, c, v), s.counters[c].triglist, s.counters[c].value), c)
  {
  }

  lemma OnListQuiet(s: State, c: XID, v: Int64, r: TriggerRef)
    requires ListInv(s) && Coherent(s) && c in s.counters
    ensures var s2 := TriggerWalk(UpdateCounter(s, c, v), s.counters[c].triglist, s.counters[c].value);
      r in s2.counters[c].triglist ==> Quiet(s2, r)
  {
    var s1 := UpdateCounter(s, c, v);
    UpdateCounterSameLinks(s, c, v);
    SameLinksLinked(s, s1, {});
    var refs := s.counters[c].triglist;
    var s2 := TriggerWalk(s1, refs, s.counters[c].value);
    hide TriggerWalk;
    TriggerWalkLinked(s1, refs, s.counters[c].value);
    assert forall q :: q in refs && Live(s1, q) ==> Slot(s1, q).sync == c;
    if r in s2.counters[c].triglist {
      StillOnList(s1, s2, c, r);
      hide LinkedExcept, Coherent, FireFrame;
      TriggerWalkQuiet(s1, refs, s.counters[c].value, c, r);
    }
  }

  lemma StillOnList(s1: State, s2: State, c: XID, r: TriggerRef)
    requires Linked(s1) && Linked(s2) && FireFrame(s1, s2) && c in s2.counters && r in s2.counters[c].triglist
    ensures Live(s2, r) && Live(s1, r) && r in s1.counters[c].triglist
  {
    assert Live(s2, r) && Slot(s2, r).sync == c;
    assert Live(s1, r) && Slot(s1, r).sync == c;
    assert OnItsList(s1, r);
  }

  /** Recomputing brackets never changes a counter's type. */
  ghost predicate TypesKept(s: State, s': State) {
    s'.counters.Keys == s.counters.Keys &&
    forall d :: d in s.counters ==>
      s'.counters[d].sys.Some? == s.counters[d].sys.Some? &&
      (s.counters[d].sys.Some? ==> s'.counters[d].sys.value.counterType == s.counters[d].sys.value.counterType)
  }

  lemma ComputeBracketsType(s: State, c: XID)
    ensures TypesKept(s, ComputeBrackets(s, c))
  {
    if IsSystem(s, c) {
      var k := s.counters[c];
      BracketWalkKeeps(s, k.triglist, k.value, SysInfo(k.sys.value.counterType, INT64_MIN, INT64_MAX, false, false), 0);
    }
  }

  lemma DeleteTriggerType(s: State, r: TriggerRef)
    requires Live(s, r)
    ensures TypesKept(s, DeleteTrigger(s, r))
  {
    var c := Slot(s, r).sync;
    if c in s.counters {
      var s1 := SetCounter(s, c, s.counters[c].(triglist := RemoveFirst(s.counters[c].triglist, r)));
      ComputeBracketsType(s1, c);
      hide ComputeBrackets;
    }
  }

  lemma {:induction false} UnlinkFromType(s: State, w: XID, i: nat)
    requires w in s.awaits
    ensures TypesKept(s, UnlinkFrom(s, w, i))
    decreases |s.awaits[w].conditions| - i
  {
    hide DeleteTrigger;
    if i < |s.awaits[w].conditions| {
      var c := s.awaits[w].conditions[i].trigger.sync;
      var s1 := if BeingDestroyed(s, c) then s else DeleteTrigger(s, AwaitTrigger(w, i));
      DeleteTriggerType(s, AwaitTrigger(w, i));
      DeleteTriggerFrame(s, AwaitTrigger(w, i));
      UnlinkFromType(s1, w, i + 1);
    }
  }

  lemma {:induction false} TriggerWalkType(s: State, refs: seq<TriggerRef>, oldval: Int64)
    ensures TypesKept(s, TriggerWalk(s, refs, oldval))
    decreases |refs|
  {
    if refs != [] {
      var fires := Live(s, refs[0]) && Check(s, Slot(s, refs[0]), oldval);
      var s1 := if fires then FireTrigger(s, refs[0]) else s;
      if fires && refs[0].AwaitTrigger? { UnlinkFromType(Emit(s, AwaitEvents(s, refs[0].await)), refs[0].await, 0); }
      assert TypesKept(s, s1) by { hide UnlinkFrom; }
      hide FireTrigger;
      TriggerWalkType(s1, refs[1..], oldval);
    }
  }

  // ---------- States that differ in the brackets of one counter ----------

  ghost predicate SameButBrackets(s: State, s': State, c: XID) {
    && s'.alarms == s.alarms && s'.awaits == s.awaits && s'.gone == s.gone && s'.out == s.out
    && s'.counters.Keys == s.counters.Keys
    && (forall d :: d in s.counters && d != c ==> s'.counters[d] == s.counters[d])
    && IsSystem(s, c) && IsSystem(s', c)
    && s'.counters[c] == s.counters[c].(sys := s'.counters[c].sys)
    && s'.counters[c].sys.value.counterType == s.counters[c].sys.value.counterType
  }

  lemma {:induction false} BracketWalkSame(s: State, s': State, refs: seq<TriggerRef>, value: Int64, b: SysInfo)
    requires s'.alarms == s.alarms && s'.awaits == s.awaits
    ensures BracketWalk(s', refs, value, b) == BracketWalk(s, refs, value, b)
    decreases |refs|
  {
    if refs != [] {
      var b' := if Live(s, refs[0]) then BracketStep(b, value, Slot(s, refs[0])) else b;
      hide BracketStep;
      BracketWalkSame(s, s', refs[1..], value, b');
    }
  }

  lemma ComputeBracketsSame(s: State, s': State, c: XID, d: XID)
    requires SameButBrackets(s, s', c)
    ensures SameButBrackets(ComputeBrackets(s, d), ComputeBrackets(s', d), c)
  {
    ComputeBracketsType(s, d);
    ComputeBracketsType(s', d);
    if IsSystem(s, d) {
      var k := s.counters[d];
      BracketWalkSame(s, s', k.triglist, k.value, SysInfo(k.sys.value.counterType, INT64_MIN, INT64_MAX, false, false));
    }
    hide BracketWalk;
  }

  lemma DeleteTriggerSame(s: State, s': State, c: XID, r: TriggerRef)
    requires SameButBrackets(s, s', c) && Live(s, r)
    ensures SameButBrackets(DeleteTrigger(s, r), DeleteTrigger(s', r), c)
  {
    var d := Slot(s, r).sync;
    if d in s.counters {
      var s1 := SetCounter(s, d, s.counters[d].(triglist := RemoveFirst(s.counters[d].triglist, r)));
      var s1' := SetCounter(s', d, s'.counters[d].(triglist := RemoveFirst(s'.counters[d].triglist, r)));
      assert SameButBrackets(s1, s1', c);
      hide ComputeBrackets;
      ComputeBracketsSame(s1, s1', c, d);
    }
  }

  lemma {:induction false} UnlinkFromSame(s: State, s': State, c: XID, w: XID, i: nat)
    requires SameButBrackets(s, s', c) && w in s.awaits
    ensures SameButBrackets(UnlinkFrom(s, w, i), UnlinkFrom(s', w, i), c)
    decreases |s.awaits[w].conditions| - i
  {
    if i < |s.awaits[w].conditions| {
      var d := s.awaits[w].conditions[i].trigger.sync;
      var r := AwaitTrigger(w, i);
      DeleteTriggerSame(s, s', c, r);
      DeleteTriggerFrame(s, r);
      assert BeingDestroyed(s, d) == BeingDestroyed(s', d);
      var s1 := if BeingDestroyed(s, d) then s else DeleteTrigger(s, r);
      var s1' := if BeingDestroyed(s', d) then s' else DeleteTrigger(s', r);
      hide DeleteTrigger;
      UnlinkFromSame(s1, s1', c, w, i + 1);
    }
  }

  lemma {:induction false} SelectEventsSame(s: State, s': State, c: XID, conds: seq<Condition>)
    requires SameButBrackets(s, s', c)
    ensures SelectEvents(s', conds) == SelectEvents(s, conds)
    decreases |conds|
  {
    if conds != [] {
      assert Reports(s', conds[0]) == Reports(s, conds[0]);
      SelectEventsSame(s, s', c, conds[1..]);
    }
  }

  lemma {:induction false} CounterEventsSame(s: State, s': State, c: XID, client: Client, conds: seq<Condition>)
    requires SameButBrackets(s, s', c)
    ensures CounterEvents(s', client, conds) == CounterEvents(s, client, conds)
    decreases |conds|
  {
    if conds != [] { CounterEventsSame(s, s', c, client, conds[1..]); }
  }

  lemma AwaitFiredSame(s: State, s': State, c: XID, w: XID)
    requires SameButBrackets(s, s', c) && w in s.awaits
    ensures SameButBrackets(AwaitFired(s, w), AwaitFired(s', w), c)
  {
    var aw := s.awaits[w];
    SelectEventsSame(s, s', c, aw.conditions);
    CounterEventsSame(s, s', c, aw.client, SelectEvents(s, aw.conditions));
    var o := AwaitEvents(s, w);
    assert AwaitEvents(s', w) == o;
    assert SameButBrackets(Emit(s, o), Emit(s', o), c);
    hide UnlinkFrom, AwaitEvents;
    UnlinkFromSame(Emit(s, o), Emit(s', o), c, w, 0);
  }

  lemma AlarmFiredSame(s: State, s': State, c: XID, a: XID)
    requires SameButBrackets(s, s', c) && a in s.alarms
    ensures SameButBrackets(AlarmFired(s, a), AlarmFired(s', a), c)
  {
    hide Rearm, AlarmEvents;
    assert ValueOf(s', s.alarms[a].trigger.sync) == ValueOf(s, s.alarms[a].trigger.sync);
  }

  lemma {:induction false} TriggerWalkSame(s: State, s': State, c: XID, refs: seq<TriggerRef>, oldval: Int64)
    requires SameButBrackets(s, s', c)
    ensures SameButBrackets(TriggerWalk(s, refs, oldval), TriggerWalk(s', refs, oldval), c)
    decreases |refs|
  {
    if refs != [] {
      var r := refs[0];
      var fires := Live(s, r) && Check(s, Slot(s, r), oldval);
      assert fires == (Live(s', r) && Check(s', Slot(s', r), oldval));
      if fires {
        match r {
          case AlarmTrigger(a) => AlarmFiredSame(s, s', c, a);
          case AwaitTrigger(w, _) => AwaitFiredSame(s, s', c, w);
        }
      }
      hide AlarmFired, AwaitFired, SameButBrackets;
      TriggerWalkSame(if fires then FireTrigger(s, r) else s, if fires then FireTrigger(s', r) else s', c, refs[1..], oldval);
    }
  }

  lemma ChangeCounterSame(s: State, s': State, c: XID, v: Int64)
    requires SameButBrackets(s, s', c)
    ensures SameButBrackets(ChangeCounter(s, c, v), ChangeCounter(s', c, v), c)
  {
    var refs := s.counters[c].triglist;
    var oldval := s.counters[c].value;
    assert SameButBrackets(UpdateCounter(s, c, v), UpdateCounter(s', c, v), c);
    TriggerWalkSame(UpdateCounter(s, c, v), UpdateCounter(s', c, v), c, refs, oldval);
    hide TriggerWalk, ComputeBrackets;
    ComputeBracketsSame(TriggerWalk(UpdateCounter(s, c, v), refs, oldval), TriggerWalk(UpdateCounter(s', c, v), refs, oldval), c, c);
  }

  // ---------- Inside the brackets nothing fires ----------

  lemma BracketedInside(b: SysInfo, value: Int64, v: Int64, t: Trigger)
    requires Bracketed(b, value, t) && Inside(b, v) && INT64_MIN < v < INT64_MAX
    ensures Bracketed(b, v, t) && !CheckAt(t.check, v, value, t.testValue)
  {
  }

  lemma BracketedNotMissed(b: SysInfo, value: Int64, t: Trigger)
    requires Bracketed(b, value, t)
    ensures !Misses(b, value, t)
  {
    hide Bracketed, Inside, CheckAt;
    forall x: Int64, v: Int64 | (x == value || Passes(b, x)) && Passes(b, v)
      ensures !CheckAt(t.check, v, x, t.testValue)
    {
      if x != value { BracketedInside(b, value, x, t); }
      BracketedInside(b, x, v, t);
    }
  }

  lemma CoveredNoneMissed(s: State, c: XID, b: SysInfo)
    requires c in s.counters && Covered(s, c, b)
    ensures NoneMissed(s, c, b)
  {
    hide Bracketed, Misses, Silent;
    forall r | r in s.counters[c].triglist && Armed(s, r)
      ensures !Misses(b, s.counters[c].value, Slot(s, r))
    {
      BracketedNotMissed(b, s.counters[c].value, Slot(s, r));
    }
  }

  /** A silent alarm that fires leaves everything as it is. */
  lemma SilentFires(s: State, a: XID)
    requires a in s.alarms && Silent(s, AlarmTrigger(a)) && s.alarms[a].trigger.sync != NONE
    requires TriggerOk(s.alarms[a].trigger)
    ensures AlarmFired(s, a) == s
  {
    var al := s.alarms[a];
    assert Rearm(al.trigger.check, al.trigger.testValue, 0, ValueOf(s, al.trigger.sync)) == Some(al.trigger.testValue);
    assert s.alarms[a := al] == s.alarms;
    assert [] + al.eventClients == [];
    assert AlarmEvents([], a, al.trigger.testValue, ValueOf(s, al.trigger.sync), al.state) == [];
    assert s.out + [] == s.out;
  }

  /** At an idle time that is let pass no trigger of the list does anything. */
  lemma PassedTrigger(s: State, c: XID, b: SysInfo, v: Int64, r: TriggerRef)
    requires Linked(s) && Coherent(s) && c in s.counters && NoneMissed(s, c, b) && Passes(b, v)
    requires r in s.counters[c].triglist
    ensures var s1 := UpdateCounter(s, c, v);
      Live(s1, r) && (Check(s1, Slot(s1, r), s.counters[c].value) ==> FireTrigger(s1, r) == s1)
  {
    var s1 := UpdateCounter(s, c, v);
    assert Live(s, r) && Slot(s, r).sync == c && c != NONE;
    if Armed(s, r) && Check(s1, Slot(s1, r), s.counters[c].value) {
      assert CheckAt(Slot(s, r).check, v, s.counters[c].value, Slot(s, r).testValue);
      assert Misses(b, s.counters[c].value, Slot(s, r));
      assert Silent(s, r) && Silent(s1, r) && TriggerOk(Slot(s, r));
      hide Misses, AlarmFired, LinkedExcept;
      SilentFires(s1, r.alarm);
    }
  }

  lemma {:induction false} NothingFires(s: State, c: XID, b: SysInfo, v: Int64, refs: seq<TriggerRef>)
    requires Linked(s) && Coherent(s) && c in s.counters && NoneMissed(s, c, b) && Passes(b, v)
    requires forall r :: r in refs ==> r in s.counters[c].triglist
    ensures TriggerWalk(UpdateCounter(s, c, v), refs, s.counters[c].value) == UpdateCounter(s, c, v)
    decreases |refs|
  {
    if refs != [] {
      hide FireTrigger, NoneMissed, Coherent, LinkedExcept, Check, Passes;
      assert refs[0] in refs;
      PassedTrigger(s, c, b, v, refs[0]);
      NothingFires(s, c, b, v, refs[1..]);
    }
  }

  lemma StillNotMissed(b: SysInfo, value: Int64, v: Int64, t: Trigger)
    requires Passes(b, v) && !Misses(b, value, t)
    ensures !Misses(b, v, t)
  {
    hide CheckAt, Passes;
  }

  lemma PassedNoneMissed(s: State, c: XID, b: SysInfo, v: Int64)
    requires c in s.counters && NoneMissed(s, c, b) && Passes(b, v)
    ensures NoneMissed(UpdateCounter(s, c, v), c, b)
  {
    hide Misses, Passes;
    var s1 := UpdateCounter(s, c, v);
    forall r | r in s1.counters[c].triglist && Armed(s1, r)
      ensures Silent(s1, r) || !Misses(b, v, Slot(s1, r))
    {
      assert Armed(s, r) && Silent(s1, r) == Silent(s, r);
      if !Silent(s, r) { StillNotMissed(b, s.counters[c].value, v, Slot(s, r)); }
    }
  }

  // ---------- Lazy and eager checking agree ----------

  /** The eager server `e` and the lazy server `l` differ in the brackets of `c` and, while
    there are none, perhaps in its value; the lazy brackets miss nothing in the eager state. */
  ghost predicate Mirrors(e: State, l: State, c: XID) {
    && IsSystem(e, c) && IsSystem(l, c)
    && SameButBrackets(e, UpdateCounter(l, c, e.counters[c].value), c)
    && NoneMissed(e, c, l.counters[c].sys.value)
    && ListInv(l) && Coherent(l)
    && l.counters[c].sys.value.counterType == Unrestricted
    && (l.counters[c].sys.value.hasLess || l.counters[c].sys.value.hasGreater ==> l.counters[c].value == e.counters[c].value)
  }

  lemma MirrorsLinked(e: State, l: State, c: XID)
    requires Mirrors(e, l, c)
    ensures Linked(e)
  {
    var l1 := UpdateCounter(l, c, e.counters[c].value);
    UpdateCounterSameLinks(l, c, e.counters[c].value);
    SameLinksLinked(l, l1, {});
    assert SameLinks(l1, e);
    SameLinksLinked(l1, e, {});
  }

  lemma MirrorsCoherent(e: State, l: State, c: XID)
    requires Mirrors(e, l, c)
    ensures Coherent(e)
  {
  }

  /** A value inside the lazy brackets fires nothing in the eager server. */
  lemma EagerInside(e: State, l: State, c: XID, v: Int64)
    requires Mirrors(e, l, c) && Passes(l.counters[c].sys.value, v)
    ensures var e' := ChangeCounter(e, c, v);
      && IsSystem(e', c) && e'.counters[c].value == v
      && SameButBrackets(e', UpdateCounter(l, c, v), c) && NoneMissed(e', c, l.counters[c].sys.value)
  {
    hide ChangeCounter, TriggerWalk, ListInv, Coherent, NoneMissed, Passes, LinkedExcept, ComputeBrackets;
    var b := l.counters[c].sys.value;
    var refs := e.counters[c].triglist;
    MirrorsLinked(e, l, c);
    MirrorsCoherent(e, l, c);
    NothingFires(e, c, b, v, refs);
    PassedNoneMissed(e, c, b, v);
    var e1 := UpdateCounter(e, c, v);
    ChangeCounterUnfold(e, c, v);
    assert SameButBrackets(e1, UpdateCounter(l, c, v), c);
    NewBracketsMiss(e1, UpdateCounter(l, c, v), c, b);
    hide SameButBrackets;
    NewBracketsValue(e1, c);
  }

  lemma NewBracketsValue(e: State, c: XID)
    requires c in e.counters
    ensures c in ComputeBrackets(e, c).counters && ComputeBrackets(e, c).counters[c].value == e.counters[c].value
  {
  }

  lemma NewBracketsMiss(e: State, l: State, c: XID, b: SysInfo)
    requires SameButBrackets(e, l, c) && NoneMissed(e, c, b)
    ensures SameButBrackets(ComputeBrackets(e, c), l, c) && NoneMissed(ComputeBrackets(e, c), c, b)
  {
    ComputeBracketsType(e, c);
    ComputeBracketsFrame(e, c);
    ComputeBracketsSameLinks(e, c);
    var e' := ComputeBrackets(e, c);
    hide ComputeBrackets, Misses;
    forall r | r in e'.counters[c].triglist && Armed(e', r)
      ensures Silent(e', r) || !Misses(b, e'.counters[c].value, Slot(e', r))
    {
      assert Armed(e, r);
    }
  }

  lemma SkipMirrors(e: State, l: State, c: XID, v: Int64)
    requires Mirrors(e, l, c) && INT64_MIN < v < INT64_MAX
    requires !l.counters[c].sys.value.hasLess && !l.counters[c].sys.value.hasGreater
    ensures Mirrors(ChangeCounter(e, c, v), l, c)
  {
    EagerInside(e, l, c, v);
    hide ChangeCounter, ListInv, Coherent, NoneMissed, SameButBrackets;
  }

  lemma CheckBracketsMirrors(e: State, l: State, c: XID, v: Int64)
    requires Mirrors(e, l, c) && l.counters[c].value == e.counters[c].value && INT64_MIN < v < INT64_MAX
    ensures var e' := ChangeCounter(e, c, v); var l' := CheckBrackets(l, c, v);
      Mirrors(e', l', c) && l'.counters[c].value == e'.counters[c].value
  {
    hide ChangeCounter, ListInv, Coherent, NoneMissed, SameButBrackets;
    var b := l.counters[c].sys.value;
    if Inside(b, v) {
      EagerInside(e, l, c, v);
      UpdateInside(l, c, v);
      var l' := UpdateCounter(l, c, v);
      assert UpdateCounter(l', c, v) == l';
    } else {
      CheckBracketsOutside(e, l, c, v);
    }
  }

  lemma UpdateInside(l: State, c: XID, v: Int64)
    requires ListInv(l) && Coherent(l) && c in l.counters
    ensures ListInv(UpdateCounter(l, c, v)) && Coherent(UpdateCounter(l, c, v))
  {
    UpdateCounterSameLinks(l, c, v);
    SameListInv(l, UpdateCounter(l, c, v));
  }

  lemma CheckBracketsOutside(e: State, l: State, c: XID, v: Int64)
    requires Mirrors(e, l, c) && l.counters[c].value == e.counters[c].value && !Inside(l.counters[c].sys.value, v)
    ensures var e' := ChangeCounter(e, c, v); var l' := CheckBrackets(l, c, v);
      Mirrors(e', l', c) && l'.counters[c].value == e'.counters[c].value
  {
    hide ChangeCounter, ListInv, Coherent, Covered, NoneMissed;
    assert UpdateCounter(l, c, e.counters[c].value) == l;
    ChangeCounterSame(e, l, c, v);
    ChangeCounterCovers(l, c, v);
    var e' := ChangeCounter(e, c, v);
    var l' := ChangeCounter(l, c, v);
    CoveredNoneMissed(l', c, l'.counters[c].sys.value);
    SameNoneMissed(e', l', c, l'.counters[c].sys.value);
    assert UpdateCounter(l', c, e'.counters[c].value) == l';
  }

  lemma SameNoneMissed(e: State, l: State, c: XID, b: SysInfo)
    requires SameButBrackets(e, l, c) && NoneMissed(l, c, b)
    ensures NoneMissed(e, c, b)
  {
    hide Misses;
    forall r | r in e.counters[c].triglist && Armed(e, r)
      ensures Silent(e, r) || !Misses(b, e.counters[c].value, Slot(e, r))
    {
      assert Armed(l, r);
    }
  }

  // ---------- Runs of the idle-time wakeup handler ----------

  datatype Wakeup = Wakeup(wasReset: bool, idle: Int64)

  /** What the handler would do if it checked the triggers every time. */
  function EagerWakeup(s: State, c: XID, u: Wakeup): (s': State)
    requires c in s.counters
    ensures s'.counters.Keys == s.counters.Keys
  {
    ChangeCounter(if u.wasReset && u.idle != 0 then ChangeCounter(s, c, 0) else s, c, u.idle)
  }

  function EagerRun(s: State, c: XID, us: seq<Wakeup>): State
    requires c in s.counters
    decreases |us|
  {
    if us == [] then s else EagerRun(EagerWakeup(s, c, us[0]), c, us[1..])
  }

  function LazyRun(s: State, c: XID, us: seq<Wakeup>): State
    decreases |us|
  {
    if us == [] || !IsSystem(s, c) then s else LazyRun(IdleWakeup(s, c, us[0].wasReset, us[0].idle), c, us[1..])
  }

  lemma WakeupMirrors(e: State, l: State, c: XID, u: Wakeup)
    requires Mirrors(e, l, c) && INT64_MIN < u.idle < INT64_MAX
    ensures Mirrors(EagerWakeup(e, c, u), IdleWakeup(l, c, u.wasReset, u.idle), c)
  {
    hide ChangeCounter, CheckBrackets, ListInv, Coherent, NoneMissed, SameButBrackets;
    var b := l.counters[c].sys.value;
    if !b.hasLess && !b.hasGreater {
      if u.wasReset && u.idle != 0 { SkipMirrors(e, l, c, 0); }
      SkipMirrors(if u.wasReset && u.idle != 0 then ChangeCounter(e, c, 0) else e, l, c, u.idle);
    } else {
      var e1, l1 := e, l;
      if u.wasReset && u.idle != 0 {
        CheckBracketsMirrors(e, l, c, 0);
        e1, l1 := ChangeCounter(e, c, 0), CheckBrackets(l, c, 0);
      }
      CheckBracketsMirrors(e1, l1, c, u.idle);
    }
  }

  lemma {:induction false} RunMirrors(e: State, l: State, c: XID, us: seq<Wakeup>)
    requires Mirrors(e, l, c) && forall i :: 0 <= i < |us| ==> INT64_MIN < us[i].idle < INT64_MAX
    ensures Mirrors(EagerRun(e, c, us), LazyRun(l, c, us), c)
    decreases |us|
  {
    if us != [] {
      hide EagerWakeup, IdleWakeup;
      WakeupMirrors(e, l, c, us[0]);
      RunMirrors(EagerWakeup(e, c, us[0]), IdleWakeup(l, c, us[0].wasReset, us[0].idle), c, us[1..]);
    }
  }

  /** The same alarms, awaits, events and other counters, and the same triggers on `c`. */
  ghost predicate SameOutside(e: State, l: State, c: XID) {
    && l.alarms == e.alarms && l.awaits == e.awaits && l.out == e.out && l.gone == e.gone
    && l.counters.Keys == e.counters.Keys
    && (forall d :: d in e.counters && d != c ==> l.counters[d] == e.counters[d])
    && c in e.counters && l.counters[c].triglist == e.counters[c].triglist
  }

  lemma MirrorsSameOutside(e: State, l: State, c: XID)
    requires Mirrors(e, l, c)
    ensures SameOutside(e, l, c)
  {
    hide ListInv, Coherent, NoneMissed;
  }

  lemma MirrorsStart(s: State, c: XID)
    requires ListInv(s) && Coherent(s) && IsSystem(s, c) && s.counters[c].sys.value.counterType == Unrestricted
    requires NoneMissed(s, c, s.counters[c].sys.value)
    ensures Mirrors(s, s, c)
  {
    hide ListInv, Coherent, NoneMissed;
    assert UpdateCounter(s, c, s.counters[c].value) == s;
    assert SameButBrackets(s, s, c);
  }

  /** The bracket optimisation is invisible: started from any SyncChangeCounter on a counter
    without restrictions, the wakeup handler leads to the same alarms, awaits, events and other
    counters as checking every trigger at every wakeup, whatever the idle times are. */
  lemma LazyBracketsSound(s: State, c: XID, v: Int64, us: seq<Wakeup>)
    requires ListInv(s) && Coherent(s) && IsSystem(s, c) && s.counters[c].sys.value.counterType == Unrestricted
    requires forall i :: 0 <= i < |us| ==> INT64_MIN < us[i].idle < INT64_MAX
    ensures SameOutside(EagerRun(ChangeCounter(s, c, v), c, us), LazyRun(ChangeCounter(s, c, v), c, us), c)
  {
    hide ChangeCounter, EagerRun, LazyRun, Covered, NoneMissed, SameOutside, ListInv, Coherent, Mirrors;
    ChangeCounterCovers(s, c, v);
    var s1 := ChangeCounter(s, c, v);
    CoveredNoneMissed(s1, c, s1.counters[c].sys.value);
    MirrorsStart(s1, c);
    RunMirrors(s1, s1, c, us);
    MirrorsSameOutside(EagerRun(s1, c, us), LazyRun(s1, c, us), c);
  }

  // ---------- Why not from any request ----------

  const IDLE_AT_10 := Counter(10, [], false, Some(SysInfo(Unrestricted, INT64_MIN, INT64_MAX, false, false)))

  const EVERY_25 := AlarmAttributes(Some(1), None, Some(0), None, Some(25), None, false)

  /** An alarm every 25 ms on an idle counter at 10, first due at 0: it fires while it is being
    created and is due again at 25, but only the bracket below, at 0, is armed. */
  function CreatedState(): State {
    var t := NEW_TRIGGER.(sync := 1, testValue := 25);
    State(map[1 := Counter(10, [AlarmTrigger(2)], false, Some(SysInfo(Unrestricted, 0, INT64_MAX, true, false)))],
          map[2 := NewAlarm(0).(trigger := t, delta := 25, state := Active)], map[], {},
          [AlarmNotify(0, 2, 0, 10, Active)])
  }

  lemma CreatedStateReached()
    ensures Step(SetCounter(INITIAL, 1, IDLE_AT_10), CreateAlarmReq(0, 2, EVERY_25, map[])) == (Success, CreatedState())
  {
    var r := AlarmTrigger(2);
    var s0 := SetAlarm(SetCounter(INITIAL, 1, IDLE_AT_10), 2, NewAlarm(0));
    var al := NewAlarm(0).(delta := 25);
    var s3 := SetAlarm(s0, 2, al);
    assert InitChecks(s3, r, 1, ChangesOf(EVERY_25), map[]) == (Success, SetSlot(s3, r, al.trigger));
    SetSlotSame(s3, r);
    assert DeleteTrigger(s3, r) == s3;
    var s4 := SetSlot(s3, r, al.trigger.(sync := 1));
    assert [r] + [] == [r];
    var k := Counter(10, [r], false, IDLE_AT_10.sys);
    var s5 := SetCounter(s4, 1, k);
    assert AddTrigger(s4, r) == ComputeBrackets(s5, 1);
    var reset := SysInfo(Unrestricted, INT64_MIN, INT64_MAX, false, false);
    assert BracketStep(reset, 10, Slot(s5, r)) == SysInfo(Unrestricted, 0, INT64_MAX, true, false);
    assert [r][1..] == [];
    assert BracketWalk(s5, [r], 10, reset) == SysInfo(Unrestricted, 0, INT64_MAX, true, false);
    var s6 := ComputeBrackets(s5, 1);
    var s7 := SetAlarm(s6, 2, al.(trigger := al.trigger.(sync := 1), state := Active));
    assert ChangeAlarmAttributes(s0, 0, 2, EVERY_25, map[]) == (Success, s7);
    assert Rearm(PosComparison, 0, 25, 10) == Some(25);
    assert AlarmEvents([0], 2, 0, 10, Active) == [AlarmNotify(0, 2, 0, 10, Active)];
    assert AlarmFired(s7, 2) == CreatedState();
  }

  /** At idle time 30 the eager check reports the alarm and the brackets let it pass in silence. */
  lemma CreationIsNotCovered()
    ensures var s := CreatedState();
      && CheckBrackets(s, 1, 30).out == s.out
      && ChangeCounter(s, 1, 30).out == s.out + [AlarmNotify(0, 2, 25, 30, Active)]
  {
    var s := CreatedState();
    var r := AlarmTrigger(2);
    var s1 := UpdateCounter(s, 1, 30);
    assert Rearm(PosComparison, 25, 25, 30) == Some(50);
    assert AlarmEvents([0], 2, 25, 30, Active) == [AlarmNotify(0, 2, 25, 30, Active)];
    var s2 := AlarmFired(s1, 2);
    assert s2.out == s.out + [AlarmNotify(0, 2, 25, 30, Active)];
    assert [r][1..] == [];
    assert TriggerWalk(s1, [r], 10) == TriggerWalk(s2, [], 10);
    ComputeBracketsFrame(s2, 1);
  }
}
