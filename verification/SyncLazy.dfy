/** Exactly when, from a given state on, skipping the walk inside the brackets cannot be told from checking
  every trigger at every wakeup.
 */
module SyncLazy {
  import opened SyncModel
  import opened SyncLinks
  import opened SyncTypes
  import opened SyncRearm
  import opened SyncQuiescence
  import opened SyncBrackets

  // ---------- Lazy and eager checking from a given state ----------

  ghost predicate InRange(us: seq<Wakeup>) {
    forall i :: 0 <= i < |us| ==> INT64_MIN < us[i].idle < INT64_MAX
  }

  /** Whatever the idle times of the wakeups are, the handler leads to the same alarms, awaits, events
    and other counters as checking every trigger at every wakeup. */
  ghost predicate LazySound(s: State, c: XID)
    requires c in s.counters
  {
    forall us :: InRange(us) ==> SameOutside(EagerRun(s, c, us), LazyRun(s, c, us), c)
  }

  /** The brackets never let a wakeup pass: no idle time lies strictly between them. */
  ghost predicate NoSkip(b: SysInfo) {
    forall v: Int64 :: !Passes(b, v)
  }

  // ---------- What is not missed makes no difference ----------

  lemma NoneMissedRuns(s: State, c: XID, us: seq<Wakeup>)
    requires ListInv(s) && Coherent(s) && IsSystem(s, c) && s.counters[c].sys.value.counterType == Unrestricted
    requires NoneMissed(s, c, s.counters[c].sys.value) && InRange(us)
    ensures SameOutside(EagerRun(s, c, us), LazyRun(s, c, us), c)
  {
    hide EagerRun, LazyRun, NoneMissed, SameOutside, ListInv, Coherent, Mirrors;
    MirrorsStart(s, c);
    RunMirrors(s, s, c, us);
    MirrorsSameOutside(EagerRun(s, c, us), LazyRun(s, c, us), c);
  }

  // ---------- A trigger that fires can be seen ----------

  /** The alarm differs or an event was sent, or the Await is gone. */
  ghost predicate Shows(s: State, s': State, r: TriggerRef)
    requires Live(s, r)
  {
    match r
    case AlarmTrigger(a) => a in s'.alarms && (s'.alarms[a] != s.alarms[a] || |s'.out| > |s.out|)
    case AwaitTrigger(w, _) => w !in s'.awaits
  }

  /** Firing one trigger changes no alarm but its own, takes no event back and starts no Await. */
  ghost predicate OnlyFires(s: State, s': State, q: TriggerRef) {
    && |s'.out| >= |s.out| && s'.alarms.Keys == s.alarms.Keys
    && (forall a :: a in s.alarms && AlarmTrigger(a) != q ==> s'.alarms[a] == s.alarms[a])
    && s'.awaits.Keys <= s.awaits.Keys
  }

  lemma FireOnly(s: State, q: TriggerRef)
    requires Linked(s) && Settled(s) && Live(s, q)
    ensures OnlyFires(s, FireTrigger(s, q), q)
  {
    match q
    case AlarmTrigger(a) =>
      AlarmFiredFrame(s, a);
      hide Rearm, AlarmEvents, LinkedExcept, CounterFrame;
    case AwaitTrigger(w, _) =>
      assert OffUpTo(s, w, 0, {});
      hide AwaitFired, LinkedExcept, CounterFrame;
      AwaitFiredLinked(s, w, {});
  }

  lemma {:induction false} WalkOnly(s: State, refs: seq<TriggerRef>, oldval: Int64, a: XID)
    requires Linked(s) && Settled(s)
    ensures var s' := TriggerWalk(s, refs, oldval);
      && |s'.out| >= |s.out| && s'.alarms.Keys == s.alarms.Keys && s'.awaits.Keys <= s.awaits.Keys
      && (a in s.alarms && AlarmTrigger(a) !in refs ==> s'.alarms[a] == s.alarms[a])
    decreases |refs|
  {
    if refs != [] {
      hide FireTrigger, LinkedExcept, FireFrame;
      var fires := Live(s, refs[0]) && Check(s, Slot(s, refs[0]), oldval);
      if fires {
        FireTriggerLinked(s, refs[0]);
        FireOnly(s, refs[0]);
        FiredSettled(s, FireTrigger(s, refs[0]));
      }
      WalkOnly(if fires then FireTrigger(s, refs[0]) else s, refs[1..], oldval, a);
      assert refs == [refs[0]] + refs[1..];
    }
  }

  lemma FiredSettled(s: State, s': State)
    requires Settled(s) && FireFrame(s, s')
    ensures Settled(s')
  {
  }

  /** An alarm that fires and is not silent shows it. */
  lemma AlarmShows(s: State, a: XID, oldval: Int64)
    requires a in s.alarms && s.alarms[a].state == Active && !Silent(s, AlarmTrigger(a))
    requires TriggerOk(s.alarms[a].trigger) && s.alarms[a].trigger.sync != NONE
    requires Check(s, s.alarms[a].trigger, oldval)
    ensures Shows(s, AlarmFired(s, a), AlarmTrigger(a))
  {
    var al := s.alarms[a];
    var t, value := al.trigger, ValueOf(s, al.trigger.sync);
    RearmFalse(t.check, t.testValue, al.delta, value);
    if !IsComparison(t.check) { RearmTransition(t.check, t.testValue, al.delta, value); }
    hide Rearm;
  }

  lemma FiringShows(s: State, r: TriggerRef, oldval: Int64)
    requires Linked(s) && Settled(s) && Armed(s, r) && !Silent(s, r) && TriggerOk(Slot(s, r))
    requires Slot(s, r).sync != NONE && Check(s, Slot(s, r), oldval)
    ensures Shows(s, FireTrigger(s, r), r)
  {
    match r
    case AlarmTrigger(a) =>
      hide AlarmFired;
      AlarmShows(s, a, oldval);
    case AwaitTrigger(w, _) =>
      hide AwaitFired;
      FreeAwaitFrame(s, w);
  }

  /** A walk over a list with a trigger that fires shows it. */
  lemma {:induction false} WalkShows(s: State, refs: seq<TriggerRef>, oldval: Int64, r: TriggerRef)
    requires Linked(s) && Settled(s) && NoDup(refs) && r in refs && Armed(s, r) && !Silent(s, r)
    requires TriggerOk(Slot(s, r)) && Slot(s, r).sync != NONE && Check(s, Slot(s, r), oldval)
    ensures Shows(s, TriggerWalk(s, refs, oldval), r)
    decreases |refs|
  {
    var q := refs[0];
    var fires := Live(s, q) && Check(s, Slot(s, q), oldval);
    var s1 := if fires then FireTrigger(s, q) else s;
    assert TriggerWalk(s, refs, oldval) == TriggerWalk(s1, refs[1..], oldval);
    assert refs == [q] + refs[1..];
    NoDupPop(refs);
    hide TriggerWalk, FireTrigger, LinkedExcept, FireFrame, Check, NoDup, Silent;
    if fires {
      FireTriggerLinked(s, q);
      FireOnly(s, q);
      FiredSettled(s, s1);
    }
    WalkOnly(s1, refs[1..], oldval, if r.AlarmTrigger? then r.alarm else 0);
    if q == r {
      FiringShows(s, r, oldval);
    } else if Live(s1, r) {
      if fires { StillFires(s, q, r, oldval); }
      WalkShows(s1, refs[1..], oldval, r);
    }
  }

  /** What was about to fire still is after another trigger fired. */
  lemma StillFires(s: State, q: TriggerRef, r: TriggerRef, oldval: Int64)
    requires Linked(s) && Settled(s) && Live(s, q) && q != r && Armed(s, r) && Live(FireTrigger(s, q), r)
    ensures var s1 := FireTrigger(s, q);
      && Armed(s1, r) && Slot(s1, r) == Slot(s, r) && Silent(s1, r) == Silent(s, r)
      && Check(s1, Slot(s1, r), oldval) == Check(s, Slot(s, r), oldval)
      && (r.AlarmTrigger? ==> s1.alarms[r.alarm] == s.alarms[r.alarm])
  {
    hide FireTrigger, LinkedExcept;
    FireTriggerLinked(s, q);
    FireOnly(s, q);
    FireKeepsOthers(s, q, r);
  }

  /** Checking every trigger at a value at which an armed trigger fires can be told from not checking. */
  lemma ChangeShows(s: State, c: XID, r: TriggerRef, v: Int64)
    requires ListInv(s) && Coherent(s) && c in s.counters && r in s.counters[c].triglist
    requires Armed(s, r) && !Silent(s, r) && CheckAt(Slot(s, r).check, v, s.counters[c].value, Slot(s, r).testValue)
    ensures var e := ChangeCounter(s, c, v); !(e.alarms == s.alarms && e.awaits == s.awaits && e.out == s.out)
  {
    var s1, refs := UpdateCounter(s, c, v), s.counters[c].triglist;
    UpdateCounterSameLinks(s, c, v);
    SameLinksLinked(s, s1, {});
    ListedTrigger(s, c, r);
    assert Armed(s1, r) && Slot(s1, r) == Slot(s, r) && Silent(s1, r) == Silent(s, r) && Settled(s1);
    hide TriggerWalk, ComputeBrackets, LinkedExcept, SameLinks, Silent, Coherent;
    WalkShows(s1, refs, s.counters[c].value, r);
    var s2 := TriggerWalk(s1, refs, s.counters[c].value);
    ComputeBracketsSameLinks(s2, c);
    ComputeBracketsFrame(s2, c);
    hide FireFrame, ListInv;
  }

  lemma ListedTrigger(s: State, c: XID, r: TriggerRef)
    requires ListInv(s) && Coherent(s) && c in s.counters && r in s.counters[c].triglist
    ensures Live(s, r) && Slot(s, r).sync == c && c != NONE && TriggerOk(Slot(s, r)) && NoDup(s.counters[c].triglist)
  {
  }

  // ---------- What is missed makes a difference ----------

  /** A wakeup that is let pass changes at most the stored value. */
  lemma PassedWakeup(s: State, c: XID, v: Int64)
    requires IsSystem(s, c) && Passes(s.counters[c].sys.value, v)
    ensures var l := IdleWakeup(s, c, false, v);
      && IsSystem(l, c) && l.counters[c].sys == s.counters[c].sys
      && l.alarms == s.alarms && l.awaits == s.awaits && l.out == s.out
  {
    hide ChangeCounter;
  }

  lemma OneWakeup(s: State, c: XID, v: Int64)
    requires IsSystem(s, c)
    ensures EagerRun(s, c, [Wakeup(false, v)]) == ChangeCounter(s, c, v)
    ensures LazyRun(s, c, [Wakeup(false, v)]) == IdleWakeup(s, c, false, v)
  {
    assert [Wakeup(false, v)][1..] == [];
    hide ChangeCounter, IdleWakeup;
  }

  lemma TwoWakeups(s: State, c: XID, x: Int64, v: Int64)
    requires IsSystem(s, c)
    ensures EagerRun(s, c, [Wakeup(false, x), Wakeup(false, v)]) == EagerRun(ChangeCounter(s, c, x), c, [Wakeup(false, v)])
    ensures LazyRun(s, c, [Wakeup(false, x), Wakeup(false, v)]) == LazyRun(IdleWakeup(s, c, false, x), c, [Wakeup(false, v)])
  {
    assert [Wakeup(false, x), Wakeup(false, v)][1..] == [Wakeup(false, v)];
    hide ChangeCounter, IdleWakeup;
  }

  ghost predicate SameVisible(e: State, l: State, c: XID) {
    e.alarms == l.alarms && e.awaits == l.awaits && e.out == l.out && c in e.counters && c in l.counters
    && e.counters[c].triglist == l.counters[c].triglist
  }

  lemma SameOutsideVisible(e: State, l: State, c: XID)
    requires SameOutside(e, l, c)
    ensures SameVisible(e, l, c)
  {
  }

  /** One wakeup at a value at which it fires from where the counter is, the trigger is missed. */
  lemma MissedAtOnce(e: State, l: State, c: XID, r: TriggerRef, v: Int64)
    requires ListInv(e) && Coherent(e) && IsSystem(e, c) && IsSystem(l, c) && SameVisible(e, l, c)
    requires r in e.counters[c].triglist && Armed(e, r) && !Silent(e, r) && Passes(l.counters[c].sys.value, v)
    requires CheckAt(Slot(e, r).check, v, e.counters[c].value, Slot(e, r).testValue)
    ensures !SameOutside(EagerRun(e, c, [Wakeup(false, v)]), LazyRun(l, c, [Wakeup(false, v)]), c)
  {
    hide EagerRun, LazyRun, ChangeCounter, IdleWakeup, ListInv, Coherent, Armed, Silent, CheckAt, Passes;
    OneWakeup(e, c, v);
    OneWakeup(l, c, v);
    PassedWakeup(l, c, v);
    ChangeShows(e, c, r, v);
    if SameOutside(ChangeCounter(e, c, v), IdleWakeup(l, c, false, v), c) {
      hide SameOutside;
      SameOutsideVisible(ChangeCounter(e, c, v), IdleWakeup(l, c, false, v), c);
    }
  }

  /** The wakeups that show a missed trigger: straight to where it fires, or by way of another idle time. */
  lemma MissedShows(s: State, c: XID, r: TriggerRef, x: Int64, v: Int64)
    requires ListInv(s) && Coherent(s) && IsSystem(s, c) && s.counters[c].sys.value.counterType == Unrestricted
    requires r in s.counters[c].triglist && Armed(s, r) && !Silent(s, r)
    requires var b := s.counters[c].sys.value; (x == s.counters[c].value || Passes(b, x)) && Passes(b, v)
    requires CheckAt(Slot(s, r).check, v, x, Slot(s, r).testValue)
    ensures !LazySound(s, c)
  {
    hide EagerRun, LazyRun, ChangeCounter, IdleWakeup, ListInv, Coherent, Armed, Silent, CheckAt, SameOutside, Covered;
    if x == s.counters[c].value {
      MissedAtOnce(s, s, c, r, v);
      assert InRange([Wakeup(false, v)]);
    } else {
      var e, l := ChangeCounter(s, c, x), IdleWakeup(s, c, false, x);
      PassedWakeup(s, c, x);
      ChangeCounterCovers(s, c, x);
      OneWakeup(s, c, x);
      TwoWakeups(s, c, x, v);
      assert InRange([Wakeup(false, x)]) && InRange([Wakeup(false, x), Wakeup(false, v)]);
      if SameOutside(e, l, c) {
        StillThere(s, e, l, c, r, x);
        MissedAtOnce(e, l, c, r, v);
      }
    }
  }

  lemma StillThere(s: State, e: State, l: State, c: XID, r: TriggerRef, x: Int64)
    requires IsSystem(s, c) && SameOutside(e, l, c) && IsSystem(l, c) && l.alarms == s.alarms && l.awaits == s.awaits
    requires l == IdleWakeup(s, c, false, x) && Passes(s.counters[c].sys.value, x)
    requires r in s.counters[c].triglist && Armed(s, r) && !Silent(s, r)
    ensures SameVisible(e, l, c) && r in e.counters[c].triglist && Armed(e, r) && !Silent(e, r) && Slot(e, r) == Slot(s, r)
  {
    hide ChangeCounter;
  }

  /** An unrestricted counter can be checked lazily if and only if no armed trigger that somebody could see fire is
    missed: that is, unless some idle time inside the brackets is where the trigger fires when it comes from the
    counter's value or from another idle time inside. */
  lemma LazySoundExactly(s: State, c: XID)
    requires ListInv(s) && Coherent(s) && IsSystem(s, c) && s.counters[c].sys.value.counterType == Unrestricted
    ensures LazySound(s, c) <==> NoneMissed(s, c, s.counters[c].sys.value)
  {
    var b := s.counters[c].sys.value;
    if NoneMissed(s, c, b) {
      hide ListInv, Coherent, EagerRun, LazyRun, SameOutside, NoneMissed, InRange;
      forall us | InRange(us)
        ensures SameOutside(EagerRun(s, c, us), LazyRun(s, c, us), c)
      {
        NoneMissedRuns(s, c, us);
      }
    } else {
      hide ListInv, Coherent, Silent, Slot, CheckAt, LazySound, Passes;
      var r :| r in s.counters[c].triglist && Armed(s, r) && !Silent(s, r) && Misses(b, s.counters[c].value, Slot(s, r));
      var x: Int64, v: Int64 :| (x == s.counters[c].value || Passes(b, x)) && Passes(b, v)
        && CheckAt(Slot(s, r).check, v, x, Slot(s, r).testValue);
      MissedShows(s, c, r, x, v);
    }
  }

  // ---------- Just after the brackets were set ----------

  /** Every armed transition is bracketed, as SyncComputeBracketValues sees to. */
  ghost predicate TransitionsCovered(s: State, c: XID, b: SysInfo)
    requires c in s.counters
  {
    forall r :: r in s.counters[c].triglist && Armed(s, r) && !IsComparison(Slot(s, r).check) ==>
      Bracketed(b, s.counters[c].value, Slot(s, r))
  }

  /** A value strictly inside the brackets at which an unbracketed comparison holds. */
  lemma PassingValue(b: SysInfo, value: Int64, t: Trigger, w: Int64)
    requires IsComparison(t.check) && !Bracketed(b, value, t) && Passes(b, w)
    ensures Misses(b, value, t)
  {
    var v: Int64 := if t.check == PosComparison then (if t.testValue > w then t.testValue else w)
                    else (if t.testValue < w then t.testValue else w);
    assert Passes(b, v) && CheckAt(t.check, v, value, t.testValue);
  }

  /** With its transitions bracketed, a counter misses nothing if and only if its armed comparisons are bracketed too, or
    the brackets let no idle time pass. */
  lemma CoveredOrNoSkip(s: State, c: XID)
    requires Linked(s) && c in s.counters && s.counters[c].sys.Some? && TransitionsCovered(s, c, s.counters[c].sys.value)
    ensures var b := s.counters[c].sys.value; NoneMissed(s, c, b) <==> Covered(s, c, b) || NoSkip(b)
  {
    hide Bracketed, Passes, LinkedExcept;
    var b := s.counters[c].sys.value;
    if Covered(s, c, b) {
      CoveredNoneMissed(s, c, b);
    } else if !NoSkip(b) {
      var r :| r in s.counters[c].triglist && Armed(s, r) && !Bracketed(b, s.counters[c].value, Slot(s, r));
      var w: Int64 :| Passes(b, w);
      PassingValue(b, s.counters[c].value, Slot(s, r), w);
    }
  }

  /** So it can be checked lazily exactly then. */
  lemma BracketedSoundExactly(s: State, c: XID)
    requires ListInv(s) && Coherent(s) && IsSystem(s, c) && s.counters[c].sys.value.counterType == Unrestricted
    requires TransitionsCovered(s, c, s.counters[c].sys.value)
    ensures var b := s.counters[c].sys.value; LazySound(s, c) <==> Covered(s, c, b) || NoSkip(b)
  {
    hide LazySound, Coherent, LinkedExcept, NoneMissed, Covered, TransitionsCovered, NoSkip;
    LazySoundExactly(s, c);
    CoveredOrNoSkip(s, c);
  }
}
