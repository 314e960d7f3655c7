/** Which brackets SyncComputeBracketValues sets, for every type of counter: the nearest test values above and below. */
module SyncBracketValues {
  import opened SyncModel

  /** A counter of type `ct` that stands at `value` has to be watched on its way up to the trigger's test value. */
  predicate WatchedAbove(ct: CounterType, t: Trigger, value: Int64) {
    || (t.testType == 0 && ct != NeverDecreases && value <= t.testValue)
    || (t.testType == 1 && ct != NeverIncreases && value < t.testValue)
    || (t.testType == 2 && ct != NeverIncreases && value < t.testValue)
    || (t.testType == 3 && ct != NeverDecreases && value < t.testValue)
  }

  /** The same on its way down. */
  predicate WatchedBelow(ct: CounterType, t: Trigger, value: Int64) {
    || (t.testType == 0 && ct != NeverDecreases && value > t.testValue)
    || (t.testType == 1 && ct != NeverIncreases && value >= t.testValue)
    || (t.testType == 2 && ct != NeverIncreases && value > t.testValue)
    || (t.testType == 3 && ct != NeverDecreases && value > t.testValue)
  }

  /** The trigger is watched above, at a value that can be a bracket. */
  predicate AsksAbove(s: State, q: TriggerRef, ct: CounterType, value: Int64, test: Int64) {
    test < 0x7fff_ffff_ffff_ffff && Live(s, q) && WatchedAbove(ct, Slot(s, q), value) && Slot(s, q).testValue == test
  }

  predicate AsksBelow(s: State, q: TriggerRef, ct: CounterType, value: Int64, test: Int64) {
    test > -0x8000_0000_0000_0000 && Live(s, q) && WatchedBelow(ct, Slot(s, q), value) && Slot(s, q).testValue == test
  }

  /** A trigger among `refs` does so. */
  ghost predicate AskedAbove(s: State, refs: seq<TriggerRef>, ct: CounterType, value: Int64, test: Int64) {
    exists q :: q in refs && AsksAbove(s, q, ct, value, test)
  }

  ghost predicate AskedBelow(s: State, refs: seq<TriggerRef>, ct: CounterType, value: Int64, test: Int64) {
    exists q :: q in refs && AsksBelow(s, q, ct, value, test)
  }

  /** The upper bracket is the least test value watched above, the lower one the greatest watched below; a bracket that
    nothing asks for is at the end of the range, and the driver is given none. */
  ghost predicate Nearest(s: State, refs: seq<TriggerRef>, value: Int64, b: SysInfo) {
    && (if b.hasGreater then AskedAbove(s, refs, b.counterType, value, b.bracketGreater)
        else b.bracketGreater == 0x7fff_ffff_ffff_ffff)
    && (if b.hasLess then AskedBelow(s, refs, b.counterType, value, b.bracketLess)
        else b.bracketLess == -0x8000_0000_0000_0000)
    && (forall test :: AskedAbove(s, refs, b.counterType, value, test) ==> b.bracketGreater <= test)
    && (forall test :: AskedBelow(s, refs, b.counterType, value, test) ==> b.bracketLess >= test)
  }

  lemma AskedMore(s: State, refs: seq<TriggerRef>, q: TriggerRef, ct: CounterType, value: Int64, test: Int64)
    ensures AskedAbove(s, refs + [q], ct, value, test) <==>
      (AskedAbove(s, refs, ct, value, test) || AsksAbove(s, q, ct, value, test))
    ensures AskedBelow(s, refs + [q], ct, value, test) <==>
      (AskedBelow(s, refs, ct, value, test) || AsksBelow(s, q, ct, value, test))
  {
    hide AsksAbove, AsksBelow;
    assert forall r :: r in refs + [q] <==> r in refs || r == q;
  }

  lemma StepNearest(s: State, refs: seq<TriggerRef>, q: TriggerRef, value: Int64, b: SysInfo)
    requires Nearest(s, refs, value, b)
    ensures Nearest(s, refs + [q], value, if Live(s, q) then BracketStep(b, value, Slot(s, q)) else b)
  {
    hide AskedAbove, AskedBelow, Live, Slot;
    forall test: Int64
      ensures AskedAbove(s, refs + [q], b.counterType, value, test) <==>
        (AskedAbove(s, refs, b.counterType, value, test) || AsksAbove(s, q, b.counterType, value, test))
      ensures AskedBelow(s, refs + [q], b.counterType, value, test) <==>
        (AskedBelow(s, refs, b.counterType, value, test) || AsksBelow(s, q, b.counterType, value, test))
    {
      AskedMore(s, refs, q, b.counterType, value, test);
    }
  }

  lemma {:induction false} WalkNearest(s: State, done: seq<TriggerRef>, refs: seq<TriggerRef>, value: Int64, b: SysInfo)
    requires Nearest(s, done, value, b)
    ensures Nearest(s, done + refs, value, BracketWalk(s, refs, value, b))
    ensures BracketWalk(s, refs, value, b).counterType == b.counterType
    decreases |refs|
  {
    if refs == [] {
      assert done + refs == done;
    } else {
      var q := refs[0];
      var b' := if Live(s, q) then BracketStep(b, value, Slot(s, q)) else b;
      assert b'.counterType == b.counterType;
      hide Nearest, BracketStep;
      StepNearest(s, done, q, value, b);
      WalkNearest(s, done + [q], refs[1..], value, b');
      assert done + [q] + refs[1..] == done + refs;
    }
  }

  /** SyncComputeBracketValues sets the nearest brackets and nothing else; a counter that never changes has none. */
  lemma BracketsNearest(s: State, c: XID)
    requires IsSystem(s, c)
    ensures var k, s' := s.counters[c], ComputeBrackets(s, c);
      if k.sys.value.counterType == NeverChanges then s' == s
      else
        && IsSystem(s', c) && s' == s.(counters := s.counters[c := k.(sys := s'.counters[c].sys)])
        && s'.counters[c].sys.value.counterType == k.sys.value.counterType
        && Nearest(s, k.triglist, k.value, s'.counters[c].sys.value)
  {
    var k := s.counters[c];
    var reset := SysInfo(k.sys.value.counterType, INT64_MIN, INT64_MAX, false, false);
    assert Nearest(s, [], k.value, reset);
    hide Nearest, BracketStep;
    WalkNearest(s, [], k.triglist, k.value, reset);
    assert [] + k.triglist == k.triglist;
    hide BracketWalk;
  }
}
