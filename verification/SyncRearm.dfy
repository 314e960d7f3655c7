/** What the repeated addition of `delta` in SyncAlarmTriggerFired arrives at. */
module SyncRearm {
  import opened SyncModel

  /** The number of additions after which `test` has passed `value`, going by steps of `step`. */
  function StepsPast(distance: nat, step: nat): nat
    requires step > 0
  {
    distance / step + 1
  }

  /** Negation in the integers: the negation of INT64_MIN is no INT64. */
  function Minus(x: int): int {
    -x
  }

  lemma StepsPastStep(distance: nat, step: nat)
    requires 0 < step <= distance
    ensures StepsPast(distance, step) == StepsPast(distance - step, step) + 1
  {
    assert distance == (distance - step) + 1 * step;
    DivAddOne(distance - step, step);
  }

  lemma DivAddOne(x: nat, step: nat)
    requires step > 0
    ensures (x + step) / step == x / step + 1
  {
    var q, r := x / step, x % step;
    assert (q + 1) * step == q * step + step;
    DivUnique(x + step, step, q + 1, r);
  }

  lemma MulAtLeast(a: int, step: nat)
    requires a >= 1
    ensures a * step >= step
  {
    assert a * step == (a - 1) * step + step;
  }

  lemma DivUnique(x: nat, step: nat, q: nat, r: nat)
    requires x == q * step + r && r < step
    ensures x / step == q
  {
    SameQuotient(step, q, r, x / step, x % step);
  }

  lemma SameQuotient(step: nat, q: nat, r: nat, q': nat, r': nat)
    requires q * step + r == q' * step + r' && r < step && r' < step
    ensures q == q'
  {
    assert (q - q') * step == q * step - q' * step;
    assert (q' - q) * step == q' * step - q * step;
    if q' < q {
      MulAtLeast(q - q', step);
    } else if q' > q {
      MulAtLeast(q' - q, step);
    }
  }

  lemma StepsPastNear(distance: nat, step: nat)
    requires distance < step
    ensures StepsPast(distance, step) == 1
  {
    DivUnique(distance, step, 0, distance);
  }

  /** A positive comparison with a positive delta goes to the first value past the counter. */
  lemma {:induction false} RearmPositive(test: Int64, delta: Int64, value: Int64)
    requires delta > 0 && value >= test
    ensures var next := test + StepsPast(value - test, delta) * delta;
      && next > value && next - delta <= value
      && Rearm(PosComparison, test, delta, value) == if Fits(next) then Some(next) else None
    decreases value - test
  {
    var k := StepsPast(value - test, delta);
    if value - test < delta {
      StepsPastNear(value - test, delta);
      assert k * delta == delta;
    } else {
      StepsPastStep(value - test, delta);
      RearmPositive(test + delta, delta, value);
      var k1 := StepsPast(value - test - delta, delta);
      assert k * delta == k1 * delta + delta;
    }
  }

  lemma {:induction false} RearmNegative(test: Int64, delta: Int64, value: Int64)
    requires delta < 0 && value <= test
    ensures var next := test + StepsPast(test - value, Minus(delta)) * delta;
      && next < value && next - delta >= value
      && Rearm(NegComparison, test, delta, value) == if Fits(next) then Some(next) else None
    decreases test - value
  {
    var k := StepsPast(test - value, Minus(delta));
    if test - value < Minus(delta) {
      StepsPastNear(test - value, Minus(delta));
      assert k * delta == delta;
    } else {
      StepsPastStep(test - value, Minus(delta));
      RearmNegative(test + delta, delta, value);
      var k1 := StepsPast(test - value + delta, Minus(delta));
      assert k * delta == k1 * delta + delta;
    }
  }

  /** Old and new value coincide in the loop test, so a transition is false after one addition. */
  lemma RearmTransition(f: CheckFn, test: Int64, delta: Int64, value: Int64)
    requires !IsComparison(f)
    ensures Rearm(f, test, delta, value) == CheckedAdd(test, delta)
  {
  }

  /** The outcome of the loop: None, or a value at which the check is false. */
  lemma {:induction false} RearmFalse(f: CheckFn, test: Int64, delta: Int64, value: Int64)
    ensures Rearm(f, test, delta, value).Some? ==> !CheckAt(f, value, value, Rearm(f, test, delta, value).value)
    decreases if delta > 0 then INT64_MAX - test else test - INT64_MIN
  {
    match CheckedAdd(test, delta)
    case None =>
    case Some(next) =>
      if CheckAt(f, value, value, next) && delta != 0 { RearmFalse(f, next, delta, value); }
  }

  /** The test value a firing alarm must get; None if that value is not an INT64. */
  function NextTestValue(al: Alarm, value: Int64): Option<Int64> {
    var t := al.trigger;
    var next :=
      if t.testType == POSITIVE_COMPARISON && al.delta > 0 && value >= t.testValue then
        t.testValue + StepsPast(value - t.testValue, al.delta) * al.delta
      else if t.testType == NEGATIVE_COMPARISON && al.delta < 0 && value <= t.testValue then
        t.testValue + StepsPast(t.testValue - value, Minus(al.delta)) * al.delta
      else t.testValue + al.delta;
    if Fits(next) then Some(next) else None
  }

  /** An active alarm that fires with the sign of delta its test-type demands: the new test
    value in closed form, the new state, and the events, which show the old test value. */
  lemma AlarmFiredClosedForm(s: State, a: XID)
    requires a in s.alarms && s.alarms[a].state == Active
    requires s.alarms[a].trigger.sync != NONE && s.alarms[a].trigger.sync in s.counters
    requires var al := s.alarms[a]; CheckFnOf(al.trigger.testType) == Some(al.trigger.check)
    requires !WrongDelta(s.alarms[a].trigger.testType, s.alarms[a].delta)
    requires IsComparison(s.alarms[a].trigger.check) ==> Check(s, s.alarms[a].trigger, 0)
    ensures var al := s.alarms[a];
      var value := s.counters[al.trigger.sync].value;
      var stuck := al.delta == 0 && IsComparison(al.trigger.check);
      var next := if stuck then None else NextTestValue(al, value);
      var al' := if next.Some? then al.(trigger := al.trigger.(testValue := next.value)) else al.(state := Inactive);
      AlarmFired(s, a) == s.(alarms := s.alarms[a := al'],
        out := s.out + AlarmEvents((if al.events then [al.client] else []) + al.eventClients,
                                   a, al.trigger.testValue, value, al'.state))
  {
    var al := s.alarms[a];
    var t := al.trigger;
    var value := s.counters[t.sync].value;
    match t.check {
      case PosComparison => if al.delta > 0 { RearmPositive(t.testValue, al.delta, value); }
      case NegComparison => if al.delta < 0 { RearmNegative(t.testValue, al.delta, value); }
      case _ => RearmTransition(t.check, t.testValue, al.delta, value);
    }
    assert s.alarms[a := al] == s.alarms;
  }

  /** `AlarmEvents` sends the same event to every recipient, in order. */
  lemma {:induction false} AlarmEventsEach(clients: seq<Client>, a: XID, test: Int64, value: Int64, state: AlarmState)
    ensures var ev := AlarmEvents(clients, a, test, value, state);
      && |ev| == |clients|
      && forall i :: 0 <= i < |clients| ==> ev[i] == AlarmNotify(clients[i], a, test, value, state)
  {
    if clients != [] { AlarmEventsEach(clients[1..], a, test, value, state); }
  }
}
