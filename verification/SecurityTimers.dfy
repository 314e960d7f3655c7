/** How long a generated authorization lives: its timeout cut into timer delays (Xext/security.c, os/WaitFor.c). */
module SecurityTimers {

  type CARD32 = x: int | 0 <= x < 0x1_0000_0000

  const MILLI_PER_SECOND: nat := 1000

  /** The full seconds that fit in 32 bits of milliseconds. */
  const MAX_SECONDS: CARD32 := 0xffff_ffff / MILLI_PER_SECOND

  /** The delay handed out for some seconds. */
  function DelayFor(seconds: CARD32): CARD32 {
    if seconds > MAX_SECONDS then MAX_SECONDS * MILLI_PER_SECOND else seconds * MILLI_PER_SECOND
  }

  /** The seconds that did not fit. */
  function Overflow(seconds: CARD32): CARD32 {
    if seconds > MAX_SECONDS then seconds - MAX_SECONDS else 0
  }

  /** The delays handed out from the start of the timer to its last expiry. */
  function Delays(seconds: CARD32): seq<CARD32>
    decreases seconds
  {
    [DelayFor(seconds)] + if Overflow(seconds) == 0 then [] else Delays(Overflow(seconds))
  }

  function Sum(s: seq<CARD32>): nat {
    if s == [] then 0 else s[0] + Sum(s[1..])
  }

  /** The delays add up to the timeout, whatever it is. */
  lemma {:induction false} DelaysAddUp(seconds: CARD32)
    ensures Sum(Delays(seconds)) == seconds * MILLI_PER_SECOND
    decreases seconds
  {
    var rest := Overflow(seconds);
    assert Delays(seconds)[1..] == if rest == 0 then [] else Delays(rest);
    if rest != 0 {
      DelaysAddUp(rest);
    }
  }

  /** There is one expiry for every MAX_SECONDS begun: a thousand and one at most. */
  lemma {:induction false} ExpiriesCounted(seconds: CARD32)
    requires seconds > 0
    ensures (|Delays(seconds)| - 1) * 4294967 < seconds <= |Delays(seconds)| * 4294967
    ensures |Delays(seconds)| <= 1001
    decreases seconds
  {
    if Overflow(seconds) != 0 {
      ExpiriesCounted(Overflow(seconds));
    }
  }

  // ---- What the timer does with a delay ----

  /**
   * TimerSet arms the timer only for a delay that is positive as a signed 32-bit number; it runs the callback at
   * once for one that is not, and does nothing for zero.
   */
  predicate Waits(delay: CARD32) {
    0 < delay < 0x8000_0000
  }

  /** The time until the authorization is freed: the delays that are waited for. */
  function Lifetime(delays: seq<CARD32>): nat {
    if delays == [] then 0 else (if Waits(delays[0]) then delays[0] else 0) + Lifetime(delays[1..])
  }

  lemma {:induction false} LifetimeAtMost(delays: seq<CARD32>)
    ensures Lifetime(delays) <= Sum(delays)
    ensures forall i :: 0 <= i < |delays| && delays[i] > 0 && !Waits(delays[i]) ==> Lifetime(delays) < Sum(delays)
  {
    if delays != [] {
      LifetimeAtMost(delays[1..]);
      forall i | 0 <= i < |delays| && delays[i] > 0 && !Waits(delays[i])
        ensures Lifetime(delays) < Sum(delays)
      {
        if i > 0 {
          assert delays[1..][i - 1] == delays[i];
        }
      }
    }
  }

  /** The authorization lives as long as its timeout says exactly when that is below 2^31 milliseconds. */
  lemma LivesItsTimeout(timeout: CARD32)
    ensures Lifetime(Delays(timeout)) == timeout * MILLI_PER_SECOND <==> timeout * MILLI_PER_SECOND < 0x8000_0000
  {
    DelaysAddUp(timeout);
    LifetimeAtMost(Delays(timeout));
    assert Delays(timeout)[0] == DelayFor(timeout);
    if timeout * MILLI_PER_SECOND < 0x8000_0000 {
      assert Delays(timeout) == [DelayFor(timeout)];
      assert Delays(timeout)[1..] == [];
    }
  }

  /** An authorization generated for 25 days is freed at once. */
  lemma TwentyFiveDays()
    ensures Lifetime(Delays(25 * 24 * 3600)) == 0
  {
    var t: CARD32 := 25 * 24 * 3600;
    assert Delays(t) == [t * MILLI_PER_SECOND];
    assert Delays(t)[1..] == [];
  }

  // ---- The timer after it is set ----

  /** An armed timer and the seconds beyond it, or an authorization whose time is up. */
  datatype Timer = Idle | Armed(delay: CARD32, secondsRemaining: CARD32) | Over

  /** The timer after it is set for some seconds; callbacks that TimerSet runs at once are included. */
  function Settle(seconds: CARD32): Timer
    decreases seconds
  {
    if DelayFor(seconds) == 0 then Idle
    else if Waits(DelayFor(seconds)) then Armed(DelayFor(seconds), Overflow(seconds))
    else if Overflow(seconds) == 0 then Over
    else Settle(Overflow(seconds))
  }

  /** The timer after an armed one runs out. */
  function Expire(t: Timer): Timer
    requires t.Armed?
  {
    if t.secondsRemaining == 0 then Over else Settle(t.secondsRemaining)
  }

  /** The time a timer still runs. */
  function Remaining(t: Timer): nat {
    match t
    case Armed(delay, rest) => delay + if rest == 0 then 0 else Lifetime(Delays(rest))
    case _ => 0
  }

  /** Setting the timer and letting it expire follows the delays: no time is lost or gained. */
  lemma {:induction false} SettleRemaining(seconds: CARD32)
    ensures Remaining(Settle(seconds)) == Lifetime(Delays(seconds))
    ensures seconds > 0 <==> !Settle(seconds).Idle?
    ensures Settle(seconds).Armed? ==> Settle(seconds).delay > 0
    decreases seconds
  {
    var rest := Overflow(seconds);
    assert Delays(seconds)[1..] == if rest == 0 then [] else Delays(rest);
    if rest != 0 {
      SettleRemaining(rest);
    }
  }

  lemma ExpireRemaining(t: Timer)
    requires t.Armed?
    ensures Remaining(t) == t.delay + Remaining(Expire(t)) && !Expire(t).Idle?
  {
    if t.secondsRemaining != 0 {
      SettleRemaining(t.secondsRemaining);
    }
  }
}
