/** The queue of sleeping clients, as a list of what is known about each (Xext/sleepuntil.c). */
module SleepQueue {

  const MONTH: nat := 0x1_0000_0000

  type CARD32 = x: int | 0 <= x < 0x1_0000_0000

  /** A server time; the milliseconds wrap into months. */
  datatype TimeStamp = TimeStamp(months: CARD32, milliseconds: CARD32)
  {
    /** The milliseconds since the beginning. */
    function Total(): nat {
      months * MONTH + milliseconds
    }

    /** CompareTimeStamps(this, other) == LATER. */
    predicate Later(other: TimeStamp) {
      months > other.months || (months == other.months && milliseconds > other.milliseconds)
    }
  }

  lemma LaterIsTotal(a: TimeStamp, b: TimeStamp)
    ensures a.Later(b) <==> a.Total() > b.Total()
  {
  }

  /** A sleeping client: its resource id, and when it was put to sleep among all that were. */
  datatype Entry = Entry(id: nat, client: nat, revive: TimeStamp, arrival: nat)

  /** Earliest first; among equals, first come first. */
  predicate Before(a: Entry, b: Entry) {
    a.revive.Total() < b.revive.Total() || (a.revive == b.revive && a.arrival < b.arrival)
  }

  ghost predicate Sorted(q: seq<Entry>) {
    forall i, j :: 0 <= i < j < |q| ==> Before(q[i], q[j])
  }

  /** The first place whose entry is later than a time. */
  function Place(q: seq<Entry>, time: TimeStamp, from: nat): (i: nat)
    requires from <= |q|
    ensures from <= i <= |q|
    ensures i < |q| ==> q[i].revive.Later(time)
    ensures forall j :: from <= j < i ==> !q[j].revive.Later(time)
    decreases |q| - from
  {
    if from == |q| || q[from].revive.Later(time) then from else Place(q, time, from + 1)
  }

  function Insert(q: seq<Entry>, e: Entry): seq<Entry> {
    var i := Place(q, e.revive, 0);
    q[..i] + [e] + q[i..]
  }

  /** The entries that are due, and those that are not. */
  function Due(q: seq<Entry>, now: TimeStamp): seq<Entry> {
    q[..Place(q, now, 0)]
  }

  function Rest(q: seq<Entry>, now: TimeStamp): seq<Entry> {
    q[Place(q, now, 0)..]
  }

  /** The entries of the first `n` that are not a client's. */
  function Without(q: seq<Entry>, client: nat, n: nat): seq<Entry>
    requires n <= |q|
  {
    if n == 0 then []
    else if q[n - 1].client == client then Without(q, client, n - 1)
    else Without(q, client, n - 1) + [q[n - 1]]
  }

  // ---- Any mix of sleeping, client deaths and handler runs ----

  datatype Step = Sleep(id: nat, client: nat, revive: TimeStamp) | ClientGone(client: nat) | Handler(now: TimeStamp)

  /** The queue, how many were put to sleep so far, and who was woken. */
  datatype State = State(queue: seq<Entry>, arrivals: nat, woken: seq<Entry>)

  function Next(s: State, step: Step): State {
    match step
    case Sleep(id, client, revive) =>
      s.(queue := Insert(s.queue, Entry(id, client, revive, s.arrivals)), arrivals := s.arrivals + 1)
    case ClientGone(client) => s.(queue := Without(s.queue, client, |s.queue|))
    case Handler(now) => s.(queue := Rest(s.queue, now), woken := s.woken + Due(s.queue, now))
  }

  function Run(steps: seq<Step>, n: nat): State
    requires n <= |steps|
  {
    if n == 0 then State([], 0, []) else Next(Run(steps, n - 1), steps[n - 1])
  }

  ghost predicate Arrived(s: State) {
    forall i :: 0 <= i < |s.queue| ==> s.queue[i].arrival < s.arrivals
  }

  lemma InsertSorted(q: seq<Entry>, e: Entry)
    requires Sorted(q) && forall i :: 0 <= i < |q| ==> q[i].arrival < e.arrival
    ensures Sorted(Insert(q, e))
  {
    var i := Place(q, e.revive, 0);
    forall j | 0 <= j < i
      ensures Before(q[j], e)
    {
      LaterIsTotal(q[j].revive, e.revive);
      if q[j].revive.Total() == e.revive.Total() {
        SameTotal(q[j].revive, e.revive);
      }
    }
    if i < |q| {
      LaterIsTotal(q[i].revive, e.revive);
      forall j | i <= j < |q|
        ensures Before(e, q[j])
      {
        assert j == i || Before(q[i], q[j]);
      }
    }
  }

  lemma SameTotal(a: TimeStamp, b: TimeStamp)
    requires a.Total() == b.Total()
    ensures a == b
  {
  }

  lemma {:induction false} WithoutSorted(q: seq<Entry>, client: nat, n: nat)
    requires Sorted(q) && n <= |q|
    ensures Sorted(Without(q, client, n))
    ensures forall e :: e in Without(q, client, n) <==> e in q[..n] && e.client != client
  {
    if n > 0 {
      WithoutSorted(q, client, n - 1);
      var w, last := Without(q, client, n - 1), q[n - 1];
      assert q[..n] == q[..n - 1] + [last];
      forall i | 0 <= i < |w|
        ensures Before(w[i], last)
      {
        assert w[i] in q[..n - 1];
      }
    }
  }

  /** A handler run wakes exactly the entries not later than now, in order, and keeps exactly the others. */
  lemma HandlerWakesDue(q: seq<Entry>, now: TimeStamp)
    requires Sorted(q)
    ensures Due(q, now) + Rest(q, now) == q
    ensures forall i :: 0 <= i < |Due(q, now)| ==> Due(q, now)[i].revive.Total() <= now.Total()
    ensures forall i :: 0 <= i < |Rest(q, now)| ==> Rest(q, now)[i].revive.Total() > now.Total()
  {
    var p := Place(q, now, 0);
    forall i | 0 <= i < p
      ensures q[i].revive.Total() <= now.Total()
    {
      LaterIsTotal(q[i].revive, now);
    }
    forall i | p <= i < |q|
      ensures q[i].revive.Total() > now.Total()
    {
      LaterIsTotal(q[p].revive, now);
      assert i == p || Before(q[p], q[i]);
    }
  }

  lemma {:induction false} NextSorted(s: State, step: Step)
    requires Sorted(s.queue) && Arrived(s)
    ensures Sorted(Next(s, step).queue) && Arrived(Next(s, step))
  {
    match step
    case Sleep(id, client, revive) =>
      InsertSorted(s.queue, Entry(id, client, revive, s.arrivals));
    case ClientGone(client) =>
      WithoutSorted(s.queue, client, |s.queue|);
      WithoutArrived(s, client);
    case Handler(now) =>
  }

  lemma {:induction false} WithoutArrived(s: State, client: nat)
    requires Sorted(s.queue) && Arrived(s)
    ensures forall i :: 0 <= i < |Without(s.queue, client, |s.queue|)| ==>
      Without(s.queue, client, |s.queue|)[i].arrival < s.arrivals
  {
    WithoutSorted(s.queue, client, |s.queue|);
    assert s.queue[..|s.queue|] == s.queue;
    var w := Without(s.queue, client, |s.queue|);
    hide Without, Sorted;
    forall i | 0 <= i < |w|
      ensures w[i].arrival < s.arrivals
    {
      assert w[i] in s.queue;
    }
  }

  /** After any mix of steps the queue is sorted, first come first among equals. */
  lemma {:induction false} RunSorted(steps: seq<Step>, n: nat)
    requires n <= |steps|
    ensures Sorted(Run(steps, n).queue) && Arrived(Run(steps, n))
  {
    if n > 0 {
      RunSorted(steps, n - 1);
      NextSorted(Run(steps, n - 1), steps[n - 1]);
    }
  }

  // ---- Each is woken at most once ----

  ghost predicate Unlike(q: seq<Entry>) {
    forall i, j :: 0 <= i < j < |q| ==> q[i].arrival != q[j].arrival
  }

  /** Nobody was woken twice, nobody asleep was woken, and all arrived. */
  ghost predicate Once(s: State) {
    && Unlike(s.woken + s.queue)
    && forall e :: e in s.woken + s.queue ==> e.arrival < s.arrivals
  }

  lemma {:induction false} WithoutUnlike(p: seq<Entry>, q: seq<Entry>, client: nat, n: nat)
    requires n <= |q| && Unlike(p + q)
    ensures Unlike(p + Without(q, client, n))
    ensures forall e :: e in Without(q, client, n) ==> e in q[..n]
  {
    if n == 0 {
      assert forall i :: 0 <= i < |p| ==> p[i] == (p + q)[i];
    } else {
      WithoutUnlike(p, q, client, n - 1);
      var w, last := Without(q, client, n - 1), q[n - 1];
      assert q[..n] == q[..n - 1] + [last];
      forall i | 0 <= i < |p + w|
        ensures (p + w)[i].arrival != last.arrival
      {
        EarlierUnlike(p, q, n - 1, (p + w)[i]);
      }
      UnlikeInsert(p + w, |p + w|, last);
      assert p + (w + [last]) == (p + w)[..|p + w|] + [last] + (p + w)[|p + w|..];
    }
  }

  lemma UnlikeInsert(q: seq<Entry>, i: nat, e: Entry)
    requires Unlike(q) && i <= |q| && forall k :: 0 <= k < |q| ==> q[k].arrival != e.arrival
    ensures Unlike(q[..i] + [e] + q[i..])
  {
  }

  lemma EarlierUnlike(p: seq<Entry>, q: seq<Entry>, n: nat, e: Entry)
    requires n < |q| && Unlike(p + q) && (e in p || e in q[..n])
    ensures e.arrival != q[n].arrival
  {
    assert (p + q)[|p| + n] == q[n];
    if e in p {
      var k :| 0 <= k < |p| && p[k] == e;
      assert (p + q)[k] == e;
    } else {
      var k :| 0 <= k < n && q[k] == e;
      assert (p + q)[|p| + k] == e;
    }
  }

  lemma InsertUnlike(p: seq<Entry>, q: seq<Entry>, e: Entry)
    requires Unlike(p + q) && forall x :: x in p + q ==> x.arrival < e.arrival
    ensures Unlike(p + Insert(q, e))
    ensures forall x :: x in p + Insert(q, e) ==> x == e || x in p + q
  {
    var i := |p| + Place(q, e.revive, 0);
    var all, more := p + q, p + Insert(q, e);
    forall k | 0 <= k < |all|
      ensures all[k].arrival < e.arrival
    {
      assert all[k] in all;
    }
    UnlikeInsert(all, i, e);
    hide Unlike, Place;
    assert more == all[..i] + [e] + all[i..];
  }

  /** Over any mix of steps, each sleeping client is woken at most once, and then is no longer asleep. */
  lemma {:induction false} RunOnce(steps: seq<Step>, n: nat)
    requires n <= |steps|
    ensures Once(Run(steps, n))
  {
    if n > 0 {
      RunOnce(steps, n - 1);
      NextOnce(Run(steps, n - 1), steps[n - 1]);
    }
  }

  lemma NextOnce(s: State, step: Step)
    requires Once(s)
    ensures Once(Next(s, step))
  {
    match step
    case Sleep(id, client, revive) =>
      InsertUnlike(s.woken, s.queue, Entry(id, client, revive, s.arrivals));
    case ClientGone(client) =>
      WithoutUnlike(s.woken, s.queue, client, |s.queue|);
      assert s.queue[..|s.queue|] == s.queue;
    case Handler(now) =>
      assert s.woken + Due(s.queue, now) + Rest(s.queue, now) == s.woken + s.queue;
  }

  // ---- How long to block ----

  /** revive.milliseconds - now.milliseconds, in 32 bits. */
  function Delay(revive: TimeStamp, now: TimeStamp): CARD32 {
    (revive.milliseconds - now.milliseconds) % 0x1_0000_0000
  }

  /** The delay is the time left exactly when that is below 2^32 milliseconds. */
  lemma DelayIsGap(revive: TimeStamp, now: TimeStamp)
    requires revive.Later(now)
    ensures Delay(revive, now) == revive.Total() - now.Total() <==> revive.Total() - now.Total() < 0x1_0000_0000
    ensures Delay(revive, now) == (revive.Total() - now.Total()) % 0x1_0000_0000
  {
    var d := revive.milliseconds - now.milliseconds;
    if revive.months == now.months {
      assert Delay(revive, now) == d;
    } else {
      assert revive.Total() - now.Total() == (revive.months - now.months) * MONTH + d;
      if revive.months - now.months > 1 {
        assert (revive.months - now.months) * MONTH >= 2 * MONTH;
      }
    }
  }

  /** The value as a signed 32-bit integer. */
  function AsInt(x: CARD32): int {
    if x < 0x8000_0000 then x else x - 0x1_0000_0000
  }

  /** AdjustWaitForDelay: a negative timeout is none. */
  function Adjust(timeout: int, delay: int): int {
    if timeout < 0 || delay < timeout then delay else timeout
  }

  /** The timeout after the block handler: zero when it woke someone, then no longer than the head's delay. */
  function BlockTimeout(q: seq<Entry>, now: TimeStamp, timeout: int): int {
    var t := if Due(q, now) != [] then Adjust(timeout, 0) else timeout;
    if Rest(q, now) == [] then t else Adjust(t, AsInt(Delay(Rest(q, now)[0].revive, now)))
  }

  /** The earlier of two timeouts, where a negative one is none. */
  function Sooner(a: int, b: int): int {
    if b < 0 then a else if a < 0 || b < a then b else a
  }

  /** The time until the first entry that is not due, negative if there is none. */
  function Gap(q: seq<Entry>, now: TimeStamp): int {
    if Rest(q, now) == [] then -1 else Rest(q, now)[0].revive.Total() - now.Total()
  }

  /** Zero when the handler just woke someone, so that the woken client is served at once. */
  function NotAfterWaking(q: seq<Entry>, now: TimeStamp): int {
    if Due(q, now) != [] then 0 else -1
  }

  /** The block handler lets the server wait for whatever comes first, the old timeout, a client just woken or the time
    of the first entry left, exactly when no entry is left, or less than 2^31 milliseconds are left for the first, or
    what comes before it is not above its delay as the code computes it. */
  lemma BlocksUntilHead(q: seq<Entry>, now: TimeStamp, timeout: int)
    requires Sorted(q)
    ensures var before := Sooner(timeout, NotAfterWaking(q, now));
      BlockTimeout(q, now, timeout) == Sooner(before, Gap(q, now)) <==>
        || Rest(q, now) == []
        || Gap(q, now) < 0x8000_0000
        || 0 <= before <= AsInt(Delay(Rest(q, now)[0].revive, now))
  {
    HandlerWakesDue(q, now);
    if Rest(q, now) != [] {
      var revive := Rest(q, now)[0].revive;
      LaterIsTotal(revive, now);
      DelayIsGap(revive, now);
      hide Due, Rest, Delay, Sorted;
    }
  }

  /** A client asleep for 2^31 milliseconds makes the server wait with no timeout at all. */
  lemma LongSleepBlocksForever()
    ensures var q, now := [Entry(1, 1, TimeStamp(0, 0x8000_0000), 0)], TimeStamp(0, 0);
      Sorted(q) && Due(q, now) == [] && BlockTimeout(q, now, -1) < 0
  {
  }

  /** With another timer due in 5 milliseconds, or a client just woken, that client overrides it. */
  lemma LongSleepOverrides()
    ensures var long, now := Entry(2, 2, TimeStamp(0, 0x8000_0000), 1), TimeStamp(0, 0);
      && Sorted([long]) && Due([long], now) == [] && BlockTimeout([long], now, 5) < 0
      && Sorted([Entry(1, 1, now, 0), long]) && Due([Entry(1, 1, now, 0), long], now) != []
      && BlockTimeout([Entry(1, 1, now, 0), long], now, -1) < 0
  {
    var long, now := Entry(2, 2, TimeStamp(0, 0x8000_0000), 1), TimeStamp(0, 0);
    var q := [Entry(1, 1, now, 0), long];
    assert Place(q, now, 1) == 1;
    assert Place(q, now, 0) == 1;
    assert q[1..] == [long];
  }
}
