/** The sleep queue as the linked list that is spliced in place (Xext/sleepuntil.c). */
module SleepList {
  import opened SleepQueue

  class Request {
    const id: nat
    const client: nat
    const revive: TimeStamp
    ghost const arrival: nat
    var next: Request?

    constructor (id: nat, client: nat, revive: TimeStamp, ghost arrival: nat)
      ensures this.id == id && this.client == client && this.revive == revive && this.arrival == arrival
    {
      this.id := id;
      this.client := client;
      this.revive := revive;
      this.arrival := arrival;
      next := null;
    }

    ghost function Entry(): Entry {
      SleepQueue.Entry(id, client, revive, arrival)
    }
  }

  /** `r` is element `i` of the list, or nothing at its end. */
  ghost predicate At(list: seq<Request>, i: nat, r: Request?) {
    i <= |list| && r == if i < |list| then list[i] else null
  }

  ghost function Entries(list: seq<Request>): (q: seq<Entry>)
    ensures |q| == |list| && forall i :: 0 <= i < |q| ==> q[i] == list[i].Entry()
  {
    seq(|list|, i requires 0 <= i < |list| => list[i].Entry())
  }

  ghost predicate Distinct(list: seq<Request>) {
    forall i, j :: 0 <= i < j < |list| ==> list[i] != list[j]
  }

  /** The resource table has exactly the requests of the list. */
  ghost predicate Listed(resources: map<nat, Request>, list: seq<Request>) {
    && (forall i :: 0 <= i < |list| ==> list[i].id in resources && resources[list[i].id] == list[i])
    && (forall id :: id in resources ==> resources[id].id == id && resources[id] in list)
  }

  lemma ListedInsert(resources: map<nat, Request>, list: seq<Request>, i: nat, r: Request)
    requires Listed(resources, list) && i <= |list| && r.id !in resources
    ensures Listed(resources[r.id := r], list[..i] + [r] + list[i..]) && r !in list
  {
    var more := list[..i] + [r] + list[i..];
    assert more[i] == r;
    forall id | id in resources
      ensures resources[id] in more
    {
      var k :| 0 <= k < |list| && list[k] == resources[id];
      assert more[if k < i then k else k + 1] == list[k];
    }
  }

  lemma DistinctInsert(list: seq<Request>, i: nat, r: Request)
    requires Distinct(list) && i <= |list| && r !in list
    ensures Distinct(list[..i] + [r] + list[i..])
  {
  }

  lemma DistinctRemove(list: seq<Request>, i: nat)
    requires Distinct(list) && i < |list|
    ensures Distinct(list[..i] + list[i + 1..])
    ensures forall k :: 0 <= k < |list| && k != i ==> list[k] != list[i]
  {
  }

  lemma ListedRemove(resources: map<nat, Request>, list: seq<Request>, i: nat)
    requires Listed(resources, list) && i < |list| && Distinct(list)
    ensures Listed(resources - {list[i].id}, list[..i] + list[i + 1..])
  {
    var fewer := list[..i] + list[i + 1..];
    forall id | id in resources && id != list[i].id
      ensures resources[id] in fewer
    {
      var k :| 0 <= k < |list| && list[k] == resources[id];
      assert fewer[if k < i then k else k - 1] == list[k];
    }
  }

  class Queue {
    var pPending: Request?
    /** The resource table, as far as sleep requests are concerned. */
    var resources: map<nat, Request>
    /** Whether the block and wakeup handlers are registered. */
    var registered: bool
    /** The clients whose wake-up function was called. */
    var notified: seq<nat>
    ghost var list: seq<Request>
    ghost var arrivals: nat

    ghost predicate Valid()
      reads this, list
    {
      Linked() && Listed(resources, list) && (|list| > 0 ==> registered)
    }

    /** The requests are chained from pPending to null, each once. */
    ghost predicate Linked()
      reads this`pPending, this`list, list
    {
      && At(list, 0, pPending)
      && (forall i :: 0 <= i < |list| ==> At(list, i + 1, list[i].next))
      && Distinct(list)
    }

    ghost function Contents(): seq<Entry>
      reads this`list
    {
      Entries(list)
    }

    constructor ()
      ensures Valid() && Contents() == [] && arrivals == 0 && notified == []
    {
      pPending, resources, registered, notified, list, arrivals := null, map[], false, [], [], 0;
    }

    /** Where a request for a time goes: after the last that is not later. */
    method Search(revive: TimeStamp) returns (pPrev: Request?, pReq: Request?, ghost i: nat)
      requires Valid()
      ensures At(list, i, pReq) && i == Place(Contents(), revive, 0)
      ensures pPrev == if i > 0 then list[i - 1] else null
    {
      pPrev, pReq, i := null, pPending, 0;
      while pReq != null
        invariant At(list, i, pReq) && pPrev == if i > 0 then list[i - 1] else null
        invariant Place(Contents(), revive, 0) == Place(Contents(), revive, i)
        decreases |list| - i
      {
        assert Contents()[i] == list[i].Entry();
        if pReq.revive.Later(revive) {
          break;
        }
        pPrev := pReq;
        pReq := pReq.next;
        i := i + 1;
      }
    }

    /** ClientSleepUntil: the request goes after all that are not later; the table may refuse it. */
    method ClientSleepUntil(id: nat, client: nat, revive: TimeStamp, added: bool) returns (ok: bool)
      requires Valid() && id !in resources
      modifies this, list
      ensures Valid() && ok == added && notified == old(notified) && registered
      ensures !ok ==> Contents() == old(Contents()) && arrivals == old(arrivals)
      ensures ok ==>
        Contents() == Insert(old(Contents()), Entry(id, client, revive, old(arrivals)))
        && arrivals == old(arrivals) + 1
    {
      hide Listed, Entries, Place, Linked, Insert;
      registered := true;
      if !added {
        return false;
      }
      var pRequest := new Request(id, client, revive, arrivals);
      ghost var i;
      var pPrev, pReq;
      pPrev, pReq, i := Search(revive);
      EntriesInsert(list, i, pRequest, revive);
      ListedInsert(resources, list, i, pRequest);
      resources := resources[id := pRequest];
      Splice(pRequest, pPrev, pReq, i);
      arrivals := arrivals + 1;
      ok := true;
    }

    /** Link a request in between two neighbours. */
    method Splice(pRequest: Request, pPrev: Request?, pReq: Request?, ghost i: nat)
      requires Linked() && At(list, i, pReq) && pPrev == (if i > 0 then list[i - 1] else null)
      requires pRequest !in list
      modifies this`pPending, this`list, pRequest, list
      ensures Linked() && list == old(list)[..i] + [pRequest] + old(list)[i..]
    {
      ghost var was := list;
      assert forall k :: 0 <= k < |was| && k != i - 1 ==> pPrev != was[k];
      DistinctInsert(was, i, pRequest);
      hide Distinct;
      if pPrev != null {
        pPrev.next := pRequest;
      } else {
        pPending := pRequest;
      }
      pRequest.next := pReq;
      list := was[..i] + [pRequest] + was[i..];
      forall k | 0 <= k < |list|
        ensures At(list, k + 1, list[k].next)
      {
        if k < i {
          assert list[k] == was[k];
        } else if k > i {
          assert list[k] == was[k - 1] && At(was, k, was[k - 1].next);
        }
      }
    }

    /** SertafiedDelete: take a request off the list and call its wake-up function. */
    method Delete(pRequest: Request, ghost i: nat)
      requires Linked() && i < |list| && list[i] == pRequest
      modifies this`pPending, this`list, this`notified, list
      ensures Linked() && list == old(list)[..i] + old(list)[i + 1..]
      ensures notified == old(notified) + [pRequest.client]
    {
      var pPrev := Predecessor(pRequest, i);
      Unlink(pRequest, pPrev, i);
      notified := notified + [pRequest.client];
    }

    /** The walk to a request: what is before it. */
    method Predecessor(pRequest: Request, ghost i: nat) returns (pPrev: Request?)
      requires Linked() && i < |list| && list[i] == pRequest
      ensures pPrev == if i > 0 then list[i - 1] else null
    {
      pPrev := null;
      var pReq := pPending;
      ghost var k := 0;
      while pReq != pRequest
        invariant k <= i && At(list, k, pReq) && pPrev == if k > 0 then list[k - 1] else null
        decreases i - k
      {
        pPrev := pReq;
        pReq := pReq.next;
        k := k + 1;
      }
      assert k == i;
    }

    method Unlink(pReq: Request, pPrev: Request?, ghost i: nat)
      requires Linked() && i < |list| && list[i] == pReq && pPrev == if i > 0 then list[i - 1] else null
      modifies this`pPending, this`list, list
      ensures Linked() && list == old(list)[..i] + old(list)[i + 1..]
    {
      ghost var was := list;
      DistinctRemove(was, i);
      assert forall k :: 0 <= k < |was| && k != i - 1 ==> pPrev != was[k];
      hide Distinct;
      if pPrev != null {
        pPrev.next := pReq.next;
      } else {
        pPending := pReq.next;
      }
      list := was[..i] + was[i + 1..];
      forall k | 0 <= k < |list|
        ensures At(list, k + 1, list[k].next)
      {
        if k < i {
          assert list[k] == was[k] && At(was, k + 1, old(was[k].next));
        } else {
          assert list[k] == was[k + 1] && At(was, k + 2, was[k + 1].next);
        }
      }
    }

    lemma IndexIn(id: nat) returns (i: nat)
      requires Valid() && id in resources
      ensures i < |list| && list[i] == resources[id] && list[i].id == id && Distinct(list)
    {
      i :| 0 <= i < |list| && list[i] == resources[id];
    }

    /** FreeResource for a request that is asleep. */
    method FreeResource(id: nat) returns (ghost i: nat)
      requires Valid() && id in resources
      modifies this`pPending, this`list, this`notified, this`resources, list
      ensures Valid() && Distinct(list)
      ensures i < |old(list)| && old(list)[i] == old(resources)[id]
      ensures list == old(list)[..i] + old(list)[i + 1..]
      ensures resources == old(resources) - {id} && notified == old(notified) + [old(resources)[id].client]
    {
      hide Listed, Linked, Distinct;
      var r := resources[id];
      i := IndexIn(id);
      ListedRemove(resources, list, i);
      resources := resources - {id};
      Delete(r, i);
    }

    /** The loop of both handlers: wake every request that is due, from the front of the list. */
    method WakeDue(now: TimeStamp) returns (woke: bool)
      requires Valid()
      modifies this`pPending, this`list, this`notified, this`resources, list
      ensures Valid()
      ensures Contents() == Rest(old(Contents()), now)
      ensures notified == old(notified) + Clients(Due(old(Contents()), now))
      ensures woke <==> Due(old(Contents()), now) != []
    {
      hide Valid, Linked, Listed, Distinct, Place, Entries, Clients, WokenUpTo, Due, Rest, TimeStamp.Later;
      ghost var was := list;
      var pReq := pPending;
      ghost var k := 0;
      woke := false;
      NoneWoken(was, now);
      while pReq != null
        invariant Valid() && k <= |was| && list == was[k..] && pReq == pPending && (woke <==> k > 0)
        invariant notified == old(notified) + Clients(Entries(was[..k])) && WokenUpTo(was, now, k)
        decreases |was| - k
      {
        PendingIsFirst();
        if pReq.revive.Later(now) {
          break;
        }
        var pNext := FreeFirst(pReq);
        WokeOne(was, now, k, old(notified));
        woke := true;
        pReq := pNext;
        k := k + 1;
      }
      PendingIsFirst();
      WokeAll(was, now, k, pReq);
    }

    lemma PendingIsFirst()
      requires Valid()
      ensures pPending == if |list| > 0 then list[0] else null
    {
    }

    /** Free the request at the front; the next one was looked up before. */
    method FreeFirst(pReq: Request) returns (pNext: Request?)
      requires Valid() && pReq == pPending && |list| > 0
      modifies this`pPending, this`list, this`notified, this`resources, list
      ensures Valid() && list == old(list)[1..] && pNext == pPending
      ensures notified == old(notified) + [pReq.client]
    {
      assert pReq == list[0] && At(list, 1, pReq.next);
      ghost var was := list;
      pNext := pReq.next;
      hide Listed;
      FrontListed();
      ghost var i := FreeResource(pReq.id);
      assert i == 0;
    }

    lemma FrontListed()
      requires Valid() && |list| > 0
      ensures list[0].id in resources && resources[list[0].id] == list[0]
    {
    }

    /** SertafiedBlockHandler: wake who is due, and shorten the timeout. */
    method BlockHandler(now: TimeStamp, timeout: int) returns (timeout': int)
      requires Valid()
      modifies this`pPending, this`list, this`notified, this`resources, list
      ensures Valid() && Contents() == Rest(old(Contents()), now)
      ensures notified == old(notified) + Clients(Due(old(Contents()), now))
      ensures timeout' == BlockTimeout(old(Contents()), now, timeout)
    {
      hide *;
      BlockParts(Contents(), now, timeout);
      if pPending == null {
        NothingPending(now);
        return timeout;
      }
      var woke := WakeDue(now);
      timeout' := if woke then Adjust(timeout, 0) else timeout;
      FirstRemaining();
      if pPending != null {
        timeout' := Adjust(timeout', AsInt(Delay(pPending.revive, now)));
      }
    }

    lemma FirstRemaining()
      requires Valid()
      ensures pPending == null <==> Contents() == []
      ensures pPending != null ==> Contents()[0].revive == pPending.revive
    {
      FirstEntry(list);
    }

    lemma NothingPending(now: TimeStamp)
      requires Valid() && pPending == null
      ensures Contents() == [] && Clients([]) == []
    {
    }

    /** SertafiedWakeupHandler: wake who is due; with nobody left asleep the handlers are not needed. */
    method WakeupHandler(now: TimeStamp)
      requires Valid()
      modifies this`pPending, this`list, this`notified, this`resources, this`registered, list
      ensures Valid() && Contents() == Rest(old(Contents()), now)
      ensures notified == old(notified) + Clients(Due(old(Contents()), now))
      ensures registered == (old(registered) && Contents() != [])
    {
      hide Linked, Listed, Entries, Rest, Due;
      var woke := WakeDue(now);
      PendingIsFirst();
      if pPending == null {
        registered := false;
      }
    }

    /** FreeClientResources: the client's requests are freed in whatever order the table holds them. */
    method ClientGone(client: nat)
      requires Valid()
      modifies this`pPending, this`list, this`notified, this`resources, list
      ensures Valid() && Contents() == Without(old(Contents()), client, |old(Contents())|)
      ensures |Contents()| <= |old(Contents())|
      ensures notified == old(notified) + Repeated(client, |old(Contents())| - |Contents()|)
    {
      hide *;
      ghost var was := Entries(list);
      ContentsAre();
      NoneOf(client);
      while exists id :: id in resources && resources[id].client == client
        invariant Valid()
        invariant Without(Entries(list), client, |Entries(list)|) == Without(was, client, |was|)
        invariant forall k :: 0 <= k < |list| ==> list[k] in old(list)
        invariant |Entries(list)| <= |was|
        invariant notified == old(notified) + Repeated(client, |was| - |Entries(list)|)
        decreases |list|
      {
        var id :| id in resources && resources[id].client == client;
        ghost var before := list;
        ghost var i := FreeResource(id);
        OneFreed(was, before, client, i);
      }
      ContentsAre();
      NobodyLeft(client);
    }

    lemma ContentsAre()
      ensures Contents() == Entries(list)
    {
    }

    lemma NobodyLeft(client: nat)
      requires Valid() && forall id :: id in resources ==> resources[id].client != client
      ensures Without(Contents(), client, |Contents()|) == Contents()
    {
      forall i | 0 <= i < |list|
        ensures Contents()[i].client != client
      {
        assert list[i].id in resources;
      }
      WithoutNobody(Contents(), client, |Contents()|);
      assert Contents()[..|Contents()|] == Contents();
    }
  }

  lemma OneFreed(was: seq<Entry>, before: seq<Request>, client: nat, i: nat)
    requires i < |before| && before[i].client == client && |Entries(before)| <= |was|
    requires Without(Entries(before), client, |Entries(before)|) == Without(was, client, |was|)
    ensures var after := Entries(before[..i] + before[i + 1..]);
      && Without(after, client, |after|) == Without(was, client, |was|) && |after| <= |was|
      && Repeated(client, |was| - |after|) == Repeated(client, |was| - |Entries(before)|) + [client]
  {
    hide Entries, Without, Repeated;
    EntriesRemove(before, i);
    WithoutRemoved(Entries(before), client, i);
    OneMoreOf(client, |was| - |Entries(before)|);
  }

  function Repeated(client: nat, n: nat): seq<nat> {
    seq(n, _ => client)
  }

  lemma NoneOf(client: nat)
    ensures Repeated(client, 0) == []
  {
  }

  lemma OneMoreOf(client: nat, n: nat)
    ensures Repeated(client, n + 1) == Repeated(client, n) + [client]
  {
  }

  lemma FirstEntry(list: seq<Request>)
    ensures |list| > 0 ==> |Entries(list)| > 0 && Entries(list)[0] == list[0].Entry()
  {
  }

  /** The block handler's timeout, taken apart. */
  lemma BlockParts(q: seq<Entry>, now: TimeStamp, timeout: int)
    ensures q == [] ==> Rest(q, now) == [] && Due(q, now) == [] && BlockTimeout(q, now, timeout) == timeout
    ensures var t := if Due(q, now) != [] then Adjust(timeout, 0) else timeout;
      BlockTimeout(q, now, timeout)
        == if Rest(q, now) == [] then t else Adjust(t, AsInt(Delay(Rest(q, now)[0].revive, now)))
  {
    hide Delay, AsInt, Adjust;
  }

  lemma EntriesRemove(list: seq<Request>, i: nat)
    requires i < |list|
    ensures i < |Entries(list)| == |list| && Entries(list)[i].client == list[i].client
    ensures Entries(list[..i] + list[i + 1..]) == Entries(list)[..i] + Entries(list)[i + 1..]
  {
  }

  lemma {:induction false} WithoutNobody(q: seq<Entry>, client: nat, n: nat)
    requires n <= |q| && forall i :: 0 <= i < n ==> q[i].client != client
    ensures Without(q, client, n) == q[..n]
  {
    if n > 0 {
      WithoutNobody(q, client, n - 1);
    }
  }

  /** Only the entries before `n` matter, and one of the client's makes no difference. */
  lemma {:induction false} WithoutPrefix(p: seq<Entry>, q: seq<Entry>, client: nat, n: nat)
    requires n <= |p| && n <= |q| && p[..n] == q[..n]
    ensures Without(p, client, n) == Without(q, client, n)
  {
    if n > 0 {
      assert p[..n - 1] == p[..n][..n - 1] && q[..n - 1] == q[..n][..n - 1];
      assert p[n - 1] == p[..n][n - 1] && q[n - 1] == q[..n][n - 1];
      WithoutPrefix(p, q, client, n - 1);
    }
  }

  lemma {:induction false} WithoutShifted(p: seq<Entry>, q: seq<Entry>, client: nat, i: nat, n: nat)
    requires i < |q| && i <= n < |q| && |p| == |q| - 1 && p == q[..i] + q[i + 1..] && q[i].client == client
    ensures Without(p, client, n) == Without(q, client, n + 1)
    decreases n
  {
    if n == i {
      WithoutPrefix(p, q, client, i);
    } else {
      WithoutShifted(p, q, client, i, n - 1);
    }
  }

  lemma WithoutRemoved(q: seq<Entry>, client: nat, i: nat)
    requires i < |q| && q[i].client == client
    ensures Without(q[..i] + q[i + 1..], client, |q| - 1) == Without(q, client, |q|)
  {
    WithoutShifted(q[..i] + q[i + 1..], q, client, i, |q| - 1);
  }

  /** The first `k` requests are due, whether or not more are. */
  ghost predicate WokenUpTo(was: seq<Request>, now: TimeStamp, k: nat) {
    k <= |was| && Place(Entries(was), now, 0) == Place(Entries(was), now, k)
  }

  lemma NoneWoken(was: seq<Request>, now: TimeStamp)
    ensures WokenUpTo(was, now, 0) && was[0..] == was && Clients(Entries(was[..0])) == []
  {
  }

  lemma WokeOne(was: seq<Request>, now: TimeStamp, k: nat, notified: seq<nat>)
    requires WokenUpTo(was, now, k) && k < |was| && !was[k].revive.Later(now)
    ensures WokenUpTo(was, now, k + 1) && was[k..][1..] == was[k + 1..]
    ensures notified + Clients(Entries(was[..k])) + [was[k].client] == notified + Clients(Entries(was[..k + 1]))
  {
    assert Entries(was)[k] == was[k].Entry();
    assert Clients(Entries(was[..k + 1])) == Clients(Entries(was[..k])) + [was[k].client];
  }

  lemma WokeAll(was: seq<Request>, now: TimeStamp, k: nat, pReq: Request?)
    requires WokenUpTo(was, now, k) && (k < |was| ==> was[k].revive.Later(now))
    ensures Entries(was[k..]) == Rest(Entries(was), now)
    ensures Clients(Entries(was[..k])) == Clients(Due(Entries(was), now))
    ensures |Due(Entries(was), now)| == k
  {
    if k < |was| {
      assert Entries(was)[k] == was[k].Entry();
    }
    assert Place(Entries(was), now, 0) == k;
    assert Entries(was[..k]) == Entries(was)[..k];
  }

  function Clients(q: seq<Entry>): (c: seq<nat>)
    ensures |c| == |q| && forall i :: 0 <= i < |c| ==> c[i] == q[i].client
  {
    seq(|q|, i requires 0 <= i < |q| => q[i].client)
  }

  lemma EntriesInsert(list: seq<Request>, i: nat, r: Request, revive: TimeStamp)
    requires i <= |list| && i == Place(Entries(list), revive, 0) && r.revive == revive
    ensures Entries(list[..i] + [r] + list[i..]) == Insert(Entries(list), r.Entry())
  {
  }
}
