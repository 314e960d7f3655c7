/** Authorizations, the clients that use them, and their timers (Xext/security.c). */
module SecurityServer {
  import opened SecurityTimers

  class Authorization {
    const id: nat
    const timeout: CARD32
    var refcnt: int
    var secondsRemaining: CARD32
    /** The delay of the pending timer, or zero. */
    var pending: CARD32

    constructor (id: nat, timeout: CARD32)
      ensures this.id == id && this.timeout == timeout && refcnt == 0 && secondsRemaining == 0 && pending == 0
    {
      this.id := id;
      this.timeout := timeout;
      refcnt, secondsRemaining, pending := 0, 0, 0;
    }

    /** The timer as a value. */
    function Timer(): Timer
      reads this
    {
      if pending == 0 then Idle else Armed(pending, secondsRemaining)
    }

    method ComputeTimeout(seconds: CARD32) returns (delay: CARD32)
      modifies this`secondsRemaining
      ensures delay == DelayFor(seconds) && secondsRemaining == Overflow(seconds)
    {
      if seconds > MAX_SECONDS {
        secondsRemaining := seconds - MAX_SECONDS;
        return MAX_SECONDS * MILLI_PER_SECOND;
      } else {
        secondsRemaining := 0;
        return seconds * MILLI_PER_SECOND;
      }
    }

    /** TimerSet, with the callbacks it runs at once; `over` when one of them ends the authorization. */
    method SetTimer(seconds: CARD32) returns (over: bool)
      modifies this`secondsRemaining, this`pending
      ensures over <==> Settle(seconds).Over?
      ensures !over ==> Timer() == Settle(seconds)
    {
      pending := 0;
      over := false;
      var delay := ComputeTimeout(seconds);
      ghost var s := seconds;
      while delay >= 0x8000_0000
        invariant delay == DelayFor(s) && secondsRemaining == Overflow(s) && pending == 0
        invariant Settle(seconds) == Settle(s)
        decreases s
      {
        if secondsRemaining == 0 {
          return true;
        }
        s := secondsRemaining;
        delay := ComputeTimeout(secondsRemaining);
      }
      pending := delay;
    }

    method Start() returns (over: bool)
      modifies this`secondsRemaining, this`pending
      ensures over <==> Settle(timeout).Over?
      ensures !over ==> Timer() == Settle(timeout)
    {
      over := SetTimer(timeout);
    }

    /** The pending timer runs out. */
    method Expired() returns (over: bool)
      requires pending > 0
      modifies this`secondsRemaining, this`pending
      ensures over <==> Expire(old(Timer())).Over?
      ensures !over ==> Timer() == Expire(old(Timer()))
    {
      pending := 0;
      if secondsRemaining != 0 {
        over := SetTimer(secondsRemaining);
      } else {
        over := true;
      }
      if secondsRemaining != old(secondsRemaining) || !over {
        SettleRemaining(old(secondsRemaining));
      }
    }

    method Cancel()
      modifies this`pending
      ensures pending == 0
    {
      pending := 0;
    }
  }

  /** What the extension keeps for a client: the authorization it came with, and whether it counts. */
  datatype Client = Client(authId: nat, live: bool)

  /** The live clients that use an authorization. */
  function Users(clients: map<nat, Client>, id: nat): set<nat> {
    set c | c in clients && clients[c].live && clients[c].authId == id
  }

  class Server {
    var auths: map<nat, Authorization>
    var clients: map<nat, Client>
    /** Ids are handed out in order; zero is none. */
    var nextId: nat

    /** Each authorization counts its live clients, and its timer runs exactly while there are none. */
    ghost predicate Valid()
      reads this, auths.Values
    {
      && nextId > 0
      && (forall id :: id in auths ==> 0 < id < nextId && auths[id].id == id)
      && (forall c :: c in clients ==> clients[c].authId < nextId)
      && (forall id :: id in auths ==> Right(id))
    }

    ghost predicate Right(id: nat)
      requires id in auths
      reads this, auths.Values
    {
      var a := auths[id];
      && a.refcnt == |Users(clients, id)|
      && (a.timeout > 0 ==> (a.pending > 0 <==> a.refcnt == 0))
      && (a.timeout == 0 ==> a.pending == 0)
    }

    constructor ()
      ensures Valid() && auths == map[] && clients == map[]
    {
      auths, clients, nextId := map[], map[], 1;
    }

    /** Only a client's own authorization counts it. */
    static lemma UsersChange(clients: map<nat, Client>, c: nat, now: Client, id: nat)
      requires c in clients
      ensures var was, more := Users(clients, id), Users(clients[c := now], id);
        && (now.live && now.authId == id && c !in was ==> |more| == |was| + 1)
        && (!(now.live && now.authId == id) && c in was ==> |more| == |was| - 1)
        && (c in was <==> clients[c].live && clients[c].authId == id)
        && ((now.live && now.authId == id) == (c in was) ==> |more| == |was|)
    {
      var was, more := Users(clients, id), Users(clients[c := now], id);
      if now.live && now.authId == id {
        assert more == was + {c};
      } else {
        assert more == was - {c};
      }
    }

    /** Of the clients there were, those that came with an authorization are gone, but those retained. */
    ghost predicate GoneWith(id: nat, retained: set<nat>, were: map<nat, Client>)
      reads this
    {
      && (forall c :: c in clients <==> c in were && !(were[c].authId == id && c !in retained))
      && (forall c :: c in clients ==> clients[c] == were[c])
    }

    /** FreeResource for an authorization: it is gone, and so are the clients that came with it, but those retained. */
    method Free(id: nat, retained: set<nat>)
      requires nextId > 0
      requires forall i :: i in auths ==> 0 < i < nextId && auths[i].id == i
      requires forall c :: c in clients ==> clients[c].authId < nextId
      requires forall i :: i in auths && i != id ==> Right(i)
      modifies this`auths, this`clients
      ensures Valid() && auths == old(auths) - {id}
      ensures GoneWith(id, retained, old(clients))
    {
      auths := auths - {id};
      clients := map c | c in clients && !(clients[c].authId == id && c !in retained) :: clients[c];
      forall i | i in auths
        ensures Right(i)
      {
        assert Users(clients, i) == Users(old(clients), i);
      }
    }

    /** GenerateAuthorization: nobody uses it yet, so its timer starts; a timeout of zero is none. */
    method Generate(timeout: CARD32) returns (id: nat)
      requires Valid()
      modifies this
      ensures Valid() && id !in old(auths) && clients == old(clients)
      ensures id in auths <==> timeout == 0 || !Settle(timeout).Over?
      ensures id in auths ==> auths == old(auths)[id := auths[id]] && auths[id].timeout == timeout
      ensures id in auths && timeout > 0 ==> auths[id].Timer() == Settle(timeout)
    {
      hide Settle, Lifetime, Delays, Remaining;
      id := nextId;
      nextId := nextId + 1;
      var a := new Authorization(id, timeout);
      auths := auths[id := a];
      assert Users(clients, id) == {};
      if timeout != 0 {
        SettleRemaining(timeout);
        var over := a.Start();
        if over {
          Free(id, {});
          assert clients == old(clients);
        }
      }
    }

    /** A client connects. */
    method Initial(c: nat)
      requires Valid() && c !in clients
      modifies this`clients
      ensures Valid() && clients == old(clients)[c := Client(0, false)]
    {
      clients := clients[c := Client(0, false)];
      forall id | id in auths
        ensures Right(id)
      {
        assert Users(clients, id) == Users(old(clients), id);
      }
    }

    /** A client is admitted with an authorization; a generated one has a user more and no timer running. */
    method Running(c: nat, authId: nat)
      requires Valid() && c in clients && clients[c] == Client(0, false) && authId < nextId
      modifies this`clients, auths.Values
      ensures Valid() && clients == old(clients)[c := Client(authId, authId in auths)]
      ensures authId in auths ==> auths[authId].pending == 0
      ensures forall i :: i in auths && i != authId ==> auths[i].Timer() == old(auths[i].Timer())
    {
      clients := clients[c := Client(authId, false)];
      if authId in auths {
        var a := auths[authId];
        a.refcnt := a.refcnt + 1;
        clients := clients[c := Client(authId, true)];
        if a.refcnt == 1 {
          a.Cancel();
        }
      }
      assert clients == old(clients)[c := Client(authId, authId in auths)];
      forall id | id in auths
        ensures Right(id)
      {
        UsersChange(old(clients), c, Client(authId, authId in auths), id);
      }
    }

    /** The record of a client that counts for no authorization is dropped. */
    method Drop(c: nat)
      requires Valid() && c in clients && !(clients[c].live && clients[c].authId in auths)
      modifies this`clients
      ensures Valid() && clients == old(clients) - {c}
    {
      clients := clients - {c};
      forall id | id in auths
        ensures Right(id)
      {
        assert Users(clients, id) == Users(old(clients), id);
      }
    }

    /**
     * A client goes or is retained: its authorization has a user less. When that was the last, the timeout starts
     * again, and an authorization that is over at once takes its retained clients' admission with it.
     */
    method Gone(c: nat, retained: bool)
      requires Valid() && c in clients
      modifies this`clients, this`auths, auths.Values
      ensures Valid()
      ensures var client := old(clients)[c];
        var ends := client.live && client.authId in old(auths) && client.authId !in auths;
        && (forall d :: d in clients <==>
              d in old(clients) && if d == c then retained else !(ends && old(clients)[d].authId == client.authId))
        && (forall d :: d in clients && d != c ==> clients[d] == old(clients)[d])
        && (retained ==> clients[c] == Client(client.authId, client.live && client.authId !in old(auths)))
      ensures forall i :: i in auths && i != old(clients)[c].authId ==>
        i in old(auths) && auths[i].Timer() == old(auths[i].Timer())
      ensures var client := old(clients)[c];
        var counted := client.live && client.authId in old(auths);
        && (!counted ==> auths == old(auths))
        && (counted ==>
              var a := old(auths)[client.authId];
              if old(a.refcnt) > 1 then auths == old(auths) && a.refcnt == old(a.refcnt) - 1
              else if Settle(a.timeout).Over? then auths == old(auths) - {client.authId}
              else auths == old(auths) && a.refcnt == 0 && a.Timer() == Settle(a.timeout))
    {
      hide Settle, Lifetime, Delays, Remaining, Users;
      var id := clients[c].authId;
      if clients[c].live && id in auths {
        var a := auths[id];
        UserLeaves(c, id, a);
        if a.refcnt == 0 {
          StartAgain(id, if retained then {c} else {});
        }
      }
      if !retained && c in clients {
        Drop(c);
      }
    }

    /** The timer of an authorization that nobody uses any more is started, and may be over at once. */
    method StartAgain(id: nat, retained: set<nat>)
      requires nextId > 0 && id in auths && auths[id].refcnt == 0 == |Users(clients, id)|
      requires forall i :: i in auths ==> 0 < i < nextId && auths[i].id == i
      requires forall c :: c in clients ==> clients[c].authId < nextId
      requires forall i :: i in auths && i != id ==> Right(i)
      requires auths[id].timeout == 0 ==> auths[id].pending == 0
      modifies this`clients, this`auths, auths[id]
      ensures Valid()
      ensures var a := old(auths)[id];
        if Settle(a.timeout).Over? then auths == old(auths) - {id} && GoneWith(id, retained, old(clients))
        else auths == old(auths) && clients == old(clients) && a.refcnt == 0 && a.Timer() == Settle(a.timeout)
    {
      hide Settle, Lifetime, Delays, Remaining, Users;
      SettleRemaining(auths[id].timeout);
      var over := auths[id].Start();
      if over {
        Free(id, retained);
      }
    }

    /** All is right but that an unused authorization has no timer yet. */
    method UserLeaves(c: nat, id: nat, a: Authorization)
      requires Valid() && c in clients && clients[c] == Client(id, true) && id in auths && auths[id] == a
      modifies this`clients, a`refcnt
      ensures clients == old(clients)[c := Client(id, false)]
      ensures a.refcnt == old(a.refcnt) - 1 == |Users(clients, id)|
      ensures forall i :: i in auths && i != id ==> Right(i)
      ensures forall i :: i in auths ==> auths[i].Timer() == old(auths[i].Timer())
    {
      a.refcnt := a.refcnt - 1;
      clients := clients[c := Client(id, false)];
      UsersChange(old(clients), c, Client(id, false), id);
      forall i | i in auths && i != id
        ensures Right(i)
      {
        UsersChange(old(clients), c, Client(id, false), i);
      }
    }

    /** The timer of an unused authorization runs out: it goes on, or the authorization is over. */
    method TimerExpires(id: nat)
      requires Valid() && id in auths && auths[id].pending > 0
      modifies this`clients, this`auths, auths.Values
      ensures Valid()
      ensures var a := old(auths)[id];
        if Expire(old(a.Timer())).Over? then auths == old(auths) - {id} && GoneWith(id, {}, old(clients))
        else auths == old(auths) && a.Timer() == Expire(old(a.Timer())) && clients == old(clients)
    {
      ExpireRemaining(auths[id].Timer());
      var over := auths[id].Expired();
      if over {
        Free(id, {});
      }
    }

    /** RevokeAuthorization. */
    method Revoke(id: nat, retained: set<nat>)
      requires Valid() && id in auths
      modifies this`clients, this`auths
      ensures Valid() && auths == old(auths) - {id} && GoneWith(id, retained, old(clients))
    {
      Free(id, retained);
    }
  }
}
