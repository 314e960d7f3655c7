/** Which resources a request visits, and what is answered about them (Xext/xres.c). */
module XResQuery {
  import opened XRes
  import opened XResContext
  import XResReply

  datatype IdSpec = IdSpec(resource: CARD32, typ: CARD32)

  /** A slot of the client table. */
  datatype Client = NoClient | Client(resources: seq<Resource>)

  const MAX_CLIENTS: nat := 256
  const RESOURCES_PER_CLIENT: nat := 0x20_0000

  /** The client that an id belongs to. */
  function ClientId(id: CARD32): (c: nat)
    ensures c < MAX_CLIENTS
  {
    id / RESOURCES_PER_CLIENT % MAX_CLIENTS
  }

  lemma ClientIdIs(id: CARD32)
    ensures ClientId(id) == id / 0x20_0000 % 256
  {
  }

  /** Resources are kept with the client of their id; slot 0 is the server's own. */
  ghost predicate ValidClients(clients: seq<Client>) {
    && 0 < |clients| <= MAX_CLIENTS && clients[0].Client?
    && forall c, r :: 0 <= c < |clients| && clients[c].Client? && r in clients[c].resources ==> r.id / 0x20_0000 % 256 == c
  }

  // ---- What is visited ----

  predicate Matches(spec: IdSpec, r: Resource) {
    (spec.typ == 0 || spec.typ == r.typ) && (spec.resource == 0 || spec.resource == r.id)
  }

  /** Those of the first `n` resources that a spec matches. */
  function Matching(rs: seq<Resource>, spec: IdSpec, n: nat): seq<Resource>
    requires n <= |rs|
  {
    if n == 0 then []
    else if Matches(spec, rs[n - 1]) then Matching(rs, spec, n - 1) + [rs[n - 1]]
    else Matching(rs, spec, n - 1)
  }

  /** A client's resources for those of the first `n` specs that name no id. */
  function ClientVisits(rs: seq<Resource>, specs: seq<IdSpec>, n: nat): seq<Resource>
    requires n <= |specs|
  {
    if n == 0 then []
    else if specs[n - 1].resource == 0 then ClientVisits(rs, specs, n - 1) + Matching(rs, specs[n - 1], |rs|)
    else ClientVisits(rs, specs, n - 1)
  }

  /** The same for the first `n` slots of the client table. */
  function AllVisits(clients: seq<Client>, specs: seq<IdSpec>, n: nat): seq<Resource>
    requires n <= |clients|
  {
    if n == 0 then []
    else if clients[n - 1].Client?
    then AllVisits(clients, specs, n - 1) + ClientVisits(clients[n - 1].resources, specs, |specs|)
    else AllVisits(clients, specs, n - 1)
  }

  /** Whether an id spec is looked up. The client asked about is compared with a client number. */
  predicate LooksUp(clients: seq<Client>, spec: IdSpec, about: CARD32) {
    var c := ClientId(spec.resource);
    spec.resource != 0 && c < |clients| && (about == 0 || c == about) && clients[c].Client?
  }

  /** The resources of the client that a spec's id belongs to. */
  function Owned(clients: seq<Client>, spec: IdSpec): seq<Resource> {
    var c := ClientId(spec.resource);
    if c < |clients| && clients[c].Client? then clients[c].resources else []
  }

  /** The resources for those of the first `n` specs that name an id. */
  function IdVisits(clients: seq<Client>, specs: seq<IdSpec>, about: CARD32, n: nat): seq<Resource>
    requires n <= |specs|
  {
    if n == 0 then []
    else
      var spec := specs[n - 1];
      if LooksUp(clients, spec, about)
      then IdVisits(clients, specs, about, n - 1) + Matching(Owned(clients, spec), spec, |Owned(clients, spec)|)
      else IdVisits(clients, specs, about, n - 1)
  }

  predicate KnownClient(clients: seq<Client>, about: CARD32) {
    var c := about / 0x20_0000 % 256;
    c < |clients| && clients[c].Client?
  }

  function Visits(clients: seq<Client>, specs: seq<IdSpec>, about: CARD32): seq<Resource>
    requires |clients| > 0 && clients[0].Client? && (about != 0 ==> KnownClient(clients, about))
  {
    (if about != 0 then ClientVisits(clients[ClientId(about)].resources, specs, |specs|)
     else ClientVisits(clients[0].resources, specs, |specs|) + AllVisits(clients, specs, |clients|))
    + IdVisits(clients, specs, about, |specs|)
  }

  // ---- The request ----

  /** What was visited before, and `part` after it. */
  ghost predicate Continues(now: seq<Resource>, before: seq<Resource>, part: seq<Resource>) {
    now == before + part
  }

  lemma Continued(now: seq<Resource>, middle: seq<Resource>, before: seq<Resource>, part: seq<Resource>,
                  more: seq<Resource>)
    ensures Continues(before, before, [])
    ensures Continues(middle, before, part) && Continues(now, middle, more) ==> Continues(now, before, part + more)
  {
  }

  /** The callback for every resource of a client that a spec matches. */
  method FindMatching(ctx: Context, rs: seq<Resource>, spec: IdSpec)
    requires ctx.Valid()
    modifies ctx
    ensures ctx.Valid() && Continues(ctx.visited, old(ctx.visited), Matching(rs, spec, |rs|))
  {
    hide Context.Valid, Continues, Matches;
    var k := 0;
    Continued([], [], ctx.visited, [], []);
    while k < |rs|
      invariant k <= |rs| && ctx.Valid()
      invariant Continues(ctx.visited, old(ctx.visited), Matching(rs, spec, k))
    {
      if Matches(spec, rs[k]) {
        ghost var middle := ctx.visited;
        VisitOne(ctx, rs[k]);
        Continued(ctx.visited, middle, old(ctx.visited), Matching(rs, spec, k), [rs[k]]);
      }
      k := k + 1;
    }
  }

  method VisitOne(ctx: Context, r: Resource)
    requires ctx.Valid()
    modifies ctx
    ensures ctx.Valid() && Continues(ctx.visited, old(ctx.visited), [r])
  {
    hide Context.Valid;
    ctx.AddResourceSizeValue(r);
  }

  /** The specs that name no id, for one client. */
  method ConstructClientResourceBytes(ctx: Context, rs: seq<Resource>, specs: seq<IdSpec>)
    requires ctx.Valid()
    modifies ctx
    ensures ctx.Valid() && Continues(ctx.visited, old(ctx.visited), ClientVisits(rs, specs, |specs|))
  {
    hide Context.Valid, Continues, Matching;
    var k := 0;
    Continued([], [], ctx.visited, [], []);
    while k < |specs|
      invariant k <= |specs| && ctx.Valid()
      invariant Continues(ctx.visited, old(ctx.visited), ClientVisits(rs, specs, k))
    {
      if specs[k].resource == 0 {
        ghost var middle := ctx.visited;
        FindMatching(ctx, rs, specs[k]);
        Continued(ctx.visited, middle, old(ctx.visited), ClientVisits(rs, specs, k), Matching(rs, specs[k], |rs|));
      }
      k := k + 1;
    }
  }

  method ConstructForEveryClient(ctx: Context, clients: seq<Client>, specs: seq<IdSpec>)
    requires ctx.Valid()
    modifies ctx
    ensures ctx.Valid() && Continues(ctx.visited, old(ctx.visited), AllVisits(clients, specs, |clients|))
  {
    hide Context.Valid, Continues, ClientVisits;
    var c := 0;
    Continued([], [], ctx.visited, [], []);
    while c < |clients|
      invariant c <= |clients| && ctx.Valid()
      invariant Continues(ctx.visited, old(ctx.visited), AllVisits(clients, specs, c))
    {
      if clients[c].Client? {
        ghost var middle := ctx.visited;
        ConstructClientResourceBytes(ctx, clients[c].resources, specs);
        Continued(ctx.visited, middle, old(ctx.visited), AllVisits(clients, specs, c),
                  ClientVisits(clients[c].resources, specs, |specs|));
      }
      c := c + 1;
    }
  }

  /** The specs that name an id. */
  method ConstructResourceBytesByResource(ctx: Context, clients: seq<Client>, specs: seq<IdSpec>, about: CARD32)
    requires ctx.Valid()
    modifies ctx
    ensures ctx.Valid() && Continues(ctx.visited, old(ctx.visited), IdVisits(clients, specs, about, |specs|))
  {
    hide Context.Valid, Continues, Matching, ClientId;
    var k := 0;
    Continued([], [], ctx.visited, [], []);
    while k < |specs|
      invariant k <= |specs| && ctx.Valid()
      invariant Continues(ctx.visited, old(ctx.visited), IdVisits(clients, specs, about, k))
    {
      if specs[k].resource != 0 {
        var c := ClientId(specs[k].resource);
        if c < |clients| && (about == 0 || c == about) && clients[c].Client? {
          ghost var middle := ctx.visited;
          FindMatching(ctx, clients[c].resources, specs[k]);
          Continued(ctx.visited, middle, old(ctx.visited), IdVisits(clients, specs, about, k),
                    Matching(clients[c].resources, specs[k], |clients[c].resources|));
        }
      }
      k := k + 1;
    }
  }

  datatype Status = Success | BadValue | BadAlloc

  /** ConstructResourceBytes: on success the context holds the answer about everything visited. */
  method ConstructResourceBytes(clients: seq<Client>, specs: seq<IdSpec>, about: CARD32, ctx: Context)
    returns (status: Status)
    requires |clients| > 0 && clients[0].Client? && ctx.Valid() && ctx.success && ctx.visited == []
    modifies ctx
    ensures status == BadValue <==> about != 0 && !KnownClient(clients, about)
    ensures status != BadValue ==> (status == Success <==> Allocations(Answer(Visits(clients, specs, about))) <= ctx.start)
    ensures status == Success ==>
      && ctx.response == Answer(Visits(clients, specs, about))
      && ctx.resultBytes == TotalBytes(ctx.response)
      && ctx.numSizes == |Firsts(Visits(clients, specs, about), ResourceKey)|
  {
    ClientIdIs(about);
    hide ClientVisits, AllVisits, IdVisits, ClientId, Answer, Firsts, TotalBytes, HasKey, Allocations;
    if about != 0 {
      if ClientId(about) >= |clients| || clients[ClientId(about)].NoClient? {
        return BadValue;
      }
      ConstructClientResourceBytes(ctx, clients[ClientId(about)].resources, specs);
      ConstructResourceBytesByResource(ctx, clients, specs, about);
    } else {
      ConstructClientResourceBytes(ctx, clients[0].resources, specs);
      ConstructForEveryClient(ctx, clients, specs);
      ConstructResourceBytesByResource(ctx, clients, specs, 0);
    }
    assert ctx.visited == Visits(clients, specs, about);
    status := if ctx.success then Success else BadAlloc;
  }

  // ---- Which resources are visited ----

  lemma {:induction false} MatchingExactly(rs: seq<Resource>, spec: IdSpec, r: Resource, n: nat)
    requires n <= |rs|
    ensures r in Matching(rs, spec, n) <==> r in rs[..n] && Matches(spec, r)
  {
    if n > 0 {
      MatchingExactly(rs, spec, r, n - 1);
      assert rs[..n] == rs[..n - 1] + [rs[n - 1]];
    }
  }

  /** In a spec 0 stands for any type and for any id. */
  predicate AsksFor(spec: IdSpec, r: Resource) {
    spec.typ in {0, r.typ} && spec.resource in {0, r.id}
  }

  /** Some of the first `n` specs that names no id matches. */
  predicate AskedUnnamed(specs: seq<IdSpec>, r: Resource, n: nat)
    requires n <= |specs|
  {
    exists k :: 0 <= k < n && specs[k].resource == 0 && AsksFor(specs[k], r)
  }

  /** Some of the first `n` specs is looked up and matches. */
  predicate AskedByName(clients: seq<Client>, specs: seq<IdSpec>, about: CARD32, r: Resource, n: nat)
    requires n <= |specs|
  {
    exists k :: 0 <= k < n && LooksUp(clients, specs[k], about) && Matches(specs[k], r)
      && r in Owned(clients, specs[k])
  }

  lemma {:induction false} ClientVisitsExactly(rs: seq<Resource>, specs: seq<IdSpec>, r: Resource, n: nat)
    requires n <= |specs|
    ensures r in ClientVisits(rs, specs, n) <==> r in rs && AskedUnnamed(specs, r, n)
  {
    if n > 0 {
      ClientVisitsExactly(rs, specs, r, n - 1);
      MatchingExactly(rs, specs[n - 1], r, |rs|);
      assert rs[..|rs|] == rs;
    }
  }

  lemma {:induction false} IdVisitsExactly(clients: seq<Client>, specs: seq<IdSpec>, about: CARD32, r: Resource, n: nat)
    requires n <= |specs|
    ensures r in IdVisits(clients, specs, about, n) <==> AskedByName(clients, specs, about, r, n)
  {
    if n > 0 {
      IdVisitsExactly(clients, specs, about, r, n - 1);
      var rs := Owned(clients, specs[n - 1]);
      MatchingExactly(rs, specs[n - 1], r, |rs|);
      assert rs[..|rs|] == rs;
    }
  }

  /** Some client among the first `n` slots has the resource. */
  predicate SomeClientHas(clients: seq<Client>, r: Resource, n: nat)
    requires n <= |clients|
  {
    exists c :: 0 <= c < n && clients[c].Client? && r in clients[c].resources
  }

  lemma {:induction false} AllVisitsExactly(clients: seq<Client>, specs: seq<IdSpec>, r: Resource, n: nat)
    requires n <= |clients|
    ensures r in AllVisits(clients, specs, n) <==> SomeClientHas(clients, r, n) && AskedUnnamed(specs, r, |specs|)
  {
    if n > 0 {
      AllVisitsExactly(clients, specs, r, n - 1);
      if clients[n - 1].Client? {
        ClientVisitsExactly(clients[n - 1].resources, specs, r, |specs|);
      }
    }
  }

  predicate AnySpecMatches(specs: seq<IdSpec>, r: Resource) {
    exists k :: 0 <= k < |specs| && AsksFor(specs[k], r)
  }

  /** Asked about no client in particular, exactly the resources that some spec matches are visited. */
  lemma AllClientsExactly(clients: seq<Client>, specs: seq<IdSpec>, r: Resource)
    requires ValidClients(clients)
    ensures r in Visits(clients, specs, 0) <==> SomeClientHas(clients, r, |clients|) && AnySpecMatches(specs, r)
  {
    ClientVisitsExactly(clients[0].resources, specs, r, |specs|);
    AllVisitsExactly(clients, specs, r, |clients|);
    IdVisitsExactly(clients, specs, 0, r, |specs|);
    hide ClientVisits, AllVisits, IdVisits, ClientId;
    if SomeClientHas(clients, r, |clients|) {
      forall k | 0 <= k < |specs| && specs[k].resource != 0 && Matches(specs[k], r)
        ensures LooksUp(clients, specs[k], 0) && r in Owned(clients, specs[k])
      {
      }
    }
  }

  /** Some spec that names the resource's id matches. */
  predicate AskedNamed(specs: seq<IdSpec>, r: Resource) {
    exists k :: 0 <= k < |specs| && specs[k].resource != 0 && AsksFor(specs[k], r)
  }

  /** The resource belongs to client number `c`. */
  predicate Has(clients: seq<Client>, c: nat, r: Resource) {
    c < |clients| && clients[c].Client? && r in clients[c].resources
  }

  /**
   * Asked about one client, exactly these resources are visited: its own for specs that name no id, and by name those
   * of the client whose number is the id asked about, since the code compares that id with a client number.
   */
  lemma OneClientExactly(clients: seq<Client>, specs: seq<IdSpec>, about: CARD32, r: Resource)
    requires ValidClients(clients) && about != 0 && KnownClient(clients, about)
    ensures r in Visits(clients, specs, about) <==>
      (Has(clients, ClientId(about), r) && AskedUnnamed(specs, r, |specs|))
      || (Has(clients, about, r) && AskedNamed(specs, r))
  {
    ClientVisitsExactly(clients[ClientId(about)].resources, specs, r, |specs|);
    IdVisitsExactly(clients, specs, about, r, |specs|);
    LookedUpExactly(clients, specs, about, r);
    hide ClientVisits, IdVisits, AskedByName, AskedUnnamed, AskedNamed;
  }

  /** A spec is looked up for the client whose number is the id asked about, and no other. */
  lemma LookedUpExactly(clients: seq<Client>, specs: seq<IdSpec>, about: CARD32, r: Resource)
    requires ValidClients(clients) && about != 0
    ensures AskedByName(clients, specs, about, r, |specs|) <==> Has(clients, about, r) && AskedNamed(specs, r)
  {
    hide ClientId;
    forall k | 0 <= k < |specs| && specs[k].resource != 0 && Matches(specs[k], r)
      ensures LooksUp(clients, specs[k], about) && r in Owned(clients, specs[k]) <==> Has(clients, about, r)
    {
      assert specs[k].resource == r.id;
      ClientIdIs(r.id);
      if Has(clients, about, r) { assert ClientId(r.id) == about; }
    }
  }

  lemma NumberIsNoId(about: CARD32)
    ensures about != 0 ==> ClientId(about) != about
  {
  }

  /** What is meant to be visited: the client's own resources that some spec matches, by name or not. */
  ghost predicate AsAsked(clients: seq<Client>, specs: seq<IdSpec>, about: CARD32)
    requires ValidClients(clients) && about != 0 && KnownClient(clients, about)
  {
    forall r :: r in Visits(clients, specs, about) <==> Has(clients, ClientId(about), r) && AnySpecMatches(specs, r)
  }

  /**
   * That is the case if and only if every resource of the client that a spec names is asked about by a spec without an
   * id as well, and no spec names a resource of the client whose number is the id asked about.
   */
  lemma AsAskedExactly(clients: seq<Client>, specs: seq<IdSpec>, about: CARD32)
    requires ValidClients(clients) && about != 0 && KnownClient(clients, about)
    ensures AsAsked(clients, specs, about) <==>
      && (forall r :: Has(clients, ClientId(about), r) && AskedNamed(specs, r) ==> AskedUnnamed(specs, r, |specs|))
      && (forall r :: Has(clients, about, r) ==> !AskedNamed(specs, r))
  {
    NumberIsNoId(about);
    hide Visits, AskedUnnamed, AskedNamed, AnySpecMatches, ClientId;
    forall r
      ensures r in Visits(clients, specs, about) <==>
        (Has(clients, ClientId(about), r) && AskedUnnamed(specs, r, |specs|))
        || (Has(clients, about, r) && AskedNamed(specs, r))
      ensures AnySpecMatches(specs, r) <==> AskedNamed(specs, r) || AskedUnnamed(specs, r, |specs|)
      ensures Has(clients, ClientId(about), r) ==> !Has(clients, about, r)
    {
      OneClientExactly(clients, specs, about, r);
      AnySpecSplit(specs, r);
      OneOwner(clients, ClientId(about), about, r);
    }
  }

  lemma OneOwner(clients: seq<Client>, c: nat, d: nat, r: Resource)
    requires ValidClients(clients)
    ensures Has(clients, c, r) && Has(clients, d, r) ==> c == d
  {
  }

  lemma AnySpecSplit(specs: seq<IdSpec>, r: Resource)
    ensures AnySpecMatches(specs, r) <==> AskedNamed(specs, r) || AskedUnnamed(specs, r, |specs|)
  {
  }

  /** So a client that asks about its own resource by name gets no answer, though the spec matches. */
  lemma NamedResourceMissed()
    ensures var r := Resource(0x20_0001, 1, 16, 1, []);
      var clients, specs, about := [Client([]), Client([r])], [IdSpec(r.id, 0)], 0x20_0000;
      && ValidClients(clients) && KnownClient(clients, about) && r in clients[ClientId(about)].resources
      && AnySpecMatches(specs, r) && Answer(Visits(clients, specs, about)) == []
  {
    var r := Resource(0x20_0001, 1, 16, 1, []);
    var clients, specs, about := [Client([]), Client([r])], [IdSpec(r.id, 0)], 0x20_0000;
    assert clients[1].resources[0] == r;
    assert Matches(specs[0], r);
    assert ClientVisits([r], specs, 1) == [];
    assert IdVisits(clients, specs, about, 1) == [];
    assert Visits(clients, specs, about) == [];
  }

  /** And a client that asks about id 1, which belongs to the server, is answered about a resource of client 1. */
  lemma ForeignResourceAnswered()
    ensures var r := Resource(0x20_0001, 1, 16, 1, []);
      var clients, specs, about := [Client([]), Client([r])], [IdSpec(r.id, 0)], 1;
      && ValidClients(clients) && KnownClient(clients, about) && r !in clients[ClientId(about)].resources
      && Visits(clients, specs, about) == [r]
  {
    var r := Resource(0x20_0001, 1, 16, 1, []);
    var clients, specs, about := [Client([]), Client([r])], [IdSpec(r.id, 0)], 1;
    assert clients[1].resources[0] == r;
    hide AllVisits, ValidClients;
    assert ClientId(about) == 0 && ClientId(r.id) == 1;
    assert LooksUp(clients, specs[0], about) && Owned(clients, specs[0]) == [r];
    assert Matches(specs[0], r);
    hide ClientId, LooksUp, Owned, Matches;
    assert Matching([r], specs[0], 0) == [];
    assert Matching([r], specs[0], 1) == [r];
    assert ClientVisits([], specs, 0) == [] && ClientVisits([], specs, 1) == [];
    assert IdVisits(clients, specs, about, 0) == [];
    assert IdVisits(clients, specs, about, 1) == [r];
  }

  /** Two resources under one id, as a window is kept by the server and by Xinerama: only the first visited is answered. */
  lemma SameIdLeftOut()
    ensures var window, panorama := Resource(0x20_0001, 1, 16, 1, []), Resource(0x20_0001, 2, 32, 1, []);
      var clients, specs := [Client([]), Client([window, panorama])], [IdSpec(0x20_0001, 0)];
      && ValidClients(clients) && AnySpecMatches(specs, panorama)
      && Visits(clients, specs, 0) == [window, panorama]
      && XResReply.Values(Answer(Visits(clients, specs, 0))) == [ValueOf(window, 0)]
  {
    var window, panorama := Resource(0x20_0001, 1, 16, 1, []), Resource(0x20_0001, 2, 32, 1, []);
    var clients, specs := [Client([]), Client([window, panorama])], [IdSpec(0x20_0001, 0)];
    assert clients[1].resources == [window, panorama];
    assert Matches(specs[0], panorama);
    IdVisited(window, panorama);
    assert Visits(clients, specs, 0) == [window, panorama];
    OneAnswered(window, panorama);
  }

  lemma IdVisited(window: Resource, panorama: Resource)
    requires window.id == panorama.id == 0x20_0001
    ensures var clients, specs := [Client([]), Client([window, panorama])], [IdSpec(0x20_0001, 0)];
      && IdVisits(clients, specs, 0, 1) == [window, panorama]
      && AllVisits(clients, specs, 2) == [] && ClientVisits([], specs, 1) == []
  {
    var rs, spec := [window, panorama], IdSpec(0x20_0001, 0);
    var clients, specs := [Client([]), Client(rs)], [spec];
    assert LooksUp(clients, spec, 0) && Owned(clients, spec) == rs;
    assert Matching(rs, spec, 0) == [];
    assert Matching(rs, spec, 1) == [window];
    assert Matching(rs, spec, 2) == [window, panorama];
    assert IdVisits(clients, specs, 0, 0) == [];
    assert ClientVisits([], specs, 0) == [] && ClientVisits(rs, specs, 0) == [] && ClientVisits(rs, specs, 1) == [];
    assert AllVisits(clients, specs, 0) == [] && AllVisits(clients, specs, 1) == [];
  }

  lemma OneAnswered(window: Resource, panorama: Resource)
    requires window.id == panorama.id && window.subs == []
    ensures XResReply.Values(Answer([window, panorama])) == [ValueOf(window, 0)]
  {
    var visited := [window, panorama];
    assert visited[..1] == [window] && [window][..0] == [];
    assert Firsts([window][..0], ResourceKey) == [];
    assert Firsts([window], ResourceKey) == [window];
    assert Firsts(visited, ResourceKey) == [window];
    XResReply.ValuesOfGroups([window]);
    assert Group(window) == [ValueOf(window, 0)];
  }
}
