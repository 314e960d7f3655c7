/** The record that builds the answer as resources are visited (Xext/xres.c). */
module XResContext {
  import opened XRes

  lemma {:induction false} TotalOfSum(a: seq<Fragment>, b: seq<Fragment>)
    ensures TotalBytes(a + b) == TotalBytes(a) + TotalBytes(b)
  {
    if b == [] {
      assert a + b == a;
    } else {
      TotalOfSum(a, b[..|b| - 1]);
      assert (a + b)[..|a + b| - 1] == a + b[..|b| - 1];
    }
  }

  /** One more sub-resource: counted again, or a spec of its own. */
  lemma {:induction false} MetAgain(met: seq<Sub>, s: Sub)
    ensures var d, specs := Firsts(met, SubKey), SpecsOf(met);
      var i := IndexOf(d, SubKey, s.ptr);
      if i < |d| then Firsts(met + [s], SubKey) == d && SpecsOf(met + [s]) == specs[i := specs[i].Used()]
      else Firsts(met + [s], SubKey) == d + [s] && SpecsOf(met + [s]) == specs + [SpecOf(s, 1)]
  {
    FirstsStep(met, s, SubKey);
    var d, u := Firsts(met, SubKey), Uses(met, SubKey);
    var i := IndexOf(d, SubKey, s.ptr);
    hide SpecOf, Fragment.Used, Firsts, Uses, IndexOf;
    if i < |d| {
      SpecUsed(d[i], u[i]);
    }
  }

  lemma {:induction false} IndexOfKept<T>(d: seq<T>, x: T, key: T -> nat, k: nat)
    ensures IndexOf(d + [x], key, k) ==
      if IndexOf(d, key, k) < |d| || key(x) == k then IndexOf(d, key, k) else |d| + 1
  {
    if d == [] {
      assert (d + [x])[1..] == [];
    } else {
      IndexOfKept(d[1..], x, key, k);
      assert (d + [x])[1..] == d[1..] + [x];
    }
  }

  lemma {:induction false} FoundIffKey<T>(s: seq<T>, key: T -> nat, k: nat)
    ensures IndexOf(Firsts(s, key), key, k) < |Firsts(s, key)| <==> HasKey(s, key, k)
  {
    FirstsKeys(s, key);
    var d := Firsts(s, key);
    assert IndexOf(d, key, k) < |d| <==> HasKey(d, key, k);
  }

  lemma {:induction false} OneMoreKey<T>(s: seq<T>, x: T, key: T -> nat, k: nat)
    ensures HasKey(s + [x], key, k) <==> HasKey(s, key, k) || key(x) == k
  {
    KeyStays(s, x, key, k);
    if key(x) == k {
      assert key((s + [x])[|s|]) == k;
    }
    if HasKey(s + [x], key, k) && key(x) != k {
      var i :| 0 <= i < |s + [x]| && key((s + [x])[i]) == k;
      assert key(s[i]) == k;
    }
  }

  /** The fragments while a resource is visited, after those in `before`: its value, and a spec for each met below. */
  function PartGroup(before: seq<Fragment>, r: Resource, met: seq<Sub>): (p: seq<Fragment>)
    ensures |p| == |before| + 1 + |SpecsOf(met)| && p[|before|].SizeValue?
  {
    before + [ValueOf(r, |SpecsOf(met)|)] + SpecsOf(met)
  }

  /** The table tells, for each sub-resource met, where its spec is; `base` is where the first spec is. */
  ghost predicate TableRight(table: map<nat, nat>, base: nat, met: seq<Sub>) {
    && (forall p :: p in table <==> HasKey(met, SubKey, p))
    && (forall p :: p in table ==> table[p] == base + IndexOf(Firsts(met, SubKey), SubKey, p))
  }

  lemma {:induction false} TableNew(table: map<nat, nat>, base: nat, met: seq<Sub>, s: Sub)
    requires TableRight(table, base, met) && s.ptr !in table
    ensures !HasKey(met, SubKey, s.ptr)
    ensures TableRight(table[s.ptr := base + |SpecsOf(met)|], base, met + [s])
  {
    var more := table[s.ptr := base + |SpecsOf(met)|];
    MetAgain(met, s);
    FoundIffKey(met, SubKey, s.ptr);
    hide Firsts, SpecsOf, IndexOf;
    forall p
      ensures p in more <==> HasKey(met + [s], SubKey, p)
      ensures p in more ==> more[p] == base + IndexOf(Firsts(met + [s], SubKey), SubKey, p)
    {
      OneMoreKey(met, s, SubKey, p);
      FoundIffKey(met, SubKey, p);
      IndexOfKept(Firsts(met, SubKey), s, SubKey, p);
    }
  }

  lemma {:induction false} TableKept(table: map<nat, nat>, base: nat, met: seq<Sub>, s: Sub)
    requires TableRight(table, base, met) && s.ptr in table
    ensures HasKey(met, SubKey, s.ptr)
    ensures base - 1 + |SpecsOf(met)| >= table[s.ptr] == base + IndexOf(Firsts(met, SubKey), SubKey, s.ptr)
    ensures TableRight(table, base, met + [s])
  {
    MetAgain(met, s);
    FoundIffKey(met, SubKey, s.ptr);
    forall p
      ensures p in table <==> HasKey(met + [s], SubKey, p)
    {
      OneMoreKey(met, s, SubKey, p);
    }
  }

  /** A new spec at the end, counted in the value. */
  lemma {:induction false} PartGroupNew(before: seq<Fragment>, r: Resource, met: seq<Sub>, s: Sub)
    requires !HasKey(met, SubKey, s.ptr)
    ensures var more := PartGroup(before, r, met) + [SpecOf(s, 1)];
      PartGroup(before, r, met + [s]) == more[|before| := more[|before|].Referenced()]
    ensures TotalBytes(SpecsOf(met + [s])) == TotalBytes(SpecsOf(met)) + 20
  {
    MetAgain(met, s);
    FoundIffKey(met, SubKey, s.ptr);
    LowOfNext(|SpecsOf(met)|);
    hide Low32, Next32, Firsts, IndexOf, SpecsOf;
    assert (SpecsOf(met) + [SpecOf(s, 1)])[..|SpecsOf(met)|] == SpecsOf(met);
  }

  /** A spec met again is used once more. */
  lemma {:induction false} PartGroupUsed(before: seq<Fragment>, r: Resource, met: seq<Sub>, s: Sub, at: nat)
    requires HasKey(met, SubKey, s.ptr) && at == |before| + 1 + IndexOf(Firsts(met, SubKey), SubKey, s.ptr)
    requires at <= |before| + |SpecsOf(met)|
    ensures var part := PartGroup(before, r, met); PartGroup(before, r, met + [s]) == part[at := part[at].Used()]
    ensures TotalBytes(SpecsOf(met + [s])) == TotalBytes(SpecsOf(met))
  {
    MetAgain(met, s);
    FoundIffKey(met, SubKey, s.ptr);
    hide Firsts, IndexOf, SpecsOf;
    var specs, i := SpecsOf(met), IndexOf(Firsts(met, SubKey), SubKey, s.ptr);
    TotalUpdate(specs, i, specs[i].Used());
  }

  // ---- Memory ----

  /** The allocations behind a list of fragments: for a value the fragment, the entry of its id and the table of what is
    below it; for a spec the fragment and its entry in that table. */
  function Allocations(r: seq<Fragment>): nat {
    if r == [] then 0 else Allocations(r[..|r| - 1]) + if r[|r| - 1].SizeValue? then 3 else 2
  }

  lemma {:induction false} AllocationsOfSum(a: seq<Fragment>, b: seq<Fragment>)
    ensures Allocations(a + b) == Allocations(a) + Allocations(b)
  {
    if b == [] {
      assert a + b == a;
    } else {
      AllocationsOfSum(a, b[..|b| - 1]);
      assert (a + b)[..|a + b| - 1] == a + b[..|b| - 1];
    }
  }

  lemma {:induction false} AllocationsOfSpecs(r: seq<Fragment>)
    requires forall i :: 0 <= i < |r| ==> r[i].SizeSpec?
    ensures Allocations(r) == 2 * |r|
  {
    if r != [] { AllocationsOfSpecs(r[..|r| - 1]); }
  }

  /** A whole group takes three allocations and two for each different sub-resource. */
  lemma {:induction false} AllocationsOfGroup(before: seq<Fragment>, r: Resource, met: seq<Sub>)
    ensures Allocations(PartGroup(before, r, met)) == Allocations(before) + 3 + 2 * |SpecsOf(met)|
  {
    var value, specs := [ValueOf(r, |SpecsOf(met)|)], SpecsOf(met);
    assert value[..0] == [] && forall i :: 0 <= i < |specs| ==> specs[i].SizeSpec?;
    hide SpecsOf;
    AllocationsOfSum(before + value, specs);
    AllocationsOfSum(before, value);
    AllocationsOfSpecs(specs);
  }

  /** One more sub-resource met: two allocations if it is new, none if not. */
  lemma {:induction false} SpecsGrow(met: seq<Sub>, s: Sub)
    ensures |SpecsOf(met + [s])| == |SpecsOf(met)| + if HasKey(met, SubKey, s.ptr) then 0 else 1
  {
    MetAgain(met, s);
    FoundIffKey(met, SubKey, s.ptr);
    hide Firsts, IndexOf, SpecsOf;
  }

  class Context {
    var numSizes: nat
    var resultBytes: nat
    var response: seq<Fragment>
    var success: bool
    var visitedResources: set<nat>
    var visitedSubResources: map<nat, nat>
    var sizeValue: nat
    /** How many more allocations will succeed. */
    var memory: nat
    ghost var visited: seq<Resource>
    ghost const start: nat

    /** Memory lasts as long as the answer about what was visited needs no more of it than there was; and as long as it
      lasts, the response is that answer. */
    ghost predicate Valid()
      reads this
    {
      && (success <==> Allocations(Answer(visited)) <= start)
      && (success ==>
        && response == Answer(visited)
        && memory + Allocations(response) == start
        && resultBytes == TotalBytes(response)
        && numSizes == |Firsts(visited, ResourceKey)|
        && forall k :: k in visitedResources <==> HasKey(visited, ResourceKey, k))
    }

    constructor (memory: nat)
      ensures Valid() && success && visited == [] && start == memory
    {
      numSizes, resultBytes, response, success := 0, 0, [], true;
      visitedResources, visitedSubResources, sizeValue := {}, map[], 0;
      this.memory, start := memory, memory;
      visited := [];
    }

    method Allocate() returns (ok: bool)
      modifies this`memory
      ensures ok <==> old(memory) > 0
      ensures memory == old(memory) - if ok then 1 else 0
    {
      ok := memory > 0;
      if ok {
        memory := memory - 1;
      }
    }

    /** The record while the sub-resources of `r` are visited, after those in `met`. */
    ghost predicate InGroup(before: seq<Fragment>, r: Resource, met: seq<Sub>)
      reads this
    {
      && response == PartGroup(before, r, met)
      && resultBytes == TotalBytes(before) + TotalBytes(SpecsOf(met))
      && sizeValue == |before|
      && TableRight(visitedSubResources, |before| + 1, met)
    }

    /** A sub-resource seen before is counted again, another gets a spec of its own. */
    method AddSubResourceSizeSpec(s: Sub, ghost before: seq<Fragment>, ghost r: Resource, ghost met: seq<Sub>)
      requires success ==> InGroup(before, r, met)
      modifies this`response, this`resultBytes, this`success, this`visitedSubResources, this`memory
      ensures success <==> old(success) && (HasKey(met, SubKey, s.ptr) || old(memory) >= 2)
      ensures success ==> InGroup(before, r, met + [s])
      ensures success ==> memory == old(memory) - if HasKey(met, SubKey, s.ptr) then 0 else 2
    {
      hide PartGroup, TotalBytes, SpecsOf, HasKey, IndexOf, Firsts, SpecOf, Fragment.Used;
      if !success {
        return;
      }
      if s.ptr !in visitedSubResources {
        var fragment := Allocate();
        if !fragment {
          success := false;
          return;
        }
        var added := Allocate();
        if !added {
          response := response + [SizeSpec(0, 0, 0, 0, 0)];
          success := false;
          return;
        }
        NewSpec(s, before, r, met);
      } else {
        UseAgain(s, before, r, met);
      }
    }

    /** Add a resource's group, unless its id is in the response already. */
    method AddResourceSizeValue(r: Resource)
      requires Valid()
      modifies this
      ensures Valid() && visited == old(visited) + [r]
    {
      AnswerStep(visited, r);
      AllocationsOfGroup(Answer(visited), r, r.subs);
      hide Answer, Firsts, TotalBytes, HasKey, Allocations, PartGroup;
      if success && r.id !in visitedResources {
        AddNew(r);
      }
      ExtendKeys(old(visited), r);
      visited := visited + [r];
    }

    static lemma {:induction false} ExtendKeys(visited: seq<Resource>, r: Resource)
      ensures forall k :: HasKey(visited + [r], ResourceKey, k) <==> HasKey(visited, ResourceKey, k) || k == r.id
    {
      forall k
        ensures HasKey(visited + [r], ResourceKey, k) <==> HasKey(visited, ResourceKey, k) || k == r.id
      {
        OneMoreKey(visited, r, ResourceKey, k);
      }
    }

    method AddNew(r: Resource)
      requires success && resultBytes == TotalBytes(response)
      modifies this`numSizes, this`resultBytes, this`response, this`success, this`visitedResources
      modifies this`visitedSubResources, this`sizeValue, this`memory
      ensures success <==> old(memory) >= 3 + 2 * |SpecsOf(r.subs)|
      ensures success ==>
        && memory == old(memory) - (3 + 2 * |SpecsOf(r.subs)|)
        && response == PartGroup(old(response), r, r.subs) && resultBytes == TotalBytes(response)
        && numSizes == old(numSizes) + 1 && visitedResources == old(visitedResources) + {r.id}
    {
      hide PartGroup, TableRight, TotalBytes, SpecsOf, ValueOf;
      ghost var before := response;
      var ok := Reserve(r);
      if !ok {
        success := false;
        return;
      }
      sizeValue := |response| - 1;
      visitedSubResources := map[];
      NothingMet(before, r);
      AddSubResources(r, before);
      PartGroupBytes(before, r, r.subs);
      resultBytes := resultBytes + 24;
      numSizes := numSizes + 1;
    }

    /** The allocations for a resource: its fragment, its entry in the table of ids, a table for what is below it. */
    method Reserve(r: Resource) returns (ok: bool)
      modifies this`response, this`visitedResources, this`memory
      ensures ok <==> old(memory) >= 3
      ensures ok ==> memory == old(memory) - 3
      ensures ok ==> response == old(response) + [ValueOf(r, 0)]
      ensures ok ==> visitedResources == old(visitedResources) + {r.id}
    {
      hide *;
      ok := Allocate();
      if ok {
        response := response + [ValueOf(r, 0)];
        ok := Allocate();
      }
      if ok {
        visitedResources := visitedResources + {r.id};
        ok := Allocate();
      }
    }

    static lemma {:induction false} NothingMet(before: seq<Fragment>, r: Resource)
      ensures PartGroup(before, r, []) == before + [ValueOf(r, 0)]
      ensures TotalBytes(SpecsOf([])) == 0 && TableRight(map[], |before| + 1, [])
    {
    }

    /** The visit of everything below a resource. */
    method AddSubResources(r: Resource, ghost before: seq<Fragment>)
      requires success && InGroup(before, r, [])
      modifies this`response, this`resultBytes, this`success, this`visitedSubResources, this`memory
      ensures success <==> old(memory) >= 2 * |SpecsOf(r.subs)|
      ensures success ==> InGroup(before, r, r.subs) && memory == old(memory) - 2 * |SpecsOf(r.subs)|
    {
      hide *;
      var k := 0;
      assert r.subs[..0] == [];
      NoSpecs();
      while k < |r.subs|
        invariant k <= |r.subs|
        invariant success <==> old(memory) >= 2 * |SpecsOf(r.subs[..k])|
        invariant success ==> InGroup(before, r, r.subs[..k]) && memory == old(memory) - 2 * |SpecsOf(r.subs[..k])|
      {
        SpecsGrow(r.subs[..k], r.subs[k]);
        AddSubResourceSizeSpec(r.subs[k], before, r, r.subs[..k]);
        assert r.subs[..k + 1] == r.subs[..k] + [r.subs[k]];
        k := k + 1;
      }
      assert r.subs[..k] == r.subs;
    }

    static lemma NoSpecs()
      ensures SpecsOf([]) == []
    {
    }

    method UseAgain(s: Sub, ghost before: seq<Fragment>, ghost r: Resource, ghost met: seq<Sub>)
      requires InGroup(before, r, met) && s.ptr in visitedSubResources
      modifies this`response
      ensures InGroup(before, r, met + [s])
    {
      hide PartGroup, TableRight, TotalBytes, SpecsOf, HasKey, IndexOf, Firsts, Fragment.Used;
      var at := visitedSubResources[s.ptr];
      TableKept(visitedSubResources, |before| + 1, met, s);
      PartGroupUsed(before, r, met, s, at);
      response := response[at := response[at].Used()];
    }

    method NewSpec(s: Sub, ghost before: seq<Fragment>, ghost r: Resource, ghost met: seq<Sub>)
      requires InGroup(before, r, met) && s.ptr !in visitedSubResources
      modifies this`response, this`resultBytes, this`visitedSubResources
      ensures InGroup(before, r, met + [s])
    {
      hide PartGroup, TableRight, TotalBytes, SpecsOf, SpecOf, HasKey, Fragment.Referenced;
      TableNew(visitedSubResources, |before| + 1, met, s);
      PartGroupNew(before, r, met, s);
      visitedSubResources := visitedSubResources[s.ptr := |response|];
      response := response + [SpecOf(s, 1)];
      response := response[sizeValue := response[sizeValue].Referenced()];
      resultBytes := resultBytes + 20;
    }
  }

  lemma {:induction false} GroupsStep(rs: seq<Resource>, r: Resource)
    ensures Groups(rs + [r]) == PartGroup(Groups(rs), r, r.subs)
  {
    assert (rs + [r])[..|rs + [r]| - 1] == rs;
  }

  /** One more resource visited: nothing new, or its group at the end. */
  lemma {:induction false} AnswerStep(visited: seq<Resource>, r: Resource)
    ensures var d := Firsts(visited, ResourceKey);
      && (HasKey(visited, ResourceKey, r.id) ==>
            Answer(visited + [r]) == Answer(visited) && Firsts(visited + [r], ResourceKey) == d)
      && (!HasKey(visited, ResourceKey, r.id) ==>
            Answer(visited + [r]) == PartGroup(Answer(visited), r, r.subs)
            && |Firsts(visited + [r], ResourceKey)| == |d| + 1)
  {
    FirstsStep(visited, r, ResourceKey);
    FoundIffKey(visited, ResourceKey, r.id);
    var d := Firsts(visited, ResourceKey);
    hide Firsts, IndexOf, SpecsOf, ValueOf;
    if !HasKey(visited, ResourceKey, r.id) {
      hide HasKey;
      assert (d + [r])[..|d|] == d;
      GroupsStep(d, r);
    }
  }

  lemma {:induction false} PartGroupBytes(before: seq<Fragment>, r: Resource, met: seq<Sub>)
    ensures TotalBytes(PartGroup(before, r, met)) == TotalBytes(before) + 24 + TotalBytes(SpecsOf(met))
  {
    var value := [ValueOf(r, |SpecsOf(met)|)];
    TotalOfSum(before + value, SpecsOf(met));
    TotalOfSum(before, value);
    assert value[..0] == [];
  }

  lemma {:induction false} TotalUpdate(r: seq<Fragment>, i: nat, f: Fragment)
    requires i < |r| && f.Bytes() == r[i].Bytes()
    ensures TotalBytes(r[i := f]) == TotalBytes(r)
  {
    var n := |r| - 1;
    if i == n {
      assert r[i := f][..n] == r[..n];
    } else {
      TotalUpdate(r[..n], i, f);
      assert r[i := f][..n] == r[..n][i := f];
    }
  }
}
