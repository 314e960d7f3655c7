/** What the answer to XResQueryResourceBytes promises, and the pass that swaps its bytes (Xext/xres.c). */
module XResReply {
  import opened XRes

  /** The values of the answer: one for each resource, without the specs that follow. */
  function Values(r: seq<Fragment>): seq<Fragment> {
    if r == [] then []
    else Values(r[..|r| - 1]) + if r[|r| - 1].SizeValue? then [r[|r| - 1]] else []
  }

  lemma {:induction false} ValuesOfSum(a: seq<Fragment>, b: seq<Fragment>)
    ensures Values(a + b) == Values(a) + Values(b)
  {
    if b == [] {
      assert a + b == a;
    } else {
      var n := |b| - 1;
      ValuesOfSum(a, b[..n]);
      assert (a + b)[..|a + b| - 1] == a + b[..n];
    }
  }

  lemma {:induction false} NoValues(r: seq<Fragment>)
    requires forall i :: 0 <= i < |r| ==> r[i].SizeSpec?
    ensures Values(r) == []
  {
    if r != [] {
      NoValues(r[..|r| - 1]);
    }
  }

  lemma {:induction false} ValuesOfGroups(rs: seq<Resource>)
    ensures |Values(Groups(rs))| == |rs|
    ensures forall i :: 0 <= i < |rs| ==> Values(Groups(rs))[i] == Group(rs[i])[0]
  {
    if rs != [] {
      var n := |rs| - 1;
      ValuesOfGroups(rs[..n]);
      GroupValue(rs[n]);
      hide Group, Values;
      ValuesOfSum(Groups(rs[..n]), Group(rs[n]));
      assert Groups(rs) == Groups(rs[..n]) + Group(rs[n]);
    }
  }

  lemma {:induction false} GroupValue(r: Resource)
    ensures Values(Group(r)) == [Group(r)[0]]
  {
    var value, specs := Group(r)[..1], SpecsOf(r.subs);
    assert Group(r) == value + specs && value == [Group(r)[0]] && value[..0] == [];
    assert Values(value) == value;
    hide Group, SpecsOf, Firsts;
    ValuesOfSum(value, specs);
    assert forall i :: 0 <= i < |specs| ==> specs[i].SizeSpec? by { SpecsAreSpecs(r.subs); }
    NoValues(specs);
  }

  lemma SpecsAreSpecs(subs: seq<Sub>)
    ensures forall i :: 0 <= i < |SpecsOf(subs)| ==> SpecsOf(subs)[i].SizeSpec?
  {
    hide Firsts, Uses;
  }

  /** The answer has a value for each resource visited, no id twice, and no other values. */
  lemma {:induction false} AnswerValues(visited: seq<Resource>)
    ensures var values := Values(Answer(visited));
      && |values| == |Firsts(visited, ResourceKey)|
      && (forall i, j :: 0 <= i < j < |values| ==> values[i].id != values[j].id)
      && (forall r :: r in visited ==> exists i :: 0 <= i < |values| && values[i].id == r.id)
      && (forall i :: 0 <= i < |values| ==> values[i].SizeValue? && HasKey(visited, ResourceKey, values[i].id))
  {
    var d := Firsts(visited, ResourceKey);
    var values := Values(Answer(visited));
    AnswerIsGroups(visited);
    hide Firsts, Values, SpecsOf, Answer, Groups;
    FirstsKeys(visited, ResourceKey);
    ValuesOfGroups(d);
    forall i | 0 <= i < |values|
      ensures values[i].SizeValue? && values[i].id == d[i].id && HasKey(visited, ResourceKey, values[i].id)
    {
      assert ResourceKey(d[i]) == d[i].id;
      assert HasKey(d, ResourceKey, d[i].id);
    }
    forall r | r in visited
      ensures exists i :: 0 <= i < |values| && values[i].id == r.id
    {
      var k :| 0 <= k < |visited| && visited[k] == r;
      assert ResourceKey(visited[k]) == r.id;
      assert HasKey(visited, ResourceKey, r.id);
      var i :| 0 <= i < |d| && ResourceKey(d[i]) == r.id;
      assert values[i].id == r.id;
    }
  }

  lemma AnswerIsGroups(visited: seq<Resource>)
    ensures Answer(visited) == Groups(Firsts(visited, ResourceKey))
  {
  }

  /** Which of several resources with one id is answered: the values are those of the resources that are visited before
    any other with their id, one for each. */
  lemma {:induction false} AnswersFirst(visited: seq<Resource>)
    ensures var d, values := Firsts(visited, ResourceKey), Values(Answer(visited));
      && |values| == |d| && (forall i :: 0 <= i < |d| ==> values[i] == Group(d[i])[0])
      && (forall r :: r in d <==> ComesFirst(visited, ResourceKey, r))
  {
    var d := Firsts(visited, ResourceKey);
    ValuesOfGroups(d);
    hide Firsts, Values, SpecsOf, ComesFirst;
    forall r
      ensures r in d <==> ComesFirst(visited, ResourceKey, r)
    {
      FirstsExactly(visited, ResourceKey, r);
    }
  }

  /** A resource visited is left out exactly when another one with its id comes before it wherever it is visited. */
  lemma LeftOutExactly(visited: seq<Resource>, r: Resource)
    requires r in visited
    ensures r !in Firsts(visited, ResourceKey) <==>
      forall i :: 0 <= i < |visited| && visited[i] == r ==>
        exists j :: 0 <= j < i && visited[j].id == r.id && visited[j] != r
  {
    FirstsExactly(visited, ResourceKey, r);
    hide Firsts;
    if !ComesFirst(visited, ResourceKey, r) {
      forall i | 0 <= i < |visited| && visited[i] == r
        ensures exists j :: 0 <= j < i && visited[j].id == r.id && visited[j] != r
      {
        NotFirst(visited, r, i);
      }
    }
  }

  lemma {:induction false} NotFirst(visited: seq<Resource>, r: Resource, i: nat)
    requires i < |visited| && visited[i] == r && !ComesFirst(visited, ResourceKey, r)
    ensures exists j :: 0 <= j < i && visited[j].id == r.id && visited[j] != r
    decreases i
  {
    assert visited[i] == r;
    var j :| 0 <= j < i && ResourceKey(visited[j]) == ResourceKey(r);
    if visited[j] == r { NotFirst(visited, r, j); }
  }

  // ---- The answer field by field ----

  /** `pos` are the places of the elements of `d` in `s`, in order, where their keys occur first; no key is missing. */
  ghost predicate FirstAt<T>(s: seq<T>, key: T -> nat, d: seq<T>, pos: seq<nat>) {
    && |pos| == |d|
    && (forall k :: 0 <= k < |d| ==> pos[k] < |s| && d[k] == s[pos[k]])
    && (forall k, j :: 0 <= k < |d| && 0 <= j < pos[k] && j < |s| ==> key(s[j]) != key(d[k]))
    && (forall k, l :: 0 <= k < l < |d| ==> pos[k] < pos[l])
    && (forall i :: 0 <= i < |s| ==> HasKey(d, key, key(s[i])))
  }

  lemma {:induction false} FirstAtSame<T>(s: seq<T>, key: T -> nat, d: seq<T>, pos: seq<nat>, x: T)
    requires FirstAt(s, key, d, pos) && HasKey(d, key, key(x))
    ensures FirstAt(s + [x], key, d, pos)
  {
    hide HasKey;
    var more := s + [x];
    forall i | 0 <= i < |more|
      ensures HasKey(d, key, key(more[i]))
    {
      assert more[i] == if i < |s| then s[i] else x;
    }
  }

  lemma {:induction false} FirstAtMore<T>(s: seq<T>, key: T -> nat, d: seq<T>, pos: seq<nat>, x: T)
    requires FirstAt(s, key, d, pos) && !HasKey(d, key, key(x))
    ensures FirstAt(s + [x], key, d + [x], pos + [|s|])
  {
    var more, f, p := s + [x], d + [x], pos + [|s|];
    forall i | 0 <= i < |more|
      ensures HasKey(f, key, key(more[i]))
    {
      if i < |s| {
        assert HasKey(d, key, key(s[i]));
        var k :| 0 <= k < |d| && key(d[k]) == key(s[i]);
        assert key(f[k]) == key(more[i]);
      } else {
        assert key(f[|d|]) == key(more[i]);
      }
    }
    forall k, j | 0 <= k < |f| && 0 <= j < p[k] && j < |more|
      ensures key(more[j]) != key(f[k])
    {
      assert more[j] == s[j] && HasKey(d, key, key(s[j]));
    }
    hide HasKey;
  }

  lemma {:induction false} FirstsInOrder<T>(s: seq<T>, key: T -> nat) returns (pos: seq<nat>)
    ensures FirstAt(s, key, Firsts(s, key), pos)
  {
    pos := [];
    if s != [] {
      var rest, last := s[..|s| - 1], s[|s| - 1];
      var d := Firsts(rest, key);
      assert s == rest + [last];
      pos := FirstsInOrder(rest, key);
      FirstsStep(rest, last, key);
      FoundIs(d, key, key(last));
      hide Firsts, IndexOf, FirstAt, HasKey;
      if HasKey(d, key, key(last)) {
        FirstAtSame(rest, key, d, pos, last);
      } else {
        FirstAtMore(rest, key, d, pos, last);
        pos := pos + [|rest|];
      }
    }
  }

  lemma {:induction false} FoundIs<T>(d: seq<T>, key: T -> nat, k: nat)
    ensures IndexOf(d, key, k) < |d| <==> HasKey(d, key, k)
  {
  }

  /** The different sub-resources below a resource. */
  function Pointers(subs: seq<Sub>): set<nat> {
    set s | s in subs :: s.ptr
  }

  /** The places where a sub-resource is met. */
  function Meetings(subs: seq<Sub>, ptr: nat): set<nat> {
    set i | 0 <= i < |subs| && subs[i].ptr == ptr
  }

  lemma {:induction false} OccurrencesCount(subs: seq<Sub>, ptr: nat)
    ensures Occurrences(subs, SubKey, ptr) == |Meetings(subs, ptr)|
  {
    if subs != [] {
      var n := |subs| - 1;
      OccurrencesCount(subs[..n], ptr);
      var last: set<nat> := if subs[n].ptr == ptr then {n} else {};
      assert Meetings(subs, ptr) == Meetings(subs[..n], ptr) + last;
    }
  }

  lemma {:induction false} PointersCount(subs: seq<Sub>)
    ensures |Firsts(subs, SubKey)| == |Pointers(subs)|
  {
    if subs != [] {
      var rest, last := subs[..|subs| - 1], subs[|subs| - 1];
      var d := Firsts(rest, SubKey);
      assert subs == rest + [last];
      PointersCount(rest);
      FirstsStep(rest, last, SubKey);
      FoundIs(d, SubKey, SubKey(last));
      FirstsKeys(rest, SubKey);
      KeyIsPointer(rest, last.ptr);
      hide Firsts, IndexOf, HasKey;
      PointersMore(rest, last);
    }
  }

  lemma PointersMore(subs: seq<Sub>, s: Sub)
    ensures Pointers(subs + [s]) == Pointers(subs) + {s.ptr}
    ensures |Pointers(subs + [s])| == |Pointers(subs)| + if s.ptr in Pointers(subs) then 0 else 1
  {
    assert s in subs + [s];
    assert Pointers(subs + [s]) == Pointers(subs) + {s.ptr};
    if s.ptr in Pointers(subs) { assert Pointers(subs) + {s.ptr} == Pointers(subs); }
  }

  lemma KeyIsPointer(subs: seq<Sub>, ptr: nat)
    ensures HasKey(subs, SubKey, ptr) <==> ptr in Pointers(subs)
  {
    if ptr in Pointers(subs) {
      var s :| s in subs && s.ptr == ptr;
      var i :| 0 <= i < |subs| && subs[i] == s;
      assert SubKey(subs[i]) == ptr;
    }
  }

  /** A resource's value: its own fields, used once, and as many cross-references as there are different sub-resources. */
  ghost predicate ValueFields(f: Fragment, r: Resource) {
    && f.SizeValue? && f.id == r.id && f.typ == r.typ && f.bytes == r.bytes && f.refCount == r.refCount
    && f.useCount == 1 && f.numCrossReferences == |Pointers(r.subs)| % 0x1_0000_0000
  }

  /** A sub-resource's spec: its own fields, and how often it was met. */
  ghost predicate SpecFields(f: Fragment, s: Sub, subs: seq<Sub>) {
    && f.SizeSpec? && f.id == s.id && f.typ == s.typ && f.bytes == s.bytes && f.refCount == s.refCount
    && f.useCount == |Meetings(subs, s.ptr)| % 0x1_0000_0000
  }

  /** A spec for each different sub-resource, as it was first met, in that order. */
  ghost predicate SpecsDescribe(specs: seq<Fragment>, subs: seq<Sub>) {
    exists d: seq<Sub>, pos: seq<nat> ::
      FirstAt(subs, SubKey, d, pos) && |specs| == |d| && forall k :: 0 <= k < |d| ==> SpecFields(specs[k], d[k], subs)
  }

  /** The value and the specs of each resource, one after the other. */
  ghost predicate Describes(response: seq<Fragment>, rs: seq<Resource>)
    decreases |rs|
  {
    if rs == [] then response == []
    else
      var last := rs[|rs| - 1];
      var n := |Pointers(last.subs)| + 1;
      && n <= |response| && Describes(response[..|response| - n], rs[..|rs| - 1])
      && ValueFields(response[|response| - n], last) && SpecsDescribe(response[|response| - n + 1..], last.subs)
  }

  lemma {:induction false} SpecsFields(subs: seq<Sub>)
    ensures SpecsDescribe(SpecsOf(subs), subs)
  {
    var pos := FirstsInOrder(subs, SubKey);
    var d, specs := Firsts(subs, SubKey), SpecsOf(subs);
    UsesAre(subs, SubKey);
    forall k | 0 <= k < |d|
      ensures SpecFields(specs[k], d[k], subs)
    {
      OccurrencesCount(subs, d[k].ptr);
      hide Firsts, Occurrences;
    }
    hide Firsts, SpecFields, SpecsOf;
    assert FirstAt(subs, SubKey, d, pos);
  }

  lemma GroupFields(r: Resource)
    ensures |Group(r)| == |Pointers(r.subs)| + 1 && ValueFields(Group(r)[0], r) && SpecsDescribe(Group(r)[1..], r.subs)
  {
    SpecsFields(r.subs);
    PointersCount(r.subs);
    hide SpecsDescribe, SpecsOf, Firsts;
    assert Group(r)[1..] == SpecsOf(r.subs);
  }

  lemma {:induction false} DescribesMore(response: seq<Fragment>, rs: seq<Resource>, g: seq<Fragment>, r: Resource)
    requires Describes(response, rs) && |g| == |Pointers(r.subs)| + 1
    requires ValueFields(g[0], r) && SpecsDescribe(g[1..], r.subs)
    ensures Describes(response + g, rs + [r])
  {
    hide ValueFields, SpecsDescribe;
    var more, all := response + g, rs + [r];
    assert all[..|all| - 1] == rs && all[|all| - 1] == r;
    assert more[..|more| - |g|] == response && more[|more| - |g|] == g[0] && more[|more| - |g| + 1..] == g[1..];
  }

  lemma NothingDescribes()
    ensures Describes(Groups([]), [])
  {
  }

  lemma GroupsPush(rs: seq<Resource>)
    requires rs != []
    ensures Groups(rs) == Groups(rs[..|rs| - 1]) + Group(rs[|rs| - 1])
  {
    hide Group;
  }

  lemma {:induction false} GroupsDescribe(rs: seq<Resource>)
    ensures Describes(Groups(rs), rs)
  {
    hide *;
    if rs == [] {
      NothingDescribes();
    } else {
      var before, last := rs[..|rs| - 1], rs[|rs| - 1];
      GroupsDescribe(before);
      GroupFields(last);
      GroupsPush(rs);
      assert rs == before + [last];
      DescribesMore(Groups(before), before, Group(last), last);
    }
  }

  /** The answer describes the resources visited, each id once, as it was first visited and in that order. */
  lemma AnswerFields(visited: seq<Resource>) returns (d: seq<Resource>, pos: seq<nat>)
    ensures FirstAt(visited, ResourceKey, d, pos) && Describes(Answer(visited), d)
    ensures forall r: Resource :: ResourceKey(r) == r.id
    ensures forall s: Sub :: SubKey(s) == s.ptr
  {
    hide FirstAt, Describes, Firsts;
    d := Firsts(visited, ResourceKey);
    pos := FirstsInOrder(visited, ResourceKey);
    GroupsDescribe(d);
  }

  // ---- Swapping the bytes ----

  function Swap32(x: CARD32): CARD32 {
    x % 0x100 * 0x100_0000 + x / 0x100 % 0x100 * 0x1_0000 + x / 0x1_0000 % 0x100 * 0x100 + x / 0x100_0000
  }

  function Swapped(f: Fragment): Fragment {
    match f
    case SizeValue(i, t, b, r, u, n) =>
      SizeValue(Swap32(i), Swap32(t), Swap32(b), Swap32(r), Swap32(u), Swap32(n))
    case SizeSpec(i, t, b, r, u) => SizeSpec(Swap32(i), Swap32(t), Swap32(b), Swap32(r), Swap32(u))
  }

  /** The four bytes in the opposite order. */
  predicate BytesExchanged(x: CARD32, y: CARD32) {
    && y % 0x100 == x / 0x100_0000 && y / 0x100 % 0x100 == x / 0x1_0000 % 0x100
    && y / 0x1_0000 % 0x100 == x / 0x100 % 0x100 && y / 0x100_0000 == x % 0x100
  }

  lemma LowByte(q: nat, d: nat)
    requires d < 0x100
    ensures (q * 0x100 + d) / 0x100 == q && (q * 0x100 + d) % 0x100 == d
  {
  }

  lemma BytesOf(y: nat)
    ensures y / 0x1_0000 == y / 0x100 / 0x100 && y / 0x100_0000 == y / 0x1_0000 / 0x100
  {
  }

  lemma Swap32Exchanges(x: CARD32)
    ensures BytesExchanged(x, Swap32(x))
  {
    var a, b, c, d := x % 0x100, x / 0x100 % 0x100, x / 0x1_0000 % 0x100, x / 0x100_0000;
    var ab := a * 0x100 + b;
    var abc := ab * 0x100 + c;
    assert Swap32(x) == abc * 0x100 + d;
    BytesOf(abc * 0x100 + d);
    LowByte(abc, d);
    LowByte(ab, c);
    LowByte(a, b);
  }

  /** A swapped fragment is of the same kind, with the bytes of each of its fields exchanged. */
  lemma SwappedFields(f: Fragment)
    ensures var g := Swapped(f);
      && g.SizeValue? == f.SizeValue?
      && BytesExchanged(f.id, g.id) && BytesExchanged(f.typ, g.typ) && BytesExchanged(f.bytes, g.bytes)
      && BytesExchanged(f.refCount, g.refCount) && BytesExchanged(f.useCount, g.useCount)
      && (f.SizeValue? ==> BytesExchanged(f.numCrossReferences, g.numCrossReferences))
  {
    Swap32Exchanges(f.id);
    Swap32Exchanges(f.typ);
    Swap32Exchanges(f.bytes);
    Swap32Exchanges(f.refCount);
    Swap32Exchanges(f.useCount);
    if f.SizeValue? { Swap32Exchanges(f.numCrossReferences); }
    hide Swap32, BytesExchanged;
  }

  /**
   * The pass over the fragments: it takes a value, swaps as many specs as the value announces, then the value.
   * It never leaves the list, ends at its end, and swaps every fragment once.
   */
  method SwapFragments(response: array<Fragment>)
    requires Grouped(response[..])
    modifies response
    ensures forall i :: 0 <= i < response.Length ==> response[i] == Swapped(old(response[i]))
  {
    ghost var was := response[..];
    var it := 0;
    while it != response.Length
      invariant 0 <= it <= response.Length && Grouped(was[it..])
      invariant forall i :: 0 <= i < it ==> response[i] == Swapped(was[i])
      invariant forall i :: it <= i < response.Length ==> response[i] == was[i]
      decreases response.Length - it
    {
      GroupHere(was, it);
      it := SwapGroup(response, it, was);
    }
  }

  /** One value and its specs; the specs are swapped while the value still says how many there are. */
  method SwapGroup(response: array<Fragment>, at: nat, ghost was: seq<Fragment>) returns (it: nat)
    requires response.Length == |was| && at < |was| && was[at].SizeValue? && at + was[at].numCrossReferences < |was|
    requires forall i :: 0 <= i < at ==> response[i] == Swapped(was[i])
    requires forall i :: at <= i < response.Length ==> response[i] == was[i]
    modifies response
    ensures it == at + was[at].numCrossReferences + 1
    ensures forall i :: 0 <= i < it ==> response[i] == Swapped(was[i])
    ensures forall i :: it <= i < response.Length ==> response[i] == was[i]
  {
    hide *;
    it := at + 1;
    var c := 0;
    while c < response[at].numCrossReferences
      invariant 0 <= c <= was[at].numCrossReferences && it == at + 1 + c
      invariant response[at] == was[at]
      invariant forall i :: 0 <= i < it && i != at ==> response[i] == Swapped(was[i])
      invariant forall i :: it <= i < response.Length ==> response[i] == was[i]
    {
      response[it] := Swapped(response[it]);
      it := it + 1;
      c := c + 1;
    }
    response[at] := Swapped(response[at]);
  }

  lemma {:induction false} GroupHere(r: seq<Fragment>, at: nat)
    requires at < |r| && Grouped(r[at..])
    ensures r[at].SizeValue? && at + r[at].numCrossReferences < |r|
    ensures Grouped(r[at + r[at].numCrossReferences + 1..])
  {
    var n := r[at].numCrossReferences + 1;
    assert r[at..][n..] == r[at + n..];
  }

  // ---- The length of the reply ----

  /** 24 bytes for each value and 20 for each spec. */
  lemma {:induction false} BytesCounted(r: seq<Fragment>)
    ensures |Values(r)| <= |r| && TotalBytes(r) == 24 * |Values(r)| + 20 * (|r| - |Values(r)|)
  {
    if r != [] { BytesCounted(r[..|r| - 1]); }
  }
}
