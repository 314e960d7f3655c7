/** The answer to XResQueryResourceBytes, built fragment by fragment (Xext/xres.c). */
module XRes {

  type CARD32 = x: int | 0 <= x < 0x1_0000_0000

  /** A resource met below another one; `ptr` is the object itself. */
  datatype Sub = Sub(ptr: nat, id: CARD32, typ: CARD32, bytes: CARD32, refCount: CARD32)

  /** The value of a count kept in 32 bits. */
  function Low32(n: nat): CARD32 {
    n % 0x1_0000_0000
  }

  function Next32(x: CARD32): CARD32 {
    if x == 0xffff_ffff then 0 else x + 1
  }

  lemma LowOfNext(n: nat)
    ensures Low32(n + 1) == Next32(Low32(n))
  {
  }

  datatype Resource = Resource(id: CARD32, typ: CARD32, bytes: CARD32, refCount: CARD32, subs: seq<Sub>)

  datatype Fragment =
    | SizeValue(id: CARD32, typ: CARD32, bytes: CARD32, refCount: CARD32, useCount: CARD32, numCrossReferences: CARD32)
    | SizeSpec(id: CARD32, typ: CARD32, bytes: CARD32, refCount: CARD32, useCount: CARD32)
  {
    /** The size of the fragment on the wire. */
    function Bytes(): nat {
      if SizeValue? then 24 else 20
    }

    /** The use count goes up. */
    function Used(): Fragment {
      match this
      case SizeValue(i, t, b, r, u, n) => SizeValue(i, t, b, r, Next32(u), n)
      case SizeSpec(i, t, b, r, u) => SizeSpec(i, t, b, r, Next32(u))
    }

    /** The number of cross-references goes up. */
    function Referenced(): Fragment
      requires SizeValue?
    {
      SizeValue(id, typ, bytes, refCount, useCount, Next32(numCrossReferences))
    }
  }

  function TotalBytes(r: seq<Fragment>): nat {
    if r == [] then 0 else TotalBytes(r[..|r| - 1]) + r[|r| - 1].Bytes()
  }

  // ---- First occurrences and how often each occurs ----

  /** The position of the first element with a key, or the length. */
  function IndexOf<T>(s: seq<T>, key: T -> nat, k: nat): (i: nat)
    ensures i <= |s| && (i < |s| ==> key(s[i]) == k) && forall j :: 0 <= j < i ==> key(s[j]) != k
  {
    if s == [] then 0 else if key(s[0]) == k then 0 else 1 + IndexOf(s[1..], key, k)
  }

  /** The elements whose key did not occur before, in order. */
  function Firsts<T>(s: seq<T>, key: T -> nat): seq<T> {
    if s == [] then []
    else
      var d := Firsts(s[..|s| - 1], key);
      if IndexOf(d, key, key(s[|s| - 1])) < |d| then d else d + [s[|s| - 1]]
  }

  /** How often the key of each first occurrence occurs. */
  function Uses<T>(s: seq<T>, key: T -> nat): (u: seq<nat>)
    ensures |u| == |Firsts(s, key)|
  {
    if s == [] then []
    else
      var d, u := Firsts(s[..|s| - 1], key), Uses(s[..|s| - 1], key);
      var i := IndexOf(d, key, key(s[|s| - 1]));
      if i < |d| then u[i := u[i] + 1] else u + [1]
  }

  /** One more element: a use of an earlier one, or a first occurrence. */
  lemma {:induction false} FirstsStep<T>(s: seq<T>, x: T, key: T -> nat)
    ensures var d, u := Firsts(s, key), Uses(s, key);
      var i := IndexOf(d, key, key(x));
      if i < |d| then Firsts(s + [x], key) == d && Uses(s + [x], key) == u[i := u[i] + 1]
      else Firsts(s + [x], key) == d + [x] && Uses(s + [x], key) == u + [1]
  {
    hide IndexOf;
    var t := s + [x];
    assert t[..|t| - 1] == s && t[|t| - 1] == x;
  }

  function Occurrences<T>(s: seq<T>, key: T -> nat, k: nat): nat {
    if s == [] then 0 else Occurrences(s[..|s| - 1], key, k) + if key(s[|s| - 1]) == k then 1 else 0
  }

  function Sum(u: seq<nat>): nat {
    if u == [] then 0 else Sum(u[..|u| - 1]) + u[|u| - 1]
  }

  ghost predicate HasKey<T>(s: seq<T>, key: T -> nat, k: nat) {
    exists i :: 0 <= i < |s| && key(s[i]) == k
  }

  lemma {:induction false} KeyStays<T>(s: seq<T>, x: T, key: T -> nat, k: nat)
    ensures HasKey(s, key, k) ==> HasKey(s + [x], key, k)
  {
    if HasKey(s, key, k) {
      var i :| 0 <= i < |s| && key(s[i]) == k;
      assert key((s + [x])[i]) == k;
    }
  }

  /** First occurrences have different keys, and every key that occurs has one. */
  lemma {:induction false} FirstsKeys<T>(s: seq<T>, key: T -> nat)
    ensures forall i, j :: 0 <= i < j < |Firsts(s, key)| ==> key(Firsts(s, key)[i]) != key(Firsts(s, key)[j])
    ensures forall k :: HasKey(Firsts(s, key), key, k) <==> HasKey(s, key, k)
    ensures forall x :: x in Firsts(s, key) ==> x in s
  {
    if s != [] {
      var rest, last := s[..|s| - 1], s[|s| - 1];
      FirstsKeys(rest, key);
      var d, f := Firsts(rest, key), Firsts(s, key);
      forall k
        ensures HasKey(f, key, k) <==> HasKey(s, key, k)
      {
        assert HasKey(d, key, k) <==> HasKey(rest, key, k);
        if HasKey(rest, key, k) {
          var i :| 0 <= i < |rest| && key(rest[i]) == k;
          assert key(s[i]) == k;
          var j :| 0 <= j < |d| && key(d[j]) == k;
          assert key(f[j]) == k;
        } else if key(last) == k {
          assert key(s[|rest|]) == k;
          assert IndexOf(d, key, k) == |d|;
          assert key(f[|d|]) == k;
        }
      }
    }
  }

  /** The element occurs, and the first time no other with its key came before. */
  ghost predicate ComesFirst<T>(s: seq<T>, key: T -> nat, x: T) {
    exists i :: 0 <= i < |s| && s[i] == x && forall j :: 0 <= j < i ==> key(s[j]) != key(x)
  }

  /** First occurrences are just those. */
  lemma {:induction false} FirstsExactly<T>(s: seq<T>, key: T -> nat, x: T)
    ensures x in Firsts(s, key) <==> ComesFirst(s, key, x)
  {
    if s != [] {
      var rest, last := s[..|s| - 1], s[|s| - 1];
      FirstsExactly(rest, key, x);
      FirstsKeys(rest, key);
      var d := Firsts(rest, key);
      assert IndexOf(d, key, key(last)) < |d| <==> HasKey(d, key, key(last));
      assert HasKey(d, key, key(last)) <==> HasKey(rest, key, key(last));
      hide Firsts, IndexOf;
      FirstsLast(s, key, x);
    }
  }

  lemma {:induction false} FirstsLast<T>(s: seq<T>, key: T -> nat, x: T)
    requires s != []
    ensures var rest, last := s[..|s| - 1], s[|s| - 1];
      ComesFirst(s, key, x) <==> ComesFirst(rest, key, x) || (x == last && !HasKey(rest, key, key(last)))
  {
    var rest, last := s[..|s| - 1], s[|s| - 1];
    if ComesFirst(rest, key, x) {
      var i :| 0 <= i < |rest| && rest[i] == x && forall j :: 0 <= j < i ==> key(rest[j]) != key(x);
      assert s[i] == x && forall j :: 0 <= j < i ==> key(s[j]) != key(x);
    } else if x == last && !HasKey(rest, key, key(last)) {
      assert s[|rest|] == x && forall j :: 0 <= j < |rest| ==> key(s[j]) != key(x);
    }
  }

  /** The use counts are the numbers of occurrences. */
  lemma {:induction false} UsesAre<T>(s: seq<T>, key: T -> nat)
    ensures forall i :: 0 <= i < |Firsts(s, key)| ==>
      Uses(s, key)[i] == Occurrences(s, key, key(Firsts(s, key)[i]))
    ensures forall k :: !HasKey(s, key, k) ==> Occurrences(s, key, k) == 0
  {
    if s != [] {
      var rest := s[..|s| - 1];
      UsesAre(rest, key);
      FirstsKeys(rest, key);
      FirstsKeys(s, key);
      forall k | !HasKey(s, key, k)
        ensures Occurrences(s, key, k) == 0
      {
        assert key(s[|s| - 1]) != k;
        KeyStays(rest, s[|s| - 1], key, k);
        assert s == rest + [s[|s| - 1]];
      }
    }
  }

  lemma SumUpdate(u: seq<nat>, i: nat)
    requires i < |u|
    ensures Sum(u[i := u[i] + 1]) == Sum(u) + 1
  {
    var n := |u| - 1;
    if i == n {
      assert u[i := u[i] + 1][..n] == u[..n];
    } else {
      SumUpdate(u[..n], i);
      assert u[i := u[i] + 1][..n] == u[..n][i := u[i] + 1];
    }
  }

  /** The use counts add up to the number of elements. */
  lemma {:induction false} UsesSum<T>(s: seq<T>, key: T -> nat)
    ensures Sum(Uses(s, key)) == |s|
  {
    if s != [] {
      var rest := s[..|s| - 1];
      UsesSum(rest, key);
      var d, u := Firsts(rest, key), Uses(rest, key);
      var i := IndexOf(d, key, key(s[|s| - 1]));
      if i < |d| {
        assert Uses(s, key) == u[i := u[i] + 1];
        hide *;
        SumUpdate(u, i);
      } else {
        assert Uses(s, key) == u + [1];
        assert (u + [1])[..|u|] == u;
      }
    }
  }

  // ---- The answer ----

  function SubKey(s: Sub): nat { s.ptr }

  function ResourceKey(r: Resource): nat { r.id }

  function SpecOf(s: Sub, uses: nat): Fragment {
    SizeSpec(s.id, s.typ, s.bytes, s.refCount, Low32(uses))
  }

  function ValueOf(r: Resource, specs: nat): Fragment {
    SizeValue(r.id, r.typ, r.bytes, r.refCount, 1, Low32(specs))
  }

  lemma SpecUsed(s: Sub, uses: nat)
    ensures SpecOf(s, uses).Used() == SpecOf(s, uses + 1)
  {
    LowOfNext(uses);
  }

  /** The specs of the sub-resources met so far: one for each, with its use count. */
  function SpecsOf(subs: seq<Sub>): (r: seq<Fragment>)
    ensures |r| == |Firsts(subs, SubKey)|
  {
    var d, u := Firsts(subs, SubKey), Uses(subs, SubKey);
    seq(|d|, i requires 0 <= i < |d| => SpecOf(d[i], u[i]))
  }

  /** A resource's part of the answer: its value, followed by its specs. */
  function Group(r: Resource): seq<Fragment> {
    var specs := SpecsOf(r.subs);
    [ValueOf(r, |specs|)] + specs
  }

  function Groups(rs: seq<Resource>): seq<Fragment> {
    if rs == [] then [] else Groups(rs[..|rs| - 1]) + Group(rs[|rs| - 1])
  }

  /** The answer about the resources visited, in that order: each resource id once. */
  function Answer(visited: seq<Resource>): seq<Fragment> {
    Groups(Firsts(visited, ResourceKey))
  }

  /** Counts fit their 32-bit fields. */
  predicate FitsCounts(r: Resource) {
    |r.subs| < 0x1_0000_0000
  }

  /** A list of values, each followed by exactly as many specs as it announces. */
  predicate Grouped(r: seq<Fragment>)
    decreases |r|
  {
    r == []
    || (r[0].SizeValue? && r[0].numCrossReferences < |r|
        && (forall i :: 1 <= i <= r[0].numCrossReferences ==> r[i].SizeSpec?)
        && Grouped(r[r[0].numCrossReferences + 1..]))
  }

  lemma GroupThenRest(group: seq<Fragment>, rest: seq<Fragment>)
    requires |group| > 0 && group[0].SizeValue? && group[0].numCrossReferences == |group| - 1
    requires forall i :: 1 <= i < |group| ==> group[i].SizeSpec?
    requires Grouped(rest)
    ensures Grouped(group + rest)
  {
    assert (group + rest)[|group|..] == rest;
  }

  lemma GroupSplits(r: seq<Fragment>) returns (n: nat)
    requires Grouped(r) && r != []
    ensures 0 < n <= |r| && Grouped(r[n..])
    ensures r[..n][0].SizeValue? && r[..n][0].numCrossReferences == n - 1
    ensures forall i :: 1 <= i < n ==> r[..n][i].SizeSpec?
  {
    n := r[0].numCrossReferences + 1;
  }

  lemma {:induction false} GroupedSum(a: seq<Fragment>, b: seq<Fragment>)
    requires Grouped(a) && Grouped(b)
    ensures Grouped(a + b)
    decreases |a|
  {
    hide Grouped;
    if a == [] {
      assert a + b == b;
    } else {
      var n := GroupSplits(a);
      GroupedSum(a[n..], b);
      GroupThenRest(a[..n], a[n..] + b);
      assert a + b == a[..n] + (a[n..] + b);
    }
  }

  lemma {:induction false} FirstsNoLonger<T>(s: seq<T>, key: T -> nat)
    ensures |Firsts(s, key)| <= |s|
  {
    if s != [] {
      FirstsNoLonger(s[..|s| - 1], key);
    }
  }

  lemma GroupIsGrouped(r: Resource)
    requires FitsCounts(r)
    ensures Grouped(Group(r)) && Group(r)[0].numCrossReferences == |Firsts(r.subs, SubKey)|
  {
    FirstsNoLonger(r.subs, SubKey);
    var g := Group(r);
    GroupThenRest(g, []);
    assert g + [] == g;
  }

  lemma {:induction false} GroupsAreGrouped(rs: seq<Resource>)
    requires forall r :: r in rs ==> FitsCounts(r)
    ensures Grouped(Groups(rs))
  {
    if rs != [] {
      GroupsAreGrouped(rs[..|rs| - 1]);
      GroupIsGrouped(rs[|rs| - 1]);
      GroupedSum(Groups(rs[..|rs| - 1]), Group(rs[|rs| - 1]));
    }
  }

  /** The answer is grouped. */
  lemma AnswerIsGrouped(visited: seq<Resource>)
    requires forall r :: r in visited ==> FitsCounts(r)
    ensures Grouped(Answer(visited))
  {
    FirstsKeys(visited, ResourceKey);
    GroupsAreGrouped(Firsts(visited, ResourceKey));
  }

  /** The use counts of a resource's specs add up to the number of sub-resources met. */
  function UseCounts(r: seq<Fragment>): (u: seq<nat>)
    ensures |u| == |r|
  {
    if r == [] then [] else UseCounts(r[..|r| - 1]) + [r[|r| - 1].useCount]
  }

  lemma {:induction false} UsesBounded<T>(s: seq<T>, key: T -> nat)
    ensures forall i :: 0 <= i < |Uses(s, key)| ==> Uses(s, key)[i] <= |s|
  {
    if s != [] {
      UsesBounded(s[..|s| - 1], key);
    }
  }

  lemma {:induction false} UseCountsAt(r: seq<Fragment>, i: nat)
    requires i < |r|
    ensures UseCounts(r)[i] == r[i].useCount
  {
    if i < |r| - 1 {
      UseCountsAt(r[..|r| - 1], i);
    }
  }

  lemma UseCountsConserved(subs: seq<Sub>)
    requires |subs| < 0x1_0000_0000
    ensures Sum(UseCounts(SpecsOf(subs))) == |subs|
  {
    UsesBounded(subs, SubKey);
    var u, c := Uses(subs, SubKey), UseCounts(SpecsOf(subs));
    forall i | 0 <= i < |u|
      ensures u[i] == c[i]
    {
      UseCountsAt(SpecsOf(subs), i);
    }
    assert u == c;
    UsesSum(subs, SubKey);
  }
}
