/** The resizing hash table of Xext/hashtable.c, as a finite map from keys to entries. */
module HashTables {

  const INIT_HASH_SIZE: nat := 6
  const MAX_HASH_SIZE: nat := 11

  function Pow2(bits: nat): (n: nat)
    ensures n > 0
  {
    if bits == 0 then 1 else 2 * Pow2(bits - 1)
  }

  /** A key with the data kept for it, which the table's users fill in. */
  class Entry<K, D> {
    const key: K
    var data: D

    constructor (key: K, data: D)
      ensures this.key == key && this.data == data
    {
      this.key := key;
      this.data := data;
    }
  }

  /** A hash function picks a bucket for every number of buckets. */
  ghost predicate Hashes<K(!new)>(hash: (K, nat) -> nat) {
    forall k, bits :: hash(k, bits) < Pow2(bits)
  }

  /** The buckets hold exactly the entries `es`, each once, in the bucket its hash selects. */
  ghost predicate Stored<K, D>(buckets: seq<seq<Entry<K, D>>>, es: set<Entry<K, D>>, hash: (K, nat) -> nat, bits: nat) {
    && |buckets| == Pow2(bits)
    && (forall c, i :: 0 <= c < |buckets| && 0 <= i < |buckets[c]| ==>
          buckets[c][i] in es && hash(buckets[c][i].key, bits) == c)
    && (forall c, i, j :: 0 <= c < |buckets| && 0 <= i < j < |buckets[c]| ==> buckets[c][i] != buckets[c][j])
    && (forall e :: e in es ==> hash(e.key, bits) < |buckets| && e in buckets[hash(e.key, bits)])
  }

  lemma StoredAdd<K, D>(buckets: seq<seq<Entry<K, D>>>, es: set<Entry<K, D>>, hash: (K, nat) -> nat, bits: nat,
                        e: Entry<K, D>)
    requires Stored(buckets, es, hash, bits) && e !in es && hash(e.key, bits) < |buckets|
    ensures var c := hash(e.key, bits);
      Stored(buckets[c := [e] + buckets[c]], es + {e}, hash, bits)
  {
    var c := hash(e.key, bits);
    var more := buckets[c := [e] + buckets[c]];
    forall x | x in es + {e}
      ensures x in more[hash(x.key, bits)]
    {
      if x != e {
        var i :| 0 <= i < |buckets[hash(x.key, bits)]| && buckets[hash(x.key, bits)][i] == x;
        if hash(x.key, bits) == c {
          assert more[c][i + 1] == x;
        }
      } else {
        assert more[c][0] == e;
      }
    }
  }

  lemma StoredRemove<K, D>(buckets: seq<seq<Entry<K, D>>>, es: set<Entry<K, D>>, hash: (K, nat) -> nat, bits: nat,
                           c: nat, i: nat)
    requires Stored(buckets, es, hash, bits) && c < |buckets| && i < |buckets[c]|
    ensures Stored(buckets[c := buckets[c][..i] + buckets[c][i + 1..]], es - {buckets[c][i]}, hash, bits)
  {
    var b := buckets[c];
    var fewer := buckets[c := b[..i] + b[i + 1..]];
    forall x | x in es - {b[i]}
      ensures x in fewer[hash(x.key, bits)]
    {
      var d := hash(x.key, bits);
      var j :| 0 <= j < |buckets[d]| && buckets[d][j] == x;
      if d == c {
        assert if j < i then fewer[c][j] == x else fewer[c][j - 1] == x;
      }
    }
  }

  lemma StoredNothing<K, D>(buckets: seq<seq<Entry<K, D>>>, hash: (K, nat) -> nat, bits: nat)
    requires |buckets| == Pow2(bits) && forall c :: 0 <= c < |buckets| ==> buckets[c] == []
    ensures Stored(buckets, {}, hash, bits)
  {
  }

  /** The buckets hold the entries of a map. */
  ghost predicate Represents<K(!new), D>(buckets: seq<seq<Entry<K, D>>>, m: map<K, Entry<K, D>>, hash: (K, nat) -> nat,
                                         bits: nat) {
    && Hashes(hash) && Stored(buckets, m.Values, hash, bits)
    && (forall k :: k in m ==> m[k].key == k)
  }

  lemma Present<K(!new), D>(buckets: seq<seq<Entry<K, D>>>, m: map<K, Entry<K, D>>, hash: (K, nat) -> nat, bits: nat,
                            key: K)
    requires Represents(buckets, m, hash, bits)
    ensures hash(key, bits) < |buckets|
    ensures key in m ==> m[key] in buckets[hash(key, bits)]
    ensures forall e :: e in buckets[hash(key, bits)] ==> e.key in m && m[e.key] == e
  {
    var b := buckets[hash(key, bits)];
    forall e | e in b
      ensures e.key in m && m[e.key] == e
    {
      var i :| 0 <= i < |b| && b[i] == e;
      assert e in m.Values;
    }
  }

  lemma RepresentsRemove<K(!new), D>(buckets: seq<seq<Entry<K, D>>>, m: map<K, Entry<K, D>>, hash: (K, nat) -> nat,
                                     bits: nat, key: K, i: nat)
    requires Represents(buckets, m, hash, bits) && key in m && hash(key, bits) < |buckets|
    requires var b := buckets[hash(key, bits)]; i < |b| && b[i] == m[key]
    ensures var c, b := hash(key, bits), buckets[hash(key, bits)];
      Represents(buckets[c := b[..i] + b[i + 1..]], m - {key}, hash, bits)
    ensures |m - {key}| == |m| - 1
  {
    StoredRemove(buckets, m.Values, hash, bits, hash(key, bits), i);
    RemoveValue(m, key);
  }

  lemma RepresentsAdd<K(!new), D>(buckets: seq<seq<Entry<K, D>>>, m: map<K, Entry<K, D>>, hash: (K, nat) -> nat,
                                  bits: nat, e: Entry<K, D>)
    requires Represents(buckets, m, hash, bits) && e.key !in m
    ensures hash(e.key, bits) < |buckets|
    ensures var c := hash(e.key, bits); Represents(buckets[c := [e] + buckets[c]], m[e.key := e], hash, bits)
    ensures |m[e.key := e]| == |m| + 1
  {
    assert e !in m.Values;
    StoredAdd(buckets, m.Values, hash, bits, e);
    AddValue(m, e);
  }

  /** Bucket `c` has one more entry, in front. */
  ghost predicate AddedAtFront<K, D>(buckets: seq<seq<Entry<K, D>>>, before: seq<seq<Entry<K, D>>>, c: nat) {
    && c < |buckets| == |before| && |buckets[c]| > 0
    && buckets == before[c := [buckets[c][0]] + before[c]]
  }

  class HashTable<K(!new, ==), D> {
    const hash: (K, nat) -> nat
    const zero: D
    var elements: nat
    var bucketBits: nat
    var buckets: array<seq<Entry<K, D>>>
    ghost var contents: map<K, Entry<K, D>>

    ghost predicate Valid()
      reads this, buckets
    {
      && INIT_HASH_SIZE <= bucketBits <= MAX_HASH_SIZE
      && Represents(buckets[..], contents, hash, bucketBits)
      && elements == |contents|
      && WithinLoad(elements, bucketBits)
    }

    /** At most four entries to a bucket, unless the table is as large as it gets. */
    static predicate WithinLoad(elements: nat, bits: nat) {
      elements <= 4 * Pow2(bits) || bits == MAX_HASH_SIZE
    }

    /** Whether the table is enlarged for its latest entry. */
    static predicate Grows(elements: nat, bits: nat) {
      elements > 4 * Pow2(bits) && bits < MAX_HASH_SIZE
    }

    constructor (hash: (K, nat) -> nat, zero: D)
      requires Hashes(hash)
      ensures Valid() && fresh(buckets) && contents == map[] && this.zero == zero && this.hash == hash
      ensures elements == 0 && bucketBits == 6 && buckets.Length == 64
    {
      this.hash := hash;
      this.zero := zero;
      elements := 0;
      bucketBits := INIT_HASH_SIZE;
      buckets := new seq<Entry<K, D>>[Pow2(INIT_HASH_SIZE)](_ => []);
      contents := map[];
      new;
      StoredNothing(buckets[..], hash, INIT_HASH_SIZE);
      assert contents.Values == {};
    }

    /** The entry for a key, if there is one. */
    method Find(key: K) returns (entry: Entry?<K, D>)
      requires Valid()
      ensures entry == if key in contents then contents[key] else null
    {
      hide Represents;
      var i := Position(key);
      var bucket := buckets[hash(key, bucketBits)];
      entry := if i < |bucket| then bucket[i] else null;
    }

    /** The walk over the key's bucket: where its entry is, or the bucket's length. */
    method Position(key: K) returns (i: nat)
      requires Valid()
      ensures hash(key, bucketBits) < buckets.Length
      ensures var bucket := buckets[hash(key, bucketBits)];
        if key in contents then i < |bucket| && bucket[i] == contents[key] else i == |bucket|
    {
      var c := hash(key, bucketBits);
      Present(buckets[..], contents, hash, bucketBits, key);
      hide Represents;
      var bucket := buckets[c];
      assert buckets[..][c] == bucket;
      i := 0;
      while i < |bucket| && bucket[i].key != key
        invariant i <= |bucket|
        invariant forall j :: 0 <= j < i ==> bucket[j].key != key
      {
        i := i + 1;
      }
    }

    /** Forget a key. */
    method Remove(key: K)
      requires Valid()
      modifies this, buckets
      ensures Valid() && buckets == old(buckets) && bucketBits == old(bucketBits)
      ensures contents == old(contents) - {key}
    {
      hide Represents, Pow2;
      var i := Position(key);
      var c := hash(key, bucketBits);
      if i < |buckets[c]| {
        ghost var before := buckets[..];
        RepresentsRemove(before, contents, hash, bucketBits, key, i);
        buckets[c] := buckets[c][..i] + buckets[c][i + 1..];
        assert buckets[..] == before[c := before[c][..i] + before[c][i + 1..]];
        elements := elements - 1;
        contents := contents - {key};
      }
    }

    /** Twice as many buckets: every entry is moved to the front of its new bucket. */
    method DoubleSize(haveMemory: bool) returns (ok: bool)
      requires bucketBits < MAX_HASH_SIZE && Represents(buckets[..], contents, hash, bucketBits)
      modifies this`buckets, this`bucketBits
      ensures ok == haveMemory
      ensures !ok ==> buckets == old(buckets) && bucketBits == old(bucketBits)
      ensures ok ==> fresh(buckets) && bucketBits == old(bucketBits) + 1 && buckets.Length == 2 * old(buckets.Length)
      ensures Represents(buckets[..], contents, hash, bucketBits)
    {
      if !haveMemory {
        return false;
      }
      var bits := bucketBits + 1;
      var newBuckets := new seq<Entry<K, D>>[Pow2(bits)](_ => []);
      StoredNothing(newBuckets[..], hash, bits);
      DoubleCapacity(bucketBits);
      ghost var moved: set<Entry<K, D>> := {};
      ghost var was := buckets[..];
      assert |was| == Pow2(bucketBits) && MovedExactly(was, contents.Values, hash, bucketBits, moved, 0, 0);
      hide Stored, Pow2, MovedExactly;
      var c: nat := 0;
      while c < buckets.Length
        invariant c <= buckets.Length == |was| && buckets[..] == was
        invariant Stored(newBuckets[..], moved, hash, bits)
        invariant MovedExactly(was, contents.Values, hash, bucketBits, moved, c, 0)
        modifies newBuckets
      {
        var i: nat := 0;
        while i < |buckets[c]|
          invariant i <= |buckets[c]| && buckets[..] == was
          invariant Stored(newBuckets[..], moved, hash, bits)
          invariant MovedExactly(was, contents.Values, hash, bucketBits, moved, c, i)
          modifies newBuckets
        {
          ghost var now := newBuckets[..];
          var e := buckets[c][i];
          MoveOne(was, contents.Values, hash, bucketBits, moved, c, i);
          StoredAdd(now, moved, hash, bits, e);
          var d := hash(e.key, bits);
          HashInRange(now, moved, hash, bits, e.key);
          newBuckets[d] := [e] + newBuckets[d];
          assert newBuckets[..] == now[d := [e] + now[d]];
          moved := moved + {e};
          i := i + 1;
        }
        NextBucket(was, contents.Values, hash, bucketBits, moved, c);
        c := c + 1;
      }
      AllMoved(was, contents.Values, hash, bucketBits, moved);
      buckets := newBuckets;
      bucketBits := bits;
      return true;
    }

    lemma GrowsExactly(n: nat)
      requires Valid()
      ensures Grows(n, bucketBits) <==> n > 4 * buckets.Length && bucketBits < 11
    {
    }

    /**
     * Add an absent key. It fails, leaving the map as it was, when memory runs out, also while the table is
     * being enlarged.
     */
    method Add(key: K, haveMemory: bool, haveBuckets: bool) returns (entry: Entry?<K, D>)
      requires Valid() && key !in contents
      modifies this, buckets
      ensures Valid()
      ensures buckets == old(buckets) || fresh(buckets)
      ensures var grows := old(elements) + 1 > 4 * old(buckets.Length) && old(bucketBits) < 11;
        && (entry == null <==> !haveMemory || (!haveBuckets && grows))
        && (entry != null ==>
              && bucketBits == (if grows then old(bucketBits) + 1 else old(bucketBits))
              && buckets.Length == (if grows then 2 * old(buckets.Length) else old(buckets.Length))
              && elements == old(elements) + 1)
      ensures entry == null ==>
        contents == old(contents) && bucketBits == old(bucketBits)
        && buckets == old(buckets) && buckets[..] == old(buckets[..])
      ensures entry != null ==>
        fresh(entry) && entry.key == key && entry.data == zero && contents == old(contents)[key := entry]
    {
      hide Represents, WithinLoad, Grows, AddedAtFront;
      if !haveMemory {
        return null;
      }
      LoadAfterAdd(elements, bucketBits);
      GrowsExactly(elements + 1);
      entry := Insert(key);
      if Grows(elements, bucketBits) {
        var ok := Enlarge(key, haveBuckets, old(buckets[..]), old(contents));
        if !ok {
          entry := null;
        }
      }
    }

    /** Enlarge the table for the entry just added, or else take the entry out again. */
    method Enlarge(key: K, haveBuckets: bool, ghost before: seq<seq<Entry<K, D>>>, ghost was: map<K, Entry<K, D>>)
      returns (ok: bool)
      requires bucketBits < MAX_HASH_SIZE && Represents(buckets[..], contents, hash, bucketBits)
      requires elements > 0 && AddedAtFront(buckets[..], before, hash(key, bucketBits))
      modifies this, buckets
      ensures ok == haveBuckets
      ensures ok ==> fresh(buckets) && bucketBits == old(bucketBits) + 1 && elements == old(elements)
      ensures ok ==> buckets.Length == 2 * old(buckets.Length)
      ensures ok ==> contents == old(contents) && Represents(buckets[..], contents, hash, bucketBits)
      ensures !ok ==> buckets == old(buckets) && bucketBits == old(bucketBits)
      ensures !ok ==> buckets[..] == before && contents == was && elements == old(elements) - 1
    {
      hide Represents, AddedAtFront;
      ok := DoubleSize(haveBuckets);
      if !ok {
        TakeBack(key, before, was);
      }
    }

    static lemma LoadAfterAdd(elements: nat, bits: nat)
      requires WithinLoad(elements, bits) && bits <= MAX_HASH_SIZE
      ensures WithinLoad(elements + 1, if Grows(elements + 1, bits) then bits + 1 else bits)
      ensures Grows(elements + 1, bits) ==> bits < MAX_HASH_SIZE
    {
      DoubleCapacity(bits);
    }

    /** Put a new entry at the front of its bucket. */
    method Insert(key: K) returns (entry: Entry<K, D>)
      requires key !in contents && Represents(buckets[..], contents, hash, bucketBits)
      modifies this`elements, this`contents, buckets
      ensures fresh(entry) && entry.key == key && entry.data == zero
      ensures contents == old(contents)[key := entry] && |contents| == |old(contents)| + 1
      ensures elements == old(elements) + 1 && Represents(buckets[..], contents, hash, bucketBits)
      ensures AddedAtFront(buckets[..], old(buckets[..]), hash(key, bucketBits))
    {
      hide Represents;
      ghost var before := buckets[..];
      var c := hash(key, bucketBits);
      entry := new Entry(key, zero);
      RepresentsAdd(before, contents, hash, bucketBits, entry);
      buckets[c] := [entry] + buckets[c];
      elements := elements + 1;
      contents := contents[key := entry];
    }

    /** Take the entry just added out again. */
    method TakeBack(key: K, ghost before: seq<seq<Entry<K, D>>>, ghost was: map<K, Entry<K, D>>)
      requires elements > 0 && AddedAtFront(buckets[..], before, hash(key, bucketBits))
      modifies this`elements, this`contents, buckets
      ensures buckets[..] == before && contents == was && elements == old(elements) - 1
    {
      var c := hash(key, bucketBits);
      assert buckets[..][c] == [buckets[c][0]] + before[c];
      elements := elements - 1;
      buckets[c] := buckets[c][1..];
      contents := was;
    }
  }

  /** While the table is enlarged: the entries of the buckets before `c`, and the first `i` of bucket `c`. */
  ghost predicate MovedExactly<K, D>(buckets: seq<seq<Entry<K, D>>>, es: set<Entry<K, D>>, hash: (K, nat) -> nat,
                                     bits: nat, moved: set<Entry<K, D>>, c: nat, i: nat)
    requires c < |buckets| ==> i <= |buckets[c]|
  {
    && moved <= es
    && forall e :: e in es ==>
         (e in moved <==> hash(e.key, bits) < c || (hash(e.key, bits) == c < |buckets| && e in buckets[c][..i]))
  }

  lemma MoveOne<K, D>(buckets: seq<seq<Entry<K, D>>>, es: set<Entry<K, D>>, hash: (K, nat) -> nat, bits: nat,
                      moved: set<Entry<K, D>>, c: nat, i: nat)
    requires Stored(buckets, es, hash, bits) && c < |buckets| && i < |buckets[c]|
    requires MovedExactly(buckets, es, hash, bits, moved, c, i)
    ensures buckets[c][i] !in moved
    ensures MovedExactly(buckets, es, hash, bits, moved + {buckets[c][i]}, c, i + 1)
  {
    assert buckets[c][..i + 1] == buckets[c][..i] + [buckets[c][i]];
  }

  lemma NextBucket<K, D>(buckets: seq<seq<Entry<K, D>>>, es: set<Entry<K, D>>, hash: (K, nat) -> nat, bits: nat,
                         moved: set<Entry<K, D>>, c: nat)
    requires Stored(buckets, es, hash, bits) && c < |buckets|
    requires MovedExactly(buckets, es, hash, bits, moved, c, |buckets[c]|)
    ensures MovedExactly(buckets, es, hash, bits, moved, c + 1, 0)
  {
    assert buckets[c][..|buckets[c]|] == buckets[c];
  }

  lemma AllMoved<K, D>(buckets: seq<seq<Entry<K, D>>>, es: set<Entry<K, D>>, hash: (K, nat) -> nat, bits: nat,
                       moved: set<Entry<K, D>>)
    requires Stored(buckets, es, hash, bits)
    requires MovedExactly(buckets, es, hash, bits, moved, |buckets|, 0)
    ensures moved == es
  {
  }

  lemma HashInRange<K(!new), D>(buckets: seq<seq<Entry<K, D>>>, es: set<Entry<K, D>>, hash: (K, nat) -> nat, bits: nat,
                                key: K)
    requires Stored(buckets, es, hash, bits) && Hashes(hash)
    ensures hash(key, bits) < |buckets|
  {
  }

  lemma DoubleCapacity(bits: nat)
    ensures Pow2(bits + 1) == 2 * Pow2(bits)
  {
  }

  lemma RemoveValue<K, D>(m: map<K, Entry<K, D>>, key: K)
    requires key in m && forall k :: k in m ==> m[k].key == k
    ensures (m - {key}).Values == m.Values - {m[key]}
    ensures |m - {key}| == |m| - 1
  {
    var rest := m - {key};
    forall e | e in m.Values - {m[key]}
      ensures e in rest.Values
    {
      assert e.key in rest && rest[e.key] == e;
    }
    assert m == rest[key := m[key]];
  }

  lemma AddValue<K, D>(m: map<K, Entry<K, D>>, e: Entry<K, D>)
    requires e.key !in m && forall k :: k in m ==> m[k].key == k
    ensures m[e.key := e].Values == m.Values + {e}
    ensures |m[e.key := e]| == |m| + 1
  {
    var more := m[e.key := e];
    forall x | x in m.Values + {e}
      ensures x in more.Values
    {
      assert x.key in more && more[x.key] == x;
    }
  }

  // ---- The element count is the number of entries in the buckets ----

  /** The number of entries in the buckets. */
  function Count<K, D>(buckets: seq<seq<Entry<K, D>>>): nat {
    if buckets == [] then 0 else Count(buckets[..|buckets| - 1]) + |buckets[|buckets| - 1]|
  }

  function Below<K(!new), D>(es: set<Entry<K, D>>, hash: (K, nat) -> nat, bits: nat, n: nat): set<Entry<K, D>> {
    set e | e in es && hash(e.key, bits) < n
  }

  lemma {:induction false} SizeOfBucket<K, D>(b: seq<Entry<K, D>>)
    requires forall i, j :: 0 <= i < j < |b| ==> b[i] != b[j]
    ensures |(set e | e in b)| == |b|
  {
    if b != [] {
      var rest := b[..|b| - 1];
      SizeOfBucket(rest);
      assert (set e | e in b) == (set e | e in rest) + {b[|b| - 1]};
    }
  }

  lemma {:induction false} CountBelow<K(!new), D>(buckets: seq<seq<Entry<K, D>>>, es: set<Entry<K, D>>,
                                                  hash: (K, nat) -> nat, bits: nat, n: nat)
    requires Stored(buckets, es, hash, bits) && n <= |buckets|
    ensures Count(buckets[..n]) == |Below(es, hash, bits, n)|
  {
    if n == 0 {
      assert Below(es, hash, bits, 0) == {};
    } else {
      CountBelow(buckets, es, hash, bits, n - 1);
      OneMoreBucket(buckets, es, hash, bits, n - 1);
      assert buckets[..n][..n - 1] == buckets[..n - 1];
    }
  }

  lemma OneMoreBucket<K(!new), D>(buckets: seq<seq<Entry<K, D>>>, es: set<Entry<K, D>>, hash: (K, nat) -> nat, bits: nat,
                                  c: nat)
    requires Stored(buckets, es, hash, bits) && c < |buckets|
    ensures |Below(es, hash, bits, c + 1)| == |Below(es, hash, bits, c)| + |buckets[c]|
  {
    var b := buckets[c];
    SizeOfBucket(b);
    var here := set e | e in b;
    forall e | e in b
      ensures e in es && hash(e.key, bits) == c
    {
      var i :| 0 <= i < |b| && b[i] == e;
    }
    assert Below(es, hash, bits, c + 1) == Below(es, hash, bits, c) + here;
  }

  lemma {:induction false} SizeOfValues<K(!new), D>(m: map<K, Entry<K, D>>)
    requires forall k :: k in m ==> m[k].key == k
    ensures |m.Values| == |m|
  {
    if m != map[] {
      var k :| k in m;
      RemoveValue(m, k);
      SizeOfValues(m - {k});
    }
  }

  /** The map has as many keys as the buckets have entries. */
  lemma CountIsSize<K(!new), D>(buckets: seq<seq<Entry<K, D>>>, m: map<K, Entry<K, D>>, hash: (K, nat) -> nat, bits: nat)
    requires Represents(buckets, m, hash, bits)
    ensures Count(buckets) == |m|
  {
    CountBelow(buckets, m.Values, hash, bits, |buckets|);
    SizeOfValues(m);
    assert buckets[..|buckets|] == buckets;
    assert Below(m.Values, hash, bits, |buckets|) == m.Values;
  }
}
