/** The glyph-metric compression of the XFree86 Bigfont extension: equal metrics are stored once,
  found through chained hash buckets that live, with the result, in one array of 16-bit cells.
 */
module BigFont {

  type CARD16 = x: int | 0 <= x < 0x1_0000
  type INT16 = x: int | -0x8000 <= x < 0x8000

  datatype CharInfo = CharInfo(leftSideBearing: INT16, rightSideBearing: INT16, characterWidth: INT16,
                               ascent: INT16, descent: INT16, attributes: CARD16)

  /** End of a hash chain. */
  const END: CARD16 := 0xffff

  function Shifts(p: CharInfo): int {
    p.leftSideBearing * 0x800_0000 + p.leftSideBearing / 32
    + p.rightSideBearing * 0x80_0000 + p.rightSideBearing / 512
    + p.characterWidth * 0x1_0000 + p.ascent * 0x800 + p.descent * 0x40
  }

  /** The hashCI macro: sums of shifted fields modulo 2^32, exclusive-or the attributes. */
  function HashCI(p: CharInfo): nat {
    (((Shifts(p) % 0x1_0000_0000) as bv32) ^ (p.attributes as bv32)) as nat
  }

  function Bucket(p: CharInfo, modulus: nat): (h: nat)
    requires modulus > 0
    ensures h < modulus
  {
    HashCI(p) % modulus
  }

  // ---------- The four slices of the array ----------

  /** For each character its unique entry; for each unique entry the first character that has
    it and the next entry of its hash chain; for each bucket the head of its chain. */
  datatype Cells = Cells(index: seq<CARD16>, first: seq<CARD16>, next: seq<CARD16>, heads: seq<CARD16>)

  /** The slices lie one after the other in one array of 4 n + 1 cells. */
  ghost function Slices(t: seq<CARD16>, n: nat): Cells
    requires |t| == 4 * n + 1
  {
    Cells(t[..n], t[n..2 * n], t[2 * n..3 * n], t[3 * n..])
  }

  lemma SliceAt(t: seq<CARD16>, n: nat, i: nat)
    requires |t| == 4 * n + 1
    ensures i < n ==> t[i] == Slices(t, n).index[i] && t[n + i] == Slices(t, n).first[i] && t[2 * n + i] == Slices(t, n).next[i]
    ensures i < n + 1 ==> t[3 * n + i] == Slices(t, n).heads[i]
    ensures |Slices(t, n).index| == |Slices(t, n).first| == |Slices(t, n).next| == n && |Slices(t, n).heads| == n + 1
  {
  }

  lemma WriteIndex(t: seq<CARD16>, n: nat, i: nat, x: CARD16)
    requires |t| == 4 * n + 1 && i < n
    ensures Slices(t[i := x], n) == Slices(t, n).(index := Slices(t, n).index[i := x])
  {
  }

  lemma WriteFirst(t: seq<CARD16>, n: nat, i: nat, x: CARD16)
    requires |t| == 4 * n + 1 && i < n
    ensures Slices(t[n + i := x], n) == Slices(t, n).(first := Slices(t, n).first[i := x])
  {
  }

  lemma WriteNext(t: seq<CARD16>, n: nat, i: nat, x: CARD16)
    requires |t| == 4 * n + 1 && i < n
    ensures Slices(t[2 * n + i := x], n) == Slices(t, n).(next := Slices(t, n).next[i := x])
  {
  }

  lemma WriteHead(t: seq<CARD16>, n: nat, h: nat, x: CARD16)
    requires |t| == 4 * n + 1 && h < n + 1
    ensures Slices(t[3 * n + h := x], n) == Slices(t, n).(heads := Slices(t, n).heads[h := x])
  {
  }

  // ---------- Invariants ----------

  /** Unique entry `j` stands for the metrics `p`. */
  ghost predicate Holds(pCI: seq<CharInfo>, c: Cells, j: nat, p: CharInfo) {
    j < |c.first| && c.first[j] < |pCI| && pCI[c.first[j]] == p
  }

  /** What the first `k` characters and the `u` unique entries found among them say. */
  ghost predicate Unique(pCI: seq<CharInfo>, c: Cells, k: nat, u: nat) {
    && |c.index| == |c.first| == |pCI| && u <= k <= |pCI|
    && (forall j :: 0 <= j < u ==> c.first[j] < k)
    && (forall i, j :: 0 <= i < j < u ==> pCI[c.first[i]] != pCI[c.first[j]])
    && (forall m :: 0 <= m < k ==> c.index[m] < u && pCI[c.first[c.index[m]]] == pCI[m] && c.first[c.index[m]] <= m)
  }

  /** The greatest entry below `bound` whose bucket is `h`, or -1. */
  ghost function Latest(codes: seq<nat>, h: nat, bound: nat): int
    requires bound <= |codes|
  {
    if bound == 0 then -1 else if codes[bound - 1] == h then bound - 1 else Latest(codes, h, bound - 1)
  }

  ghost predicate Coded(cell: CARD16, entry: int) {
    cell == if entry == -1 then END else entry
  }

  /** `codes` lists the buckets of the unique entries. */
  ghost predicate Codes(pCI: seq<CharInfo>, c: Cells, modulus: nat, codes: seq<nat>) {
    && |codes| <= |c.first| && modulus > 0
    && (forall j :: 0 <= j < |codes| ==> c.first[j] < |pCI| && codes[j] == Bucket(pCI[c.first[j]], modulus))
  }

  /** Each chain visits exactly the entries of its bucket, from the latest to the first. */
  ghost predicate Chains(c: Cells, modulus: nat, codes: seq<nat>) {
    && |codes| <= |c.next| && modulus <= |c.heads|
    && (forall h :: 0 <= h < modulus ==> Coded(c.heads[h], Latest(codes, h, |codes|)))
    && (forall i :: 0 <= i < |codes| ==> Coded(c.next[i], Latest(codes, codes[i], i)))
  }

  lemma {:induction false} LatestRange(codes: seq<nat>, h: nat, bound: nat)
    requires bound <= |codes|
    ensures -1 <= Latest(codes, h, bound) < bound
    ensures Latest(codes, h, bound) >= 0 ==> codes[Latest(codes, h, bound)] == h
    ensures forall j :: Latest(codes, h, bound) < j < bound ==> codes[j] != h
  {
    if bound > 0 && codes[bound - 1] != h { LatestRange(codes, h, bound - 1); }
  }

  lemma {:induction false} LatestPrefix(codes: seq<nat>, b: nat, h: nat, bound: nat)
    requires bound <= |codes|
    ensures Latest(codes + [b], h, bound) == Latest(codes, h, bound)
  {
    if bound > 0 { LatestPrefix(codes, b, h, bound - 1); }
  }

  // ---------- Looking a character up ----------

  /** One turn of the walk: where the chain stands and where it goes. */
  lemma ChainStep(pCI: seq<CharInfo>, c: Cells, modulus: nat, codes: seq<nat>, h: nat, bound: nat, i: CARD16)
    requires Codes(pCI, c, modulus, codes) && Chains(c, modulus, codes)
    requires |codes| <= 0xffff && bound <= |codes| && Coded(i, Latest(codes, h, bound)) && i != END
    ensures i < bound && codes[i] == h && c.first[i] < |pCI|
    ensures Coded(c.next[i], Latest(codes, h, i))
    ensures forall j :: i < j < bound ==> codes[j] != h
  {
    LatestRange(codes, h, bound);
    hide Bucket, Latest;
  }

  lemma ChainEnd(pCI: seq<CharInfo>, c: Cells, modulus: nat, codes: seq<nat>, p: CharInfo, bound: nat)
    requires modulus > 0 && Codes(pCI, c, modulus, codes) && |codes| <= 0xffff && bound <= |codes|
    requires Coded(END, Latest(codes, Bucket(p, modulus), bound))
    requires forall j :: bound <= j < |codes| && codes[j] == Bucket(p, modulus) ==> !Holds(pCI, c, j, p)
    ensures forall j :: 0 <= j < |codes| ==> !Holds(pCI, c, j, p)
  {
    LatestRange(codes, Bucket(p, modulus), bound);
    hide Bucket, Latest;
  }

  lemma ChainStart(pCI: seq<CharInfo>, cells: seq<CARD16>, modulus: nat, codes: seq<nat>, h: nat)
    requires |cells| == 4 * |pCI| + 1 && modulus > 0 && h < modulus
    requires Codes(pCI, Slices(cells, |pCI|), modulus, codes) && Chains(Slices(cells, |pCI|), modulus, codes)
    ensures |codes| <= |pCI| && modulus <= |pCI| + 1 && |Slices(cells, |pCI|).first| == |pCI|
    ensures Coded(cells[3 * |pCI| + h], Latest(codes, h, |codes|))
  {
    hide Slices, Latest, Coded, Bucket;
    SliceAt(cells, |pCI|, h);
  }

  /** Walk the chain of `p`'s bucket until an entry equals `p`. */
  method Lookup(pCI: seq<CharInfo>, t: array<CARD16>, modulus: nat, p: CharInfo, ghost codes: seq<nat>)
    returns (i: CARD16)
    requires t.Length == 4 * |pCI| + 1 && |codes| <= 0xffff && modulus > 0
    requires Codes(pCI, Slices(t[..], |pCI|), modulus, codes) && Chains(Slices(t[..], |pCI|), modulus, codes)
    ensures i != END ==> i < |codes| && Holds(pCI, Slices(t[..], |pCI|), i, p)
    ensures i == END ==> forall j :: 0 <= j < |codes| ==> !Holds(pCI, Slices(t[..], |pCI|), j, p)
  {
    hide Bucket, Latest, Coded, Codes, Chains, Slices;
    var n := |pCI|;
    var hashCode := Bucket(p, modulus);
    ghost var cells := t[..];
    ghost var c := Slices(cells, n);
    ChainStart(pCI, cells, modulus, codes, hashCode);
    i := t[3 * n + hashCode];
    ghost var bound := |codes|;
    while i != END
      invariant 0 <= bound <= |codes| && Coded(i, Latest(codes, hashCode, bound))
      invariant forall j :: bound <= j < |codes| && codes[j] == hashCode ==> !Holds(pCI, c, j, p)
      decreases bound
    {
      ChainStep(pCI, c, modulus, codes, hashCode, bound, i);
      SliceAt(cells, n, i);
      if pCI[t[n + i]] == p {
        return;
      }
      bound := i;
      i := t[2 * n + i];
    }
    ChainEnd(pCI, c, modulus, codes, p, bound);
  }

  // ---------- Writing into the slices ----------

  method SetIndex(t: array<CARD16>, n: nat, k: nat, x: CARD16)
    requires t.Length == 4 * n + 1 && k < n
    modifies t
    ensures Slices(t[..], n) == old(Slices(t[..], n)).(index := old(Slices(t[..], n)).index[k := x])
  {
    t[k] := x;
    WriteIndex(old(t[..]), n, k, x);
    assert t[..] == old(t[..])[k := x];
  }

  method SetFirst(t: array<CARD16>, n: nat, i: nat, x: CARD16)
    requires t.Length == 4 * n + 1 && i < n
    modifies t
    ensures Slices(t[..], n) == old(Slices(t[..], n)).(first := old(Slices(t[..], n)).first[i := x])
  {
    t[n + i] := x;
    WriteFirst(old(t[..]), n, i, x);
    assert t[..] == old(t[..])[n + i := x];
  }

  method SetNext(t: array<CARD16>, n: nat, i: nat, x: CARD16)
    requires t.Length == 4 * n + 1 && i < n
    modifies t
    ensures Slices(t[..], n) == old(Slices(t[..], n)).(next := old(Slices(t[..], n)).next[i := x])
  {
    t[2 * n + i] := x;
    WriteNext(old(t[..]), n, i, x);
    assert t[..] == old(t[..])[2 * n + i := x];
  }

  method SetHead(t: array<CARD16>, n: nat, h: nat, x: CARD16)
    requires t.Length == 4 * n + 1 && h < n + 1
    modifies t
    ensures Slices(t[..], n) == old(Slices(t[..], n)).(heads := old(Slices(t[..], n)).heads[h := x])
  {
    t[3 * n + h] := x;
    WriteHead(old(t[..]), n, h, x);
    assert t[..] == old(t[..])[3 * n + h := x];
  }

  // ---------- Building and rebuilding the chains ----------

  /** Put entry |codes| at the head of the chain of bucket `b`. */
  function Pushed(c: Cells, i: CARD16, b: nat): Cells
    requires i < |c.next| && b < |c.heads|
  {
    c.(next := c.next[i := c.heads[b]], heads := c.heads[b := i])
  }

  lemma PushChains(c: Cells, modulus: nat, codes: seq<nat>, b: nat, i: CARD16)
    requires Chains(c, modulus, codes) && i == |codes| < |c.next| && b < modulus
    ensures Chains(Pushed(c, i, b), modulus, codes + [b])
  {
    var codes' := codes + [b];
    forall h | 0 <= h < modulus
      ensures Coded(Pushed(c, i, b).heads[h], Latest(codes', h, |codes'|))
    {
      LatestPrefix(codes, b, h, |codes|);
    }
    forall j | 0 <= j < |codes'|
      ensures Coded(Pushed(c, i, b).next[j], Latest(codes', codes'[j], j))
    {
      LatestPrefix(codes, b, codes'[j], j);
      if j == |codes| {
        assert Coded(c.heads[b], Latest(codes, b, |codes|));
      } else {
        assert codes'[j] == codes[j];
      }
    }
  }

  method Push(t: array<CARD16>, n: nat, i: CARD16, b: nat)
    requires t.Length == 4 * n + 1 && i < n && b < n + 1
    modifies t
    ensures |Slices(old(t[..]), n).next| == n && |Slices(old(t[..]), n).heads| == n + 1
    ensures Slices(t[..], n) == Pushed(Slices(old(t[..]), n), i, b)
  {
    hide Slices;
    SliceAt(t[..], n, b);
    SetNext(t, n, i, t[3 * n + b]);
    SetHead(t, n, b, i);
  }

  method ClearHeads(t: array<CARD16>, n: nat, modulus: nat)
    requires t.Length == 4 * n + 1 && modulus <= n + 1
    modifies t
    ensures Slices(t[..], n) == old(Slices(t[..], n)).(heads := Slices(t[..], n).heads)
    ensures Chains(Slices(t[..], n), modulus, [])
  {
    hide Slices;
    SliceAt(t[..], n, 0);
    var j := 0;
    while j < modulus
      invariant 0 <= j <= modulus
      invariant Slices(t[..], n) == old(Slices(t[..], n)).(heads := Slices(t[..], n).heads)
      invariant |Slices(t[..], n).heads| == n + 1
      invariant forall h :: 0 <= h < j ==> Slices(t[..], n).heads[h] == END
    {
      SetHead(t, n, j, END);
      j := j + 1;
    }
  }

  method ClearNext(t: array<CARD16>, n: nat, u: nat)
    requires t.Length == 4 * n + 1 && u <= n
    modifies t
    ensures Slices(t[..], n) == old(Slices(t[..], n)).(next := Slices(t[..], n).next)
  {
    hide Slices;
    var i := 0;
    while i < u
      invariant 0 <= i <= u
      invariant Slices(t[..], n) == old(Slices(t[..], n)).(next := Slices(t[..], n).next)
    {
      SetNext(t, n, i, END);
      i := i + 1;
    }
  }

  /** The buckets of the unique entries for a given modulus. */
  ghost function CodesFor(pCI: seq<CharInfo>, c: Cells, u: nat, modulus: nat): (codes: seq<nat>)
    requires u <= |c.first| && modulus > 0 && forall j :: 0 <= j < u ==> c.first[j] < |pCI|
    ensures |codes| == u && Codes(pCI, c, modulus, codes)
    ensures forall j :: 0 <= j < u ==> codes[j] < modulus
  {
    hide Bucket;
    seq(u, j requires 0 <= j < u => Bucket(pCI[c.first[j]], modulus))
  }

  /** Put the metrics of unique entry `i` into the table again. */
  method Reinsert(pCI: seq<CharInfo>, t: array<CARD16>, modulus: nat, i: CARD16, ghost codes: seq<nat>, ghost code: nat)
    requires t.Length == 4 * |pCI| + 1 && 0 < modulus <= |pCI| + 1 && i == |codes| < |pCI|
    requires Slices(t[..], |pCI|).first[i] < |pCI| && code == Bucket(pCI[Slices(t[..], |pCI|).first[i]], modulus)
    requires Chains(Slices(t[..], |pCI|), modulus, codes)
    modifies t
    ensures Slices(t[..], |pCI|).index == old(Slices(t[..], |pCI|)).index
    ensures Slices(t[..], |pCI|).first == old(Slices(t[..], |pCI|)).first
    ensures Chains(Slices(t[..], |pCI|), modulus, codes + [code])
  {
    hide Slices, Chains, Bucket;
    var n := |pCI|;
    SliceAt(t[..], n, i);
    var b := Bucket(pCI[t[n + i]], modulus);
    PushChains(Slices(t[..], n), modulus, codes, b, i);
    Push(t, n, i, b);
  }

  /** The second loop of a rehash, over chains that are still empty. */
  method FillChains(pCI: seq<CharInfo>, t: array<CARD16>, modulus: nat, u: nat, ghost codes: seq<nat>)
    requires t.Length == 4 * |pCI| + 1 && 0 < modulus <= |pCI| + 1 && u == |codes| <= |pCI| && u <= 0xffff
    requires Codes(pCI, Slices(t[..], |pCI|), modulus, codes) && Chains(Slices(t[..], |pCI|), modulus, [])
    modifies t
    ensures Slices(t[..], |pCI|).index == old(Slices(t[..], |pCI|)).index
    ensures Slices(t[..], |pCI|).first == old(Slices(t[..], |pCI|)).first
    ensures Chains(Slices(t[..], |pCI|), modulus, codes)
  {
    var n := |pCI|;
    ghost var c := Slices(t[..], n);
    hide Slices, Chains, Bucket, Codes, StartOf;
    ghost var done: seq<nat> := [];
    StartGrows(done, codes);
    var i := 0;
    while i < u
      invariant 0 <= i <= u
      invariant Slices(t[..], n).index == c.index && Slices(t[..], n).first == c.first
      invariant |done| == i && StartOf(done, codes)
      invariant Chains(Slices(t[..], n), modulus, done)
    {
      CodeAt(pCI, c, modulus, codes, i);
      Reinsert(pCI, t, modulus, i, done, codes[i]);
      StartGrows(done, codes);
      done := done + [codes[i]];
      i := i + 1;
    }
    StartGrows(done, codes);
  }

  ghost predicate StartOf(a: seq<nat>, b: seq<nat>) {
    |a| <= |b| && forall j :: 0 <= j < |a| ==> a[j] == b[j]
  }

  lemma StartGrows(a: seq<nat>, b: seq<nat>)
    ensures StartOf([], b)
    ensures |a| < |b| && StartOf(a, b) ==> StartOf(a + [b[|a|]], b)
    ensures |a| == |b| && StartOf(a, b) ==> a == b
  {
  }

  lemma CodeAt(pCI: seq<CharInfo>, c: Cells, modulus: nat, codes: seq<nat>, i: nat)
    requires Codes(pCI, c, modulus, codes) && i < |codes| && modulus > 0
    ensures i < |c.first| && c.first[i] < |pCI| && codes[i] == Bucket(pCI[c.first[i]], modulus)
  {
    hide Bucket;
  }

  /** Fill the chains anew for a larger modulus. */
  method Rehash(pCI: seq<CharInfo>, t: array<CARD16>, u: nat, modulus: nat) returns (ghost codes: seq<nat>)
    requires t.Length == 4 * |pCI| + 1 && 0 < modulus <= |pCI| + 1 && u <= |pCI| && u <= 0xffff
    requires forall j :: 0 <= j < u ==> Slices(t[..], |pCI|).first[j] < |pCI|
    modifies t
    ensures Slices(t[..], |pCI|).index == old(Slices(t[..], |pCI|)).index
    ensures Slices(t[..], |pCI|).first == old(Slices(t[..], |pCI|)).first
    ensures |codes| == u && Codes(pCI, Slices(t[..], |pCI|), modulus, codes)
    ensures Chains(Slices(t[..], |pCI|), modulus, codes)
  {
    var n := |pCI|;
    SliceAt(t[..], n, 0);
    hide Slices, Chains, Bucket, Codes;
    ghost var c := Slices(t[..], n);
    codes := CodesFor(pCI, c, u, modulus);
    ClearHeads(t, n, modulus);
    ghost var c1 := Slices(t[..], n);
    ClearNext(t, n, u);
    EmptyChains(c1, Slices(t[..], n), modulus);
    CodesReadFirst(pCI, c, Slices(t[..], n), modulus, codes);
    FillChains(pCI, t, modulus, u, codes);
    CodesReadFirst(pCI, c, Slices(t[..], n), modulus, codes);
  }

  /** With no entries only the heads matter. */
  lemma EmptyChains(c: Cells, c': Cells, modulus: nat)
    requires Chains(c, modulus, []) && c' == c.(next := c'.next)
    ensures Chains(c', modulus, [])
  {
  }

  lemma CodesReadFirst(pCI: seq<CharInfo>, c: Cells, c': Cells, modulus: nat, codes: seq<nat>)
    requires Codes(pCI, c, modulus, codes) && c'.first == c.first
    ensures Codes(pCI, c', modulus, codes)
  {
    hide Bucket;
  }

  // ---------- The main loop ----------

  lemma FoundUnique(pCI: seq<CharInfo>, c: Cells, k: nat, u: nat, i: CARD16)
    requires Unique(pCI, c, k, u) && k < |pCI| && i < u && Holds(pCI, c, i, pCI[k])
    ensures Unique(pCI, c.(index := c.index[k := i]), k + 1, u)
  {
  }

  lemma NewUnique(pCI: seq<CharInfo>, c: Cells, k: nat, u: nat)
    requires Unique(pCI, c, k, u) && k < |pCI| <= 0x1_0000
    requires forall j :: 0 <= j < u ==> !Holds(pCI, c, j, pCI[k])
    ensures Unique(pCI, c.(index := c.index[k := u], first := c.first[u := k]), k + 1, u + 1)
  {
    var c' := c.(index := c.index[k := u], first := c.first[u := k]);
    forall j | 0 <= j < u
      ensures c'.first[j] == c.first[j] && pCI[c.first[j]] != pCI[k]
    {
      assert !Holds(pCI, c, j, pCI[k]);
    }
  }

  lemma NewCode(pCI: seq<CharInfo>, c: Cells, modulus: nat, codes: seq<nat>, k: CARD16)
    requires Codes(pCI, c, modulus, codes) && |codes| < |c.first| && k < |pCI|
    ensures Codes(pCI, c.(first := c.first[|codes| := k]), modulus, codes + [Bucket(pCI[k], modulus)])
  {
    hide Bucket;
  }

  /** What holds between two turns of the main loop. */
  ghost predicate LoopInv(pCI: seq<CharInfo>, c: Cells, k: nat, u: nat, modulus: nat, codes: seq<nat>) {
    && Unique(pCI, c, k, u) && 0 < modulus <= |pCI| + 1 && |codes| == u
    && Codes(pCI, c, modulus, codes) && Chains(c, modulus, codes)
  }

  /** Enlarge the table when it is half full and can still grow. */
  method Grow(pCI: seq<CharInfo>, t: array<CARD16>, ghost k: nat, u: nat, oldModulus: nat, ghost oldCodes: seq<nat>)
    returns (modulus: nat, ghost codes: seq<nat>)
    requires t.Length == 4 * |pCI| + 1 && u <= 0xffff && LoopInv(pCI, Slices(t[..], |pCI|), k, u, oldModulus, oldCodes)
    modifies t
    ensures LoopInv(pCI, Slices(t[..], |pCI|), k, u, modulus, codes)
    ensures Slices(t[..], |pCI|).first == old(Slices(t[..], |pCI|)).first
  {
    var n := |pCI|;
    modulus, codes := oldModulus, oldCodes;
    hide Slices, Chains, Codes;
    if modulus <= 2 * u && modulus < n + 1 {
      modulus := 2 * modulus + 1;
      if modulus > n + 1 {
        modulus := n + 1;
      }
      codes := Rehash(pCI, t, u, modulus);
    }
  }

  /** Enter the metrics of character `k` as unique entry `u`. */
  method Enter(pCI: seq<CharInfo>, t: array<CARD16>, k: nat, u: nat, modulus: nat, ghost codes: seq<nat>)
    returns (ghost codes': seq<nat>)
    requires t.Length == 4 * |pCI| + 1 && k < |pCI| <= 0x1_0000
    requires LoopInv(pCI, Slices(t[..], |pCI|), k, u, modulus, codes)
    requires forall j :: 0 <= j < u ==> !Holds(pCI, Slices(t[..], |pCI|), j, pCI[k])
    modifies t
    ensures LoopInv(pCI, Slices(t[..], |pCI|), k + 1, u + 1, modulus, codes')
  {
    var n := |pCI|;
    var b := Bucket(pCI[k], modulus);
    ghost var c := Slices(t[..], n);
    NewUnique(pCI, c, k, u);
    NewCode(pCI, c, modulus, codes, k);
    PushChains(c, modulus, codes, b, u);
    codes' := codes + [b];
    EnteredInv(pCI, c, k, u, modulus, codes, b);
    hide Slices, LoopInv, Bucket;
    Push(t, n, u, b);
    SetFirst(t, n, u, k);
    SetIndex(t, n, k, u);
  }

  lemma EnteredInv(pCI: seq<CharInfo>, c: Cells, k: nat, u: nat, modulus: nat, codes: seq<nat>, b: nat)
    requires LoopInv(pCI, c, k, u, modulus, codes) && k < |pCI| <= 0x1_0000 && b == Bucket(pCI[k], modulus)
    requires |c.next| == |pCI| && |c.heads| == |pCI| + 1
    requires forall j :: 0 <= j < u ==> !Holds(pCI, c, j, pCI[k])
    ensures var c1 := Pushed(c, u, b);
      LoopInv(pCI, c1.(first := c1.first[u := k], index := c1.index[k := u]), k + 1, u + 1, modulus, codes + [b])
  {
    NewUnique(pCI, c, k, u);
    NewCode(pCI, c, modulus, codes, k);
    PushChains(c, modulus, codes, b, u);
    hide Bucket;
  }

  /** One turn of the loop: `isNew` tells whether the character brought a new unique entry. */
  method Process(pCI: seq<CharInfo>, t: array<CARD16>, k: nat, u: nat, oldModulus: nat, ghost oldCodes: seq<nat>)
    returns (isNew: bool, modulus: nat, ghost codes: seq<nat>)
    requires t.Length == 4 * |pCI| + 1 && k < |pCI| <= 0x1_0000
    requires LoopInv(pCI, Slices(t[..], |pCI|), k, u, oldModulus, oldCodes)
    modifies t
    ensures LoopInv(pCI, Slices(t[..], |pCI|), k + 1, if isNew then u + 1 else u, modulus, codes)
  {
    var n := |pCI|;
    modulus, codes := oldModulus, oldCodes;
    var i := Lookup(pCI, t, modulus, pCI[k], codes);
    isNew := i == END;
    ghost var c := Slices(t[..], n);
    assert u <= k && u == |codes|;
    hide Slices, LoopInv, Holds;
    if isNew {
      modulus, codes := Grow(pCI, t, k, u, modulus, codes);
      HoldsReadsFirst(pCI, c, Slices(t[..], n), u, pCI[k]);
      codes := Enter(pCI, t, k, u, modulus, codes);
    } else {
      FoundInv(pCI, Slices(t[..], n), k, u, modulus, codes, i);
      SetIndex(t, n, k, i);
    }
  }

  lemma HoldsReadsFirst(pCI: seq<CharInfo>, c: Cells, c': Cells, u: nat, p: CharInfo)
    requires c'.first == c.first
    requires forall j :: 0 <= j < u ==> !Holds(pCI, c, j, p)
    ensures forall j :: 0 <= j < u ==> !Holds(pCI, c', j, p)
  {
    forall j | 0 <= j < u
      ensures !Holds(pCI, c', j, p)
    {
      assert !Holds(pCI, c, j, p);
    }
  }

  lemma FoundInv(pCI: seq<CharInfo>, c: Cells, k: nat, u: nat, modulus: nat, codes: seq<nat>, i: CARD16)
    requires LoopInv(pCI, c, k, u, modulus, codes) && k < |pCI| && i < u && Holds(pCI, c, i, pCI[k])
    ensures LoopInv(pCI, c.(index := c.index[k := i]), k + 1, u, modulus, codes)
  {
    FoundUnique(pCI, c, k, u, i);
    hide Bucket, Unique;
  }

  /** The remove-duplicates loop. */
  method RemoveDuplicates(pCI: seq<CharInfo>) returns (t: array<CARD16>, nUniq: nat)
    requires 0 < |pCI| <= 0x1_0000
    ensures fresh(t) && t.Length == 4 * |pCI| + 1
    ensures Unique(pCI, Slices(t[..], |pCI|), |pCI|, nUniq)
  {
    var n := |pCI|;
    var modulus: nat := if 67 > n + 1 then n + 1 else 67;
    t := new CARD16[4 * n + 1];
    SliceAt(t[..], n, 0);
    hide Slices;
    ClearHeads(t, n, modulus);
    nUniq := 0;
    ghost var codes: seq<nat> := [];
    var k := 0;
    while k < n
      invariant 0 <= k <= n
      invariant LoopInv(pCI, Slices(t[..], n), k, nUniq, modulus, codes)
    {
      hide LoopInv;
      var isNew;
      isNew, modulus, codes := Process(pCI, t, k, nUniq, modulus, codes);
      if isNew {
        nUniq := nUniq + 1;
      }
      k := k + 1;
    }
  }

  // ---------- What the result means ----------

  /** Each unique entry is the first character with its metrics. */
  lemma FirstOccurrence(pCI: seq<CharInfo>, c: Cells, u: nat, j: nat, m: nat)
    requires Unique(pCI, c, |pCI|, u) && j < u && m < c.first[j]
    ensures c.first[j] < |pCI| && pCI[m] != pCI[c.first[j]]
  {
    var i := c.index[m];
    if i != j { assert pCI[c.first[i]] != pCI[c.first[j]]; }
  }

  /** The metrics that are sent once. */
  function UniqueMetrics(pCI: seq<CharInfo>, c: Cells, u: nat): (us: seq<CharInfo>)
    requires u <= |c.first| && forall j :: 0 <= j < u ==> c.first[j] < |pCI|
    ensures |us| == u && forall j :: 0 <= j < u ==> us[j] == pCI[c.first[j]]
  {
    seq(u, j requires 0 <= j < u => pCI[c.first[j]])
  }

  /** No fewer metrics would do: any list that has an entry for every character is at least as long. */
  lemma Minimal(pCI: seq<CharInfo>, c: Cells, u: nat, others: seq<CharInfo>)
    requires Unique(pCI, c, |pCI|, u)
    requires forall m :: 0 <= m < |pCI| ==> pCI[m] in others
    ensures u <= |others|
  {
    var us := UniqueMetrics(pCI, c, u);
    DistinctCount(us);
    var own, all := Elements(us), Elements(others);
    assert own <= all;
    assert |own| <= |all| by { SubsetSize(own, all); }
    ElementCount(others);
  }

  ghost function Elements(xs: seq<CharInfo>): set<CharInfo> {
    set x | x in xs
  }

  lemma {:induction false} ElementCount(xs: seq<CharInfo>)
    ensures |Elements(xs)| <= |xs|
  {
    if xs != [] {
      ElementCount(xs[1..]);
      assert Elements(xs) == Elements(xs[1..]) + {xs[0]};
    }
  }

  lemma {:induction false} DistinctCount(xs: seq<CharInfo>)
    requires forall i, j :: 0 <= i < j < |xs| ==> xs[i] != xs[j]
    ensures |Elements(xs)| == |xs|
  {
    if xs != [] {
      DistinctCount(xs[1..]);
      assert Elements(xs) == Elements(xs[1..]) + {xs[0]};
      assert xs[0] !in xs[1..];
    }
  }

  lemma {:induction false} SubsetSize(a: set<CharInfo>, b: set<CharInfo>)
    requires a <= b
    ensures |a| <= |b|
  {
    if a != {} {
      var x :| x in a;
      SubsetSize(a - {x}, b - {x});
    }
  }
}
