/** The metrics part of the QueryFont reply and how a client reads it: decoding gives back the
  metrics of every character, in either byte order.
 */
module BigFontReply {
  import opened BigFont

  function Swap16(w: CARD16): (v: CARD16) {
    (w % 256) * 256 + w / 256
  }

  /** A 16-bit cell as it is sent; a client of the other byte order gets it swapped. */
  function Wire(w: CARD16, swapped: bool): CARD16 {
    if swapped then Swap16(w) else w
  }

  lemma SwapTwice(w: CARD16, swapped: bool)
    ensures Wire(Wire(w, swapped), swapped) == w
  {
    assert w == (w / 256) * 256 + w % 256;
    var v := Swap16(w);
    assert v / 256 == w % 256 && v % 256 == w / 256;
  }

  function ToWord(x: INT16): CARD16 {
    if x < 0 then x + 0x1_0000 else x
  }

  function FromWord(w: CARD16): INT16 {
    if w >= 0x8000 then w - 0x1_0000 else w
  }

  /** The cells of an xCharInfo, in the order of its fields. */
  function Field(p: CharInfo, f: nat): CARD16
    requires f < 6
  {
    if f == 0 then ToWord(p.leftSideBearing)
    else if f == 1 then ToWord(p.rightSideBearing)
    else if f == 2 then ToWord(p.characterWidth)
    else if f == 3 then ToWord(p.ascent)
    else if f == 4 then ToWord(p.descent)
    else p.attributes
  }

  /** The xCharInfo a client reads from six cells. */
  function ReadInfo(buf: seq<CARD16>, at: nat, swapped: bool): CharInfo
    requires at + 6 <= |buf|
  {
    CharInfo(FromWord(Wire(buf[at], swapped)), FromWord(Wire(buf[at + 1], swapped)), FromWord(Wire(buf[at + 2], swapped)),
             FromWord(Wire(buf[at + 3], swapped)), FromWord(Wire(buf[at + 4], swapped)), Wire(buf[at + 5], swapped))
  }

  /** The cells after the font properties: `u` metrics, then an index for each of `n`
    characters, padded to an even number. */
  function ReplyCells(n: nat, u: nat): nat {
    6 * u + (n + 1) / 2 * 2
  }

  /** Character `k` as the client sees it. */
  function Decode(buf: seq<CARD16>, n: nat, u: nat, swapped: bool, k: nat): (p: CharInfo)
    requires |buf| == ReplyCells(n, u) && k < n && Wire(buf[6 * u + k], swapped) < u
  {
    ReadInfo(buf, 6 * Wire(buf[6 * u + k], swapped), swapped)
  }

  lemma ReadsBack(buf: seq<CARD16>, at: nat, swapped: bool, p: CharInfo)
    requires at + 6 <= |buf| && forall f :: 0 <= f < 6 ==> buf[at + f] == Wire(Field(p, f), swapped)
    ensures ReadInfo(buf, at, swapped) == p
  {
    hide Wire;
    assert buf[at + 0] == Wire(Field(p, 0), swapped) && buf[at + 1] == Wire(Field(p, 1), swapped);
    assert buf[at + 2] == Wire(Field(p, 2), swapped) && buf[at + 3] == Wire(Field(p, 3), swapped);
    assert buf[at + 4] == Wire(Field(p, 4), swapped) && buf[at + 5] == Wire(Field(p, 5), swapped);
    SwapTwice(Field(p, 0), swapped);
    SwapTwice(Field(p, 1), swapped);
    SwapTwice(Field(p, 2), swapped);
    SwapTwice(Field(p, 3), swapped);
    SwapTwice(Field(p, 4), swapped);
    SwapTwice(Field(p, 5), swapped);
  }

  method WriteInfo(buf: array<CARD16>, at: nat, p: CharInfo, swapped: bool)
    requires at + 6 <= buf.Length
    modifies buf
    ensures ReadInfo(buf[..], at, swapped) == p
    ensures forall i :: 0 <= i < buf.Length && (i < at || i >= at + 6) ==> buf[i] == old(buf[i])
  {
    hide Wire, ReadInfo;
    var f := 0;
    while f < 6
      invariant 0 <= f <= 6
      invariant forall g :: 0 <= g < f ==> buf[at + g] == Wire(Field(p, g), swapped)
      invariant forall i :: 0 <= i < buf.Length && (i < at || i >= at + 6) ==> buf[i] == old(buf[i])
    {
      buf[at + f] := Wire(Field(p, f), swapped);
      f := f + 1;
    }
    ReadsBack(buf[..], at, swapped, p);
  }

  lemma ReadInfoReads(buf: seq<CARD16>, buf': seq<CARD16>, at: nat, swapped: bool)
    requires at + 6 <= |buf| && |buf'| == |buf| && forall i :: at <= i < at + 6 ==> buf'[i] == buf[i]
    ensures ReadInfo(buf', at, swapped) == ReadInfo(buf, at, swapped)
  {
  }

  /** The first cells of the reply read as the first `i` unique metrics. */
  ghost predicate UniqueWritten(pCI: seq<CharInfo>, c: Cells, i: nat, buf: seq<CARD16>, swapped: bool) {
    i <= |c.first| && 6 * i <= |buf| &&
    forall j :: 0 <= j < i ==> c.first[j] < |pCI| && ReadInfo(buf, 6 * j, swapped) == pCI[c.first[j]]
  }

  lemma UniqueKept(pCI: seq<CharInfo>, c: Cells, i: nat, buf: seq<CARD16>, buf': seq<CARD16>, swapped: bool)
    requires UniqueWritten(pCI, c, i, buf, swapped)
    requires |buf'| == |buf| && forall m :: 0 <= m < 6 * i ==> buf'[m] == buf[m]
    ensures UniqueWritten(pCI, c, i, buf', swapped)
  {
    forall j | 0 <= j < i
      ensures ReadInfo(buf', 6 * j, swapped) == ReadInfo(buf, 6 * j, swapped)
    {
      ReadInfoReads(buf, buf', 6 * j, swapped);
    }
    hide ReadInfo;
  }

  lemma OneMoreWritten(pCI: seq<CharInfo>, c: Cells, i: nat, buf: seq<CARD16>, swapped: bool)
    requires UniqueWritten(pCI, c, i, buf, swapped) && i < |c.first| && 6 * i + 6 <= |buf|
    ensures c.first[i] < |pCI| && ReadInfo(buf, 6 * i, swapped) == pCI[c.first[i]] ==>
      UniqueWritten(pCI, c, i + 1, buf, swapped)
  {
    hide ReadInfo;
  }

  /** Copy the unique metrics to the front of the reply. */
  method WriteUnique(pCI: seq<CharInfo>, t: array<CARD16>, u: nat, buf: array<CARD16>, swapped: bool)
    requires t.Length == 4 * |pCI| + 1 && Unique(pCI, Slices(t[..], |pCI|), |pCI|, u)
    requires buf != t && buf.Length == ReplyCells(|pCI|, u)
    modifies buf
    ensures UniqueWritten(pCI, Slices(t[..], |pCI|), u, buf[..], swapped)
  {
    var n := |pCI|;
    ghost var c := Slices(t[..], n);
    hide Slices, ReadInfo;
    var i := 0;
    while i < u
      invariant 0 <= i <= u && t[..] == old(t[..])
      invariant UniqueWritten(pCI, c, i, buf[..], swapped)
    {
      SliceAt(t[..], n, i);
      ghost var before := buf[..];
      WriteInfo(buf, 6 * i, pCI[t[n + i]], swapped);
      UniqueKept(pCI, c, i, before, buf[..], swapped);
      OneMoreWritten(pCI, c, i, buf[..], swapped);
      hide UniqueWritten;
      i := i + 1;
    }
  }

  /** After the metrics, the index of each character. */
  method WriteIndices(n: nat, t: array<CARD16>, u: nat, buf: array<CARD16>, swapped: bool)
    requires t.Length == 4 * n + 1 && buf != t && buf.Length == ReplyCells(n, u)
    modifies buf
    ensures |Slices(t[..], n).index| == n
    ensures forall m :: 0 <= m < n ==> buf[6 * u + m] == Wire(Slices(t[..], n).index[m], swapped)
    ensures forall m :: 0 <= m < 6 * u ==> buf[m] == old(buf[m])
  {
    ghost var c := Slices(t[..], n);
    hide Slices, Wire;
    SliceAt(t[..], n, 0);
    var k := 0;
    while k < n
      invariant 0 <= k <= n && t[..] == old(t[..])
      invariant forall m :: 0 <= m < 6 * u ==> buf[m] == old(buf[m])
      invariant forall m :: 0 <= m < k ==> buf[6 * u + m] == Wire(c.index[m], swapped)
    {
      SliceAt(t[..], n, k);
      buf[6 * u + k] := Wire(t[k], swapped);
      k := k + 1;
    }
  }

  /** Character `k` decodes to its metrics. */
  ghost predicate DecodesAt(buf: seq<CARD16>, pCI: seq<CharInfo>, u: nat, swapped: bool, k: nat)
    requires |buf| == ReplyCells(|pCI|, u) && k < |pCI|
  {
    Wire(buf[6 * u + k], swapped) < u && Decode(buf, |pCI|, u, swapped, k) == pCI[k]
  }

  /** The reply decodes to the metrics it was made from. */
  ghost predicate DecodesTo(buf: seq<CARD16>, pCI: seq<CharInfo>, u: nat, swapped: bool) {
    |buf| == ReplyCells(|pCI|, u) && forall k :: 0 <= k < |pCI| ==> DecodesAt(buf, pCI, u, swapped, k)
  }

  lemma WrittenDecodes(pCI: seq<CharInfo>, c: Cells, u: nat, buf: seq<CARD16>, swapped: bool)
    requires Unique(pCI, c, |pCI|, u) && UniqueWritten(pCI, c, u, buf, swapped) && |buf| == ReplyCells(|pCI|, u)
    requires forall m :: 0 <= m < |pCI| ==> buf[6 * u + m] == Wire(c.index[m], swapped)
    ensures DecodesTo(buf, pCI, u, swapped)
  {
    forall k | 0 <= k < |pCI|
      ensures DecodesAt(buf, pCI, u, swapped, k)
    {
      OneDecodes(pCI, c, u, buf, swapped, k);
    }
  }

  lemma OneDecodes(pCI: seq<CharInfo>, c: Cells, u: nat, buf: seq<CARD16>, swapped: bool, k: nat)
    requires Unique(pCI, c, |pCI|, u) && UniqueWritten(pCI, c, u, buf, swapped) && |buf| == ReplyCells(|pCI|, u)
    requires k < |pCI| && buf[6 * u + k] == Wire(c.index[k], swapped)
    ensures DecodesAt(buf, pCI, u, swapped, k)
  {
    hide Wire, ReadInfo;
    var j: nat := c.index[k];
    SwapTwice(c.index[k], swapped);
    assert Wire(buf[6 * u + k], swapped) == j && j < u;
    hide ReplyCells;
    assert ReadInfo(buf, 6 * j, swapped) == pCI[c.first[j]];
    assert pCI[c.first[j]] == pCI[k];
  }

  // ---------- The cells themselves ----------

  /** A cell as it is sent: the word, or for a client of the other byte order the word with its bytes exchanged. */
  predicate CellIs(cell: CARD16, word: int, swapped: bool) {
    if swapped then cell / 256 == word % 256 && cell % 256 == word / 256 else cell == word
  }

  /** A signed field in 16 bits. */
  function Unsigned(x: INT16): int {
    if x < 0 then x + 65536 else x
  }

  /** The six cells of a character's metrics, in the order of the structure on the wire. */
  predicate Laid(buf: seq<CARD16>, at: nat, p: CharInfo, swapped: bool)
    requires at + 6 <= |buf|
  {
    && CellIs(buf[at], Unsigned(p.leftSideBearing), swapped) && CellIs(buf[at + 1], Unsigned(p.rightSideBearing), swapped)
    && CellIs(buf[at + 2], Unsigned(p.characterWidth), swapped) && CellIs(buf[at + 3], Unsigned(p.ascent), swapped)
    && CellIs(buf[at + 4], Unsigned(p.descent), swapped) && CellIs(buf[at + 5], p.attributes, swapped)
  }

  lemma WireCell(cell: CARD16, word: CARD16, swapped: bool)
    requires Wire(cell, swapped) == word
    ensures CellIs(cell, word, swapped)
  {
    assert cell == cell / 256 * 256 + cell % 256;
  }

  lemma FromWordCell(w: CARD16, x: INT16)
    requires FromWord(w) == x
    ensures w == Unsigned(x)
  {
  }

  /** What a client reads as `p` are the cells of `p`. */
  lemma ReadIsLaid(buf: seq<CARD16>, at: nat, swapped: bool, p: CharInfo)
    requires at + 6 <= |buf| && ReadInfo(buf, at, swapped) == p
    ensures Laid(buf, at, p, swapped)
  {
    hide CellIs, Wire, FromWord, Unsigned;
    WireCell(buf[at], Wire(buf[at], swapped), swapped);
    WireCell(buf[at + 1], Wire(buf[at + 1], swapped), swapped);
    WireCell(buf[at + 2], Wire(buf[at + 2], swapped), swapped);
    WireCell(buf[at + 3], Wire(buf[at + 3], swapped), swapped);
    WireCell(buf[at + 4], Wire(buf[at + 4], swapped), swapped);
    WireCell(buf[at + 5], Wire(buf[at + 5], swapped), swapped);
    FromWordCell(Wire(buf[at], swapped), p.leftSideBearing);
    FromWordCell(Wire(buf[at + 1], swapped), p.rightSideBearing);
    FromWordCell(Wire(buf[at + 2], swapped), p.characterWidth);
    FromWordCell(Wire(buf[at + 3], swapped), p.ascent);
    FromWordCell(Wire(buf[at + 4], swapped), p.descent);
  }

  /** Character `k` has the number of one of the metrics, and those are its own. */
  ghost predicate LaidAt(buf: seq<CARD16>, pCI: seq<CharInfo>, u: nat, swapped: bool, k: nat)
    requires |buf| == 6 * u + |pCI| + |pCI| % 2 && k < |pCI|
  {
    exists j :: 0 <= j < u && CellIs(buf[6 * u + k], j, swapped) && Laid(buf, 6 * j, pCI[k], swapped)
  }

  /** The reply is `u` metrics of six cells each, and for each character the number of its metrics, padded to an even
    number of those. */
  ghost predicate LaidOut(buf: seq<CARD16>, pCI: seq<CharInfo>, u: nat, swapped: bool) {
    |buf| == 6 * u + |pCI| + |pCI| % 2 && forall k :: 0 <= k < |pCI| ==> LaidAt(buf, pCI, u, swapped, k)
  }

  lemma DecodedLaidOut(buf: seq<CARD16>, pCI: seq<CharInfo>, u: nat, swapped: bool)
    requires DecodesTo(buf, pCI, u, swapped)
    ensures LaidOut(buf, pCI, u, swapped)
  {
    assert |buf| == 6 * u + |pCI| + |pCI| % 2;
    forall k | 0 <= k < |pCI|
      ensures LaidAt(buf, pCI, u, swapped, k)
    {
      OneLaid(buf, pCI, u, swapped, k);
    }
  }

  lemma OneLaid(buf: seq<CARD16>, pCI: seq<CharInfo>, u: nat, swapped: bool, k: nat)
    requires |buf| == ReplyCells(|pCI|, u) == 6 * u + |pCI| + |pCI| % 2 && k < |pCI|
    requires DecodesAt(buf, pCI, u, swapped, k)
    ensures LaidAt(buf, pCI, u, swapped, k)
  {
    hide Wire, ReadInfo, CellIs, Laid;
    var j: nat := Wire(buf[6 * u + k], swapped);
    WireCell(buf[6 * u + k], Wire(buf[6 * u + k], swapped), swapped);
    ReadIsLaid(buf, 6 * j, swapped, pCI[k]);
  }

  /** Serialise the result of RemoveDuplicates; the client gets every character's metrics back. */
  method SerializeMetrics(pCI: seq<CharInfo>, t: array<CARD16>, u: nat, swapped: bool) returns (buf: array<CARD16>)
    requires t.Length == 4 * |pCI| + 1 && Unique(pCI, Slices(t[..], |pCI|), |pCI|, u)
    ensures fresh(buf) && DecodesTo(buf[..], pCI, u, swapped)
  {
    hide Slices, Unique, UniqueWritten, DecodesTo, Wire;
    buf := new CARD16[ReplyCells(|pCI|, u)](_ => 0);
    WriteUnique(pCI, t, u, buf, swapped);
    ghost var before := buf[..];
    WriteIndices(|pCI|, t, u, buf, swapped);
    UniqueKept(pCI, Slices(t[..], |pCI|), u, before, buf[..], swapped);
    WrittenDecodes(pCI, Slices(t[..], |pCI|), u, buf[..], swapped);
  }

  /** Compression followed by serialisation loses nothing, in either byte order. */
  method QueryFontMetrics(pCI: seq<CharInfo>, swapped: bool) returns (buf: array<CARD16>, nUniq: nat)
    requires 0 < |pCI| <= 0x1_0000
    ensures DecodesTo(buf[..], pCI, nUniq, swapped) && LaidOut(buf[..], pCI, nUniq, swapped)
  {
    var t;
    t, nUniq := RemoveDuplicates(pCI);
    buf := SerializeMetrics(pCI, t, nUniq, swapped);
    hide DecodesTo, LaidOut;
    DecodedLaidOut(buf[..], pCI, nUniq, swapped);
  }
}
