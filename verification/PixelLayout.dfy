/** Rows of packed pixels in a byte buffer: where a pixel lies, and what copying a box does. */
module PixelLayout {

  type byte = x: int | 0 <= x < 256

  /** `width` pixels of `bpp` bytes in each of `height` rows of `pitch` bytes. */
  datatype Layout = Layout(width: nat, height: nat, bpp: nat, pitch: nat)
  {
    ghost predicate Valid() {
      bpp > 0 && width * bpp <= pitch
    }

    predicate Has(c: int, r: int) {
      0 <= c < width && 0 <= r < height
    }

    function Size(): nat {
      pitch * height
    }

    /** The first byte of the pixel in column `c` of row `r`. */
    function At(c: nat, r: nat): nat {
      pitch * r + c * bpp
    }
  }

  lemma MulMonotone(a: nat, b: nat, m: nat)
    requires a <= b
    ensures a * m <= b * m
  {
  }

  lemma RowBelow(pitch: nat, r: nat, h: nat)
    requires r < h
    ensures pitch * r + pitch <= pitch * h
  {
    MulMonotone(r + 1, h, pitch);
    assert pitch * (r + 1) == pitch * r + pitch;
  }

  lemma PixelInRow(l: Layout, c: nat, r: nat)
    requires l.Valid() && c < l.width
    ensures l.pitch * r <= l.At(c, r) && l.At(c, r) + l.bpp <= l.pitch * r + l.pitch
  {
    MulMonotone(c + 1, l.width, l.bpp);
    assert (c + 1) * l.bpp == c * l.bpp + l.bpp;
  }

  lemma PixelInBuffer(l: Layout, c: nat, r: nat)
    requires l.Valid() && l.Has(c, r)
    ensures l.At(c, r) + l.bpp <= l.Size()
  {
    PixelInRow(l, c, r);
    RowBelow(l.pitch, r, l.height);
  }

  /** The bytes of one pixel. */
  ghost function Pixel(d: seq<byte>, l: Layout, c: nat, r: nat): seq<byte>
    requires l.Valid() && l.Has(c, r) && |d| >= l.Size()
  {
    PixelInBuffer(l, c, r);
    d[l.At(c, r)..l.At(c, r) + l.bpp]
  }

  /** The bytes of a pixel lie in a stretch of `len` bytes from `at`, or entirely outside it. */
  lemma PixelAgainstRow(l: Layout, row: nat, from: nat, w: nat, c: nat, r: nat)
    requires l.Valid() && c < l.width && from + w <= l.width
    ensures r == row && from <= c < from + w ==>
      l.At(from, row) <= l.At(c, r) && l.At(c, r) + l.bpp <= l.At(from, row) + w * l.bpp
    ensures r == row && from <= c < from + w ==> l.At(c, r) - l.At(from, row) == (c - from) * l.bpp
    ensures !(r == row && from <= c < from + w) ==>
      l.At(c, r) + l.bpp <= l.At(from, row) || l.At(from, row) + w * l.bpp <= l.At(c, r)
  {
    if r == row {
      if c < from {
        MulMonotone(c + 1, from, l.bpp);
        assert (c + 1) * l.bpp == c * l.bpp + l.bpp;
      } else if c < from + w {
        assert (c - from) * l.bpp == c * l.bpp - from * l.bpp;
        MulMonotone(c - from + 1, w, l.bpp);
        assert (c - from + 1) * l.bpp == (c - from) * l.bpp + l.bpp;
      } else {
        MulMonotone(from + w, c, l.bpp);
        assert (from + w) * l.bpp == from * l.bpp + w * l.bpp;
      }
    } else {
      PixelInRow(l, c, r);
      StretchInRow(l, row, from, w);
      if r < row { RowBelow(l.pitch, r, row); } else { RowBelow(l.pitch, row, r); }
    }
  }

  lemma StretchInRow(l: Layout, row: nat, from: nat, w: nat)
    requires l.Valid() && from + w <= l.width
    ensures l.pitch * row <= l.At(from, row) && l.At(from, row) + w * l.bpp <= l.pitch * row + l.pitch
  {
    MulMonotone(from + w, l.width, l.bpp);
    assert (from + w) * l.bpp == from * l.bpp + w * l.bpp;
  }

  /** memcpy between two buffers. */
  method CopyBytes(data: array<byte>, at: nat, src: array<byte>, from: nat, len: nat)
    requires data != src && at + len <= data.Length && from + len <= src.Length
    modifies data
    ensures data[at..at + len] == src[from..from + len]
    ensures data[..at] == old(data[..at]) && data[at + len..] == old(data[at + len..])
  {
    var i := 0;
    while i < len
      invariant 0 <= i <= len
      invariant forall k :: at <= k < at + i ==> data[k] == src[from + (k - at)]
      invariant forall k :: 0 <= k < data.Length && (k < at || k >= at + i) ==> data[k] == old(data[k])
    {
      data[at + i] := src[from + i];
      i := i + 1;
    }
  }

  predicate InBox(c: int, r: int, x: int, y: int, w: int, h: int) {
    x <= c < x + w && y <= r < y + h
  }

  /** After one row of `w` pixels was copied to (x, row), from row `j` of the source. */
  lemma RowCopied(before: seq<byte>, after: seq<byte>, l: Layout, x: nat, row: nat, w: nat,
                  src: seq<byte>, sl: Layout, j: nat, c: nat, r: nat)
    requires l.Valid() && sl.Valid() && sl.bpp == l.bpp && sl.width == w && j < sl.height
    requires x + w <= l.width && row < l.height
    requires |before| == |after| >= l.Size() && |src| >= sl.Size()
    requires var at, len := l.At(x, row), w * l.bpp;
      && at + len <= |after| && sl.At(0, j) + len <= |src|
      && after[at..at + len] == src[sl.At(0, j)..sl.At(0, j) + len]
      && after[..at] == before[..at] && after[at + len..] == before[at + len..]
    requires l.Has(c, r)
    ensures InBox(c, r, x, row, w, 1) ==> sl.Has(c - x, j) && Pixel(after, l, c, r) == Pixel(src, sl, c - x, j)
    ensures !InBox(c, r, x, row, w, 1) ==> Pixel(after, l, c, r) == Pixel(before, l, c, r)
  {
    var at, len := l.At(x, row), w * l.bpp;
    PixelInBuffer(l, c, r);
    PixelAgainstRow(l, row, x, w, c, r);
    var p := l.At(c, r);
    if InBox(c, r, x, row, w, 1) {
      PixelInBuffer(sl, c - x, j);
      CopiedSlice(after, src, at, sl.At(0, j), len, p, l.bpp);
    } else {
      OutsideSlice(after, before, at, len, p, l.bpp);
    }
  }

  lemma SliceOfSlice(a: seq<byte>, at: nat, len: nat, q: nat, n: nat)
    requires at + len <= |a| && q + n <= len
    ensures a[at + q..at + q + n] == a[at..at + len][q..q + n]
  {
    var u, v := a[at + q..at + q + n], a[at..at + len][q..q + n];
    forall k | 0 <= k < |u|
      ensures u[k] == v[k]
    {
      assert u[k] == a[at + q + k] && v[k] == a[at..at + len][q + k];
    }
  }

  lemma CopiedSlice(a: seq<byte>, b: seq<byte>, at: nat, from: nat, len: nat, p: nat, n: nat)
    requires at + len <= |a| && from + len <= |b| && a[at..at + len] == b[from..from + len]
    requires at <= p && p + n <= at + len
    ensures a[p..p + n] == b[from + (p - at)..from + (p - at) + n]
  {
    var q := p - at;
    SliceOfSlice(a, at, len, q, n);
    SliceOfSlice(b, from, len, q, n);
  }

  lemma OutsideSlice(a: seq<byte>, b: seq<byte>, at: nat, len: nat, p: nat, n: nat)
    requires |a| == |b| && at + len <= |a| && a[..at] == b[..at] && a[at + len..] == b[at + len..]
    requires p + n <= at || at + len <= p
    requires p + n <= |a|
    ensures a[p..p + n] == b[p..p + n]
  {
    if p + n <= at {
      assert a[p..p + n] == a[..at][p..p + n] && b[p..p + n] == b[..at][p..p + n];
    } else {
      var q := p - (at + len);
      assert a[p..p + n] == a[at + len..][q..q + n] && b[p..p + n] == b[at + len..][q..q + n];
    }
  }

  /** The box has the pixels of `src`, everything else those of `before`. */
  ghost predicate Pasted(after: seq<byte>, before: seq<byte>, l: Layout, x: nat, y: nat, w: nat, h: nat,
                         src: seq<byte>, sl: Layout)
    requires l.Valid() && sl.Valid() && sl.width == w && h <= sl.height
    requires |after| >= l.Size() && |before| >= l.Size() && |src| >= sl.Size()
  {
    forall c, r :: l.Has(c, r) ==>
      Pixel(after, l, c, r) == if InBox(c, r, x, y, w, h) then Pixel(src, sl, c - x, r - y) else Pixel(before, l, c, r)
  }

  lemma PasteRow(after: seq<byte>, middle: seq<byte>, before: seq<byte>, l: Layout, x: nat, y: nat, w: nat, j: nat,
                 src: seq<byte>, sl: Layout)
    requires l.Valid() && sl.Valid() && sl.bpp == l.bpp && sl.width == w && j < sl.height
    requires x + w <= l.width && y + j < l.height
    requires |before| == |middle| == |after| >= l.Size() && |src| >= sl.Size()
    requires Pasted(middle, before, l, x, y, w, j, src, sl)
    requires var at, len := l.At(x, y + j), w * l.bpp;
      && at + len <= |after| && sl.At(0, j) + len <= |src|
      && after[at..at + len] == src[sl.At(0, j)..sl.At(0, j) + len]
      && after[..at] == middle[..at] && after[at + len..] == middle[at + len..]
    ensures Pasted(after, before, l, x, y, w, j + 1, src, sl)
  {
    forall c, r | l.Has(c, r)
      ensures Pixel(after, l, c, r)
        == if InBox(c, r, x, y, w, j + 1) then Pixel(src, sl, c - x, r - y) else Pixel(before, l, c, r)
    {
      RowCopied(middle, after, l, x, y + j, w, src, sl, j, c, r);
    }
  }

  /** Copy a box of pixels row by row into `data`. */
  method CopyBox(data: array<byte>, l: Layout, x: nat, y: nat, src: array<byte>, sl: Layout)
    requires l.Valid() && sl.Valid() && sl.bpp == l.bpp && data != src
    requires data.Length >= l.Size() && src.Length >= sl.Size()
    requires x + sl.width <= l.width && y + sl.height <= l.height
    modifies data
    ensures Pasted(data[..], old(data[..]), l, x, y, sl.width, sl.height, src[..], sl)
  {
    var j := 0;
    while j < sl.height
      invariant 0 <= j <= sl.height && src[..] == old(src[..])
      invariant Pasted(data[..], old(data[..]), l, x, y, sl.width, j, src[..], sl)
    {
      StretchInRow(l, y + j, x, sl.width);
      RowBelow(l.pitch, y + j, l.height);
      StretchInRow(sl, j, 0, sl.width);
      RowBelow(sl.pitch, j, sl.height);
      ghost var middle := data[..];
      hide Pasted;
      CopyBytes(data, l.At(x, y + j), src, sl.At(0, j), sl.width * l.bpp);
      PasteRow(data[..], middle, old(data[..]), l, x, y, sl.width, j, src[..], sl);
      j := j + 1;
    }
  }
}
