/** The GetImage reply, fetched and written a buffer at a time (Xext/panoramiXprocs.c). */
module ImageReply {
  import opened PixelLayout
  import opened XineramaImage
  import ValueLists

  const IMAGE_BUFSIZE: nat := 256 * 1024

  /** How many lines are fetched at a time: none when there is nothing to send. */
  function LinesPerBuffer(bytesPerLine: nat, h: nat): (n: nat)
    ensures n == 0 <==> bytesPerLine == 0 || h == 0
    ensures n <= h
    ensures n > 1 ==> n * bytesPerLine <= IMAGE_BUFSIZE
  {
    if bytesPerLine == 0 || h == 0 then 0
    else if bytesPerLine >= IMAGE_BUFSIZE then 1
    else
      assert IMAGE_BUFSIZE / bytesPerLine > 0 && IMAGE_BUFSIZE / bytesPerLine * bytesPerLine <= IMAGE_BUFSIZE;
      if IMAGE_BUFSIZE / bytesPerLine > h then h else IMAGE_BUFSIZE / bytesPerLine
  }

  /** As many as fit 256 kilobytes, and one at least. */
  lemma BufferFilled(bytesPerLine: nat, h: nat)
    requires bytesPerLine > 0 && h > 0
    ensures var n := LinesPerBuffer(bytesPerLine, h);
      && (n > 1 ==> n * bytesPerLine <= 0x4_0000)
      && (n < h ==> (n + 1) * bytesPerLine > 0x4_0000)
  {
    var q := IMAGE_BUFSIZE / bytesPerLine;
    assert IMAGE_BUFSIZE < (q + 1) * bytesPerLine == q * bytesPerLine + bytesPerLine;
    if bytesPerLine >= IMAGE_BUFSIZE { assert (1 + 1) * bytesPerLine == bytesPerLine + bytesPerLine; }
  }

  // ---- ZPixmap ----

  /** `out` is `lines` padded lines of the image from (x1, y1), right wherever a screen shows the point. */
  ghost predicate ShowsLines(out: seq<byte>, w: nat, lines: nat, bpp: nat, x1: int, y1: int, image: Image,
                             screens: seq<Screen>)
    requires 1 <= bpp <= 4
  {
    var l := Padded(w, lines, bpp);
    && |out| == l.Size()
    && forall c, r :: l.Has(c, r) && (x1 + c, y1 + r) in Shown(screens) ==> Pixel(out, l, c, r) == image(x1 + c, y1 + r)
  }

  lemma MoreLines(out: seq<byte>, chunk: seq<byte>, before: seq<byte>, w: nat, done: nat, n: nat, bpp: nat, x1: int,
                  y1: int, image: Image, screens: seq<Screen>)
    requires 1 <= bpp <= 4
    requires ShowsLines(out, w, done, bpp, x1, y1, image, screens)
    requires var l := Padded(w, n, bpp);
      |chunk| >= l.Size() && |before| >= l.Size() && Painted(chunk, before, l, x1, y1 + done, image, Shown(screens))
    ensures Padded(w, n, bpp).Size() <= |chunk|
    ensures ShowsLines(out + chunk[..Padded(w, n, bpp).Size()], w, done + n, bpp, x1, y1, image, screens)
  {
    hide Shown, BytePad;
    var l, first, all := Padded(w, n, bpp), Padded(w, done, bpp), Padded(w, done + n, bpp);
    assert l.pitch == first.pitch == all.pitch;
    assert l.pitch * done + l.pitch * n == l.pitch * (done + n);
    var more := out + chunk[..l.Size()];
    forall c, r | all.Has(c, r) && (x1 + c, y1 + r) in Shown(screens)
      ensures Pixel(more, all, c, r) == image(x1 + c, y1 + r)
    {
      if r < done {
        PixelInBuffer(first, c, r);
        assert Pixel(more, all, c, r) == Pixel(out, first, c, r);
      } else {
        PixelInBuffer(l, c, r - done);
        assert all.At(c, r) == |out| + l.At(c, r - done) by {
          assert l.pitch * r == l.pitch * done + l.pitch * (r - done);
        }
        assert Pixel(more, all, c, r) == Pixel(chunk, l, c, r - done);
      }
    }
  }

  /**
   * The ZPixmap reply: its announced length in words, and the bytes written after it. They are the lines of the
   * whole image in order, each pixel right wherever a screen shows its point.
   */
  method GetZPixmap(screens: seq<Screen>, x: int, y: int, w: nat, h: nat, bpp: nat, image: Image, isRoot: bool,
                    ops: RegionOps)
    returns (length: nat, out: seq<byte>)
    requires |screens| > 0 && ops.Sound() && 1 <= bpp <= 4 && PixelsOf(image, bpp)
    ensures |out| == 4 * length
    ensures var x1 := x + if isRoot then 0 else screens[0].box.x1 + screens[0].drawX;
      var y1 := y + if isRoot then 0 else screens[0].box.y1 + screens[0].drawY;
      ShowsLines(out, w, h, bpp, x1, y1, image, screens)
  {
    hide ShowsLines, BytePad, Painted, Shown;
    ghost var src := SourceBox(screens, x, y, w, h, isRoot);
    BytePadHoldsLine(w, bpp);
    var pitch := BytePad(w, bpp);
    length := (pitch * h + 3) / 4;
    WholeWords(pitch, h);
    var perBuffer := LinesPerBuffer(pitch, h);
    if perBuffer == 0 {
      NothingShown(w, h, bpp, pitch, src.x1, src.y1, image, screens);
      out := [];
    } else {
      out := WriteLines(screens, x, y, w, h, bpp, image, isRoot, ops, pitch, perBuffer);
    }
    LinesSize(out, w, h, bpp, src.x1, src.y1, image, screens);
  }

  method WriteLines(screens: seq<Screen>, x: int, y: int, w: nat, h: nat, bpp: nat, image: Image, isRoot: bool,
                    ops: RegionOps, pitch: nat, perBuffer: nat)
    returns (out: seq<byte>)
    requires |screens| > 0 && ops.Sound() && 1 <= bpp <= 4 && PixelsOf(image, bpp)
    requires w > 0 && pitch == BytePad(w, bpp) && perBuffer > 0
    ensures var src := SourceBox(screens, x, y, w, h, isRoot);
      ShowsLines(out, w, h, bpp, src.x1, src.y1, image, screens)
  {
    hide ShowsLines, BytePad, Painted, Shown;
    var buffer := new byte[perBuffer * pitch];
    ghost var src := SourceBox(screens, x, y, w, h, isRoot);
    out := [];
    NothingShown(w, h, bpp, pitch, src.x1, src.y1, image, screens);
    var done: nat := 0;
    while done < h
      invariant done <= h && fresh(buffer)
      invariant ShowsLines(out, w, done, bpp, src.x1, src.y1, image, screens)
    {
      var n: nat := if perBuffer < h - done then perBuffer else h - done;
      MulMonotone(n, perBuffer, pitch);
      ghost var before := buffer[..];
      GetImageData(screens, x, y + done, w, n, bpp, image, buffer, pitch, isRoot, ops);
      MoreLines(out, buffer[..], before, w, done, n, bpp, src.x1, src.y1, image, screens);
      out := out + buffer[..n * pitch];
      done := done + n;
    }
  }

  lemma NothingShown(w: nat, h: nat, bpp: nat, pitch: nat, x1: int, y1: int, image: Image, screens: seq<Screen>)
    requires 1 <= bpp <= 4 && pitch == BytePad(w, bpp)
    ensures ShowsLines([], w, 0, bpp, x1, y1, image, screens)
    ensures pitch == 0 || h == 0 ==> ShowsLines([], w, h, bpp, x1, y1, image, screens)
  {
    BytePadHoldsLine(w, bpp);
    if pitch == 0 || h == 0 {
      assert w == 0 || h == 0;
      assert Padded(w, h, bpp).Size() == 0;
    }
  }

  lemma LinesSize(out: seq<byte>, w: nat, h: nat, bpp: nat, x1: int, y1: int, image: Image, screens: seq<Screen>)
    requires 1 <= bpp <= 4 && ShowsLines(out, w, h, bpp, x1, y1, image, screens)
    ensures |out| == BytePad(w, bpp) * h
  {
  }

  lemma WholeWords(pitch: nat, h: nat)
    requires pitch % 4 == 0
    ensures 4 * ((pitch * h + 3) / 4) == pitch * h
  {
    assert pitch == 4 * (pitch / 4);
    assert pitch * h == 4 * (pitch / 4 * h);
  }

  lemma PlaneWords(pitch: nat, h: nat, planes: nat)
    requires pitch % 4 == 0
    ensures 4 * ((pitch * h * planes + 3) / 4) == h * planes * pitch
    ensures h == 0 ==> h * planes == 0
  {
    calc {
      pitch * h * planes;
      pitch * (h * planes);
      h * planes * pitch;
    }
    WholeWords(pitch, h * planes);
  }

  // ---- XYPixmap ----

  /** One call for `lines` lines of a plane from line `from`; that many lines are written. */
  datatype Fetch = Fetch(plane: nat, from: nat, lines: nat)

  /** Each line of each plane fetched, in the order written. */
  function Fetched(fetches: seq<Fetch>): seq<(nat, nat)> {
    if fetches == [] then []
    else
      var f := fetches[|fetches| - 1];
      Fetched(fetches[..|fetches| - 1]) + LinesOf(f.plane, f.from, f.lines)
  }

  function LinesOf(plane: nat, from: nat, n: nat): (s: seq<(nat, nat)>)
    ensures |s| == n
  {
    seq(n, i requires 0 <= i < n => (plane, from + i))
  }

  /** The lines of the planes asked for, of those below `depth`, highest plane first. */
  function Wanted(planeMask: nat, depth: nat, h: nat): seq<(nat, nat)> {
    if depth == 0 then []
    else
      (if ValueLists.Has(planeMask, depth - 1) then LinesOf(depth - 1, 0, h) else [])
      + Wanted(planeMask, depth - 1, h)
  }

  lemma {:induction false} OnesBelow(mask: nat, d: nat)
    requires d > 0
    ensures ValueLists.Ones(ValueLists.Below(mask, d))
         == ValueLists.Ones(ValueLists.Below(mask, d - 1)) + if ValueLists.Has(mask, d - 1) then 1 else 0
  {
    ValueLists.OffsetStep(mask, d);
    if d > 1 {
      ValueLists.OffsetStep(mask, d - 1);
      OnesBelow(mask / 2, d - 1);
    }
  }

  lemma Distributes(h: nat, n: nat)
    ensures h * (n + 1) == h * n + h
  {
  }

  /** As many lines are wanted as the reply's length is computed for. */
  lemma {:induction false} WantedCount(planeMask: nat, depth: nat, h: nat)
    ensures |Wanted(planeMask, depth, h)| == h * ValueLists.Ones(ValueLists.Below(planeMask, depth))
  {
    if depth > 0 {
      WantedCount(planeMask, depth - 1, h);
      OnesBelow(planeMask, depth);
      Distributes(h, ValueLists.Ones(ValueLists.Below(planeMask, depth - 1)));
    }
  }

  /** The line of the plane comes before the other: a higher plane first, and in a plane the upper line. */
  predicate Precedes(a: (nat, nat), b: (nat, nat)) {
    a.0 > b.0 || (a.0 == b.0 && a.1 < b.1)
  }

  /** Just the lines of the planes of the mask are wanted, each once, in that order. */
  lemma {:induction false} WantedExactly(planeMask: nat, depth: nat, h: nat)
    ensures var wanted := Wanted(planeMask, depth, h);
      && (forall p: nat, r: nat :: (p, r) in wanted <==> p < depth && ValueLists.Has(planeMask, p) && r < h)
      && (forall i, j :: 0 <= i < j < |wanted| ==> Precedes(wanted[i], wanted[j]))
  {
    if depth > 0 {
      WantedExactly(planeMask, depth - 1, h);
      var rest, wanted := Wanted(planeMask, depth - 1, h), Wanted(planeMask, depth, h);
      var first := if ValueLists.Has(planeMask, depth - 1) then LinesOf(depth - 1, 0, h) else [];
      hide ValueLists.Has, Wanted;
      assert wanted == first + rest;
      forall p: nat, r: nat
        ensures (p, r) in first <==> p == depth - 1 && ValueLists.Has(planeMask, p) && r < h
      {
        if ValueLists.Has(planeMask, p) && p == depth - 1 && r < h { assert first[r] == (p, r); }
      }
      forall i, j | 0 <= i < j < |wanted|
        ensures Precedes(wanted[i], wanted[j])
      {
        if i < |first| <= j { assert wanted[j] in rest && wanted[j] == (wanted[j].0, wanted[j].1); }
      }
    }
  }

  /** BitmapBytePad: a line of single bits, padded to 32. */
  function BitmapPad(w: nat): (n: nat)
    ensures n % 4 == 0 && w <= 8 * n < w + 32
  {
    (w + 31) / 32 * 4
  }

  /** Every call fetches as many lines as the buffer holds, or as are left. */
  predicate FillBuffer(fetches: seq<Fetch>, perBuffer: nat, h: nat) {
    forall k :: 0 <= k < |fetches| ==>
      var left := h - fetches[k].from;
      0 < fetches[k].lines == if left < perBuffer then left else perBuffer
  }

  /** One plane, a buffer at a time. */
  method FetchPlane(plane: nat, h: nat, perBuffer: nat, fetches: seq<Fetch>) returns (fetches': seq<Fetch>)
    requires perBuffer > 0 && FillBuffer(fetches, perBuffer, h)
    ensures Fetched(fetches') == Fetched(fetches) + LinesOf(plane, 0, h)
    ensures FillBuffer(fetches', perBuffer, h)
  {
    fetches' := fetches;
    var done: nat := 0;
    while done < h
      invariant done <= h && FillBuffer(fetches', perBuffer, h)
      invariant Fetched(fetches') == Fetched(fetches) + LinesOf(plane, 0, done)
    {
      var n: nat := if perBuffer < h - done then perBuffer else h - done;
      assert LinesOf(plane, 0, done + n) == LinesOf(plane, 0, done) + LinesOf(plane, done, n);
      assert (fetches' + [Fetch(plane, done, n)])[..|fetches'|] == fetches';
      fetches' := fetches' + [Fetch(plane, done, n)];
      done := done + n;
    }
  }

  /**
   * The XYPixmap reply: the announced length in words, and the fetches. Every line of every plane asked for is
   * fetched once, in order, and the bytes written are those announced.
   */
  method GetXYPixmap(depth: nat, planeMask: nat, w: nat, h: nat) returns (length: nat, fetches: seq<Fetch>)
    ensures w > 0 ==> Fetched(fetches) == Wanted(planeMask, depth, h)
    ensures |Fetched(fetches)| * BitmapPad(w) == 4 * length
    ensures FillBuffer(fetches, LinesPerBuffer(BitmapPad(w), h), h)
  {
    var pitch := BitmapPad(w);
    var planes := ValueLists.Ones(ValueLists.Below(planeMask, depth));
    length := (pitch * h * planes + 3) / 4;
    WantedCount(planeMask, depth, h);
    hide ValueLists.Ones, ValueLists.Below, BitmapPad;
    PlaneWords(pitch, h, planes);
    var perBuffer := LinesPerBuffer(pitch, h);
    fetches := [];
    if perBuffer == 0 {
      return;
    }
    var plane: nat := depth;
    while plane > 0
      invariant plane <= depth && FillBuffer(fetches, perBuffer, h)
      invariant Fetched(fetches) + Wanted(planeMask, plane, h) == Wanted(planeMask, depth, h)
    {
      plane := plane - 1;
      if ValueLists.Has(planeMask, plane) {
        ghost var before := fetches;
        fetches := FetchPlane(plane, h, perBuffer, fetches);
        assert Fetched(before) + (LinesOf(plane, 0, h) + Wanted(planeMask, plane, h))
            == Fetched(fetches) + Wanted(planeMask, plane, h);
      }
    }
    assert Fetched(fetches) == Wanted(planeMask, depth, h);
  }
}
