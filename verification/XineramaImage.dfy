/** Assembling one logical image from the screens that show parts of it (Xext/panoramiX.c). */
module XineramaImage {
  import opened PixelLayout

  /** A box of points, the second corner excluded. */
  datatype Box = Box(x1: int, y1: int, x2: int, y2: int)
  {
    predicate NonEmpty() {
      x1 < x2 && y1 < y2
    }

    predicate In(x: int, y: int) {
      x1 <= x < x2 && y1 <= y < y2
    }

    predicate Holds(other: Box) {
      x1 <= other.x1 && other.x2 <= x2 && y1 <= other.y1 && other.y2 <= y2
    }

    predicate Meets(other: Box) {
      x1 < other.x2 && other.x1 < x2 && y1 < other.y2 && other.y1 < y2
    }

    ghost function Points(): iset<(int, int)> {
      iset x: int, y: int | In(x, y) :: (x, y)
    }
  }

  ghost function Points(region: seq<Box>): iset<(int, int)> {
    iset x: int, y: int | (exists k :: 0 <= k < |region| && region[k].In(x, y)) :: (x, y)
  }

  predicate AllNonEmpty(region: seq<Box>) {
    forall k :: 0 <= k < |region| ==> region[k].NonEmpty()
  }

  /** The region library, known by what it does to point sets. */
  datatype RegionOps = RegionOps(intersect: (seq<Box>, Box) -> seq<Box>, subtract: (seq<Box>, seq<Box>) -> seq<Box>)
  {
    ghost predicate Sound() {
      && (forall a, b :: Points(intersect(a, b)) == Points(a) * b.Points() && AllNonEmpty(intersect(a, b)))
      && (forall a, b :: Points(subtract(a, b)) == Points(a) - Points(b))
    }
  }

  datatype Overlap = Out | In | Part

  /** RegionContainsRect for a region that is one box. */
  function ContainsRect(screen: Box, box: Box): Overlap {
    if !screen.Meets(box) then Out else if screen.Holds(box) then In else Part
  }

  /** A screen's place in the logical space, and the drawable's origin on that screen. */
  datatype Screen = Screen(box: Box, drawX: int, drawY: int)

  /** The colour of every logical point, as the bytes of a pixel. */
  type Image = (int, int) -> seq<byte>

  ghost predicate PixelsOf(image: Image, bpp: nat) {
    forall x, y :: |image(x, y)| == bpp
  }

  /** Bytes per padded scanline: lines are padded to 32 bits. */
  function BytePad(w: nat, bpp: nat): nat
    requires 1 <= bpp <= 4
  {
    if bpp == 3 then (w * 3 + 3) / 4 * 4 else (w + (4 / bpp - 1)) / (4 / bpp) * 4
  }

  lemma BytePadHoldsLine(w: nat, bpp: nat)
    requires 1 <= bpp <= 4
    ensures w * bpp <= BytePad(w, bpp) < w * bpp + 4 && BytePad(w, bpp) % 4 == 0
  {
  }

  /** An image whose lines have the padded length. */
  function Padded(w: nat, h: nat, bpp: nat): (l: Layout)
    requires 1 <= bpp <= 4
    ensures l.Valid()
  {
    BytePadHoldsLine(w, bpp);
    Layout(w, h, bpp, BytePad(w, bpp))
  }

  /** The pixels in `done` are the image's, the rest those of `before`; (x1, y1) is the first pixel's point. */
  ghost predicate Painted(d: seq<byte>, before: seq<byte>, l: Layout, x1: int, y1: int, image: Image,
                          done: iset<(int, int)>)
    requires l.Valid() && |d| >= l.Size() && |before| >= l.Size()
  {
    forall c, r :: l.Has(c, r) ==>
      Pixel(d, l, c, r) == if (x1 + c, y1 + r) in done then image(x1 + c, y1 + r) else Pixel(before, l, c, r)
  }

  lemma NothingPainted(d: seq<byte>, l: Layout, x1: int, y1: int, image: Image)
    requires l.Valid() && |d| >= l.Size()
    ensures Painted(d, d, l, x1, y1, image, iset{})
  {
  }

  // ---- One screen's GetImage ----

  method PutPixel(dst: array<byte>, at: nat, pixel: seq<byte>)
    requires at + |pixel| <= dst.Length
    modifies dst
    ensures dst[at..at + |pixel|] == pixel
    ensures dst[..at] == old(dst[..at]) && dst[at + |pixel|..] == old(dst[at + |pixel|..])
  {
    var i := 0;
    while i < |pixel|
      invariant 0 <= i <= |pixel|
      invariant forall k :: at <= k < at + i ==> dst[k] == pixel[k - at]
      invariant forall k :: 0 <= k < dst.Length && (k < at || k >= at + i) ==> dst[k] == old(dst[k])
    {
      dst[at + i] := pixel[i];
      i := i + 1;
    }
  }

  /** The points of the rows above `r`, and of row `r` before column `c`. */
  ghost function Scanned(x1: int, y1: int, w: nat, c: nat, r: nat): iset<(int, int)> {
    iset x: int, y: int | x1 <= x < x1 + w && (y1 <= y < y1 + r || (y == y1 + r && x < x1 + c)) :: (x, y)
  }

  lemma PixelPut(after: seq<byte>, middle: seq<byte>, before: seq<byte>, l: Layout, x1: int, y1: int, image: Image,
                 c: nat, r: nat)
    requires l.Valid() && l.Has(c, r) && PixelsOf(image, l.bpp)
    requires |after| == |middle| == |before| >= l.Size()
    requires Painted(middle, before, l, x1, y1, image, Scanned(x1, y1, l.width, c, r))
    requires var at := l.At(c, r);
      && at + l.bpp <= |after| && after[at..at + l.bpp] == image(x1 + c, y1 + r)
      && after[..at] == middle[..at] && after[at + l.bpp..] == middle[at + l.bpp..]
    ensures Painted(after, before, l, x1, y1, image, Scanned(x1, y1, l.width, c + 1, r))
  {
    var at := l.At(c, r);
    forall c', r' | l.Has(c', r')
      ensures Pixel(after, l, c', r') == if (x1 + c', y1 + r') in Scanned(x1, y1, l.width, c + 1, r)
        then image(x1 + c', y1 + r') else Pixel(before, l, c', r')
    {
      PixelInBuffer(l, c', r');
      if c' != c || r' != r {
        PixelAgainstRow(l, r, c, 1, c', r');
        OutsideSlice(after, middle, at, l.bpp, l.At(c', r'), l.bpp);
      }
    }
  }

  lemma SamePoints(d: seq<byte>, before: seq<byte>, l: Layout, x1: int, y1: int, image: Image,
                   done: iset<(int, int)>, done': iset<(int, int)>)
    requires l.Valid() && |d| >= l.Size() && |before| >= l.Size()
    requires Painted(d, before, l, x1, y1, image, done)
    requires forall c, r :: l.Has(c, r) ==> ((x1 + c, y1 + r) in done <==> (x1 + c, y1 + r) in done')
    ensures Painted(d, before, l, x1, y1, image, done')
  {
  }

  /**
   * A driver's GetImage: `w` by `h` pixels from (x, y) of the drawable, in lines padded to 32 bits. What the
   * screen shows at a logical point is the image's pixel there; only points of the screen may be asked for.
   */
  method GetImage(screen: Screen, x: int, y: int, image: Image, dst: array<byte>, l: Layout)
    requires l.Valid() && dst.Length >= l.Size() && PixelsOf(image, l.bpp)
    requires var x1, y1 := screen.box.x1 + screen.drawX + x, screen.box.y1 + screen.drawY + y;
      screen.box.Holds(Box(x1, y1, x1 + l.width, y1 + l.height))
    modifies dst
    ensures var x1, y1 := screen.box.x1 + screen.drawX + x, screen.box.y1 + screen.drawY + y;
      Painted(dst[..], old(dst[..]), l, x1, y1, image, Box(x1, y1, x1 + l.width, y1 + l.height).Points())
  {
    var x1, y1 := screen.box.x1 + screen.drawX + x, screen.box.y1 + screen.drawY + y;
    var r := 0;
    while r < l.height
      invariant 0 <= r <= l.height
      invariant Painted(dst[..], old(dst[..]), l, x1, y1, image, Scanned(x1, y1, l.width, 0, r))
    {
      var c := 0;
      while c < l.width
        invariant 0 <= c <= l.width
        invariant Painted(dst[..], old(dst[..]), l, x1, y1, image, Scanned(x1, y1, l.width, c, r))
      {
        PixelInBuffer(l, c, r);
        ghost var middle := dst[..];
        hide Painted;
        PutPixel(dst, l.At(c, r), image(x1 + c, y1 + r));
        PixelPut(dst[..], middle, old(dst[..]), l, x1, y1, image, c, r);
        c := c + 1;
      }
      SamePoints(dst[..], old(dst[..]), l, x1, y1, image,
                 Scanned(x1, y1, l.width, l.width, r), Scanned(x1, y1, l.width, 0, r + 1));
      r := r + 1;
    }
    SamePoints(dst[..], old(dst[..]), l, x1, y1, image, Scanned(x1, y1, l.width, 0, l.height),
               Box(x1, y1, x1 + l.width, y1 + l.height).Points());
  }

  // ---- One screen's boxes ----

  lemma BoxPasted(after: seq<byte>, middle: seq<byte>, before: seq<byte>, l: Layout, src: Box, box: Box, image: Image,
                  scratch: seq<byte>, scratch0: seq<byte>, sl: Layout, done: iset<(int, int)>)
    requires l.Valid() && sl.Valid() && src.Holds(box) && box.NonEmpty()
    requires sl.width == box.x2 - box.x1 && sl.height == box.y2 - box.y1
    requires |after| >= l.Size() && |middle| >= l.Size() && |before| >= l.Size()
    requires |scratch| >= sl.Size() && |scratch0| >= sl.Size()
    requires Painted(scratch, scratch0, sl, box.x1, box.y1, image, box.Points())
    requires Pasted(after, middle, l, box.x1 - src.x1, box.y1 - src.y1, sl.width, sl.height, scratch, sl)
    requires Painted(middle, before, l, src.x1, src.y1, image, done)
    ensures Painted(after, before, l, src.x1, src.y1, image, done + box.Points())
  {
    forall c, r | l.Has(c, r)
      ensures Pixel(after, l, c, r) == if (src.x1 + c, src.y1 + r) in done + box.Points()
        then image(src.x1 + c, src.y1 + r) else Pixel(before, l, c, r)
    {
      var x, y := box.x1 - src.x1, box.y1 - src.y1;
      if InBox(c, r, x, y, sl.width, sl.height) {
        assert sl.Has(c - x, r - y);
      }
    }
  }

  /** Fetch one box of the screen into scratch memory, made larger when needed. */
  method FetchBox(screen: Screen, box: Box, image: Image, bpp: nat, scratch: array<byte>)
    returns (scratch': array<byte>, ghost unset: seq<byte>)
    requires 1 <= bpp <= 4 && PixelsOf(image, bpp) && box.NonEmpty() && screen.box.Holds(box)
    modifies scratch
    ensures scratch' == scratch || fresh(scratch')
    ensures var sl := Padded(box.x2 - box.x1, box.y2 - box.y1, bpp);
      |unset| == scratch'.Length >= sl.Size()
      && Painted(scratch'[..], unset, sl, box.x1, box.y1, image, box.Points())
  {
    hide BytePad, Painted;
    var sl := Padded(box.x2 - box.x1, box.y2 - box.y1, bpp);
    scratch' := scratch;
    if sl.Size() > scratch'.Length {
      scratch' := new byte[sl.Size()];
    }
    unset := scratch'[..];
    GetImage(screen, box.x1 - screen.drawX - screen.box.x1, box.y1 - screen.drawY - screen.box.y1, image, scratch', sl);
  }

  /** Fetch one box and copy it into place. */
  method GrabBox(data: array<byte>, l: Layout, src: Box, screen: Screen, box: Box, image: Image,
                 scratch: array<byte>) returns (scratch': array<byte>)
    requires 1 <= l.bpp <= 4 && l.Valid() && data.Length >= l.Size() && PixelsOf(image, l.bpp)
    requires l.width == src.x2 - src.x1 && l.height == src.y2 - src.y1
    requires box.NonEmpty() && src.Holds(box) && screen.box.Holds(box) && scratch != data
    modifies data, scratch
    ensures scratch' == scratch || fresh(scratch')
    ensures Painted(data[..], old(data[..]), l, src.x1, src.y1, image, box.Points())
  {
    hide BytePad, Painted, Pasted, Box.Points;
    var sl := Padded(box.x2 - box.x1, box.y2 - box.y1, l.bpp);
    ghost var unset;
    scratch', unset := FetchBox(screen, box, image, l.bpp, scratch);
    ghost var middle := data[..];
    assert middle == old(data[..]);
    CopyBox(data, l, box.x1 - src.x1, box.y1 - src.y1, scratch', sl);
    NothingPainted(middle, l, src.x1, src.y1, image);
    BoxPasted(data[..], middle, middle, l, src, box, image, scratch'[..], unset, sl, iset{});
    assert iset{} + box.Points() == box.Points();
  }

  /** Painting on top of a painted image. */
  lemma PaintedTwice(after: seq<byte>, middle: seq<byte>, before: seq<byte>, l: Layout, x1: int, y1: int, image: Image,
                     first: iset<(int, int)>, second: iset<(int, int)>)
    requires l.Valid() && |after| >= l.Size() && |middle| >= l.Size() && |before| >= l.Size()
    requires Painted(middle, before, l, x1, y1, image, first)
    requires Painted(after, middle, l, x1, y1, image, second)
    ensures Painted(after, before, l, x1, y1, image, first + second)
  {
  }

  lemma OneMoreBox(region: seq<Box>, n: nat)
    requires n < |region|
    ensures Points(region[..n + 1]) == Points(region[..n]) + region[n].Points()
  {
    var more, rest := Points(region[..n + 1]), Points(region[..n]);
    forall x: int, y: int
      ensures (x, y) in more <==> (x, y) in rest + region[n].Points()
    {
      if (x, y) in rest {
        var k :| 0 <= k < n && region[..n][k].In(x, y);
        assert region[..n + 1][k].In(x, y);
      }
      if region[n].In(x, y) {
        assert region[..n + 1][n].In(x, y);
      }
      if (x, y) in more && !region[n].In(x, y) {
        var k :| 0 <= k < n + 1 && region[..n + 1][k].In(x, y);
        assert region[..n][k].In(x, y);
      }
    }
  }

  /** A nonempty box all of whose points lie in a box lies in it. */
  lemma BoxInside(region: seq<Box>, n: nat, box: Box)
    requires n < |region| && AllNonEmpty(region) && Points(region) <= box.Points()
    ensures box.Holds(region[n])
  {
    var b := region[n];
    assert b.In(b.x1, b.y1) && b.In(b.x2 - 1, b.y2 - 1);
    assert (b.x1, b.y1) in Points(region) && (b.x2 - 1, b.y2 - 1) in Points(region);
  }

  /** Fetch every box of a screen's part. */
  method GrabBoxes(data: array<byte>, l: Layout, src: Box, screen: Screen, grab: seq<Box>, image: Image,
                   scratch: array<byte>) returns (scratch': array<byte>)
    requires 1 <= l.bpp <= 4 && l.Valid() && data.Length >= l.Size() && PixelsOf(image, l.bpp)
    requires l.width == src.x2 - src.x1 && l.height == src.y2 - src.y1
    requires AllNonEmpty(grab) && Points(grab) <= src.Points() && Points(grab) <= screen.box.Points()
    requires scratch != data
    modifies data, scratch
    ensures scratch' == scratch || fresh(scratch')
    ensures Painted(data[..], old(data[..]), l, src.x1, src.y1, image, Points(grab))
  {
    scratch' := scratch;
    var n := 0;
    NothingPainted(data[..], l, src.x1, src.y1, image);
    assert Points(grab[..0]) == iset{};
    while n < |grab|
      invariant 0 <= n <= |grab|
      invariant scratch' == scratch || fresh(scratch')
      invariant scratch' != data
      invariant Painted(data[..], old(data[..]), l, src.x1, src.y1, image, Points(grab[..n]))
    {
      BoxInside(grab, n, src);
      BoxInside(grab, n, screen.box);
      OneMoreBox(grab, n);
      hide Painted, Points, Box.Points;
      ghost var middle := data[..];
      scratch' := GrabBox(data, l, src, screen, grab[n], image, scratch');
      PaintedTwice(data[..], middle, old(data[..]), l, src.x1, src.y1, image,
                   Points(grab[..n]), grab[n].Points());
      n := n + 1;
    }
    assert grab[..|grab|] == grab;
  }

  // ---- All screens ----

  /** The logical points that some screen shows. */
  ghost function Shown(screens: seq<Screen>): iset<(int, int)> {
    iset x: int, y: int | (exists i :: 0 <= i < |screens| && screens[i].box.In(x, y)) :: (x, y)
  }

  lemma OneMoreScreen(screens: seq<Screen>, n: nat)
    requires n < |screens|
    ensures Shown(screens[..n + 1]) == Shown(screens[..n]) + screens[n].box.Points()
  {
    var more, rest := Shown(screens[..n + 1]), Shown(screens[..n]);
    forall x: int, y: int
      ensures (x, y) in more <==> (x, y) in rest + screens[n].box.Points()
    {
      if (x, y) in rest {
        var k :| 0 <= k < n && screens[..n][k].box.In(x, y);
        assert screens[..n + 1][k].box.In(x, y);
      }
      if screens[n].box.In(x, y) {
        assert screens[..n + 1][n].box.In(x, y);
      }
      if (x, y) in more && !screens[n].box.In(x, y) {
        var k :| 0 <= k < n + 1 && screens[..n + 1][k].box.In(x, y);
        assert screens[..n][k].box.In(x, y);
      }
    }
  }

  lemma ShownGrows(screens: seq<Screen>, n: nat)
    requires n <= |screens|
    ensures Shown(screens[..n]) <= Shown(screens)
  {
    forall x: int, y: int | (x, y) in Shown(screens[..n])
      ensures (x, y) in Shown(screens)
    {
      var k :| 0 <= k < n && screens[..n][k].box.In(x, y);
      assert screens[k].box.In(x, y);
    }
  }

  /** The source box in logical space. */
  function SourceBox(screens: seq<Screen>, left: int, top: int, width: nat, height: nat, isRoot: bool): Box
    requires |screens| > 0
  {
    var x1 := if isRoot then left else left + screens[0].drawX + screens[0].box.x1;
    var y1 := if isRoot then top else top + screens[0].drawY + screens[0].box.y1;
    Box(x1, y1, x1 + width, y1 + height)
  }

  /** Once every point of the box that is left is on no screen, or the screens so far show it all. */
  lemma AllShown(d: seq<byte>, before: seq<byte>, l: Layout, src: Box, image: Image, screens: seq<Screen>,
                 done: iset<(int, int)>)
    requires l.Valid() && |d| >= l.Size() && |before| >= l.Size()
    requires l.width == src.x2 - src.x1 && l.height == src.y2 - src.y1
    requires Painted(d, before, l, src.x1, src.y1, image, done)
    requires src.Points() * done == src.Points() * Shown(screens)
    ensures Painted(d, before, l, src.x1, src.y1, image, Shown(screens))
  {
    forall c, r | l.Has(c, r)
      ensures (src.x1 + c, src.y1 + r) in done <==> (src.x1 + c, src.y1 + r) in Shown(screens)
    {
      var p := (src.x1 + c, src.y1 + r);
      assert p in src.Points();
      assert p in src.Points() * done <==> p in src.Points() * Shown(screens);
    }
    SamePoints(d, before, l, src.x1, src.y1, image, done, Shown(screens));
  }

  lemma SourceIsRegion(src: Box)
    ensures Points([src]) == src.Points()
  {
    forall x: int, y: int
      ensures (x, y) in Points([src]) <==> (x, y) in src.Points()
    {
      if src.In(x, y) {
        assert [src][0].In(x, y);
      }
    }
  }

  /** What is shown, and what is left, after one more screen. */
  lemma ScreenStep(screens: seq<Screen>, i: nat, src: Box)
    requires i < |screens|
    ensures var here := screens[i].box;
      && (ContainsRect(here, src) == In ==> src.Points() <= Shown(screens))
      && (ContainsRect(here, src) == Out ==>
            src.Points() * Shown(screens[..i + 1]) == src.Points() * Shown(screens[..i]))
    ensures var grab := (src.Points() - Shown(screens[..i])) * screens[i].box.Points();
      && src.Points() * Shown(screens[..i + 1]) == src.Points() * Shown(screens[..i]) + grab
      && src.Points() - Shown(screens[..i + 1]) == src.Points() - Shown(screens[..i]) - grab
  {
    OneMoreScreen(screens, i);
    ShownGrows(screens, i + 1);
  }

  lemma EmptyRegion(region: seq<Box>)
    requires |region| == 0
    ensures Points(region) == iset{}
  {
  }

  lemma NothingLeft(screens: seq<Screen>, n: nat, src: Box)
    requires n <= |screens| && (n == |screens| || src.Points() - Shown(screens[..n]) == iset{})
    ensures src.Points() * Shown(screens[..n]) == src.Points() * Shown(screens)
  {
    if n == |screens| {
      assert screens[..n] == screens;
    } else {
      ShownGrows(screens, n);
      forall p | p in src.Points()
        ensures p in Shown(screens[..n])
      {
        assert p !in src.Points() - Shown(screens[..n]);
      }
    }
  }

  /** What the screens before `i` show of the box is painted. */
  ghost predicate PaintedUpTo(d: seq<byte>, before: seq<byte>, l: Layout, src: Box, image: Image,
                              screens: seq<Screen>, i: nat)
    requires l.Valid() && |d| >= l.Size() && |before| >= l.Size() && i <= |screens|
  {
    Painted(d, before, l, src.x1, src.y1, image, src.Points() * Shown(screens[..i]))
  }

  lemma SourceIs(screens: seq<Screen>, left: int, top: int, width: nat, height: nat, bpp: nat, isRoot: bool)
    requires |screens| > 0 && 1 <= bpp <= 4
    ensures var l, src := Padded(width, height, bpp), SourceBox(screens, left, top, width, height, isRoot);
      && src.x1 == (left + if isRoot then 0 else screens[0].box.x1 + screens[0].drawX)
      && src.y1 == (top + if isRoot then 0 else screens[0].box.y1 + screens[0].drawY)
      && l.width == src.x2 - src.x1 == width && l.height == src.y2 - src.y1 == height
      && l.bpp == bpp && l.Size() == BytePad(width, bpp) * height
  {
    hide BytePad;
  }

  /** Before the first screen nothing is painted and everything is left. */
  lemma NothingYet(d: seq<byte>, l: Layout, src: Box, image: Image, screens: seq<Screen>)
    requires l.Valid() && |d| >= l.Size()
    ensures PaintedUpTo(d, d, l, src, image, screens, 0)
    ensures Points([src]) == src.Points() - Shown(screens[..0])
  {
    NothingPainted(d, l, src.x1, src.y1, image);
    SourceIsRegion(src);
    assert src.Points() * Shown(screens[..0]) == iset{};
    assert src.Points() - Shown(screens[..0]) == src.Points();
  }

  /** A screen that shows none of the box changes nothing. */
  lemma SameSoFar(d: seq<byte>, before: seq<byte>, l: Layout, src: Box, image: Image, screens: seq<Screen>, i: nat)
    requires l.Valid() && |d| >= l.Size() && |before| >= l.Size() && i < |screens|
    requires PaintedUpTo(d, before, l, src, image, screens, i) && ContainsRect(screens[i].box, src) == Out
    ensures PaintedUpTo(d, before, l, src, image, screens, i + 1)
    ensures src.Points() - Shown(screens[..i + 1]) == src.Points() - Shown(screens[..i])
  {
    ScreenStep(screens, i, src);
    hide Painted, Shown, Box.Points;
    assert src.Points() - Shown(screens[..i + 1]) == src.Points() - src.Points() * Shown(screens[..i + 1]);
    assert src.Points() - Shown(screens[..i]) == src.Points() - src.Points() * Shown(screens[..i]);
  }

  lemma EndsShown(d: seq<byte>, before: seq<byte>, l: Layout, src: Box, image: Image, screens: seq<Screen>, i: nat)
    requires l.Valid() && |d| >= l.Size() && |before| >= l.Size() && i <= |screens|
    requires l.width == src.x2 - src.x1 && l.height == src.y2 - src.y1
    requires PaintedUpTo(d, before, l, src, image, screens, i)
    requires src.Points() * Shown(screens[..i]) == src.Points() * Shown(screens)
    ensures Painted(d, before, l, src.x1, src.y1, image, Shown(screens))
  {
    hide Painted, Shown, Box.Points;
    AllShown(d, before, l, src, image, screens, src.Points() * Shown(screens[..i]));
  }

  /** A screen that holds the whole box paints all of it. */
  method AddWhole(data: array<byte>, l: Layout, src: Box, screens: seq<Screen>, i: nat, image: Image,
                  ghost before: seq<byte>)
    requires l.Valid() && PixelsOf(image, l.bpp) && data.Length >= l.Size() && |before| >= l.Size()
    requires l.width == src.x2 - src.x1 && l.height == src.y2 - src.y1
    requires i < |screens| && ContainsRect(screens[i].box, src) == In
    requires PaintedUpTo(data[..], before, l, src, image, screens, i)
    modifies data
    ensures Painted(data[..], before, l, src.x1, src.y1, image, Shown(screens))
  {
    hide Painted, Shown, Box.Points;
    ghost var middle, done := data[..], src.Points() * Shown(screens[..i]);
    ScreenStep(screens, i, src);
    GetImage(screens[i], src.x1 - screens[i].drawX - screens[i].box.x1,
             src.y1 - screens[i].drawY - screens[i].box.y1, image, data, l);
    PaintedTwice(data[..], middle, before, l, src.x1, src.y1, image, done, src.Points());
    AllShown(data[..], before, l, src, image, screens, done + src.Points());
  }

  /** A screen that holds some of the box paints what no earlier screen showed. */
  method AddPart(data: array<byte>, l: Layout, src: Box, screens: seq<Screen>, i: nat, region: seq<Box>, image: Image,
                 ops: RegionOps, scratch: array<byte>, ghost before: seq<byte>)
    returns (region': seq<Box>, scratch': array<byte>)
    requires 1 <= l.bpp <= 4 && l.Valid() && PixelsOf(image, l.bpp) && ops.Sound()
    requires data.Length >= l.Size() && |before| >= l.Size() && data != scratch
    requires l.width == src.x2 - src.x1 && l.height == src.y2 - src.y1
    requires i < |screens| && Points(region) == src.Points() - Shown(screens[..i])
    requires PaintedUpTo(data[..], before, l, src, image, screens, i)
    modifies data, scratch
    ensures scratch' == scratch || fresh(scratch')
    ensures Points(region') == src.Points() - Shown(screens[..i + 1])
    ensures PaintedUpTo(data[..], before, l, src, image, screens, i + 1)
  {
    hide Painted, Points, Shown, AllNonEmpty, Box.Points;
    ghost var middle, done := data[..], src.Points() * Shown(screens[..i]);
    ScreenStep(screens, i, src);
    var grab := ops.intersect(region, screens[i].box);
    scratch' := GrabBoxes(data, l, src, screens[i], grab, image, scratch);
    PaintedTwice(data[..], middle, before, l, src.x1, src.y1, image, done, Points(grab));
    region' := ops.subtract(region, grab);
  }

  /** One screen: it has nothing of the box, all of it, or some; `over` when nothing of the box is left. */
  method AddScreen(data: array<byte>, l: Layout, src: Box, screens: seq<Screen>, i: nat, region: seq<Box>, image: Image,
                   ops: RegionOps, scratch: array<byte>, ghost before: seq<byte>)
    returns (region': seq<Box>, scratch': array<byte>, over: bool)
    requires 1 <= l.bpp <= 4 && l.Valid() && PixelsOf(image, l.bpp) && ops.Sound()
    requires data.Length >= l.Size() && |before| >= l.Size() && data != scratch
    requires l.width == src.x2 - src.x1 && l.height == src.y2 - src.y1
    requires i < |screens| && Points(region) == src.Points() - Shown(screens[..i])
    requires PaintedUpTo(data[..], before, l, src, image, screens, i)
    modifies data, scratch
    ensures scratch' == scratch || fresh(scratch')
    ensures over ==> Painted(data[..], before, l, src.x1, src.y1, image, Shown(screens))
    ensures !over ==> Points(region') == src.Points() - Shown(screens[..i + 1])
    ensures !over ==> PaintedUpTo(data[..], before, l, src, image, screens, i + 1)
  {
    hide *;
    region', scratch', over := region, scratch, false;
    match ContainsRect(screens[i].box, src) {
      case In =>
        AddWhole(data, l, src, screens, i, image, before);
        over := true;
      case Out =>
        SameSoFar(data[..], before, l, src, image, screens, i);
      case Part =>
        region', scratch' := AddPart(data, l, src, screens, i, region, image, ops, scratch, before);
        if |region'| == 0 {
          EmptyRegion(region');
          NothingLeft(screens, i + 1, src);
          EndsShown(data[..], before, l, src, image, screens, i + 1);
          over := true;
        }
    }
  }

  /**
   * Fill `data` with the image of a box: every pixel that some screen shows is the image's, every other pixel
   * is left as it was.
   */
  method GetImageData(screens: seq<Screen>, left: int, top: int, width: nat, height: nat, bpp: nat, image: Image,
                      data: array<byte>, pitch: nat, isRoot: bool, ops: RegionOps)
    requires |screens| > 0 && ops.Sound()
    requires width > 0 && height > 0 && 1 <= bpp <= 4 && pitch == BytePad(width, bpp)
    requires PixelsOf(image, bpp) && data.Length >= pitch * height
    modifies data
    ensures var l := Padded(width, height, bpp);
      var x1 := left + if isRoot then 0 else screens[0].box.x1 + screens[0].drawX;
      var y1 := top + if isRoot then 0 else screens[0].box.y1 + screens[0].drawY;
      Painted(data[..], old(data[..]), l, x1, y1, image, Shown(screens))
  {
    var l := Padded(width, height, bpp);
    var src := SourceBox(screens, left, top, width, height, isRoot);
    var region := [src];
    var scratch := new byte[0];
    var i := 0;
    SourceIs(screens, left, top, width, height, bpp, isRoot);
    hide *;
    NothingYet(data[..], l, src, image, screens);
    while i < |screens|
      invariant 0 <= i <= |screens|
      invariant fresh(scratch)
      invariant Points(region) == src.Points() - Shown(screens[..i])
      invariant PaintedUpTo(data[..], old(data[..]), l, src, image, screens, i)
    {
      var over;
      region, scratch, over := AddScreen(data, l, src, screens, i, region, image, ops, scratch, old(data[..]));
      if over {
        return;
      }
      i := i + 1;
    }
    NothingLeft(screens, i, src);
    EndsShown(data[..], old(data[..]), l, src, image, screens, i);
  }
}
