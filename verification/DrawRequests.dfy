/** Drawing requests sent once per screen, shifted by the screen's origin (Xext/panoramiXprocs.c). */
module DrawRequests {

  /** The value of an integer stored in 16 bits. */
  function Wrap16(x: int): (r: int)
    ensures -0x8000 <= r < 0x8000
  {
    (x + 0x8000) % 0x10000 - 0x8000
  }

  lemma WrapSum(a: int, b: int)
    ensures Wrap16(Wrap16(a) + b) == Wrap16(a + b)
  {
  }

  datatype Point = Point(x: int, y: int)
  {
    predicate Fits() {
      -0x8000 <= x < 0x8000 && -0x8000 <= y < 0x8000
    }

    /** The sum in 16 bits, which is the sum itself if it fits. */
    function Plus(dx: int, dy: int): (p: Point)
      ensures p.Fits()
      ensures (x + dx - p.x) % 0x1_0000 == 0 && (y + dy - p.y) % 0x1_0000 == 0
    {
      Point(Wrap16(x + dx), Wrap16(y + dy))
    }
  }

  predicate AllFit(points: seq<Point>) {
    forall k :: 0 <= k < |points| ==> points[k].Fits()
  }

  lemma PlusCommutes(p: Point, a: int, b: int, c: int, d: int)
    ensures p.Plus(a, b).Plus(c, d) == p.Plus(c, d).Plus(a, b)
  {
    WrapSum(p.x + a, c);
    WrapSum(p.x + c, a);
    WrapSum(p.y + b, d);
    WrapSum(p.y + d, b);
  }

  lemma PlusNothing(p: Point)
    requires p.Fits()
    ensures p.Plus(0, 0) == p
  {
  }

  const COORD_MODE_PREVIOUS := 1

  /**
   * The absolute points of a request: with CoordModePrevious every point after the first is relative to the
   * one before it.
   */
  function Absolute(mode: int, points: seq<Point>): (a: seq<Point>)
    ensures |a| == |points|
  {
    if mode != COORD_MODE_PREVIOUS || |points| <= 1 then points
    else
      var before := Absolute(mode, points[..|points| - 1]);
      before + [before[|before| - 1].Plus(points[|points| - 1].x, points[|points| - 1].y)]
  }

  /** Step by step: with CoordModePrevious, which is 1, each point is added to the one before. */
  lemma {:induction false} AbsoluteSteps(mode: int, points: seq<Point>, k: nat)
    requires k < |points|
    ensures Absolute(mode, points)[k] ==
      if mode == 1 && k > 0 then Absolute(mode, points)[k - 1].Plus(points[k].x, points[k].y) else points[k]
  {
    hide Point.Plus;
    if mode == 1 && |points| > 1 && k < |points| - 1 {
      AbsoluteSteps(mode, points[..|points| - 1], k);
    }
  }

  function Translate(points: seq<Point>, dx: int, dy: int): (t: seq<Point>)
    ensures |t| == |points| && forall k :: 0 <= k < |t| ==> t[k] == points[k].Plus(dx, dy)
  {
    if points == [] then [] else Translate(points[..|points| - 1], dx, dy) + [points[|points| - 1].Plus(dx, dy)]
  }

  /** What the loop over the points does to the request. */
  function Shifted(mode: int, points: seq<Point>, dx: int, dy: int): (s: seq<Point>)
    ensures |s| == |points|
  {
    if points == [] then []
    else if mode == COORD_MODE_PREVIOUS then [points[0].Plus(dx, dy)] + points[1..]
    else Translate(points, dx, dy)
  }

  /** In either mode the shifted request draws the same points, moved by the shift. */
  lemma {:induction false} ShiftedMeaning(mode: int, points: seq<Point>, dx: int, dy: int)
    ensures Absolute(mode, Shifted(mode, points, dx, dy)) == Translate(Absolute(mode, points), dx, dy)
  {
    hide Wrap16, Point.Plus;
    if mode == COORD_MODE_PREVIOUS && |points| > 1 {
      var n := |points| - 1;
      var shifted := Shifted(mode, points, dx, dy);
      ShiftedMeaning(mode, points[..n], dx, dy);
      assert shifted[..n] == Shifted(mode, points[..n], dx, dy);
      var last := Absolute(mode, points[..n])[n - 1];
      PlusCommutes(last, dx, dy, points[n].x, points[n].y);
      assert Absolute(mode, points)[..n] == Absolute(mode, points[..n]);
      assert Translate(Absolute(mode, points), dx, dy)
          == Translate(Absolute(mode, points[..n]), dx, dy) + [last.Plus(points[n].x, points[n].y).Plus(dx, dy)];
    } else if |points| == 1 {
      assert Translate(points, dx, dy) == [points[0].Plus(dx, dy)];
    }
  }

  lemma TranslateByNothing(points: seq<Point>)
    requires AllFit(points)
    ensures Translate(points, 0, 0) == points
  {
    hide Wrap16, Point.Plus;
    forall k | 0 <= k < |points|
      ensures points[k].Plus(0, 0) == points[k]
    {
      PlusNothing(points[k]);
    }
  }

  lemma {:induction false} AbsoluteFits(mode: int, points: seq<Point>)
    requires AllFit(points)
    ensures AllFit(Absolute(mode, points))
  {
    if mode == COORD_MODE_PREVIOUS && |points| > 1 {
      AbsoluteFits(mode, points[..|points| - 1]);
    }
  }

  /** Shift the points of the request buffer in place. */
  method ShiftPoints(buffer: array<Point>, mode: int, dx: int, dy: int)
    requires buffer.Length > 0
    modifies buffer
    ensures buffer[..] == Shifted(mode, old(buffer[..]), dx, dy)
  {
    var n := if mode == COORD_MODE_PREVIOUS then 1 else buffer.Length;
    var i := 0;
    while i < n
      invariant 0 <= i <= n
      invariant forall k :: 0 <= k < i ==> buffer[k] == old(buffer[k]).Plus(dx, dy)
      invariant forall k :: i <= k < buffer.Length ==> buffer[k] == old(buffer[k])
    {
      buffer[i] := buffer[i].Plus(dx, dy);
      i := i + 1;
    }
    ghost var shifted := Shifted(mode, old(buffer[..]), dx, dy);
    assert forall k :: 0 <= k < buffer.Length ==> buffer[..][k] == shifted[k];
  }

  method Store(buffer: array<Point>, points: seq<Point>)
    requires buffer.Length == |points|
    modifies buffer
    ensures buffer[..] == points
  {
    var i := 0;
    while i < buffer.Length
      invariant 0 <= i <= buffer.Length
      invariant buffer[..i] == points[..i]
    {
      buffer[i] := points[i];
      i := i + 1;
    }
  }

  /** What one screen's handler did: whether it succeeded, and what it left in the request buffer. */
  datatype Outcome = Outcome(success: bool, left: seq<Point>)

  /** The shape a screen must draw: the original one relative to the screen's origin. */
  predicate DrawsAt(mode: int, sent: seq<Point>, original: seq<Point>, isRoot: bool, origin: Point) {
    Absolute(mode, sent)
      == if isRoot then Translate(Absolute(mode, original), -origin.x, -origin.y) else Absolute(mode, original)
  }

  /** Every request sent draws the original shape on its screen. */
  predicate AllDraw(mode: int, sent: seq<seq<Point>>, original: seq<Point>, isRoot: bool, origins: seq<Point>)
    requires |sent| <= |origins|
  {
    forall j :: 0 <= j < |sent| ==> DrawsAt(mode, sent[j], original, isRoot, origins[j])
  }

  lemma OneMoreDraws(mode: int, sent: seq<seq<Point>>, next: seq<Point>, original: seq<Point>, isRoot: bool,
                     origins: seq<Point>)
    requires |sent| < |origins| && AllDraw(mode, sent, original, isRoot, origins)
    requires DrawsAt(mode, next, original, isRoot, origins[|sent|])
    ensures AllDraw(mode, sent + [next], original, isRoot, origins)
  {
    hide DrawsAt;
  }

  /** Prepare the buffer for one screen. */
  method Prepare(buffer: array<Point>, mode: int, isRoot: bool, origin: Point)
    requires buffer.Length > 0 && AllFit(buffer[..])
    modifies buffer
    ensures DrawsAt(mode, buffer[..], old(buffer[..]), isRoot, origin)
  {
    hide *;
    ghost var original := buffer[..];
    if isRoot && (origin.x != 0 || origin.y != 0) {
      ShiftPoints(buffer, mode, -origin.x, -origin.y);
      DrawsShifted(mode, original, origin);
    } else {
      DrawsUnshifted(mode, original, isRoot, origin);
    }
  }

  lemma DrawsUnshifted(mode: int, original: seq<Point>, isRoot: bool, origin: Point)
    requires AllFit(original) && (isRoot ==> origin.x == 0 && origin.y == 0)
    ensures DrawsAt(mode, original, original, isRoot, origin)
  {
    hide Translate, Absolute, AllFit, Wrap16, Point.Plus;
    AbsoluteFits(mode, original);
    TranslateByNothing(Absolute(mode, original));
  }

  lemma DrawsShifted(mode: int, original: seq<Point>, origin: Point)
    ensures DrawsAt(mode, Shifted(mode, original, -origin.x, -origin.y), original, true, origin)
  {
    hide Translate, Absolute, Shifted, Wrap16, Point.Plus;
    ShiftedMeaning(mode, original, -origin.x, -origin.y);
  }

  /**
   * PolyPoint, PolyLine and FillPoly: each screen in turn gets the points, shifted when drawing to the root.
   * A handler may overwrite the buffer it is given; the next screen starts from the saved points all the same.
   */
  method PolyPoint(buffer: array<Point>, mode: int, isRoot: bool, origins: seq<Point>, outcomes: seq<Outcome>)
    returns (sent: seq<seq<Point>>, success: bool)
    requires AllFit(buffer[..])
    requires |origins| > 0 && |outcomes| == |origins|
    requires forall j :: 0 <= j < |outcomes| ==> |outcomes[j].left| == buffer.Length
    modifies buffer
    ensures buffer.Length == 0 ==> sent == [] && success
    ensures buffer.Length > 0 ==> 0 < |sent| <= |origins| && success == outcomes[|sent| - 1].success
    ensures forall j :: 0 <= j < |sent| - 1 ==> outcomes[j].success
    ensures buffer.Length > 0 && success ==> |sent| == |origins|
    ensures |sent| <= |origins| && AllDraw(mode, sent, old(buffer[..]), isRoot, origins)
  {
    sent, success := [], true;
    if buffer.Length == 0 {
      return;
    }
    var saved := buffer[..];
    assert AllDraw(mode, [], saved, isRoot, origins);
    hide *;
    var j := 0;
    while j < |origins|
      invariant 0 <= j <= |origins| && |sent| == j
      invariant j == 0 ==> buffer[..] == saved
      invariant success && forall i :: 0 <= i < j ==> outcomes[i].success
      invariant AllDraw(mode, sent, saved, isRoot, origins)
    {
      if j > 0 {
        Store(buffer, saved);
      }
      Prepare(buffer, mode, isRoot, origins[j]);
      OneMoreDraws(mode, sent, buffer[..], saved, isRoot, origins);
      sent := sent + [buffer[..]];
      Store(buffer, outcomes[j].left);
      if !outcomes[j].success {
        return sent, false;
      }
      j := j + 1;
    }
  }
}
