/** A plain region library on box lists, showing that what XineramaImage asks of one can be had. */
module BoxRegions {
  import opened XineramaImage

  function Max(a: int, b: int): int { if a < b then b else a }

  function Min(a: int, b: int): int { if a < b then a else b }

  function Common(a: Box, b: Box): Box {
    Box(Max(a.x1, b.x1), Max(a.y1, b.y1), Min(a.x2, b.x2), Min(a.y2, b.y2))
  }

  function Intersect(a: seq<Box>, b: Box): seq<Box> {
    if a == [] then []
    else (if Common(a[0], b).NonEmpty() then [Common(a[0], b)] else []) + Intersect(a[1..], b)
  }

  /** What is left of a box: above, below, left and right of the other. */
  function Pieces(a: Box, b: Box): seq<Box> {
    if !a.Meets(b) then [a]
    else [Box(a.x1, a.y1, a.x2, b.y1), Box(a.x1, b.y2, a.x2, a.y2),
          Box(a.x1, Max(a.y1, b.y1), b.x1, Min(a.y2, b.y2)), Box(b.x2, Max(a.y1, b.y1), a.x2, Min(a.y2, b.y2))]
  }

  function SubtractBox(a: seq<Box>, b: Box): seq<Box> {
    if a == [] then [] else Pieces(a[0], b) + SubtractBox(a[1..], b)
  }

  function Subtract(a: seq<Box>, b: seq<Box>): seq<Box>
    decreases |b|
  {
    if b == [] then a else Subtract(SubtractBox(a, b[0]), b[1..])
  }

  lemma PointsOfSum(a: seq<Box>, b: seq<Box>)
    ensures Points(a + b) == Points(a) + Points(b)
  {
    forall x: int, y: int
      ensures (x, y) in Points(a + b) <==> (x, y) in Points(a) + Points(b)
    {
      if k :| 0 <= k < |a| && a[k].In(x, y) {
        assert (a + b)[k].In(x, y);
      } else if k :| 0 <= k < |b| && b[k].In(x, y) {
        assert (a + b)[|a| + k].In(x, y);
      }
    }
  }

  lemma {:induction false} IntersectPoints(a: seq<Box>, b: Box)
    ensures Points(Intersect(a, b)) == Points(a) * b.Points() && AllNonEmpty(Intersect(a, b))
  {
    if a != [] {
      var first := if Common(a[0], b).NonEmpty() then [Common(a[0], b)] else [];
      IntersectPoints(a[1..], b);
      PointsOfSum(first, Intersect(a[1..], b));
      PointsOfSum([a[0]], a[1..]);
      SourceIsRegion(a[0]);
      SourceIsRegion(Common(a[0], b));
      assert a == [a[0]] + a[1..];
      assert Points(first) == a[0].Points() * b.Points();
    }
  }

  lemma PiecesPoints(a: Box, b: Box)
    ensures Points(Pieces(a, b)) == a.Points() - b.Points()
  {
    var p := Pieces(a, b);
    forall x: int, y: int
      ensures (x, y) in Points(p) <==> (x, y) in a.Points() - b.Points()
    {
      if a.Meets(b) {
        assert (x, y) in Points(p) <==> p[0].In(x, y) || p[1].In(x, y) || p[2].In(x, y) || p[3].In(x, y);
      } else {
        SourceIsRegion(a);
      }
    }
  }

  lemma {:induction false} SubtractBoxPoints(a: seq<Box>, b: Box)
    ensures Points(SubtractBox(a, b)) == Points(a) - b.Points()
  {
    if a != [] {
      SubtractBoxPoints(a[1..], b);
      PiecesPoints(a[0], b);
      PointsOfSum(Pieces(a[0], b), SubtractBox(a[1..], b));
      PointsOfSum([a[0]], a[1..]);
      SourceIsRegion(a[0]);
      assert a == [a[0]] + a[1..];
    }
  }

  lemma {:induction false} SubtractPoints(a: seq<Box>, b: seq<Box>)
    ensures Points(Subtract(a, b)) == Points(a) - Points(b)
    decreases |b|
  {
    if b == [] {
      EmptyRegion(b);
    } else {
      SubtractBoxPoints(a, b[0]);
      SubtractPoints(SubtractBox(a, b[0]), b[1..]);
      PointsOfSum([b[0]], b[1..]);
      SourceIsRegion(b[0]);
      assert b == [b[0]] + b[1..];
    }
  }

  lemma OpsExist()
    ensures RegionOps(Intersect, Subtract).Sound()
  {
    forall a, b
      ensures Points(Intersect(a, b)) == Points(a) * b.Points() && AllNonEmpty(Intersect(a, b))
    {
      IntersectPoints(a, b);
    }
    forall a, b
      ensures Points(Subtract(a, b)) == Points(a) - Points(b)
    {
      SubtractPoints(a, b);
    }
  }
}
