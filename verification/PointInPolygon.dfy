/** Ray-crossing point-in-polygon test and its geometric meaning. */
module PointInPolygon {

  datatype Point = Point(x: real, y: real)

  /** The edge crosses the horizontal line of `p`; one comparison is strict so that an edge on the
      line never counts. */
  predicate Straddles(a: Point, b: Point, p: Point) {
    (p.y <= a.y) == (p.y > b.y)
  }

  /** The ray from `p` toward growing x meets the edge a-b. */
  predicate Crosses(a: Point, b: Point, p: Point) {
    Straddles(a, b, p) && a.x + (p.y - a.y) * (b.x - a.x) / (b.y - a.y) > p.x
  }

  /** Whether an odd number of the edges along an open path is crossed. */
  function PathParity(path: seq<Point>, p: Point): bool {
    var n := |path|;
    n >= 2 && PathParity(path[..n - 1], p) != Crosses(path[n - 2], path[n - 1], p)
  }

  /** Whether an odd number of the edges of the closed polygon is crossed. */
  predicate Inside(poly: seq<Point>, p: Point) {
    poly != [] && PathParity(poly, p) != Crosses(poly[|poly| - 1], poly[0], p)
  }

  /** One edge: the comparison that comes first keeps the division away from level edges. */
  method EdgeCrosses(a: Point, b: Point, point: Point) returns (crossed: bool)
    ensures crossed == Crosses(a, b, point)
    ensures Straddles(a, b, point) ==> b.y - a.y != 0.0
  {
    if (point.y <= a.y) != (point.y > b.y) {
      return false;
    }
    var xInter := a.x + (point.y - a.y) * (b.x - a.x) / (b.y - a.y);
    return xInter > point.x;
  }

  method IsPointInside(poly: seq<Point>, point: Point) returns (res: bool)
    ensures res == Inside(poly, point)
  {
    hide Crosses, PathParity;
    var polySize := |poly|;
    res := false;
    var i := polySize - 1;
    for j := 0 to polySize
      invariant i == if j == 0 then polySize - 1 else j - 1
      invariant res == (j > 0 && PathParity(poly[..j], point) != Crosses(poly[polySize - 1], poly[0], point))
    {
      PathParityStep(poly, j, point);
      var crossed := EdgeCrosses(poly[i], poly[j], point);
      if crossed {
        res := !res;
      }
      i := j;
    }
    assert poly[..polySize] == poly;
  }

  lemma PathParityStep(poly: seq<Point>, j: nat, p: Point)
    requires j < |poly|
    ensures PathParity(poly[..j + 1], p) == (j > 0 && PathParity(poly[..j], p) != Crosses(poly[j - 1], poly[j], p))
  {
    hide Crosses;
    assert poly[..j + 1][..j] == poly[..j];
  }

  // ---------------------------------------------------------------- orientation

  /** Twice the signed area of triangle a, b, p. */
  function Orient(a: Point, b: Point, p: Point): real {
    (b.x - a.x) * (p.y - a.y) - (b.y - a.y) * (p.x - a.x)
  }

  /** An upward edge is crossed exactly by points on its left, a downward edge by points on its right. */
  lemma CrossesByOrientation(a: Point, b: Point, p: Point)
    ensures a.y < p.y <= b.y ==> (Crosses(a, b, p) <==> Orient(a, b, p) > 0.0)
    ensures b.y < p.y <= a.y ==> (Crosses(a, b, p) <==> Orient(a, b, p) < 0.0)
    ensures !(a.y < p.y <= b.y) && !(b.y < p.y <= a.y) ==> !Crosses(a, b, p)
  {
    if Straddles(a, b, p) {
      var dy := b.y - a.y;
      var t := (p.y - a.y) * (b.x - a.x);
      QuotientTimes(t, dy);
      RayGap(a.x + t / dy - p.x, dy, Orient(a, b, p));
    }
  }

  lemma QuotientTimes(t: real, d: real)
    requires d != 0.0
    ensures t / d * d == t
  {
  }

  lemma RayGap(gap: real, dy: real, orient: real)
    requires gap * dy == orient && dy != 0.0
    ensures dy > 0.0 ==> (gap > 0.0 <==> orient > 0.0)
    ensures dy < 0.0 ==> (gap > 0.0 <==> orient < 0.0)
  {
  }

  lemma OrientReverses(a: Point, b: Point, p: Point)
    ensures Orient(b, a, p) == -Orient(a, b, p)
  {
  }

  /** The direction an edge is walked in does not matter. */
  lemma CrossesSymmetric(a: Point, b: Point, p: Point)
    ensures Crosses(a, b, p) == Crosses(b, a, p)
  {
    CrossesByOrientation(a, b, p);
    CrossesByOrientation(b, a, p);
    OrientReverses(a, b, p);
    hide Crosses, Orient;
  }

  // ---------------------------------------------------------------- paths

  lemma {:induction false} PathParityJoin(s: seq<Point>, t: seq<Point>, p: Point)
    requires s != [] && t != []
    ensures PathParity(s + t, p) ==
            (PathParity(s, p) != (Crosses(s[|s| - 1], t[0], p) != PathParity(t, p)))
  {
    hide Crosses;
    var n := |s + t|;
    if |t| == 1 {
      assert (s + t)[..n - 1] == s;
    } else {
      assert (s + t)[..n - 1] == s + t[..|t| - 1];
      PathParityJoin(s, t[..|t| - 1], p);
    }
  }

  /** Cutting a path at a shared vertex. */
  lemma PathParityCut(path: seq<Point>, k: nat, p: Point)
    requires k < |path|
    ensures PathParity(path, p) == (PathParity(path[..k + 1], p) != PathParity(path[k..], p))
  {
    hide Crosses;
    if k + 1 == |path| {
      assert path[..k + 1] == path;
    } else {
      assert path == path[..k + 1] + path[k + 1..];
      PathParityJoin(path[..k + 1], path[k + 1..], p);
      assert path[k..] == [path[k]] + path[k + 1..];
      PathParityJoin([path[k]], path[k + 1..], p);
    }
  }

  function Reverse(s: seq<Point>): (r: seq<Point>)
    ensures |r| == |s| && forall k :: 0 <= k < |s| ==> r[k] == s[|s| - 1 - k]
  {
    if s == [] then [] else Reverse(s[1..]) + [s[0]]
  }

  lemma {:induction false} PathParityReversed(path: seq<Point>, p: Point)
    ensures PathParity(Reverse(path), p) == PathParity(path, p)
  {
    hide Crosses;
    if |path| >= 2 {
      var rest := path[1..];
      PathParityReversed(rest, p);
      assert path == [path[0]] + rest;
      PathParityJoin([path[0]], rest, p);
      PathParityJoin(Reverse(rest), [path[0]], p);
      CrossesSymmetric(path[0], path[1], p);
    }
  }

  // ---------------------------------------------------------------- polygons

  /** The answer does not depend on which vertex the list starts with. */
  lemma InsideRotates(s: seq<Point>, t: seq<Point>, p: Point)
    ensures Inside(s + t, p) == Inside(t + s, p)
  {
    hide Crosses;
    if s == [] || t == [] {
      assert s + t == t + s;
    } else {
      PathParityJoin(s, t, p);
      PathParityJoin(t, s, p);
    }
  }

  /** Nor on the direction the vertices are listed in. */
  lemma InsideReversed(poly: seq<Point>, p: Point)
    ensures Inside(Reverse(poly), p) == Inside(poly, p)
  {
    hide Crosses;
    if poly != [] {
      PathParityReversed(poly, p);
      CrossesSymmetric(poly[0], poly[|poly| - 1], p);
    }
  }

  /** Cut any polygon along any diagonal: the point is inside the whole exactly when it is inside
      exactly one of the two parts. */
  lemma InsideAdditive(poly: seq<Point>, i: nat, j: nat, p: Point)
    requires i < j < |poly|
    ensures Inside(poly, p) == (Inside(poly[i..j + 1], p) != Inside(poly[..i + 1] + poly[j..], p))
  {
    hide Crosses;
    var near, far := poly[i..j + 1], poly[..i + 1] + poly[j..];
    PathParityCut(poly, j, p);
    PathParityCut(poly[..j + 1], i, p);
    assert poly[..j + 1][..i + 1] == poly[..i + 1];
    assert poly[..j + 1][i..] == near;
    PathParityJoin(poly[..i + 1], poly[j..], p);
    CrossesSymmetric(poly[i], poly[j], p);
    assert near[|near| - 1] == poly[j] && far[|far| - 1] == poly[|poly| - 1];
  }

  // ---------------------------------------------------------------- geometric meaning

  /** `p` is strictly inside the triangle: on the same side of all three edges. */
  predicate StrictlyInTriangle(a: Point, b: Point, c: Point, p: Point) {
    || (Orient(a, b, p) > 0.0 && Orient(b, c, p) > 0.0 && Orient(c, a, p) > 0.0)
    || (Orient(a, b, p) < 0.0 && Orient(b, c, p) < 0.0 && Orient(c, a, p) < 0.0)
  }

  /** `p` lies on none of the three edge lines. */
  predicate OffTheLines(a: Point, b: Point, c: Point, p: Point) {
    Orient(a, b, p) != 0.0 && Orient(b, c, p) != 0.0 && Orient(c, a, p) != 0.0
  }

  /** The three signed areas weigh the vertices' heights over `p` to zero. */
  lemma BarycentricHeights(a: Point, b: Point, c: Point, p: Point)
    ensures Orient(b, c, p) * (a.y - p.y) + Orient(c, a, p) * (b.y - p.y) + Orient(a, b, p) * (c.y - p.y) == 0.0
  {
  }

  lemma TriangleParity(a: Point, b: Point, c: Point, p: Point)
    ensures Inside([a, b, c], p) == (Crosses(a, b, p) != (Crosses(b, c, p) != Crosses(c, a, p)))
  {
    hide Crosses;
    assert [a, b, c][..2] == [a, b] && [a, b][..1] == [a];
    assert !PathParity([a], p);
    assert PathParity([a, b], p) == Crosses(a, b, p);
  }

  /** Two areas of one sign force the third: the heights they weigh lie below the line, its height above. */
  lemma ThirdAreaSign(oab: real, obc: real, oca: real, ha: real, hb: real, hc: real)
    requires obc * ha + oca * hb + oab * hc == 0.0
    requires (ha < 0.0 && hb < 0.0 && hc >= 0.0) || (ha >= 0.0 && hb >= 0.0 && hc < 0.0)
    requires oab != 0.0
    ensures obc > 0.0 && oca > 0.0 ==> oab > 0.0
    ensures obc < 0.0 && oca < 0.0 ==> oab < 0.0
  {
    if obc > 0.0 && oca > 0.0 {
      ProductSign(obc, ha);
      ProductSign(oca, hb);
      ProductSign(oab, hc);
    } else if obc < 0.0 && oca < 0.0 {
      ProductSign(-obc, ha);
      ProductSign(-oca, hb);
      ProductSign(oab, hc);
    }
  }

  lemma ProductSign(x: real, y: real)
    ensures x > 0.0 && y > 0.0 ==> x * y > 0.0
    ensures x > 0.0 && y < 0.0 ==> x * y < 0.0
    ensures x > 0.0 && y == 0.0 ==> x * y == 0.0
    ensures x < 0.0 && y > 0.0 ==> x * y < 0.0
    ensures x < 0.0 && y < 0.0 ==> x * y > 0.0
    ensures x < 0.0 && y == 0.0 ==> x * y == 0.0
    ensures (-x) * y == -(x * y)
  {
  }

  /** One vertex on one side of the ray's line, two on the other. */
  lemma TriangleWithApex(a: Point, b: Point, c: Point, p: Point)
    requires OffTheLines(a, b, c, p)
    requires (p.y <= a.y) == (p.y <= b.y) && (p.y <= a.y) != (p.y <= c.y)
    ensures Inside([a, b, c], p) <==> StrictlyInTriangle(a, b, c, p)
  {
    TriangleParity(a, b, c, p);
    CrossesByOrientation(a, b, p);
    CrossesByOrientation(b, c, p);
    CrossesByOrientation(c, a, p);
    BarycentricHeights(a, b, c, p);
    hide Crosses, Orient;
    ThirdAreaSign(Orient(a, b, p), Orient(b, c, p), Orient(c, a, p), a.y - p.y, b.y - p.y, c.y - p.y);
  }

  /** All vertices on one side: nothing is crossed, and the areas cannot all have one sign. */
  lemma TriangleOnOneSide(a: Point, b: Point, c: Point, p: Point)
    requires OffTheLines(a, b, c, p)
    requires (p.y <= a.y) == (p.y <= b.y) == (p.y <= c.y)
    ensures !Inside([a, b, c], p) && !StrictlyInTriangle(a, b, c, p)
  {
    hide Crosses, Orient, Inside, StrictlyInTriangle;
    NothingCrossed(a, b, c, p);
    AreasDisagree(a, b, c, p);
  }

  lemma NothingCrossed(a: Point, b: Point, c: Point, p: Point)
    requires (p.y <= a.y) == (p.y <= b.y) == (p.y <= c.y)
    ensures !Inside([a, b, c], p)
  {
    TriangleParity(a, b, c, p);
    assert !Crosses(a, b, p) && !Crosses(b, c, p) && !Crosses(c, a, p);
    hide Crosses, Inside;
  }

  lemma AreasDisagree(a: Point, b: Point, c: Point, p: Point)
    requires OffTheLines(a, b, c, p)
    requires (p.y <= a.y) == (p.y <= b.y) == (p.y <= c.y)
    ensures !StrictlyInTriangle(a, b, c, p)
  {
    BarycentricHeights(a, b, c, p);
    LevelEdge(a, b, p);
    hide Orient;
    HeightsVanish(Orient(b, c, p), a.y - p.y, Orient(c, a, p), b.y - p.y, Orient(a, b, p), c.y - p.y);
  }

  /** Weights of one sign and heights of one sign cancel only if all heights are zero. */
  lemma HeightsVanish(x: real, a: real, y: real, b: real, z: real, c: real)
    requires x * a + y * b + z * c == 0.0
    requires (a >= 0.0 && b >= 0.0 && c >= 0.0) || (a < 0.0 && b < 0.0 && c < 0.0)
    ensures (x > 0.0 && y > 0.0 && z > 0.0) || (x < 0.0 && y < 0.0 && z < 0.0) ==> a == 0.0 && b == 0.0 && c == 0.0
  {
    ProductSign(x, a);
    ProductSign(y, b);
    ProductSign(z, c);
  }

  lemma LevelEdge(a: Point, b: Point, p: Point)
    ensures a.y == p.y && b.y == p.y ==> Orient(a, b, p) == 0.0
  {
  }

  /** Off its edge lines, the crossing test answers "strictly inside" for every triangle, whatever
      its orientation and wherever the ray passes its corners. */
  lemma TriangleExact(a: Point, b: Point, c: Point, p: Point)
    requires OffTheLines(a, b, c, p)
    ensures Inside([a, b, c], p) <==> StrictlyInTriangle(a, b, c, p)
  {
    hide Crosses, Orient, Inside;
    if (p.y <= a.y) == (p.y <= b.y) == (p.y <= c.y) {
      TriangleOnOneSide(a, b, c, p);
    } else if (p.y <= a.y) == (p.y <= b.y) {
      TriangleWithApex(a, b, c, p);
    } else if (p.y <= b.y) == (p.y <= c.y) {
      TriangleWithApex(b, c, a, p);
      assert [a, b, c] == [a] + [b, c] && [b, c, a] == [b, c] + [a];
      InsideRotates([a], [b, c], p);
    } else {
      TriangleWithApex(c, a, b, p);
      assert [a, b, c] == [a, b] + [c] && [c, a, b] == [c] + [a, b];
      InsideRotates([a, b], [c], p);
    }
  }

  /** Whether `p` lies strictly inside an odd number of the triangles of the fan at the first vertex. */
  predicate OddFan(poly: seq<Point>, p: Point) {
    var n := |poly|;
    n >= 3 && OddFan(poly[..n - 1], p) != StrictlyInTriangle(poly[0], poly[n - 2], poly[n - 1], p)
  }

  predicate OffTheFan(poly: seq<Point>, p: Point) {
    |poly| > 0 && forall k :: 1 <= k < |poly| - 1 ==> OffTheLines(poly[0], poly[k], poly[k + 1], p)
  }

  /** What the test computes for any polygon, convex or not: off the fan's lines, `p` is inside
      exactly when an odd number of the fan triangles contain it. No ray appears in the answer. */
  lemma {:induction false} InsideIsOddFan(poly: seq<Point>, p: Point)
    requires OffTheFan(poly, p)
    ensures Inside(poly, p) == OddFan(poly, p)
  {
    hide Crosses, Inside, OffTheLines, StrictlyInTriangle;
    var n := |poly|;
    if n < 3 {
      Degenerate(poly, p);
    } else {
      var init, tip := poly[..n - 1], [poly[0], poly[n - 2], poly[n - 1]];
      InsideAdditive(poly, 0, n - 2, p);
      assert poly[0..n - 2 + 1] == init;
      assert poly[..0 + 1] + poly[n - 2..] == tip;
      assert forall k :: 1 <= k < |init| - 1 ==> OffTheLines(init[0], init[k], init[k + 1], p);
      InsideIsOddFan(init, p);
      assert OffTheLines(poly[0], poly[n - 2], poly[n - 2 + 1], p);
      TriangleExact(poly[0], poly[n - 2], poly[n - 1], p);
    }
  }

  lemma Degenerate(poly: seq<Point>, p: Point)
    requires |poly| < 3
    ensures !Inside(poly, p)
  {
    if |poly| == 2 {
      CrossesSymmetric(poly[0], poly[1], p);
      PathParityStep(poly, 0, p);
      PathParityStep(poly, 1, p);
      assert poly[..2] == poly;
      hide Crosses;
    }
  }
}
