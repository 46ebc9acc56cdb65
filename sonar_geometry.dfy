/** Rectangles of the sonar chart's quadtree (sonar_chart.c): inclusive int16
    bounds, the overlap and containment tests, and how a node's rectangle is cut
    into four child quadrants that share the midlines. */
module SonarGeometry {
  import opened CInt

  /** `SonarBounds`: every edge is inclusive. */
  datatype Bounds = Bounds(minX: int, minY: int, maxX: int, maxY: int)

  /** The root covers the whole int16 plane. */
  const RootBounds: Bounds := Bounds(-32768, -32768, 32767, 32767)

  /** Edges are int16 values and the rectangle is not empty. */
  predicate BoundsOk(b: Bounds)
  {
    IsInt16(b.minX) && IsInt16(b.minY) && IsInt16(b.maxX) && IsInt16(b.maxY)
    && b.minX <= b.maxX && b.minY <= b.maxY
  }

  /** `sonar_bounds_contains_point`. */
  predicate Contains(b: Bounds, x: int, y: int)
  {
    b.minX <= x <= b.maxX && b.minY <= y <= b.maxY
  }

  /** `sonar_bounds_intersect`: neither rectangle lies wholly beyond the other. */
  predicate Intersect(a: Bounds, b: Bounds)
  {
    !(a.maxX < b.minX || b.maxX < a.minX || a.maxY < b.minY || b.maxY < a.minY)
  }

  /** The overlap test agrees with its geometric meaning: two non-empty rectangles
      intersect exactly when some cell lies in both. */
  lemma IntersectIffSharedCell(a: Bounds, b: Bounds)
    requires BoundsOk(a) && BoundsOk(b)
    ensures Intersect(a, b) <==> exists x, y :: Contains(a, x, y) && Contains(b, x, y)
  {
    if Intersect(a, b) {
      var x := if a.minX < b.minX then b.minX else a.minX;
      var y := if a.minY < b.minY then b.minY else a.minY;
      assert Contains(a, x, y) && Contains(b, x, y);
    }
  }

  /** `(lo + hi) / 2` with C's truncating division. */
  function Mid(lo: int, hi: int): (m: int)
    ensures lo <= hi ==> lo <= m <= hi
  {
    CDiv(lo + hi, 2)
  }

  /** The quadrant `q` of `b` built by `sonar_quad_subdivide`: 0 NW, 1 NE, 2 SW, 3 SE.
      Neighbouring quadrants share the midline row or column. */
  function ChildBounds(b: Bounds, q: int): (c: Bounds)
    requires 0 <= q < 4
  {
    var midX := Mid(b.minX, b.maxX);
    var midY := Mid(b.minY, b.maxY);
    if q == 0 then Bounds(b.minX, b.minY, midX, midY)
    else if q == 1 then Bounds(midX, b.minY, b.maxX, midY)
    else if q == 2 then Bounds(b.minX, midY, midX, b.maxY)
    else Bounds(midX, midY, b.maxX, b.maxY)
  }

  /** Whether `inner` lies within `outer`. */
  predicate Within(inner: Bounds, outer: Bounds)
  {
    outer.minX <= inner.minX && inner.maxX <= outer.maxX
    && outer.minY <= inner.minY && inner.maxY <= outer.maxY
  }

  /** Every quadrant is a non-empty rectangle inside its parent. */
  lemma ChildInside(b: Bounds, q: int)
    requires BoundsOk(b) && 0 <= q < 4
    ensures BoundsOk(ChildBounds(b, q)) && Within(ChildBounds(b, q), b)
  {
  }

  /** The quadrants cover the parent and nothing outside it. */
  lemma ChildrenCover(b: Bounds, x: int, y: int)
    requires BoundsOk(b)
    ensures Contains(b, x, y) <==> exists q :: 0 <= q < 4 && Contains(ChildBounds(b, q), x, y)
  {
    var midX := Mid(b.minX, b.maxX);
    var midY := Mid(b.minY, b.maxY);
    if Contains(b, x, y) {
      var q := if y <= midY then (if x <= midX then 0 else 1) else (if x <= midX then 2 else 3);
      assert Contains(ChildBounds(b, q), x, y);
    }
    forall q | 0 <= q < 4 && Contains(ChildBounds(b, q), x, y)
      ensures Contains(b, x, y)
    {
      ChildInside(b, q);
    }
  }

  /** The midpoint cell lies in all four quadrants, so a point on it could go to
      any of them; the quadtree gives it to the first. */
  lemma MidpointInAllQuadrants(b: Bounds)
    requires BoundsOk(b)
    ensures forall q :: 0 <= q < 4 ==>
      Contains(ChildBounds(b, q), Mid(b.minX, b.maxX), Mid(b.minY, b.maxY))
  {
  }

  /** The first quadrant (in NW, NE, SW, SE order) containing the cell, or 4 when
      none does: the child a subdividing node hands the point to. */
  function FirstChild(b: Bounds, x: int, y: int): (q: int)
    ensures 0 <= q <= 4
    ensures q < 4 ==> Contains(ChildBounds(b, q), x, y)
    ensures forall r :: 0 <= r < q && r < 4 ==> !Contains(ChildBounds(b, r), x, y)
  {
    if Contains(ChildBounds(b, 0), x, y) then 0
    else if Contains(ChildBounds(b, 1), x, y) then 1
    else if Contains(ChildBounds(b, 2), x, y) then 2
    else if Contains(ChildBounds(b, 3), x, y) then 3
    else 4
  }

  /** A cell of the parent always has a quadrant to go to. */
  lemma FirstChildExists(b: Bounds, x: int, y: int)
    requires BoundsOk(b) && Contains(b, x, y)
    ensures FirstChild(b, x, y) < 4
  {
    ChildrenCover(b, x, y);
  }

  /** The root's midlines are column 0 and row 0 (`(-32768 + 32767) / 2` truncates to 0). */
  lemma RootQuadrants()
    ensures ChildBounds(RootBounds, 0) == Bounds(-32768, -32768, 0, 0)
    ensures ChildBounds(RootBounds, 3) == Bounds(0, 0, 32767, 32767)
  {
  }
}
