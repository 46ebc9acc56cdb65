/** What a window query of the sonar chart's quadtree reports (sonar_chart.c):
    the points of the window in the order the query meets them, and how they
    land in the caller's bounded buffer. */
module SonarSearch {
  import opened SonarGeometry
  import opened SonarTree

  /** Point slot `p` names a point lying in window `w`. */
  ghost predicate InWindow(ps: seq<SonarPoint>, p: nat, w: Bounds)
  {
    p < |ps| && Contains(w, ps[p].worldX, ps[p].worldY)
  }

  /** The points of a list that lie in the window, in list order. */
  ghost function Matching(pts: seq<nat>, ps: seq<SonarPoint>, w: Bounds): (r: seq<nat>)
    ensures |r| <= |pts|
  {
    if |pts| == 0 then []
    else Matching(pts[..|pts| - 1], ps, w) + (if InWindow(ps, pts[|pts| - 1], w) then [pts[|pts| - 1]] else [])
  }

  /** The points of a subtree lying in the window, in the order of
      `sonar_quad_query`: a node's own list first, then its children NW, NE, SW,
      SE. */
  ghost function Found(ps: seq<SonarPoint>, t: Tree, w: Bounds): seq<nat>
  {
    match t
    case Leaf(_, nd) => Matching(nd.points, ps, w)
    case Inner(_, nd, a, b, c, d) =>
      Matching(nd.points, ps, w) + Found(ps, a, w) + Found(ps, b, w) + Found(ps, c, w) + Found(ps, d, w)
  }

  /** A list's matches are exactly its points in the window. */
  lemma {:induction false} MatchingMeans(pts: seq<nat>, ps: seq<SonarPoint>, w: Bounds, p: nat)
    ensures p in Matching(pts, ps, w) <==> p in pts && InWindow(ps, p, w)
  {
    if |pts| > 0 {
      var init := pts[..|pts| - 1];
      MatchingMeans(init, ps, w, p);
      assert pts == init + [pts[|pts| - 1]];
    }
  }

  /** Reading one more element of the list extends the matches by at most that
      element. */
  lemma MatchingNext(pts: seq<nat>, i: int, ps: seq<SonarPoint>, w: Bounds)
    requires 0 <= i < |pts|
    ensures Matching(pts[..i + 1], ps, w)
            == Matching(pts[..i], ps, w) + (if InWindow(ps, pts[i], w) then [pts[i]] else [])
  {
    assert pts[..i + 1][..i] == pts[..i];
  }

  /** The matches of a prefix of a list start the matches of the whole list. */
  lemma {:induction false} MatchingPrefix(pts: seq<nat>, i: int, ps: seq<SonarPoint>, w: Bounds)
    requires 0 <= i <= |pts|
    ensures |Matching(pts[..i], ps, w)| <= |Matching(pts, ps, w)|
    ensures Matching(pts, ps, w)[..|Matching(pts[..i], ps, w)|] == Matching(pts[..i], ps, w)
    decreases |pts| - i
  {
    if i == |pts| {
      assert pts[..i] == pts;
    } else {
      MatchingPrefix(pts, i + 1, ps, w);
      MatchingNext(pts, i, ps, w);
    }
  }

  /** A query reports exactly the points held in the subtree that lie in the
      window, internal nodes' own points included. */
  lemma {:induction false} FoundMeans(ps: seq<SonarPoint>, t: Tree, w: Bounds, p: nat)
    ensures p in Found(ps, t, w) <==> p in Held(t) && InWindow(ps, p, w)
  {
    MatchingMeans(t.node.points, ps, w, p);
    if t.Inner? {
      FoundMeans(ps, t.nw, w, p);
      FoundMeans(ps, t.ne, w, p);
      FoundMeans(ps, t.sw, w, p);
      FoundMeans(ps, t.se, w, p);
    }
  }

  /** A subtree whose rectangle misses the window has nothing to report, so the
      query may skip it. */
  lemma Pruned(ps: seq<SonarPoint>, t: Tree, w: Bounds)
    requires Linked(t) && PointsInside(t, ps) && !Intersect(t.node.bounds, w)
    ensures Found(ps, t, w) == []
  {
    HeldInside(t, ps);
    var f := Found(ps, t, w);
    forall p | p in Held(t) ensures !InWindow(ps, p, w) {
      assert Contains(t.node.bounds, ps[p].worldX, ps[p].worldY);
    }
    forall p ensures multiset(f)[p] == 0 {
      FoundMeans(ps, t, w, p);
    }
    assert multiset(f) == multiset{};
    assert |f| == |multiset(f)|;
  }

  /** What the first `q` children of an inner node report, in order. */
  ghost function KidsFound(ps: seq<SonarPoint>, t: Tree, q: int, w: Bounds): seq<nat>
    requires t.Inner? && 0 <= q <= 4
  {
    if q == 0 then [] else KidsFound(ps, t, q - 1, w) + Found(ps, Kid(t, q - 1), w)
  }

  /** An inner node reports its own points, then what its four children report. */
  lemma FoundInner(ps: seq<SonarPoint>, t: Tree, w: Bounds)
    requires t.Inner?
    ensures Found(ps, t, w) == Matching(t.node.points, ps, w) + KidsFound(ps, t, 4, w)
  {
    var m := Matching(t.node.points, ps, w);
    var a, b, c, d := Found(ps, t.nw, w), Found(ps, t.ne, w), Found(ps, t.sw, w), Found(ps, t.se, w);
    assert KidsFound(ps, t, 1, w) == a;
    assert KidsFound(ps, t, 2, w) == a + b;
    assert KidsFound(ps, t, 3, w) == a + b + c;
    assert KidsFound(ps, t, 4, w) == a + b + c + d;
    assert m + (a + b + c + d) == m + a + b + c + d;
  }

  /** The first `q` children's reports start the first `r` children's. */
  lemma KidsPrefix(ps: seq<SonarPoint>, t: Tree, q: int, r: int, w: Bounds)
    requires t.Inner? && 0 <= q <= r <= 4
    ensures |KidsFound(ps, t, q, w)| <= |KidsFound(ps, t, r, w)|
    ensures KidsFound(ps, t, r, w)[..|KidsFound(ps, t, q, w)|] == KidsFound(ps, t, q, w)
    decreases r - q
  {
    if q < r {
      KidsPrefix(ps, t, q, r - 1, w);
    }
  }

  function Min(a: int, b: int): int
  {
    if a <= b then a else b
  }

  /** The caller's buffer `o` (formerly `o0`) after a query that started at
      position `c0` and stopped at `count`: as many of the matches `f` as fit
      below `max` were written from `c0` on, and nothing else changed. */
  ghost predicate Emitted(o: seq<nat>, o0: seq<nat>, c0: int, f: seq<nat>, count: int, max: int)
  {
    0 <= c0 <= max <= |o| == |o0| && count == Min(c0 + |f|, max)
    && o[..c0] == o0[..c0] && o[c0..count] == f[..count - c0] && o[count..] == o0[count..]
  }

  /** Nothing emitted yet. */
  lemma EmittedNone(o: seq<nat>, c0: int, max: int)
    requires 0 <= c0 <= max <= |o|
    ensures Emitted(o, o, c0, [], c0, max)
  {
  }

  /** Two queries in a row emit the concatenation of what each finds. */
  lemma EmittedThen(o0: seq<nat>, o1: seq<nat>, o2: seq<nat>, c0: int, c1: int, c2: int,
                    f: seq<nat>, g: seq<nat>, max: int)
    requires Emitted(o1, o0, c0, f, c1, max) && Emitted(o2, o1, c1, g, c2, max)
    ensures Emitted(o2, o0, c0, f + g, c2, max)
  {
    if c1 == max {
      assert o2 == o1 by {
        assert o2 == o2[..c1] + o2[c1..];
        assert o1 == o1[..c1] + o1[c1..];
      }
      assert (f + g)[..c2 - c0] == f[..c2 - c0];
    } else {
      assert c1 == c0 + |f|;
      assert o2[c0..c2] == o2[c0..c1] + o2[c1..c2];
      assert o2[c0..c1] == o1[c0..c1] by {
        assert o2[..c1] == o1[..c1];
      }
      assert (f + g)[..c2 - c0] == f + g[..c2 - c1];
      assert o2[..c0] == o2[..c1][..c0];
    }
  }

  /** One more match written at position `count`, below the limit. */
  lemma EmittedOne(o0: seq<nat>, o: seq<nat>, c0: int, f: seq<nat>, count: int, max: int, p: nat)
    requires Emitted(o, o0, c0, f, count, max) && count < max && count == c0 + |f|
    ensures Emitted(o[count := p], o0, c0, f + [p], count + 1, max)
  {
    var o' := o[count := p];
    assert o'[c0..count + 1] == o[c0..count] + [p];
    assert (f + [p])[..count + 1 - c0] == f + [p];
    assert o'[..c0] == o[..c0];
    assert o'[count + 1..] == o[count + 1..];
  }

  /** A scan that stopped at the limit after reading a prefix of the list has
      also emitted all that fits of the whole list. */
  lemma EmittedFull(o0: seq<nat>, o: seq<nat>, c0: int, pts: seq<nat>, i: int, ps: seq<SonarPoint>, w: Bounds,
                    count: int, max: int)
    requires 0 <= i <= |pts| && Emitted(o, o0, c0, Matching(pts[..i], ps, w), count, max) && count == max
    ensures Emitted(o, o0, c0, Matching(pts, ps, w), count, max)
  {
    MatchingPrefix(pts, i, ps, w);
    var f := Matching(pts[..i], ps, w);
    var g := Matching(pts, ps, w);
    assert g[..count - c0] == g[..|f|][..count - c0];
  }

  /** Once the buffer is full, whatever else there was to find changes nothing. */
  lemma EmittedCapped(o: seq<nat>, o0: seq<nat>, c0: int, f: seq<nat>, g: seq<nat>, max: int)
    requires Emitted(o, o0, c0, f, max, max) && |f| <= |g| && g[..|f|] == f
    ensures Emitted(o, o0, c0, g, max, max)
  {
    assert g[..max - c0] == g[..|f|][..max - c0];
  }

  /** One child's query within the children loop: what the child emits after the
      earlier children extends their report by its own findings, and a child that
      reports the buffer full leaves the whole children report cut at `max`. */
  lemma KidEmitted(ps: seq<SonarPoint>, t: Tree, q: int, w: Bounds, o0: seq<nat>, o1: seq<nat>, o2: seq<nat>,
                   c0: int, c1: int, c2: int, max: int, ok: bool)
    requires t.Inner? && 0 <= q < 4
    requires Emitted(o1, o0, c0, KidsFound(ps, t, q, w), c1, max) && c0 + |KidsFound(ps, t, q, w)| <= max
    requires Emitted(o2, o1, c1, Found(ps, Kid(t, q), w), c2, max)
    requires ok ==> c1 + |Found(ps, Kid(t, q), w)| <= max
    requires c1 + |Found(ps, Kid(t, q), w)| < max ==> ok
    ensures ok ==> Emitted(o2, o0, c0, KidsFound(ps, t, q + 1, w), c2, max)
    ensures ok ==> c0 + |KidsFound(ps, t, q + 1, w)| <= max
    ensures !ok ==> Emitted(o2, o0, c0, KidsFound(ps, t, 4, w), c2, max)
    ensures !ok ==> c0 + |KidsFound(ps, t, 4, w)| >= max
  {
    EmittedThen(o0, o1, o2, c0, c1, c2, KidsFound(ps, t, q, w), Found(ps, Kid(t, q), w), max);
    if !ok {
      KidsPrefix(ps, t, q + 1, 4, w);
      EmittedCapped(o2, o0, c0, KidsFound(ps, t, q + 1, w), KidsFound(ps, t, 4, w), max);
    }
  }
}
