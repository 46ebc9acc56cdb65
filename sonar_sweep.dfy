/** What `sonar_quad_cleanup_faded` (sonar_chart.c) does to the quadtree, as
    values: every leaf drops the points whose fade stage has reached GONE and
    keeps the others in order with their stage brought up to the clock, while
    internal nodes only pass the sweep on to their children (their own lists, if
    any, are left as they are). */
module SonarSweep {
  import opened SonarGeometry
  import opened SonarFade
  import opened SonarTree

  /** Whether the point in slot `p` survives a sweep at time `now`. */
  predicate Alive(ps: seq<SonarPoint>, p: nat, now: int)
  {
    p < |ps| && FadeStateAt(ps[p].discoveryTime, now) != Gone
  }

  /** A point record with its stage brought up to the clock. */
  function Faded(pt: SonarPoint, now: int): SonarPoint
  {
    pt.(fade := FadeStateAt(pt.discoveryTime, now))
  }

  /** A leaf's list after the sweep: its live points, in their order. */
  function Survivors(pts: seq<nat>, ps: seq<SonarPoint>, now: int): (r: seq<nat>)
    ensures |r| <= |pts|
    ensures forall i :: 0 <= i < |r| ==> Alive(ps, r[i], now)
  {
    if |pts| == 0 then []
    else
      var p := pts[|pts| - 1];
      assert pts == pts[..|pts| - 1] + [p];
      Survivors(pts[..|pts| - 1], ps, now) + if Alive(ps, p, now) then [p] else []
  }

  /** The survivors are drawn from the list. */
  lemma {:induction false} SurvivorsWithin(pts: seq<nat>, ps: seq<SonarPoint>, now: int)
    ensures multiset(Survivors(pts, ps, now)) <= multiset(pts)
  {
    if |pts| > 0 {
      SurvivorsWithin(pts[..|pts| - 1], ps, now);
      assert pts == pts[..|pts| - 1] + [pts[|pts| - 1]];
    }
  }

  /** The survivors of a list grow one point at a time. */
  lemma SurvivorsNext(pts: seq<nat>, i: int, ps: seq<SonarPoint>, now: int)
    requires 0 <= i < |pts|
    ensures Survivors(pts[..i + 1], ps, now) == Survivors(pts[..i], ps, now) + if Alive(ps, pts[i], now) then [pts[i]] else []
  {
    assert pts[..i + 1][..i] == pts[..i];
  }

  /** Each slot survives exactly as often as it was listed if it is live, and
      not at all if it is gone. */
  lemma {:induction false} SurvivorsCount(pts: seq<nat>, ps: seq<SonarPoint>, now: int, p: nat)
    ensures multiset(Survivors(pts, ps, now))[p] == if Alive(ps, p, now) then multiset(pts)[p] else 0
  {
    if |pts| > 0 {
      var q := pts[|pts| - 1];
      SurvivorsCount(pts[..|pts| - 1], ps, now, p);
      assert multiset(pts) == multiset(pts[..|pts| - 1]) + multiset{q} by {
        assert pts == pts[..|pts| - 1] + [q];
      }
    }
  }

  /** The subtree after the sweep, from the point records as they were before it. */
  function Swept(t: Tree, ps: seq<SonarPoint>, now: int): (r: Tree)
    ensures r.slot == t.slot && r.Leaf? == t.Leaf?
    ensures r.node == t.node.(points := r.node.points)
    ensures t.Inner? ==> r.node == t.node
  {
    match t
    case Leaf(s, nd) => Leaf(s, nd.(points := Survivors(nd.points, ps, now)))
    case Inner(s, nd, a, b, c, d) =>
      Inner(s, nd, Swept(a, ps, now), Swept(b, ps, now), Swept(c, ps, now), Swept(d, ps, now))
  }

  /** The point slots listed by the leaves of a subtree. */
  ghost function LeafHeld(t: Tree): multiset<nat>
  {
    match t
    case Leaf(_, nd) => multiset(nd.points)
    case Inner(_, _, a, b, c, d) => LeafHeld(a) + LeafHeld(b) + LeafHeld(c) + LeafHeld(d)
  }

  /** The point slots a sweep removes from a subtree. */
  ghost function Dropped(t: Tree, ps: seq<SonarPoint>, now: int): multiset<nat>
  {
    match t
    case Leaf(_, nd) => multiset(nd.points) - multiset(Survivors(nd.points, ps, now))
    case Inner(_, _, a, b, c, d) =>
      Dropped(a, ps, now) + Dropped(b, ps, now) + Dropped(c, ps, now) + Dropped(d, ps, now)
  }

  /** The sweep keeps the nodes, their slots and their records other than the
      leaves' lists, so the tree stays well formed and in the same node slots. */
  lemma SweptShape(nu: seq<bool>, ps: seq<SonarPoint>, t: Tree, now: int)
    requires Linked(t) && Disjoint(t) && AllInUse(Slots(t), nu) && PointsInside(t, ps)
    ensures Slots(Swept(t, ps, now)) == Slots(t)
    ensures Linked(Swept(t, ps, now)) && Disjoint(Swept(t, ps, now)) && PointsInside(Swept(t, ps, now), ps)
  {
    SweptSlots(t, ps, now);
    SweptLinked(t, ps, now);
    SweptDisjoint(t, ps, now);
    SweptInside(t, ps, now);
  }

  lemma {:induction false} SweptSlots(t: Tree, ps: seq<SonarPoint>, now: int)
    ensures Slots(Swept(t, ps, now)) == Slots(t)
  {
    if t.Inner? {
      SweptSlots(t.nw, ps, now);
      SweptSlots(t.ne, ps, now);
      SweptSlots(t.sw, ps, now);
      SweptSlots(t.se, ps, now);
    }
  }

  lemma {:induction false} SweptLinked(t: Tree, ps: seq<SonarPoint>, now: int)
    requires Linked(t)
    ensures Linked(Swept(t, ps, now))
  {
    if t.Inner? {
      SweptLinked(t.nw, ps, now);
      SweptLinked(t.ne, ps, now);
      SweptLinked(t.sw, ps, now);
      SweptLinked(t.se, ps, now);
    } else {
      assert |Swept(t, ps, now).node.points| <= |t.node.points|;
    }
  }

  lemma {:induction false} SweptDisjoint(t: Tree, ps: seq<SonarPoint>, now: int)
    requires Disjoint(t)
    ensures Disjoint(Swept(t, ps, now))
  {
    if t.Inner? {
      SweptSlots(t.nw, ps, now);
      SweptSlots(t.ne, ps, now);
      SweptSlots(t.sw, ps, now);
      SweptSlots(t.se, ps, now);
      SweptDisjoint(t.nw, ps, now);
      SweptDisjoint(t.ne, ps, now);
      SweptDisjoint(t.sw, ps, now);
      SweptDisjoint(t.se, ps, now);
    }
  }

  lemma {:induction false} SweptInside(t: Tree, ps: seq<SonarPoint>, now: int)
    requires PointsInside(t, ps)
    ensures PointsInside(Swept(t, ps, now), ps)
  {
    if t.Inner? {
      SweptInside(t.nw, ps, now);
      SweptInside(t.ne, ps, now);
      SweptInside(t.sw, ps, now);
      SweptInside(t.se, ps, now);
    } else {
      var r := Swept(t, ps, now).node.points;
      SurvivorsWithin(t.node.points, ps, now);
      forall i | 0 <= i < |r|
        ensures r[i] < |ps| && Contains(t.node.bounds, ps[r[i]].worldX, ps[r[i]].worldY)
      {
        assert r[i] in multiset(r);
        assert r[i] in t.node.points;
      }
    }
  }

  /** What a sweep removes: the held points lose exactly the dropped ones, every
      dropped point was gone, every point a leaf still lists is live, and every
      live point a leaf listed is still listed. */
  lemma SweptHeld(t: Tree, ps: seq<SonarPoint>, now: int)
    ensures Held(Swept(t, ps, now)) + Dropped(t, ps, now) == Held(t)
    ensures forall p :: p in Dropped(t, ps, now) ==> !Alive(ps, p, now)
    ensures forall p :: p in LeafHeld(Swept(t, ps, now)) ==> Alive(ps, p, now)
    ensures forall p :: p in LeafHeld(t) && Alive(ps, p, now) ==> p in LeafHeld(Swept(t, ps, now))
  {
    SweptLoses(t, ps, now);
    forall p ensures p in Dropped(t, ps, now) ==> !Alive(ps, p, now)
      ensures p in LeafHeld(Swept(t, ps, now)) ==> Alive(ps, p, now)
      ensures p in LeafHeld(t) && Alive(ps, p, now) ==> p in LeafHeld(Swept(t, ps, now))
    {
      SweptSlot(t, ps, now, p);
    }
  }

  lemma {:induction false} SweptLoses(t: Tree, ps: seq<SonarPoint>, now: int)
    ensures Held(Swept(t, ps, now)) + Dropped(t, ps, now) == Held(t)
  {
    if t.Inner? {
      SweptLoses(t.nw, ps, now);
      SweptLoses(t.ne, ps, now);
      SweptLoses(t.sw, ps, now);
      SweptLoses(t.se, ps, now);
    } else {
      var m, r := multiset(t.node.points), multiset(Survivors(t.node.points, ps, now));
      SurvivorsWithin(t.node.points, ps, now);
      assert r + (m - r) == m;
    }
  }

  /** The fate of one point slot under the sweep. */
  lemma {:induction false} SweptSlot(t: Tree, ps: seq<SonarPoint>, now: int, p: nat)
    ensures p in Dropped(t, ps, now) ==> !Alive(ps, p, now)
    ensures p in LeafHeld(Swept(t, ps, now)) <==> p in LeafHeld(t) && Alive(ps, p, now)
  {
    if t.Inner? {
      SweptSlot(t.nw, ps, now, p);
      SweptSlot(t.ne, ps, now, p);
      SweptSlot(t.sw, ps, now, p);
      SweptSlot(t.se, ps, now, p);
    } else {
      SurvivorsCount(t.node.points, ps, now, p);
    }
  }

  /** The sweep reads the records only for their timestamps. */
  lemma {:induction false} SweptTimes(t: Tree, ps: seq<SonarPoint>, ps': seq<SonarPoint>, now: int)
    requires |ps'| == |ps| && forall p :: 0 <= p < |ps| ==> ps'[p].discoveryTime == ps[p].discoveryTime
    ensures Swept(t, ps', now) == Swept(t, ps, now) && Dropped(t, ps', now) == Dropped(t, ps, now)
  {
    match t
    case Leaf(_, nd) =>
      SurvivorsTimes(nd.points, ps, ps', now);
    case Inner(_, nd, a, b, c, d) =>
      SweptTimes(a, ps, ps', now);
      SweptTimes(b, ps, ps', now);
      SweptTimes(c, ps, ps', now);
      SweptTimes(d, ps, ps', now);
  }

  lemma {:induction false} SurvivorsTimes(pts: seq<nat>, ps: seq<SonarPoint>, ps': seq<SonarPoint>, now: int)
    requires |ps'| == |ps| && forall p :: 0 <= p < |ps| ==> ps'[p].discoveryTime == ps[p].discoveryTime
    ensures Survivors(pts, ps', now) == Survivors(pts, ps, now)
  {
    if |pts| > 0 {
      SurvivorsTimes(pts[..|pts| - 1], ps, ps', now);
    }
  }

  /** A second sweep at the same time finds nothing more to remove. */
  lemma {:induction false} SweptTwice(t: Tree, ps: seq<SonarPoint>, now: int)
    ensures Swept(Swept(t, ps, now), ps, now) == Swept(t, ps, now)
    ensures Dropped(Swept(t, ps, now), ps, now) == multiset{}
  {
    match t
    case Leaf(_, nd) =>
      SurvivorsTwice(nd.points, ps, now);
    case Inner(_, nd, a, b, c, d) =>
      SweptTwice(a, ps, now);
      SweptTwice(b, ps, now);
      SweptTwice(c, ps, now);
      SweptTwice(d, ps, now);
  }

  lemma SurvivorsTwice(pts: seq<nat>, ps: seq<SonarPoint>, now: int)
    ensures Survivors(Survivors(pts, ps, now), ps, now) == Survivors(pts, ps, now)
  {
    SurvivorsAllAlive(Survivors(pts, ps, now), ps, now);
  }

  /** A list of live points survives whole. */
  lemma {:induction false} SurvivorsAllAlive(pts: seq<nat>, ps: seq<SonarPoint>, now: int)
    requires forall i :: 0 <= i < |pts| ==> Alive(ps, pts[i], now)
    ensures Survivors(pts, ps, now) == pts
  {
    if |pts| > 0 {
      SurvivorsAllAlive(pts[..|pts| - 1], ps, now);
      assert pts == pts[..|pts| - 1] + [pts[|pts| - 1]];
    }
  }

  /** The records `ps` are `ps0` with the stage of the points in `keep` brought
      up to the clock and every other record as it was. */
  ghost predicate Refaded(ps0: seq<SonarPoint>, ps: seq<SonarPoint>, keep: multiset<nat>, now: int)
  {
    |ps| == |ps0| && forall p :: 0 <= p < |ps0| ==> ps[p] == if p in keep then Faded(ps0[p], now) else ps0[p]
  }

  /** The records after the live points of `pts` have been restaged one by one,
      in list order. */
  function Restaged(ps: seq<SonarPoint>, pts: seq<nat>, now: int): (r: seq<SonarPoint>)
    ensures |r| == |ps|
  {
    if |pts| == 0 then ps
    else
      var r0 := Restaged(ps, pts[..|pts| - 1], now);
      var p := pts[|pts| - 1];
      if Alive(ps, p, now) then r0[p := Faded(r0[p], now)] else r0
  }

  /** Restaging keeps every timestamp. */
  lemma {:induction false} RestagedKeeps(ps: seq<SonarPoint>, pts: seq<nat>, now: int, p: nat)
    requires p < |ps|
    ensures Restaged(ps, pts, now)[p].discoveryTime == ps[p].discoveryTime
  {
    if |pts| > 0 {
      RestagedKeeps(ps, pts[..|pts| - 1], now, p);
    }
  }

  /** Restaging one more point of the list. */
  lemma RestagedNext(ps: seq<SonarPoint>, pts: seq<nat>, i: int, now: int)
    requires 0 <= i < |pts|
    ensures Restaged(ps, pts[..i + 1], now) ==
      var r0 := Restaged(ps, pts[..i], now);
      if Alive(ps, pts[i], now) then r0[pts[i] := Faded(r0[pts[i]], now)] else r0
  {
    assert pts[..i + 1][..i] == pts[..i];
  }

  /** Restaging a list one point at a time restages its survivors. */
  lemma {:induction false} RestagedMeans(ps: seq<SonarPoint>, pts: seq<nat>, now: int)
    ensures Refaded(ps, Restaged(ps, pts, now), multiset(Survivors(pts, ps, now)), now)
  {
    if |pts| > 0 {
      var pre := pts[..|pts| - 1];
      var p := pts[|pts| - 1];
      RestagedMeans(ps, pre, now);
      var k0 := multiset(Survivors(pre, ps, now));
      if Alive(ps, p, now) {
        assert multiset(Survivors(pts, ps, now)) == k0 + multiset{p};
      } else {
        assert Survivors(pts, ps, now) == Survivors(pre, ps, now);
      }
    }
  }

  /** Refreshing stages in two rounds is refreshing them once for both sets. */
  lemma RefadedTrans(ps0: seq<SonarPoint>, ps1: seq<SonarPoint>, ps2: seq<SonarPoint>,
                     k1: multiset<nat>, k2: multiset<nat>, now: int)
    requires Refaded(ps0, ps1, k1, now) && Refaded(ps1, ps2, k2, now)
    ensures Refaded(ps0, ps2, k1 + k2, now)
  {
  }

  /** Refreshed stages leave every point where it was and when it was seen. */
  lemma RefadedKeeps(ps0: seq<SonarPoint>, ps: seq<SonarPoint>, keep: multiset<nat>, now: int)
    requires Refaded(ps0, ps, keep, now)
    ensures forall p :: 0 <= p < |ps0| ==>
      ps[p].worldX == ps0[p].worldX && ps[p].worldY == ps0[p].worldY
      && ps[p].discoveryTime == ps0[p].discoveryTime && ps[p].isTerrain == ps0[p].isTerrain
  {
  }

  /** Refreshed stages move no point, so a subtree stays sound. */
  lemma {:induction false} InsideRefaded(t: Tree, ps0: seq<SonarPoint>, ps: seq<SonarPoint>, keep: multiset<nat>, now: int)
    requires PointsInside(t, ps0) && Refaded(ps0, ps, keep, now)
    ensures PointsInside(t, ps)
  {
    if t.Inner? {
      InsideRefaded(t.nw, ps0, ps, keep, now);
      InsideRefaded(t.ne, ps0, ps, keep, now);
      InsideRefaded(t.sw, ps0, ps, keep, now);
      InsideRefaded(t.se, ps0, ps, keep, now);
    }
    forall i | 0 <= i < |t.node.points|
      ensures ps[t.node.points[i]].worldX == ps0[t.node.points[i]].worldX
      ensures ps[t.node.points[i]].worldY == ps0[t.node.points[i]].worldY
    {
    }
  }

  lemma SoundRefaded(ns: seq<QuadNode>, nu: seq<bool>, ps0: seq<SonarPoint>, ps: seq<SonarPoint>,
                     keep: multiset<nat>, now: int, t: Tree)
    requires Sound(ns, nu, ps0, t) && Refaded(ps0, ps, keep, now)
    ensures Sound(ns, nu, ps, t)
  {
    InsideRefaded(t, ps0, ps, keep, now);
  }

  /** An internal node with its first `i` children swept. */
  ghost function PartSwept(t: Tree, i: int, ps: seq<SonarPoint>, now: int): (r: Tree)
    requires t.Inner? && 0 <= i <= 4
    ensures r.Inner? && r.slot == t.slot && r.node == t.node
  {
    if i == 0 then t else WithKid(PartSwept(t, i - 1, ps, now), i - 1, Swept(Kid(t, i - 1), ps, now))
  }

  /** Its children: swept below `i`, as they were from `i` on. */
  lemma {:induction false} PartSweptKid(t: Tree, i: int, ps: seq<SonarPoint>, now: int, j: int)
    requires t.Inner? && 0 <= i <= 4 && 0 <= j < 4
    ensures Kid(PartSwept(t, i, ps, now), j) == if j < i then Swept(Kid(t, j), ps, now) else Kid(t, j)
  {
    if i > 0 {
      PartSweptKid(t, i - 1, ps, now, j);
    }
  }

  /** With all four children swept, the node is swept. */
  lemma PartSweptAll(t: Tree, ps: seq<SonarPoint>, now: int)
    requires t.Inner?
    ensures PartSwept(t, 4, ps, now) == Swept(t, ps, now)
  {
    var r := PartSwept(t, 4, ps, now);
    PartSweptKid(t, 4, ps, now, 0);
    PartSweptKid(t, 4, ps, now, 1);
    PartSweptKid(t, 4, ps, now, 2);
    PartSweptKid(t, 4, ps, now, 3);
    assert r == Inner(r.slot, r.node, Kid(r, 0), Kid(r, 1), Kid(r, 2), Kid(r, 3));
  }

  /** The points the leaves below the first `i` swept children list. */
  ghost function SweptLeaves(t: Tree, i: int, ps: seq<SonarPoint>, now: int): multiset<nat>
    requires t.Inner? && 0 <= i <= 4
  {
    if i == 0 then multiset{} else SweptLeaves(t, i - 1, ps, now) + LeafHeld(Swept(Kid(t, i - 1), ps, now))
  }

  /** Below all four children they are the swept node's leaf points. */
  lemma SweptLeavesAll(t: Tree, ps: seq<SonarPoint>, now: int)
    requires t.Inner?
    ensures SweptLeaves(t, 4, ps, now) == LeafHeld(Swept(t, ps, now))
  {
    var r := Swept(t, ps, now);
    assert SweptLeaves(t, 1, ps, now) == LeafHeld(r.nw);
    assert SweptLeaves(t, 2, ps, now) == LeafHeld(r.nw) + LeafHeld(r.ne);
    assert SweptLeaves(t, 3, ps, now) == LeafHeld(r.nw) + LeafHeld(r.ne) + LeafHeld(r.sw);
  }

  /** A child holds part of what its parent holds. */
  lemma KidHeld(t: Tree, q: int)
    requires t.Inner? && 0 <= q < 4
    ensures Held(Kid(t, q)) <= Held(t)
  {
  }

  /** Swapping part `b` of `a` for `b'` within the whole held by a chart. */
  lemma Rebalance(rest: multiset<nat>, a: multiset<nat>, b: multiset<nat>, a': multiset<nat>, b': multiset<nat>)
    requires b <= a && a' + b == a + b'
    ensures rest + a' == (rest + (a - b)) + b'
    ensures |a'| + |b| == |a| + |b'|
  {
    assert |a' + b| == |a + b'|;
    forall x ensures (rest + a')[x] == ((rest + (a - b)) + b')[x] {
      assert (a' + b)[x] == (a + b')[x];
    }
  }
}
