/** The records of the sonar chart's quadtree (sonar_chart.h) and a ghost view of
    the tree they form. Nodes live in slots of a node pool and points in slots of
    a point pool; a node names its points and children by slot. The ghost `Tree`
    mirrors the reachable nodes, each with its slot and record, so that what the
    C pointers encode can be stated about a value. */
module SonarTree {
  import opened CInt
  import opened SonarGeometry
  import opened SonarFade

  const MaxDepth: int := 6
  const MaxPoints: int := 8
  const NodePoolSize: int := 128
  const PointPoolSize: int := 512
  /** A NULL child pointer. */
  const NoNode: int := -1

  /** `SonarPoint`. */
  datatype SonarPoint = SonarPoint(worldX: int, worldY: int, discoveryTime: int,
                                   fade: FadeState, isTerrain: bool)

  /** `SonarQuadNode`: `points` holds the first `point_count` entries of the
      point-pointer array, as point-pool slots; `children` the four child
      pointers NW, NE, SW, SE as node-pool slots or `NoNode`. */
  datatype QuadNode = QuadNode(bounds: Bounds, points: seq<nat>, children: seq<int>,
                               isLeaf: bool, depth: nat)

  /** A node record as `sonar_node_pool_alloc` hands it out: zeroed, then marked leaf. */
  const BlankNode: QuadNode := QuadNode(Bounds(0, 0, 0, 0), [], [NoNode, NoNode, NoNode, NoNode], true, 0)

  /** The nodes reachable from one node, with their slots and records. */
  datatype Tree =
    | Leaf(slot: nat, node: QuadNode)
    | Inner(slot: nat, node: QuadNode, nw: Tree, ne: Tree, sw: Tree, se: Tree)

  /** Child `q` of an inner node, in the order of the `children` array. */
  function Kid(t: Tree, q: int): (k: Tree)
    requires t.Inner? && 0 <= q < 4
    ensures k < t
  {
    if q == 0 then t.nw else if q == 1 then t.ne else if q == 2 then t.sw else t.se
  }

  /** The inner node `t` with child `q` replaced by `k`. */
  function WithKid(t: Tree, q: int, k: Tree): (r: Tree)
    requires t.Inner? && 0 <= q < 4
    ensures r.Inner? && r.slot == t.slot && r.node == t.node && Kid(r, q) == k
    ensures forall j :: 0 <= j < 4 && j != q ==> Kid(r, j) == Kid(t, j)
  {
    if q == 0 then t.(nw := k) else if q == 1 then t.(ne := k) else if q == 2 then t.(sw := k) else t.(se := k)
  }

  /** The node slots of a subtree. */
  ghost function Slots(t: Tree): set<nat>
  {
    match t
    case Leaf(s, _) => {s}
    case Inner(s, _, a, b, c, d) => {s} + Slots(a) + Slots(b) + Slots(c) + Slots(d)
  }

  /** No slot is used twice: the pointers form a tree, not a graph with sharing. */
  ghost predicate Disjoint(t: Tree)
  {
    match t
    case Leaf(_, _) => true
    case Inner(s, _, a, b, c, d) =>
      s !in Slots(a) + Slots(b) + Slots(c) + Slots(d)
      && Slots(a) !! Slots(b) && Slots(a) !! Slots(c) && Slots(a) !! Slots(d)
      && Slots(b) !! Slots(c) && Slots(b) !! Slots(d) && Slots(c) !! Slots(d)
      && Disjoint(a) && Disjoint(b) && Disjoint(c) && Disjoint(d)
  }

  /** A node record on its own: depth and fill within the limits, four child
      pointers, a non-empty int16 rectangle, and no children while a leaf. */
  ghost predicate NodeOk(nd: QuadNode)
  {
    nd.depth <= MaxDepth && |nd.points| <= MaxPoints && BoundsOk(nd.bounds)
    && |nd.children| == 4 && (nd.isLeaf ==> nd.children == [NoNode, NoNode, NoNode, NoNode])
  }

  /** A child lies one level deeper and inside its parent's rectangle. */
  ghost predicate KidOk(nd: QuadNode, k: Tree)
  {
    k.node.depth == nd.depth + 1 && Within(k.node.bounds, nd.bounds)
  }

  /** The records agree with the tree's shape: `is_leaf` exactly at the leaves, child
      pointers naming the subtrees' slots, children nested in their parents. */
  ghost predicate Linked(t: Tree)
  {
    NodeOk(t.node)
    && match t
       case Leaf(_, nd) => nd.isLeaf
       case Inner(_, nd, a, b, c, d) =>
         !nd.isLeaf && nd.depth < MaxDepth && nd.children == [a.slot, b.slot, c.slot, d.slot]
         && KidOk(nd, a) && KidOk(nd, b) && KidOk(nd, c) && KidOk(nd, d)
         && Linked(a) && Linked(b) && Linked(c) && Linked(d)
  }

  /** The point slots stored anywhere in a subtree, inner nodes included. */
  ghost function Held(t: Tree): multiset<nat>
  {
    match t
    case Leaf(_, nd) => multiset(nd.points)
    case Inner(_, nd, a, b, c, d) => multiset(nd.points) + Held(a) + Held(b) + Held(c) + Held(d)
  }

  /** Every point a node names is a point-pool slot lying inside the node's rectangle. */
  ghost predicate PointsInside(t: Tree, ps: seq<SonarPoint>)
  {
    (forall i :: 0 <= i < |t.node.points| ==>
       t.node.points[i] < |ps|
       && Contains(t.node.bounds, ps[t.node.points[i]].worldX, ps[t.node.points[i]].worldY))
    && (t.Inner? ==>
          PointsInside(t.nw, ps) && PointsInside(t.ne, ps) && PointsInside(t.sw, ps) && PointsInside(t.se, ps))
  }

  /** The node pool holds the tree's records at the tree's slots. */
  ghost predicate Represents(ns: seq<QuadNode>, t: Tree)
  {
    t.slot < |ns| && ns[t.slot] == t.node
    && (t.Inner? ==> Represents(ns, t.nw) && Represents(ns, t.ne) && Represents(ns, t.sw) && Represents(ns, t.se))
  }

  /** Every slot of the set is in use. */
  ghost predicate AllInUse(slots: set<nat>, nu: seq<bool>)
  {
    forall s :: s in slots ==> s < |nu| && nu[s]
  }

  /** Two node pools agree on a set of slots. */
  ghost predicate Agree(ns: seq<QuadNode>, ns': seq<QuadNode>, slots: set<nat>)
  {
    forall s :: s in slots ==> s < |ns| && s < |ns'| && ns'[s] == ns[s]
  }

  /** A subtree is read from its own slots only. */
  lemma {:induction false} RepresentsFrame(ns: seq<QuadNode>, ns': seq<QuadNode>, t: Tree)
    requires Represents(ns, t) && Agree(ns, ns', Slots(t))
    ensures Represents(ns', t)
  {
    if t.Inner? {
      RepresentsFrame(ns, ns', t.nw);
      RepresentsFrame(ns, ns', t.ne);
      RepresentsFrame(ns, ns', t.sw);
      RepresentsFrame(ns, ns', t.se);
    }
  }

  /** Every point held below a node lies inside the node's rectangle, because each
      child lies inside its parent. */
  lemma {:induction false} HeldInside(t: Tree, ps: seq<SonarPoint>)
    requires Linked(t) && PointsInside(t, ps)
    ensures forall p :: p in Held(t) ==> p < |ps| && Contains(t.node.bounds, ps[p].worldX, ps[p].worldY)
  {
    if t.Inner? {
      HeldInside(t.nw, ps);
      HeldInside(t.ne, ps);
      HeldInside(t.sw, ps);
      HeldInside(t.se, ps);
    }
    forall p | p in multiset(t.node.points)
      ensures p < |ps| && Contains(t.node.bounds, ps[p].worldX, ps[p].worldY)
    {
      var i :| 0 <= i < |t.node.points| && t.node.points[i] == p;
    }
  }

  /** Rewriting one point leaves a subtree's geometry intact when the point is not
      held there or keeps its coordinates. */
  lemma {:induction false} PointsUpdate(t: Tree, ps: seq<SonarPoint>, p: nat, v: SonarPoint)
    requires PointsInside(t, ps) && p < |ps|
    requires p !in Held(t) || (v.worldX == ps[p].worldX && v.worldY == ps[p].worldY)
    ensures PointsInside(t, ps[p := v])
  {
    if t.Inner? {
      PointsUpdate(t.nw, ps, p, v);
      PointsUpdate(t.ne, ps, p, v);
      PointsUpdate(t.sw, ps, p, v);
      PointsUpdate(t.se, ps, p, v);
    }
    forall i | 0 <= i < |t.node.points| && t.node.points[i] == p
      ensures v.worldX == ps[p].worldX && v.worldY == ps[p].worldY
    {
      assert p in multiset(t.node.points);
    }
  }

  /** After an operation on the subtree with slots `s0`, which now has slots `s1`:
      every other slot that was in use is still in use and holds the same record,
      and the slots the subtree gained were free before. */
  ghost predicate Grown(ns0: seq<QuadNode>, nu0: seq<bool>, ns: seq<QuadNode>, nu: seq<bool>,
                        s0: set<nat>, s1: set<nat>)
  {
    |ns0| == |ns| && |nu0| == |nu|
    && s0 <= s1
    && (forall s :: s in s1 && s !in s0 ==> s < |nu0| && !nu0[s])
    && (forall s :: 0 <= s < |nu0| && nu0[s] && s !in s0 ==> s < |ns| && nu[s] && ns[s] == ns0[s])
  }

  /** The points of `pts`, in order, whose first containing quadrant of `b` is `q`:
      what a subdividing node hands to child `q`. */
  function Route(pts: seq<nat>, ps: seq<SonarPoint>, b: Bounds, q: int): (r: seq<nat>)
    requires forall i :: 0 <= i < |pts| ==> pts[i] < |ps|
    ensures |r| <= |pts|
    ensures forall i :: 0 <= i < |r| ==>
      r[i] < |ps| && FirstChild(b, ps[r[i]].worldX, ps[r[i]].worldY) == q
  {
    if |pts| == 0 then []
    else
      var p := pts[|pts| - 1];
      Route(pts[..|pts| - 1], ps, b, q)
      + (if FirstChild(b, ps[p].worldX, ps[p].worldY) == q then [p] else [])
  }

  /** Routing loses nothing and duplicates nothing: the four quadrants together get
      exactly the points of a node whose points all lie in its rectangle. */
  lemma {:induction false} RouteSplits(pts: seq<nat>, ps: seq<SonarPoint>, b: Bounds)
    requires BoundsOk(b)
    requires forall i :: 0 <= i < |pts| ==> pts[i] < |ps| && Contains(b, ps[pts[i]].worldX, ps[pts[i]].worldY)
    ensures multiset(pts) == multiset(Route(pts, ps, b, 0)) + multiset(Route(pts, ps, b, 1))
                             + multiset(Route(pts, ps, b, 2)) + multiset(Route(pts, ps, b, 3))
  {
    if |pts| > 0 {
      var n := |pts|;
      var p := pts[n - 1];
      var init := pts[..n - 1];
      assert pts == init + [p];
      RouteSplits(init, ps, b);
      FirstChildExists(b, ps[p].worldX, ps[p].worldY);
      var k := FirstChild(b, ps[p].worldX, ps[p].worldY);
      RouteStep(pts, ps, b, 0, k);
      RouteStep(pts, ps, b, 1, k);
      RouteStep(pts, ps, b, 2, k);
      RouteStep(pts, ps, b, 3, k);
      SplitStep(multiset(Route(init, ps, b, 0)), multiset(Route(init, ps, b, 1)),
                multiset(Route(init, ps, b, 2)), multiset(Route(init, ps, b, 3)),
                multiset(Route(pts, ps, b, 0)), multiset(Route(pts, ps, b, 1)),
                multiset(Route(pts, ps, b, 2)), multiset(Route(pts, ps, b, 3)), p, k);
    }
  }

  /** Routing one more point, whose quadrant is `k`, adds it to quadrant `k` only. */
  lemma RouteStep(pts: seq<nat>, ps: seq<SonarPoint>, b: Bounds, q: int, k: int)
    requires |pts| > 0 && forall i :: 0 <= i < |pts| ==> pts[i] < |ps|
    requires k == FirstChild(b, ps[pts[|pts| - 1]].worldX, ps[pts[|pts| - 1]].worldY)
    ensures multiset(Route(pts, ps, b, q)) == multiset(Route(pts[..|pts| - 1], ps, b, q))
      + (if k == q then multiset{pts[|pts| - 1]} else multiset{})
  {
  }

  /** Adding one element to exactly one of four multisets adds it to their sum. */
  lemma SplitStep(a0: multiset<nat>, a1: multiset<nat>, a2: multiset<nat>, a3: multiset<nat>,
                  b0: multiset<nat>, b1: multiset<nat>, b2: multiset<nat>, b3: multiset<nat>, p: nat, k: int)
    requires 0 <= k < 4
    requires b0 == a0 + (if k == 0 then multiset{p} else multiset{})
    requires b1 == a1 + (if k == 1 then multiset{p} else multiset{})
    requires b2 == a2 + (if k == 2 then multiset{p} else multiset{})
    requires b3 == a3 + (if k == 3 then multiset{p} else multiset{})
    ensures b0 + b1 + b2 + b3 == a0 + a1 + a2 + a3 + multiset{p}
  {
  }

  /** A subtree is sound in a node pool: its records are there, well linked, at
      distinct slots that are in use, and its points lie inside their nodes. */
  ghost predicate Sound(ns: seq<QuadNode>, nu: seq<bool>, ps: seq<SonarPoint>, t: Tree)
  {
    |ns| == |nu| && Represents(ns, t) && Linked(t) && Disjoint(t) && AllInUse(Slots(t), nu)
    && PointsInside(t, ps)
  }

  /** Writing a slot outside a subtree does not disturb it. */
  lemma {:induction false} RepresentsUpdate(ns: seq<QuadNode>, t: Tree, s: int, nd: QuadNode)
    requires Represents(ns, t) && 0 <= s < |ns| && s !in Slots(t)
    ensures Represents(ns[s := nd], t)
  {
    if t.Inner? {
      RepresentsUpdate(ns, t.nw, s, nd);
      RepresentsUpdate(ns, t.ne, s, nd);
      RepresentsUpdate(ns, t.sw, s, nd);
      RepresentsUpdate(ns, t.se, s, nd);
    }
  }

  /** Child `q` of a sound inner node is sound, lies below it and is linked to it. */
  lemma KidSound(ns: seq<QuadNode>, nu: seq<bool>, ps: seq<SonarPoint>, t: Tree, q: int)
    requires t.Inner? && 0 <= q < 4 && Sound(ns, nu, ps, t)
    ensures Sound(ns, nu, ps, Kid(t, q)) && Slots(Kid(t, q)) <= Slots(t) && t.slot !in Slots(Kid(t, q))
    ensures KidOk(t.node, Kid(t, q)) && t.node.children[q] == Kid(t, q).slot
  {
    var k := Kid(t, q);
    assert Slots(t) == {t.slot} + Slots(t.nw) + Slots(t.ne) + Slots(t.sw) + Slots(t.se);
    assert Slots(k) <= Slots(t);
    assert AllInUse(Slots(k), nu);
  }

  /** The node pool after an operation that left every slot in use untouched
      and freed nothing. */
  ghost predicate Kept(ns0: seq<QuadNode>, nu0: seq<bool>, ns: seq<QuadNode>, nu: seq<bool>)
  {
    |ns| == |ns0| && nu == nu0 && forall s :: 0 <= s < |nu0| && nu0[s] ==> s < |ns| && ns[s] == ns0[s]
  }

  /** Nothing in use changed, so a sound subtree stays sound. */
  lemma KeptSound(ns0: seq<QuadNode>, nu0: seq<bool>, ns: seq<QuadNode>, nu: seq<bool>, ps: seq<SonarPoint>, t: Tree)
    requires Sound(ns0, nu0, ps, t) && Kept(ns0, nu0, ns, nu)
    ensures Sound(ns, nu, ps, t) && Grown(ns0, nu0, ns, nu, Slots(t), Slots(t))
  {
    RepresentsFrame(ns0, ns, t);
  }

  /** Growth composes. */
  lemma GrownTrans(ns0: seq<QuadNode>, nu0: seq<bool>, ns1: seq<QuadNode>, nu1: seq<bool>,
                   ns2: seq<QuadNode>, nu2: seq<bool>, s0: set<nat>, s1: set<nat>, s2: set<nat>)
    requires Grown(ns0, nu0, ns1, nu1, s0, s1) && Grown(ns1, nu1, ns2, nu2, s1, s2)
    ensures Grown(ns0, nu0, ns2, nu2, s0, s2)
  {
  }

  /** Rewriting a node's record leaves its subtree represented, since no descendant
      shares its slot. */
  lemma RestampRepresents(ns: seq<QuadNode>, t: Tree, nd: QuadNode)
    requires Represents(ns, t) && Disjoint(t)
    ensures t.slot < |ns| && Represents(ns[t.slot := nd], t.(node := nd))
  {
    if t.Inner? {
      RepresentsUpdate(ns, t.nw, t.slot, nd);
      RepresentsUpdate(ns, t.ne, t.slot, nd);
      RepresentsUpdate(ns, t.sw, t.slot, nd);
      RepresentsUpdate(ns, t.se, t.slot, nd);
    }
  }

  /** A record with the same shape fields and points inside the node keeps the
      subtree well formed. */
  lemma RestampShape(nu: seq<bool>, ps: seq<SonarPoint>, t: Tree, nd: QuadNode)
    requires Linked(t) && Disjoint(t) && AllInUse(Slots(t), nu) && PointsInside(t, ps) && NodeOk(nd)
    requires nd.bounds == t.node.bounds && nd.depth == t.node.depth
    requires nd.isLeaf == t.node.isLeaf && nd.children == t.node.children
    requires forall i :: 0 <= i < |nd.points| ==>
      nd.points[i] < |ps| && Contains(nd.bounds, ps[nd.points[i]].worldX, ps[nd.points[i]].worldY)
    ensures Slots(t.(node := nd)) == Slots(t)
    ensures Linked(t.(node := nd)) && Disjoint(t.(node := nd)) && AllInUse(Slots(t.(node := nd)), nu)
    ensures PointsInside(t.(node := nd), ps)
  {
  }

  /** Rewriting a node's record changes the held points by its own list only. */
  lemma RestampHeld(t: Tree, nd: QuadNode)
    ensures Held(t.(node := nd)) + multiset(t.node.points) == Held(t) + multiset(nd.points)
  {
  }

  /** Rewriting a node's own record (its points, say) keeps the subtree sound as
      long as the shape fields stay and the new points lie inside the node. */
  lemma Restamp(ns: seq<QuadNode>, nu: seq<bool>, ps: seq<SonarPoint>, t: Tree, nd: QuadNode)
    requires Sound(ns, nu, ps, t) && NodeOk(nd)
    requires nd.bounds == t.node.bounds && nd.depth == t.node.depth
    requires nd.isLeaf == t.node.isLeaf && nd.children == t.node.children
    requires forall i :: 0 <= i < |nd.points| ==>
      nd.points[i] < |ps| && Contains(nd.bounds, ps[nd.points[i]].worldX, ps[nd.points[i]].worldY)
    ensures t.slot < |ns|
    ensures Sound(ns[t.slot := nd], nu, ps, t.(node := nd))
    ensures Held(t.(node := nd)) + multiset(t.node.points) == Held(t) + multiset(nd.points)
    ensures Grown(ns, nu, ns[t.slot := nd], nu, Slots(t), Slots(t.(node := nd)))
  {
    RestampRepresents(ns, t, nd);
    RestampShape(nu, ps, t, nd);
    RestampHeld(t, nd);
  }

  /** A replaced child that kept its slot and only took free slots leaves its
      siblings' records untouched. */
  lemma ReplaceRepresents(ns0: seq<QuadNode>, nu0: seq<bool>, ns: seq<QuadNode>, nu: seq<bool>, t: Tree, q: int, k: Tree)
    requires t.Inner? && 0 <= q < 4 && |ns0| == |nu0| && Represents(ns0, t) && Disjoint(t) && AllInUse(Slots(t), nu0)
    requires Represents(ns, k) && k.slot == Kid(t, q).slot
    requires Grown(ns0, nu0, ns, nu, Slots(Kid(t, q)), Slots(k))
    ensures Represents(ns, WithKid(t, q, k))
  {
    if q == 0 {
      assert WithKid(t, q, k) == t.(nw := k);
      RepresentsFrame(ns0, ns, t.ne); RepresentsFrame(ns0, ns, t.sw); RepresentsFrame(ns0, ns, t.se);
    } else if q == 1 {
      assert WithKid(t, q, k) == t.(ne := k);
      RepresentsFrame(ns0, ns, t.nw); RepresentsFrame(ns0, ns, t.sw); RepresentsFrame(ns0, ns, t.se);
    } else if q == 2 {
      assert WithKid(t, q, k) == t.(sw := k);
      RepresentsFrame(ns0, ns, t.nw); RepresentsFrame(ns0, ns, t.ne); RepresentsFrame(ns0, ns, t.se);
    } else {
      assert WithKid(t, q, k) == t.(se := k);
      RepresentsFrame(ns0, ns, t.nw); RepresentsFrame(ns0, ns, t.ne); RepresentsFrame(ns0, ns, t.sw);
    }
  }

  /** A replaced child with the same slot, rectangle and depth keeps the links. */
  lemma ReplaceLinked(t: Tree, q: int, k: Tree)
    requires t.Inner? && 0 <= q < 4 && Linked(t) && Linked(k)
    requires k.slot == Kid(t, q).slot && k.node.bounds == Kid(t, q).node.bounds
    requires k.node.depth == Kid(t, q).node.depth
    ensures Linked(WithKid(t, q, k))
  {
    if q == 0 {
      assert WithKid(t, q, k) == t.(nw := k);
    } else if q == 1 {
      assert WithKid(t, q, k) == t.(ne := k);
    } else if q == 2 {
      assert WithKid(t, q, k) == t.(sw := k);
    } else {
      assert WithKid(t, q, k) == t.(se := k);
    }
  }

  /** The slots of a node after one child is replaced. */
  lemma ReplaceSlots(t: Tree, q: int, k: Tree)
    requires t.Inner? && 0 <= q < 4
    ensures Slots(WithKid(t, q, k)) + Slots(Kid(t, q)) == Slots(t) + Slots(k)
    ensures Slots(Kid(t, q)) <= Slots(t) && Slots(k) <= Slots(WithKid(t, q, k))
  {
  }

  /** A replaced child that only gained free slots shares none with its siblings. */
  lemma ReplaceDisjoint(nu0: seq<bool>, t: Tree, q: int, k: Tree)
    requires t.Inner? && 0 <= q < 4 && Disjoint(t) && Disjoint(k) && AllInUse(Slots(t), nu0)
    requires forall s :: s in Slots(k) && s !in Slots(Kid(t, q)) ==> s < |nu0| && !nu0[s]
    ensures Disjoint(WithKid(t, q, k))
  {
    if q == 0 {
      assert WithKid(t, q, k) == t.(nw := k);
    } else if q == 1 {
      assert WithKid(t, q, k) == t.(ne := k);
    } else if q == 2 {
      assert WithKid(t, q, k) == t.(sw := k);
    } else {
      assert WithKid(t, q, k) == t.(se := k);
    }
  }

  /** Replacing a child by one whose points lie inside keeps the geometry. */
  lemma ReplacePoints(ps: seq<SonarPoint>, t: Tree, q: int, k: Tree)
    requires t.Inner? && 0 <= q < 4 && PointsInside(t, ps) && PointsInside(k, ps)
    ensures PointsInside(WithKid(t, q, k), ps)
  {
  }

  /** The held points change by what the replaced child gained. */
  lemma ReplaceHeld(t: Tree, q: int, k: Tree)
    requires t.Inner? && 0 <= q < 4
    ensures Held(WithKid(t, q, k)) + Held(Kid(t, q)) == Held(t) + Held(k)
  {
    if q == 0 {
      assert WithKid(t, q, k) == t.(nw := k);
    } else if q == 1 {
      assert WithKid(t, q, k) == t.(ne := k);
    } else if q == 2 {
      assert WithKid(t, q, k) == t.(sw := k);
    } else {
      assert WithKid(t, q, k) == t.(se := k);
    }
  }

  /** Replacing one child of a sound inner node by a sound subtree that kept the
      child's slot, rectangle and depth and only took slots that were free keeps
      the node sound; the held points change by what the child gained. */
  lemma ReplaceKid(ns0: seq<QuadNode>, nu0: seq<bool>, ns: seq<QuadNode>, nu: seq<bool>,
                   ps: seq<SonarPoint>, t: Tree, q: int, k: Tree)
    requires t.Inner? && 0 <= q < 4 && Sound(ns0, nu0, ps, t) && Sound(ns, nu, ps, k)
    requires k.slot == Kid(t, q).slot && k.node.bounds == Kid(t, q).node.bounds
    requires k.node.depth == Kid(t, q).node.depth
    requires Grown(ns0, nu0, ns, nu, Slots(Kid(t, q)), Slots(k))
    ensures Sound(ns, nu, ps, WithKid(t, q, k))
    ensures Grown(ns0, nu0, ns, nu, Slots(t), Slots(WithKid(t, q, k)))
    ensures Held(WithKid(t, q, k)) + Held(Kid(t, q)) == Held(t) + Held(k)
  {
    ReplaceRepresents(ns0, nu0, ns, nu, t, q, k);
    ReplaceLinked(t, q, k);
    ReplaceSlots(t, q, k);
    ReplaceDisjoint(nu0, t, q, k);
    ReplacePoints(ps, t, q, k);
    ReplaceHeld(t, q, k);
    GrownPart(ns0, nu0, ns, nu, Slots(t), Slots(Kid(t, q)), Slots(WithKid(t, q, k)), Slots(k));
  }

  /** Growth of a part is growth of the whole, when the whole changed only there. */
  lemma GrownPart(ns0: seq<QuadNode>, nu0: seq<bool>, ns: seq<QuadNode>, nu: seq<bool>,
                  a: set<nat>, b: set<nat>, a': set<nat>, b': set<nat>)
    requires a' + b == a + b' && b <= a && b' <= a' && AllInUse(a, nu0) && AllInUse(b', nu)
    requires Grown(ns0, nu0, ns, nu, b, b')
    ensures AllInUse(a', nu) && Grown(ns0, nu0, ns, nu, a, a')
  {
  }

  /** The four child pointers of a leaf: all NULL. */
  const NoChildren: seq<int> := [NoNode, NoNode, NoNode, NoNode]

  /** Child `q` of a node as `sonar_quad_subdivide` creates it, holding `pts`. */
  function KidNode(nd: QuadNode, q: int, pts: seq<nat>): (k: QuadNode)
    requires 0 <= q < 4
    ensures k.bounds == ChildBounds(nd.bounds, q) && k.depth == nd.depth + 1 && k.isLeaf
  {
    QuadNode(ChildBounds(nd.bounds, q), pts, NoChildren, true, nd.depth + 1)
  }

  /** The subtree a leaf becomes once split into children at slots `cs`: the
      node keeps no points of its own and each child holds the points routed to
      it. */
  function Split(t: Tree, cs: seq<int>, ps: seq<SonarPoint>): (r: Tree)
    requires |cs| == 4 && forall q :: 0 <= q < 4 ==> 0 <= cs[q]
    requires forall i :: 0 <= i < |t.node.points| ==> t.node.points[i] < |ps|
    ensures r.Inner? && r.slot == t.slot && r.node.bounds == t.node.bounds && r.node.depth == t.node.depth
    ensures r.node.points == [] && r.node.children == cs && !r.node.isLeaf
  {
    var nd := t.node;
    var b := nd.bounds;
    Inner(t.slot, nd.(isLeaf := false, children := cs, points := []),
          Leaf(cs[0], KidNode(nd, 0, Route(nd.points, ps, b, 0))),
          Leaf(cs[1], KidNode(nd, 1, Route(nd.points, ps, b, 1))),
          Leaf(cs[2], KidNode(nd, 2, Route(nd.points, ps, b, 2))),
          Leaf(cs[3], KidNode(nd, 3, Route(nd.points, ps, b, 3))))
  }

  /** Four distinct child slots, none of them the parent's. */
  ghost predicate FreshKids(cs: seq<int>, parent: nat)
  {
    |cs| == 4 && (forall q :: 0 <= q < 4 ==> 0 <= cs[q] && cs[q] != parent)
    && forall q, r :: 0 <= q < r < 4 ==> cs[q] != cs[r]
  }

  /** A well-formed leaf with points inside, above the depth limit, splits into a
      well-formed inner node: children nested one level down, points inside. */
  lemma SplitShape(ps: seq<SonarPoint>, t: Tree, cs: seq<int>)
    requires t.Leaf? && Linked(t) && PointsInside(t, ps) && t.node.depth < MaxDepth && FreshKids(cs, t.slot)
    ensures Linked(Split(t, cs, ps)) && Disjoint(Split(t, cs, ps)) && PointsInside(Split(t, cs, ps), ps)
    ensures Slots(Split(t, cs, ps)) == {t.slot, cs[0], cs[1], cs[2], cs[3]}
  {
    var b := t.node.bounds;
    ChildInside(b, 0);
    ChildInside(b, 1);
    ChildInside(b, 2);
    ChildInside(b, 3);
    assert cs == [cs[0], cs[1], cs[2], cs[3]];
  }

  /** Splitting moves every point of the leaf to exactly one child. */
  lemma SplitHeld(ps: seq<SonarPoint>, t: Tree, cs: seq<int>)
    requires t.Leaf? && Linked(t) && PointsInside(t, ps) && FreshKids(cs, t.slot)
    ensures Held(Split(t, cs, ps)) == Held(t)
  {
    RouteSplits(t.node.points, ps, t.node.bounds);
  }

  /** Routing one more point of a list extends only the routed list of its quadrant. */
  lemma RouteNext(pts: seq<nat>, i: int, ps: seq<SonarPoint>, b: Bounds, q: int)
    requires 0 <= i < |pts| && forall j :: 0 <= j < |pts| ==> pts[j] < |ps|
    ensures Route(pts[..i + 1], ps, b, q) == Route(pts[..i], ps, b, q)
      + (if FirstChild(b, ps[pts[i]].worldX, ps[pts[i]].worldY) == q then [pts[i]] else [])
  {
    assert pts[..i + 1][..i] == pts[..i];
  }

  /** Keeping composes. */
  lemma KeptTrans(ns0: seq<QuadNode>, nu0: seq<bool>, ns1: seq<QuadNode>, nu1: seq<bool>,
                  ns2: seq<QuadNode>, nu2: seq<bool>)
    requires Kept(ns0, nu0, ns1, nu1) && Kept(ns1, nu1, ns2, nu2)
    ensures Kept(ns0, nu0, ns2, nu2)
  {
  }
}
