/** The sonar chart (sonar_chart.c): discoveries of the sonar are points in a
    512-slot pool, indexed by a quadtree whose nodes live in a 128-slot pool.
    Pointers are modelled as slot indices; the ghost field `tree` mirrors the
    nodes reachable from the root. */
module SonarCharts {
  import opened CInt
  import opened Pools
  import opened SonarGeometry
  import opened SonarFade
  import opened SonarTree
  import opened SonarSearch
  import opened SonarSweep

  /** A point record as `sonar_point_pool_alloc` hands it out: zeroed. */
  const BlankPoint: SonarPoint := SonarPoint(0, 0, 0, Full, false)

  /** The node pool `(ns, nu)` while the leaf at slot `n` gains or loses
      children, starting from `(ns0, nu0)`: each child pointer is NULL or a blank
      quadrant in a slot that was free, the slots in use are the old ones plus the
      children, and nothing else in use changed. */
  ghost predicate Linkage(ns0: seq<QuadNode>, nu0: seq<bool>, n: int, ns: seq<QuadNode>, nu: seq<bool>)
  {
    |nu0| == NodePoolSize && |ns0| == NodePoolSize && |ns| == NodePoolSize && |nu| == NodePoolSize
    && 0 <= n < NodePoolSize && nu0[n] && ns0[n].children == NoChildren
    && var ch := ns[n].children;
    |ch| == 4 && ns[n] == ns0[n].(children := ch)
    && (forall q :: 0 <= q < 4 && ch[q] != NoNode ==>
          0 <= ch[q] < NodePoolSize && !nu0[ch[q]] && ns[ch[q]] == KidNode(ns0[n], q, []))
    && (forall q, r :: 0 <= q < r < 4 && ch[q] != NoNode ==> ch[q] != ch[r])
    && (forall s :: 0 <= s < NodePoolSize ==> (nu[s] <==> nu0[s] || s == ch[0] || s == ch[1] || s == ch[2] || s == ch[3]))
    && (forall s :: 0 <= s < NodePoolSize && nu0[s] && s != n ==> ns[s] == ns0[s])
  }

  /** The children after the first `k` of the four `sonar_quad_create` calls:
      creation `q` succeeded exactly when the pool still had a free slot. */
  ghost predicate Attached(ns0: seq<QuadNode>, nu0: seq<bool>, n: int, k: int, ns: seq<QuadNode>, nu: seq<bool>)
  {
    Linkage(ns0, nu0, n, ns, nu) && 0 <= k <= 4
    && (forall q :: k <= q < 4 ==> ns[n].children[q] == NoNode)
    && (forall q :: 0 <= q < k ==> (ns[n].children[q] != NoNode <==> CountTrue(nu0) + q < NodePoolSize))
    && CountTrue(nu) == (if CountTrue(nu0) + k < NodePoolSize then CountTrue(nu0) + k else NodePoolSize)
  }

  /** Before the first creation. */
  lemma AttachedStart(ns0: seq<QuadNode>, nu0: seq<bool>, n: int)
    requires |nu0| == NodePoolSize && |ns0| == NodePoolSize && 0 <= n < NodePoolSize && nu0[n]
    requires ns0[n].children == NoChildren
    ensures Attached(ns0, nu0, n, 0, ns0, nu0)
  {
    CountFull(nu0);
  }

  /** A creation that found the pool full changes nothing. */
  lemma AttachFailed(ns0: seq<QuadNode>, nu0: seq<bool>, n: int, k: int, ns: seq<QuadNode>, nu: seq<bool>,
                     ns': seq<QuadNode>)
    requires Attached(ns0, nu0, n, k, ns, nu) && k < 4 && CountTrue(nu) == NodePoolSize
    requires ns' == ns[n := ns[n].(children := ns[n].children[k := NoNode])]
    ensures Attached(ns0, nu0, n, k + 1, ns', nu)
  {
    assert ns[n].children[k := NoNode] == ns[n].children;
    assert ns[n := ns[n]] == ns;
  }

  /** A creation that took the free slot `c` records it as child `k`. */
  lemma AttachMade(ns0: seq<QuadNode>, nu0: seq<bool>, n: int, k: int, ns: seq<QuadNode>, nu: seq<bool>, c: int,
                   ns': seq<QuadNode>, nu': seq<bool>)
    requires Attached(ns0, nu0, n, k, ns, nu) && k < 4 && CountTrue(nu) < NodePoolSize
    requires 0 <= c < NodePoolSize && !nu[c] && nu' == nu[c := true]
    requires ns' == ns[c := KidNode(ns0[n], k, [])][n := ns[n].(children := ns[n].children[k := c])]
    ensures Attached(ns0, nu0, n, k + 1, ns', nu')
  {
    LinkMade(ns0, nu0, n, k, ns, nu, c, ns', nu');
    CountUpdate(nu, c, true);
    assert ns'[n].children == ns[n].children[k := c];
  }

  /** Recording the fresh slot `c` as child `k` keeps the linkage. */
  lemma LinkMade(ns0: seq<QuadNode>, nu0: seq<bool>, n: int, k: int, ns: seq<QuadNode>, nu: seq<bool>, c: int,
                 ns': seq<QuadNode>, nu': seq<bool>)
    requires Linkage(ns0, nu0, n, ns, nu) && 0 <= k < 4 && ns[n].children[k] == NoNode
    requires 0 <= c < NodePoolSize && !nu[c] && nu' == nu[c := true]
    requires ns' == ns[c := KidNode(ns0[n], k, [])][n := ns[n].(children := ns[n].children[k := c])]
    ensures Linkage(ns0, nu0, n, ns', nu')
  {
    var ch, ch' := ns[n].children, ns'[n].children;
    assert c != n && !nu0[c];
    assert ch' == ch[k := c];
    assert ns'[n] == ns0[n].(children := ch');
    forall q | 0 <= q < 4 && ch'[q] != NoNode
      ensures 0 <= ch'[q] < NodePoolSize && !nu0[ch'[q]] && ns'[ch'[q]] == KidNode(ns0[n], q, [])
    {
      if q != k {
        assert ch[q] != c && ch[q] != n;
      }
    }
    forall s | 0 <= s < NodePoolSize && nu0[s] && s != n
      ensures ns'[s] == ns0[s]
    {
      assert s != c;
    }
  }

  /** Exactly the child pointers `j` to `i - 1` are set. */
  ghost predicate SetBetween(ch: seq<int>, j: int, i: int)
  {
    |ch| == 4 && forall q :: 0 <= q < 4 ==> (ch[q] != NoNode <==> j <= q < i)
  }

  /** Returning child `j` to the pool and clearing its pointer keeps the linkage. */
  lemma Detach(ns0: seq<QuadNode>, nu0: seq<bool>, n: int, ns: seq<QuadNode>, nu: seq<bool>, j: int, i: int,
               ns': seq<QuadNode>, nu': seq<bool>)
    requires Linkage(ns0, nu0, n, ns, nu) && SetBetween(ns[n].children, j, i) && 0 <= j < i <= 4
    requires nu' == nu[ns[n].children[j] := false]
    requires ns' == ns[n := ns[n].(children := ns[n].children[j := NoNode])]
    ensures Linkage(ns0, nu0, n, ns', nu') && SetBetween(ns'[n].children, j + 1, i)
  {
  }

  /** Once every child pointer is NULL again the pool is as it was, except for
      the records of slots that are free. */
  lemma Detached(ns0: seq<QuadNode>, nu0: seq<bool>, n: int, ns: seq<QuadNode>, nu: seq<bool>, i: int)
    requires Linkage(ns0, nu0, n, ns, nu) && SetBetween(ns[n].children, i, i)
    ensures Kept(ns0, nu0, ns, nu) && ns[n] == ns0[n]
  {
    assert ns[n].children == NoChildren;
  }

  /** The node pool `ns` partway through the redistribution loop of
      `sonar_quad_subdivide`: the node record `nd` of slot `n` is now internal
      with children `cs`, each child holds the points among the first `i` that it
      was handed, and no other slot changed since `ns1`. */
  ghost predicate Redistributed(ns1: seq<QuadNode>, n: int, cs: seq<int>, nd: QuadNode, i: int,
                                ps: seq<SonarPoint>, ns: seq<QuadNode>)
  {
    |ns| == |ns1| && 0 <= n < |ns| && |cs| == 4 && 0 <= i <= |nd.points|
    && (forall j :: 0 <= j < |nd.points| ==> nd.points[j] < |ps|)
    && (forall q :: 0 <= q < 4 ==> 0 <= cs[q] < |ns| && cs[q] != n)
    && ns[n] == nd.(isLeaf := false, children := cs)
    && (forall q :: 0 <= q < 4 ==> ns[cs[q]] == KidNode(nd, q, Route(nd.points[..i], ps, nd.bounds, q)))
    && (forall s :: 0 <= s < |ns| && s != n && s != cs[0] && s != cs[1] && s != cs[2] && s != cs[3]
          ==> ns[s] == ns1[s])
  }

  /** Handing point `i` to its first quadrant extends that child's list only. */
  lemma RedistributeStep(ns1: seq<QuadNode>, n: int, cs: seq<int>, nd: QuadNode, i: int,
                         ps: seq<SonarPoint>, ns: seq<QuadNode>, k: int)
    requires Redistributed(ns1, n, cs, nd, i, ps, ns) && i < |nd.points| && FreshKids(cs, n)
    requires k == FirstChild(nd.bounds, ps[nd.points[i]].worldX, ps[nd.points[i]].worldY) && k < 4
    ensures Redistributed(ns1, n, cs, nd, i + 1, ps,
                          ns[cs[k] := ns[cs[k]].(points := ns[cs[k]].points + [nd.points[i]])])
  {
    var ns' := ns[cs[k] := ns[cs[k]].(points := ns[cs[k]].points + [nd.points[i]])];
    forall q | 0 <= q < 4
      ensures ns'[cs[q]] == KidNode(nd, q, Route(nd.points[..i + 1], ps, nd.bounds, q))
    {
      RouteNext(nd.points, i, ps, nd.bounds, q);
    }
  }

  /** Once every point has been handed on and the node's own list emptied, the
      pool holds the split subtree. */
  lemma SplitRepresented(ns: seq<QuadNode>, t: Tree, cs: seq<int>, ps: seq<SonarPoint>)
    requires FreshKids(cs, t.slot) && t.slot < |ns|
    requires forall i :: 0 <= i < |t.node.points| ==> t.node.points[i] < |ps|
    requires ns[t.slot] == t.node.(isLeaf := false, children := cs, points := [])
    requires forall q :: 0 <= q < 4 ==> cs[q] < |ns| && ns[cs[q]] == KidNode(t.node, q, Route(t.node.points, ps, t.node.bounds, q))
    ensures Represents(ns, Split(t, cs, ps))
  {
  }

  /** Right after the four children were made and the node marked internal,
      no point has been handed on yet. */
  lemma RedistributeStart(ns0: seq<QuadNode>, nu0: seq<bool>, ns1: seq<QuadNode>, nu1: seq<bool>,
                          ns: seq<QuadNode>, ps: seq<SonarPoint>, t: Tree, cs: seq<int>)
    requires Sound(ns0, nu0, ps, t) && t.Leaf?
    requires Linkage(ns0, nu0, t.slot, ns1, nu1) && cs == ns1[t.slot].children && FreshKids(cs, t.slot)
    requires ns == ns1[t.slot := ns1[t.slot].(isLeaf := false)]
    ensures Redistributed(ns1, t.slot, cs, t.node, 0, ps, ns)
  {
    assert t.node.points[..0] == [];
  }

  /** A split that found four free slots and handed every point on leaves a
      sound subtree with the same points, grown only into slots that were free. */
  lemma SplitDone(ns0: seq<QuadNode>, nu0: seq<bool>, ns1: seq<QuadNode>, nu1: seq<bool>,
                  ns2: seq<QuadNode>, ns: seq<QuadNode>, ps: seq<SonarPoint>, t: Tree, cs: seq<int>)
    requires Sound(ns0, nu0, ps, t) && t.Leaf? && t.node.depth < MaxDepth
    requires Linkage(ns0, nu0, t.slot, ns1, nu1) && cs == ns1[t.slot].children && FreshKids(cs, t.slot)
    requires Redistributed(ns1, t.slot, cs, t.node, |t.node.points|, ps, ns2)
    requires ns == ns2[t.slot := ns2[t.slot].(points := [])]
    ensures Sound(ns, nu1, ps, Split(t, cs, ps)) && Held(Split(t, cs, ps)) == Held(t)
    ensures Grown(ns0, nu0, ns, nu1, Slots(t), Slots(Split(t, cs, ps)))
  {
    var n := t.slot;
    assert t.node.points[..|t.node.points|] == t.node.points;
    assert ns[n] == t.node.(isLeaf := false, children := cs, points := []);
    forall q | 0 <= q < 4
      ensures cs[q] < |ns| && ns[cs[q]] == KidNode(t.node, q, Route(t.node.points, ps, t.node.bounds, q))
    {
      assert ns[cs[q]] == ns2[cs[q]];
    }
    forall s | 0 <= s < |ns| && s != n && s != cs[0] && s != cs[1] && s != cs[2] && s != cs[3]
      ensures ns[s] == ns1[s]
    {
      assert ns[s] == ns2[s];
    }
    SplitRepresented(ns, t, cs, ps);
    SplitShape(ps, t, cs);
    SplitHeld(ps, t, cs);
    LinkageInUse(ns0, nu0, n, ns1, nu1, cs);
    SplitGrown(ns0, nu0, ns1, nu1, ns, n, cs);
  }

  /** After the children are made, the node and its four children are in use. */
  lemma LinkageInUse(ns0: seq<QuadNode>, nu0: seq<bool>, n: int, ns1: seq<QuadNode>, nu1: seq<bool>, cs: seq<int>)
    requires Linkage(ns0, nu0, n, ns1, nu1) && cs == ns1[n].children && FreshKids(cs, n)
    ensures AllInUse({n, cs[0], cs[1], cs[2], cs[3]}, nu1)
  {
    forall q | 0 <= q < 4 ensures cs[q] < |nu1| && nu1[cs[q]] {
      assert cs[q] != NoNode;
    }
  }

  /** The pool after a split differs from the one before only at the node and at
      four slots that were free. */
  lemma SplitGrown(ns0: seq<QuadNode>, nu0: seq<bool>, ns1: seq<QuadNode>, nu1: seq<bool>,
                   ns: seq<QuadNode>, n: nat, cs: seq<int>)
    requires Linkage(ns0, nu0, n, ns1, nu1) && cs == ns1[n].children && FreshKids(cs, n) && |ns| == |ns1|
    requires forall s :: 0 <= s < |ns| && s != n && s != cs[0] && s != cs[1] && s != cs[2] && s != cs[3]
               ==> ns[s] == ns1[s]
    ensures Grown(ns0, nu0, ns, nu1, {n}, {n, cs[0], cs[1], cs[2], cs[3]})
  {
  }

  /** A child that took one more point makes its parent hold one more point. */
  lemma ReplaceKidAdding(ns0: seq<QuadNode>, nu0: seq<bool>, ns: seq<QuadNode>, nu: seq<bool>,
                         ps: seq<SonarPoint>, t: Tree, q: int, k: Tree, p: nat)
    requires t.Inner? && 0 <= q < 4 && Sound(ns0, nu0, ps, t) && Sound(ns, nu, ps, k)
    requires k.slot == Kid(t, q).slot && k.node.bounds == Kid(t, q).node.bounds
    requires k.node.depth == Kid(t, q).node.depth
    requires Grown(ns0, nu0, ns, nu, Slots(Kid(t, q)), Slots(k))
    requires Held(k) == Held(Kid(t, q)) + multiset{p}
    ensures Sound(ns, nu, ps, WithKid(t, q, k)) && Held(WithKid(t, q, k)) == Held(t) + multiset{p}
    ensures Grown(ns0, nu0, ns, nu, Slots(t), Slots(WithKid(t, q, k)))
  {
    ReplaceKid(ns0, nu0, ns, nu, ps, t, q, k);
    MultisetCancel(Held(WithKid(t, q, k)), Held(Kid(t, q)), Held(t), p);
  }

  lemma MultisetCancel(a: multiset<nat>, b: multiset<nat>, c: multiset<nat>, p: nat)
    requires a + b == c + (b + multiset{p})
    ensures a == c + multiset{p}
  {
    forall x ensures a[x] == (c + multiset{p})[x] {
      assert (a + b)[x] == (c + (b + multiset{p}))[x];
    }
  }

  /** Keeping and then growing is growing. */
  lemma KeptGrown(ns0: seq<QuadNode>, nu0: seq<bool>, ns1: seq<QuadNode>, nu1: seq<bool>,
                  ns2: seq<QuadNode>, nu2: seq<bool>, s0: set<nat>, s1: set<nat>)
    requires Kept(ns0, nu0, ns1, nu1) && Grown(ns1, nu1, ns2, nu2, s0, s1)
    ensures Grown(ns0, nu0, ns2, nu2, s0, s1)
  {
  }

  /** A point rediscovered by `sonar_chart_add_point` at time `now`: its
      timestamp is renewed, it is fully visible again, and it is terrain if it was
      terrain or the new sample is. */
  function Refreshed(pt: SonarPoint, now: int, isTerrain: bool): (r: SonarPoint)
    ensures r.worldX == pt.worldX && r.worldY == pt.worldY
    ensures r.discoveryTime == now && r.fade == Full
    ensures r.isTerrain <==> pt.isTerrain || isTerrain
  {
    pt.(discoveryTime := now, fade := Full, isTerrain := if isTerrain then true else pt.isTerrain)
  }

  /** The points a tree holds are exactly the point slots in use, each once. */
  ghost predicate Stored(h: multiset<nat>, inUse: seq<bool>)
  {
    h == Marked(inUse)
  }

  /** The whole tree: nothing besides it holds points. */
  lemma NoRest(h: multiset<nat>)
    ensures multiset{} + h == h
  {
  }

  /** Taking a free slot and adding it to the held points keeps them stored. */
  lemma StoredAdd(h: multiset<nat>, inUse: seq<bool>, s: nat)
    requires Stored(h, inUse) && s < |inUse| && !inUse[s]
    ensures s !in h
    ensures Stored(h + multiset{s}, inUse[s := true])
  {
    MarkedMeans(inUse, s);
    MarkedSet(inUse, s);
  }

  /** Giving back a slot the held points do not include keeps them stored. */
  lemma StoredRemove(h: multiset<nat>, inUse: seq<bool>, s: nat)
    requires Stored(h + multiset{s}, inUse) && s < |inUse|
    ensures inUse[s] && Stored(h, inUse[s := false])
  {
    MarkedMeans(inUse, s);
    MarkedClear(inUse, s);
  }

  /** The in-use flags once the gone points among `pts` have been given back,
      in list order. */
  ghost function Freed(inUse: seq<bool>, pts: seq<nat>, ps: seq<SonarPoint>, now: int): (r: seq<bool>)
    ensures |r| == |inUse|
    ensures forall s :: 0 <= s < |r| && r[s] ==> inUse[s]
  {
    if |pts| == 0 then inUse
    else
      var r0 := Freed(inUse, pts[..|pts| - 1], ps, now);
      var p := pts[|pts| - 1];
      if p < |r0| && !Alive(ps, p, now) then r0[p := false] else r0
  }

  /** A slot the list does not name keeps its flag. */
  lemma {:induction false} FreedKeeps(inUse: seq<bool>, pts: seq<nat>, ps: seq<SonarPoint>, now: int, s: nat)
    requires s < |inUse| && forall j :: 0 <= j < |pts| ==> pts[j] != s
    ensures Freed(inUse, pts, ps, now)[s] == inUse[s]
  {
    if |pts| > 0 {
      FreedKeeps(inUse, pts[..|pts| - 1], ps, now, s);
    }
  }

  /** The slots a stored list names are in use, and no slot is named twice. */
  lemma StoredList(rest: multiset<nat>, pts: seq<nat>, inUse: seq<bool>)
    requires Stored(rest + multiset(pts), inUse)
    ensures forall j :: 0 <= j < |pts| ==> pts[j] < |inUse| && inUse[pts[j]]
    ensures forall j, k :: 0 <= j < k < |pts| ==> pts[j] != pts[k]
  {
    forall j | 0 <= j < |pts|
      ensures pts[j] < |inUse| && inUse[pts[j]]
    {
      assert pts[j] in multiset(pts);
      MarkedMeans(inUse, pts[j]);
    }
    forall j, k | 0 <= j < k < |pts|
      ensures pts[j] != pts[k]
    {
      if pts[j] == pts[k] {
        var p := pts[j];
        assert pts == pts[..k] + pts[k..];
        assert pts[..k][j] == p && pts[k..][0] == p;
        assert multiset(pts)[p] == multiset(pts[..k])[p] + multiset(pts[k..])[p];
        MarkedMeans(inUse, p);
        assert false;
      }
    }
  }

  /** Freeing the gone points of a stored list leaves its survivors stored. */
  lemma {:induction false} StoredFreed(rest: multiset<nat>, pts: seq<nat>, inUse: seq<bool>, ps: seq<SonarPoint>, now: int)
    requires Stored(rest + multiset(pts), inUse)
    ensures Stored(rest + multiset(Survivors(pts, ps, now)), Freed(inUse, pts, ps, now))
    decreases |pts|
  {
    if |pts| > 0 {
      var init, p := pts[..|pts| - 1], pts[|pts| - 1];
      assert pts == init + [p];
      assert rest + multiset(pts) == (rest + multiset{p}) + multiset(init);
      StoredFreed(rest + multiset{p}, init, inUse, ps, now);
      var r0 := Freed(inUse, init, ps, now);
      var h := rest + multiset(Survivors(init, ps, now));
      assert Stored(h + multiset{p}, r0);
      MarkedMeans(r0, p);
      if !Alive(ps, p, now) {
        StoredRemove(h, r0, p);
      } else {
        assert multiset(Survivors(init, ps, now) + [p]) == multiset(Survivors(init, ps, now)) + multiset{p};
      }
    }
  }

  /** Before the sweep of child `q` of a partly swept node `cur`: the child is a
      sound subtree named by the node's record, not yet swept, and the points of
      the rest of the tree together with the child's are the ones stored. */
  lemma KidStart(ns: seq<QuadNode>, nu: seq<bool>, ps: seq<SonarPoint>, u: seq<bool>, t: Tree, cur: Tree,
                 q: int, now: int, rest: multiset<nat>, ps0: seq<SonarPoint>)
    requires t.Inner? && 0 <= q < 4 && cur == PartSwept(t, q, ps0, now)
    requires Sound(ns, nu, ps, cur) && Stored(rest + Held(cur), u)
    ensures Sound(ns, nu, ps, Kid(cur, q)) && Kid(cur, q) == Kid(t, q)
    ensures cur.slot < |ns| && ns[cur.slot].children[q] == Kid(cur, q).slot
    ensures Stored((rest + (Held(cur) - Held(Kid(cur, q)))) + Held(Kid(cur, q)), u)
  {
    PartSweptKid(t, q, ps0, now, q);
    KidSound(ns, nu, ps, cur, q);
    KidHeld(cur, q);
    assert (rest + (Held(cur) - Held(Kid(cur, q)))) + Held(Kid(cur, q)) == rest + Held(cur);
  }

  /** After it: putting the swept child `k` back in `cur` takes one more step of
      the partial sweep, and the records, the stored points and the restaging all
      follow. */
  lemma KidSwept(ns1: seq<QuadNode>, ns2: seq<QuadNode>, nu: seq<bool>, ps0: seq<SonarPoint>,
                 ps1: seq<SonarPoint>, ps2: seq<SonarPoint>, u: seq<bool>, t: Tree, cur: Tree, q: int,
                 now: int, rest: multiset<nat>, k: Tree)
    requires t.Inner? && 0 <= q < 4 && cur == PartSwept(t, q, ps0, now) && Kid(cur, q) == Kid(t, q)
    requires Sound(ns1, nu, ps1, cur) && Refaded(ps0, ps1, SweptLeaves(t, q, ps0, now), now)
    requires Sound(ns2, nu, ps2, k) && k == Swept(Kid(cur, q), ps1, now)
    requires Stored((rest + (Held(cur) - Held(Kid(cur, q)))) + Held(k), u)
    requires Refaded(ps1, ps2, LeafHeld(k), now)
    requires Grown(ns1, nu, ns2, nu, Slots(Kid(cur, q)), Slots(k))
    ensures Sound(ns2, nu, ps2, WithKid(cur, q, k))
    ensures WithKid(cur, q, k) == PartSwept(t, q + 1, ps0, now)
    ensures Refaded(ps0, ps2, SweptLeaves(t, q + 1, ps0, now), now)
    ensures Stored(rest + Held(WithKid(cur, q, k)), u)
    ensures |Held(WithKid(cur, q, k))| + |Held(Kid(cur, q))| == |Held(cur)| + |Held(k)|
    ensures Grown(ns1, nu, ns2, nu, Slots(cur), Slots(WithKid(cur, q, k)))
  {
    var kid := Kid(cur, q);
    KidHeld(cur, q);
    RefadedKeeps(ps0, ps1, SweptLeaves(t, q, ps0, now), now);
    SweptTimes(kid, ps0, ps1, now);
    SoundRefaded(ns1, nu, ps1, ps2, LeafHeld(k), now, cur);
    ReplaceKid(ns1, nu, ns2, nu, ps2, cur, q, k);
    Rebalance(rest, Held(cur), Held(kid), Held(WithKid(cur, q, k)), Held(k));
    RefadedTrans(ps0, ps1, ps2, SweptLeaves(t, q, ps0, now), LeafHeld(k), now);
  }

  /** Every point held before is still held and still marks the same cell. */
  ghost predicate StillCharted(h0: multiset<nat>, ps0: seq<SonarPoint>, h: multiset<nat>, ps: seq<SonarPoint>)
  {
    forall p :: p in h0 ==>
      p in h && p < |ps0| && p < |ps| && ps[p].worldX == ps0[p].worldX && ps[p].worldY == ps0[p].worldY
  }

  /** Rewriting one record without moving a point that was held, while the
      tree loses nothing, keeps every old point charted. */
  lemma StillChartedWrite(h0: multiset<nat>, ps0: seq<SonarPoint>, h: multiset<nat>, ps: seq<SonarPoint>, s: nat)
    requires forall p :: p in h0 ==> p < |ps0|
    requires forall p :: p in h0 ==> p in h
    requires |ps| == |ps0| && s < |ps|
    requires forall p :: 0 <= p < |ps| && p != s ==> ps[p] == ps0[p]
    requires s in h0 ==> ps[s].worldX == ps0[s].worldX && ps[s].worldY == ps0[s].worldY
    ensures StillCharted(h0, ps0, h, ps)
  {
  }

  /** The point slots a subtree holds at cell (x, y). */
  ghost function CellPoints(ps: seq<SonarPoint>, t: Tree, x: int, y: int): (r: set<nat>)
    ensures forall p :: p in r ==> p in Held(t) && p < |ps| && ps[p].worldX == x && ps[p].worldY == y
  {
    set p | p in Held(t) && p < |ps| && ps[p].worldX == x && ps[p].worldY == y
  }

  /** A query of a window from the root fills the buffer with the first points
      found, as many as fit, each a held point inside the window. */
  lemma AreaFound(ps: seq<SonarPoint>, t: Tree, w: Bounds, o: seq<nat>, o0: seq<nat>, count: int, max: int)
    requires Emitted(o, o0, 0, Found(ps, t, w), count, max)
    ensures 0 <= count <= max && count == Min(|Found(ps, t, w)|, max)
    ensures o[..count] == Found(ps, t, w)[..count]
    ensures forall j :: 0 <= j < count ==> o[j] in Held(t) && InWindow(ps, o[j], w)
  {
    var f := Found(ps, t, w);
    assert o[..count] == f[..count] by {
      assert o[0..count] == o[..count];
    }
    forall j | 0 <= j < count
      ensures o[j] in Held(t) && InWindow(ps, o[j], w)
    {
      assert o[j] == f[j] && f[j] in f;
      FoundMeans(ps, t, w, o[j]);
    }
  }

  /** A query of the single cell (x, y) into a buffer of nine fills the buffer
      with points of that cell, and reports at least one exactly when the subtree
      holds one there. */
  lemma CellFound(ps: seq<SonarPoint>, t: Tree, x: int, y: int, o: seq<nat>, o0: seq<nat>, count: int)
    requires Emitted(o, o0, 0, Found(ps, t, Bounds(x, y, x, y)), count, 9)
    ensures count > 0 <==> CellPoints(ps, t, x, y) != {}
    ensures forall j :: 0 <= j < count ==> o[j] in CellPoints(ps, t, x, y)
    ensures count > 0 ==> |Found(ps, t, Bounds(x, y, x, y))| > 0 && o[0] == Found(ps, t, Bounds(x, y, x, y))[0]
  {
    var f := Found(ps, t, Bounds(x, y, x, y));
    forall j | 0 <= j < count ensures o[j] in CellPoints(ps, t, x, y) {
      assert o[j] == o[0..count][j] == f[..count][j];
      FoundAtCell(ps, t, x, y, o[j]);
    }
    if CellPoints(ps, t, x, y) != {} {
      var p :| p in CellPoints(ps, t, x, y);
      FoundAtCell(ps, t, x, y, p);
      assert p in f;
    }
    if count > 0 {
      EmittedFirst(o, o0, f, count, 9);
      assert o[0] in CellPoints(ps, t, x, y);
    }
  }

  /** A non-empty emission from the front of the buffer starts with the first
      finding. */
  lemma EmittedFirst(o: seq<nat>, o0: seq<nat>, f: seq<nat>, count: int, max: int)
    requires Emitted(o, o0, 0, f, count, max) && count > 0
    ensures |f| > 0 && o[0] == f[0]
  {
    assert o[0] == o[0..count][0];
  }

  /** The points a one-cell window finds are those stored at the cell. */
  lemma FoundAtCell(ps: seq<SonarPoint>, t: Tree, x: int, y: int, p: nat)
    ensures p in Found(ps, t, Bounds(x, y, x, y)) <==> p in CellPoints(ps, t, x, y)
  {
    FoundMeans(ps, t, Bounds(x, y, x, y), p);
  }

  /** A pool's `next_free` cursor, which always names one of its slots. */
  type NodeCursor = x: int | 0 <= x < NodePoolSize
  type PointCursor = x: int | 0 <= x < PointPoolSize

  /** `SonarChart` with its two pools embedded. */
  class SonarChart {
    /** `node_pool`: records, in-use flags and the allocation cursor. */
    const nodes: array<QuadNode>
    const nodeInUse: array<bool>
    var nodeNextFree: NodeCursor
    /** `point_pool`: records, in-use flags, the cursor and the in-use count. */
    const points: array<SonarPoint>
    const pointInUse: array<bool>
    var pointNextFree: PointCursor
    var activeCount: int
    /** `root`, as a node slot. */
    const root: int
    var lastFadeUpdate: int
    /** The nodes reachable from `root`. */
    ghost var tree: Tree

    /** Both pools have their fixed sizes. */
    ghost predicate PoolsOk()
    {
      nodes.Length == NodePoolSize && nodeInUse.Length == NodePoolSize
      && points.Length == PointPoolSize && pointInUse.Length == PointPoolSize
      && nodeInUse != pointInUse
    }

    /** `active_count` counts the point slots in use. */
    ghost predicate CountOk()
      reads this`activeCount, pointInUse
    {
      activeCount == CountTrue(pointInUse[..])
    }

    /** The quadtree below the root: its records are in the node pool, in use and
        well linked, and every point it holds lies inside its node. */
    ghost predicate TreeOk()
      reads this`tree, nodes, nodeInUse, points
    {
      Sound(nodes[..], nodeInUse[..], points[..], tree)
      && tree.slot == root && tree.node.bounds == RootBounds && tree.node.depth == 0
    }

    /** The tree holds each point slot at most once, and exactly the slots in use. */
    ghost predicate StoredOk()
      reads this`tree, pointInUse
    {
      Stored(Held(tree), pointInUse[..])
    }

    ghost predicate Valid()
      reads this, nodes, nodeInUse, points, pointInUse
    {
      PoolsOk() && CountOk() && TreeOk() && StoredOk() && IsU32(lastFadeUpdate)
    }

    /** `sonar_chart_alloc`: both pools empty, then the root leaf over the whole
        int16_t plane taken from node slot 0, so the node cursor stands at 1. The
        point records are not initialised by the source and are zeros here. */
    constructor ()
      ensures Valid() && fresh(nodes) && fresh(nodeInUse) && fresh(points) && fresh(pointInUse)
      ensures root == 0 && tree == Leaf(0, QuadNode(RootBounds, [], NoChildren, true, 0))
      ensures nodeInUse[..] == seq(NodePoolSize, s => s == 0) && nodeNextFree == 1
      ensures Held(tree) == multiset{} && activeCount == 0 && pointNextFree == 0 && lastFadeUpdate == 0
    {
      var rootNode := QuadNode(RootBounds, [], NoChildren, true, 0);
      nodes := new QuadNode[NodePoolSize](s => if s == 0 then rootNode else BlankNode);
      nodeInUse := new bool[NodePoolSize](s => s == 0);
      nodeNextFree := 1;
      points := new SonarPoint[PointPoolSize](_ => SonarPoint(0, 0, 0, Full, false));
      pointInUse := new bool[PointPoolSize](_ => false);
      pointNextFree := 0;
      activeCount := 0;
      root := 0;
      lastFadeUpdate := 0;
      tree := Leaf(0, rootNode);
      new;
      NoneMarked(pointInUse[..]);
      assert nodeInUse[..] == seq(NodePoolSize, s => s == 0);
    }

    /** The points stored at a cell. */
    ghost function At(x: int, y: int): (r: set<nat>)
      reads this, points
    {
      CellPoints(points[..], tree, x, y)
    }

    // -------------------------------------------------------------------------
    // Pools

    /** `sonar_node_pool_alloc`: the first free slot from the cursor on, cyclically,
        reset to a blank leaf; the cursor moves just past it. */
    method AllocNode() returns (r: int)
      requires PoolsOk()
      modifies this`nodeNextFree, nodes, nodeInUse
      ensures PoolsOk()
      ensures r == NoNode <==> forall s :: 0 <= s < NodePoolSize ==> old(nodeInUse[s])
      ensures r == NoNode ==> nodes[..] == old(nodes[..]) && nodeInUse[..] == old(nodeInUse[..])
      ensures r != NoNode ==>
        0 <= r < NodePoolSize && FirstFreeFrom(old(nodeInUse[..]), old(nodeNextFree), 0) == Some(r)
        && nodeInUse[..] == old(nodeInUse[..])[r := true] && nodes[..] == old(nodes[..])[r := BlankNode]
        && nodeNextFree == (r + 1) % NodePoolSize
    {
      FirstFreeNoneIffFull(nodeInUse[..], nodeNextFree);
      var i := 0;
      while i < NodePoolSize
        invariant 0 <= i <= NodePoolSize
        invariant FirstFreeFrom(nodeInUse[..], nodeNextFree, 0) == FirstFreeFrom(nodeInUse[..], nodeNextFree, i)
      {
        var index := Cyclic(nodeNextFree, i, NodePoolSize);
        if !nodeInUse[index] {
          nodeInUse[index] := true;
          nodeNextFree := (index + 1) % NodePoolSize;
          nodes[index] := BlankNode;
          return index;
        }
        i := i + 1;
      }
      return NoNode;
    }

    /** `sonar_node_pool_free`: the slot is free again. */
    method FreeNode(s: int)
      requires PoolsOk() && 0 <= s < NodePoolSize
      modifies nodeInUse
      ensures nodeInUse[..] == old(nodeInUse[..])[s := false]
    {
      nodeInUse[s] := false;
    }

    /** `sonar_point_pool_alloc`: nothing when `active_count` has reached the pool
        size, otherwise the first free slot from the cursor on, zeroed. */
    method AllocPoint() returns (r: Option<nat>)
      requires PoolsOk() && CountOk()
      modifies this`pointNextFree, this`activeCount, points, pointInUse
      ensures PoolsOk() && CountOk()
      ensures r.None? <==> old(activeCount) == PointPoolSize
      ensures r.None? ==> points[..] == old(points[..]) && pointInUse[..] == old(pointInUse[..])
      ensures r.Some? ==>
        r.value < PointPoolSize && !old(pointInUse[r.value])
        && FirstFreeFrom(old(pointInUse[..]), old(pointNextFree), 0) == r
        && pointInUse[..] == old(pointInUse[..])[r.value := true]
        && points[..] == old(points[..])[r.value := BlankPoint]
        && activeCount == old(activeCount) + 1 && pointNextFree == (r.value + 1) % PointPoolSize
    {
      CountFull(pointInUse[..]);
      if activeCount >= PointPoolSize {
        return None;
      }
      FirstFreeNoneIffFull(pointInUse[..], pointNextFree);
      var i := 0;
      while i < PointPoolSize
        invariant 0 <= i <= PointPoolSize
        invariant FirstFreeFrom(pointInUse[..], pointNextFree, 0) == FirstFreeFrom(pointInUse[..], pointNextFree, i)
      {
        var index := Cyclic(pointNextFree, i, PointPoolSize);
        if !pointInUse[index] {
          CountUpdate(pointInUse[..], index, true);
          pointInUse[index] := true;
          pointNextFree := (index + 1) % PointPoolSize;
          activeCount := activeCount + 1;
          points[index] := BlankPoint;
          return Some(index);
        }
        i := i + 1;
      }
      return None;
    }

    /** `sonar_point_pool_free`: the slot is free again and the count drops by one. */
    method FreePoint(p: nat)
      requires PoolsOk() && CountOk() && p < PointPoolSize && pointInUse[p]
      modifies this`activeCount, pointInUse
      ensures CountOk()
      ensures pointInUse[..] == old(pointInUse[..])[p := false]
      ensures activeCount == old(activeCount) - 1
    {
      CountUpdate(pointInUse[..], p, false);
      pointInUse[p] := false;
      activeCount := activeCount - 1;
    }

    /** `sonar_quad_create`: a fresh leaf with the given rectangle and depth, or
        `NoNode` when every node slot is taken. */
    method CreateNode(b: Bounds, depth: nat) returns (r: int)
      requires PoolsOk()
      modifies this`nodeNextFree, nodes, nodeInUse
      ensures PoolsOk()
      ensures r == NoNode <==> forall s :: 0 <= s < NodePoolSize ==> old(nodeInUse[s])
      ensures r == NoNode ==> nodes[..] == old(nodes[..]) && nodeInUse[..] == old(nodeInUse[..])
      ensures r != NoNode ==>
        0 <= r < NodePoolSize && !old(nodeInUse[r])
        && nodeInUse[..] == old(nodeInUse[..])[r := true]
        && nodes[..] == old(nodes[..])[r := QuadNode(b, [], [NoNode, NoNode, NoNode, NoNode], true, depth)]
    {
      r := AllocNode();
      if r != NoNode {
        nodes[r] := nodes[r].(bounds := b, depth := depth, isLeaf := true, points := []);
      }
    }

    /** One of the four `sonar_quad_create` calls of `sonar_quad_subdivide`: child
        `q` of the leaf at slot `n`, stored in its child pointer (NULL on failure). */
    method AttachChild(n: int, q: int, ghost ns0: seq<QuadNode>, ghost nu0: seq<bool>)
      requires PoolsOk() && Attached(ns0, nu0, n, q, nodes[..], nodeInUse[..]) && q < 4
      modifies this`nodeNextFree, nodes, nodeInUse
      ensures PoolsOk() && Attached(ns0, nu0, n, q + 1, nodes[..], nodeInUse[..])
    {
      var nd := nodes[n];
      CountFull(nodeInUse[..]);
      ghost var ns1, nu1 := nodes[..], nodeInUse[..];
      var c := CreateNode(ChildBounds(nd.bounds, q), nd.depth + 1);
      ghost var ns2 := nodes[..];
      nodes[n] := nd.(children := nd.children[q := c]);
      assert nodes[..] == ns2[n := nd.(children := nd.children[q := c])];
      if c == NoNode {
        AttachFailed(ns0, nu0, n, q, ns1, nu1, nodes[..]);
      } else {
        AttachMade(ns0, nu0, n, q, ns1, nu1, c, nodes[..], nodeInUse[..]);
      }
    }

    /** The four `sonar_quad_create` calls of `sonar_quad_subdivide`, each result
        stored in its child pointer. */
    method CreateChildren(n: int)
      requires PoolsOk() && 0 <= n < NodePoolSize && nodeInUse[n] && nodes[n].children == NoChildren
      modifies this`nodeNextFree, nodes, nodeInUse
      ensures PoolsOk() && Attached(old(nodes[..]), old(nodeInUse[..]), n, 4, nodes[..], nodeInUse[..])
    {
      ghost var ns0, nu0 := nodes[..], nodeInUse[..];
      AttachedStart(ns0, nu0, n);
      AttachChild(n, 0, ns0, nu0);
      AttachChild(n, 1, ns0, nu0);
      AttachChild(n, 2, ns0, nu0);
      AttachChild(n, 3, ns0, nu0);
    }

    /** The clean-up of a failed child creation: the first `i` children, all made,
        go back to the pool and their pointers are cleared. */
    method ReleaseChildren(n: int, i: int, ghost ns0: seq<QuadNode>, ghost nu0: seq<bool>)
      requires PoolsOk() && Linkage(ns0, nu0, n, nodes[..], nodeInUse[..]) && 0 <= i <= 4
      requires SetBetween(nodes[n].children, 0, i)
      modifies nodes, nodeInUse
      ensures PoolsOk() && Kept(ns0, nu0, nodes[..], nodeInUse[..])
    {
      var j := 0;
      while j < i
        invariant 0 <= j <= i && PoolsOk() && Linkage(ns0, nu0, n, nodes[..], nodeInUse[..])
        invariant SetBetween(nodes[n].children, j, i)
      {
        // The child is a fresh leaf, so `sonar_quad_free` returns just its slot.
        var nd := nodes[n];
        ghost var ns1, nu1 := nodes[..], nodeInUse[..];
        FreeNode(nd.children[j]);
        nodes[n] := nd.(children := nd.children[j := NoNode]);
        assert nodes[..] == ns1[n := nd.(children := nd.children[j := NoNode])];
        Detach(ns0, nu0, n, ns1, nu1, j, i, nodes[..], nodeInUse[..]);
        j := j + 1;
      }
      Detached(ns0, nu0, n, nodes[..], nodeInUse[..], i);
    }

    /** The child creation of `sonar_quad_subdivide` for the leaf at slot `n`: four
        creations, then, if any failed, the ones made are returned to the pool and
        their pointers cleared. It succeeds exactly when four node slots are free. */
    method MakeChildren(n: int) returns (ok: bool)
      requires PoolsOk() && 0 <= n < NodePoolSize && nodeInUse[n] && nodes[n].children == NoChildren
      modifies this`nodeNextFree, nodes, nodeInUse
      ensures PoolsOk()
      ensures ok <==> CountTrue(old(nodeInUse[..])) + 4 <= NodePoolSize
      ensures !ok ==> Kept(old(nodes[..]), old(nodeInUse[..]), nodes[..], nodeInUse[..])
      ensures ok ==> Linkage(old(nodes[..]), old(nodeInUse[..]), n, nodes[..], nodeInUse[..])
                     && FreshKids(nodes[n].children, n)
    {
      ghost var ns0, nu0 := nodes[..], nodeInUse[..];
      CreateChildren(n);
      var i := 0;
      while i < 4 && nodes[n].children[i] != NoNode
        invariant 0 <= i <= 4 && forall q :: 0 <= q < i ==> nodes[n].children[q] != NoNode
      {
        i := i + 1;
      }
      if i < 4 {
        assert SetBetween(nodes[n].children, 0, i);
        ReleaseChildren(n, i, ns0, nu0);
        return false;
      }
      assert nodes[n].children[3] != NoNode;
      return true;
    }
      /** `sonar_quad_subdivide`: an internal node, or a leaf at the depth limit, is
        left alone. Otherwise four child leaves are created over the node's
        quadrants; if the pool cannot supply all four, the ones made are returned
        and the node stays the leaf it was. If it can, the node becomes internal
        with an empty list and each of its points goes, in order, to the first
        child whose rectangle contains it. */
    method Subdivide(n: int, ghost t: Tree) returns (ghost t': Tree)
      requires PoolsOk() && Sound(nodes[..], nodeInUse[..], points[..], t) && t.slot == n
      modifies this`nodeNextFree, nodes, nodeInUse
      ensures PoolsOk() && Sound(nodes[..], nodeInUse[..], points[..], t')
      ensures t'.slot == n && t'.node.bounds == t.node.bounds && t'.node.depth == t.node.depth
      ensures Grown(old(nodes[..]), old(nodeInUse[..]), nodes[..], nodeInUse[..], Slots(t), Slots(t'))
      ensures Held(t') == Held(t)
      ensures t.Inner? || t.node.depth >= MaxDepth ==>
                t' == t && nodes[..] == old(nodes[..]) && nodeInUse[..] == old(nodeInUse[..])
      ensures t.Leaf? && t.node.depth < MaxDepth ==>
                if CountTrue(old(nodeInUse[..])) + 4 <= NodePoolSize
                then t'.Inner? && FreshKids(t'.node.children, n) && t' == Split(t, t'.node.children, points[..])
                else t' == t && Kept(old(nodes[..]), old(nodeInUse[..]), nodes[..], nodeInUse[..])
    {
      var nd := nodes[n];
      if !nd.isLeaf || nd.depth >= MaxDepth {
        return t;
      }
      ghost var ns0, nu0 := nodes[..], nodeInUse[..];
      var made := MakeChildren(n);
      if !made {
        KeptSound(ns0, nu0, nodes[..], nodeInUse[..], points[..], t);
        return t;
      }
      t' := Divide(n, t, nd, ns0, nu0);
    }

    /** The part of `sonar_quad_subdivide` after the four children were made:
        the node `nd` turns internal and hands its points on; `ns0` and `nu0` are
        the node pool before the children were made. */
    method Divide(n: int, ghost t: Tree, nd: QuadNode, ghost ns0: seq<QuadNode>, ghost nu0: seq<bool>)
      returns (ghost t': Tree)
      requires PoolsOk() && Sound(ns0, nu0, points[..], t) && t.slot == n && t.Leaf?
      requires t.node.depth < MaxDepth && nd == t.node
      requires Linkage(ns0, nu0, n, nodes[..], nodeInUse[..]) && FreshKids(nodes[n].children, n)
      modifies nodes
      ensures Sound(nodes[..], nodeInUse[..], points[..], t') && Held(t') == Held(t)
      ensures t' == Split(t, old(nodes[n].children), points[..])
      ensures Grown(ns0, nu0, nodes[..], nodeInUse[..], Slots(t), Slots(t'))
    {
      var cs := nodes[n].children;
      ghost var ns1, nu1 := nodes[..], nodeInUse[..];
      nodes[n] := nodes[n].(isLeaf := false);
      RedistributeStart(ns0, nu0, ns1, nu1, nodes[..], points[..], t, cs);
      Redistribute(n, cs, nd, ns1);
      ghost var ns2 := nodes[..];
      nodes[n] := nodes[n].(points := []);
      t' := Split(t, cs, points[..]);
      SplitDone(ns0, nu0, ns1, nu1, ns2, nodes[..], points[..], t, cs);
    }

    /** The redistribution loop of `sonar_quad_subdivide`: each point of the
        former leaf `nd`, in order, goes to the first child containing it. */
    method Redistribute(n: int, cs: seq<int>, nd: QuadNode, ghost ns1: seq<QuadNode>)
      requires PoolsOk() && 0 <= n < NodePoolSize && FreshKids(cs, n) && BoundsOk(nd.bounds)
      requires forall i :: 0 <= i < |nd.points| ==>
        nd.points[i] < points.Length
        && Contains(nd.bounds, points[nd.points[i]].worldX, points[nd.points[i]].worldY)
      requires Redistributed(ns1, n, cs, nd, 0, points[..], nodes[..])
      modifies nodes
      ensures Redistributed(ns1, n, cs, nd, |nd.points|, points[..], nodes[..])
    {
      var i := 0;
      while i < |nd.points|
        invariant Redistributed(ns1, n, cs, nd, i, points[..], nodes[..])
      {
        HandOn(n, cs, nd, i, ns1);
        i := i + 1;
      }
    }

    /** One round of the redistribution loop: point `i` goes to the first child
        whose rectangle contains it. The child is a leaf holding fewer points than
        its parent had, so `sonar_quad_insert` appends the point to it. */
    method HandOn(n: int, cs: seq<int>, nd: QuadNode, i: int, ghost ns1: seq<QuadNode>)
      requires PoolsOk() && 0 <= n < NodePoolSize && FreshKids(cs, n) && BoundsOk(nd.bounds)
      requires Redistributed(ns1, n, cs, nd, i, points[..], nodes[..]) && i < |nd.points|
      requires Contains(nd.bounds, points[nd.points[i]].worldX, points[nd.points[i]].worldY)
      modifies nodes
      ensures Redistributed(ns1, n, cs, nd, i + 1, points[..], nodes[..])
    {
      var pt := points[nd.points[i]];
      FirstChildExists(nd.bounds, pt.worldX, pt.worldY);
      var j := 0;
      while j < 4 && !Contains(nodes[cs[j]].bounds, pt.worldX, pt.worldY)
        invariant 0 <= j <= FirstChild(nd.bounds, pt.worldX, pt.worldY)
      {
        j := j + 1;
      }
      RedistributeStep(ns1, n, cs, nd, i, points[..], nodes[..], j);
      var kid := nodes[cs[j]];
      nodes[cs[j]] := kid.(points := kid.points + [nd.points[i]]);
    }
      /** Storing a point in a node's own list, as `sonar_quad_insert` does in a leaf
        with room and, after its children refused, in an internal node. */
    method Append(n: int, ghost t: Tree, p: nat) returns (ghost t': Tree)
      requires PoolsOk() && Sound(nodes[..], nodeInUse[..], points[..], t) && t.slot == n
      requires p < points.Length && |t.node.points| < MaxPoints
      requires Contains(t.node.bounds, points[p].worldX, points[p].worldY)
      modifies nodes
      ensures t' == t.(node := t.node.(points := t.node.points + [p]))
      ensures nodes[..] == old(nodes[..])[n := t'.node]
      ensures Sound(nodes[..], nodeInUse[..], points[..], t') && Held(t') == Held(t) + multiset{p}
      ensures Grown(old(nodes[..]), nodeInUse[..], nodes[..], nodeInUse[..], Slots(t), Slots(t'))
    {
      var nd := nodes[n];
      var nd' := nd.(points := nd.points + [p]);
      t' := t.(node := nd');
      Restamp(nodes[..], nodeInUse[..], points[..], t, nd');
      nodes[n] := nd';
    }

    /** `sonar_quad_insert`. A point outside the node's rectangle is refused. A
        leaf with room takes it. A full leaf is subdivided; if it stays a leaf the
        point is refused and not kept (the forced store there is guarded by a
        test of room that fails). Otherwise, and for an internal node, the point
        goes to the first child that accepts it, or else onto the node's own list
        if that has room. A refused insert changes no node in use. */
    method Insert(n: int, ghost t: Tree, p: nat) returns (ok: bool, ghost t': Tree)
      requires PoolsOk() && p < PointPoolSize && Sound(nodes[..], nodeInUse[..], points[..], t) && t.slot == n
      modifies this`nodeNextFree, nodes, nodeInUse
      decreases MaxDepth - t.node.depth, 2
      ensures PoolsOk() && Sound(nodes[..], nodeInUse[..], points[..], t')
      ensures t'.slot == n && t'.node.bounds == t.node.bounds && t'.node.depth == t.node.depth
      ensures Grown(old(nodes[..]), old(nodeInUse[..]), nodes[..], nodeInUse[..], Slots(t), Slots(t'))
      ensures Held(t') == if ok then Held(t) + multiset{p} else Held(t)
      ensures !ok ==> t' == t && Kept(old(nodes[..]), old(nodeInUse[..]), nodes[..], nodeInUse[..])
      ensures !Contains(t.node.bounds, points[p].worldX, points[p].worldY) ==>
                !ok && nodes[..] == old(nodes[..]) && nodeInUse[..] == old(nodeInUse[..])
      ensures Contains(t.node.bounds, points[p].worldX, points[p].worldY) && t.Leaf? ==>
                if |t.node.points| < MaxPoints
                then ok && t' == t.(node := t.node.(points := t.node.points + [p]))
                else ok <==> t.node.depth < MaxDepth && CountTrue(old(nodeInUse[..])) + 4 <= NodePoolSize
    {
      var nd := nodes[n];
      var pt := points[p];
      if !Contains(nd.bounds, pt.worldX, pt.worldY) {
        return false, t;
      }
      if !nd.isLeaf {
        ok, t' := InsertInner(n, t, p);
      } else if |nd.points| < MaxPoints {
        t' := Append(n, t, p);
        ok := true;
      } else {
        ok, t' := InsertFull(n, t, p);
      }
    }

    /** `sonar_quad_insert` on a full leaf: it is subdivided, and the point is
        refused exactly when that fails, at the depth limit or for want of four
        free node slots. */
    method InsertFull(n: int, ghost t: Tree, p: nat) returns (ok: bool, ghost t': Tree)
      requires PoolsOk() && p < PointPoolSize && Sound(nodes[..], nodeInUse[..], points[..], t) && t.slot == n
      requires t.Leaf? && |t.node.points| == MaxPoints && Contains(t.node.bounds, points[p].worldX, points[p].worldY)
      modifies this`nodeNextFree, nodes, nodeInUse
      decreases MaxDepth - t.node.depth, 1
      ensures PoolsOk() && Sound(nodes[..], nodeInUse[..], points[..], t')
      ensures t'.slot == n && t'.node.bounds == t.node.bounds && t'.node.depth == t.node.depth
      ensures Grown(old(nodes[..]), old(nodeInUse[..]), nodes[..], nodeInUse[..], Slots(t), Slots(t'))
      ensures Held(t') == if ok then Held(t) + multiset{p} else Held(t)
      ensures !ok ==> t' == t && Kept(old(nodes[..]), old(nodeInUse[..]), nodes[..], nodeInUse[..])
      ensures ok <==> t.node.depth < MaxDepth && CountTrue(old(nodeInUse[..])) + 4 <= NodePoolSize
    {
      ghost var cur := Subdivide(n, t);
      if nodes[n].isLeaf {
        // The list is full, so the forced store guarded by a test of room is skipped.
        return false, t;
      }
      ghost var ns1, nu1 := nodes[..], nodeInUse[..];
      ok, t' := InsertInner(n, cur, p);
      GrownTrans(old(nodes[..]), old(nodeInUse[..]), ns1, nu1, nodes[..], nodeInUse[..], Slots(t), Slots(cur), Slots(t'));
    }

    /** `sonar_quad_insert` on an internal node: the first child that accepts the
        point keeps it; if none does, the node's own list takes it when it has
        room, which it always has right after a subdivision. */
    method InsertInner(n: int, ghost t: Tree, p: nat) returns (ok: bool, ghost t': Tree)
      requires PoolsOk() && p < PointPoolSize && Sound(nodes[..], nodeInUse[..], points[..], t) && t.slot == n
      requires t.Inner? && Contains(t.node.bounds, points[p].worldX, points[p].worldY)
      modifies this`nodeNextFree, nodes, nodeInUse
      decreases MaxDepth - t.node.depth, 0, 5
      ensures PoolsOk() && Sound(nodes[..], nodeInUse[..], points[..], t')
      ensures t'.slot == n && t'.node.bounds == t.node.bounds && t'.node.depth == t.node.depth
      ensures Grown(old(nodes[..]), old(nodeInUse[..]), nodes[..], nodeInUse[..], Slots(t), Slots(t'))
      ensures Held(t') == if ok then Held(t) + multiset{p} else Held(t)
      ensures !ok ==> t' == t && Kept(old(nodes[..]), old(nodeInUse[..]), nodes[..], nodeInUse[..])
      ensures |t.node.points| < MaxPoints ==> ok
    {
      ok, t' := InsertIntoChildren(n, t, p);
      if ok || |nodes[n].points| == MaxPoints {
        return;
      }
      ghost var ns1, nu1 := nodes[..], nodeInUse[..];
      KeptSound(old(nodes[..]), old(nodeInUse[..]), ns1, nu1, points[..], t);
      t' := Append(n, t, p);
      ok := true;
      KeptGrown(old(nodes[..]), old(nodeInUse[..]), ns1, nu1, nodes[..], nodeInUse[..], Slots(t), Slots(t'));
    }

    /** The loop of `sonar_quad_insert` over the children of an internal node: the
        first child whose insert succeeds keeps the point. */
    method InsertIntoChildren(n: int, ghost t: Tree, p: nat) returns (ok: bool, ghost t': Tree)
      requires PoolsOk() && p < PointPoolSize && Sound(nodes[..], nodeInUse[..], points[..], t) && t.slot == n
      requires t.Inner?
      modifies this`nodeNextFree, nodes, nodeInUse
      decreases MaxDepth - t.node.depth, 0, 4, 0
      ensures PoolsOk() && Sound(nodes[..], nodeInUse[..], points[..], t')
      ensures t'.slot == n && t'.node == t.node && nodes[n] == t.node
      ensures Grown(old(nodes[..]), old(nodeInUse[..]), nodes[..], nodeInUse[..], Slots(t), Slots(t'))
      ensures Held(t') == if ok then Held(t) + multiset{p} else Held(t)
      ensures !ok ==> t' == t && Kept(old(nodes[..]), old(nodeInUse[..]), nodes[..], nodeInUse[..])
    {
      var q := 0;
      while q < 4
        invariant 0 <= q <= 4 && PoolsOk() && Sound(nodes[..], nodeInUse[..], points[..], t)
        invariant Kept(old(nodes[..]), old(nodeInUse[..]), nodes[..], nodeInUse[..])
      {
        ghost var ns1, nu1 := nodes[..], nodeInUse[..];
        ok, t' := TryChild(n, t, q, p);
        if ok {
          KeptGrown(old(nodes[..]), old(nodeInUse[..]), ns1, nu1, nodes[..], nodeInUse[..], Slots(t), Slots(t'));
          return;
        }
        KeptTrans(old(nodes[..]), old(nodeInUse[..]), ns1, nu1, nodes[..], nodeInUse[..]);
        q := q + 1;
      }
      return false, t;
    }

    /** One round of that loop: the insert into child `q`. */
    method TryChild(n: int, ghost t: Tree, q: int, p: nat) returns (ok: bool, ghost t': Tree)
      requires PoolsOk() && p < PointPoolSize && Sound(nodes[..], nodeInUse[..], points[..], t) && t.slot == n
      requires t.Inner? && 0 <= q < 4
      modifies this`nodeNextFree, nodes, nodeInUse
      decreases MaxDepth - t.node.depth, 0, 3, 3 - q
      ensures PoolsOk() && Sound(nodes[..], nodeInUse[..], points[..], t')
      ensures t'.slot == n && t'.node == t.node && nodes[n] == t.node
      ensures Grown(old(nodes[..]), old(nodeInUse[..]), nodes[..], nodeInUse[..], Slots(t), Slots(t'))
      ensures Held(t') == if ok then Held(t) + multiset{p} else Held(t)
      ensures !ok ==> t' == t && Kept(old(nodes[..]), old(nodeInUse[..]), nodes[..], nodeInUse[..])
    {
      KidSound(nodes[..], nodeInUse[..], points[..], t, q);
      ghost var k;
      ok, k := Insert(nodes[n].children[q], Kid(t, q), p);
      if ok {
        t' := WithKid(t, q, k);
        ReplaceKidAdding(old(nodes[..]), old(nodeInUse[..]), nodes[..], nodeInUse[..], points[..], t, q, k, p);
      } else {
        t' := t;
        KeptSound(old(nodes[..]), old(nodeInUse[..]), nodes[..], nodeInUse[..], points[..], t);
      }
    }
      /** The scan of one node's own list in `sonar_quad_query`: before each point
        the buffer is checked for room (the query gives up when it is full), and
        the points inside the window are appended to it. */
    method ScanList(pts: seq<nat>, w: Bounds, out: array<nat>, maxPoints: int, count: int)
      returns (ok: bool, count': int)
      requires PoolsOk() && forall i :: 0 <= i < |pts| ==> pts[i] < points.Length
      requires 0 <= count <= maxPoints <= out.Length
      modifies out
      ensures Emitted(out[..], old(out[..]), count, Matching(pts, points[..], w), count', maxPoints)
      ensures ok ==> count + |Matching(pts, points[..], w)| <= maxPoints
      ensures count + |Matching(pts, points[..], w)| < maxPoints ==> ok
    {
      count' := count;
      EmittedNone(out[..], count, maxPoints);
      assert pts[..0] == [];
      var i := 0;
      while i < |pts|
        invariant 0 <= i <= |pts|
        invariant Emitted(out[..], old(out[..]), count, Matching(pts[..i], points[..], w), count', maxPoints)
        invariant count' == count + |Matching(pts[..i], points[..], w)|
      {
        if count' >= maxPoints {
          EmittedFull(old(out[..]), out[..], count, pts, i, points[..], w, count', maxPoints);
          MatchingPrefix(pts, i, points[..], w);
          return false, count';
        }
        count' := ScanStep(pts, i, w, out, maxPoints, count, count', old(out[..]));
        i := i + 1;
      }
      assert pts[..|pts|] == pts;
      return true, count';
    }

    /** One round of that loop, with room left in the buffer: `pts[i]` is
        written out when it lies in the window. */
    method ScanStep(pts: seq<nat>, i: int, w: Bounds, out: array<nat>, maxPoints: int, count: int, c: int,
                    ghost o0: seq<nat>)
      returns (c': int)
      requires PoolsOk() && 0 <= i < |pts| && pts[i] < points.Length
      requires 0 <= count <= maxPoints <= out.Length && c < maxPoints
      requires Emitted(out[..], o0, count, Matching(pts[..i], points[..], w), c, maxPoints)
      requires c == count + |Matching(pts[..i], points[..], w)|
      modifies out
      ensures Emitted(out[..], o0, count, Matching(pts[..i + 1], points[..], w), c', maxPoints)
      ensures c' == count + |Matching(pts[..i + 1], points[..], w)|
    {
      c' := c;
      var pt := points[pts[i]];
      MatchingNext(pts, i, points[..], w);
      if Contains(w, pt.worldX, pt.worldY) {
        EmittedOne(o0, out[..], count, Matching(pts[..i], points[..], w), c, maxPoints, pts[i]);
        out[c] := pts[i];
        c' := c + 1;
      }
    }

    /** `sonar_quad_query`: a subtree whose rectangle misses the window is skipped;
        otherwise the node's own points are scanned and then, for an internal
        node, its four children in order, until the buffer is full. The buffer
        receives, from position `count` on, as many of the subtree's points in
        the window as fit below `maxPoints`, in traversal order. */
    method Query(n: int, ghost t: Tree, w: Bounds, out: array<nat>, maxPoints: int, count: int)
      returns (ok: bool, count': int)
      requires PoolsOk() && Sound(nodes[..], nodeInUse[..], points[..], t) && t.slot == n
      requires 0 <= count <= maxPoints <= out.Length
      modifies out
      decreases t, 2
      ensures Emitted(out[..], old(out[..]), count, Found(points[..], t, w), count', maxPoints)
      ensures ok ==> count + |Found(points[..], t, w)| <= maxPoints
      ensures count + |Found(points[..], t, w)| < maxPoints ==> ok
    {
      var nd := nodes[n];
      if !Intersect(nd.bounds, w) {
        Pruned(points[..], t, w);
        EmittedNone(out[..], count, maxPoints);
        return true, count;
      }
      ok, count' := ScanList(nd.points, w, out, maxPoints, count);
      if nd.isLeaf {
        return;
      }
      FoundInner(points[..], t, w);
      ghost var own := Matching(nd.points, points[..], w);
      if !ok {
        KidsPrefix(points[..], t, 0, 4, w);
        EmittedCapped(out[..], old(out[..]), count, own, Found(points[..], t, w), maxPoints);
        return;
      }
      ghost var o1 := out[..];
      var c1 := count';
      ok, count' := QueryKids(n, t, w, out, maxPoints, count');
      EmittedThen(old(out[..]), o1, out[..], count, c1, count', own, KidsFound(points[..], t, 4, w), maxPoints);
    }

    /** The loop of `sonar_quad_query` over the four children of an internal
        node, which stops as soon as one of them reports a full buffer. */
    method QueryKids(n: int, ghost t: Tree, w: Bounds, out: array<nat>, maxPoints: int, count: int)
      returns (ok: bool, count': int)
      requires PoolsOk() && Sound(nodes[..], nodeInUse[..], points[..], t) && t.slot == n && t.Inner?
      requires 0 <= count <= maxPoints <= out.Length
      modifies out
      decreases t, 1
      ensures Emitted(out[..], old(out[..]), count, KidsFound(points[..], t, 4, w), count', maxPoints)
      ensures ok ==> count + |KidsFound(points[..], t, 4, w)| <= maxPoints
      ensures count + |KidsFound(points[..], t, 4, w)| < maxPoints ==> ok
    {
      count' := count;
      EmittedNone(out[..], count, maxPoints);
      var q := 0;
      while q < 4
        invariant 0 <= q <= 4
        invariant Emitted(out[..], old(out[..]), count, KidsFound(points[..], t, q, w), count', maxPoints)
        invariant count + |KidsFound(points[..], t, q, w)| <= maxPoints
      {
        var okq;
        okq, count' := QueryKid(n, t, q, w, out, maxPoints, count, count', old(out[..]));
        if !okq {
          return false, count';
        }
        q := q + 1;
      }
      return true, count';
    }

    /** One round of that loop: the query of child `q`, appending after the
        `c` entries already written; when the buffer fills up the whole node's
        results are cut there. */
    method QueryKid(n: int, ghost t: Tree, q: int, w: Bounds, out: array<nat>, maxPoints: int, count: int, c: int,
                    ghost o0: seq<nat>)
      returns (ok: bool, c': int)
      requires PoolsOk() && Sound(nodes[..], nodeInUse[..], points[..], t) && t.slot == n && t.Inner? && 0 <= q < 4
      requires 0 <= count <= maxPoints <= out.Length
      requires Emitted(out[..], o0, count, KidsFound(points[..], t, q, w), c, maxPoints)
      requires count + |KidsFound(points[..], t, q, w)| <= maxPoints
      modifies out
      decreases t, 0
      ensures ok ==> Emitted(out[..], o0, count, KidsFound(points[..], t, q + 1, w), c', maxPoints)
      ensures ok ==> count + |KidsFound(points[..], t, q + 1, w)| <= maxPoints
      ensures !ok ==> Emitted(out[..], o0, count, KidsFound(points[..], t, 4, w), c', maxPoints)
      ensures !ok ==> count + |KidsFound(points[..], t, 4, w)| >= maxPoints
    {
      KidSound(nodes[..], nodeInUse[..], points[..], t, q);
      ghost var o1 := out[..];
      ok, c' := Query(nodes[n].children[q], Kid(t, q), w, out, maxPoints, c);
      KidEmitted(points[..], t, q, w, o0, o1, out[..], count, c, c', maxPoints, ok);
    }
      /** `sonar_chart_query_point`: a query of the single cell (x, y) into a
        buffer of nine, then the point of least Manhattan distance, which must be
        zero. It finds a point exactly when one is stored at the cell. */
    method QueryPoint(x: int, y: int) returns (found: bool, e: nat)
      requires Valid() && IsInt16(x) && IsInt16(y)
      ensures found <==> At(x, y) != {}
      ensures found ==> e in At(x, y)
      ensures found ==> |Found(points[..], tree, Bounds(x, y, x, y))| > 0 && e == Found(points[..], tree, Bounds(x, y, x, y))[0]
    {
      var window := Bounds(x, y, x, y);
      var nearby := new nat[9];
      ghost var o0 := nearby[..];
      var _, count := Query(root, tree, window, nearby, 9, 0);
      CellFound(points[..], tree, x, y, nearby[..], o0, count);
      var bestDistance := 32767;
      var best: int := -1;
      var i := 0;
      while i < count
        invariant 0 <= i <= count
        invariant i == 0 ==> best == -1 && bestDistance == 32767
        invariant i > 0 ==> best == nearby[0] && bestDistance == 0
      {
        var pt := points[nearby[i]];
        var dx := Wrap16(pt.worldX - x);
        var dy := Wrap16(pt.worldY - y);
        var distance := Wrap16(Abs(dx) + Abs(dy));
        if distance < bestDistance {
          bestDistance := distance;
          best := nearby[i];
        }
        i := i + 1;
      }
      if best != -1 && bestDistance <= 0 {
        return true, best;
      }
      return false, 0;
    }

    /** `sonar_chart_query_area`: the number of points written to the buffer, at
        most `maxPoints`: the stored points inside the window, in traversal order,
        as many as fit. */
    method QueryArea(w: Bounds, out: array<nat>, maxPoints: int) returns (count: int)
      requires Valid() && 0 <= maxPoints <= out.Length
      modifies out
      ensures 0 <= count <= maxPoints
      ensures count == Min(|Found(points[..], tree, w)|, maxPoints)
      ensures out[..count] == Found(points[..], tree, w)[..count]
      ensures forall j :: 0 <= j < count ==> out[j] in Held(tree) && InWindow(points[..], out[j], w)
    {
      var _, c := Query(root, tree, w, out, maxPoints, 0);
      count := c;
      AreaFound(points[..], tree, w, out[..], old(out[..]), count, maxPoints);
      assert out[..count] == out[..][..count];
    }

    /** `sonar_chart_add_point` at time `now`. A point already stored at the cell
        is refreshed in place and the call succeeds without allocating. Otherwise
        a new point is taken from the pool and inserted from the root; if the
        insert fails the point goes back to the pool. A successful call leaves a
        point at the cell, and no call loses or moves a stored point. */
    method AddPoint(x: int, y: int, isTerrain: bool, now: int) returns (ok: bool, ghost e: nat)
      requires Valid() && IsInt16(x) && IsInt16(y) && IsU32(now)
      modifies this`tree, this`nodeNextFree, this`pointNextFree, this`activeCount, nodes, nodeInUse, points, pointInUse
      ensures Valid()
      ensures ok ==> e in At(x, y)
      ensures StillCharted(old(Held(tree)), old(points[..]), Held(tree), points[..])
      ensures old(At(x, y)) != {} ==>
        |old(Found(points[..], tree, Bounds(x, y, x, y)))| > 0 && e == old(Found(points[..], tree, Bounds(x, y, x, y)))[0]
      ensures old(At(x, y)) != {} ==>
        ok && e in old(At(x, y)) && tree == old(tree) && nodes[..] == old(nodes[..])
        && points[..] == old(points[..])[e := Refreshed(old(points[e]), now, isTerrain)]
        && pointInUse[..] == old(pointInUse[..]) && activeCount == old(activeCount)
      ensures old(At(x, y)) == {} && ok ==>
        !old(pointInUse[e]) && pointInUse[..] == old(pointInUse[..])[e := true]
        && activeCount == old(activeCount) + 1
        && points[e] == SonarPoint(x, y, now, Full, isTerrain) && Held(tree) == old(Held(tree)) + multiset{e}
      ensures old(At(x, y)) == {} && !ok ==>
        pointInUse[..] == old(pointInUse[..]) && activeCount == old(activeCount) && Held(tree) == old(Held(tree))
      ensures old(At(x, y)) == {} && old(activeCount) == PointPoolSize ==> !ok
    {
      ghost var f0 := Found(points[..], tree, Bounds(x, y, x, y));
      var found, existing := QueryPoint(x, y);
      if found {
        assert existing == f0[0];
        var pt := points[existing];
        MarkedInUse(pointInUse[..]);
        PointsUpdate(tree, points[..], existing, Refreshed(pt, now, isTerrain));
        points[existing] := Refreshed(pt, now, isTerrain);
        StillChartedWrite(Held(tree), old(points[..]), Held(tree), points[..], existing);
        assert At(x, y) == old(At(x, y));
        return true, existing;
      }
      ok, e := AddNew(x, y, isTerrain, now);
    }

    /** The second half of `sonar_chart_add_point`, for a cell with no point. */
    method AddNew(x: int, y: int, isTerrain: bool, now: int) returns (ok: bool, ghost e: nat)
      requires Valid() && IsInt16(x) && IsInt16(y) && IsU32(now)
      modifies this`tree, this`nodeNextFree, this`pointNextFree, this`activeCount, nodes, nodeInUse, points, pointInUse
      ensures Valid()
      ensures ok ==> e in At(x, y)
      ensures StillCharted(old(Held(tree)), old(points[..]), Held(tree), points[..])
      ensures ok ==>
        !old(pointInUse[e]) && pointInUse[..] == old(pointInUse[..])[e := true]
        && activeCount == old(activeCount) + 1
        && points[e] == SonarPoint(x, y, now, Full, isTerrain) && Held(tree) == old(Held(tree)) + multiset{e}
      ensures !ok ==>
        pointInUse[..] == old(pointInUse[..]) && activeCount == old(activeCount) && Held(tree) == old(Held(tree))
      ensures old(activeCount) == PointPoolSize ==> !ok
    {
      var pt := SonarPoint(x, y, now, Full, isTerrain);
      var r := NewRecord(pt);
      if r.None? {
        return false, 0;
      }
      e := r.value;
      ok := Place(r.value, pt, old(Held(tree)), old(points[..]), old(pointInUse[..]), old(activeCount));
    }

    /** `sonar_point_pool_alloc` followed by filling in the new record. */
    method NewRecord(pt: SonarPoint) returns (r: Option<nat>)
      requires Valid()
      modifies this`pointNextFree, this`activeCount, points, pointInUse
      ensures r.None? <==> old(activeCount) == PointPoolSize
      ensures r.None? ==>
        Valid() && StillCharted(old(Held(tree)), old(points[..]), Held(tree), points[..])
        && pointInUse[..] == old(pointInUse[..]) && activeCount == old(activeCount)
      ensures r.Some? ==>
        PoolsOk() && CountOk() && TreeOk()
        && r.value < PointPoolSize && !old(pointInUse[r.value])
        && pointInUse[..] == old(pointInUse[..])[r.value := true]
        && points[..] == old(points[..])[r.value := pt]
        && activeCount == old(activeCount) + 1
    {
      MarkedInUse(pointInUse[..]);
      r := AllocPoint();
      if r.None? {
        return;
      }
      var s := r.value;
      StoredAdd(Held(tree), old(pointInUse[..]), s);
      PointsUpdate(tree, old(points[..]), s, BlankPoint);
      PointsUpdate(tree, points[..], s, pt);
      points[s] := pt;
    }

    /** `sonar_quad_insert` from the root, keeping the tree whole. */
    method Plant(s: nat) returns (ok: bool)
      requires PoolsOk() && TreeOk() && s < PointPoolSize
      modifies this`tree, this`nodeNextFree, nodes, nodeInUse
      ensures PoolsOk() && TreeOk()
      ensures Held(tree) == if ok then old(Held(tree)) + multiset{s} else old(Held(tree))
    {
      ghost var t';
      ok, t' := Insert(root, tree, s);
      tree := t';
    }

    /** `sonar_quad_insert` from the root for the record `pt` just stored in slot
        `s`, giving the slot back to the pool when the tree refuses it; `h0`, `ps0`,
        `u0` and `a0` are the held points, records, in-use flags and count from
        before the slot was taken. */
    method Place(s: nat, ghost pt: SonarPoint, ghost h0: multiset<nat>, ghost ps0: seq<SonarPoint>,
                 ghost u0: seq<bool>, ghost a0: int) returns (ok: bool)
      requires PoolsOk() && CountOk() && TreeOk() && IsU32(lastFadeUpdate)
      requires Stored(h0, u0) && |u0| == PointPoolSize && |ps0| == PointPoolSize
      requires s < PointPoolSize && !u0[s] && pointInUse[..] == u0[s := true] && activeCount == a0 + 1
      requires Held(tree) == h0 && points[..] == ps0[s := pt]
      modifies this`tree, this`nodeNextFree, this`activeCount, nodes, nodeInUse, pointInUse
      ensures Valid()
      ensures StillCharted(h0, ps0, Held(tree), points[..])
      ensures ok ==>
        pointInUse[..] == u0[s := true] && activeCount == a0 + 1 && Held(tree) == h0 + multiset{s}
      ensures !ok ==> pointInUse[..] == u0 && activeCount == a0 && Held(tree) == h0
    {
      MarkedInUse(u0);
      StoredAdd(h0, u0, s);
      ok := Plant(s);
      if !ok {
        GiveBack(s, u0);
      }
      StillChartedWrite(h0, ps0, Held(tree), points[..], s);
    }

    /** `sonar_point_pool_free` of a slot the tree refused: the flags return to `u0`. */
    method GiveBack(s: nat, ghost u0: seq<bool>)
      requires PoolsOk() && CountOk() && s < PointPoolSize && |u0| == PointPoolSize
      requires pointInUse[..] == u0[s := true] && !u0[s] && Stored(Held(tree) + multiset{s}, pointInUse[..])
      modifies this`activeCount, pointInUse
      ensures CountOk() && StoredOk() && pointInUse[..] == u0 && activeCount == old(activeCount) - 1
    {
      StoredRemove(Held(tree), pointInUse[..], s);
      FreePoint(s);
      assert pointInUse[..] == u0;
    }

    // -------------------------------------------------------------------------
    // Fading

    /** `sonar_chart_update_fade`: nothing happens until 1000 ms of the uint32
        clock, counted with wrap-around, have passed since the last sweep; then
        the time is recorded and the whole tree is swept: the gone points leave
        the leaves and their pool slots, and the live ones get their current stage. */
    method UpdateFade(now: int)
      requires Valid() && IsU32(now)
      modifies this`lastFadeUpdate, this`activeCount, this`tree, nodes, points, pointInUse
      ensures Valid()
      ensures ToU32(now - old(lastFadeUpdate)) < 1000 ==>
                lastFadeUpdate == old(lastFadeUpdate) && tree == old(tree) && activeCount == old(activeCount)
                && nodes[..] == old(nodes[..]) && points[..] == old(points[..]) && pointInUse[..] == old(pointInUse[..])
      ensures ToU32(now - old(lastFadeUpdate)) >= 1000 ==>
                lastFadeUpdate == now && tree == Swept(old(tree), old(points[..]), now)
                && Refaded(old(points[..]), points[..], LeafHeld(tree), now)
                && activeCount == old(activeCount) - |Dropped(old(tree), old(points[..]), now)|
    {
      if ToU32(now - lastFadeUpdate) < 1000 {
        return;
      }
      lastFadeUpdate := now;
      SweepAll(now);
    }

    /** `sonar_quad_cleanup_faded` from the root, keeping the chart's invariants. */
    method SweepAll(now: int)
      requires PoolsOk() && CountOk() && TreeOk() && StoredOk()
      modifies this`activeCount, this`tree, nodes, points, pointInUse
      ensures PoolsOk() && CountOk() && TreeOk() && StoredOk()
      ensures tree == Swept(old(tree), old(points[..]), now)
      ensures Refaded(old(points[..]), points[..], LeafHeld(tree), now)
      ensures activeCount == old(activeCount) - |Dropped(old(tree), old(points[..]), now)|
    {
      ghost var t' := SweepRoot(now);
      Retree(t');
    }

    /** Replacing the ghost tree by `t'`, which already meets the invariants. */
    method Retree(ghost t': Tree)
      requires PoolsOk() && CountOk() && Sound(nodes[..], nodeInUse[..], points[..], t')
      requires t'.slot == root && t'.node.bounds == RootBounds && t'.node.depth == 0
      requires Stored(Held(t'), pointInUse[..])
      modifies this`tree
      ensures PoolsOk() && CountOk() && TreeOk() && StoredOk() && tree == t'
    {
      tree := t';
    }

    /** The same, before the ghost tree is replaced by the swept one `t'`. */
    method SweepRoot(now: int) returns (ghost t': Tree)
      requires PoolsOk() && CountOk() && TreeOk() && StoredOk()
      modifies this`activeCount, nodes, points, pointInUse
      ensures CountOk() && Sound(nodes[..], nodeInUse[..], points[..], t')
      ensures t'.slot == root && t'.node.bounds == RootBounds && t'.node.depth == 0
      ensures Stored(Held(t'), pointInUse[..])
      ensures t' == Swept(old(tree), old(points[..]), now)
      ensures Refaded(old(points[..]), points[..], LeafHeld(t'), now)
      ensures activeCount == old(activeCount) - |Dropped(old(tree), old(points[..]), now)|
    {
      ghost var t := tree;
      assert t.slot == root && t.node.bounds == RootBounds && t.node.depth == 0;
      NoRest(Held(t));
      t' := Sweep(root, t, now, multiset{});
      assert t'.node.bounds == t.node.bounds && t'.node.depth == t.node.depth;
      NoRest(Held(t'));
      SweptLoses(t, old(points[..]), now);
    }

    /** `sonar_quad_cleanup_faded` on the subtree `t` at slot `n`, while the rest
        of the tree holds `rest`: a leaf is swept in place, an internal node hands
        the sweep to its four children. */
    method Sweep(n: int, ghost t: Tree, now: int, ghost rest: multiset<nat>) returns (ghost t': Tree)
      requires PoolsOk() && CountOk() && Sound(nodes[..], nodeInUse[..], points[..], t) && t.slot == n
      requires Stored(rest + Held(t), pointInUse[..])
      modifies this`activeCount, nodes, points, pointInUse
      decreases t, 2
      ensures CountOk() && Sound(nodes[..], nodeInUse[..], points[..], t')
      ensures t' == Swept(t, old(points[..]), now)
      ensures Stored(rest + Held(t'), pointInUse[..])
      ensures activeCount + |Held(t)| == old(activeCount) + |Held(t')|
      ensures Refaded(old(points[..]), points[..], LeafHeld(t'), now)
      ensures Grown(old(nodes[..]), nodeInUse[..], nodes[..], nodeInUse[..], Slots(t), Slots(t'))
    {
      if nodes[n].isLeaf {
        t' := SweepLeaf(n, t, now, rest);
      } else {
        t' := SweepKids(n, t, now, rest);
      }
    }

    /** The leaf case: one pass over the list frees each gone point and moves
        each live one, restaged, down to the next place kept. */
    method SweepLeaf(n: int, ghost t: Tree, now: int, ghost rest: multiset<nat>) returns (ghost t': Tree)
      requires PoolsOk() && CountOk() && Sound(nodes[..], nodeInUse[..], points[..], t) && t.slot == n
      requires t.Leaf? && Stored(rest + Held(t), pointInUse[..])
      modifies this`activeCount, nodes, points, pointInUse
      ensures CountOk() && Sound(nodes[..], nodeInUse[..], points[..], t')
      ensures t' == Swept(t, old(points[..]), now)
      ensures Stored(rest + Held(t'), pointInUse[..])
      ensures activeCount + |Held(t)| == old(activeCount) + |Held(t')|
      ensures Refaded(old(points[..]), points[..], LeafHeld(t'), now)
      ensures Grown(old(nodes[..]), nodeInUse[..], nodes[..], nodeInUse[..], Slots(t), Slots(t'))
    {
      var nd := nodes[n];
      ghost var ps0, u0 := points[..], pointInUse[..];
      StoredList(rest, nd.points, u0);
      var kept := SweepList(nd.points, now);
      StoredFreed(rest, nd.points, u0, ps0, now);
      RestagedMeans(ps0, nd.points, now);
      t' := Restock(n, t, kept, now, ps0);
    }

    /** The loop of the leaf case over the node's list `pts`, whose slots are in
        use and distinct: the points kept are the live ones in order, each
        restaged, and the gone ones are freed. */
    method SweepList(pts: seq<nat>, now: int) returns (kept: seq<nat>)
      requires PoolsOk() && CountOk()
      requires forall j :: 0 <= j < |pts| ==> pts[j] < PointPoolSize && pointInUse[pts[j]]
      requires forall j, k :: 0 <= j < k < |pts| ==> pts[j] != pts[k]
      modifies this`activeCount, points, pointInUse
      ensures kept == Survivors(pts, old(points[..]), now) && points[..] == Restaged(old(points[..]), pts, now)
      ensures pointInUse[..] == Freed(old(pointInUse[..]), pts, old(points[..]), now)
      ensures CountOk() && activeCount + |pts| == old(activeCount) + |kept|
    {
      ghost var ps0, u0 := points[..], pointInUse[..];
      kept := [];
      var i := 0;
      assert pts[..0] == [];
      while i < |pts|
        invariant 0 <= i <= |pts|
        invariant kept == Survivors(pts[..i], ps0, now) && points[..] == Restaged(ps0, pts[..i], now)
        invariant pointInUse[..] == Freed(u0, pts[..i], ps0, now)
        invariant CountOk() && activeCount + i == old(activeCount) + |kept|
      {
        kept := SweepStep(pts, i, kept, now, ps0, u0);
        i := i + 1;
      }
      assert pts[..i] == pts;
    }
    /** The end of the leaf case: the node's list becomes the points kept. */
    method Restock(n: int, ghost t: Tree, kept: seq<nat>, now: int, ghost ps0: seq<SonarPoint>) returns (ghost t': Tree)
      requires PoolsOk() && Sound(nodes[..], nodeInUse[..], ps0, t) && t.slot == n && t.Leaf?
      requires kept == Survivors(t.node.points, ps0, now) && Refaded(ps0, points[..], multiset(kept), now)
      modifies nodes
      ensures t' == Swept(t, ps0, now) && Sound(nodes[..], nodeInUse[..], points[..], t')
      ensures Grown(old(nodes[..]), nodeInUse[..], nodes[..], nodeInUse[..], Slots(t), Slots(t'))
    {
      var nd' := nodes[n].(points := kept);
      t' := Leaf(t.slot, nd');
      SoundRefaded(nodes[..], nodeInUse[..], ps0, points[..], multiset(kept), now, t);
      SweptTimes(t, ps0, points[..], now);
      SweptInside(t, points[..], now);
      Restamp(nodes[..], nodeInUse[..], points[..], t, nd');
      nodes[n] := nd';
    }

    /** One round of that loop, on the point `pts[i]`: a gone point is freed, a
        live one gets its current stage and is kept. */
    method SweepStep(pts: seq<nat>, i: int, kept: seq<nat>, now: int, ghost ps0: seq<SonarPoint>, ghost u0: seq<bool>)
      returns (kept': seq<nat>)
      requires PoolsOk() && CountOk() && 0 <= i < |pts| && pts[i] < PointPoolSize && |ps0| == PointPoolSize
      requires |u0| == PointPoolSize && u0[pts[i]] && forall j :: 0 <= j < i ==> pts[j] != pts[i]
      requires kept == Survivors(pts[..i], ps0, now) && points[..] == Restaged(ps0, pts[..i], now)
      requires pointInUse[..] == Freed(u0, pts[..i], ps0, now)
      modifies this`activeCount, points, pointInUse
      ensures kept' == Survivors(pts[..i + 1], ps0, now) && points[..] == Restaged(ps0, pts[..i + 1], now)
      ensures pointInUse[..] == Freed(u0, pts[..i + 1], ps0, now)
      ensures CountOk() && activeCount + |kept| + 1 == old(activeCount) + |kept'|
    {
      var p := pts[i];
      SurvivorsNext(pts, i, ps0, now);
      RestagedNext(ps0, pts, i, now);
      RestagedKeeps(ps0, pts[..i], now, p);
      assert pts[..i + 1][..i] == pts[..i];
      FreedKeeps(u0, pts[..i], ps0, now, p);
      var pt := points[p];
      var state := FadeStateAt(pt.discoveryTime, now);
      if state == Gone {
        FreePoint(p);
        return kept;
      }
      points[p] := pt.(fade := state);
      return kept + [p];
    }

    /** The internal-node case: the loop over the four children, in order. */
    method SweepKids(n: int, ghost t: Tree, now: int, ghost rest: multiset<nat>) returns (ghost t': Tree)
      requires PoolsOk() && CountOk() && Sound(nodes[..], nodeInUse[..], points[..], t) && t.slot == n
      requires t.Inner? && Stored(rest + Held(t), pointInUse[..])
      modifies this`activeCount, nodes, points, pointInUse
      decreases t, 1
      ensures CountOk() && Sound(nodes[..], nodeInUse[..], points[..], t')
      ensures t' == Swept(t, old(points[..]), now)
      ensures Stored(rest + Held(t'), pointInUse[..])
      ensures activeCount + |Held(t)| == old(activeCount) + |Held(t')|
      ensures Refaded(old(points[..]), points[..], LeafHeld(t'), now)
      ensures Grown(old(nodes[..]), nodeInUse[..], nodes[..], nodeInUse[..], Slots(t), Slots(t'))
    {
      ghost var ps0 := points[..];
      t' := t;
      var i := 0;
      while i < 4
        invariant 0 <= i <= 4 && Stored(rest + Held(t'), pointInUse[..])
        invariant t' == PartSwept(t, i, ps0, now) && Refaded(ps0, points[..], SweptLeaves(t, i, ps0, now), now)
        invariant CountOk() && Sound(nodes[..], nodeInUse[..], points[..], t')
        invariant activeCount + |Held(t)| == old(activeCount) + |Held(t')|
        invariant Grown(old(nodes[..]), nodeInUse[..], nodes[..], nodeInUse[..], Slots(t), Slots(t'))
      {
        ghost var cur, ns1 := t', nodes[..];
        t' := SweepKid(n, t, cur, i, now, rest, ps0);
        GrownTrans(old(nodes[..]), nodeInUse[..], ns1, nodeInUse[..], nodes[..], nodeInUse[..], Slots(t), Slots(cur), Slots(t'));
        i := i + 1;
      }
      PartSweptAll(t, ps0, now);
      SweptLeavesAll(t, ps0, now);
      assert LeafHeld(t') == SweptLeaves(t, 4, ps0, now);
    }

    /** One round of that loop: the sweep of child `q` of `cur`, the node `t`
        with its first `q` children swept. */
    method SweepKid(n: int, ghost t: Tree, ghost cur: Tree, q: int, now: int, ghost rest: multiset<nat>,
                    ghost ps0: seq<SonarPoint>) returns (ghost cur': Tree)
      requires PoolsOk() && CountOk() && Sound(nodes[..], nodeInUse[..], points[..], cur) && cur.slot == n
      requires t.Inner? && 0 <= q < 4 && cur == PartSwept(t, q, ps0, now)
      requires Stored(rest + Held(cur), pointInUse[..]) && Refaded(ps0, points[..], SweptLeaves(t, q, ps0, now), now)
      modifies this`activeCount, nodes, points, pointInUse
      decreases t, 0
      ensures CountOk() && Sound(nodes[..], nodeInUse[..], points[..], cur')
      ensures cur' == PartSwept(t, q + 1, ps0, now) && Refaded(ps0, points[..], SweptLeaves(t, q + 1, ps0, now), now)
      ensures Stored(rest + Held(cur'), pointInUse[..])
      ensures activeCount + |Held(cur)| == old(activeCount) + |Held(cur')|
      ensures Grown(old(nodes[..]), nodeInUse[..], nodes[..], nodeInUse[..], Slots(cur), Slots(cur'))
    {
      KidStart(nodes[..], nodeInUse[..], points[..], pointInUse[..], t, cur, q, now, rest, ps0);
      ghost var kid := Kid(cur, q);
      ghost var ps1, ns1 := points[..], nodes[..];
      ghost var k := Sweep(nodes[n].children[q], kid, now, rest + (Held(cur) - Held(kid)));
      KidSwept(ns1, nodes[..], nodeInUse[..], ps0, ps1, points[..], pointInUse[..], t, cur, q, now, rest, k);
      cur' := WithKid(cur, q, k);
    }
  }
}
