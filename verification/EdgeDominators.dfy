/**
 Edge dominators. An edge is numbered as in the optimizer's edges[] array: block b's true edge
 is b and its false edge |g| + b. edom[f] ends up holding exactly the edges that every path
 from the root through f goes through.
 */
module EdgeDominators {
  import opened Machine
  import opened FlowGraph
  import opened Levels
  import opened Dominators

  function Pred(g: Graph, e: nat): nat {
    if e < |g| then e else e - |g|
  }

  predicate RealEdge(g: Graph, e: nat) {
    e < 2 * |g| && g[Pred(g, e)].Br?
  }

  function Succ(g: Graph, e: nat): nat
    requires RealEdge(g, e)
  {
    if e < |g| then g[e].jt else g[e - |g|].jf
  }

  /** The edges of a path from the root, in order. */
  ghost predicate Trail(g: Graph, root: nat, es: seq<nat>) {
    && es != []
    && (forall k :: 0 <= k < |es| ==> RealEdge(g, es[k]))
    && Pred(g, es[0]) == root
    && (forall k :: 0 < k < |es| ==> Succ(g, es[k - 1]) == Pred(g, es[k]))
  }

  ghost predicate TrailTo(g: Graph, root: nat, es: seq<nat>, f: nat) {
    Trail(g, root, es) && es[|es| - 1] == f
  }

  /** Every path from the root that goes through f goes through e. */
  ghost predicate EdgeDominates(g: Graph, root: nat, e: nat, f: nat) {
    forall es :: TrailTo(g, root, es, f) ==> e in es
  }

  lemma EdgeDominatesRoot(g: Graph, root: nat, e: nat, f: nat)
    requires RealEdge(g, f) && Pred(g, f) == root
    ensures EdgeDominates(g, root, e, f) <==> e == f
  {
    assert TrailTo(g, root, [f], f);
  }

  /** The edges leading into block b. */
  ghost predicate Into(g: Graph, a: nat, b: nat) {
    RealEdge(g, a) && Succ(g, a) == b
  }

  lemma EdgeDominatesStep(g: Graph, root: nat, e: nat, f: nat)
    requires RealEdge(g, f) && Pred(g, f) != root
    ensures EdgeDominates(g, root, e, f) <==>
            e == f || forall a: nat :: Into(g, a, Pred(g, f)) ==> EdgeDominates(g, root, e, a)
  {
    if EdgeDominates(g, root, e, f) && e != f {
      forall a: nat, es | Into(g, a, Pred(g, f)) && TrailTo(g, root, es, a) ensures e in es {
        assert TrailTo(g, root, es + [f], f);
        assert e in es + [f];
      }
    }
    if forall a: nat :: Into(g, a, Pred(g, f)) ==> EdgeDominates(g, root, e, a) {
      forall es | TrailTo(g, root, es, f) ensures e in es {
        var n := |es| - 1;
        assert Into(g, es[n - 1], Pred(g, f));
        assert TrailTo(g, root, es[..n], es[n - 1]);
        assert e in es[..n];
      }
    }
  }

  /** No path from the root goes through an edge that leaves an unreachable block. */
  lemma TrailReaches(g: Graph, root: nat, es: seq<nat>)
    requires Valid(g) && root < |g| && Trail(g, root, es)
    ensures Reachable(g, root, Pred(g, es[|es| - 1]))
  {
    if |es| == 1 {
      ReachableSelf(g, root);
    } else {
      var n := |es| - 1;
      TrailReaches(g, root, es[..n]);
      ReachableStep(g, root, Pred(g, es[n - 1]), Pred(g, es[n]));
    }
  }

  ghost predicate EdgeMay(g: Graph, root: nat, levels: seq<seq<nat>>, i: nat, k: nat, e: nat, f: nat)
    requires Acyclic(g) && root < |g| && i < |levels| && k <= |levels[i]|
  {
    if Visited(g, root, levels, i, k, Pred(g, f)) then EdgeDominates(g, root, e, f)
    else
      && Pred(g, f) != root
      && forall a: nat :: Into(g, a, Pred(g, f)) && Visited(g, root, levels, i, k, Pred(g, a)) ==>
        EdgeDominates(g, root, e, a)
  }

  ghost predicate EdomAt(g: Graph, root: nat, levels: seq<seq<nat>>, i: nat, k: nat, s: set<nat>, f: nat)
    requires Acyclic(g) && root < |g| && i < |levels| && k <= |levels[i]|
  {
    forall e: nat :: e in s <==> e < 2 * |g| && EdgeMay(g, root, levels, i, k, e, f)
  }

  ghost predicate EdomSoFar(g: Graph, root: nat, levels: seq<seq<nat>>, i: nat, k: nat, edom: seq<set<nat>>)
    requires Acyclic(g) && root < |g| && i < |levels| && k <= |levels[i]|
  {
    && |edom| == 2 * |g|
    && forall f: nat :: RealEdge(g, f) && Reachable(g, root, Pred(g, f)) ==> EdomAt(g, root, levels, i, k, edom[f], f)
  }

  ghost predicate EdomExact(g: Graph, root: nat, edom: seq<set<nat>>) {
    && |edom| == 2 * |g|
    && forall f: nat, e: nat :: RealEdge(g, f) && Reachable(g, root, Pred(g, f)) ==>
         (e in edom[f] <==> e < 2 * |g| && EdgeDominates(g, root, e, f))
  }

  /** propedom: e joins its own set, which then cuts the sets of the edges leaving its successor. */
  function Propagated(g: Graph, edom: seq<set<nat>>, e: nat): (r: seq<set<nat>>)
    requires Valid(g) && e < 2 * |g| == |edom|
    ensures |r| == |edom|
  {
    var d0 := edom[e := edom[e] + {e}];
    if !RealEdge(g, e) then d0
    else
      var s := Succ(g, e);
      var d1 := d0[s := d0[s] * d0[e]];
      d1[|g| + s := d1[|g| + s] * d1[e]]
  }

  lemma PropagatedAt(g: Graph, edom: seq<set<nat>>, e: nat, f: nat)
    requires Valid(g) && RealEdge(g, e) && f < 2 * |g| == |edom| && Succ(g, e) != Pred(g, e)
    ensures Propagated(g, edom, e)[f] ==
            if f == e then edom[e] + {e}
            else if Pred(g, f) == Succ(g, e) then edom[f] * (edom[e] + {e})
            else edom[f]
  {
  }

  lemma EdgeMaySelf(g: Graph, root: nat, levels: seq<seq<nat>>, i: nat, k: nat, e: nat, f: nat)
    requires Acyclic(g) && root < |g| && Leveled(g, root, levels) && i < |levels| && k < |levels[i]|
    requires RealEdge(g, f) && Pred(g, f) == levels[i][k]
    ensures EdgeMay(g, root, levels, i, k, e, f) || e == f <==> EdgeDominates(g, root, e, f)
  {
    var b := levels[i][k];
    LeveledAt(g, root, levels, i, k);
    assert !Visited(g, root, levels, i, k, b) by {
      assert NoRepeats(levels[i]);
    }
    if b == root {
      EdgeDominatesRoot(g, root, e, f);
    } else {
      EdgeDominatesStep(g, root, e, f);
      forall a: nat | Into(g, a, b) && !Visited(g, root, levels, i, k, Pred(g, a))
        ensures EdgeDominates(g, root, e, a)
      {
        if es :| TrailTo(g, root, es, a) {
          TrailReaches(g, root, es);
          PredecessorsVisited(g, root, levels, i, k, Pred(g, a), b);
        }
      }
    }
  }

  lemma EdgeMayOther(g: Graph, root: nat, levels: seq<seq<nat>>, i: nat, k: nat, e: nat, f: nat)
    requires Acyclic(g) && root < |g| && Leveled(g, root, levels) && i < |levels| && k < |levels[i]|
    requires RealEdge(g, f) && Reachable(g, root, Pred(g, f)) && Pred(g, f) != levels[i][k]
    ensures levels[i][k] < |g|
    ensures EdgeMay(g, root, levels, i, k + 1, e, f) <==>
            && EdgeMay(g, root, levels, i, k, e, f)
            && (Into(g, levels[i][k], Pred(g, f)) ==> EdgeDominates(g, root, e, levels[i][k]))
            && (Into(g, |g| + levels[i][k], Pred(g, f)) ==> EdgeDominates(g, root, e, |g| + levels[i][k]))
  {
    var b, c := levels[i][k], Pred(g, f);
    LeveledAt(g, root, levels, i, k);
    assert levels[i][..k + 1] == levels[i][..k] + [b];
    forall a: nat ensures Visited(g, root, levels, i, k + 1, a) <==> Visited(g, root, levels, i, k, a) || a == b {
      assert a in levels[i][..k + 1] <==> a in levels[i][..k] || a == b;
    }
    assert Into(g, b, c) || Into(g, |g| + b, c) ==> !Visited(g, root, levels, i, k, c);
  }

  lemma VisitEdgesCorrect(g: Graph, root: nat, levels: seq<seq<nat>>, i: nat, k: nat, edom: seq<set<nat>>)
    requires Acyclic(g) && root < |g| && Leveled(g, root, levels) && i < |levels| && k < |levels[i]|
    requires EdomSoFar(g, root, levels, i, k, edom)
    ensures levels[i][k] < |g| && Valid(g) && |edom| == 2 * |g|
    ensures EdomSoFar(g, root, levels, i, k + 1,
                      Propagated(g, Propagated(g, edom, levels[i][k]), |g| + levels[i][k]))
  {
    var b := levels[i][k];
    LeveledAt(g, root, levels, i, k);
    assert Ranked(g, RankOf(g));
    var e1 := Propagated(g, edom, b);
    var e2 := Propagated(g, e1, |g| + b);
    assert Visited(g, root, levels, i, k + 1, b) by {
      assert levels[i][..k + 1][k] == b;
    }
    forall f: nat | RealEdge(g, f) && Reachable(g, root, Pred(g, f))
      ensures EdomAt(g, root, levels, i, k + 1, e2[f], f)
    {
      forall e: nat ensures e in e2[f] <==> e < 2 * |g| && EdgeMay(g, root, levels, i, k + 1, e, f) {
        VisitEdgeAt(g, root, levels, i, k, edom, e, f);
      }
    }
  }

  /** What visiting block b does to the set of edge f. */
  lemma PropagatedTwice(g: Graph, edom: seq<set<nat>>, b: nat, f: nat)
    requires Acyclic(g) && Valid(g) && b < |g| && f < 2 * |g| == |edom| && g[Pred(g, f)].Br?
    ensures Propagated(g, Propagated(g, edom, b), |g| + b)[f] ==
            if f == b || f == |g| + b then
              edom[f] + {f}
            else
              (if Into(g, b, Pred(g, f)) then edom[f] * (edom[b] + {b}) else edom[f]) *
              (if Into(g, |g| + b, Pred(g, f)) then edom[|g| + b] + {|g| + b} else edom[f])
  {
    assert Ranked(g, RankOf(g));
    if g[b].Br? {
      PropagatedAt(g, edom, b, f);
      PropagatedAt(g, edom, b, |g| + b);
      PropagatedAt(g, Propagated(g, edom, b), |g| + b, f);
    }
  }

  lemma VisitEdgeAt(g: Graph, root: nat, levels: seq<seq<nat>>, i: nat, k: nat, edom: seq<set<nat>>, e: nat, f: nat)
    requires Acyclic(g) && root < |g| && Leveled(g, root, levels) && i < |levels| && k < |levels[i]|
    requires EdomSoFar(g, root, levels, i, k, edom)
    requires RealEdge(g, f) && Reachable(g, root, Pred(g, f))
    requires Visited(g, root, levels, i, k + 1, levels[i][k])
    ensures Valid(g) && levels[i][k] < |g|
    ensures e in Propagated(g, Propagated(g, edom, levels[i][k]), |g| + levels[i][k])[f] <==>
            e < 2 * |g| && EdgeMay(g, root, levels, i, k + 1, e, f)
  {
    hide *;
    var b := levels[i][k];
    LeveledAt(g, root, levels, i, k);
    AcyclicValid(g);
    EdomSoFarAt(g, root, levels, i, k, edom, e, f);
    EdgeParts(g, f);
    PropagatedTwice(g, edom, b, f);
    if Pred(g, f) == b {
      EdgeMaySelf(g, root, levels, i, k, e, f);
      EdgeMayVisited(g, root, levels, i, k, e, f);
      OwnEdge(g, f, b);
    } else {
      EdgeMayOther(g, root, levels, i, k, e, f);
      OtherEdge(g, f, b);
      if Into(g, b, Pred(g, f)) {
        IntoParts(g, b, Pred(g, f));
        EdomSoFarAt(g, root, levels, i, k, edom, e, b);
        EdgeMaySelf(g, root, levels, i, k, e, b);
      }
      if Into(g, |g| + b, Pred(g, f)) {
        IntoParts(g, |g| + b, Pred(g, f));
        EdomSoFarAt(g, root, levels, i, k, edom, e, |g| + b);
        EdgeMaySelf(g, root, levels, i, k, e, |g| + b);
      }
    }
  }

  lemma AcyclicValid(g: Graph)
    requires Acyclic(g)
    ensures Valid(g)
  {
    assert Ranked(g, RankOf(g));
  }

  lemma EdgeParts(g: Graph, f: nat)
    requires RealEdge(g, f)
    ensures f < 2 * |g| && Pred(g, f) < |g| && g[Pred(g, f)].Br?
  {
  }

  lemma OwnEdge(g: Graph, f: nat, b: nat)
    requires RealEdge(g, f) && Pred(g, f) == b
    ensures f == b || f == |g| + b
  {
  }

  lemma OtherEdge(g: Graph, f: nat, b: nat)
    requires RealEdge(g, f) && Pred(g, f) != b && b < |g|
    ensures f != b && f != |g| + b
  {
  }

  lemma IntoParts(g: Graph, e: nat, c: nat)
    requires Into(g, e, c)
    ensures RealEdge(g, e) && e < 2 * |g| && (e < |g| ==> Pred(g, e) == e) && (e >= |g| ==> Pred(g, e) == e - |g|)
  {
  }

  lemma EdomSoFarAt(g: Graph, root: nat, levels: seq<seq<nat>>, i: nat, k: nat, edom: seq<set<nat>>, e: nat, f: nat)
    requires Acyclic(g) && root < |g| && i < |levels| && k <= |levels[i]| && EdomSoFar(g, root, levels, i, k, edom)
    requires RealEdge(g, f) && Reachable(g, root, Pred(g, f))
    ensures f < 2 * |g| == |edom| && (e in edom[f] <==> e < 2 * |g| && EdgeMay(g, root, levels, i, k, e, f))
  {
    assert EdomAt(g, root, levels, i, k, edom[f], f);
  }

  lemma EdgeMayVisited(g: Graph, root: nat, levels: seq<seq<nat>>, i: nat, k: nat, e: nat, f: nat)
    requires Acyclic(g) && root < |g| && i < |levels| && k < |levels[i]|
    requires Visited(g, root, levels, i, k + 1, levels[i][k])
    requires RealEdge(g, f) && Pred(g, f) == levels[i][k]
    ensures EdgeMay(g, root, levels, i, k + 1, e, f) <==> EdgeDominates(g, root, e, f)
  {
  }

  lemma EdgesNextLevelDown(g: Graph, root: nat, levels: seq<seq<nat>>, i: nat, edom: seq<set<nat>>)
    requires Acyclic(g) && root < |g| && Leveled(g, root, levels) && 0 < i < |levels|
    requires EdomSoFar(g, root, levels, i, |levels[i]|, edom)
    ensures EdomSoFar(g, root, levels, i - 1, 0, edom)
  {
    assert levels[i][..|levels[i]|] == levels[i];
    forall b: nat ensures Visited(g, root, levels, i, |levels[i]|, b) <==> Visited(g, root, levels, i - 1, 0, b) {
    }
    forall f: nat | RealEdge(g, f) && Reachable(g, root, Pred(g, f))
      ensures EdomAt(g, root, levels, i - 1, 0, edom[f], f)
    {
      forall e: nat
        ensures EdgeMay(g, root, levels, i, |levels[i]|, e, f) <==> EdgeMay(g, root, levels, i - 1, 0, e, f)
      {
      }
    }
  }

  /** Every set full, but those of the two edges leaving the root empty. */
  function InitialEdom(g: Graph, root: nat): (r: seq<set<nat>>)
    requires root < |g|
    ensures |r| == 2 * |g|
    ensures forall f :: 0 <= f < 2 * |g| ==> r[f] == if Pred(g, f) == root then {} else Below(2 * |g|)
  {
    seq(2 * |g|, f requires 0 <= f => if Pred(g, f) == root then {} else Below(2 * |g|))
  }

  lemma EdomStart(g: Graph, root: nat, levels: seq<seq<nat>>)
    requires Acyclic(g) && root < |g| && Leveled(g, root, levels)
    ensures Level(g, root) < |g| && EdomSoFar(g, root, levels, Level(g, root), 0, InitialEdom(g, root))
  {
    var edom := InitialEdom(g, root);
    LevelBound(g, root);
    forall a: nat ensures !Visited(g, root, levels, Level(g, root), 0, a) {
      if a < |g| && Reachable(g, root, a) {
        NotAboveRoot(g, root, a);
      }
    }
    forall f: nat | RealEdge(g, f) && Reachable(g, root, Pred(g, f))
      ensures EdomAt(g, root, levels, Level(g, root), 0, edom[f], f)
    {
    }
  }

  lemma EdomEnd(g: Graph, root: nat, levels: seq<seq<nat>>, edom: seq<set<nat>>)
    requires Acyclic(g) && root < |g| && Leveled(g, root, levels) && |levels| > 0
    requires EdomSoFar(g, root, levels, 0, |levels[0]|, edom)
    ensures EdomExact(g, root, edom)
  {
    forall f: nat, e: nat | RealEdge(g, f) && Reachable(g, root, Pred(g, f))
      ensures e in edom[f] <==> e < 2 * |g| && EdgeDominates(g, root, e, f)
    {
      assert EdomAt(g, root, levels, 0, |levels[0]|, edom[f], f);
      assert levels[0][..|levels[0]|] == levels[0];
      assert Visited(g, root, levels, 0, |levels[0]|, Pred(g, f));
      assert EdgeMay(g, root, levels, 0, |levels[0]|, e, f) <==> EdgeDominates(g, root, e, f);
    }
  }

  /** The two propedom calls for block b. */
  method PropagateBlock(g: Graph, edom: seq<set<nat>>, b: nat) returns (r: seq<set<nat>>)
    requires Valid(g) && b < |g| && |edom| == 2 * |g|
    ensures r == Propagated(g, Propagated(g, edom, b), |g| + b)
  {
    hide Propagated;
    r := PropagateEdge(g, edom, b);
    r := PropagateEdge(g, r, |g| + b);
  }

  /** The inner loop of find_edom: both edges of every block of level i. */
  method PropagateLevel(g: Graph, root: nat, levels: seq<seq<nat>>, i: nat, edom0: seq<set<nat>>)
    returns (edom: seq<set<nat>>)
    requires Acyclic(g) && root < |g| && Leveled(g, root, levels) && i < |levels|
    requires EdomSoFar(g, root, levels, i, 0, edom0)
    ensures EdomSoFar(g, root, levels, i, |levels[i]|, edom)
  {
    hide *;
    edom := edom0;
    for k := 0 to |levels[i]|
      invariant EdomSoFar(g, root, levels, i, k, edom)
    {
      VisitEdgesCorrect(g, root, levels, i, k, edom);
      edom := PropagateBlock(g, edom, levels[i][k]);
    }
  }

  /** find_edom, over the levels from the root's down. */
  method FindEdom(g: Graph, root: nat, level: seq<nat>, levels: seq<seq<nat>>) returns (edom: seq<set<nat>>)
    requires Acyclic(g) && root < |g| && Leveled(g, root, levels)
    requires |level| == |g| && level[root] == Level(g, root)
    ensures EdomExact(g, root, edom)
  {
    hide *;
    LevelCount(g, root, levels);
    edom := InitialEdom(g, root);
    EdomStart(g, root, levels);
    var i: int := level[root];
    while i >= 0
      invariant -1 <= i < |g|
      invariant if i >= 0 then EdomSoFar(g, root, levels, i, 0, edom) else EdomExact(g, root, edom)
    {
      edom := PropagateLevel(g, root, levels, i, edom);
      if i > 0 {
        EdgesNextLevelDown(g, root, levels, i, edom);
      } else {
        EdomEnd(g, root, levels, edom);
      }
      i := i - 1;
    }
  }

  method PropagateEdge(g: Graph, edom: seq<set<nat>>, e: nat) returns (r: seq<set<nat>>)
    requires Valid(g) && e < 2 * |g| == |edom|
    ensures r == Propagated(g, edom, e)
  {
    r := edom[e := edom[e] + {e}];
    if RealEdge(g, e) {
      var s := Succ(g, e);
      r := r[s := r[s] * r[e]];
      r := r[|g| + s := r[|g| + s] * r[e]];
    }
  }
}
