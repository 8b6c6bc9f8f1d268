/**
 Dominators and edge dominators, computed level by level from the root down. The sets are
 exact: they hold what every path to a block (or through an edge) must pass.
 */
module Dominators {
  import opened Machine
  import opened FlowGraph
  import opened Levels

  // ----- blocks -----

  /** Every path from the root to b passes d. */
  ghost predicate Dominates(g: Graph, root: nat, d: nat, b: nat) {
    forall path :: PathTo(g, root, b, path) ==> d in path
  }

  lemma DominatesRoot(g: Graph, root: nat, d: nat)
    requires root < |g|
    ensures Dominates(g, root, d, root) <==> d == root
  {
    assert PathTo(g, root, root, [root]);
  }

  /** A block's dominators are itself and what dominates all its predecessors. */
  lemma DominatesStep(g: Graph, root: nat, d: nat, b: nat)
    requires b < |g| && b != root
    ensures Dominates(g, root, d, b) <==> d == b || forall a: nat :: Edge(g, a, b) ==> Dominates(g, root, d, a)
  {
    if Dominates(g, root, d, b) && d != b {
      forall a: nat, path | Edge(g, a, b) && PathTo(g, root, a, path) ensures d in path {
        assert PathTo(g, root, b, path + [b]);
        assert d in path + [b];
      }
    }
    if forall a: nat :: Edge(g, a, b) ==> Dominates(g, root, d, a) {
      forall path | PathTo(g, root, b, path) ensures d in path {
        var n := |path| - 1;
        assert Edge(g, path[n - 1], path[n]);
        assert PathTo(g, root, path[n - 1], path[..n]);
        assert d in path[..n];
      }
    }
  }

  /** The blocks a pass from the root down has visited when it is about to visit levels[i][k]. */
  ghost predicate Visited(g: Graph, root: nat, levels: seq<seq<nat>>, i: nat, k: nat, b: nat)
    requires Acyclic(g) && i < |levels| && k <= |levels[i]|
  {
    b < |g| && Reachable(g, root, b) && (Level(g, b) > i || b in levels[i][..k])
  }

  /** Visited sets are exact; the others hold what dominates all the predecessors visited so far. */
  ghost predicate DomSoFar(g: Graph, root: nat, levels: seq<seq<nat>>, i: nat, k: nat, dom: seq<set<nat>>)
    requires Acyclic(g) && root < |g| && i < |levels| && k <= |levels[i]|
  {
    && |dom| == |g|
    && forall b: nat :: b < |g| && Reachable(g, root, b) ==> DomAt(g, root, levels, i, k, dom[b], b)
  }

  ghost predicate DomAt(g: Graph, root: nat, levels: seq<seq<nat>>, i: nat, k: nat, s: set<nat>, b: nat)
    requires Acyclic(g) && root < |g| && i < |levels| && k <= |levels[i]|
  {
    forall d: nat :: d in s <==> d < |g| && MayDominate(g, root, levels, i, k, d, b)
  }

  ghost predicate MayDominate(g: Graph, root: nat, levels: seq<seq<nat>>, i: nat, k: nat, d: nat, b: nat)
    requires Acyclic(g) && root < |g| && i < |levels| && k <= |levels[i]|
  {
    if Visited(g, root, levels, i, k, b) then Dominates(g, root, d, b)
    else b != root && forall a: nat :: Edge(g, a, b) && Visited(g, root, levels, i, k, a) ==> Dominates(g, root, d, a)
  }

  ghost predicate DomExact(g: Graph, root: nat, dom: seq<set<nat>>) {
    && |dom| == |g|
    && forall b: nat, d: nat :: b < |g| && Reachable(g, root, b) ==>
      (d in dom[b] <==> d < |g| && Dominates(g, root, d, b))
  }

  /** The full bit vector. */
  function Below(n: nat): (s: set<nat>)
    ensures forall d: nat :: d in s <==> d < n
  {
    if n == 0 then {} else Below(n - 1) + {n - 1}
  }

  /** What find_dom does when it visits b: b joins its own set, which then cuts its successors'. */
  function VisitDom(g: Graph, dom: seq<set<nat>>, b: nat): seq<set<nat>>
    requires Valid(g) && b < |g| == |dom|
  {
    var d0 := dom[b := dom[b] + {b}];
    if g[b].Ret? then d0
    else
      var d1 := d0[g[b].jt := d0[g[b].jt] * d0[b]];
      d1[g[b].jf := d1[g[b].jf] * d1[b]]
  }

  /** All predecessors on a path from the root have been visited before. */
  lemma PredecessorsVisited(g: Graph, root: nat, levels: seq<seq<nat>>, i: nat, k: nat, a: nat, b: nat)
    requires Acyclic(g) && root < |g| && Leveled(g, root, levels) && i < |levels| && k < |levels[i]|
    requires b == levels[i][k] && Edge(g, a, b) && Reachable(g, root, a)
    ensures Visited(g, root, levels, i, k, a)
  {
    assert b in levels[i];
  }

  /** Before b is visited, its set holds just what dominates all its predecessors. */
  lemma MayDominateSelf(g: Graph, root: nat, levels: seq<seq<nat>>, i: nat, k: nat, d: nat)
    requires Acyclic(g) && root < |g| && Leveled(g, root, levels) && i < |levels| && k < |levels[i]|
    ensures levels[i][k] < |g|
    ensures MayDominate(g, root, levels, i, k, d, levels[i][k]) || d == levels[i][k]
            <==> Dominates(g, root, d, levels[i][k])
  {
    var b := levels[i][k];
    assert b in levels[i];
    assert !Visited(g, root, levels, i, k, b) by {
      assert NoRepeats(levels[i]);
    }
    if b == root {
      DominatesRoot(g, root, d);
    } else {
      DominatesStep(g, root, d, b);
      forall a: nat | Edge(g, a, b) && !Visited(g, root, levels, i, k, a) ensures Dominates(g, root, d, a) {
        if Reachable(g, root, a) {
          PredecessorsVisited(g, root, levels, i, k, a, b);
        }
      }
    }
  }

  /** Visiting b adds, for every other block, only the constraint that b's edges carry. */
  lemma MayDominateOther(g: Graph, root: nat, levels: seq<seq<nat>>, i: nat, k: nat, d: nat, c: nat)
    requires Acyclic(g) && root < |g| && Leveled(g, root, levels) && i < |levels| && k < |levels[i]|
    requires c < |g| && Reachable(g, root, c) && c != levels[i][k]
    ensures MayDominate(g, root, levels, i, k + 1, d, c) <==>
            MayDominate(g, root, levels, i, k, d, c)
              && (Edge(g, levels[i][k], c) ==> Dominates(g, root, d, levels[i][k]))
  {
    var b := levels[i][k];
    LeveledAt(g, root, levels, i, k);
    assert b in levels[i];
    assert levels[i][..k + 1] == levels[i][..k] + [b];
    assert forall x :: x in levels[i][..k] ==> x in levels[i];
    forall a: nat ensures Visited(g, root, levels, i, k + 1, a) <==> Visited(g, root, levels, i, k, a) || a == b {
      assert a in levels[i][..k + 1] <==> a in levels[i][..k] || a == b;
    }
    if Edge(g, b, c) {
      assert Level(g, c) < i;
    }
  }

  lemma VisitDomCorrect(g: Graph, root: nat, levels: seq<seq<nat>>, i: nat, k: nat, dom: seq<set<nat>>)
    requires Acyclic(g) && root < |g| && Leveled(g, root, levels) && i < |levels| && k < |levels[i]|
    requires DomSoFar(g, root, levels, i, k, dom)
    ensures levels[i][k] < |g| == |dom| && Valid(g)
    ensures DomSoFar(g, root, levels, i, k + 1, VisitDom(g, dom, levels[i][k]))
  {
    var b := levels[i][k];
    assert b in levels[i] && b < |g| && Reachable(g, root, b);
    var dom' := VisitDom(g, dom, b);
    assert g[b].Br? ==> g[b].jt != b && g[b].jf != b by { assert Ranked(g, RankOf(g)); }
    forall d: nat ensures d in dom'[b] <==> d < |g| && Dominates(g, root, d, b) {
      MayDominateSelf(g, root, levels, i, k, d);
    }
    assert Visited(g, root, levels, i, k + 1, b) by {
      assert levels[i][..k + 1][k] == b;
    }
    forall c: nat, d: nat | c < |g| && Reachable(g, root, c) && c != b
      ensures d in dom'[c] <==> d < |g| && MayDominate(g, root, levels, i, k + 1, d, c)
    {
      MayDominateOther(g, root, levels, i, k, d, c);
      assert dom'[c] == if Edge(g, b, c) then dom[c] * dom'[b] else dom[c];
    }
    forall c: nat | c < |g| && Reachable(g, root, c) ensures DomAt(g, root, levels, i, k + 1, dom'[c], c) {
      assert forall d: nat :: d in dom'[c] <==> d < |g| && MayDominate(g, root, levels, i, k + 1, d, c);
    }
  }

  lemma NextLevelDown(g: Graph, root: nat, levels: seq<seq<nat>>, i: nat, dom: seq<set<nat>>)
    requires Acyclic(g) && root < |g| && Leveled(g, root, levels) && 0 < i < |levels|
    requires DomSoFar(g, root, levels, i, |levels[i]|, dom)
    ensures DomSoFar(g, root, levels, i - 1, 0, dom)
  {
    assert levels[i][..|levels[i]|] == levels[i];
    forall b: nat ensures Visited(g, root, levels, i, |levels[i]|, b) <==> Visited(g, root, levels, i - 1, 0, b) {
    }
    forall b: nat | b < |g| && Reachable(g, root, b) ensures DomAt(g, root, levels, i - 1, 0, dom[b], b) {
      forall d: nat
        ensures MayDominate(g, root, levels, i, |levels[i]|, d, b) <==> MayDominate(g, root, levels, i - 1, 0, d, b)
      {
      }
    }
  }

  lemma DomStart(g: Graph, root: nat, levels: seq<seq<nat>>, dom: seq<set<nat>>)
    requires Acyclic(g) && root < |g| && Leveled(g, root, levels)
    requires |dom| == |g| && dom[root] == {}
    requires forall b :: 0 <= b < |g| && b != root ==> dom[b] == Below(|g|)
    ensures Level(g, root) < |g| && DomSoFar(g, root, levels, Level(g, root), 0, dom)
  {
    LevelBound(g, root);
    forall a: nat ensures !Visited(g, root, levels, Level(g, root), 0, a) {
      if a < |g| && Reachable(g, root, a) {
        NotAboveRoot(g, root, a);
      }
    }
    forall b: nat | b < |g| && Reachable(g, root, b) ensures DomAt(g, root, levels, Level(g, root), 0, dom[b], b) {
    }
  }

  lemma DomEnd(g: Graph, root: nat, levels: seq<seq<nat>>, dom: seq<set<nat>>)
    requires Acyclic(g) && root < |g| && Leveled(g, root, levels) && |levels| > 0
    requires DomSoFar(g, root, levels, 0, |levels[0]|, dom)
    ensures DomExact(g, root, dom)
  {
    forall b: nat, d: nat | b < |g| && Reachable(g, root, b)
      ensures d in dom[b] <==> d < |g| && Dominates(g, root, d, b)
    {
      assert DomAt(g, root, levels, 0, |levels[0]|, dom[b], b);
      assert levels[0][..|levels[0]|] == levels[0];
      assert Visited(g, root, levels, 0, |levels[0]|, b);
      assert MayDominate(g, root, levels, 0, |levels[0]|, d, b) <==> Dominates(g, root, d, b);
    }
  }

  /** One level of find_dom. */
  method VisitLevel(g: Graph, root: nat, levels: seq<seq<nat>>, i: nat,
          dom0: seq<set<nat>>) returns (dom: seq<set<nat>>)
    requires Acyclic(g) && root < |g| && Leveled(g, root, levels) && i < |levels|
    requires DomSoFar(g, root, levels, i, 0, dom0)
    ensures DomSoFar(g, root, levels, i, |levels[i]|, dom)
  {
    hide *;
    dom := dom0;
    for k := 0 to |levels[i]|
      invariant DomSoFar(g, root, levels, i, k, dom)
    {
      VisitDomCorrect(g, root, levels, i, k, dom);
      dom := VisitBlock(g, dom, levels[i][k]);
    }
  }

  method VisitBlock(g: Graph, dom0: seq<set<nat>>, b: nat) returns (dom: seq<set<nat>>)
    requires Valid(g) && b < |g| == |dom0|
    ensures dom == VisitDom(g, dom0, b)
  {
    dom := dom0[b := dom0[b] + {b}];
    if g[b].Br? {
      dom := dom[g[b].jt := dom[g[b].jt] * dom[b]];
      dom := dom[g[b].jf := dom[g[b].jf] * dom[b]];
    }
  }

  /** find_dom: dom[b] ends up holding exactly the blocks that every path from the root to b passes. */
  method FindDom(g: Graph, root: nat, level: seq<nat>, levels: seq<seq<nat>>) returns (dom: seq<set<nat>>)
    requires Acyclic(g) && root < |g| && Leveled(g, root, levels)
    requires |level| == |g| && level[root] == Level(g, root)
    ensures DomExact(g, root, dom)
  {
    hide *;
    LevelCount(g, root, levels);
    dom := seq(|g|, b => Below(|g|));
    dom := dom[root := {}];
    DomStart(g, root, levels, dom);
    var i: int := level[root];
    while i >= 0
      invariant -1 <= i < |g|
      invariant if i >= 0 then DomSoFar(g, root, levels, i, 0, dom) else DomExact(g, root, dom)
    {
      dom := VisitLevel(g, root, levels, i, dom);
      if i > 0 {
        NextLevelDown(g, root, levels, i, dom);
      } else {
        DomEnd(g, root, levels, dom);
      }
      i := i - 1;
    }
  }
}
