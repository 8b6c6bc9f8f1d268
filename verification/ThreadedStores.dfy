/**
 opt_blks without rewriting: every block is numbered with the statements it has and then loses its
 dead stores, and only after that are the branches moved, with the numbers of the full lists and the
 liveness of the graph before. Moving a branch leaves less in use than there was, so what was dead
 before is dead after.
 */
module ThreadedStores {
  import opened Machine
  import opened FlowGraph
  import opened Levels
  import opened Liveness
  import opened DeadStores
  import opened BlockNumbering
  import opened JumpThreading
  import opened ValueNumbering
  import Rewriting

  // ----- what is in use in a self-contained graph -----

  /** Below the root only shared atoms are in use, and what is in use after a block is in use before it. */
  lemma {:induction false} SharedInUse(g: Graph, root: nat, shared: set<nat>, b: nat)
    requires Acyclic(g) && SelfContained(g, root, shared) && b < |g| && b != root && Reachable(g, root, b)
    ensures OutUse(g, b) <= InUse(g, b) <= shared
    decreases RankOf(g)[b]
  {
    if g[b].Br? {
      assert Ranked(g, RankOf(g)) && Edge(g, b, g[b].jt) && Edge(g, b, g[b].jf);
      NotAboveRoot(g, root, b);
      ReachableStep(g, root, b, g[b].jt);
      ReachableStep(g, root, b, g[b].jf);
      SharedInUse(g, root, shared, g[b].jt);
      SharedInUse(g, root, shared, g[b].jf);
    }
    var ss, uses, out := g[b].stmts, ExitUses(g[b]), OutUse(g, b);
    LiveBeforeWritten(ss, uses, out);
    LiveBeforeMonotone(ss, uses, EndUses(g[b]));
    LivePassesOver(ss, uses + out);
    assert out <= shared && Inherits(g[b]) <= shared;
  }

  /** What is in use at a block is in use at every block that leads to it. */
  lemma {:induction false} InUseAbove(g: Graph, root: nat, shared: set<nat>, path: seq<nat>)
    requires Acyclic(g) && SelfContained(g, root, shared) && IsPath(g, path)
    requires path[0] != root && Reachable(g, root, path[0])
    ensures InUse(g, path[|path| - 1]) <= InUse(g, path[0])
    decreases |path|
  {
    if |path| > 1 {
      var b, c := path[0], path[1];
      assert Edge(g, b, c);
      NotAboveRoot(g, root, b);
      ReachableStep(g, root, b, c);
      InUseAbove(g, root, shared, path[1..]);
      SharedInUse(g, root, shared, b);
    }
  }

  lemma InUseFalls(g: Graph, root: nat, shared: set<nat>, b: nat, c: nat)
    requires Acyclic(g) && SelfContained(g, root, shared) && b < |g| && b != root && Reachable(g, root, b)
    requires Reachable(g, b, c)
    ensures c < |g| && InUse(g, c) <= InUse(g, b)
  {
    var path :| PathTo(g, b, c, path);
    InUseAbove(g, root, shared, path);
  }

  /** After branches have moved no more is in use than before. */
  lemma {:induction false} ThreadedUse(g0: Graph, root: nat, g: Graph, l: nat, shared: set<nat>, b: nat)
    requires Progress(g0, root, g, l) && SelfContained(g0, root, shared) && b < |g| && Reachable(g0, root, b)
    ensures OutUse(g, b) <= OutUse(g0, b) && InUse(g, b) <= InUse(g0, b)
    decreases Level(g0, b)
  {
    assert Settled(g0, root, l, b, g[b]) && Ranked(g0, RankOf(g0));
    if g[b].Br? {
      ThreadedUse(g0, root, g, l, shared, g[b].jt);
      ThreadedUse(g0, root, g, l, shared, g[b].jf);
      NotAboveRoot(g0, root, b);
      ReachableStep(g0, root, b, g0[b].jt);
      ReachableStep(g0, root, b, g0[b].jf);
      assert Edge(g0, b, g0[b].jt) && Edge(g0, b, g0[b].jf);
      InUseFalls(g0, root, shared, g0[b].jt, g[b].jt);
      InUseFalls(g0, root, shared, g0[b].jf, g[b].jf);
    }
    LiveBeforeMonotone(g[b].stmts, ExitUses(g[b]) + OutUse(g, b), ExitUses(g0[b]) + OutUse(g0, b));
  }

  // ----- branches moved and dead stores gone -----

  /** Numbering without rewriting leaves the list as it is. */
  lemma {:induction false} PlainSame(t: Table, v: Vals, ss: seq<Stmt>)
    ensures OptStmts(t, v, ss, false).Listed? && OptStmts(t, v, ss, false).ss == ss
    decreases |ss|
  {
    if ss != [] {
      PlainStmt(t, v, v, ss[0], {});
      var x := OptStmt(t, v, ss[0], false);
      PlainSame(x.t, x.val, ss[1..]);
    }
  }

  /** h is g without the stores that were dead in g, in its reachable blocks. */
  ghost predicate Dropped(g: Graph, h: Graph, root: nat)
    requires Acyclic(g)
  {
    && |h| == |g| && (forall b :: 0 <= b < |g| ==> h[b] == WithStmts(g[b], h[b].stmts))
    && forall b: nat :: b < |g| && Reachable(g, root, b) ==> h[b].stmts == Pruned(g[b].stmts, EndLive(g, b))
  }

  lemma FinishedDrops(t: Table, g: Graph, h: Graph, root: nat, ns: seq<Numbers>, out: seq<set<nat>>)
    requires Acyclic(g) && Rewriting.FinishedGraph(t, g, h, root, ns, out, false)
    requires forall b: nat :: b < |g| && Reachable(g, root, b) ==> out[b] == OutUse(g, b)
    ensures Dropped(g, h, root)
  {
    forall b: nat | b < |g| && Reachable(g, root, b) ensures h[b].stmts == Pruned(g[b].stmts, EndLive(g, b)) {
      var t0 :| NumberedFrom(t0, t, g[b], ns[b], false);
      PlainSame(t0, ns[b].entry, g[b].stmts);
    }
  }

  lemma ThreadedReaches(g0: Graph, root: nat, g: Graph, l: nat, b: nat)
    requires Progress(g0, root, g, l) && b < |g| && Reachable(g, root, b)
    ensures Reachable(g0, root, b) && SameBlock(g0[b], g[b])
  {
    forall x: nat, y: nat | x < |g0| && Reachable(g0, root, x) && Edge(g, x, y)
      ensures y < |g0| && Reachable(g0, root, y)
    {
      assert Settled(g0, root, l, x, g[x]);
    }
    NoneAdded(g0, g, root, b);
    assert Settled(g0, root, l, b, g[b]);
  }

  /** What has gone from the lists was dead after the branches moved, too. */
  lemma DroppedThins(g0: Graph, root: nat, g: Graph, l: nat, shared: set<nat>, h: Graph)
    requires Progress(g0, root, g, l) && SelfContained(g0, root, shared) && Dropped(g0, h, root)
    ensures ThinnedFrom(g, Relisted(g, ListsOf(h)), root)
  {
    var g' := Relisted(g, ListsOf(h));
    forall b: nat | b < |g| && Reachable(g, root, b) ensures Thins(g[b].stmts, g'[b].stmts, EndLive(g, b)) {
      ThreadedReaches(g0, root, g, l, b);
      ThreadedUse(g0, root, g, l, shared, b);
      PrunedThins(g[b].stmts, EndLive(g0, b), EndLive(g, b));
    }
  }

  /**
   Branches moved with the numbers of the full lists, in a graph whose dead stores have gone by the
   liveness it had before: the verdict of every run that does not fault is that of the graph at the start.
   */
  lemma ThreadedKeepsVerdicts(g0: Graph, root: nat, g: Graph, l: nat, shared: set<nat>, h: Graph)
    requires Progress(g0, root, g, l) && SelfContained(g0, root, shared) && OwnReturns(g0, root)
    requires Dropped(g0, h, root)
    ensures Acyclic(Relisted(g, ListsOf(h))) && SameVerdicts(g0, Relisted(g, ListsOf(h)), root)
  {
    var g' := Relisted(g, ListsOf(h));
    DroppedThins(g0, root, g, l, shared, h);
    SameShape(g, g');
    forall b: nat | b < |g| && Reachable(g, root, b) ensures OwnReturn(g[b]) {
      ThreadedReaches(g0, root, g, l, b);
    }
    forall r, p | Run(g0, root, r, p) != Fault ensures Run(g', root, r, p) == Run(g0, root, r, p) {
      ThinnedKeepsVerdict(g, g', root, r, r, p);
    }
  }

  // ----- still self-contained -----

  /** A thinned list reads and writes nothing that the full one does not. */
  lemma {:induction false} ThinnedReads(ss: seq<Stmt>, thin: seq<Stmt>, live: set<nat>, out: set<nat>)
    requires Thins(ss, thin, live) && out <= live
    ensures LiveBefore(thin, out) <= LiveBefore(ss, out) && Writes(thin) <= Writes(ss)
  {
    if ss != [] {
      ThinsTail(ss, thin, live);
      ThinnedReads(ss[1..], thin[1..], live, out);
      LiveBeforeMonotone(ss[1..], out, live);
    }
  }

  /** It still writes what is live after it. */
  lemma {:induction false} ThinnedWrites(ss: seq<Stmt>, thin: seq<Stmt>, live: set<nat>)
    requires Thins(ss, thin, live)
    ensures live * Writes(ss) <= Writes(thin)
  {
    if ss != [] {
      ThinsTail(ss, thin, live);
      ThinnedWrites(ss[1..], thin[1..], live);
      LivePassesOver(ss[1..], live);
    }
  }

  /** What a reachable block inherits is in use after the root. */
  lemma InheritedInUse(g: Graph, root: nat, shared: set<nat>, b: nat)
    requires Acyclic(g) && SelfContained(g, root, shared) && OwnReturns(g, root)
    requires b < |g| && b != root && Reachable(g, root, b)
    ensures Inherits(g[b]) <= OutUse(g, root)
  {
    var path :| PathTo(g, root, b, path);
    var c := path[1];
    assert Edge(g, root, c) && PathTo(g, c, b, path[1..]);
    ReachableSelf(g, root);
    NotAboveRoot(g, root, root);
    ReachableStep(g, root, root, c);
    InUseFalls(g, root, shared, c, b);
    LiveBeforeMonotone(g[b].stmts, ExitUses(g[b]), ExitUses(g[b]) + OutUse(g, b));
    assert OwnReturn(g[b]);
    assert g[b].Ret? && g[b].rv.RetA? ==> EndUses(g[b]) == {A_ATOM} && ExitUses(g[b]) == {};
    assert InUse(g, c) <= OutUse(g, root);
  }

  /** The atoms the root still sets are the shared ones now. */
  lemma DroppedSelfContained(g: Graph, h: Graph, root: nat, shared: set<nat>)
    requires Acyclic(g) && SelfContained(g, root, shared) && OwnReturns(g, root) && Dropped(g, h, root)
    ensures SelfContained(h, root, shared * Writes(h[root].stmts))
  {
    var kept := shared * Writes(h[root].stmts);
    ReachableSelf(g, root);
    forall b: nat | b < |g| && Reachable(g, root, b)
      ensures Inherits(h[b]) <= Inherits(g[b]) && Writes(h[b].stmts) <= Writes(g[b].stmts)
      ensures b != root ==> Contained(h[b], kept)
    {
      PrunedThins(g[b].stmts, EndLive(g, b), EndLive(g, b));
      ThinnedReads(g[b].stmts, h[b].stmts, EndLive(g, b), EndUses(g[b]));
      if b != root {
        InheritedInUse(g, root, shared, b);
        PrunedThins(g[root].stmts, EndLive(g, root), EndLive(g, root));
        ThinnedWrites(g[root].stmts, h[root].stmts, EndLive(g, root));
        assert Inherits(h[b]) <= shared && shared <= Writes(g[root].stmts);
      }
    }
    forall b: nat | b < |h| && Reachable(h, root, b) ensures Reachable(g, root, b) {
      SameReach(g, h, root, b);
    }
  }

  lemma SameReach(g: Graph, h: Graph, root: nat, b: nat)
    requires |h| == |g| && root < |g| && (forall c :: 0 <= c < |g| ==> h[c] == WithStmts(g[c], h[c].stmts))
    requires Valid(g) && b < |g| && Reachable(h, root, b)
    ensures Reachable(g, root, b)
  {
    forall x: nat, y: nat | x < |g| && Reachable(g, root, x) && Edge(h, x, y) ensures y < |g| && Reachable(g, root, y) {
      assert h[x] == WithStmts(g[x], h[x].stmts);
      ReachableStep(g, root, x, y);
    }
    NoneAdded(g, h, root, b);
  }

  /** Threading after the drop: the same graph is self-contained whichever is done first. */
  lemma ThreadedSelfContainedToo(g0: Graph, root: nat, g: Graph, l: nat, shared: set<nat>, h: Graph)
    requires Progress(g0, root, g, l) && SelfContained(g0, root, shared) && OwnReturns(g0, root)
    requires Dropped(g0, h, root)
    ensures SelfContained(Relisted(g, ListsOf(h)), root, shared * Writes(h[root].stmts))
  {
    var g' := Relisted(g, ListsOf(h));
    DroppedSelfContained(g0, h, root, shared);
    forall b | 0 <= b < |h| ensures SameBlock(h[b], g'[b]) {
      assert Settled(g0, root, l, b, g[b]) && h[b] == WithStmts(g0[b], h[b].stmts);
    }
    forall x: nat, y: nat | x < |h| && Reachable(h, root, x) && Edge(g', x, y)
      ensures y < |h| && Reachable(h, root, y)
    {
      SameReach(g0, h, root, x);
      assert Settled(g0, root, l, x, g[x]) && Edge(g, x, y);
      assert forall c :: 0 <= c < |g0| ==> g0[c] == WithStmts(h[c], g0[c].stmts);
      SameReachBack(g0, h, root, y);
    }
    SelfContainedKept(h, g', root, shared * Writes(h[root].stmts));
  }

  lemma SameReachBack(g: Graph, h: Graph, root: nat, b: nat)
    requires |h| == |g| && root < |g| && (forall c :: 0 <= c < |g| ==> h[c] == WithStmts(g[c], h[c].stmts))
    requires Valid(g) && b < |g| && Reachable(g, root, b)
    ensures Reachable(h, root, b)
  {
    forall c | 0 <= c < |g| ensures g[c] == WithStmts(h[c], g[c].stmts) {
      assert h[c] == WithStmts(g[c], h[c].stmts);
    }
    SameReach(h, g, root, b);
  }
}
