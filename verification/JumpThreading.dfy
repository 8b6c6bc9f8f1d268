/**
 Jump threading. An edge whose successor will only repeat a test that was decided on the way
 is moved to where that test must lead. The edge dominators and the numbers are those of the
 graph the pass started from; the blocks carry nothing but the shared atoms.
 */
module JumpThreading {
  import opened Machine
  import opened FlowGraph
  import opened Levels
  import opened EdgeDominators
  import opened Liveness
  import opened ValueNumbering
  import opened BlockNumbering
  import DeadStores

  /** The side of a branch an edge stands for: the sign of its code. */
  predicate Sense(g: Graph, e: nat) {
    e < |g|
  }

  predicate SameCode(s: Test, t: Test) {
    match (s, t)
    case (JmpK(o, _), JmpK(o', _)) => o == o'
    case (JmpX(o), JmpX(o')) => o == o'
    case _ => false
  }

  /** fold_edge: where block child must branch, given that edge e was taken to get there. */
  function FoldEdge(g: Graph, ns: seq<Numbers>, child: nat, e: nat): Option<nat>
    requires Valid(g) && |ns| == |g| && child < |g| && RealEdge(g, e)
  {
    var q := Pred(g, e);
    if g[child].Ret? || !SameCode(g[child].test, g[q].test) then None
    else if ns[child].val[A_ATOM] != ns[q].val[A_ATOM] then None
    else if ns[child].oval == ns[q].oval then Some(if Sense(g, e) then g[child].jt else g[child].jf)
    else if Sense(g, e) && g[child].test.JmpK? && g[child].test.op.JEQ? then Some(g[child].jf)
    else None
  }

  /** use_conflict: an atom used on exit from succ has another number there than on exit from b. */
  predicate Conflict(ns: seq<Numbers>, outUse: seq<set<nat>>, b: nat, succ: nat)
    requires |ns| == |outUse| && b < |ns| && succ < |ns|
  {
    exists atom :: 0 <= atom < N_ATOMS && atom in outUse[succ] && ns[b].val[atom] != ns[succ].val[atom]
  }

  /** The graph with edge f leading to c. */
  function Moved(g: Graph, f: nat, c: nat): (r: Graph)
    requires RealEdge(g, f)
    ensures |r| == |g|
  {
    var b := g[Pred(g, f)];
    g[Pred(g, f) := if f < |g| then Br(b.stmts, b.test, c, b.jf) else Br(b.stmts, b.test, b.jt, c)]
  }

  // ----- the graph while edges move -----

  /**
   g is g0 with some edges of blocks below level l moved, always further down from where they led.
   Blocks of level l and up have the edges they started with.
   */
  ghost predicate Threaded(g0: Graph, root: nat, g: Graph, l: nat)
    requires Acyclic(g0) && root < |g0|
  {
    |g| == |g0| && forall b: nat :: b < |g| ==> Settled(g0, root, l, b, g[b])
  }

  /** What may have become of block b of g0. */
  ghost predicate Settled(g0: Graph, root: nat, l: nat, b: nat, now: Block)
    requires Acyclic(g0) && root < |g0| && b < |g0|
  {
    && SameBlock(g0[b], now)
    && (!Reachable(g0, root, b) || Level(g0, b) >= l ==> now == g0[b])
    && (now.Br? ==>
          && Below(g0, b, now.jt) && Below(g0, b, now.jf)
          && Reachable(g0, g0[b].jt, now.jt) && Reachable(g0, g0[b].jf, now.jf)
          && (Reachable(g0, root, b) ==> Reachable(g0, root, now.jt) && Reachable(g0, root, now.jf)))
  }

  ghost predicate Below(g0: Graph, b: nat, c: nat)
    requires Acyclic(g0) && b < |g0|
  {
    c < |g0| && Level(g0, c) < Level(g0, b)
  }

  /** Statements, test or return value unchanged. */
  lemma ThreadedValid(g0: Graph, root: nat, g: Graph, l: nat)
    requires Acyclic(g0) && root < |g0| && Threaded(g0, root, g, l)
    ensures Valid(g) && Acyclic(g) && |g| == |g0|
  {
    forall b: nat | b < |g| ensures Settled(g0, root, l, b, g[b]) {
    }
    var rank := seq(|g|, b requires 0 <= b < |g| => Level(g0, b));
    assert Ranked(g, rank);
  }

  lemma ThreadedStart(g0: Graph, root: nat, l: nat)
    requires Acyclic(g0) && root < |g0|
    ensures Threaded(g0, root, g0, l)
  {
    assert Ranked(g0, RankOf(g0));
    forall b: nat | b < |g0| ensures Settled(g0, root, l, b, g0[b]) {
      if g0[b].Br? {
        ReachableSelf(g0, g0[b].jt);
        ReachableSelf(g0, g0[b].jf);
      }
      if g0[b].Br? && Reachable(g0, root, b) {
        assert Edge(g0, b, g0[b].jt) && Edge(g0, b, g0[b].jf);
        ReachableStep(g0, root, b, g0[b].jt);
        ReachableStep(g0, root, b, g0[b].jf);
      }
    }
  }

  /** Moving an edge of a block below level l further down keeps the shape. */
  lemma MovedThreaded(g0: Graph, root: nat, g: Graph, l: nat, f: nat, c: nat)
    requires Acyclic(g0) && root < |g0| && Threaded(g0, root, g, l) && RealEdge(g, f)
    requires Level(g0, Pred(g, f)) < l && Reachable(g0, root, Pred(g, f))
    requires Below(g0, Pred(g, f), c) && Reachable(g0, root, c) && Reachable(g0, Succ(g, f), c)
    ensures Threaded(g0, root, Moved(g, f, c), l)
  {
    var g', p := Moved(g, f, c), Pred(g, f);
    assert Settled(g0, root, l, p, g[p]);
    ReachableOn(g0, if f < |g| then g0[p].jt else g0[p].jf, Succ(g, f), c);
    assert Settled(g0, root, l, p, g'[p]);
  }

  /** The successors of a reachable block, whatever edges it now has. */
  lemma ThreadedSuccessor(g0: Graph, root: nat, g: Graph, l: nat, f: nat)
    requires Acyclic(g0) && root < |g0| && Threaded(g0, root, g, l) && RealEdge(g, f)
    requires Reachable(g0, root, Pred(g, f))
    ensures Valid(g) && Acyclic(g) && |g| == |g0| && Reachable(g0, root, Succ(g, f))
    ensures Below(g0, Pred(g, f), Succ(g, f))
    ensures SameBlock(g0[Pred(g, f)], g[Pred(g, f)])
    ensures Level(g0, Pred(g, f)) >= l ==> g[Pred(g, f)] == g0[Pred(g, f)]
  {
    ThreadedValid(g0, root, g, l);
    assert Settled(g0, root, l, Pred(g, f), g[Pred(g, f)]);
  }

  // ----- runs in the changing graph -----

  /** Blocks below block p do not notice that an edge of p has moved. */
  lemma {:induction false} RunBelow(g0: Graph, root: nat, g: Graph, l: nat, f: nat, c: nat, b: nat, r: Regs, p: Packet)
    requires Acyclic(g0) && root < |g0| && Threaded(g0, root, g, l) && RealEdge(g, f)
    requires Threaded(g0, root, Moved(g, f, c), l)
    requires b < |g| && Level(g0, b) < Level(g0, Pred(g, f))
    ensures Acyclic(g) && Acyclic(Moved(g, f, c))
    ensures Run(Moved(g, f, c), b, r, p) == Run(g, b, r, p)
    decreases Level(g0, b)
  {
    ThreadedValid(g0, root, g, l);
    ThreadedValid(g0, root, Moved(g, f, c), l);
    assert Settled(g0, root, l, b, g[b]);
    var m := RunStmts(g[b].stmts, r, p);
    if m.Some? && g[b].Br? {
      RunBelow(g0, root, g, l, f, c, if Taken(g[b].test, m.value) then g[b].jt else g[b].jf, m.value, p);
    }
  }

  /** Below the root only the shared atoms matter to what a run does. */
  lemma {:induction false} SharedDecides(g0: Graph, root: nat, g: Graph, l: nat, shared: set<nat>, b: nat, r: Regs,
          s: Regs, p: Packet)
    requires Acyclic(g0) && root < |g0| && Threaded(g0, root, g, l) && SelfContained(g0, root, shared)
    requires b < |g| && b != root && Reachable(g0, root, b) && Agree(r, s, shared)
    ensures Acyclic(g) && Run(g, b, r, p) == Run(g, b, s, p)
    decreases Level(g0, b)
  {
    ThreadedValid(g0, root, g, l);
    assert Settled(g0, root, l, b, g[b]);
    assert DeadStores.EndUses(g[b]) == DeadStores.EndUses(g0[b]) && g[b].stmts == g0[b].stmts;
    ContainedRuns(g0[b], shared, r, s, p);
    var x, y := RunStmts(g[b].stmts, r, p), RunStmts(g[b].stmts, s, p);
    if x.Some? {
      assert g[b].Ret? && g[b].rv.RetA? ==> A_ATOM in DeadStores.EndUses(g[b]);
      if g[b].Br? {
        assert A_ATOM in TestUses(g[b].test);
        assert Taken(g[b].test, x.value) == Taken(g[b].test, y.value);
        var c := if Taken(g[b].test, x.value) then g[b].jt else g[b].jf;
        NotAboveRoot(g0, root, b);
        SharedDecides(g0, root, g, l, shared, c, x.value, y.value, p);
      }
    }
  }

  /** On this packet every test on the way came out the way the edges go. */
  ghost predicate OutcomesAlong(t: Table, g0: Graph, ns: seq<Numbers>, es: seq<nat>, p: Packet)
    requires WellFormed(t) && |ns| == |g0|
  {
    forall k :: 0 <= k < |es| ==>
      RealEdge(g0, es[k]) && Outcome(t, g0, ns, Pred(g0, es[k]), p) == Some(Sense(g0, es[k]))
  }

  /** A run that goes through f and on through its successor's test must go on to c. */
  ghost predicate Forced(t: Table, g0: Graph, root: nat, g: Graph, ns: seq<Numbers>, f: nat, c: nat, p: Packet)
    requires WellFormed(t) && |ns| == |g0| == |g| && RealEdge(g, f) && Succ(g, f) < |g|
  {
    var child := g[Succ(g, f)];
    && child.Br? && g0[Succ(g, f)].Br?
    && forall es, o ::
         (TrailTo(g0, root, es, f) && OutcomesAlong(t, g0, ns, es, p) && Outcome(t, g0, ns, Succ(g, f), p) == Some(o))
         ==> c == (if o then child.jt else child.jf)
  }

  lemma SharedAgree(t: Table, ns: seq<Numbers>, root: nat, shared: set<nat>, r: Regs, s: Regs, p: Packet)
    requires WellFormed(t) && root < |ns| && SharedHolds(t, ns, root, shared, r, p)
    requires SharedHolds(t, ns, root, shared, s, p)
    ensures Agree(r, s, shared)
  {
  }

  /** At the moved edge: what the old graph does after the child is what the new one does at once. */
  lemma AtMovedEdge(t: Table, g0: Graph, root: nat, g: Graph, l: nat, ns: seq<Numbers>, shared: set<nat>,
                    f: nat, c: nat, es: seq<nat>, x: Regs, p: Packet)
    requires Acyclic(g0) && SelfContained(g0, root, shared) && Numbered(t, g0, root, ns, false)
    requires Threaded(g0, root, g, l) && RealEdge(g, f) && Threaded(g0, root, Moved(g, f, c), l)
    requires Reachable(g0, root, Pred(g, f)) && Valid(g) && Acyclic(g) && Acyclic(Moved(g, f, c)) && Succ(g, f) < |g|
    requires Forced(t, g0, root, g, ns, f, c, p) && TrailTo(g0, root, es, f) && OutcomesAlong(t, g0, ns, es, p)
    requires SharedHolds(t, ns, root, shared, x, p) && Run(g, Succ(g, f), x, p) != Fault
    ensures c < |g| && Run(Moved(g, f, c), c, x, p) == Run(g, Succ(g, f), x, p)
  {
    var d := Succ(g, f);
    ThreadedSuccessor(g0, root, g, l, f);
    NotAboveRoot(g0, root, Pred(g, f));
    assert Settled(g0, root, l, d, g[d]);
    var y := RunStmts(g[d].stmts, x, p).value;
    OutcomeIsTaken(t, g0, root, ns, shared, d, x, y, p);
    assert c == if Taken(g[d].test, y) then g[d].jt else g[d].jf;
    NotAboveRoot(g0, root, d);
    SharedAgree(t, ns, root, shared, x, y, p);
    SharedDecides(g0, root, g, l, shared, c, x, y, p);
    RunBelow(g0, root, g, l, f, c, c, x, p);
  }

  /** es leads from the root to block b. */
  ghost predicate Leads(g0: Graph, root: nat, es: seq<nat>, b: nat) {
    if es == [] then b == root else Trail(g0, root, es) && Succ(g0, es[|es| - 1]) == b
  }

  lemma LeadsOn(t: Table, g0: Graph, root: nat, ns: seq<Numbers>, es: seq<nat>, e: nat, p: Packet)
    requires WellFormed(t) && |ns| == |g0| && RealEdge(g0, e) && Leads(g0, root, es, Pred(g0, e))
    requires OutcomesAlong(t, g0, ns, es, p) && Outcome(t, g0, ns, Pred(g0, e), p) == Some(Sense(g0, e))
    ensures TrailTo(g0, root, es + [e], e) && OutcomesAlong(t, g0, ns, es + [e], p)
    ensures Leads(g0, root, es + [e], Succ(g0, e))
  {
    OutcomesOn(t, g0, ns, es, e, p);
    hide OutcomesAlong, Outcome, WellFormed;
  }

  lemma OutcomesOn(t: Table, g0: Graph, ns: seq<Numbers>, es: seq<nat>, e: nat, p: Packet)
    requires WellFormed(t) && |ns| == |g0| && RealEdge(g0, e) && OutcomesAlong(t, g0, ns, es, p)
    requires Outcome(t, g0, ns, Pred(g0, e), p) == Some(Sense(g0, e))
    ensures OutcomesAlong(t, g0, ns, es + [e], p)
  {
    hide Outcome, WellFormed;
  }

  /** One step of a run: the edge it takes, and the registers it takes there. */
  lemma Turn(t: Table, g0: Graph, root: nat, g: Graph, l: nat, ns: seq<Numbers>, shared: set<nat>,
             es: seq<nat>, b: nat, r: Regs, p: Packet) returns (e: nat, x: Regs)
    requires Acyclic(g0) && SelfContained(g0, root, shared) && Numbered(t, g0, root, ns, false)
    requires Threaded(g0, root, g, l) && Valid(g) && Acyclic(g)
    requires b < |g| && Reachable(g0, root, b) && Leads(g0, root, es, b) && OutcomesAlong(t, g0, ns, es, p)
    requires b == root || SharedHolds(t, ns, root, shared, r, p)
    requires g[b].Br? && Run(g, b, r, p) != Fault
    ensures RunStmts(g[b].stmts, r, p) == Some(x) && SharedHolds(t, ns, root, shared, x, p)
    ensures RealEdge(g, e) && Pred(g, e) == b && e == (if Taken(g[b].test, x) then b else |g| + b)
    ensures Run(g, b, r, p) == Run(g, Succ(g, e), x, p)
    ensures TrailTo(g0, root, es + [e], e) && OutcomesAlong(t, g0, ns, es + [e], p)
    ensures g[b] == g0[b] ==> Leads(g0, root, es + [e], Succ(g, e))
    ensures Reachable(g0, root, Succ(g, e)) && Succ(g, e) < |g0| && Level(g0, Succ(g, e)) < Level(g0, b)
    ensures Succ(g, e) != root
  {
    SameBranch(g0, root, g, l, b);
    x := NoFaultHere(g, b, r, p);
    e := if Taken(g[b].test, x) then b else |g| + b;
    RunFromBranch(g, b, e, r, x, p);
    var side := Taken(g[b].test, x);
    assert e == if side then b else |g0| + b;
    OutcomeIsTaken(t, g0, root, ns, shared, b, r, x, p);
    hide *;
    EdgeAt(g0, b, side, e);
    EdgeAt(g, b, side, e);
    LeadsOn(t, g0, root, ns, es, e, p);
    ThreadedSuccessor(g0, root, g, l, e);
    BelowRoot(g0, root, b, Succ(g, e));
  }

  lemma EdgeAt(g: Graph, b: nat, side: bool, e: nat)
    requires b < |g| && g[b].Br? && e == if side then b else |g| + b
    ensures RealEdge(g, e) && Pred(g, e) == b && Sense(g, e) == side
    ensures Succ(g, e) == if side then g[b].jt else g[b].jf
  {
  }

  lemma NoFaultHere(g: Graph, b: nat, r: Regs, p: Packet) returns (x: Regs)
    requires Acyclic(g) && b < |g| && Run(g, b, r, p) != Fault
    ensures RunStmts(g[b].stmts, r, p) == Some(x)
  {
    x := RunStmts(g[b].stmts, r, p).value;
  }

  lemma SameBranch(g0: Graph, root: nat, g: Graph, l: nat, b: nat)
    requires Acyclic(g0) && root < |g0| && Threaded(g0, root, g, l) && b < |g| && g[b].Br?
    ensures |g| == |g0| && g0[b].Br? && g0[b].stmts == g[b].stmts && g0[b].test == g[b].test
  {
    assert Settled(g0, root, l, b, g[b]);
  }

  lemma BelowRoot(g0: Graph, root: nat, b: nat, c: nat)
    requires Acyclic(g0) && root < |g0| && b < |g0| && Reachable(g0, root, b) && Below(g0, b, c)
    ensures c < |g0| && Level(g0, c) < Level(g0, b) && c != root
  {
    NotAboveRoot(g0, root, b);
  }

  lemma MovedElsewhere(g: Graph, f: nat, c: nat, e: nat)
    requires RealEdge(g, f) && RealEdge(g, e)
    ensures RealEdge(Moved(g, f, c), e)
    ensures Succ(Moved(g, f, c), e) == if e == f then c else Succ(g, e)
    ensures var b, b' := g[Pred(g, e)], Moved(g, f, c)[Pred(g, e)];
      b.Br? && b'.Br? && b'.stmts == b.stmts && b'.test == b.test
  {
  }

  /** Moving edge f to where its successor's test must go changes no run that does not fault. */
  lemma {:induction false} Walk(t: Table, g0: Graph, root: nat, g: Graph, ns: seq<Numbers>, shared: set<nat>,
                                f: nat, c: nat, es: seq<nat>, b: nat, r: Regs, p: Packet)
    requires Acyclic(g0) && SelfContained(g0, root, shared) && Numbered(t, g0, root, ns, false) && root < |g0|
    requires |g| == |g0| && Valid(g) && RealEdge(g, f) && Reachable(g0, root, Pred(g, f)) && Succ(g, f) < |g|
    requires Threaded(g0, root, g, Level(g0, Pred(g, f)) + 1)
    requires Threaded(g0, root, Moved(g, f, c), Level(g0, Pred(g, f)) + 1)
    requires Forced(t, g0, root, g, ns, f, c, p)
    requires b < |g| && Reachable(g0, root, b) && Leads(g0, root, es, b) && OutcomesAlong(t, g0, ns, es, p)
    requires b == root || SharedHolds(t, ns, root, shared, r, p)
    requires Acyclic(g) && Run(g, b, r, p) != Fault
    ensures Acyclic(Moved(g, f, c)) && Run(Moved(g, f, c), b, r, p) == Run(g, b, r, p)
    decreases Level(g0, b), 1
  {
    hide *;
    EdgeParts(g, f);
    var l, q, g' := Level(g0, Pred(g, f)) + 1, Pred(g, f), Moved(g, f, c);
    ThreadedValid(g0, root, g, l);
    ThreadedValid(g0, root, g', l);
    if Level(g0, b) < Level(g0, q) {
      RunBelow(g0, root, g, l, f, c, b, r, p);
    } else {
      BranchAbove(g0, root, g, l, b, f);
      var e, x := Turn(t, g0, root, g, l, ns, shared, es, b, r, p);
      MovedElsewhere(g, f, c, e);
      WalkOn(t, g0, root, g, ns, shared, f, c, es, b, e, x, p);
      RunFromBranch(g', b, e, r, x, p);
    }
  }

  /** After a turn, at the moved edge or elsewhere. */
  lemma {:induction false} WalkOn(t: Table, g0: Graph, root: nat, g: Graph, ns: seq<Numbers>, shared: set<nat>,
                                  f: nat, c: nat, es: seq<nat>, b: nat, e: nat, x: Regs, p: Packet)
    requires Acyclic(g0) && SelfContained(g0, root, shared) && Numbered(t, g0, root, ns, false) && root < |g0|
    requires |g| == |g0| && Valid(g) && RealEdge(g, f) && Reachable(g0, root, Pred(g, f)) && Succ(g, f) < |g|
    requires Pred(g, f) < |g0| && Threaded(g0, root, g, Level(g0, Pred(g, f)) + 1)
    requires Threaded(g0, root, Moved(g, f, c), Level(g0, Pred(g, f)) + 1)
    requires Forced(t, g0, root, g, ns, f, c, p)
    requires RealEdge(g, e) && Pred(g, e) == b && b < |g| && Succ(g, e) < |g| && Level(g0, Succ(g, e)) < Level(g0, b)
    requires OutcomesAlong(t, g0, ns, es + [e], p) && TrailTo(g0, root, es + [e], e)
    requires g[b] == g0[b] ==> Leads(g0, root, es + [e], Succ(g, e))
    requires Reachable(g0, root, Succ(g, e)) && SharedHolds(t, ns, root, shared, x, p)
    requires Acyclic(g) && Run(g, Succ(g, e), x, p) != Fault
    ensures Acyclic(Moved(g, f, c)) && (e == f ==> c < |g|)
    ensures Run(Moved(g, f, c), if e == f then c else Succ(g, e), x, p) == Run(g, Succ(g, e), x, p)
    decreases Level(g0, b), 0
  {
    hide *;
    var l := Level(g0, Pred(g, f)) + 1;
    ThreadedValid(g0, root, Moved(g, f, c), l);
    if e == f {
      AtMovedEdge(t, g0, root, g, l, ns, shared, f, c, es + [e], x, p);
    } else if Level(g0, Succ(g, e)) < Level(g0, Pred(g, f)) {
      RunBelow(g0, root, g, l, f, c, Succ(g, e), x, p);
    } else {
      StillOriginal(g0, root, g, l, b);
      Walk(t, g0, root, g, ns, shared, f, c, es + [e], Succ(g, e), x, p);
    }
  }

  /** A block not below a branch is a branch itself. */
  lemma BranchAbove(g0: Graph, root: nat, g: Graph, l: nat, b: nat, f: nat)
    requires Acyclic(g0) && root < |g0| && Threaded(g0, root, g, l) && b < |g| && RealEdge(g, f) && Pred(g, f) < |g0|
    requires Level(g0, b) >= Level(g0, Pred(g, f))
    ensures g[b].Br?
  {
    assert Settled(g0, root, l, Pred(g, f), g[Pred(g, f)]) && Settled(g0, root, l, b, g[b]);
  }

  lemma RunFromBranch(g: Graph, b: nat, e: nat, r: Regs, x: Regs, p: Packet)
    requires Acyclic(g) && b < |g| && g[b].Br? && RunStmts(g[b].stmts, r, p) == Some(x)
    requires e == if Taken(g[b].test, x) then b else |g| + b
    ensures Valid(g) && RealEdge(g, e) && Run(g, b, r, p) == Run(g, Succ(g, e), x, p)
  {
  }

  lemma StillOriginal(g0: Graph, root: nat, g: Graph, l: nat, b: nat)
    requires Acyclic(g0) && root < |g0| && Threaded(g0, root, g, l) && b < |g|
    ensures Level(g0, b) >= l ==> g[b] == g0[b]
  {
    assert Settled(g0, root, l, b, g[b]);
  }

  // ----- what fold_edge and equal branches force -----

  /** Two tests with the same code and the same number in A: what the outcome of one says of the other. */
  lemma SameTest(t: Table, g0: Graph, ns: seq<Numbers>, d: nat, q: nat, p: Packet, sense: bool, o: bool)
    requires WellFormed(t) && |ns| == |g0| && d < |g0| && q < |g0| && g0[d].Br? && g0[q].Br?
    requires SameCode(g0[d].test, g0[q].test) && ns[d].val[A_ATOM] == ns[q].val[A_ATOM]
    requires Outcome(t, g0, ns, q, p) == Some(sense) && Outcome(t, g0, ns, d, p) == Some(o)
    ensures ns[d].oval == ns[q].oval ==> o == sense
    ensures (NumberedBlock(t, g0[d], ns[d], false) && NumberedBlock(t, g0[q], ns[q], false) && ns[d].oval != ns[q].oval
             && sense && g0[d].test.JmpK? && g0[d].test.op.JEQ?) ==> !o
  {
    if NumberedBlock(t, g0[d], ns[d], false) && NumberedBlock(t, g0[q], ns[q], false)
       && ns[d].oval != ns[q].oval && g0[d].test.JmpK? {
      ConstantOperand(t, g0[d], ns[d]);
      ConstantOperand(t, g0[q], ns[q]);
      ConstDen(t, ns[d].oval, p);
      ConstDen(t, ns[q].oval, p);
      if ConstOf(t, ns[d].oval) == ConstOf(t, ns[q].oval) {
        ConstantsDistinct(t, ns[d].oval, ns[q].oval);
      }
    }
  }

  /** fold_edge names the side the child's test comes out on, when edge e's test has come out as e says. */
  lemma FoldAnswer(t: Table, g0: Graph, g: Graph, ns: seq<Numbers>, d: nat, e: nat, c: nat, p: Packet, o: bool)
    requires WellFormed(t) && |ns| == |g0| == |g| && Valid(g) && RealEdge(g, e) && d < |g|
    requires SameBlock(g0[d], g[d]) && SameBlock(g0[Pred(g, e)], g[Pred(g, e)]) && FoldEdge(g, ns, d, e) == Some(c)
    requires NumberedBlock(t, g0[d], ns[d], false) && NumberedBlock(t, g0[Pred(g, e)], ns[Pred(g, e)], false)
    requires g0[Pred(g, e)].Br? && Outcome(t, g0, ns, Pred(g, e), p) == Some(Sense(g, e))
    requires g0[d].Br? && Outcome(t, g0, ns, d, p) == Some(o)
    ensures c == if o then g[d].jt else g[d].jf
  {
    hide NumberedBlock;
    SameTest(t, g0, ns, d, Pred(g, e), p, Sense(g, e), o);
  }

  /** fold_edge is right: the dominating edge has decided the child's test. */
  lemma FoldForces(t: Table, g0: Graph, root: nat, g: Graph, l: nat, ns: seq<Numbers>, shared: set<nat>, f: nat,
          e: nat, c: nat, p: Packet)
    requires Acyclic(g0) && SelfContained(g0, root, shared) && Numbered(t, g0, root, ns, false)
    requires Threaded(g0, root, g, l) && Valid(g) && RealEdge(g, f) && Reachable(g0, root, Pred(g, f))
    requires RealEdge(g, e) && Reachable(g0, root, Pred(g, e)) && EdgeDominates(g0, root, e, f)
    requires Succ(g, f) < |g| && FoldEdge(g, ns, Succ(g, f), e) == Some(c)
    ensures Forced(t, g0, root, g, ns, f, c, p)
  {
    var d := Succ(g, f);
    FoldTarget(g, ns, d, e);
    SameBranch(g0, root, g, l, d);
    forall es, o | TrailTo(g0, root, es, f) && OutcomesAlong(t, g0, ns, es, p) && Outcome(t, g0, ns, d, p) == Some(o)
      ensures c == (if o then g[d].jt else g[d].jf)
    {
      FoldForcesOn(t, g0, root, g, l, ns, shared, f, e, c, es, p, o);
    }
    hide Threaded, Numbered, SelfContained, FoldEdge, OutcomesAlong;
  }

  lemma FoldForcesOn(t: Table, g0: Graph, root: nat, g: Graph, l: nat, ns: seq<Numbers>, shared: set<nat>,
                     f: nat, e: nat, c: nat, es: seq<nat>, p: Packet, o: bool)
    requires Acyclic(g0) && SelfContained(g0, root, shared) && Numbered(t, g0, root, ns, false) && |g| == |g0| == |ns|
    requires root < |g0| && WellFormed(t)
    requires Threaded(g0, root, g, l) && Valid(g) && RealEdge(g, f) && Reachable(g0, root, Pred(g, f))
    requires RealEdge(g, e) && Reachable(g0, root, Pred(g, e)) && EdgeDominates(g0, root, e, f)
    requires Succ(g, f) < |g| && FoldEdge(g, ns, Succ(g, f), e) == Some(c) && g0[Succ(g, f)].Br?
    requires TrailTo(g0, root, es, f) && OutcomesAlong(t, g0, ns, es, p) && Outcome(t, g0, ns, Succ(g, f), p) == Some(o)
    ensures g[Succ(g, f)].Br? && c == if o then g[Succ(g, f)].jt else g[Succ(g, f)].jf
  {
    hide *;
    var d := Succ(g, f);
    EdgeParts(g, e);
    FoldTarget(g, ns, d, e);
    ThreadedSuccessor(g0, root, g, l, f);
    SameEnds(g0, root, g, l, d);
    SameEnds(g0, root, g, l, Pred(g, e));
    HasNumbers(t, g0, root, ns, d);
    HasNumbers(t, g0, root, ns, Pred(g, e));
    DominatorOutcome(t, g0, root, ns, es, e, f, p);
    SameEdge(g0, g, e);
    FoldAnswer(t, g0, g, ns, d, e, c, p, o);
  }

  lemma SameEnds(g0: Graph, root: nat, g: Graph, l: nat, b: nat)
    requires Acyclic(g0) && root < |g0| && Threaded(g0, root, g, l) && b < |g0|
    ensures |g| == |g0| && SameBlock(g0[b], g[b])
  {
    assert Settled(g0, root, l, b, g[b]);
  }

  lemma HasNumbers(t: Table, g0: Graph, root: nat, ns: seq<Numbers>, b: nat)
    requires Numbered(t, g0, root, ns, false) && b < |g0| && Reachable(g0, root, b)
    ensures |ns| == |g0| && NumberedBlock(t, g0[b], ns[b], false)
  {
  }

  lemma SameEdge(g0: Graph, g: Graph, e: nat)
    requires |g| == |g0| && RealEdge(g, e) && RealEdge(g0, e)
    ensures Pred(g, e) == Pred(g0, e) && Pred(g, e) < |g| && Sense(g, e) == Sense(g0, e)
    ensures g0[Pred(g, e)].Br?
  {
  }

  lemma DominatorOutcome(t: Table, g0: Graph, root: nat, ns: seq<Numbers>, es: seq<nat>, e: nat, f: nat, p: Packet)
    requires WellFormed(t) && |ns| == |g0| && EdgeDominates(g0, root, e, f)
    requires TrailTo(g0, root, es, f) && OutcomesAlong(t, g0, ns, es, p)
    ensures RealEdge(g0, e) && Outcome(t, g0, ns, Pred(g0, e), p) == Some(Sense(g0, e))
  {
    var k :| 0 <= k < |es| && es[k] == e;
  }

  lemma CommonForces(t: Table, g0: Graph, root: nat, g: Graph, l: nat, ns: seq<Numbers>, f: nat, p: Packet)
    requires Acyclic(g0) && root < |g0| && Numbered(t, g0, root, ns, false) && Threaded(g0, root, g, l)
    requires RealEdge(g, f)
    requires Reachable(g0, root, Pred(g, f)) && Succ(g, f) < |g|
    requires g[Succ(g, f)].Br? && g[Succ(g, f)].jt == g[Succ(g, f)].jf
    ensures Forced(t, g0, root, g, ns, f, g[Succ(g, f)].jt, p)
  {
    assert Settled(g0, root, l, Succ(g, f), g[Succ(g, f)]);
  }

  lemma MoveKeepsVerdicts(t: Table, g0: Graph, root: nat, g: Graph, ns: seq<Numbers>, shared: set<nat>, f: nat, c: nat)
    requires Acyclic(g0) && SelfContained(g0, root, shared) && Numbered(t, g0, root, ns, false) && root < |g0|
    requires |g| == |g0| && Valid(g) && RealEdge(g, f) && Reachable(g0, root, Pred(g, f)) && Succ(g, f) < |g|
    requires Threaded(g0, root, g, Level(g0, Pred(g, f)) + 1)
    requires forall p :: Forced(t, g0, root, g, ns, f, c, p)
    requires c == g[Succ(g, f)].jt || c == g[Succ(g, f)].jf
    ensures Threaded(g0, root, Moved(g, f, c), Level(g0, Pred(g, f)) + 1)
    ensures Acyclic(g) && Acyclic(Moved(g, f, c)) && SameVerdicts(g, Moved(g, f, c), root)
    ensures Below(g0, Succ(g, f), c)
  {
    hide *;
    EdgeParts(g, f);
    NumberedParts(t, g0, root, ns);
    assert Forced(t, g0, root, g, ns, f, c, Packet([], 0));
    ForcedBranch(t, g0, root, g, ns, f, c, Packet([], 0));
    var l := Level(g0, Pred(g, f)) + 1;
    MoveTarget(g0, root, g, f, c);
    ThreadedValid(g0, root, g, l);
    ThreadedValid(g0, root, Moved(g, f, c), l);
    ReachableSelf(g0, root);
    forall r, p | Run(g, root, r, p) != Fault ensures Run(Moved(g, f, c), root, r, p) == Run(g, root, r, p) {
      assert Forced(t, g0, root, g, ns, f, c, p);
      AtStart(t, g0, root, ns, p);
      Walk(t, g0, root, g, ns, shared, f, c, [], root, r, p);
    }
    AllVerdicts(g, Moved(g, f, c), root);
  }

  lemma NumberedParts(t: Table, g: Graph, root: nat, ns: seq<Numbers>)
    requires Numbered(t, g, root, ns, false)
    ensures WellFormed(t) && |ns| == |g|
  {
  }

  lemma ForcedBranch(t: Table, g0: Graph, root: nat, g: Graph, ns: seq<Numbers>, f: nat, c: nat, p: Packet)
    requires WellFormed(t) && |ns| == |g0| == |g| && RealEdge(g, f) && Succ(g, f) < |g|
    requires Forced(t, g0, root, g, ns, f, c, p)
    ensures g[Succ(g, f)].Br?
  {
  }

  lemma AtStart(t: Table, g0: Graph, root: nat, ns: seq<Numbers>, p: Packet)
    requires Numbered(t, g0, root, ns, false)
    ensures Leads(g0, root, [], root) && OutcomesAlong(t, g0, ns, [], p)
  {
  }

  lemma AllVerdicts(g: Graph, g': Graph, root: nat)
    requires Acyclic(g) && Acyclic(g') && root < |g| && root < |g'|
    requires forall r, p :: Run(g, root, r, p) != Fault ==> Run(g', root, r, p) == Run(g, root, r, p)
    ensures SameVerdicts(g, g', root)
  {
  }

  /** Where fold_edge moves an edge to is further down, so the shape is kept. */
  lemma MoveTarget(g0: Graph, root: nat, g: Graph, f: nat, c: nat)
    requires Acyclic(g0) && root < |g0| && |g| == |g0| && Valid(g) && RealEdge(g, f) && Succ(g, f) < |g|
    requires Reachable(g0, root, Pred(g, f)) && Threaded(g0, root, g, Level(g0, Pred(g, f)) + 1)
    requires g[Succ(g, f)].Br? && (c == g[Succ(g, f)].jt || c == g[Succ(g, f)].jf)
    ensures Threaded(g0, root, Moved(g, f, c), Level(g0, Pred(g, f)) + 1) && Below(g0, Succ(g, f), c)
  {
    var l := Level(g0, Pred(g, f)) + 1;
    ThreadedSuccessor(g0, root, g, l, f);
    var d := Succ(g, f);
    assert Settled(g0, root, l, d, g[d]);
    ReachableBelow(g0, d);
    MovedThreaded(g0, root, g, l, f, c);
  }

  // ----- the pass -----

  lemma {:induction false} PathHasTrail(g: Graph, root: nat, path: seq<nat>, f: nat) returns (es: seq<nat>)
    requires Valid(g) && IsPath(g, path) && path[0] == root && RealEdge(g, f) && Pred(g, f) == path[|path| - 1]
    ensures TrailTo(g, root, es, f)
    decreases |path|
  {
    if |path| == 1 {
      es := [f];
    } else {
      var n := |path| - 1;
      assert Edge(g, path[n - 1], path[n]);
      var e := if g[path[n - 1]].jt == path[n] then path[n - 1] else |g| + path[n - 1];
      var before := PathHasTrail(g, root, path[..n], e);
      es := before + [f];
    }
  }

  /** What dominates an edge of a reachable block is itself an edge of a reachable block. */
  lemma DominatorReal(g: Graph, root: nat, e: nat, f: nat)
    requires Valid(g) && root < |g| && RealEdge(g, f) && Reachable(g, root, Pred(g, f)) && EdgeDominates(g, root, e, f)
    ensures RealEdge(g, e) && Reachable(g, root, Pred(g, e))
  {
    var path :| PathTo(g, root, Pred(g, f), path);
    var es := PathHasTrail(g, root, path, f);
    var k :| 0 <= k < |es| && es[k] == e;
    TrailReaches(g, root, es[..k + 1]);
  }

  /** What the pass is run with: the analyses of the graph it starts from. */
  ghost predicate Analysed(t: Table, g0: Graph, root: nat, ns: seq<Numbers>, shared: set<nat>,
                           edom: seq<set<nat>>, outUse: seq<set<nat>>) {
    && Acyclic(g0) && SelfContained(g0, root, shared) && Numbered(t, g0, root, ns, false)
    && EdomExact(g0, root, edom) && |outUse| == |g0|
  }

  /** g is what jump threading has made of g0 before the edges of level l - 1 are finished. */
  ghost predicate Progress(g0: Graph, root: nat, g: Graph, l: nat) {
    Acyclic(g0) && root < |g0| && Threaded(g0, root, g, l) && Acyclic(g) && |g| == |g0| && SameVerdicts(g0, g, root)
  }

  lemma ProgressStart(g0: Graph, root: nat, l: nat)
    requires Acyclic(g0) && root < |g0|
    ensures Progress(g0, root, g0, l)
  {
    ThreadedStart(g0, root, l);
  }

  lemma ProgressUp(g0: Graph, root: nat, g: Graph, l: nat)
    requires Progress(g0, root, g, l)
    ensures Progress(g0, root, g, l + 1)
  {
    forall b: nat | b < |g| ensures Settled(g0, root, l + 1, b, g[b]) {
      assert Settled(g0, root, l, b, g[b]);
    }
  }

  /** The edges still to be looked at, as they are. */
  lemma EdgeNow(g0: Graph, root: nat, g: Graph, l: nat, f: nat)
    requires Progress(g0, root, g, l) && RealEdge(g0, f) && Reachable(g0, root, Pred(g0, f))
    ensures Valid(g) && |g| == |g0| && RealEdge(g, f) && Pred(g, f) == Pred(g0, f) && Pred(g, f) < |g|
    ensures Succ(g, f) < |g| && Reachable(g0, root, Succ(g, f)) && Level(g0, Succ(g, f)) < Level(g0, Pred(g, f))
  {
    ThreadedValid(g0, root, g, l);
    assert Settled(g0, root, l, Pred(g0, f), g[Pred(g0, f)]);
    ThreadedSuccessor(g0, root, g, l, f);
  }

  lemma VerdictsChain(g0: Graph, g: Graph, g': Graph, root: nat)
    requires Acyclic(g0) && Acyclic(g) && Acyclic(g') && root < |g0| && root < |g| && root < |g'|
    requires SameVerdicts(g0, g, root) && SameVerdicts(g, g', root)
    ensures SameVerdicts(g0, g', root)
  {
  }

  /** The situation when opt_j is about to look at edge f again. */
  ghost predicate AtEdge(t: Table, g0: Graph, root: nat, ns: seq<Numbers>, shared: set<nat>,
                         edom: seq<set<nat>>, outUse: seq<set<nat>>, g: Graph, f: nat) {
    && Analysed(t, g0, root, ns, shared, edom, outUse)
    && RealEdge(g0, f) && Reachable(g0, root, Pred(g0, f))
    && Progress(g0, root, g, Level(g0, Pred(g0, f)) + 1)
  }

  ghost function Depth(g0: Graph, b: nat): nat {
    if Acyclic(g0) && b < |g0| then Level(g0, b) else 0
  }

  lemma AtEdgeFacts(t: Table, g0: Graph, root: nat, ns: seq<Numbers>, shared: set<nat>,
                    edom: seq<set<nat>>, outUse: seq<set<nat>>, g: Graph, f: nat)
    requires AtEdge(t, g0, root, ns, shared, edom, outUse, g, f)
    ensures Valid(g) && |g| == |g0| == |ns| == |outUse| && |edom| == 2 * |g|
    ensures RealEdge(g, f) && f < |edom| && Pred(g, f) < |g| && Succ(g, f) < |g|
    ensures Acyclic(g) && Succ(g, f) != Pred(g, f)
  {
    EdgeNow(g0, root, g, Level(g0, Pred(g0, f)) + 1, f);
  }

  lemma AtEdgeMoved(t: Table, g0: Graph, root: nat, ns: seq<Numbers>, shared: set<nat>,
                    edom: seq<set<nat>>, outUse: seq<set<nat>>, g: Graph, f: nat, c: nat)
    requires AtEdge(t, g0, root, ns, shared, edom, outUse, g, f)
    requires Valid(g) && |g| == |g0| == |ns| && WellFormed(t) && RealEdge(g, f) && Succ(g, f) < |g| && g[Succ(g, f)].Br?
    requires c == g[Succ(g, f)].jt || c == g[Succ(g, f)].jf
    requires forall p :: Forced(t, g0, root, g, ns, f, c, p)
    ensures AtEdge(t, g0, root, ns, shared, edom, outUse, Moved(g, f, c), f)
    ensures Depth(g0, c) < Depth(g0, Succ(g, f))
  {
    hide *;
    AtEdgeParts(t, g0, root, ns, shared, edom, outUse, g, f);
    DepthFalls(g0, Succ(g, f), c);
    MoveKeepsVerdicts(t, g0, root, g, ns, shared, f, c);
    VerdictsChain(g0, g, Moved(g, f, c), root);
    AtEdgeAgain(t, g0, root, ns, shared, edom, outUse, g, Moved(g, f, c), f);
  }

  lemma AtEdgeParts(t: Table, g0: Graph, root: nat, ns: seq<Numbers>, shared: set<nat>,
                    edom: seq<set<nat>>, outUse: seq<set<nat>>, g: Graph, f: nat)
    requires AtEdge(t, g0, root, ns, shared, edom, outUse, g, f)
    ensures Acyclic(g0) && SelfContained(g0, root, shared) && Numbered(t, g0, root, ns, false) && root < |g0|
    ensures RealEdge(g0, f) && Reachable(g0, root, Pred(g0, f)) && Pred(g0, f) == Pred(g, f)
    ensures Acyclic(g) && |g| == |g0| && SameVerdicts(g0, g, root) && Pred(g, f) < |g0|
    ensures Threaded(g0, root, g, Level(g0, Pred(g, f)) + 1)
  {
    EdgeNow(g0, root, g, Level(g0, Pred(g0, f)) + 1, f);
  }

  lemma AtEdgeAgain(t: Table, g0: Graph, root: nat, ns: seq<Numbers>, shared: set<nat>,
                    edom: seq<set<nat>>, outUse: seq<set<nat>>, g: Graph, g': Graph, f: nat)
    requires AtEdge(t, g0, root, ns, shared, edom, outUse, g, f) && |g'| == |g|
    requires Acyclic(g0) && root < |g0| && Acyclic(g') && |g'| == |g0| && SameVerdicts(g0, g', root)
    requires RealEdge(g0, f) && Threaded(g0, root, g', Level(g0, Pred(g0, f)) + 1)
    ensures AtEdge(t, g0, root, ns, shared, edom, outUse, g', f)
  {
  }

  lemma DepthFalls(g0: Graph, b: nat, c: nat)
    requires Acyclic(g0) && b < |g0|
    ensures Below(g0, b, c) ==> Depth(g0, c) < Depth(g0, b)
  {
  }

  lemma AtEdgeFold(t: Table, g0: Graph, root: nat, ns: seq<Numbers>, shared: set<nat>,
                   edom: seq<set<nat>>, outUse: seq<set<nat>>, g: Graph, f: nat, e: nat)
    requires AtEdge(t, g0, root, ns, shared, edom, outUse, g, f)
    requires f < |edom| && e in edom[f]
    ensures Valid(g) && |g| == |g0| == |ns| && RealEdge(g, f) && Succ(g, f) < |g| && RealEdge(g, e)
    ensures var c := FoldEdge(g, ns, Succ(g, f), e); c.Some? ==>
      && AtEdge(t, g0, root, ns, shared, edom, outUse, Moved(g, f, c.value), f)
      && c.value < |g| && Depth(g0, c.value) < Depth(g0, Succ(g, f))
  {
    var l := Level(g0, Pred(g0, f)) + 1;
    AtEdgeFacts(t, g0, root, ns, shared, edom, outUse, g, f);
    DominatorNow(g0, root, edom, g, l, f, e);
    var c := FoldEdge(g, ns, Succ(g, f), e);
    if c.Some? {
      forall p ensures Forced(t, g0, root, g, ns, f, c.value, p) {
        EdgeNow(g0, root, g, l, f);
        FoldForces(t, g0, root, g, l, ns, shared, f, e, c.value, p);
      }
      hide *;
      FoldTarget(g, ns, Succ(g, f), e);
      AtEdgeMoved(t, g0, root, ns, shared, edom, outUse, g, f, c.value);
    }
  }

  lemma DominatorNow(g0: Graph, root: nat, edom: seq<set<nat>>, g: Graph, l: nat, f: nat, e: nat)
    requires Acyclic(g0) && root < |g0| && EdomExact(g0, root, edom) && Progress(g0, root, g, l)
    requires RealEdge(g0, f) && Reachable(g0, root, Pred(g0, f)) && f < |edom| && e in edom[f]
    ensures EdgeDominates(g0, root, e, f) && RealEdge(g0, e) && Reachable(g0, root, Pred(g0, e))
    ensures RealEdge(g, e) && Pred(g, e) == Pred(g0, e)
  {
    assert Valid(g0) by { assert Ranked(g0, RankOf(g0)); }
    DominatorReal(g0, root, e, f);
    EdgeNow(g0, root, g, l, e);
  }

  lemma FoldTarget(g: Graph, ns: seq<Numbers>, child: nat, e: nat)
    requires Valid(g) && |ns| == |g| && child < |g| && RealEdge(g, e)
    ensures var c := FoldEdge(g, ns, child, e);
      c.Some? ==> g[child].Br? && c.value < |g| && (c.value == g[child].jt || c.value == g[child].jf)
  {
  }

  lemma AtEdgeCommon(t: Table, g0: Graph, root: nat, ns: seq<Numbers>, shared: set<nat>,
                     edom: seq<set<nat>>, outUse: seq<set<nat>>, g: Graph, f: nat)
    requires AtEdge(t, g0, root, ns, shared, edom, outUse, g, f)
    requires RealEdge(g, f) && Succ(g, f) < |g| && g[Succ(g, f)].Br? && g[Succ(g, f)].jt == g[Succ(g, f)].jf
    ensures AtEdge(t, g0, root, ns, shared, edom, outUse, Moved(g, f, g[Succ(g, f)].jt), f)
    ensures g[Succ(g, f)].jt < |g| && Depth(g0, g[Succ(g, f)].jt) < Depth(g0, Succ(g, f))
  {
    var l := Level(g0, Pred(g0, f)) + 1;
    AtEdgeFacts(t, g0, root, ns, shared, edom, outUse, g, f);
    EdgeNow(g0, root, g, l, f);
    forall p ensures Forced(t, g0, root, g, ns, f, g[Succ(g, f)].jt, p) {
      CommonForces(t, g0, root, g, l, ns, f, p);
    }
    AtEdgeMoved(t, g0, root, ns, shared, edom, outUse, g, f, g[Succ(g, f)].jt);
  }

  /** opt_j has nothing left to do at edge f: a leaf is reached, or every fold is in conflict. */
  ghost predicate Exhausted(g: Graph, ns: seq<Numbers>, edom: seq<set<nat>>, outUse: seq<set<nat>>, f: nat) {
    && Valid(g) && |ns| == |outUse| == |g| && RealEdge(g, f) && Succ(g, f) < |g| && f < |edom|
    && (g[Succ(g, f)].Ret? || forall e :: e in edom[f] ==> Blocked(g, ns, outUse, f, e))
  }

  ghost predicate Blocked(g: Graph, ns: seq<Numbers>, outUse: seq<set<nat>>, f: nat, e: nat)
    requires Valid(g) && |ns| == |outUse| == |g| && RealEdge(g, f) && Succ(g, f) < |g|
  {
    RealEdge(g, e) ==>
      var c := FoldEdge(g, ns, Succ(g, f), e);
      c.None? || (c.value < |g| && Pred(g, f) < |g| && Conflict(ns, outUse, Pred(g, f), c.value))
  }

  lemma BlockedBy(g: Graph, ns: seq<Numbers>, outUse: seq<set<nat>>, f: nat, e: nat)
    requires Valid(g) && |ns| == |outUse| == |g| && RealEdge(g, f) && Succ(g, f) < |g| && RealEdge(g, e)
    requires var c := FoldEdge(g, ns, Succ(g, f), e);
      c.None? || (c.value < |g| && Pred(g, f) < |g| && Conflict(ns, outUse, Pred(g, f), c.value))
    ensures Blocked(g, ns, outUse, f, e)
  {
  }

  lemma Blockade(g: Graph, ns: seq<Numbers>, edom: seq<set<nat>>, outUse: seq<set<nat>>, f: nat, n: nat)
    requires Valid(g) && |ns| == |outUse| == |g| && RealEdge(g, f) && Succ(g, f) < |g| && f < |edom|
    requires g[Succ(g, f)].Ret? || (n >= 2 * |g| && forall e :: e in edom[f] && e < n ==> Blocked(g, ns, outUse, f, e))
    ensures Exhausted(g, ns, edom, outUse, f)
  {
  }

  /** Only the target of edge f differs. */
  ghost predicate OnlyEdge(g: Graph, g': Graph, f: nat) {
    && |g'| == |g|
    && (forall b: nat :: b < |g| ==> SameBlock(g[b], g'[b]))
    && (forall b: nat :: b < |g| && g[b].Br? ==>
          (b != f ==> g'[b].jt == g[b].jt) && (|g| + b != f ==> g'[b].jf == g[b].jf))
  }

  lemma OnlyEdgeMoved(g0: Graph, g: Graph, f: nat, c: nat)
    requires OnlyEdge(g0, g, f) && RealEdge(g, f)
    ensures OnlyEdge(g0, Moved(g, f, c), f)
  {
  }

  lemma OnlyEdgeSelf(g: Graph, f: nat)
    ensures OnlyEdge(g, g, f)
  {
  }

  lemma EnterLevel(t: Table, g0: Graph, root: nat, ns: seq<Numbers>, shared: set<nat>,
                   edom: seq<set<nat>>, outUse: seq<set<nat>>, g: Graph, levels: seq<seq<nat>>, i: nat, k: nat)
    requires Analysed(t, g0, root, ns, shared, edom, outUse) && root < |g0| && Leveled(g0, root, levels)
    requires 0 < i < |levels| && k < |levels[i]| && Progress(g0, root, g, i + 1)
    ensures AtEdge(t, g0, root, ns, shared, edom, outUse, g, levels[i][k])
    ensures AtEdge(t, g0, root, ns, shared, edom, outUse, g, |g0| + levels[i][k])
    ensures |g| == |g0| && g0[levels[i][k]].Br?
  {
    LeveledAt(g0, root, levels, i, k);
  }

  lemma LeaveEdge(t: Table, g0: Graph, root: nat, ns: seq<Numbers>, shared: set<nat>,
                  edom: seq<set<nat>>, outUse: seq<set<nat>>, g: Graph, levels: seq<seq<nat>>, i: nat, k: nat, f: nat)
    requires AtEdge(t, g0, root, ns, shared, edom, outUse, g, f) && root < |g0| && Leveled(g0, root, levels)
    requires i < |levels| && k < |levels[i]| && (f == levels[i][k] || f == |g0| + levels[i][k])
    ensures Progress(g0, root, g, i + 1) && Valid(g) && |g| == |g0|
  {
    LeveledAt(g0, root, levels, i, k);
    assert Pred(g0, f) == levels[i][k];
    ThreadedValid(g0, root, g, i + 1);
  }

  // ----- what has been looked at stays finished -----

  /** Moving another edge, not one of the successor's, leaves nothing more to do at edge f. */
  lemma ExhaustedKept(g: Graph, g': Graph, ns: seq<Numbers>, edom: seq<set<nat>>, outUse: seq<set<nat>>, f: nat,
          f': nat)
    requires Exhausted(g, ns, edom, outUse, f) && OnlyEdge(g, g', f') && Valid(g') && f' < 2 * |g|
    requires f != f' && Succ(g, f) != Pred(g, f')
    ensures Exhausted(g', ns, edom, outUse, f)
  {
    var d := Succ(g, f);
    assert SameBlock(g[Pred(g, f)], g'[Pred(g, f)]) && SameBlock(g[d], g'[d]);
    assert RealEdge(g', f) && Succ(g', f) == d;
    assert g'[d] == g[d];
    if g[d].Br? {
      forall e | e in edom[f] ensures Blocked(g', ns, outUse, f, e) {
        BlockedKept(g, g', ns, outUse, f, f', e);
      }
    }
  }

  lemma BlockedKept(g: Graph, g': Graph, ns: seq<Numbers>, outUse: seq<set<nat>>, f: nat, f': nat, e: nat)
    requires Valid(g) && Valid(g') && |ns| == |outUse| == |g| && RealEdge(g, f) && Succ(g, f) < |g|
    requires OnlyEdge(g, g', f') && RealEdge(g', f) && Succ(g', f) == Succ(g, f) && g'[Succ(g, f)] == g[Succ(g, f)]
    requires Blocked(g, ns, outUse, f, e)
    ensures Blocked(g', ns, outUse, f, e)
  {
    if RealEdge(g', e) {
      assert SameBlock(g[Pred(g, e)], g'[Pred(g, e)]);
    }
  }

  /** The branches the pass has been over when it is about to look at levels[i][k]. */
  ghost predicate Looked(g0: Graph, root: nat, levels: seq<seq<nat>>, i: nat, k: nat, b: nat)
    requires Acyclic(g0)
  {
    && b < |g0| && g0[b].Br? && Reachable(g0, root, b)
    && (Level(g0, b) < i || (i < |levels| && k <= |levels[i]| && b in levels[i][..k]))
  }

  ghost predicate Finished(g0: Graph, root: nat, levels: seq<seq<nat>>, i: nat, k: nat, g: Graph,
                           ns: seq<Numbers>, edom: seq<set<nat>>, outUse: seq<set<nat>>)
    requires Acyclic(g0)
  {
    forall b: nat :: Looked(g0, root, levels, i, k, b) ==>
      Exhausted(g, ns, edom, outUse, b) && Exhausted(g, ns, edom, outUse, |g0| + b)
  }

  lemma FinishedStart(g0: Graph, root: nat, levels: seq<seq<nat>>, g: Graph,
                      ns: seq<Numbers>, edom: seq<set<nat>>, outUse: seq<set<nat>>)
    requires Acyclic(g0)
    ensures Finished(g0, root, levels, 1, 0, g, ns, edom, outUse)
  {
    forall b: nat ensures !Looked(g0, root, levels, 1, 0, b) {
    }
  }

  lemma FinishedUp(g0: Graph, root: nat, levels: seq<seq<nat>>, i: nat, g: Graph,
                   ns: seq<Numbers>, edom: seq<set<nat>>, outUse: seq<set<nat>>)
    requires Acyclic(g0) && root < |g0| && Leveled(g0, root, levels) && i < |levels|
    requires Finished(g0, root, levels, i, |levels[i]|, g, ns, edom, outUse)
    ensures Finished(g0, root, levels, i + 1, 0, g, ns, edom, outUse)
  {
    assert levels[i][..|levels[i]|] == levels[i];
    hide Exhausted;
    var next := i + 1;
    forall b: nat | Looked(g0, root, levels, next, 0, b)
      ensures Exhausted(g, ns, edom, outUse, b) && Exhausted(g, ns, edom, outUse, |g0| + b)
    {
      assert b in levels[Level(g0, b)];
      assert Looked(g0, root, levels, i, |levels[i]|, b);
    }
  }

  lemma FinishedKept(g0: Graph, root: nat, levels: seq<seq<nat>>, i: nat, k: nat, g: Graph, g': Graph,
                     ns: seq<Numbers>, edom: seq<set<nat>>, outUse: seq<set<nat>>, f: nat)
    requires Acyclic(g0) && root < |g0| && Leveled(g0, root, levels) && i < |levels| && k < |levels[i]|
    requires Progress(g0, root, g, i + 1) && Finished(g0, root, levels, i, k, g, ns, edom, outUse)
    requires (f == levels[i][k] || f == |g0| + levels[i][k]) && |g| == |g0| && OnlyEdge(g, g', f) && Valid(g')
    ensures Finished(g0, root, levels, i, k, g', ns, edom, outUse)
  {
    hide *;
    LeveledAt(g0, root, levels, i, k);
    forall b: nat | Looked(g0, root, levels, i, k, b)
      ensures Exhausted(g', ns, edom, outUse, b) && Exhausted(g', ns, edom, outUse, |g0| + b)
    {
      LookedBelow(g0, root, levels, i, k, b);
      FinishedAt(g0, root, levels, i, k, g, ns, edom, outUse, b);
      EdgeKept(g0, root, i, g, g', ns, edom, outUse, b, b, f, levels[i][k]);
      EdgeKept(g0, root, i, g, g', ns, edom, outUse, b, |g0| + b, f, levels[i][k]);
    }
    FinishedIs(g0, root, levels, i, k, g', ns, edom, outUse);
  }

  lemma FinishedAt(g0: Graph, root: nat, levels: seq<seq<nat>>, i: nat, k: nat, g: Graph,
                   ns: seq<Numbers>, edom: seq<set<nat>>, outUse: seq<set<nat>>, b: nat)
    requires Acyclic(g0) && Finished(g0, root, levels, i, k, g, ns, edom, outUse) && Looked(g0, root, levels, i, k, b)
    ensures Exhausted(g, ns, edom, outUse, b) && Exhausted(g, ns, edom, outUse, |g0| + b)
  {
  }

  lemma FinishedIs(g0: Graph, root: nat, levels: seq<seq<nat>>, i: nat, k: nat, g: Graph,
                   ns: seq<Numbers>, edom: seq<set<nat>>, outUse: seq<set<nat>>)
    requires Acyclic(g0)
    requires forall b: nat :: Looked(g0, root, levels, i, k, b) ==>
      Exhausted(g, ns, edom, outUse, b) && Exhausted(g, ns, edom, outUse, |g0| + b)
    ensures Finished(g0, root, levels, i, k, g, ns, edom, outUse)
  {
  }

  lemma LookedBelow(g0: Graph, root: nat, levels: seq<seq<nat>>, i: nat, k: nat, b: nat)
    requires Acyclic(g0) && root < |g0| && Leveled(g0, root, levels) && i < |levels| && k < |levels[i]|
    requires Looked(g0, root, levels, i, k, b)
    ensures b < |g0| && g0[b].Br? && Reachable(g0, root, b) && Level(g0, b) <= i && b != levels[i][k]
  {
    LeveledAt(g0, root, levels, i, k);
    if Level(g0, b) >= i {
      var j :| 0 <= j < k && levels[i][..k][j] == b;
      LeveledAt(g0, root, levels, i, j);
      assert NoRepeats(levels[i]);
    }
  }

  lemma EdgeKept(g0: Graph, root: nat, i: nat, g: Graph, g': Graph, ns: seq<Numbers>, edom: seq<set<nat>>,
          outUse: seq<set<nat>>,
                 b: nat, e: nat, f: nat, q: nat)
    requires Progress(g0, root, g, i + 1) && Acyclic(g0) && b < |g0| && g0[b].Br? && Reachable(g0, root, b)
    requires q < |g0| && Level(g0, b) <= i == Level(g0, q) && (e == b || e == |g0| + b)
    requires (f == q || f == |g0| + q) && e != f
    requires Exhausted(g, ns, edom, outUse, e) && OnlyEdge(g, g', f) && Valid(g') && |g| == |g0|
    ensures Exhausted(g', ns, edom, outUse, e)
  {
    assert RealEdge(g0, e) && Pred(g0, e) == b;
    EdgeNow(g0, root, g, i + 1, e);
    assert Level(g0, Succ(g, e)) < Level(g0, q) && Pred(g, f) == q;
    hide *;
    ExhaustedKept(g, g', ns, edom, outUse, e, f);
  }

  lemma FinishedBlock(g0: Graph, root: nat, levels: seq<seq<nat>>, i: nat, k: nat, g: Graph,
                      ns: seq<Numbers>, edom: seq<set<nat>>, outUse: seq<set<nat>>)
    requires Acyclic(g0) && root < |g0| && Leveled(g0, root, levels) && i < |levels| && k < |levels[i]|
    requires Finished(g0, root, levels, i, k, g, ns, edom, outUse)
    requires Exhausted(g, ns, edom, outUse, levels[i][k]) && Exhausted(g, ns, edom, outUse, |g0| + levels[i][k])
    ensures Finished(g0, root, levels, i, k + 1, g, ns, edom, outUse)
  {
    assert levels[i][..k + 1] == levels[i][..k] + [levels[i][k]];
    hide Exhausted;
    var next := k + 1;
    forall b: nat | Looked(g0, root, levels, i, next, b)
      ensures Exhausted(g, ns, edom, outUse, b) && Exhausted(g, ns, edom, outUse, |g0| + b)
    {
      if b != levels[i][k] {
        assert Looked(g0, root, levels, i, k, b);
      }
    }
  }

  /** No edge of a reachable branch can be folded any further without a conflict. */
  ghost predicate AllExhausted(g0: Graph, root: nat, g: Graph, ns: seq<Numbers>, edom: seq<set<nat>>,
          outUse: seq<set<nat>>) {
    forall b: nat :: b < |g0| && g0[b].Br? && Reachable(g0, root, b) ==>
      Exhausted(g, ns, edom, outUse, b) && Exhausted(g, ns, edom, outUse, |g0| + b)
  }

  lemma FinishedEnd(g0: Graph, root: nat, levels: seq<seq<nat>>, g: Graph,
                    ns: seq<Numbers>, edom: seq<set<nat>>, outUse: seq<set<nat>>)
    requires Acyclic(g0) && root < |g0| && Finished(g0, root, levels, Level(g0, root) + 1, 0, g, ns, edom, outUse)
    ensures AllExhausted(g0, root, g, ns, edom, outUse)
  {
    forall b: nat | b < |g0| && g0[b].Br? && Reachable(g0, root, b)
      ensures Looked(g0, root, levels, Level(g0, root) + 1, 0, b)
    {
      NotAboveRoot(g0, root, b);
    }
  }

  // ----- what is left, in terms of tests and numbers -----

  /**
   Edge e having been taken, the test of block d must go to c: both branches have the same code and
   the same number in A, and their operands have the same number, or, for a test of equality with a
   constant that has come out true, another one.
   */
  predicate Decided(g: Graph, ns: seq<Numbers>, e: nat, d: nat, c: nat) {
    && |ns| == |g| && d < |g| && g[d].Br? && e < 2 * |g|
    && var q := if e < |g| then e else e - |g|;
       && g[q].Br?
       && ((g[q].test.JmpK? && g[d].test.JmpK?) || (g[q].test.JmpX? && g[d].test.JmpX?)) && g[q].test.op == g[d].test.op
       && ns[q].val[A_ATOM] == ns[d].val[A_ATOM]
       && if ns[q].oval == ns[d].oval then c == (if e < |g| then g[d].jt else g[d].jf)
          else e < |g| && g[d].test.JmpK? && g[d].test.op.JEQ? && c == g[d].jf
  }

  /** fold_edge names a target just when the test is decided, and that target. */
  lemma FoldExact(g: Graph, ns: seq<Numbers>, d: nat, e: nat, c: nat)
    requires Valid(g) && |ns| == |g| && d < |g| && RealEdge(g, e)
    ensures FoldEdge(g, ns, d, e) == Some(c) <==> Decided(g, ns, e, d, c)
  {
  }

  /** Some atom in use after c has another number there than after b. */
  predicate Differs(ns: seq<Numbers>, outUse: seq<set<nat>>, b: nat, c: nat) {
    && b < |ns| && c < |ns| && c < |outUse|
    && exists a: nat :: a < N_ATOMS && a in outUse[c] && ns[b].val[a] != ns[c].val[a]
  }

  lemma ConflictIs(ns: seq<Numbers>, outUse: seq<set<nat>>, b: nat, c: nat)
    requires |ns| == |outUse| && b < |ns| && c < |ns|
    ensures Conflict(ns, outUse, b, c) <==> Differs(ns, outUse, b, c)
  {
  }

  /** The edge with this number in the graph leads to d. */
  predicate LeadsBy(g: Graph, f: nat, b: nat, d: nat) {
    && b < |g| && g[b].Br? && (f == b || f == |g| + b) && d == if f == b then g[b].jt else g[b].jf
  }

  /**
   No edge of a reachable branch leads to a test that an edge dominating it has decided, unless an
   atom in use after the place to go to differs.
   */
  ghost predicate NothingDecided(g0: Graph, root: nat, g: Graph, ns: seq<Numbers>, outUse: seq<set<nat>>) {
    forall b: nat, f: nat, d: nat, e: nat, c: nat ::
      Reachable(g0, root, b) && LeadsBy(g, f, b, d) && EdgeDominates(g0, root, e, f) && Decided(g, ns, e, d, c) ==>
        Differs(ns, outUse, b, c)
  }

  /** An edge that has moved leads to a block after which no atom in use differs. */
  ghost predicate Unhindered(g0: Graph, g: Graph, ns: seq<Numbers>, outUse: seq<set<nat>>) {
    forall b: nat, f: nat, d0: nat, d: nat ::
      LeadsBy(g0, f, b, d0) && LeadsBy(g, f, b, d) && d0 != d ==> !Differs(ns, outUse, b, d)
  }

  lemma AllDecided(t: Table, g0: Graph, root: nat, g: Graph, l: nat, ns: seq<Numbers>, shared: set<nat>,
                   edom: seq<set<nat>>, outUse: seq<set<nat>>)
    requires Analysed(t, g0, root, ns, shared, edom, outUse) && Progress(g0, root, g, l)
    requires AllExhausted(g0, root, g, ns, edom, outUse)
    ensures NothingDecided(g0, root, g, ns, outUse)
  {
    forall b: nat, f: nat, d: nat, e: nat, c: nat | Reachable(g0, root, b) && LeadsBy(g, f, b, d)
        && EdgeDominates(g0, root, e, f) && Decided(g, ns, e, d, c)
      ensures Differs(ns, outUse, b, c)
    {
      DecidedDiffers(t, g0, root, g, l, ns, shared, edom, outUse, b, f, d, e, c);
    }
    hide *;
  }

  lemma DecidedDiffers(t: Table, g0: Graph, root: nat, g: Graph, l: nat, ns: seq<Numbers>, shared: set<nat>,
                       edom: seq<set<nat>>, outUse: seq<set<nat>>, b: nat, f: nat, d: nat, e: nat, c: nat)
    requires Analysed(t, g0, root, ns, shared, edom, outUse) && Progress(g0, root, g, l)
    requires AllExhausted(g0, root, g, ns, edom, outUse)
    requires Reachable(g0, root, b) && LeadsBy(g, f, b, d) && EdgeDominates(g0, root, e, f) && Decided(g, ns, e, d, c)
    ensures Differs(ns, outUse, b, c)
  {
    SameEnds(g0, root, g, l, b);
    EdgeSide(g0, g, f, b, d);
    DominatorListed(g0, root, edom, f, e, |g|);
    ExhaustedAt(g0, root, g, ns, edom, outUse, b, f);
    hide *;
    BlockedDiffers(g, ns, edom, outUse, f, b, d, e, c);
  }

  lemma DominatorListed(g0: Graph, root: nat, edom: seq<set<nat>>, f: nat, e: nat, n: nat)
    requires EdomExact(g0, root, edom) && RealEdge(g0, f) && Reachable(g0, root, Pred(g0, f))
    requires EdgeDominates(g0, root, e, f) && e < 2 * n && n == |g0|
    ensures f < |edom| && e in edom[f]
  {
  }

  lemma ExhaustedAt(g0: Graph, root: nat, g: Graph, ns: seq<Numbers>, edom: seq<set<nat>>, outUse: seq<set<nat>>,
                    b: nat, f: nat)
    requires AllExhausted(g0, root, g, ns, edom, outUse) && b < |g0| && g0[b].Br? && Reachable(g0, root, b)
    requires f == b || f == |g0| + b
    ensures Exhausted(g, ns, edom, outUse, f)
  {
  }

  lemma EdgeSide(g0: Graph, g: Graph, f: nat, b: nat, d: nat)
    requires LeadsBy(g, f, b, d) && |g| == |g0| && SameBlock(g0[b], g[b])
    ensures RealEdge(g0, f) && RealEdge(g, f) && Pred(g0, f) == Pred(g, f) == b && Succ(g, f) == d
    ensures b < |g0| && g0[b].Br? && (f == b || f == |g0| + b)
  {
  }

  lemma BlockedDiffers(g: Graph, ns: seq<Numbers>, edom: seq<set<nat>>, outUse: seq<set<nat>>, f: nat, b: nat, d: nat,
                       e: nat, c: nat)
    requires Exhausted(g, ns, edom, outUse, f) && f < |edom| && e in edom[f] && RealEdge(g, f)
    requires Pred(g, f) == b && Succ(g, f) == d && Decided(g, ns, e, d, c)
    ensures Differs(ns, outUse, b, c)
  {
    FoldExact(g, ns, d, e, c);
    assert Blocked(g, ns, outUse, f, e);
    FoldTarget(g, ns, d, e);
    ConflictIs(ns, outUse, b, c);
  }

  // ----- where opt_j takes an edge -----

  /** The target the first edge of ed, from e on, folds block d to without a conflict with block q. */
  ghost function FirstFold(g: Graph, ns: seq<Numbers>, ed: set<nat>, outUse: seq<set<nat>>, q: nat, d: nat,
          e: nat): (r: Option<nat>)
    requires Valid(g) && |ns| == |outUse| == |g| && q < |g| && d < |g|
    ensures r.Some? ==> g[d].Br? && r.value < |g| && (r.value == g[d].jt || r.value == g[d].jf)
    decreases 2 * |g| - e
  {
    if e >= 2 * |g| then None
    else if e in ed && RealEdge(g, e) && Folds(g, ns, outUse, q, d, e) then
      FoldTarget(g, ns, d, e);
      FoldEdge(g, ns, d, e)
    else FirstFold(g, ns, ed, outUse, q, d, e + 1)
  }

  predicate Folds(g: Graph, ns: seq<Numbers>, outUse: seq<set<nat>>, q: nat, d: nat, e: nat)
    requires Valid(g) && |ns| == |outUse| == |g| && q < |g| && d < |g| && RealEdge(g, e)
  {
    FoldTarget(g, ns, d, e);
    FoldEdge(g, ns, d, e).Some? && !Conflict(ns, outUse, q, FoldEdge(g, ns, d, e).value)
  }

  /** From block d down, fold after fold, until nothing folds. */
  ghost function Chase(g: Graph, ns: seq<Numbers>, ed: set<nat>, outUse: seq<set<nat>>, q: nat, d: nat): nat
    requires Acyclic(g) && Valid(g) && |ns| == |outUse| == |g| && q < |g| && d < |g|
    decreases Level(g, d)
  {
    var c := FirstFold(g, ns, ed, outUse, q, d, 0);
    if c.None? then d else Chase(g, ns, ed, outUse, q, c.value)
  }

  /** A test with two equal exits is skipped once, if that is no conflict; then the folds. */
  ghost function Destination(g: Graph, ns: seq<Numbers>, ed: set<nat>, outUse: seq<set<nat>>, f: nat): nat
    requires Acyclic(g) && Valid(g) && |ns| == |outUse| == |g| && RealEdge(g, f) && Pred(g, f) < |g| && Succ(g, f) < |g|
  {
    var q, s := Pred(g, f), Succ(g, f);
    if g[s].Br? && g[s].jt == g[s].jf && !Conflict(ns, outUse, q, g[s].jt) then Chase(g, ns, ed, outUse, q, g[s].jt)
    else Chase(g, ns, ed, outUse, q, s)
  }

  /** Moving edge f does not change what blocks other than its own fold to. */
  lemma {:induction false} FirstFoldMoved(g: Graph, f: nat, c: nat, ns: seq<Numbers>, ed: set<nat>,
          outUse: seq<set<nat>>, d: nat, e: nat)
    requires Valid(g) && RealEdge(g, f) && Valid(Moved(g, f, c)) && |ns| == |outUse| == |g| && d < |g|
    requires d != Pred(g, f) && Pred(g, f) < |g|
    ensures FirstFold(Moved(g, f, c), ns, ed, outUse, Pred(g, f), d, e) ==
      FirstFold(g, ns, ed, outUse, Pred(g, f), d, e)
    decreases 2 * |g| - e
  {
    var g' := Moved(g, f, c);
    assert g'[d] == g[d];
    if e < 2 * |g| {
      assert RealEdge(g', e) <==> RealEdge(g, e);
      if RealEdge(g, e) {
        MovedElsewhere(g, f, c, e);
        assert FoldEdge(g', ns, d, e) == FoldEdge(g, ns, d, e);
      }
      FirstFoldMoved(g, f, c, ns, ed, outUse, d, e + 1);
    }
  }

  lemma FirstFoldIs(g: Graph, ns: seq<Numbers>, ed: set<nat>, outUse: seq<set<nat>>, q: nat, d: nat, e: nat)
    requires Valid(g) && |ns| == |outUse| == |g| && q < |g| && d < |g|
    ensures e >= 2 * |g| ==> FirstFold(g, ns, ed, outUse, q, d, e) == None
    ensures e < 2 * |g| && e !in ed ==>
      FirstFold(g, ns, ed, outUse, q, d, e) == FirstFold(g, ns, ed, outUse, q, d, e + 1)
    ensures e < 2 * |g| && e in ed && RealEdge(g, e) ==>
      var c := FoldEdge(g, ns, d, e);
      && (c.Some? ==> c.value < |g|)
      && FirstFold(g, ns, ed, outUse, q, d, e) ==
         if c.Some? && !Conflict(ns, outUse, q, c.value) then c else FirstFold(g, ns, ed, outUse, q, d, e + 1)
  {
    if e < 2 * |g| && RealEdge(g, e) {
      FoldTarget(g, ns, d, e);
    }
  }

  lemma ChaseIs(g: Graph, ns: seq<Numbers>, ed: set<nat>, outUse: seq<set<nat>>, q: nat, d: nat)
    requires Acyclic(g) && Valid(g) && |ns| == |outUse| == |g| && q < |g| && d < |g|
    ensures var c := FirstFold(g, ns, ed, outUse, q, d, 0);
      && (c.Some? ==> c.value < |g|)
      && Chase(g, ns, ed, outUse, q, d) == if c.None? then d else Chase(g, ns, ed, outUse, q, c.value)
    ensures g[d].Ret? ==> Chase(g, ns, ed, outUse, q, d) == d
  {
  }

  lemma DestinationIs(g: Graph, ns: seq<Numbers>, ed: set<nat>, outUse: seq<set<nat>>, f: nat)
    requires Acyclic(g) && Valid(g) && |ns| == |outUse| == |g| && RealEdge(g, f) && Pred(g, f) < |g| && Succ(g, f) < |g|
    ensures var q, s := Pred(g, f), Succ(g, f);
      && (g[s].Ret? ==> Destination(g, ns, ed, outUse, f) == s)
      && (g[s].Br? ==>
            && g[s].jt < |g|
            && Destination(g, ns, ed, outUse, f) ==
               if g[s].jt == g[s].jf && !Conflict(ns, outUse, q, g[s].jt) then Chase(g, ns, ed, outUse, q, g[s].jt)
               else Chase(g, ns, ed, outUse, q, s))
  {
    ChaseIs(g, ns, ed, outUse, Pred(g, f), Succ(g, f));
  }

  /**
   Edge f of block q moves on from d to c: an edge dominating it has decided d's test for c, no atom
   in use after c differs, and no dominating edge of a smaller number could have moved it.
   */
  ghost predicate MovesOn(g0: Graph, root: nat, g: Graph, ns: seq<Numbers>, outUse: seq<set<nat>>, f: nat,
          q: nat, d: nat, c: nat) {
    exists e: nat ::
      && EdgeDominates(g0, root, e, f) && Decided(g, ns, e, d, c) && !Differs(ns, outUse, q, c)
      && Held(g0, root, g, ns, outUse, f, q, d, e)
  }

  /** No edge with a number below e that dominates f lets f move on from d. */
  ghost predicate Held(g0: Graph, root: nat, g: Graph, ns: seq<Numbers>, outUse: seq<set<nat>>, f: nat,
          q: nat, d: nat, e: nat) {
    forall e': nat, c: nat ::
      e' < e && EdgeDominates(g0, root, e', f) && Decided(g, ns, e', d, c) ==> Differs(ns, outUse, q, c)
  }

  /** Where opt_j starts from: past a test with two equal exits, if no atom in use after them differs. */
  predicate StartsAt(g: Graph, ns: seq<Numbers>, outUse: seq<set<nat>>, q: nat, d: nat, c: nat) {
    d < |g| && c == if g[d].Br? && g[d].jt == g[d].jf && !Differs(ns, outUse, q, g[d].jt) then g[d].jt else d
  }

  /** way is how edge f of block q goes down from d, test after test, until nothing lets it move on. */
  ghost predicate WayDown(g0: Graph, root: nat, g: Graph, ns: seq<Numbers>, outUse: seq<set<nat>>, f: nat,
          q: nat, way: seq<nat>) {
    && |way| > 0
    && (forall i :: 0 <= i < |way| - 1 ==> MovesOn(g0, root, g, ns, outUse, f, q, way[i], way[i + 1]))
    && Held(g0, root, g, ns, outUse, f, q, way[|way| - 1], 2 * |g|)
  }

  /** What opt_j does with the edge of block q that leads to d: it is taken down to c. */
  ghost predicate TakenDown(g0: Graph, root: nat, g: Graph, ns: seq<Numbers>, outUse: seq<set<nat>>, f: nat,
          q: nat, d: nat, c: nat) {
    exists way :: WayDown(g0, root, g, ns, outUse, f, q, way) && StartsAt(g, ns, outUse, q, d, way[0])
                  && way[|way| - 1] == c
  }

  /** The set of an edge, as the pass sees it: the edges dominating it. */
  ghost predicate DominatingEdges(g0: Graph, root: nat, g: Graph, f: nat, ed: set<nat>) {
    forall e: nat :: e in ed <==> e < 2 * |g| && RealEdge(g, e) && EdgeDominates(g0, root, e, f)
  }

  lemma {:induction false} FirstFoldMovesOn(g0: Graph, root: nat, g: Graph, ns: seq<Numbers>, ed: set<nat>,
                                            outUse: seq<set<nat>>, f: nat, q: nat, d: nat, e: nat)
    requires Valid(g) && |ns| == |outUse| == |g| && q < |g| && d < |g| && DominatingEdges(g0, root, g, f, ed)
    requires Held(g0, root, g, ns, outUse, f, q, d, e) && e <= 2 * |g|
    ensures var c := FirstFold(g, ns, ed, outUse, q, d, e);
      if c.Some? then MovesOn(g0, root, g, ns, outUse, f, q, d, c.value)
      else Held(g0, root, g, ns, outUse, f, q, d, 2 * |g|)
    decreases 2 * |g| - e
  {
    if e < 2 * |g| {
      if e in ed && Folds(g, ns, outUse, q, d, e) {
        FoldsOn(g, ns, outUse, q, d, e);
      } else {
        HeldNext(g0, root, g, ns, ed, outUse, f, q, d, e);
        hide *;
        FirstFoldMovesOn(g0, root, g, ns, ed, outUse, f, q, d, e + 1);
        FirstFoldNext(g, ns, ed, outUse, q, d, e);
      }
    }
  }

  lemma FoldsOn(g: Graph, ns: seq<Numbers>, outUse: seq<set<nat>>, q: nat, d: nat, e: nat)
    requires Valid(g) && |ns| == |outUse| == |g| && q < |g| && d < |g| && RealEdge(g, e)
    ensures var c := FoldEdge(g, ns, d, e);
      Folds(g, ns, outUse, q, d, e) <==> c.Some? && Decided(g, ns, e, d, c.value) && !Differs(ns, outUse, q, c.value)
  {
    FoldTarget(g, ns, d, e);
    var c := FoldEdge(g, ns, d, e);
    if c.Some? {
      FoldExact(g, ns, d, e, c.value);
      ConflictIs(ns, outUse, q, c.value);
    }
  }

  lemma FirstFoldNext(g: Graph, ns: seq<Numbers>, ed: set<nat>, outUse: seq<set<nat>>, q: nat, d: nat, e: nat)
    requires Valid(g) && |ns| == |outUse| == |g| && q < |g| && d < |g| && e < 2 * |g|
    requires !(e in ed && RealEdge(g, e) && Folds(g, ns, outUse, q, d, e))
    ensures FirstFold(g, ns, ed, outUse, q, d, e) == FirstFold(g, ns, ed, outUse, q, d, e + 1)
  {
  }

  lemma HeldNext(g0: Graph, root: nat, g: Graph, ns: seq<Numbers>, ed: set<nat>, outUse: seq<set<nat>>, f: nat,
                 q: nat, d: nat, e: nat)
    requires Valid(g) && |ns| == |outUse| == |g| && q < |g| && d < |g| && DominatingEdges(g0, root, g, f, ed)
    requires Held(g0, root, g, ns, outUse, f, q, d, e) && e < 2 * |g|
    requires !(e in ed && RealEdge(g, e) && Folds(g, ns, outUse, q, d, e))
    ensures Held(g0, root, g, ns, outUse, f, q, d, e + 1)
  {
    var next := e + 1;
    forall e': nat, c: nat | e' < next && EdgeDominates(g0, root, e', f) && Decided(g, ns, e', d, c)
      ensures Differs(ns, outUse, q, c)
    {
      if e' == e {
        assert RealEdge(g, e) && e in ed;
        FoldExact(g, ns, d, e, c);
        FoldsOn(g, ns, outUse, q, d, e);
      }
    }
  }

  lemma {:induction false} ChaseGoesDown(g0: Graph, root: nat, g: Graph, ns: seq<Numbers>, ed: set<nat>,
                                         outUse: seq<set<nat>>, f: nat, q: nat, d: nat) returns (way: seq<nat>)
    requires Acyclic(g) && Valid(g) && |ns| == |outUse| == |g| && q < |g| && d < |g|
    requires DominatingEdges(g0, root, g, f, ed)
    ensures WayDown(g0, root, g, ns, outUse, f, q, way) && way[0] == d
    ensures way[|way| - 1] == Chase(g, ns, ed, outUse, q, d)
    decreases Level(g, d)
  {
    FirstFoldMovesOn(g0, root, g, ns, ed, outUse, f, q, d, 0);
    var c := FirstFold(g, ns, ed, outUse, q, d, 0);
    if c.None? {
      way := [d];
    } else {
      var rest := ChaseGoesDown(g0, root, g, ns, ed, outUse, f, q, c.value);
      way := [d] + rest;
      forall i | 0 <= i < |way| - 1 ensures MovesOn(g0, root, g, ns, outUse, f, q, way[i], way[i + 1]) {
        if i > 0 {
          assert way[i] == rest[i - 1] && way[i + 1] == rest[i];
          var j := i - 1;
          assert MovesOn(g0, root, g, ns, outUse, f, q, rest[j], rest[j + 1]);
        }
      }
    }
  }

  lemma DestinationDown(t: Table, g0: Graph, root: nat, g: Graph, l: nat, ns: seq<Numbers>, shared: set<nat>,
                        edom: seq<set<nat>>, outUse: seq<set<nat>>, f: nat)
    requires Analysed(t, g0, root, ns, shared, edom, outUse) && Progress(g0, root, g, l)
    requires Threadable(g, ns, edom, outUse, f) && RealEdge(g0, f) && Reachable(g0, root, Pred(g0, f))
    ensures Valid(g) && Acyclic(g) && |ns| == |outUse| == |g| && RealEdge(g, f) && Pred(g, f) < |g| && Succ(g, f) < |g|
    ensures TakenDown(g0, root, g, ns, outUse, f, Pred(g, f), Succ(g, f), Destination(g, ns, edom[f], outUse, f))
  {
    var q, s := Pred(g, f), Succ(g, f);
    forall e: nat ensures e in edom[f] <==> e < 2 * |g| && RealEdge(g, e) && EdgeDominates(g0, root, e, f) {
      if e in edom[f] {
        DominatorNow(g0, root, edom, g, l, f, e);
      }
    }
    if g[s].Br? {
      ConflictIs(ns, outUse, q, g[s].jt);
    }
    var from := if g[s].Br? && g[s].jt == g[s].jf && !Conflict(ns, outUse, q, g[s].jt) then g[s].jt else s;
    var way := ChaseGoesDown(g0, root, g, ns, edom[f], outUse, f, q, from);
  }

  lemma AtEdgeDown(t: Table, g0: Graph, root: nat, g: Graph, ns: seq<Numbers>, shared: set<nat>,
                   edom: seq<set<nat>>, outUse: seq<set<nat>>, f: nat)
    requires AtEdge(t, g0, root, ns, shared, edom, outUse, g, f) && Threadable(g, ns, edom, outUse, f)
    ensures Valid(g) && Acyclic(g) && |ns| == |outUse| == |g| && RealEdge(g, f) && Pred(g, f) < |g| && Succ(g, f) < |g|
    ensures f < |edom|
    ensures TakenDown(g0, root, g, ns, outUse, f, Pred(g, f), Succ(g, f), Destination(g, ns, edom[f], outUse, f))
  {
    DestinationDown(t, g0, root, g, Level(g0, Pred(g0, f)) + 1, ns, shared, edom, outUse, f);
  }

  /** Taking one more edge down leaves every edge that has moved unhindered. */
  lemma UnhinderedKept(g0: Graph, root: nat, g: Graph, g': Graph, ns: seq<Numbers>, outUse: seq<set<nat>>, f: nat,
                       d: nat, c: nat)
    requires Unhindered(g0, g, ns, outUse) && RealEdge(g, f) && Succ(g, f) == d && g' == Moved(g, f, c)
    requires TakenDown(g0, root, g, ns, outUse, f, Pred(g, f), d, c)
    ensures Unhindered(g0, g', ns, outUse)
  {
    var q := Pred(g, f);
    var way :| WayDown(g0, root, g, ns, outUse, f, q, way) && StartsAt(g, ns, outUse, q, d, way[0])
                && way[|way| - 1] == c;
    assert c == d || !Differs(ns, outUse, q, c) by {
      if |way| > 1 {
        var i := |way| - 2;
        assert MovesOn(g0, root, g, ns, outUse, f, q, way[i], way[i + 1]);
      }
    }
    forall b: nat, k: nat, d0: nat, d1: nat | LeadsBy(g0, k, b, d0) && LeadsBy(g', k, b, d1) && d0 != d1
      ensures !Differs(ns, outUse, b, d1)
    {
      if k != f || c == d {
        assert LeadsBy(g, k, b, d1);
      }
    }
  }

  lemma UnhinderedStart(g0: Graph, ns: seq<Numbers>, outUse: seq<set<nat>>)
    ensures Unhindered(g0, g0, ns, outUse)
  {
  }

  /** Edge f of g can be looked at: the sets and numbers are there for it. */
  ghost predicate Threadable(g: Graph, ns: seq<Numbers>, edom: seq<set<nat>>, outUse: seq<set<nat>>, f: nat) {
    && Acyclic(g) && Valid(g) && |ns| == |outUse| == |g| && RealEdge(g, f) && f < |edom|
    && Pred(g, f) < |g| && Succ(g, f) < |g|
  }

  lemma ThreadableIs(g: Graph, ns: seq<Numbers>, edom: seq<set<nat>>, outUse: seq<set<nat>>, f: nat)
    requires Acyclic(g) && Valid(g) && |ns| == |outUse| == |g| && RealEdge(g, f) && f < |edom|
    requires Pred(g, f) < |g| && Succ(g, f) < |g|
    ensures Threadable(g, ns, edom, outUse, f)
  {
  }

  lemma SameLeaf(h: Graph, g: Graph, f: nat)
    requires RealEdge(h, f) && RealEdge(g, f) && g == Moved(h, f, Succ(g, f)) && Succ(g, f) < |g|
    ensures g[Succ(g, f)].Ret? ==> h[Succ(g, f)].Ret?
  {
  }

  lemma MovedTwice(g: Graph, f: nat, a: nat, c: nat)
    requires RealEdge(g, f)
    ensures RealEdge(Moved(g, f, a), f) && Moved(Moved(g, f, a), f, c) == Moved(g, f, c)
    ensures Moved(g, f, Succ(g, f)) == g && Pred(Moved(g, f, a), f) == Pred(g, f)
  {
  }

  // ----- the lists play no part -----

  /** g with other statement lists. */
  function Relisted(g: Graph, lists: seq<seq<Stmt>>): (h: Graph)
    requires |lists| == |g|
    ensures |h| == |g|
  {
    seq(|g|, b requires 0 <= b < |g| => DeadStores.WithStmts(g[b], lists[b]))
  }

  function ListsOf(g: Graph): (lists: seq<seq<Stmt>>)
    ensures |lists| == |g|
  {
    seq(|g|, b requires 0 <= b < |g| => g[b].stmts)
  }

  lemma RelistedEdge(g: Graph, lists: seq<seq<Stmt>>, f: nat)
    requires |lists| == |g| && RealEdge(g, f)
    ensures var h := Relisted(g, lists);
      && RealEdge(h, f) && Pred(h, f) == Pred(g, f) && Succ(h, f) == Succ(g, f) && (Valid(g) ==> Valid(h))
  {
  }

  lemma RelistedBlock(g: Graph, lists: seq<seq<Stmt>>, b: nat)
    requires |lists| == |g| && b < |g|
    ensures var h := Relisted(g, lists);
      && (h[b].Ret? <==> g[b].Ret?) && (h[b].Br? ==> h[b].jt == g[b].jt && h[b].jf == g[b].jf)
  {
  }

  /** fold_edge looks at tests, exits and numbers only. */
  lemma RelistedFold(g: Graph, lists: seq<seq<Stmt>>, ns: seq<Numbers>, child: nat, e: nat)
    requires |lists| == |g| == |ns| && Valid(g) && child < |g| && RealEdge(g, e)
    ensures var h := Relisted(g, lists);
      Valid(h) && RealEdge(h, e) && FoldEdge(h, ns, child, e) == FoldEdge(g, ns, child, e)
  {
  }

  lemma RelistedMoved(g: Graph, lists: seq<seq<Stmt>>, f: nat, c: nat)
    requires |lists| == |g| && RealEdge(g, f)
    ensures RealEdge(Relisted(g, lists), f)
    ensures Moved(Relisted(g, lists), f, c) == Relisted(Moved(g, f, c), lists)
  {
  }

  /** The pass works on blocks that may have lost their dead stores; g has the lists that were numbered. */
  class Threader {
    const root: nat
    const ns: seq<Numbers>
    const edom: seq<set<nat>>
    const outUse: seq<set<nat>>
    var blocks: Graph
    var done: bool
    ghost var g: Graph
    ghost const g0: Graph
    ghost const lists: seq<seq<Stmt>>
    ghost const t: Table
    ghost const shared: set<nat>

    ghost predicate Mirrors()
      reads this
    {
      |lists| == |g| && blocks == Relisted(g, lists)
    }

    constructor (blocks: Graph, root: nat, ns: seq<Numbers>, edom: seq<set<nat>>, outUse: seq<set<nat>>,
                 ghost g: Graph, ghost t: Table, ghost shared: set<nat>)
      requires Analysed(t, g, root, ns, shared, edom, outUse)
      requires |blocks| == |g| && blocks == Relisted(g, ListsOf(blocks))
      ensures this.g == this.g0 == g && this.root == root && this.ns == ns && this.edom == edom && this.outUse == outUse
      ensures this.t == t && this.shared == shared && done && Progress(g0, root, this.g, 1)
      ensures this.blocks == blocks && lists == ListsOf(blocks) && Mirrors()
    {
      this.blocks, this.root, this.ns, this.edom, this.outUse := blocks, root, ns, edom, outUse;
      this.g, this.g0, lists, this.t, this.shared, done := g, g, ListsOf(blocks), t, shared, true;
      new;
      ProgressStart(g0, root, 1);
    }

    lemma MirrorsIs()
      requires Mirrors()
      ensures |lists| == |g| && blocks == Relisted(g, lists)
    {
    }

    method UseConflict(b: nat, succ: nat) returns (r: bool)
      requires |ns| == |outUse| && b < |ns| && succ < |ns|
      ensures r == Conflict(ns, outUse, b, succ)
    {
      var use := outUse[succ];
      if use == {} {
        return false;
      }
      for atom := 0 to N_ATOMS
        invariant forall a :: 0 <= a < atom && a in use ==> ns[b].val[a] == ns[succ].val[a]
      {
        if atom in use && ns[b].val[atom] != ns[succ].val[atom] {
          return true;
        }
      }
      r := false;
    }

    /** Points edge f at block c. */
    method SetSucc(f: nat, c: nat)
      requires RealEdge(g, f) && Mirrors()
      modifies this`blocks, this`g
      ensures g == Moved(old(g), f, c) && Mirrors()
    {
      RelistedEdge(g, lists, f);
      RelistedMoved(g, lists, f, c);
      g := Moved(g, f, c);
      var b := blocks[Pred(blocks, f)];
      if f < |blocks| {
        blocks := blocks[Pred(blocks, f) := Br(b.stmts, b.test, c, b.jf)];
      } else {
        blocks := blocks[Pred(blocks, f) := Br(b.stmts, b.test, b.jt, c)];
      }
    }

    /** One scan of the edge dominators of f: the first that lets f move moves it. */
    method FoldOnce(f: nat) returns (moved: bool)
      requires AtEdge(t, g0, root, ns, shared, edom, outUse, g, f) && RealEdge(g, f) && Mirrors()
      requires Valid(g) && |ns| == |outUse| == |g| && Pred(g, f) < |g| && Succ(g, f) < |g| && f < |edom|
      modifies this`blocks, this`g, this`done
      ensures AtEdge(t, g0, root, ns, shared, edom, outUse, g, f) && Valid(g) && |g| == |old(g)| && RealEdge(g, f)
      ensures Succ(g, f) < |g| && Mirrors()
      ensures FirstFold(old(g), ns, edom[f], outUse, Pred(old(g), f), Succ(old(g), f), 0) ==
        if moved then Some(Succ(g, f)) else None
      ensures moved ==> g == Moved(old(g), f, Succ(g, f)) && Depth(g0, Succ(g, f)) < Depth(g0, old(Succ(g, f))) && !done
      ensures !moved ==> g == old(g) && Exhausted(g, ns, edom, outUse, f) && done == old(done)
    {
      hide *;
      AtEdgeFacts(t, g0, root, ns, shared, edom, outUse, g, f);
      moved := false;
      ghost var q, d := Pred(g, f), Succ(g, f);
      MirrorsIs();
      for e := 0 to 2 * |blocks|
        invariant g == old(g) && blocks == old(blocks) && done == old(done)
        invariant forall k :: k in edom[f] && k < e ==> Blocked(g, ns, outUse, f, k)
        invariant FirstFold(g, ns, edom[f], outUse, q, d, 0) == FirstFold(g, ns, edom[f], outUse, q, d, e)
      {
        FirstFoldIs(g, ns, edom[f], outUse, q, d, e);
        if e in edom[f] {
          AtEdgeFold(t, g0, root, ns, shared, edom, outUse, g, f, e);
          RelistedEdge(g, lists, f);
          RelistedFold(g, lists, ns, Succ(g, f), e);
          var target := FoldEdge(blocks, ns, Succ(blocks, f), e);
          var conflict := false;
          if target.Some? {
            conflict := UseConflict(Pred(blocks, f), target.value);
          }
          if target.Some? && !conflict {
            MovedElsewhere(g, f, target.value, f);
            AtEdgeFacts(t, g0, root, ns, shared, edom, outUse, Moved(g, f, target.value), f);
            done := false;
            SetSucc(f, target.value);
            return true;
          }
          BlockedBy(g, ns, outUse, f, e);
        }
      }
      FirstFoldIs(g, ns, edom[f], outUse, q, d, 2 * |g|);
      Blockade(g, ns, edom, outUse, f, 2 * |g|);
    }

    /** A test with two equal exits is skipped, if that is no conflict. */
    method SkipEqual(f: nat)
      requires AtEdge(t, g0, root, ns, shared, edom, outUse, g, f) && Mirrors()
      requires Threadable(g, ns, edom, outUse, f) && Valid(g) && |ns| == |outUse| == |g| && RealEdge(g, f) && f < |edom|
      requires Pred(g, f) < |g| && Succ(g, f) < |g| && g[Succ(g, f)].Br? && Acyclic(g)
      modifies this`blocks, this`g, this`done
      ensures AtEdge(t, g0, root, ns, shared, edom, outUse, g, f) && Mirrors()
      ensures |g| == |old(g)| && RealEdge(g, f) && Succ(g, f) < |g|
      ensures g == Moved(old(g), f, Succ(g, f)) && done == (old(done) && Succ(g, f) == old(Succ(g, f)))
      ensures Depth(g0, Succ(g, f)) <= Depth(g0, old(Succ(g, f)))
      ensures Chase(old(g), ns, edom[f], outUse, Pred(old(g), f), Succ(g, f)) ==
        Destination(old(g), ns, edom[f], outUse, f)
    {
      hide *;
      DestinationIs(g, ns, edom[f], outUse, f);
      MovedTwice(g, f, 0, 0);
      MirrorsIs();
      RelistedEdge(g, lists, f);
      var s := Succ(blocks, f);
      RelistedBlock(g, lists, s);
      if blocks[s].jt == blocks[s].jf {
        AtEdgeCommon(t, g0, root, ns, shared, edom, outUse, g, f);
        var conflict := UseConflict(Pred(blocks, f), blocks[s].jt);
        if !conflict {
          MovedElsewhere(g, f, g[s].jt, f);
          AtEdgeFacts(t, g0, root, ns, shared, edom, outUse, Moved(g, f, g[s].jt), f);
          done := false;
          SetSucc(f, blocks[s].jt);
        }
      }
    }

    /** opt_j: moves edge f as far down as the dominating edges and the data dependencies let it. */
    method OptJ(f: nat)
      requires AtEdge(t, g0, root, ns, shared, edom, outUse, g, f) && Mirrors()
      modifies this`blocks, this`g, this`done
      ensures AtEdge(t, g0, root, ns, shared, edom, outUse, g, f) && Exhausted(g, ns, edom, outUse, f)
      ensures OnlyEdge(old(g), g, f) && Mirrors()
      ensures Threadable(old(g), ns, edom, outUse, f) && RealEdge(old(g), f) && RealEdge(g, f)
      ensures g == Moved(old(g), f, Succ(g, f)) && Succ(g, f) == Destination(old(g), ns, edom[f], outUse, f)
      ensures TakenDown(g0, root, old(g), ns, outUse, f, Pred(old(g), f), Succ(old(g), f), Succ(g, f))
      ensures done == (old(done) && g == old(g))
    {
      hide *;
      ghost var h := g;
      AtEdgeFacts(t, g0, root, ns, shared, edom, outUse, g, f);
      ThreadableIs(g, ns, edom, outUse, f);
      DestinationIs(g, ns, edom[f], outUse, f);
      AtEdgeDown(t, g0, root, g, ns, shared, edom, outUse, f);
      MovedTwice(h, f, 0, 0);
      OnlyEdgeSelf(g, f);
      ghost var q := Pred(h, f);
      var leaf := AtLeaf(f);
      if leaf {
        Blockade(g, ns, edom, outUse, f, 0);
        return;
      }
      SkipEqual(f);
      AtEdgeFacts(t, g0, root, ns, shared, edom, outUse, g, f);
      var moved := true;
      while moved
        invariant AtEdge(t, g0, root, ns, shared, edom, outUse, g, f) && Mirrors()
        invariant Valid(g) && |g| == |h| && RealEdge(g, f) && Succ(g, f) < |g|
        invariant g == Moved(h, f, Succ(g, f)) && done == (old(done) && Succ(g, f) == Succ(h, f))
        invariant Depth(g0, Succ(g, f)) <= Depth(g0, Succ(h, f))
        invariant Chase(h, ns, edom[f], outUse, q, Succ(g, f)) == Destination(h, ns, edom[f], outUse, f)
        invariant !moved ==> Exhausted(g, ns, edom, outUse, f) && Succ(g, f) == Destination(h, ns, edom[f], outUse, f)
        decreases Depth(g0, Succ(g, f)), if moved then 1 else 0
      {
        ghost var d := Succ(g, f);
        AtEdgeFacts(t, g0, root, ns, shared, edom, outUse, g, f);
        MovedTwice(h, f, d, 0);
        FirstFoldMoved(h, f, d, ns, edom[f], outUse, d, 0);
        ChaseIs(h, ns, edom[f], outUse, q, d);
        moved := FoldOnce(f);
        MovedTwice(h, f, d, Succ(g, f));
        if moved {
          leaf := AtLeaf(f);
          if leaf {
            SameLeaf(h, g, f);
            ChaseIs(h, ns, edom[f], outUse, q, Succ(g, f));
            AtEdgeFacts(t, g0, root, ns, shared, edom, outUse, g, f);
            Blockade(g, ns, edom, outUse, f, 0);
            break;
          }
        }
      }
      OnlyEdgeMoved(h, h, f, Succ(g, f));
    }

    /** Whether edge f leads to a leaf. */
    method AtLeaf(f: nat) returns (leaf: bool)
      requires Mirrors() && RealEdge(g, f) && Succ(g, f) < |g|
      ensures leaf <==> g[Succ(g, f)].Ret?
    {
      hide *;
      MirrorsIs();
      RelistedEdge(g, lists, f);
      RelistedBlock(g, lists, Succ(g, f));
      leaf := blocks[Succ(blocks, f)].Ret?;
    }

    /** Both edges of one block. */
    method MoveBlock(levels: seq<seq<nat>>, i: nat, k: nat)
      requires Analysed(t, g0, root, ns, shared, edom, outUse)
      requires Acyclic(g0) && root < |g0| && Leveled(g0, root, levels) && 0 < i < |levels| && k < |levels[i]|
      requires Progress(g0, root, g, i + 1) && Finished(g0, root, levels, i, k, g, ns, edom, outUse) && Mirrors()
      requires Unhindered(g0, g, ns, outUse)
      modifies this`blocks, this`g, this`done
      ensures Progress(g0, root, g, i + 1) && Finished(g0, root, levels, i, k + 1, g, ns, edom, outUse) && Mirrors()
      ensures Unhindered(g0, g, ns, outUse) && (done ==> old(done) && g == old(g))
    {
      hide *;
      ghost var b := levels[i][k];
      LeveledAt(g0, root, levels, i, k);
      EnterLevel(t, g0, root, ns, shared, edom, outUse, g, levels, i, k);
      ghost var g1 := g;
      OptJ(levels[i][k]);
      UnhinderedKept(g0, root, g1, g, ns, outUse, levels[i][k], Succ(g1, levels[i][k]), Succ(g, levels[i][k]));
      LeaveEdge(t, g0, root, ns, shared, edom, outUse, g, levels, i, k, b);
      FinishedKept(g0, root, levels, i, k, g1, g, ns, edom, outUse, b);
      EnterLevel(t, g0, root, ns, shared, edom, outUse, g, levels, i, k);
      ghost var g2 := g;
      MirrorsIs();
      OptJ(|blocks| + levels[i][k]);
      UnhinderedKept(g0, root, g2, g, ns, outUse, |g0| + b, Succ(g2, |g0| + b), Succ(g, |g0| + b));
      LeaveEdge(t, g0, root, ns, shared, edom, outUse, g, levels, i, k, |g0| + b);
      FinishedKept(g0, root, levels, i, k, g2, g, ns, edom, outUse, |g0| + b);
      EdgeKept(g0, root, i, g2, g, ns, edom, outUse, b, b, |g0| + b, b);
      FinishedBlock(g0, root, levels, i, k, g, ns, edom, outUse);
    }

    /** Both edges of every block of level i. */
    method MoveLevel(levels: seq<seq<nat>>, i: nat)
      requires Analysed(t, g0, root, ns, shared, edom, outUse)
      requires Acyclic(g0) && root < |g0| && Leveled(g0, root, levels) && 0 < i < |levels|
      requires Progress(g0, root, g, i + 1) && Finished(g0, root, levels, i, 0, g, ns, edom, outUse) && Mirrors()
      requires Unhindered(g0, g, ns, outUse)
      modifies this`blocks, this`g, this`done
      ensures Progress(g0, root, g, i + 1) && Finished(g0, root, levels, i + 1, 0, g, ns, edom, outUse) && Mirrors()
      ensures Unhindered(g0, g, ns, outUse) && (done ==> old(done) && g == old(g))
    {
      hide *;
      for k := 0 to |levels[i]|
        invariant Progress(g0, root, g, i + 1) && Finished(g0, root, levels, i, k, g, ns, edom, outUse) && Mirrors()
        invariant Unhindered(g0, g, ns, outUse) && (done ==> old(done) && g == old(g))
      {
        MoveBlock(levels, i, k);
      }
      FinishedUp(g0, root, levels, i, g, ns, edom, outUse);
    }

    /**
     The branch-moving half of opt_blks: both edges of every block, from level 1 up. Every run
     of the old graph that does not fault ends the same way in the new one, no edge is left that
     leads to a test decided on the way to it but for an atom in use, and no edge has moved past one.
     */
    method MoveBranches(level: seq<nat>, levels: seq<seq<nat>>)
      requires Analysed(t, g0, root, ns, shared, edom, outUse) && Progress(g0, root, g, 1) && Acyclic(g0) && root < |g0|
      requires Leveled(g0, root, levels) && |levels| == |level| == |g0| && level[root] == Level(g0, root) && Mirrors()
      requires g == g0
      modifies this`blocks, this`g, this`done
      ensures Acyclic(g) && SameBlocks(g0, g) && SameVerdicts(g0, g, root) && SelfContained(g, root, shared)
      ensures NothingDecided(g0, root, g, ns, outUse) && Unhindered(g0, g, ns, outUse)
      ensures (done ==> old(done) && g == old(g)) && Mirrors()
      ensures exists l :: Progress(g0, root, g, l)
    {
      hide *;
      LevelBound(g0, root);
      FinishedStart(g0, root, levels, g, ns, edom, outUse);
      UnhinderedStart(g0, ns, outUse);
      for i := 1 to level[root] + 1
        invariant Progress(g0, root, g, i) && Finished(g0, root, levels, i, 0, g, ns, edom, outUse) && Mirrors()
        invariant Unhindered(g0, g, ns, outUse) && (done ==> old(done) && g == old(g))
      {
        ProgressUp(g0, root, g, i);
        MoveLevel(levels, i);
      }
      ProgressVerdicts(g0, root, g, level[root] + 1);
      AnalysedSelfContained(t, g0, root, ns, shared, edom, outUse);
      ThreadedSelfContained(g0, root, g, level[root] + 1, shared);
      FinishedEnd(g0, root, levels, g, ns, edom, outUse);
      AllDecided(t, g0, root, g, level[root] + 1, ns, shared, edom, outUse);
    }
  }

  lemma AnalysedSelfContained(t: Table, g0: Graph, root: nat, ns: seq<Numbers>, shared: set<nat>, edom: seq<set<nat>>,
                              outUse: seq<set<nat>>)
    requires Analysed(t, g0, root, ns, shared, edom, outUse)
    ensures SelfContained(g0, root, shared)
  {
  }

  /** Moving branches leaves the blocks as they are and reaches no new ones. */
  lemma ThreadedSelfContained(g0: Graph, root: nat, g: Graph, l: nat, shared: set<nat>)
    requires Progress(g0, root, g, l) && SelfContained(g0, root, shared)
    ensures SameBlocks(g0, g) && SelfContained(g, root, shared)
  {
    forall x: nat, y: nat | x < |g0| && Reachable(g0, root, x) && Edge(g, x, y)
      ensures y < |g0| && Reachable(g0, root, y)
    {
      assert Settled(g0, root, l, x, g[x]);
    }
    forall x | 0 <= x < |g0| ensures SameBlock(g0[x], g[x]) {
      assert Settled(g0, root, l, x, g[x]);
    }
    SelfContainedKept(g0, g, root, shared);
  }

  lemma ProgressVerdicts(g0: Graph, root: nat, g: Graph, l: nat)
    requires Progress(g0, root, g, l)
    ensures Acyclic(g0) && root < |g0| && Acyclic(g) && |g| == |g0| && SameVerdicts(g0, g, root)
  {
  }
}
