/**
 Which block of a piece of code is which test of its condition. The blocks, in their order, are the
 tests from left to right, and every block but the first is entered from one before it, so that in
 the finished program nothing is missing and nothing is out of reach.
 */
module Tracing {
  import opened Machine
  import opened FlowGraph
  import opened Fragments
  import opened Closing

  /** The tests of a condition from left to right, each with the statements before it. */
  function Tests(e: Cond): (s: seq<(seq<Stmt>, Test)>)
    ensures s != []
  {
    match e
    case Prim(ss, t) => [(ss, t)]
    case And(a, b) => Tests(a) + Tests(b)
    case Or(a, b) => Tests(a) + Tests(b)
    case Not(a) => Tests(a)
  }

  predicate MadeFor(bs: Arena, i: nat, test: (seq<Stmt>, Test)) {
    i < |bs| && bs[i].exit == Jmp(test.1) && bs[i].stmts == test.0
  }

  /** The k-th block of the piece is entered, by an edge already set, from one before it. */
  ghost predicate Entered(bs: Arena, f: Frag, k: nat)
    requires k < |f.ids|
  {
    exists j, side :: 0 <= j < k && EntersFrom(bs, f, j, side, f.ids[k])
  }

  predicate EntersFrom(bs: Arena, f: Frag, j: nat, side: bool, c: nat)
    requires j < |f.ids|
  {
    f.ids[j] < |bs| && StatusOf(bs, f, f.ids[j], side).Resolved? && Field(bs[f.ids[j]], side) == To(c)
  }

  ghost predicate Traced(bs: Arena, f: Frag) {
    && |f.ids| == |Tests(f.e)|
    && (forall k :: 0 <= k < |f.ids| ==> MadeFor(bs, f.ids[k], Tests(f.e)[k]))
    && (forall k :: 0 < k < |f.ids| ==> Entered(bs, f, k))
  }

  lemma SingleTraced(bs: Arena, b: nat, stmts: seq<Stmt>, test: Test)
    requires b < |bs| && bs[b] == Slot(stmts, Jmp(test), false, b, Null, Null)
    ensures Traced(bs, Single(b, stmts, test))
  {
  }

  lemma TracedFrame(bs: Arena, bs': Arena, f: Frag)
    requires Traced(bs, f) && |bs| <= |bs'| && forall i :: i in f.ids && i < |bs| ==> bs'[i] == bs[i]
    ensures Traced(bs', f)
  {
    forall k | 0 <= k < |f.ids| ensures MadeFor(bs', f.ids[k], Tests(f.e)[k]) {
      assert MadeFor(bs, f.ids[k], Tests(f.e)[k]) && f.ids[k] in f.ids;
    }
    forall k | 0 < k < |f.ids| ensures Entered(bs', f, k) {
      assert Entered(bs, f, k);
      var j, side :| 0 <= j < k && EntersFrom(bs, f, j, side, f.ids[k]);
      assert f.ids[j] in f.ids && EntersFrom(bs', f, j, side, f.ids[k]);
    }
  }

  lemma NotTraced(bs: Arena, f: Frag)
    requires Shaped(bs, f) && Traced(bs, f)
    ensures Traced(Flipped(bs, Top(f)), Negated(f))
  {
    var r, f' := Flipped(bs, Top(f)), Negated(f);
    forall k | 0 <= k < |f'.ids| ensures MadeFor(r, f'.ids[k], Tests(f'.e)[k]) {
      assert MadeFor(bs, f.ids[k], Tests(f.e)[k]);
    }
    forall k | 0 < k < |f'.ids| ensures Entered(r, f', k) {
      assert Entered(bs, f, k);
      var j, side :| 0 <= j < k && EntersFrom(bs, f, j, side, f.ids[k]);
      NotStatus(bs, f, f.ids[j], side);
      assert EntersFrom(r, f', j, side, f'.ids[k]);
    }
  }

  /** What is entered in one of two joined pieces still is, and the second one is entered from the first. */
  lemma AndEntered(bs: Arena, f0: Frag, f1: Frag, k: nat)
    requires Shaped(bs, f0) && Shaped(bs, f1) && Disjoint(f0, f1)
    requires Traced(bs, f0) && Traced(bs, f1) && 0 < k < |f0.ids| + |f1.ids|
    ensures Entered(AndArena(bs, f0, f1), Joined(f0, f1), k)
  {
    hide IsList, Distinct, EdgesForward, AndArena, StatusOf;
    var r, f, n := AndArena(bs, f0, f1), Joined(f0, f1), |f0.ids|;
    AndSize(bs, f0, f1);
    if k < n {
      assert Entered(bs, f0, k);
      var j, side :| 0 <= j < k && EntersFrom(bs, f0, j, side, f0.ids[k]);
      ApartFrom(f0, f1, f0.ids[j]);
      AndStatus(bs, f0, f1, f0.ids[j], side);
      assert EntersFrom(r, f, j, side, f.ids[k]);
    } else if k == n {
      TopOpen(bs, f0);
      ApartFrom(f0, f1, Top(f0));
      AndStatus(bs, f0, f1, Top(f0), bs[Top(f0)].sense);
      assert f.ids[n - 1] == Top(f0) && EntersFrom(r, f, n - 1, bs[Top(f0)].sense, f.ids[k]);
    } else {
      assert Entered(bs, f1, k - n);
      var j, side :| 0 <= j < k - n && EntersFrom(bs, f1, j, side, f1.ids[k - n]);
      AndStatus(bs, f0, f1, f1.ids[j], side);
      assert f.ids[n + j] == f1.ids[j] && f.ids[k] == f1.ids[k - n];
      assert EntersFrom(r, f, n + j, side, f.ids[k]);
    }
  }

  lemma TopOpen(bs: Arena, f: Frag)
    requires Shaped(bs, f)
    ensures Top(f) < |bs| && Top(f) in f.ids && StatusOf(bs, f, Top(f), bs[Top(f)].sense).OpenTrue?
  {
  }

  lemma AndTraced(bs: Arena, f0: Frag, f1: Frag)
    requires Shaped(bs, f0) && Shaped(bs, f1) && Disjoint(f0, f1) && Traced(bs, f0) && Traced(bs, f1)
    ensures Traced(AndArena(bs, f0, f1), Joined(f0, f1))
  {
    hide Shaped, AndArena;
    var r, f, n := AndArena(bs, f0, f1), Joined(f0, f1), |f0.ids|;
    forall k | 0 <= k < |f.ids| ensures MadeFor(r, f.ids[k], Tests(f.e)[k]) {
      assert if k < n then MadeFor(bs, f0.ids[k], Tests(f0.e)[k]) else MadeFor(bs, f1.ids[k - n], Tests(f1.e)[k - n]);
      AndSlots(bs, f0, f1, f.ids[k]);
    }
    forall k | 0 < k < |f.ids| ensures Entered(r, f, k) {
      AndEntered(bs, f0, f1, k);
    }
  }

  lemma OrTraced(bs: Arena, f0: Frag, f1: Frag)
    requires Good(bs, f0) && Good(bs, f1) && Disjoint(f0, f1) && Traced(bs, f0) && Traced(bs, f1)
    ensures Shaped(bs, f0) && Shaped(bs, f1) && Traced(OrArena(bs, f0, f1), Either(f0, f1))
  {
    hide *;
    GoodShaped(bs, f0);
    GoodShaped(bs, f1);
    ShapedBasics(bs, f0);
    ShapedBasics(bs, f1);
    NegatedPair(bs, f0, f1);
    var s0 := Flipped(bs, Top(f0));
    var s := Flipped(s0, Top(f1));
    OrNegated(bs, f0, f1);
    GoodShaped(s, Negated(f0));
    GoodShaped(s, Negated(f1));
    NotTraced(bs, f0);
    TracedFrame(bs, s0, f1);
    NotGood(bs, f0);
    GoodFrame(bs, s0, f1);
    GoodShaped(s0, f1);
    NotTraced(s0, f1);
    TracedFrame(s0, s, Negated(f0));
    AndTraced(s, Negated(f0), Negated(f1));
    AndGood(s, Negated(f0), Negated(f1));
    var j := Joined(Negated(f0), Negated(f1));
    GoodShaped(AndArena(s, Negated(f0), Negated(f1)), j);
    ShapedBasics(AndArena(s, Negated(f0), Negated(f1)), j);
    NotTraced(AndArena(s, Negated(f0), Negated(f1)), j);
    OrAsAnd(bs, f0, f1);
    TracedEither(OrArena(bs, f0, f1), f0, f1);
  }

  /** The pieces of a disjunction, negated: their blocks, and what flipping their top blocks leaves alone. */
  lemma NegatedPair(bs: Arena, f0: Frag, f1: Frag)
    requires f0.ids != [] && f1.ids != [] && Disjoint(f0, f1) && Top(f0) in f0.ids && Top(f1) in f1.ids
    requires Top(f0) < |bs| && Top(f1) < |bs|
    ensures Disjoint(Negated(f0), Negated(f1)) && Negated(f0).ids != [] && Negated(f1).ids != []
    ensures Top(Negated(f0)) == Top(f0) && Top(Negated(f1)) == Top(f1)
    ensures Joined(Negated(f0), Negated(f1)).ids != [] && Top(Joined(Negated(f0), Negated(f1))) == Top(f1)
    ensures |Flipped(bs, Top(f0))| == |bs| == |Flipped(Flipped(bs, Top(f0)), Top(f1))|
    ensures forall i :: i in f1.ids && i < |bs| ==> Flipped(bs, Top(f0))[i] == bs[i]
    ensures forall i :: i in Negated(f0).ids && i < |bs| ==>
      Flipped(Flipped(bs, Top(f0)), Top(f1))[i] == Flipped(bs, Top(f0))[i]
  {
  }

  lemma TracedEither(bs: Arena, f0: Frag, f1: Frag)
    requires Traced(bs, Negated(Joined(Negated(f0), Negated(f1))))
    ensures Traced(bs, Either(f0, f1))
  {
    var j, f := Negated(Joined(Negated(f0), Negated(f1))), Either(f0, f1);
    assert Tests(Not(f0.e)) == Tests(f0.e) && Tests(Not(f1.e)) == Tests(f1.e);
    assert j.ids == f.ids && j.ts == f.ts && j.fs == f.fs && Tests(j.e) == Tests(f.e);
    forall k | 0 < k < |f.ids| ensures Entered(bs, f, k) {
      assert Entered(bs, j, k);
      var i, side :| 0 <= i < k && EntersFrom(bs, j, i, side, j.ids[k]);
      assert EntersFrom(bs, f, i, side, f.ids[k]);
    }
  }

  // ----- the finished program -----

  /** A block of the program, made for a test that it is to come to after the prefix. */
  predicate MadeAt(s: Slot, prefix: seq<Stmt>, test: (seq<Stmt>, Test)) {
    s.exit == Jmp(test.1) && s.stmts == prefix + test.0
  }

  /**
   A finished program for e: the tests of e from left to right, the prefix standing in front of the
   first, and two returns of constants. Every test can be come to.
   */
  ghost predicate MadeFrom(bs: Arena, program: seq<nat>, root: nat, prefix: seq<Stmt>, e: Cond) {
    && |program| == |Tests(e)| + 2 && program[0] == root
    && (forall k :: 0 <= k < |program| ==> program[k] < |bs|)
    && (forall k :: 0 <= k < |Tests(e)| ==> MadeAt(bs[program[k]], if k == 0 then prefix else [], Tests(e)[k]))
    && (forall k :: |Tests(e)| <= k < |program| ==> Returns(bs[program[k]]))
    && (forall k :: 0 <= k < |Tests(e)| ==> Reachable(ToGraph(bs, program), root, program[k]))
  }

  predicate Returns(s: Slot) {
    s.exit.Done? && s.exit.rv.RetK? && s.stmts == []
  }

  /** A resolved edge of the piece is an edge of the program. */
  lemma FinalEnters(bs: Arena, f: Frag, prefix: seq<Stmt>, snaplen: u32, j: nat, side: bool, c: nat)
    requires Shaped(bs, f) && j < |f.ids| && EntersFrom(bs, f, j, side, c)
    ensures Edge(FinalGraph(bs, f, prefix, snaplen), f.ids[j], c)
  {
    hide Shaped, FinalGraph, StatusOf;
    ShapedBasics(bs, f);
    FinalBlockIs(bs, f, prefix, snaplen, f.ids[j]);
    ResolvedTarget(bs, f, f.ids[j], side);
  }

  lemma FinalBlockIs(bs: Arena, f: Frag, prefix: seq<Stmt>, snaplen: u32, i: nat)
    requires Shaped(bs, f) && i in f.ids
    ensures var g := FinalGraph(bs, f, prefix, snaplen);
      && i < |bs| && |g| == |bs| + 2 && g[i].Br?
      && g[i].jt == Target(bs, f, i, false, |bs|, |bs| + 1) && g[i].jf == Target(bs, f, i, true, |bs|, |bs| + 1)
  {
    FinalBlock(bs, f, prefix, snaplen, i);
  }

  lemma {:induction false} FinalReached(bs: Arena, f: Frag, prefix: seq<Stmt>, snaplen: u32, k: nat)
    requires Shaped(bs, f) && Traced(bs, f) && k < |f.ids|
    ensures Reachable(FinalGraph(bs, f, prefix, snaplen), f.ids[0], f.ids[k])
  {
    var g := FinalGraph(bs, f, prefix, snaplen);
    hide Shaped, FinalGraph, EntersFrom, Reachable;
    ShapedBasics(bs, f);
    FinalAcyclic(bs, f, prefix, snaplen);
    if k == 0 {
      ReachableSelf(g, f.ids[0]);
    } else {
      assert Entered(bs, f, k);
      var j, side :| 0 <= j < k && EntersFrom(bs, f, j, side, f.ids[k]);
      FinalReached(bs, f, prefix, snaplen, j);
      FinalEnters(bs, f, prefix, snaplen, j, side, f.ids[k]);
      ReachableStep(g, f.ids[0], f.ids[j], f.ids[k]);
    }
  }

  lemma FinalMade(bs: Arena, f: Frag, prefix: seq<Stmt>, snaplen: u32)
    requires Shaped(bs, f) && Traced(bs, f)
    ensures MadeFrom(FinalArena(bs, f, prefix, snaplen), ProgramOf(bs, f), f.ids[0], prefix, f.e)
  {
    hide Shaped, FinalArena, Reachable, Entered;
    var r, q, n := FinalArena(bs, f, prefix, snaplen), ProgramOf(bs, f), |f.ids|;
    ShapedBasics(bs, f);
    FinalReturns(bs, f, prefix, snaplen);
    assert q[n] == |bs| && q[n + 1] == |bs| + 1;
    forall k | 0 <= k < n
      ensures q[k] < |r| && MadeAt(r[q[k]], if k == 0 then prefix else [], Tests(f.e)[k])
      ensures Reachable(ToGraph(r, q), f.ids[0], q[k])
    {
      FinalKept(bs, f, prefix, snaplen, f.ids[k]);
      assert MadeFor(bs, f.ids[k], Tests(f.e)[k]);
      assert [] + bs[f.ids[k]].stmts == bs[f.ids[k]].stmts;
      FirstOnce(bs, f, k);
      FinalReached(bs, f, prefix, snaplen, k);
    }
  }

  lemma FirstOnce(bs: Arena, f: Frag, k: nat)
    requires Shaped(bs, f) && k < |f.ids|
    ensures f.ids[k] == f.ids[0] <==> k == 0
  {
  }
}
