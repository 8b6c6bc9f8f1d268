/**
 Which generated programs are self-contained. The tests of a condition must leave the registers
 that hold header lengths alone and set everything else they read; then the program that
 finish_parse closes, with the loads of the lengths in front, is self-contained.
 */
module Containment {
  import opened Machine
  import opened FlowGraph
  import opened Liveness
  import opened DeadStores
  import opened BlockNumbering
  import opened Fragments
  import Closing
  import opened Tracing

  lemma {:induction false} LiveBeforeConcat(s: seq<Stmt>, t: seq<Stmt>, out: set<nat>)
    ensures LiveBefore(s + t, out) == LiveBefore(s, LiveBefore(t, out))
    ensures Writes(s + t) == Writes(s) + Writes(t)
  {
    if s == [] {
      assert s + t == t;
    } else {
      assert (s + t)[1..] == s[1..] + t;
      LiveBeforeConcat(s[1..], t, out);
    }
  }

  lemma LiveBeforeOne(s: Stmt, out: set<nat>)
    ensures LiveBefore([s], out) == (out - Defs(s)) + Uses(s) && Writes([s]) == Defs(s)
  {
    assert [s][1..] == [];
    assert Writes([s]) == Defs(s) + {};
  }

  lemma LiveBeforeTwo(s: Stmt, t: Stmt, out: set<nat>)
    ensures LiveBefore([s, t], out) == (((out - Defs(t)) + Uses(t)) - Defs(s)) + Uses(s)
    ensures Writes([s, t]) == Defs(s) + Defs(t)
  {
    assert [s, t][1..] == [t];
    LiveBeforeOne(t, out);
  }

  /** Every test of the condition sets what it reads, the shared atoms apart, and does not touch those. */
  predicate AllContained(e: Cond, shared: set<nat>) {
    match e
    case Prim(ss, t) => Contained(Br(ss, t, 0, 0), shared)
    case And(a, b) => AllContained(a, shared) && AllContained(b, shared)
    case Or(a, b) => AllContained(a, shared) && AllContained(b, shared)
    case Not(a) => AllContained(a, shared)
  }

  /** The prefix sets the shared atoms, out of nothing but the packet. */
  predicate Sets(prefix: seq<Stmt>, shared: set<nat>) {
    LiveBefore(prefix, shared) == {} && shared <= Writes(prefix)
  }

  predicate TestContained(test: (seq<Stmt>, Test), shared: set<nat>) {
    Contained(Br(test.0, test.1, 0, 0), shared)
  }

  /** Every test of the list is contained. */
  predicate EachContained(ts: seq<(seq<Stmt>, Test)>, shared: set<nat>) {
    forall k :: 0 <= k < |ts| ==> TestContained(ts[k], shared)
  }

  lemma AllTestsContained(e: Cond, shared: set<nat>)
    ensures AllContained(e, shared) <==> forall k :: 0 <= k < |Tests(e)| ==> TestContained(Tests(e)[k], shared)
  {
    EachTestContained(e, shared);
  }

  lemma {:induction false} EachTestContained(e: Cond, shared: set<nat>)
    ensures AllContained(e, shared) <==> EachContained(Tests(e), shared)
  {
    match e
    case Prim(ss, t) =>
      OneTest(ss, t, shared);
    case And(a, b) =>
      EachTestContained(a, shared);
      EachTestContained(b, shared);
      BothTests(Tests(a), Tests(b), shared);
      assert Tests(e) == Tests(a) + Tests(b);
    case Or(a, b) =>
      EachTestContained(a, shared);
      EachTestContained(b, shared);
      BothTests(Tests(a), Tests(b), shared);
      assert Tests(e) == Tests(a) + Tests(b);
    case Not(a) =>
      EachTestContained(a, shared);
      assert Tests(e) == Tests(a);
  }

  lemma OneTest(ss: seq<Stmt>, t: Test, shared: set<nat>)
    ensures Tests(Prim(ss, t)) == [(ss, t)] && (AllContained(Prim(ss, t), shared) <==> TestContained((ss, t), shared))
    ensures EachContained(Tests(Prim(ss, t)), shared) <==> TestContained((ss, t), shared)
  {
    var s := Tests(Prim(ss, t));
    assert |s| == 1 && s[0] == (ss, t);
  }

  lemma BothTests(s: seq<(seq<Stmt>, Test)>, t: seq<(seq<Stmt>, Test)>, shared: set<nat>)
    ensures EachContained(s + t, shared) <==> EachContained(s, shared) && EachContained(t, shared)
  {
    assert forall k :: 0 <= k < |s| ==> (s + t)[k] == s[k];
    assert forall k :: 0 <= k < |t| ==> t[k] == (s + t)[|s| + k];
  }

  /** The first test, the prefix before it, reads only what is set and sets what is shared; the others are contained. */
  predicate ProgramContained(prefix: seq<Stmt>, e: Cond, shared: set<nat>) {
    && Inherits(Br(prefix + Tests(e)[0].0, Tests(e)[0].1, 0, 0)) == {}
    && shared <= Writes(prefix + Tests(e)[0].0)
    && forall k :: 0 < k < |Tests(e)| ==> TestContained(Tests(e)[k], shared)
  }

  /** That is so when the prefix sets what is shared and every test keeps to its registers. */
  lemma KeptApart(prefix: seq<Stmt>, e: Cond, shared: set<nat>)
    requires AllContained(e, shared) && Sets(prefix, shared)
    ensures ProgramContained(prefix, e, shared)
  {
    AllTestsContained(e, shared);
    var (ss, t) := Tests(e)[0];
    assert TestContained(Tests(e)[0], shared);
    LiveBeforeConcat(prefix, ss, TestUses(t));
    LiveBeforeMonotone(prefix, LiveBefore(ss, TestUses(t)), shared);
  }

  /** Which programs that finish_parse closes are self-contained. */
  lemma GeneratedSelfContained(bs: Arena, program: seq<nat>, root: nat, prefix: seq<Stmt>, e: Cond, shared: set<nat>)
    requires MadeFrom(bs, program, root, prefix, e) && Distinct(program)
    ensures SelfContained(Closing.ToGraph(bs, program), root, shared) <==> ProgramContained(prefix, e, shared)
  {
    var g, n := Closing.ToGraph(bs, program), |Tests(e)|;
    forall k | 0 <= k < n
      ensures program[k] < |g| && (k > 0 ==> program[k] != root)
      ensures Inherits(g[program[k]]) ==
        Inherits(Br((if k == 0 then prefix else []) + Tests(e)[k].0, Tests(e)[k].1, 0, 0))
      ensures g[program[k]].stmts == (if k == 0 then prefix else []) + Tests(e)[k].0
    {
      assert program[k] in program && MadeAt(bs[program[k]], if k == 0 then prefix else [], Tests(e)[k]);
    }
    forall k | 0 < k < n
      ensures Reachable(g, root, program[k])
      ensures Contained(g[program[k]], shared) <==> TestContained(Tests(e)[k], shared)
    {
      assert [] + Tests(e)[k].0 == Tests(e)[k].0;
    }
    forall b: nat | b < |g| && (b !in program || Returns(bs[b])) ensures Contained(g[b], shared) {
    }
    if ProgramContained(prefix, e, shared) {
      forall b: nat | b < |g| && b != root && b in program ensures Contained(g[b], shared) {
        var k :| 0 <= k < |program| && program[k] == b;
        if k >= n {
          assert Returns(bs[program[k]]);
        }
      }
    }
    if SelfContained(g, root, shared) {
      forall k | 0 < k < n ensures TestContained(Tests(e)[k], shared) {
      }
    }
  }

  /** No test of the condition reads an atom it has not set, and none writes a scratch word. */
  predicate Scratchless(e: Cond) {
    match e
    case Prim(ss, t) => Inherits(Br(ss, t, 0, 0)) == {} && forall a :: a in Writes(ss) ==> a >= MEMWORDS
    case And(a, b) => Scratchless(a) && Scratchless(b)
    case Or(a, b) => Scratchless(a) && Scratchless(b)
    case Not(a) => Scratchless(a)
  }

  /** Such a condition can stand beside any use of the scratch words. */
  lemma {:induction false} ScratchlessContained(e: Cond, shared: set<nat>)
    requires Scratchless(e) && forall a :: a in shared ==> a < MEMWORDS
    ensures AllContained(e, shared)
  {
    match e
    case Prim(_, _) =>
    case And(a, b) => ScratchlessContained(a, shared); ScratchlessContained(b, shared);
    case Or(a, b) => ScratchlessContained(a, shared); ScratchlessContained(b, shared);
    case Not(a) => ScratchlessContained(a, shared);
  }
}
