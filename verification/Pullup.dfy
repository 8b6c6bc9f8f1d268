/**
 Test pull-up. Along a chain of tests that all leave for the same block on one side, a test of
 the value the predecessors have already loaded is moved in front of the tests of another value.
 The two passes are one: or_pullup works on chains that share their true exit, and_pullup on
 chains that share their false exit.
 */
module Pullup {
  import opened Machine
  import opened FlowGraph
  import opened Levels
  import opened Dominators
  import opened EdgeDominators
  import opened Liveness
  import opened BlockNumbering
  import opened NumberingPass
  import opened DeadStores

  // ----- what blocks below the root do depends on the state the root leaves only -----

  /** The verdict from block b on when every block starts from the state x. */
  ghost function Go(g: Graph, b: nat, x: Regs, p: Packet): Verdict
    requires Acyclic(g) && b < |g|
    decreases RankOf(g)[b]
  {
    var m := RunStmts(g[b].stmts, x, p);
    if m.None? then Fault
    else match g[b]
      case Ret(_, rv) => Return(if rv.RetK? then rv.k else m.value[A_ATOM])
      case Br(_, t, jt, jf) => Go(g, if Taken(t, m.value) then jt else jf, x, p)
  }

  lemma {:induction false} GoIsRun(g: Graph, root: nat, shared: set<nat>, b: nat, r: Regs, x: Regs, p: Packet)
    requires Acyclic(g) && SelfContained(g, root, shared) && b < |g| && b != root && Reachable(g, root, b)
    requires Agree(r, x, shared)
    ensures Run(g, b, r, p) == Go(g, b, x, p)
    decreases RankOf(g)[b]
  {
    ContainedRuns(g[b], shared, r, x, p);
    var m, n := RunStmts(g[b].stmts, r, p), RunStmts(g[b].stmts, x, p);
    if m.Some? {
      assert g[b].Ret? && g[b].rv.RetA? ==> A_ATOM in EndUses(g[b]);
      if g[b].Br? {
        assert A_ATOM in TestUses(g[b].test);
        assert Taken(g[b].test, m.value) == Taken(g[b].test, n.value);
        var c := if Taken(g[b].test, m.value) then g[b].jt else g[b].jf;
        NextReachable(g, root, b, c);
        WritesOnly(g[b].stmts, r, p);
        GoIsRun(g, root, shared, c, m.value, x, p);
      }
    }
  }

  lemma NextReachable(g: Graph, root: nat, b: nat, c: nat)
    requires Acyclic(g) && root < |g| && Reachable(g, root, b) && Edge(g, b, c)
    ensures c < |g| && Reachable(g, root, c) && c != root && Level(g, c) < Level(g, b)
  {
    assert Ranked(g, RankOf(g));
    ReachableStep(g, root, b, c);
    NotAboveRoot(g, root, b);
  }

  /** The run from b on, every block starting from x, comes to block c. */
  ghost predicate GoVisits(g: Graph, b: nat, c: nat, x: Regs, p: Packet)
    requires Acyclic(g) && b < |g|
    decreases RankOf(g)[b]
  {
    b == c
    || (var m := RunStmts(g[b].stmts, x, p);
        m.Some? && g[b].Br? && GoVisits(g, if Taken(g[b].test, m.value) then g[b].jt else g[b].jf, c, x, p))
  }

  lemma {:induction false} GoVisitsIsVisits(g: Graph, root: nat, shared: set<nat>, b: nat, c: nat, r: Regs, x: Regs,
          p: Packet)
    requires Acyclic(g) && SelfContained(g, root, shared) && b < |g| && b != root && Reachable(g, root, b)
    requires Agree(r, x, shared)
    ensures Visits(g, b, c, r, p) == GoVisits(g, b, c, x, p)
    decreases RankOf(g)[b]
  {
    ContainedRuns(g[b], shared, r, x, p);
    var m, n := RunStmts(g[b].stmts, r, p), RunStmts(g[b].stmts, x, p);
    if m.Some? && g[b].Br? {
      assert A_ATOM in TestUses(g[b].test);
      assert Taken(g[b].test, m.value) == Taken(g[b].test, n.value);
      var next := if Taken(g[b].test, m.value) then g[b].jt else g[b].jf;
      NextReachable(g, root, b, next);
      WritesOnly(g[b].stmts, r, p);
      GoVisitsIsVisits(g, root, shared, next, c, m.value, x, p);
    }
  }

  // ----- chains -----

  /** The exit all tests of a chain share, and the one that leads on along it. */
  function Share(b: Block, side: bool): nat
    requires b.Br?
  {
    if side then b.jt else b.jf
  }

  function Next(b: Block, side: bool): nat
    requires b.Br?
  {
    if side then b.jf else b.jt
  }

  function WithNext(b: Block, side: bool, c: nat): (r: Block)
    requires b.Br?
    ensures r.Br? && Share(r, side) == Share(b, side) && Next(r, side) == c && r.stmts == b.stmts && r.test == b.test
  {
    if side then Br(b.stmts, b.test, b.jt, c) else Br(b.stmts, b.test, c, b.jf)
  }

  /** A test of the chain that starts at b: reached through b only, with the same shared exit. */
  ghost predicate OnChain(g: Graph, root: nat, side: bool, b: nat, c: nat)
    requires b < |g| && g[b].Br?
  {
    && c < |g| && g[c].Br? && Share(g[c], side) == Share(g[b], side)
    && Reachable(g, root, c) && Dominates(g, root, b, c)
  }

  ghost predicate Chain(g: Graph, root: nat, side: bool, ch: seq<nat>) {
    && ch != [] && ch[0] < |g| && g[ch[0]].Br?
    && (forall i :: 0 <= i < |ch| ==> OnChain(g, root, side, ch[0], ch[i]))
    && (forall i :: 0 <= i < |ch| - 1 ==> ch[i + 1] == Next(g[ch[i]], side))
  }

  lemma ChainStart(g: Graph, root: nat, side: bool, b: nat)
    requires b < |g| && g[b].Br? && Reachable(g, root, b)
    ensures Chain(g, root, side, [b])
  {
    assert OnChain(g, root, side, b, b);
  }

  lemma ChainMore(g: Graph, root: nat, side: bool, ch: seq<nat>, c: nat)
    requires Chain(g, root, side, ch) && ch[|ch| - 1] < |g| && g[ch[|ch| - 1]].Br? && c == Next(g[ch[|ch| - 1]], side)
    requires OnChain(g, root, side, ch[0], c)
    ensures Chain(g, root, side, ch + [c])
  {
    var ch' := ch + [c];
    forall i | 0 <= i < |ch'| ensures OnChain(g, root, side, ch'[0], ch'[i]) {
      assert i < |ch| ==> OnChain(g, root, side, ch[0], ch[i]);
    }
  }

  lemma ChainAt(g: Graph, root: nat, side: bool, ch: seq<nat>, i: nat)
    requires Acyclic(g) && Chain(g, root, side, ch) && i < |ch|
    ensures ch[0] < |g| && g[ch[0]].Br? && ch[i] < |g| && g[ch[i]].Br? && Share(g[ch[i]], side) == Share(g[ch[0]], side)
    ensures Reachable(g, root, ch[i]) && Dominates(g, root, ch[0], ch[i])
    ensures Share(g[ch[i]], side) < |g| && Next(g[ch[i]], side) < |g|
    ensures Level(g, Share(g[ch[i]], side)) < Level(g, ch[i]) && Level(g, Next(g[ch[i]], side)) < Level(g, ch[i])
    ensures i + 1 < |ch| ==> ch[i + 1] == Next(g[ch[i]], side)
  {
    assert OnChain(g, root, side, ch[0], ch[i]);
    assert Ranked(g, RankOf(g));
  }

  lemma {:induction false} ChainFalls(g: Graph, root: nat, side: bool, ch: seq<nat>, i: nat, j: nat)
    requires Acyclic(g) && Chain(g, root, side, ch) && i < j < |ch|
    ensures ch[i] < |g| && ch[j] < |g| && Level(g, ch[j]) < Level(g, ch[i])
    decreases j - i
  {
    ChainAt(g, root, side, ch, j - 1);
    if i < j - 1 {
      ChainFalls(g, root, side, ch, i, j - 1);
    }
  }

  /** A path from one test of the chain to a later one stays on the chain. */
  lemma {:induction false} OnlyAlongChain(g: Graph, root: nat, side: bool, ch: seq<nat>, i: nat, j: nat, path: seq<nat>)
    requires Acyclic(g) && Chain(g, root, side, ch) && i < j < |ch|
    requires IsPath(g, path) && path[0] == ch[i] && path[|path| - 1] == ch[j]
    ensures |path| > 1 && path[|path| - 2] == ch[j - 1]
    decreases |path|
  {
    ChainAt(g, root, side, ch, i);
    ChainAt(g, root, side, ch, j);
    ChainFalls(g, root, side, ch, i, j);
    assert |path| > 1 && Edge(g, path[0], path[1]);
    var rest := path[1..];
    assert rest[|rest| - 1] == ch[j];
    LevelFalls(g, path[1], rest);
    assert path[1] == ch[i + 1];
    if i + 1 < j {
      OnlyAlongChain(g, root, side, ch, i + 1, j, rest);
    } else if |rest| > 1 {
      assert false;
    }
  }

  /** The only way to a later test of the chain is from the one before it. */
  lemma SinglePredecessor(g: Graph, root: nat, side: bool, ch: seq<nat>, j: nat, a: nat)
    requires Acyclic(g) && root < |g| && Chain(g, root, side, ch) && 0 < j < |ch|
    requires Reachable(g, root, a) && Edge(g, a, ch[j])
    ensures a == ch[j - 1] && a < |g| && g[a].Br? && Share(g[a], side) != ch[j] && Next(g[a], side) == ch[j]
  {
    var path :| PathTo(g, root, a, path);
    ChainAt(g, root, side, ch, j);
    ChainAt(g, root, side, ch, j - 1);
    ChainFalls(g, root, side, ch, 0, j);
    var whole := path + [ch[j]];
    assert PathTo(g, root, ch[j], whole);
    assert ch[0] in whole;
    var k :| 0 <= k < |path| && path[k] == ch[0];
    var tail := whole[k..];
    assert IsPath(g, tail) && tail[|tail| - 1] == ch[j];
    OnlyAlongChain(g, root, side, ch, 0, j, tail);
    assert tail[|tail| - 2] == a;
  }

  // ----- the rewritten graph -----

  /** Block b with its edges to d sent to s. */
  function Redirected(b: Block, d: nat, s: nat): (r: Block) {
    match b
    case Ret(_, _) => b
    case Br(ss, t, jt, jf) => Br(ss, t, if jt == d then s else jt, if jf == d then s else jf)
  }

  /**
   Test s is taken out of the chain, where it followed q, and put in front of d: q goes on where
   s went on, s goes on to d, and every edge from a reachable block to d now leads to s.
   */
  ghost function Pulled(g: Graph, root: nat, side: bool, d: nat, q: nat, s: nat): (r: Graph)
    requires q < |g| && s < |g| && g[q].Br? && g[s].Br?
    ensures |r| == |g|
  {
    seq(|g|, x requires 0 <= x < |g| =>
      if x == s then WithNext(g[s], side, d)
      else if x == q then WithNext(g[q], side, Next(g[s], side))
      else if Reachable(g, root, x) then Redirected(g[x], d, s)
      else g[x])
  }

  /** ch[k..] is the part of the chain that changes: its last test is pulled up before ch[k]. */
  ghost predicate CanPull(g: Graph, root: nat, side: bool, ch: seq<nat>, k: nat) {
    Acyclic(g) && root < |g| && Chain(g, root, side, ch) && k < |ch| - 1
  }

  ghost function PulledChain(g: Graph, root: nat, side: bool, ch: seq<nat>, k: nat): (r: Graph)
    requires CanPull(g, root, side, ch, k)
    ensures |r| == |g|
  {
    ChainAt(g, root, side, ch, |ch| - 1);
    ChainAt(g, root, side, ch, |ch| - 2);
    Pulled(g, root, side, ch[k], ch[|ch| - 2], ch[|ch| - 1])
  }

  lemma PulledSameBlocks(g: Graph, root: nat, side: bool, ch: seq<nat>, k: nat)
    requires CanPull(g, root, side, ch, k)
    ensures SameBlocks(g, PulledChain(g, root, side, ch, k))
  {
  }

  /** The ranks after a pull: the pulled test comes just above the test it was put before. */
  ghost function PulledRank(g: Graph, root: nat, d: nat, s: nat): (r: seq<nat>)
    requires Acyclic(g) && d < |g|
    ensures |r| == |g|
  {
    seq(|g|, x requires 0 <= x < |g| =>
      if x == s then 2 * Level(g, d) + 1
      else if Reachable(g, root, x) then 2 * Level(g, x)
      else 2 * Level(g, x) + 2 * |g| + 2)
  }

  lemma PulledRankFalls(g: Graph, root: nat, side: bool, ch: seq<nat>, k: nat, x: nat, c: nat)
    requires CanPull(g, root, side, ch, k) && x < |g|
    requires Edge(PulledChain(g, root, side, ch, k), x, c)
    ensures ch[k] < |g| && c < |g|
    ensures PulledRank(g, root, ch[k], ch[|ch| - 1])[c] < PulledRank(g, root, ch[k], ch[|ch| - 1])[x]
  {
    hide *;
    PullParts(g, root, side, ch, k);
    var d, q, s := ch[k], ch[|ch| - 2], ch[|ch| - 1];
    ChainAt(g, root, side, ch, k);
    ChainAt(g, root, side, ch, |ch| - 2);
    ChainAt(g, root, side, ch, |ch| - 1);
    LevelBound(g, d);
    RankAt(g, root, d, s, x);
    if x == s || x == q {
      PulledOwnEdges(g, root, side, ch, k, x, c);
      if x == q {
        ChainFalls(g, root, side, ch, |ch| - 2, |ch| - 1);
      }
    } else if Reachable(g, root, x) {
      PulledOtherEdges(g, root, side, ch, k, x, c);
    } else {
      PulledElsewhere(g, root, side, ch, k, x, c);
    }
    RankAt(g, root, d, s, c);
  }

  lemma PullParts(g: Graph, root: nat, side: bool, ch: seq<nat>, k: nat)
    requires CanPull(g, root, side, ch, k)
    ensures Acyclic(g) && root < |g| && Chain(g, root, side, ch) && k < |ch| - 1
  {
  }

  lemma RankAt(g: Graph, root: nat, d: nat, s: nat, x: nat)
    requires Acyclic(g) && d < |g| && x < |g|
    ensures |PulledRank(g, root, d, s)| == |g|
    ensures PulledRank(g, root, d, s)[x] ==
      if x == s then 2 * Level(g, d) + 1
      else if Reachable(g, root, x) then 2 * Level(g, x)
      else 2 * Level(g, x) + 2 * |g| + 2
  {
  }

  /** Blocks that no run reaches keep their edges. */
  lemma PulledElsewhere(g: Graph, root: nat, side: bool, ch: seq<nat>, k: nat, x: nat, c: nat)
    requires CanPull(g, root, side, ch, k) && x < |g| && !Reachable(g, root, x)
    requires Edge(PulledChain(g, root, side, ch, k), x, c)
    ensures c < |g| && Level(g, c) < Level(g, x)
  {
    ChainAt(g, root, side, ch, |ch| - 2);
    ChainAt(g, root, side, ch, |ch| - 1);
    assert Ranked(g, RankOf(g)) && Edge(g, x, c);
  }

  /** Where the two tests that get new edges now lead. */
  lemma PulledOwnEdges(g: Graph, root: nat, side: bool, ch: seq<nat>, k: nat, x: nat, c: nat)
    requires CanPull(g, root, side, ch, k) && (x == ch[|ch| - 1] || x == ch[|ch| - 2])
    requires Edge(PulledChain(g, root, side, ch, k), x, c)
    ensures c < |g| && Reachable(g, root, c) && c != ch[|ch| - 1] && x < |g| && ch[k] < |g|
    ensures if x == ch[|ch| - 1] then Level(g, c) <= Level(g, ch[k]) else Level(g, c) < Level(g, x)
  {
    var q, s := ch[|ch| - 2], ch[|ch| - 1];
    ChainAt(g, root, side, ch, k);
    ChainAt(g, root, side, ch, |ch| - 2);
    ChainAt(g, root, side, ch, |ch| - 1);
    ChainFalls(g, root, side, ch, k, |ch| - 1);
    NextReachable(g, root, q, Share(g[q], side));
    NextReachable(g, root, s, Share(g[s], side));
    NextReachable(g, root, s, Next(g[s], side));
  }

  lemma PulledOtherEdges(g: Graph, root: nat, side: bool, ch: seq<nat>, k: nat, x: nat, c: nat)
    requires CanPull(g, root, side, ch, k) && x != ch[|ch| - 1] && x != ch[|ch| - 2]
    requires Edge(PulledChain(g, root, side, ch, k), x, c) && Reachable(g, root, x) && x < |g| && ch[k] < |g|
    ensures c < |g| && Reachable(g, root, c)
    ensures if c == ch[|ch| - 1] then Level(g, ch[k]) < Level(g, x) else Level(g, c) < Level(g, x)
  {
    var d, s := ch[k], ch[|ch| - 1];
    ChainAt(g, root, side, ch, |ch| - 1);
    if c == s {
      if Edge(g, x, s) {
        SinglePredecessor(g, root, side, ch, |ch| - 1, x);
        assert false;
      }
      NextReachable(g, root, x, d);
    } else {
      NextReachable(g, root, x, c);
    }
  }

  lemma PulledAcyclic(g: Graph, root: nat, side: bool, ch: seq<nat>, k: nat)
    requires CanPull(g, root, side, ch, k)
    ensures Acyclic(PulledChain(g, root, side, ch, k))
  {
    var g' := PulledChain(g, root, side, ch, k);
    ChainAt(g, root, side, ch, k);
    var rank := PulledRank(g, root, ch[k], ch[|ch| - 1]);
    forall x: nat | x < |g| && g'[x].Br?
      ensures g'[x].jt < |g| && g'[x].jf < |g| && rank[g'[x].jt] < rank[x] && rank[g'[x].jf] < rank[x]
    {
      assert Edge(g', x, g'[x].jt) && Edge(g', x, g'[x].jf);
      PulledRankFalls(g, root, side, ch, k, x, g'[x].jt);
      PulledRankFalls(g, root, side, ch, k, x, g'[x].jf);
    }
    assert Ranked(g', rank);
  }

  // ----- verdicts -----

  /** Block b's test comes out on the side the chain shares. */
  predicate Leaves(g: Graph, side: bool, b: nat, x: Regs, p: Packet)
    requires b < |g| && g[b].Br? && RunStmts(g[b].stmts, x, p).Some?
  {
    Taken(g[b].test, RunStmts(g[b].stmts, x, p).value) == side
  }

  lemma GoBranch(g: Graph, side: bool, b: nat, x: Regs, p: Packet)
    requires Acyclic(g) && b < |g| && g[b].Br? && RunStmts(g[b].stmts, x, p).Some?
    ensures Share(g[b], side) < |g| && Next(g[b], side) < |g|
    ensures Go(g, b, x, p) == Go(g, if Leaves(g, side, b, x, p) then Share(g[b], side) else Next(g[b], side), x, p)
  {
  }

  /** The statements of block b run from x without a fault. */
  ghost predicate Safe(g: Graph, b: nat, x: Regs, p: Packet) {
    b < |g| && RunStmts(g[b].stmts, x, p).Some?
  }

  lemma PulledAt(g: Graph, root: nat, side: bool, ch: seq<nat>, k: nat, x: nat)
    requires CanPull(g, root, side, ch, k) && x < |g|
    ensures ch[|ch| - 1] < |g| && g[ch[|ch| - 1]].Br? && ch[|ch| - 2] < |g| && g[ch[|ch| - 2]].Br?
    ensures PulledChain(g, root, side, ch, k)[x] ==
            if x == ch[|ch| - 1] then WithNext(g[x], side, ch[k])
            else if x == ch[|ch| - 2] then WithNext(g[x], side, Next(g[ch[|ch| - 1]], side))
            else if Reachable(g, root, x) then Redirected(g[x], ch[k], ch[|ch| - 1])
            else g[x]
  {
    ChainAt(g, root, side, ch, |ch| - 1);
    ChainAt(g, root, side, ch, |ch| - 2);
  }

  lemma NotRedirected(b: Block, d: nat, s: nat)
    requires b.Br? ==> b.jt != d && b.jf != d
    ensures Redirected(b, d, s) == b
  {
  }

  lemma ExitsAre(b: Block, side: bool, d: nat)
    requires b.Br? && Share(b, side) != d && Next(b, side) != d
    ensures b.jt != d && b.jf != d
  {
  }

  /** The exits of the tests the pulled one was moved past. */
  lemma PulledInside(g: Graph, root: nat, side: bool, ch: seq<nat>, k: nat, i: nat)
    requires CanPull(g, root, side, ch, k) && k <= i < |ch| - 1
    ensures ch[i] < |g| && ch[|ch| - 1] < |g| && g[ch[|ch| - 1]].Br? && ch[k] < |g| && g[ch[k]].Br?
    ensures var b := PulledChain(g, root, side, ch, k)[ch[i]];
      && b.Br? && Share(b, side) == Share(g[ch[k]], side)
      && Next(b, side) == if i + 1 < |ch| - 1 then ch[i + 1] else Next(g[ch[|ch| - 1]], side)
  {
    hide *;
    PullParts(g, root, side, ch, k);
    ChainAt(g, root, side, ch, i);
    ChainAt(g, root, side, ch, k);
    ChainAt(g, root, side, ch, |ch| - 1);
    ChainFalls(g, root, side, ch, i, |ch| - 1);
    if k < i {
      ChainFalls(g, root, side, ch, k, i);
    }
    if i < |ch| - 2 {
      ChainFalls(g, root, side, ch, i, |ch| - 2);
    }
    PulledAt(g, root, side, ch, k, ch[i]);
    ExitsAre(g[ch[i]], side, ch[k]);
    NotRedirected(g[ch[i]], ch[k], ch[|ch| - 1]);
  }

  lemma PulledTop(g: Graph, root: nat, side: bool, ch: seq<nat>, k: nat)
    requires CanPull(g, root, side, ch, k)
    ensures ch[|ch| - 1] < |g| && ch[k] < |g| && g[ch[k]].Br?
    ensures var b := PulledChain(g, root, side, ch, k)[ch[|ch| - 1]];
      b.Br? && Share(b, side) == Share(g[ch[k]], side) && Next(b, side) == ch[k]
  {
    ChainAt(g, root, side, ch, k);
    ChainAt(g, root, side, ch, |ch| - 1);
  }

  lemma PulledTest(g: Graph, root: nat, side: bool, ch: seq<nat>, k: nat, i: nat, x: Regs, p: Packet)
    requires CanPull(g, root, side, ch, k) && i < |ch|
    ensures var g' := PulledChain(g, root, side, ch, k);
      && ch[i] < |g| && ch[i] < |g'| && g[ch[i]].Br? && g'[ch[i]].Br? && Safe(g', ch[i], x, p) == Safe(g, ch[i], x, p)
      && (Safe(g, ch[i], x, p) ==>
            && RunStmts(g[ch[i]].stmts, x, p).Some? && RunStmts(g'[ch[i]].stmts, x, p).Some?
            && Leaves(g', side, ch[i], x, p) == Leaves(g, side, ch[i], x, p))
  {
    PulledSameBlocks(g, root, side, ch, k);
    ChainAt(g, root, side, ch, i);
  }

  lemma GoSafe(g: Graph, b: nat, x: Regs, p: Packet)
    requires Acyclic(g) && b < |g|
    ensures Go(g, b, x, p) != Fault ==> Safe(g, b, x, p)
    ensures Safe(g, b, x, p) == RunStmts(g[b].stmts, x, p).Some?
    ensures !Safe(g, b, x, p) ==> Go(g, b, x, p) == Fault
  {
  }

  /** When the last test of the chain leaves, a run from any test before it can only end where that test leads. */
  lemma {:induction false} ChainLeaves(g: Graph, root: nat, side: bool, ch: seq<nat>, i: nat, x: Regs, p: Packet)
    requires Acyclic(g) && Chain(g, root, side, ch) && i < |ch| && Safe(g, ch[|ch| - 1], x, p)
    requires g[ch[|ch| - 1]].Br? && Leaves(g, side, ch[|ch| - 1], x, p)
    ensures ch[0] < |g| && g[ch[0]].Br? && Share(g[ch[0]], side) < |g| && ch[i] < |g|
    ensures Go(g, ch[i], x, p) != Fault ==> Go(g, ch[i], x, p) == Go(g, Share(g[ch[0]], side), x, p)
    decreases |ch| - i
  {
    ChainAt(g, root, side, ch, i);
    ChainAt(g, root, side, ch, 0);
    if Go(g, ch[i], x, p) != Fault {
      GoBranch(g, side, ch[i], x, p);
      if !Leaves(g, side, ch[i], x, p) {
        ChainLeaves(g, root, side, ch, i + 1, x, p);
      }
    }
  }

  /** Where every block starts from the same state, a run that comes to c ends as the one from c. */
  lemma {:induction false} GoComes(g: Graph, b: nat, c: nat, x: Regs, p: Packet)
    requires Acyclic(g) && b < |g| && GoVisits(g, b, c, x, p)
    ensures c < |g| && Go(g, b, x, p) == Go(g, c, x, p) && (c == b || Level(g, c) < Level(g, b))
    decreases RankOf(g)[b]
  {
    if b != c {
      var m := RunStmts(g[b].stmts, x, p).value;
      assert Ranked(g, RankOf(g));
      GoComes(g, if Taken(g[b].test, m) then g[b].jt else g[b].jf, c, x, p);
    }
  }

  /** Runs that never come to the test the pulled one was put before are as before, faults included. */
  lemma {:induction false} PulledPastIt(g: Graph, root: nat, side: bool, ch: seq<nat>, k: nat, x: Regs, p: Packet,
          b: nat)
    requires CanPull(g, root, side, ch, k) && Acyclic(PulledChain(g, root, side, ch, k))
    requires b < |g| && Reachable(g, root, b) && b !in ch[k..] && !GoVisits(g, b, ch[k], x, p)
    ensures Go(PulledChain(g, root, side, ch, k), b, x, p) == Go(g, b, x, p)
    decreases Level(g, b)
  {
    PulledSameBlocks(g, root, side, ch, k);
    var m := RunStmts(g[b].stmts, x, p);
    if m.Some? && g[b].Br? {
      var c := if Taken(g[b].test, m.value) then g[b].jt else g[b].jf;
      NextReachable(g, root, b, c);
      PulledOutside(g, root, side, ch, k, b, c);
      PulledPastIt(g, root, side, ch, k, x, p, c);
    }
  }

  /** Runs that do come to it come to the pulled test now. */
  lemma {:induction false} PulledMeets(g: Graph, root: nat, side: bool, ch: seq<nat>, k: nat, x: Regs, p: Packet,
          b: nat)
    requires CanPull(g, root, side, ch, k) && Acyclic(PulledChain(g, root, side, ch, k)) && ch[|ch| - 1] < |g|
    requires b < |g| && Reachable(g, root, b) && (b == ch[k] || b !in ch[k..]) && GoVisits(g, b, ch[k], x, p)
    ensures Go(PulledChain(g, root, side, ch, k), if b == ch[k] then ch[|ch| - 1] else b, x, p)
            == Go(PulledChain(g, root, side, ch, k), ch[|ch| - 1], x, p)
    decreases Level(g, b)
  {
    PulledSameBlocks(g, root, side, ch, k);
    if b != ch[k] {
      var m := RunStmts(g[b].stmts, x, p);
      var c := if Taken(g[b].test, m.value) then g[b].jt else g[b].jf;
      NextReachable(g, root, b, c);
      PulledOutside(g, root, side, ch, k, b, c);
      PulledMeets(g, root, side, ch, k, x, p, c);
    }
  }

  /** From what the chain leads to, nothing has changed. */
  lemma PulledExits(g: Graph, root: nat, side: bool, ch: seq<nat>, k: nat, x: Regs, p: Packet)
    requires CanPull(g, root, side, ch, k) && Acyclic(PulledChain(g, root, side, ch, k))
    ensures ch[k] < |g| && g[ch[k]].Br? && ch[|ch| - 1] < |g| && g[ch[|ch| - 1]].Br?
    ensures var g', t, n := PulledChain(g, root, side, ch, k), Share(g[ch[k]], side), Next(g[ch[|ch| - 1]], side);
      && t < |g| && n < |g| && Reachable(g, root, t)
      && Go(g', t, x, p) == Go(g, t, x, p) && Go(g', n, x, p) == Go(g, n, x, p)
  {
    BelowChain(g, root, side, ch, k);
    ChainAt(g, root, side, ch, k);
    ChainAt(g, root, side, ch, |ch| - 1);
    ChainFalls(g, root, side, ch, k, |ch| - 1);
    var t, n := Share(g[ch[k]], side), Next(g[ch[|ch| - 1]], side);
    if GoVisits(g, t, ch[k], x, p) {
      GoComes(g, t, ch[k], x, p);
    }
    if GoVisits(g, n, ch[k], x, p) {
      GoComes(g, n, ch[k], x, p);
    }
    PulledPastIt(g, root, side, ch, k, x, p, t);
    PulledPastIt(g, root, side, ch, k, x, p, n);
  }

  /** The pulled test does not leave: the tests it was moved past go on to the same end without it. */
  lemma {:induction false} PulledAlong(g: Graph, root: nat, side: bool, ch: seq<nat>, k: nat, i: nat, x: Regs,
          p: Packet)
    requires CanPull(g, root, side, ch, k) && Acyclic(PulledChain(g, root, side, ch, k)) && Safe(g, ch[|ch| - 1], x, p)
    requires g[ch[|ch| - 1]].Br? && !Leaves(g, side, ch[|ch| - 1], x, p)
    requires k <= i < |ch| - 1 && ch[i] < |g|
    ensures Go(PulledChain(g, root, side, ch, k), ch[i], x, p) == Go(g, ch[i], x, p)
    decreases |ch| - i
  {
    hide *;
    PullParts(g, root, side, ch, k);
    PulledExits(g, root, side, ch, k, x, p);
    ChainAt(g, root, side, ch, i);
    ChainAt(g, root, side, ch, k);
    ChainAt(g, root, side, ch, |ch| - 1);
    var g', s := PulledChain(g, root, side, ch, k), ch[|ch| - 1];
    PulledInside(g, root, side, ch, k, i);
    PulledTest(g, root, side, ch, k, i, x, p);
    GoSafe(g, ch[i], x, p);
    GoSafe(g', ch[i], x, p);
    if Safe(g, ch[i], x, p) {
      GoBranch(g, side, ch[i], x, p);
      GoBranch(g', side, ch[i], x, p);
      if !Leaves(g, side, ch[i], x, p) {
        if i + 1 < |ch| - 1 {
          PulledAlong(g, root, side, ch, k, i + 1, x, p);
        } else {
          GoSafe(g, s, x, p);
          GoBranch(g, side, s, x, p);
        }
      }
    }
  }

  /** The pulled test faults, or goes to the shared exit at once, or lets the tests it was put before decide. */
  lemma PulledGo(g: Graph, root: nat, side: bool, ch: seq<nat>, k: nat, x: Regs, p: Packet)
    requires CanPull(g, root, side, ch, k) && Acyclic(PulledChain(g, root, side, ch, k))
    ensures ch[k] < |g| && ch[|ch| - 1] < |g| && g[ch[k]].Br? && g[ch[|ch| - 1]].Br?
    ensures var g', s, t := PulledChain(g, root, side, ch, k), ch[|ch| - 1], Share(g[ch[k]], side);
      && t < |g|
      && (!Safe(g, s, x, p) ==> Go(g', s, x, p) == Fault)
      && (Safe(g, s, x, p) && Leaves(g, side, s, x, p) ==> Go(g', s, x, p) == Go(g, t, x, p))
      && (Safe(g, s, x, p) && !Leaves(g, side, s, x, p) ==> Go(g', s, x, p) == Go(g, ch[k], x, p))
  {
    hide *;
    PullParts(g, root, side, ch, k);
    PulledExits(g, root, side, ch, k, x, p);
    ChainAt(g, root, side, ch, k);
    ChainAt(g, root, side, ch, |ch| - 1);
    var g', s := PulledChain(g, root, side, ch, k), ch[|ch| - 1];
    PulledTop(g, root, side, ch, k);
    PulledTest(g, root, side, ch, k, |ch| - 1, x, p);
    GoSafe(g', s, x, p);
    if Safe(g, s, x, p) {
      GoBranch(g', side, s, x, p);
      if !Leaves(g, side, s, x, p) {
        PulledAlong(g, root, side, ch, k, k, x, p);
      }
    }
  }

  /** From outside, the stretch that changes is entered at its first test only. */
  lemma PulledOutside(g: Graph, root: nat, side: bool, ch: seq<nat>, k: nat, b: nat, c: nat)
    requires CanPull(g, root, side, ch, k) && b < |g| && Reachable(g, root, b) && b !in ch[k..] && Edge(g, b, c)
    ensures c == ch[k] || c !in ch[k..]
    ensures PulledChain(g, root, side, ch, k)[b] == Redirected(g[b], ch[k], ch[|ch| - 1])
  {
    if c != ch[k] && c in ch[k..] {
      var i :| 0 <= i < |ch[k..]| && ch[k..][i] == c;
      SinglePredecessor(g, root, side, ch, k + i, b);
      assert false;
    }
    assert ch[k..][|ch| - 1 - k] == ch[|ch| - 1] && ch[k..][|ch| - 2 - k] == ch[|ch| - 2];
  }

  /** What the chain leads to is not on it. */
  lemma BelowChain(g: Graph, root: nat, side: bool, ch: seq<nat>, k: nat)
    requires CanPull(g, root, side, ch, k)
    ensures ch[k] < |g| && g[ch[k]].Br? && ch[|ch| - 1] < |g| && g[ch[|ch| - 1]].Br?
    ensures var t, n := Share(g[ch[k]], side), Next(g[ch[|ch| - 1]], side);
      && t !in ch[k..] && n !in ch[k..]
      && t < |g| && n < |g| && Reachable(g, root, t) && Reachable(g, root, n)
  {
    hide *;
    PullParts(g, root, side, ch, k);
    ChainAt(g, root, side, ch, k);
    ChainAt(g, root, side, ch, |ch| - 1);
    var t, n := Share(g[ch[k]], side), Next(g[ch[|ch| - 1]], side);
    ExitEdges(g, ch[k], side);
    ExitEdges(g, ch[|ch| - 1], side);
    NextReachable(g, root, ch[k], t);
    NextReachable(g, root, ch[|ch| - 1], n);
    forall i | k <= i < |ch| ensures ch[i] != t && ch[i] != n {
      ChainAt(g, root, side, ch, i);
      if i < |ch| - 1 {
        ChainFalls(g, root, side, ch, i, |ch| - 1);
      }
    }
  }

  lemma ExitEdges(g: Graph, b: nat, side: bool)
    requires b < |g| && g[b].Br?
    ensures Edge(g, b, Share(g[b], side)) && Edge(g, b, Next(g[b], side))
  {
  }

  lemma PulledSuccessor(g: Graph, root: nat, side: bool, ch: seq<nat>, k: nat, x: nat, c: nat)
    requires CanPull(g, root, side, ch, k) && x < |g| && Reachable(g, root, x)
    requires Edge(PulledChain(g, root, side, ch, k), x, c)
    ensures c < |g| && Reachable(g, root, c)
  {
    ChainAt(g, root, side, ch, k);
    if x == ch[|ch| - 1] || x == ch[|ch| - 2] {
      PulledOwnEdges(g, root, side, ch, k, x, c);
    } else {
      PulledOtherEdges(g, root, side, ch, k, x, c);
    }
  }

  lemma PulledSelfContained(g: Graph, root: nat, side: bool, ch: seq<nat>, k: nat, shared: set<nat>)
    requires CanPull(g, root, side, ch, k) && SelfContained(g, root, shared)
    ensures SelfContained(PulledChain(g, root, side, ch, k), root, shared)
  {
    var g' := PulledChain(g, root, side, ch, k);
    PulledSameBlocks(g, root, side, ch, k);
    forall x: nat, y: nat | x < |g| && Reachable(g, root, x) && Edge(g', x, y)
      ensures y < |g| && Reachable(g, root, y)
    {
      PulledSuccessor(g, root, side, ch, k, x, y);
    }
    SelfContainedKept(g, g', root, shared);
  }

  /** The chain that changes runs below the root, so the root is not on it. */
  lemma RootNotPulled(g: Graph, root: nat, side: bool, ch: seq<nat>, k: nat)
    requires CanPull(g, root, side, ch, k) && ch[k] != root
    ensures root !in ch[k..]
  {
    forall i | k < i < |ch| ensures ch[i] != root {
      ChainAt(g, root, side, ch, k);
      ChainFalls(g, root, side, ch, k, i);
      NotAboveRoot(g, root, ch[k]);
    }
  }

  lemma NotRoot(g: Graph, root: nat, side: bool, ch: seq<nat>, i: nat)
    requires Acyclic(g) && root < |g| && Chain(g, root, side, ch) && ch[0] != root && i < |ch|
    ensures ch[i] != root
  {
    ChainAt(g, root, side, ch, 0);
    NotAboveRoot(g, root, ch[0]);
    if i > 0 {
      ChainFalls(g, root, side, ch, 0, i);
    }
  }

  /** Block b runs without a fault from the state the root leaves, when the root leaves one. */
  ghost predicate SafeAfter(g: Graph, root: nat, b: nat, r: Regs, p: Packet) {
    root < |g| && (RunStmts(g[root].stmts, r, p).Some? ==> Safe(g, b, RunStmts(g[root].stmts, r, p).value, p))
  }

  /** Block s, run from the state the root leaves, comes out on the side the chain shares. */
  ghost predicate LeavesAfter(g: Graph, root: nat, s: nat, side: bool, r: Regs, p: Packet)
    requires root < |g| && s < |g| && g[s].Br?
  {
    var m := RunStmts(g[root].stmts, r, p);
    m.Some? && Safe(g, s, m.value, p) && Leaves(g, side, s, m.value, p)
  }

  /**
   What becomes of a run from the root, when test s of a chain is put in front of d. A run that never
   comes to d stays as it is. One that does faults if s does, goes to the shared exit at once if s
   leaves, and stays as it is if s does not. So a run that came to an end comes to the same one just
   when s, if it is met, runs without a fault; one that faulted may now be answered.
   */
  ghost predicate PullOutcome(g: Graph, g': Graph, root: nat, side: bool, d: nat, s: nat, r: Regs, p: Packet)
    requires Acyclic(g) && Acyclic(g') && root < |g| && root < |g'| && s < |g| && g[s].Br? && Share(g[s], side) < |g|
  {
    var v, v' := Run(g, root, r, p), Run(g', root, r, p);
    var meets, safe := Visits(g, root, d, r, p), SafeAfter(g, root, s, r, p);
    && (!meets ==> v' == v)
    && (meets && !safe ==> v' == Fault)
    && (meets && safe && !LeavesAfter(g, root, s, side, r, p) ==> v' == v)
    && (meets && LeavesAfter(g, root, s, side, r, p) ==>
          v' == Run(g, Share(g[s], side), RunStmts(g[root].stmts, r, p).value, p))
    && (v != Fault ==> (v' == v <==> (meets ==> safe)))
  }

  /** The exact condition under which a pull keeps the verdict, for every run. */
  lemma PullKeepsVerdict(g: Graph, root: nat, side: bool, ch: seq<nat>, k: nat, shared: set<nat>, r: Regs, p: Packet)
    requires CanPull(g, root, side, ch, k) && ch[0] != root && SelfContained(g, root, shared)
    ensures Acyclic(PulledChain(g, root, side, ch, k))
    ensures ch[|ch| - 1] < |g| && g[ch[|ch| - 1]].Br? && Share(g[ch[|ch| - 1]], side) < |g|
    ensures PullOutcome(g, PulledChain(g, root, side, ch, k), root, side, ch[k], ch[|ch| - 1], r, p)
  {
    PulledAcyclic(g, root, side, ch, k);
    ChainAt(g, root, side, ch, |ch| - 1);
    ChainAt(g, root, side, ch, k);
    if RunStmts(g[root].stmts, r, p).Some? && g[root].Br? {
      PullFromRoot(g, root, side, ch, k, shared, r, p);
    } else {
      PulledSameBlocks(g, root, side, ch, k);
      NotRoot(g, root, side, ch, k);
      RootNotPulled(g, root, side, ch, k);
    }
  }

  /** The run gets to the first edge: what it does from there on, in both graphs. */
  lemma PullFromRoot(g: Graph, root: nat, side: bool, ch: seq<nat>, k: nat, shared: set<nat>, r: Regs, p: Packet)
    requires CanPull(g, root, side, ch, k) && ch[0] != root && SelfContained(g, root, shared)
    requires RunStmts(g[root].stmts, r, p).Some? && g[root].Br? && Acyclic(PulledChain(g, root, side, ch, k))
    requires ch[|ch| - 1] < |g| && g[ch[|ch| - 1]].Br? && Share(g[ch[|ch| - 1]], side) < |g|
    ensures PullOutcome(g, PulledChain(g, root, side, ch, k), root, side, ch[k], ch[|ch| - 1], r, p)
  {
    var g', x := PulledChain(g, root, side, ch, k), RunStmts(g[root].stmts, r, p).value;
    var c := if Taken(g[root].test, x) then g[root].jt else g[root].jf;
    FirstEdges(g, root, side, ch, k, shared, c, r, x, p);
    ChainAt(g, root, side, ch, k);
    GoVisitsIsVisits(g, root, shared, c, ch[k], x, x, p);
    PulledNext(g, root, side, ch, k, c, x, p);
    BelowChain(g, root, side, ch, k);
    BelowRoot(g, root, side, ch, k);
    GoIsRun(g, root, shared, Share(g[ch[k]], side), x, x, p);
  }

  lemma FirstEdges(g: Graph, root: nat, side: bool, ch: seq<nat>, k: nat, shared: set<nat>, c: nat, r: Regs, x: Regs,
                   p: Packet)
    requires CanPull(g, root, side, ch, k) && ch[0] != root && SelfContained(g, root, shared)
    requires RunStmts(g[root].stmts, r, p) == Some(x) && g[root].Br? && Acyclic(PulledChain(g, root, side, ch, k))
    requires c == if Taken(g[root].test, x) then g[root].jt else g[root].jf
    ensures var g', c' := PulledChain(g, root, side, ch, k), if c == ch[k] then ch[|ch| - 1] else c;
      && c < |g| && c' < |g| && Reachable(g, root, c) && (c == ch[k] || c !in ch[k..])
      && Run(g, root, r, p) == Go(g, c, x, p) && Run(g', root, r, p) == Go(g', c', x, p)
      && c != root && root != ch[k]
      && (Visits(g, root, ch[k], r, p) <==> Visits(g, c, ch[k], x, p))
  {
    var g' := PulledChain(g, root, side, ch, k);
    PulledSameBlocks(g, root, side, ch, k);
    NotRoot(g, root, side, ch, k);
    RootNotPulled(g, root, side, ch, k);
    ReachableSelf(g, root);
    ReachableSelf(g', root);
    var c' := if Taken(g[root].test, x) then g'[root].jt else g'[root].jf;
    PulledOutside(g, root, side, ch, k, root, c);
    PulledSelfContained(g, root, side, ch, k, shared);
    NextReachable(g, root, root, c);
    NextReachable(g', root, root, c');
    GoIsRun(g, root, shared, c, x, x, p);
    GoIsRun(g', root, shared, c', x, x, p);
  }

  /** What the chain leads to is not the root. */
  lemma BelowRoot(g: Graph, root: nat, side: bool, ch: seq<nat>, k: nat)
    requires CanPull(g, root, side, ch, k)
    ensures ch[k] < |g| && g[ch[k]].Br? && Share(g[ch[k]], side) != root
  {
    ChainAt(g, root, side, ch, k);
    ExitEdges(g, ch[k], side);
    NextReachable(g, root, ch[k], Share(g[ch[k]], side));
  }

  /** Entering the chain or passing it by. */
  lemma PulledNext(g: Graph, root: nat, side: bool, ch: seq<nat>, k: nat, c: nat, x: Regs, p: Packet)
    requires CanPull(g, root, side, ch, k) && Acyclic(PulledChain(g, root, side, ch, k))
    requires c < |g| && Reachable(g, root, c) && (c == ch[k] || c !in ch[k..])
    ensures ch[k] < |g| && ch[|ch| - 1] < |g| && g[ch[k]].Br? && g[ch[|ch| - 1]].Br? && Share(g[ch[k]], side) < |g|
    ensures var g', c', s := PulledChain(g, root, side, ch, k), if c == ch[k] then ch[|ch| - 1] else c, ch[|ch| - 1];
      var v, v', end := Go(g, c, x, p), Go(g', c', x, p), Go(g, Share(g[ch[k]], side), x, p);
      if !GoVisits(g, c, ch[k], x, p) then v' == v
      else if !Safe(g, s, x, p) then v' == Fault
      else if Leaves(g, side, s, x, p) then v' == end && (v != Fault ==> v == end)
      else v' == v
  {
    ChainAt(g, root, side, ch, k);
    ChainAt(g, root, side, ch, |ch| - 1);
    if !GoVisits(g, c, ch[k], x, p) {
      PulledPastIt(g, root, side, ch, k, x, p, c);
    } else {
      PulledMeets(g, root, side, ch, k, x, p, c);
      GoComes(g, c, ch[k], x, p);
      PulledGo(g, root, side, ch, k, x, p);
      if Safe(g, ch[|ch| - 1], x, p) && Leaves(g, side, ch[|ch| - 1], x, p) {
        ChainLeaves(g, root, side, ch, k, x, p);
      }
    }
  }

  /** A test without loads, divisions and shifts by X can always be pulled. */
  lemma PullKeepsVerdicts(g: Graph, root: nat, side: bool, ch: seq<nat>, k: nat, shared: set<nat>)
    requires CanPull(g, root, side, ch, k) && ch[0] != root && SelfContained(g, root, shared)
    requires ch[|ch| - 1] < |g| && NeverFaults(g[ch[|ch| - 1]].stmts)
    ensures Acyclic(PulledChain(g, root, side, ch, k))
    ensures SameVerdicts(g, PulledChain(g, root, side, ch, k), root)
  {
    PulledAcyclic(g, root, side, ch, k);
    forall r, p | Run(g, root, r, p) != Fault
      ensures Run(PulledChain(g, root, side, ch, k), root, r, p) == Run(g, root, r, p)
    {
      PullKeepsVerdict(g, root, side, ch, k, shared, r, p);
      NeverFaultsRuns(g[ch[|ch| - 1]].stmts, RunStmts(g[root].stmts, r, p).value, p);
    }
  }

  ghost function LateLoad(): Graph {
    [Br([LdImm(0)], JmpK(JEQ, 0), 1, 3), Br([], JmpK(JEQ, 0), 3, 2),
     Br([LdAbs(B, 0)], JmpK(JEQ, 0), 3, 4), Ret([], RetK(1)), Ret([], RetK(0))]
  }

  lemma LateLoadPaths()
    ensures Acyclic(LateLoad())
    ensures Reachable(LateLoad(), 0, 0) && Reachable(LateLoad(), 0, 1) && Reachable(LateLoad(), 0, 2)
    ensures Dominates(LateLoad(), 0, 1, 1) && Dominates(LateLoad(), 0, 1, 2)
  {
    var g := LateLoad();
    assert Ranked(g, [3, 2, 1, 0, 0]);
    hide Ranked;
    assert PathTo(g, 0, 1, [0, 1]) && PathTo(g, 0, 2, [0, 1, 2]) && PathTo(g, 0, 0, [0]);
    DominatesStep(g, 0, 1, 2);
    DominatesStep(g, 0, 1, 1);
  }

  lemma LateLoadPulls()
    ensures CanPull(LateLoad(), 0, true, [1, 2], 0)
    ensures Reachable(LateLoad(), 0, 0)
  {
    hide Reachable, Dominates, Acyclic;
    LateLoadPaths();
    assert OnChain(LateLoad(), 0, true, 1, 1) && OnChain(LateLoad(), 0, true, 1, 2);
  }

  /**
   The other side of that condition does occur: a load is moved in front of the test that kept the
   run away from it.
   */
  lemma PullMayFault(r: Regs)
    ensures var g, p := LateLoad(), Packet([], 0);
      && CanPull(g, 0, true, [1, 2], 0) && Acyclic(PulledChain(g, 0, true, [1, 2], 0))
      && Run(g, 0, r, p) == Return(1) && Run(PulledChain(g, 0, true, [1, 2], 0), 0, r, p) == Fault
  {
    var g, p, ch := LateLoad(), Packet([], 0), [1, 2];
    LateLoadPulls();
    PulledAcyclic(g, 0, true, ch, 0);
    var g' := PulledChain(g, 0, true, ch, 0);
    assert g'[0] == Br([LdImm(0)], JmpK(JEQ, 0), 2, 3) && g'[2].Br? && g'[2].stmts == [LdAbs(B, 0)];
    hide CanPull, PulledChain, Reachable, Acyclic, RankOf, LateLoad;
    LateLoadRuns(r);
    assert RunStmts(g'[2].stmts, r[A_ATOM := 0], p) == None;
    assert Run(g', 2, r[A_ATOM := 0], p) == Fault;
    assert Run(g', 0, r, p) == Run(g', 2, r[A_ATOM := 0], p);
  }

  lemma LateLoadRuns(r: Regs)
    requires Acyclic(LateLoad())
    ensures RunStmts([LdImm(0)], r, Packet([], 0)) == Some(r[A_ATOM := 0])
    ensures Run(LateLoad(), 0, r, Packet([], 0)) == Return(1)
  {
    hide Acyclic, RankOf;
    var g, p := LateLoad(), Packet([], 0);
    var x: Regs := r[A_ATOM := 0];
    assert [LdImm(0)][1..] == [];
    assert Step(LdImm(0), r, p) == Some(x);
    assert RunStmts([], x, p) == Some(x);
    assert Run(g, 3, x, p) == Return(1);
    assert Run(g, 1, x, p) == Return(1);
  }
}
