/**
 The filter as a directed acyclic graph of basic blocks, and its verdict on a packet.
 Blocks are named by their index in the graph, as in the optimizer's blocks[] array.
 */
module FlowGraph {
  import opened Machine

  datatype RetVal = RetK(k: u32) | RetA

  /** A leaf returns; every other block tests and branches to block jt or block jf. */
  datatype Block =
    | Ret(stmts: seq<Stmt>, rv: RetVal)
    | Br(stmts: seq<Stmt>, test: Test, jt: nat, jf: nat)

  type Graph = seq<Block>

  /** Statements, test and return value are the same; the exits of a branch may differ. */
  predicate SameBlock(b: Block, c: Block) {
    match (b, c)
    case (Ret(ss, rv), Ret(ss', rv')) => ss == ss' && rv == rv'
    case (Br(ss, t, _, _), Br(ss', t', _, _)) => ss == ss' && t == t'
    case _ => false
  }

  /** The test or the return value is the same. */
  predicate SameEnd(b: Block, c: Block) {
    match (b, c)
    case (Ret(_, rv), Ret(_, rv')) => rv == rv'
    case (Br(_, t, _, _), Br(_, t', _, _)) => t == t'
    case _ => false
  }

  predicate SameEnds(g: Graph, g': Graph) {
    |g| == |g'| && forall x :: 0 <= x < |g| ==> SameEnd(g[x], g'[x])
  }

  predicate SameBlocks(g: Graph, g': Graph) {
    |g| == |g'| && forall x :: 0 <= x < |g| ==> SameBlock(g[x], g'[x])
  }

  predicate Valid(g: Graph) {
    forall b :: 0 <= b < |g| && g[b].Br? ==> g[b].jt < |g| && g[b].jf < |g|
  }

  /** rank falls along every edge, so the graph has no cycle. */
  predicate Ranked(g: Graph, rank: seq<nat>) {
    && Valid(g)
    && |rank| == |g|
    && forall b :: 0 <= b < |g| && g[b].Br? ==> rank[g[b].jt] < rank[b] && rank[g[b].jf] < rank[b]
  }

  ghost predicate Acyclic(g: Graph) {
    exists rank :: Ranked(g, rank)
  }

  ghost function RankOf(g: Graph): (rank: seq<nat>)
    requires Acyclic(g)
    ensures Ranked(g, rank)
  {
    var rank :| Ranked(g, rank); rank
  }

  datatype Verdict = Return(v: u32) | Fault

  /** What the machine does from block b on: the value returned, or a fault. */
  ghost function Run(g: Graph, b: nat, r: Regs, p: Packet): Verdict
    requires Acyclic(g) && b < |g|
    decreases RankOf(g)[b]
  {
    var m := RunStmts(g[b].stmts, r, p);
    if m.None? then Fault
    else match g[b]
      case Ret(_, rv) => Return(if rv.RetK? then rv.k else m.value[A_ATOM])
      case Br(_, t, jt, jf) => Run(g, if Taken(t, m.value) then jt else jf, m.value, p)
  }

  /** What the graph is for: from the root, every run that comes to an end comes to the same one. */
  ghost predicate SameVerdicts(g: Graph, g': Graph, root: nat)
    requires Acyclic(g) && Acyclic(g') && root < |g| && root < |g'|
  {
    forall r, p :: Run(g, root, r, p) != Fault ==> Run(g', root, r, p) == Run(g, root, r, p)
  }

  /** The machine, started at block b, comes to block c. */
  ghost predicate Visits(g: Graph, b: nat, c: nat, r: Regs, p: Packet)
    requires Acyclic(g) && b < |g|
    decreases RankOf(g)[b]
  {
    b == c
    || (var m := RunStmts(g[b].stmts, r, p);
        m.Some? && g[b].Br? && Visits(g, if Taken(g[b].test, m.value) then g[b].jt else g[b].jf, c, m.value, p))
  }

  /** The number bpf_filter hands back: a faulting run rejects the packet. */
  function Accepted(v: Verdict): u32 {
    if v.Return? then v.v else 0
  }

  predicate Edge(g: Graph, a: nat, b: nat) {
    a < |g| && g[a].Br? && (g[a].jt == b || g[a].jf == b)
  }

  // ----- paths -----

  ghost predicate IsPath(g: Graph, path: seq<nat>) {
    && path != []
    && (forall k :: 0 <= k < |path| ==> path[k] < |g|)
    && (forall k :: 0 <= k < |path| - 1 ==> Edge(g, path[k], path[k + 1]))
  }

  ghost predicate PathTo(g: Graph, a: nat, b: nat, path: seq<nat>) {
    IsPath(g, path) && path[0] == a && path[|path| - 1] == b
  }

  ghost predicate Reachable(g: Graph, a: nat, b: nat) {
    exists path :: PathTo(g, a, b, path)
  }

  lemma ReachableSelf(g: Graph, a: nat)
    requires a < |g|
    ensures Reachable(g, a, a)
  {
    assert PathTo(g, a, a, [a]);
  }

  lemma ReachableStep(g: Graph, a: nat, b: nat, c: nat)
    requires Reachable(g, a, b) && Edge(g, b, c) && c < |g|
    ensures Reachable(g, a, c)
  {
    var path :| PathTo(g, a, b, path);
    assert PathTo(g, a, c, path + [c]);
  }

  lemma ReachableThrough(g: Graph, a: nat, b: nat, c: nat)
    requires Edge(g, a, b) && Reachable(g, b, c)
    ensures Reachable(g, a, c)
  {
    var path :| PathTo(g, b, c, path);
    assert PathTo(g, a, c, [a] + path);
  }

  lemma ReachableOn(g: Graph, a: nat, b: nat, c: nat)
    requires Reachable(g, a, b) && Reachable(g, b, c)
    ensures Reachable(g, a, c)
  {
    var p, q :| PathTo(g, a, b, p) && PathTo(g, b, c, q);
    var path := p[..|p| - 1] + q;
    forall k | 0 <= k < |path| - 1 ensures Edge(g, path[k], path[k + 1]) {
      assert k < |p| - 1 ==> Edge(g, p[k], p[k + 1]);
      assert k >= |p| - 1 ==> Edge(g, q[k - (|p| - 1)], q[k - (|p| - 1) + 1]);
    }
    assert PathTo(g, a, c, path);
  }

  lemma ReachableBelow(g: Graph, b: nat)
    requires b < |g| && g[b].Br?
    ensures forall c: nat :: Reachable(g, g[b].jt, c) || Reachable(g, g[b].jf, c) ==> Reachable(g, b, c)
  {
    forall c: nat | Reachable(g, g[b].jt, c) || Reachable(g, g[b].jf, c) ensures Reachable(g, b, c) {
      if Reachable(g, g[b].jt, c) {
        ReachableThrough(g, b, g[b].jt, c);
      } else {
        ReachableThrough(g, b, g[b].jf, c);
      }
    }
  }

  /** A set that holds a and is closed under successors holds all that a reaches. */
  lemma ClosedReaches(g: Graph, a: nat, s: set<nat>, b: nat)
    requires a in s && Reachable(g, a, b)
    requires forall x :: x in s && x < |g| && g[x].Br? ==> g[x].jt in s && g[x].jf in s
    ensures b in s
  {
    var path :| PathTo(g, a, b, path);
    ClosedPath(g, s, path);
  }

  lemma {:induction false} ClosedPath(g: Graph, s: set<nat>, path: seq<nat>)
    requires IsPath(g, path) && path[0] in s
    requires forall x :: x in s && x < |g| && g[x].Br? ==> g[x].jt in s && g[x].jf in s
    ensures path[|path| - 1] in s
  {
    if |path| > 1 {
      assert Edge(g, path[0], path[1]);
      ClosedPath(g, s, path[1..]);
    }
  }
}
