/**
 opt_blk when it rewrites statements, but for its peephole pass: opt_stmt on every statement,
 then either the whole list goes or the dead stores do. Replacing the lists by what opt_stmt
 leaves keeps the verdicts. Deleting what was not in use before the rewriting keeps them as long
 as the rewriting has not brought it into use: a later store that was found redundant may need it.
 */
module Rewriting {
  import opened Machine
  import opened FlowGraph
  import opened Liveness
  import opened DeadStores
  import opened ValueNumbering
  import opened BlockNumbering
  import Levels
  import Dominators

  // ----- what becomes of a block -----

  /**
   The special case of opt_blk: a return, or a block of which nothing is in use afterwards and
   which leaves in A and X the known values it found there.
   */
  predicate Emptied(b: Block, n: Numbers, out: set<nat>) {
    b.Ret?
    || (out == {} && n.entry[A_ATOM] != 0 && n.val[A_ATOM] == n.entry[A_ATOM]
        && n.entry[X_ATOM] != 0 && n.val[X_ATOM] == n.entry[X_ATOM])
  }

  /**
   The statements opt_blk leaves, where out is what is in use after the block. Lists are emptied only
   in the passes that rewrite.
   */
  function Finished(b: Block, n: Numbers, out: set<nat>, alter: bool): seq<Stmt> {
    if alter && Emptied(b, n, out) then [] else Pruned(n.ss, EndUses(b) + out)
  }

  function AllAtoms(): set<nat> {
    Dominators.Below(N_ATOMS)
  }

  /**
   Entered with its entry numbers true, the block may have the statements ss instead of its own, for
   all that is needed: from a state that is the same on entry they lead to one that is the same on live.
   */
  ghost predicate Replaces(t0: Table, b: Block, n: Numbers, ss: seq<Stmt>, entry: set<nat>, live: set<nat>) {
    forall r, s, p :: Knows(t0, n.entry, r, p) && Agree(r, s, entry) && RunStmts(b.stmts, r, p).Some? ==>
      && RunStmts(ss, s, p).Some?
      && Agree(RunStmts(b.stmts, r, p).value, RunStmts(ss, s, p).value, live)
  }

  /** What opt_stmt leaves may stand in for the block's own statements. */
  lemma NumberedReplaces(t0: Table, t: Table, b: Block, n: Numbers, live: set<nat>)
    requires NumberedFrom(t0, t, b, n, true) && AllReadsKnown(t0, n.entry, b.stmts, true)
    ensures Replaces(t0, b, n, n.ss, LiveBefore(n.ss, live), live)
  {
    forall r, s, p | Knows(t0, n.entry, r, p) && Agree(r, s, LiveBefore(n.ss, live)) && RunStmts(b.stmts, r, p).Some?
      ensures RunStmts(n.ss, s, p).Some?
      ensures Agree(RunStmts(b.stmts, r, p).value, RunStmts(n.ss, s, p).value, live)
    {
      OptStmtsFaithful(t0, n.entry, b.stmts, true, r, RunStmts(b.stmts, r, p).value, p);
      RunAgree(n.ss, r, s, p, live);
    }
  }

  /** What opt_stmt leaves runs like the block's own list, and the exit numbers are true in some longer table. */
  lemma NumberedRuns(t0: Table, t: Table, b: Block, n: Numbers, r: Regs, x: Regs, p: Packet) returns (t1: Table)
    requires NumberedFrom(t0, t, b, n, true) && AllReadsKnown(t0, n.entry, b.stmts, true)
    requires Knows(t0, n.entry, r, p) && RunStmts(b.stmts, r, p) == Some(x)
    ensures RunStmts(n.ss, r, p) == Some(x) && WellFormed(t0) && t0 <= t1 && Knows(t1, n.val, x, p)
  {
    OptStmtsFaithful(t0, n.entry, b.stmts, true, r, x, p);
    t1 := OptStmts(t0, n.entry, b.stmts, true).t;
  }

  /** An atom that ends with the known number it began with ends with the value it began with. */
  lemma SameNumber(t0: Table, t1: Table, v: Vals, w: Vals, r: Regs, x: Regs, p: Packet, a: nat)
    requires WellFormed(t0) && t0 <= t1 && Knows(t0, v, r, p) && Knows(t1, w, x, p)
    requires a < N_ATOMS && v[a] != 0 && w[a] == v[a]
    ensures x[a] == r[a]
  {
    DenKept(t0, t1, v[a], p);
  }

  /** A list that leaves in A and X the known values it found there changes scratch words only. */
  lemma EmptiedRuns(t0: Table, t: Table, b: Block, n: Numbers, out: set<nat>, r: Regs, p: Packet)
    requires NumberedFrom(t0, t, b, n, true) && AllReadsKnown(t0, n.entry, b.stmts, true)
    requires b.Br? && Emptied(b, n, out) && Knows(t0, n.entry, r, p) && RunStmts(b.stmts, r, p).Some?
    ensures forall a :: 0 <= a < N_ATOMS && !(a in Writes(n.ss) && a < MEMWORDS) ==>
      RunStmts(b.stmts, r, p).value[a] == r[a]
  {
    hide NumberedFrom, AllReadsKnown, Knows, WellFormed, Writes, RunStmts;
    var x := RunStmts(b.stmts, r, p).value;
    var t1 := NumberedRuns(t0, t, b, n, r, x, p);
    WritesOnly(n.ss, r, p);
    SameNumber(t0, t1, n.entry, n.val, r, x, p, A_ATOM);
    SameNumber(t0, t1, n.entry, n.val, r, x, p, X_ATOM);
  }

  // ----- the graph -----

  /** ss may stand in for the statements of b wherever the numbers n of b are true. */
  ghost predicate StandsIn(t: Table, b: Block, n: Numbers, ss: seq<Stmt>, entry: set<nat>, live: set<nat>) {
    exists t0 ::
      && NumberedFrom(t0, t, b, n, true) && AllReadsKnown(t0, n.entry, b.stmts, true)
      && Replaces(t0, b, n, ss, entry, live)
  }

  /** What is needed at the end of b holds what its end reads and what its successors need. */
  ghost predicate Enough(g: Graph, b: nat, entry: seq<set<nat>>, live: seq<set<nat>>)
    requires |entry| == |live| == |g| && b < |g|
  {
    EndUses(g[b]) <= live[b] && forall c: nat :: c < |g| && Edge(g, b, c) ==> entry[c] <= live[b]
  }

  ghost predicate RewrittenGraph(t: Table, g: Graph, h: Graph, root: nat, ns: seq<Numbers>, entry: seq<set<nat>>,
                                 live: seq<set<nat>>) {
    && WellFormed(t) && |ns| == |entry| == |live| == |h| == |g| && root < |g|
    && (forall b :: 0 <= b < |g| ==> h[b] == WithStmts(g[b], h[b].stmts))
    && (forall b: nat :: b < |g| && Reachable(g, root, b) ==>
          && StandsIn(t, g[b], ns[b], h[b].stmts, entry[b], live[b]) && Enough(g, b, entry, live)
          && EntryMeets(g, root, ns, b))
  }

  /** The exit numbers of a block are true after it, and what is needed is there. */
  lemma BlockRewritten(t: Table, g: Graph, h: Graph, root: nat, ns: seq<Numbers>, entry: seq<set<nat>>,
          live: seq<set<nat>>, b: nat, r: Regs, s: Regs, p: Packet)
    requires RewrittenGraph(t, g, h, root, ns, entry, live) && b < |g| && Reachable(g, root, b)
    requires Matches(t, ns[b].entry, r, p) && Agree(r, s, entry[b]) && RunStmts(g[b].stmts, r, p).Some?
    ensures RunStmts(h[b].stmts, s, p).Some?
    ensures Agree(RunStmts(g[b].stmts, r, p).value, RunStmts(h[b].stmts, s, p).value, live[b])
    ensures Matches(t, ns[b].val, RunStmts(g[b].stmts, r, p).value, p)
  {
    assert StandsIn(t, g[b], ns[b], h[b].stmts, entry[b], live[b]) && WellFormed(t);
    hide RewrittenGraph, Reachable;
    StandingRuns(t, g[b], ns[b], h[b].stmts, entry[b], live[b], r, s, p);
  }

  lemma StandingRuns(t: Table, b: Block, n: Numbers, ss: seq<Stmt>, entry: set<nat>, live: set<nat>, r: Regs, s: Regs,
          p: Packet)
    requires WellFormed(t) && StandsIn(t, b, n, ss, entry, live)
    requires Matches(t, n.entry, r, p) && Agree(r, s, entry) && RunStmts(b.stmts, r, p).Some?
    ensures RunStmts(ss, s, p).Some? && Agree(RunStmts(b.stmts, r, p).value, RunStmts(ss, s, p).value, live)
    ensures Matches(t, n.val, RunStmts(b.stmts, r, p).value, p)
  {
    hide NumberedFrom, AllReadsKnown, Matches, Knows, RunStmts, Agree;
    var t0 :| NumberedFrom(t0, t, b, n, true) && AllReadsKnown(t0, n.entry, b.stmts, true)
              && Replaces(t0, b, n, ss, entry, live);
    ExitMatches(t0, t, b, n, r, RunStmts(b.stmts, r, p).value, p);
  }

  /** Numbers true of a block's entry in the final table are true in the one it was numbered from, and of its exit. */
  lemma ExitMatches(t0: Table, t: Table, b: Block, n: Numbers, r: Regs, x: Regs, p: Packet)
    requires NumberedFrom(t0, t, b, n, true) && AllReadsKnown(t0, n.entry, b.stmts, true)
    requires Matches(t, n.entry, r, p) && RunStmts(b.stmts, r, p) == Some(x)
    ensures Knows(t0, n.entry, r, p) && Matches(t, n.val, x, p)
  {
    var l := OptStmts(t0, n.entry, b.stmts, true);
    assert Operand(l.t, b, l.val).0 <= t && l.t <= t && t0 <= t;
    forall a | 0 <= a < N_ATOMS && n.entry[a] != 0 ensures Den(t0, n.entry[a], p) == Some(r[a]) {
      DenKept(t0, t, n.entry[a], p);
    }
    OptStmtsFaithful(t0, n.entry, b.stmts, true, r, x, p);
    MatchesKept(l.t, t, l.val, x, p);
  }

  lemma NextMatches(t: Table, g: Graph, root: nat, ns: seq<Numbers>, b: nat, c: nat, x: Regs, p: Packet)
    requires WellFormed(t) && |ns| == |g| && c < |g| && c != root && EntryMeets(g, root, ns, c)
    requires Reachable(g, root, b) && Edge(g, b, c) && Matches(t, ns[b].val, x, p)
    ensures Matches(t, ns[c].entry, x, p)
  {
    forall a | 0 <= a < N_ATOMS && ns[c].entry[a] != 0 ensures Den(t, ns[c].entry[a], p) == Some(x[a]) {
      assert AllLeave(g, root, ns, c, a, ns[c].entry[a]);
    }
  }

  lemma {:induction false} RewrittenRuns(t: Table, g: Graph, h: Graph, root: nat, ns: seq<Numbers>,
          entry: seq<set<nat>>, live: seq<set<nat>>, b: nat, r: Regs, s: Regs, p: Packet)
    requires Acyclic(g) && Acyclic(h) && RewrittenGraph(t, g, h, root, ns, entry, live)
    requires b < |g| && Reachable(g, root, b) && Matches(t, ns[b].entry, r, p) && Agree(r, s, entry[b])
    requires Run(g, b, r, p) != Fault
    ensures Run(h, b, s, p) == Run(g, b, r, p)
    decreases RankOf(g)[b]
  {
    BlockRewritten(t, g, h, root, ns, entry, live, b, r, s, p);
    assert h[b] == WithStmts(g[b], h[b].stmts) && Enough(g, b, entry, live);
    var x, y := RunStmts(g[b].stmts, r, p).value, RunStmts(h[b].stmts, s, p).value;
    assert Agree(x, y, EndUses(g[b]));
    if g[b].Br? {
      assert A_ATOM in TestUses(g[b].test) && Taken(g[b].test, x) == Taken(g[b].test, y);
      var c := if Taken(g[b].test, x) then g[b].jt else g[b].jf;
      assert Ranked(g, RankOf(g)) && Edge(g, b, c);
      ReachableStep(g, root, b, c);
      Levels.NotAboveRoot(g, root, b);
      NextMatches(t, g, root, ns, b, c, x, p);
      RewrittenRuns(t, g, h, root, ns, entry, live, c, x, y, p);
    }
  }

  /** Lists replaced along true numbers, as far as they are needed, in every block at once: verdicts are kept. */
  lemma RewritingKeepsVerdicts(t: Table, g: Graph, h: Graph, root: nat, ns: seq<Numbers>, entry: seq<set<nat>>,
          live: seq<set<nat>>)
    requires Acyclic(g) && RewrittenGraph(t, g, h, root, ns, entry, live)
    ensures Acyclic(h) && SameVerdicts(g, h, root)
  {
    SameShape(g, h);
    ReachableSelf(g, root);
    forall r, p | Run(g, root, r, p) != Fault ensures Run(h, root, r, p) == Run(g, root, r, p) {
      assert forall a :: 0 <= a < N_ATOMS ==> ns[root].entry[a] == 0;
      RewrittenRuns(t, g, h, root, ns, entry, live, root, r, r, p);
    }
  }

  // ----- when no statement reads what nothing is known of -----

  /** Whatever table a reachable block was numbered from, its statements read known numbers only. */
  ghost predicate ReadsFine(t: Table, g: Graph, root: nat, ns: seq<Numbers>)
    requires |ns| == |g|
  {
    forall b: nat, t0 :: b < |g| && Reachable(g, root, b) && NumberedFrom(t0, t, g[b], ns[b], true) ==>
      AllReadsKnown(t0, ns[b].entry, g[b].stmts, true)
  }

  /** In a graph whose blocks carry the shared atoms only, that is so. */
  lemma SelfContainedReads(t: Table, g: Graph, root: nat, ns: seq<Numbers>, shared: set<nat>)
    requires Acyclic(g) && SelfContained(g, root, shared) && Numbered(t, g, root, ns, true)
    ensures ReadsFine(t, g, root, ns)
  {
    ReachableSelf(g, root);
    forall b: nat, t0 | b < |g| && Reachable(g, root, b) && NumberedFrom(t0, t, g[b], ns[b], true)
      ensures AllReadsKnown(t0, ns[b].entry, g[b].stmts, true)
    {
      if b != root {
        forall a | a in shared && a < N_ATOMS ensures ns[b].entry[a] != 0 {
          SharedNumber(t, g, root, ns, true, shared, b, a);
          RootKnows(t, g, root, ns, shared);
        }
      }
      KnownList(t0, ns[b].entry, g[b].stmts, true, EndUses(g[b]));
    }
  }

  lemma RootKnows(t: Table, g: Graph, root: nat, ns: seq<Numbers>, shared: set<nat>)
    requires Acyclic(g) && SelfContained(g, root, shared) && Numbered(t, g, root, ns, true)
    ensures KnownOn(ns[root].val, shared)
  {
    ReachableSelf(g, root);
    var t0 :| NumberedFrom(t0, t, g[root], ns[root], true);
    LiveBeforeWritten(g[root].stmts, EndUses(g[root]), shared);
    KnownList(t0, ns[root].entry, g[root].stmts, true, EndUses(g[root]) + shared);
  }

  /** The graph with every list replaced by what opt_stmt leaves. */
  function WithLists(g: Graph, ns: seq<Numbers>): (h: Graph)
    requires |ns| == |g|
    ensures |h| == |g|
  {
    seq(|g|, b requires 0 <= b < |g| => WithStmts(g[b], ns[b].ss))
  }

  /** opt_stmt on all statements of all blocks, with the numbers inherited from block to block. */
  lemma ListsKeepVerdicts(t: Table, g: Graph, root: nat, ns: seq<Numbers>)
    requires Acyclic(g) && root < |g| && Numbered(t, g, root, ns, true) && ReadsFine(t, g, root, ns)
    ensures Acyclic(WithLists(g, ns)) && SameVerdicts(g, WithLists(g, ns), root)
  {
    var h, all := WithLists(g, ns), seq(|g|, b => AllAtoms());
    forall b: nat | b < |g| && Reachable(g, root, b)
      ensures StandsIn(t, g[b], ns[b], h[b].stmts, all[b], all[b]) && Enough(g, b, all, all)
    {
      ListStandsIn(t, g, root, ns, b);
    }
    RewritingKeepsVerdicts(t, g, h, root, ns, all, all);
  }

  lemma ListStandsIn(t: Table, g: Graph, root: nat, ns: seq<Numbers>, b: nat)
    requires Numbered(t, g, root, ns, true) && ReadsFine(t, g, root, ns) && b < |g| && Reachable(g, root, b)
    ensures StandsIn(t, g[b], ns[b], ns[b].ss, AllAtoms(), AllAtoms())
  {
    var t0 :| NumberedFrom(t0, t, g[b], ns[b], true);
    NumberedReplaces(t0, t, g[b], ns[b], AllAtoms());
    OnlyAtoms(ns[b].ss, AllAtoms());
    MoreOnEntry(t0, g[b], ns[b], ns[b].ss, LiveBefore(ns[b].ss, AllAtoms()), AllAtoms(), AllAtoms());
  }

  lemma MoreOnEntry(t0: Table, b: Block, n: Numbers, ss: seq<Stmt>, entry: set<nat>, more: set<nat>, live: set<nat>)
    requires Replaces(t0, b, n, ss, entry, live) && entry <= more
    ensures Replaces(t0, b, n, ss, more, live)
  {
    forall r, s | Agree(r, s, more) ensures Agree(r, s, entry) {
    }
  }

  lemma {:induction false} OnlyAtoms(ss: seq<Stmt>, out: set<nat>)
    requires out <= AllAtoms()
    ensures LiveBefore(ss, out) <= AllAtoms()
  {
    if ss != [] {
      OnlyAtoms(ss[1..], out);
    }
  }

  // ----- the whole of opt_blk -----

  /** h is g after opt_blk has been on all its reachable blocks, out[b] being what was in use after b. */
  ghost predicate FinishedGraph(t: Table, g: Graph, h: Graph, root: nat, ns: seq<Numbers>, out: seq<set<nat>>,
                                alter: bool) {
    && Numbered(t, g, root, ns, alter) && |h| == |out| == |g| && root < |g|
    && forall b: nat :: b < |g| ==>
         h[b] == if Reachable(g, root, b) then WithStmts(g[b], Finished(g[b], ns[b], out[b], alter)) else g[b]
  }

  /** The graph before its dead stores go: lists rewritten, or emptied. */
  ghost function Undropped(g: Graph, root: nat, ns: seq<Numbers>, out: seq<set<nat>>): (h: Graph)
    requires |ns| == |out| == |g|
    ensures |h| == |g| && forall b :: 0 <= b < |g| ==> h[b] == WithStmts(g[b], h[b].stmts)
  {
    seq(|g|, b requires 0 <= b < |g| =>
      if !Reachable(g, root, b) then g[b]
      else WithStmts(g[b], if Emptied(g[b], ns[b], out[b]) then [] else ns[b].ss))
  }

  /**
   Something goes that is needed after the rewriting, live being what is then in use after the block:
   the A that is returned, a scratch word of a list that goes, or a store that was dead and is not now.
   */
  predicate Loses(b: Block, n: Numbers, out: set<nat>, live: set<nat>) {
    if b.Ret? then b.rv.RetA?
    else if Emptied(b, n, out) then exists a :: a in Writes(n.ss) && a < MEMWORDS && a in live
    else exists i :: 0 <= i < |n.ss| && Dead(n.ss, i, EndUses(b) + out) && !Dead(n.ss, i, EndUses(b) + live)
  }

  ghost predicate NothingLost(g: Graph, root: nat, ns: seq<Numbers>, out: seq<set<nat>>)
    requires |ns| == |out| == |g| && Acyclic(Undropped(g, root, ns, out))
  {
    forall b: nat :: b < |g| && Reachable(g, root, b) ==>
      !Loses(g[b], ns[b], out[b], OutUse(Undropped(g, root, ns, out), b))
  }

  lemma NoneLost(b: Block, n: Numbers, out: set<nat>, live: set<nat>)
    requires b.Br? && !Emptied(b, n, out) && !Loses(b, n, out, live)
    ensures Thins(n.ss, Finished(b, n, out, true), EndUses(b) + live)
  {
  }

  lemma DroppedRuns(t0: Table, t: Table, b: Block, n: Numbers, out: set<nat>, live: set<nat>, r: Regs, s: Regs,
          p: Packet)
    requires NumberedFrom(t0, t, b, n, true) && AllReadsKnown(t0, n.entry, b.stmts, true)
    requires b.Br? && !Emptied(b, n, out) && !Loses(b, n, out, live)
    requires Knows(t0, n.entry, r, p) && RunStmts(b.stmts, r, p).Some?
    requires Agree(r, s, LiveBefore(n.ss, EndUses(b) + live))
    ensures RunStmts(Finished(b, n, out, true), s, p).Some?
    ensures Agree(RunStmts(b.stmts, r, p).value, RunStmts(Finished(b, n, out, true), s, p).value, EndUses(b) + live)
  {
    hide *;
    NoneLost(b, n, out, live);
    var t1 := NumberedRuns(t0, t, b, n, r, RunStmts(b.stmts, r, p).value, p);
    ThinnedRuns(n.ss, Finished(b, n, out, true), EndUses(b) + live, r, s, p);
  }

  lemma EmptiedAgrees(b: Block, n: Numbers, out: set<nat>, live: set<nat>, r: Regs, s: Regs, x: Regs)
    requires b.Br? && Emptied(b, n, out) && !Loses(b, n, out, live) && Agree(r, s, EndUses(b) + live)
    requires forall a :: 0 <= a < N_ATOMS && !(a in Writes(n.ss) && a < MEMWORDS) ==> x[a] == r[a]
    ensures Agree(x, s, EndUses(b) + live)
  {
    forall a | a in EndUses(b) + live && a < N_ATOMS ensures x[a] == s[a] {
      assert a in EndUses(b) ==> a >= MEMWORDS;
      assert !(a in Writes(n.ss) && a < MEMWORDS);
    }
  }

  lemma EmptiedList(t0: Table, t: Table, b: Block, n: Numbers, out: set<nat>, live: set<nat>, r: Regs, s: Regs,
          p: Packet)
    requires NumberedFrom(t0, t, b, n, true) && AllReadsKnown(t0, n.entry, b.stmts, true)
    requires Emptied(b, n, out) && !Loses(b, n, out, live) && (b.Ret? ==> live == {})
    requires Knows(t0, n.entry, r, p) && RunStmts(b.stmts, r, p).Some? && Agree(r, s, EndUses(b) + live)
    ensures Agree(RunStmts(b.stmts, r, p).value, s, EndUses(b) + live)
  {
    if b.Br? {
      hide *;
      EmptiedRuns(t0, t, b, n, out, r, p);
      EmptiedAgrees(b, n, out, live, r, s, RunStmts(b.stmts, r, p).value);
    } else {
      assert EndUses(b) + live == {};
    }
  }

  /** What opt_blk leaves of a block may stand in for it, for what is in use after the rewriting. */
  lemma FinishedReplaces(t0: Table, t: Table, b: Block, n: Numbers, out: set<nat>, live: set<nat>)
    requires NumberedFrom(t0, t, b, n, true) && AllReadsKnown(t0, n.entry, b.stmts, true)
    requires !Loses(b, n, out, live) && (b.Ret? ==> live == {})
    ensures var end, ss := EndUses(b) + live, if Emptied(b, n, out) then [] else n.ss;
      Replaces(t0, b, n, Finished(b, n, out, true), LiveBefore(ss, end), end)
  {
    var end, ss, left := EndUses(b) + live, if Emptied(b, n, out) then [] else n.ss, Finished(b, n, out, true);
    assert Emptied(b, n, out) ==> left == [] && LiveBefore(ss, end) == end;
    assert forall s, p :: RunStmts([], s, p) == Some(s);
    assert b.Ret? ==> Emptied(b, n, out);
    hide NumberedFrom, AllReadsKnown, Knows, Emptied, Loses, Finished, RunStmts, LiveBefore, Agree;
    forall r, s, p | Knows(t0, n.entry, r, p) && Agree(r, s, LiveBefore(ss, end)) && RunStmts(b.stmts, r, p).Some?
      ensures RunStmts(left, s, p).Some? && Agree(RunStmts(b.stmts, r, p).value, RunStmts(left, s, p).value, end)
    {
      if Emptied(b, n, out) {
        EmptiedList(t0, t, b, n, out, live, r, s, p);
      } else {
        DroppedRuns(t0, t, b, n, out, live, r, s, p);
      }
    }
  }

  /** In the graph before its dead stores go, what is needed is what is in use. */
  lemma UndroppedEnough(g: Graph, h: Graph, root: nat, b: nat, entry: seq<set<nat>>, live: seq<set<nat>>)
    requires Acyclic(h) && |h| == |entry| == |live| == |g| && b < |g|
    requires forall c :: 0 <= c < |g| ==> h[c] == WithStmts(g[c], h[c].stmts)
    requires forall c: nat :: c < |g| ==> entry[c] == InUse(h, c) && live[c] == EndLive(h, c)
    ensures Enough(g, b, entry, live)
  {
    assert h[b] == WithStmts(g[b], h[b].stmts);
  }

  /**
   The whole of opt_blk, on all blocks in one pass: verdicts are kept as long as nothing goes that the
   rewriting has brought into use.
   */
  lemma FinishingKeepsVerdicts(t: Table, g: Graph, h: Graph, root: nat, ns: seq<Numbers>, out: seq<set<nat>>)
    requires Acyclic(g) && FinishedGraph(t, g, h, root, ns, out, true) && ReadsFine(t, g, root, ns)
    requires Acyclic(Undropped(g, root, ns, out)) && NothingLost(g, root, ns, out)
    ensures Acyclic(h) && SameVerdicts(g, h, root)
  {
    var u := Undropped(g, root, ns, out);
    var entry := seq(|g|, b requires 0 <= b < |g| => InUse(u, b));
    var live := seq(|g|, b requires 0 <= b < |g| => EndLive(u, b));
    forall b: nat | b < |g| ensures h[b] == WithStmts(g[b], h[b].stmts) {
    }
    forall b: nat | b < |g| && Reachable(g, root, b)
      ensures StandsIn(t, g[b], ns[b], h[b].stmts, entry[b], live[b]) && Enough(g, b, entry, live)
    {
      var t0 :| NumberedFrom(t0, t, g[b], ns[b], true);
      FinishedReplaces(t0, t, g[b], ns[b], out[b], OutUse(u, b));
      UndroppedEnough(g, u, root, b, entry, live);
      UndroppedEntry(g, u, root, ns, out, b);
    }
    RewritingKeepsVerdicts(t, g, h, root, ns, entry, live);
  }

  lemma UndroppedEntry(g: Graph, u: Graph, root: nat, ns: seq<Numbers>, out: seq<set<nat>>, b: nat)
    requires |ns| == |out| == |g| && u == Undropped(g, root, ns, out) && Acyclic(u)
    requires b < |g| && Reachable(g, root, b) && !Loses(g[b], ns[b], out[b], OutUse(u, b))
    ensures var ss, end := if Emptied(g[b], ns[b], out[b]) then [] else ns[b].ss, EndUses(g[b]) + OutUse(u, b);
      InUse(u, b) == LiveBefore(ss, end) && EndLive(u, b) == end
  {
    assert u[b].stmts == if Emptied(g[b], ns[b], out[b]) then [] else ns[b].ss;
    assert ExitUses(u[b]) + OutUse(u, b) == EndUses(g[b]) + OutUse(u, b);
  }

  lemma UndroppedAcyclic(g: Graph, root: nat, ns: seq<Numbers>, out: seq<set<nat>>)
    requires Acyclic(g) && |ns| == |out| == |g|
    ensures Acyclic(Undropped(g, root, ns, out))
  {
    SameShape(g, Undropped(g, root, ns, out));
  }

  /** So nothing is lost when the rewriting brings nothing into use, returns of A apart. */
  lemma NothingBroughtIn(g: Graph, root: nat, ns: seq<Numbers>, out: seq<set<nat>>)
    requires |ns| == |out| == |g| && Acyclic(Undropped(g, root, ns, out))
    requires forall b: nat :: b < |g| && Reachable(g, root, b) ==>
      OutUse(Undropped(g, root, ns, out), b) <= out[b] && (g[b].Ret? ==> g[b].rv.RetK?)
    ensures NothingLost(g, root, ns, out)
  {
    var u := Undropped(g, root, ns, out);
    forall b: nat | b < |g| && Reachable(g, root, b) ensures !Loses(g[b], ns[b], out[b], OutUse(u, b)) {
      if g[b].Br? && !Emptied(g[b], ns[b], out[b]) {
        forall i | 0 <= i < |ns[b].ss| && Dead(ns[b].ss, i, EndUses(g[b]) + out[b])
          ensures Dead(ns[b].ss, i, EndUses(g[b]) + OutUse(u, b))
        {
          LiveBeforeMonotone(ns[b].ss[i + 1..], EndUses(g[b]) + OutUse(u, b), EndUses(g[b]) + out[b]);
        }
      }
    }
  }

  /** In particular when, after the rewriting, no block reads what it has not set. */
  lemma NothingInherited(g: Graph, root: nat, ns: seq<Numbers>, out: seq<set<nat>>)
    requires Acyclic(g) && root < |g| && |ns| == |out| == |g| && Acyclic(Undropped(g, root, ns, out))
    requires forall b: nat :: b < |g| && Reachable(g, root, b) ==>
      Inherits(Undropped(g, root, ns, out)[b]) == {} && (g[b].Ret? ==> g[b].rv.RetK?)
    ensures NothingLost(g, root, ns, out)
  {
    forall b: nat | b < |g| && Reachable(g, root, b) ensures OutUse(Undropped(g, root, ns, out), b) == {} {
      NoneInUse(g, root, ns, out, b);
    }
    NothingBroughtIn(g, root, ns, out);
  }

  lemma {:induction false} NoneInUse(g: Graph, root: nat, ns: seq<Numbers>, out: seq<set<nat>>, b: nat)
    requires Acyclic(g) && root < |g| && |ns| == |out| == |g| && Acyclic(Undropped(g, root, ns, out))
    requires forall c: nat :: c < |g| && Reachable(g, root, c) ==> Inherits(Undropped(g, root, ns, out)[c]) == {}
    requires b < |g| && Reachable(g, root, b)
    ensures OutUse(Undropped(g, root, ns, out), b) == {} && InUse(Undropped(g, root, ns, out), b) == {}
    decreases RankOf(g)[b]
  {
    var u := Undropped(g, root, ns, out);
    assert u[b] == WithStmts(g[b], u[b].stmts) && Ranked(g, RankOf(g));
    if g[b].Br? {
      assert Edge(g, b, g[b].jt) && Edge(g, b, g[b].jf);
      ReachableStep(g, root, b, g[b].jt);
      ReachableStep(g, root, b, g[b].jf);
      NoneInUse(g, root, ns, out, g[b].jt);
      NoneInUse(g, root, ns, out, g[b].jf);
    }
    LiveBeforeMonotone(u[b].stmts, ExitUses(u[b]) + OutUse(u, b), EndUses(u[b]));
  }

  // ----- when the compiler gives up -----

  /** opt_stmt stops the compiler at block p, the blocks above it done. */
  ghost predicate StopsAt(t: Table, g: Graph, root: nat, ns: seq<Numbers>, p: nat) {
    && NumberedAbove(t, g, root, ns, true, p) && Within(t, ns[p].entry)
    && !OptStmts(t, ns[p].entry, g[p].stmts, true).Listed?
  }

  ghost predicate Stopped(g: Graph, root: nat, p: nat) {
    exists t, ns :: StopsAt(t, g, root, ns, p)
  }

  lemma {:induction false} VisitsBelow(g: Graph, c: nat, p: nat, r: Regs, k: Packet)
    requires Acyclic(g) && c < |g| && Visits(g, c, p, r, k)
    ensures p < |g| && (c == p || Levels.Level(g, p) < Levels.Level(g, c))
    decreases RankOf(g)[c]
  {
    if c != p {
      var m := RunStmts(g[c].stmts, r, k).value;
      var d := if Taken(g[c].test, m) then g[c].jt else g[c].jf;
      assert Ranked(g, RankOf(g));
      VisitsBelow(g, d, p, m, k);
    }
  }

  /** Above p, and at p, only atoms with known numbers are read. */
  lemma ReadsAbove(t: Table, g: Graph, root: nat, ns: seq<Numbers>, shared: set<nat>, p: nat, b: nat, t0: Table)
    requires SelfContained(g, root, shared) && NumberedAbove(t, g, root, ns, true, p)
    requires b < |g| && Reachable(g, root, b) && (b == p || Levels.Level(g, b) > Levels.Level(g, p))
    ensures AllReadsKnown(t0, ns[b].entry, g[b].stmts, true)
  {
    if b != root {
      ReachableSelf(g, root);
      Levels.NotAboveRoot(g, root, b);
      var s0 :| NumberedFrom(s0, t, g[root], ns[root], true);
      LiveBeforeWritten(g[root].stmts, EndUses(g[root]), shared);
      KnownList(s0, ns[root].entry, g[root].stmts, true, EndUses(g[root]) + shared);
      forall a | a in shared && a < N_ATOMS ensures ns[b].entry[a] != 0 {
        SharedAbove(t, g, root, ns, true, shared, p, b, a);
      }
    }
    KnownList(t0, ns[b].entry, g[b].stmts, true, EndUses(g[b]));
  }

  lemma {:induction false} StopFaultsFrom(t: Table, g: Graph, root: nat, ns: seq<Numbers>, shared: set<nat>, p: nat,
          c: nat, r: Regs, k: Packet)
    requires SelfContained(g, root, shared) && StopsAt(t, g, root, ns, p)
    requires c < |g| && Reachable(g, root, c) && Matches(t, ns[c].entry, r, k) && Visits(g, c, p, r, k)
    ensures Run(g, c, r, k) == Fault
    decreases RankOf(g)[c]
  {
    VisitsBelow(g, c, p, r, k);
    var m := RunStmts(g[c].stmts, r, k);
    if c == p {
      ReadsAbove(t, g, root, ns, shared, p, p, t);
      if m.Some? {
        OptStmtsFaithful(t, ns[p].entry, g[p].stmts, true, r, m.value, k);
      }
    } else {
      var t0 :| NumberedFrom(t0, t, g[c], ns[c], true);
      ReadsAbove(t, g, root, ns, shared, p, c, t0);
      ExitMatches(t0, t, g[c], ns[c], r, m.value, k);
      var d := if Taken(g[c].test, m.value) then g[c].jt else g[c].jf;
      assert Ranked(g, RankOf(g));
      ReachableStep(g, root, c, d);
      Levels.NotAboveRoot(g, root, c);
      VisitsBelow(g, d, p, m.value, k);
      NextMatches(t, g, root, ns, c, d, m.value, k);
      StopFaultsFrom(t, g, root, ns, shared, p, d, m.value, k);
    }
  }

  /** Block p is reachable, and every run that comes to it faults. */
  ghost predicate NoneThrough(g: Graph, root: nat, p: nat)
    requires Acyclic(g) && root < |g|
  {
    p < |g| && Reachable(g, root, p) && forall r, k :: Visits(g, root, p, r, k) ==> Run(g, root, r, k) == Fault
  }

  /** The compiler gives up on a block only if no run gets through it. */
  lemma StopFaults(g: Graph, root: nat, shared: set<nat>, p: nat)
    requires Acyclic(g) && SelfContained(g, root, shared) && Stopped(g, root, p)
    ensures NoneThrough(g, root, p)
  {
    var t: Table, ns: seq<Numbers> :| StopsAt(t, g, root, ns, p);
    ReachableSelf(g, root);
    forall r, k | Visits(g, root, p, r, k) ensures Run(g, root, r, k) == Fault {
      VisitsBelow(g, root, p, r, k);
      assert EntryMeets(g, root, ns, root);
      assert forall a :: 0 <= a < N_ATOMS ==> ns[root].entry[a] == 0;
      StopFaultsFrom(t, g, root, ns, shared, p, root, r, k);
    }
  }
}
