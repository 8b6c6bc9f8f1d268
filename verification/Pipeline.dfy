/**
 The passes with the analyses they are run with, and the way from a condition to the array of
 instructions. Moving branches and dropping stores keep the verdicts of runs that do not fault,
 moving tests and rewriting statements do so under the conditions stated with them; merging equal
 blocks and laying out the array keep faults too.
 */
module Pipeline {
  import opened Machine
  import opened FlowGraph
  import opened Levels
  import opened Fragments
  import Closing
  import Tracing
  import CodeGen
  import Containment
  import Liveness
  import Dominators
  import EdgeDominators
  import DeadStores
  import ValueNumbering
  import ValueTable
  import BlockNumbering
  import Rewriting
  import NumberingPass
  import JumpThreading
  import ThreadedStores
  import Pullup
  import PullupPass
  import Interning
  import Assembler

  // ----- passes over a graph -----

  /**
   The half of opt_blks that moves branches: levels, edge dominators and liveness of the graph, then every
   block numbered and rid of its dead stores, and last jump threading over all edges.
   */
  method MoveBranches(g: Graph, root: nat, hash: ValueNumbering.Key -> nat, ghost shared: set<nat>)
    returns (g': Graph, ghost shared': set<nat>, ghost t: ValueNumbering.Table,
             ghost ns: seq<BlockNumbering.Numbers>, ghost out: seq<set<nat>>)
    requires Acyclic(g) && root < |g| && BlockNumbering.SelfContained(g, root, shared) && Liveness.OwnReturns(g, root)
    ensures Acyclic(g') && SameEnds(g, g') && SameVerdicts(g, g', root)
    ensures shared' <= shared && BlockNumbering.SelfContained(g', root, shared')
    ensures BlockNumbering.Numbered(t, g, root, ns, false) && |out| == |g|
    ensures forall b: nat :: b < |g| && Reachable(g, root, b) ==> out[b] == Liveness.OutUse(g, b)
    ensures JumpThreading.NothingDecided(g, root, g', ns, out) && JumpThreading.Unhindered(g, g', ns, out)
    ensures forall b: nat :: b < |g| && b < |g'| && Reachable(g, root, b) ==>
      g'[b].stmts == DeadStores.Pruned(g[b].stmts, DeadStores.EndLive(g, b))
  {
    hide *;
    var leveler := new Leveler(g, root);
    leveler.FindLevels();
    ReachableSelf(g, root);
    LevelCount(g, root, leveler.levels);
    var edom := EdgeDominators.FindEdom(g, root, leveler.level, leveler.levels);
    var inUse, outUse := Liveness.FindUd(g, root, leveler.level, leveler.levels);
    forall b: nat | b < |g| && Reachable(g, root, b) ensures outUse[b] == Liveness.OutUse(g, b) {
      LiveAt(g, inUse, outUse, b);
    }
    var values := new ValueTable.Values(hash);
    var numbers, h, stop := NumberingPass.NumberBlocks(g, root, leveler.level, leveler.levels, values, false, outUse);
    t, ns, out := values.nodes, numbers, outUse;
    FinishedParts(values.nodes, g, h, root, ns, outUse, false);
    AnalysedIs(values.nodes, g, root, ns, shared, edom, outUse);
    ThreadedStores.FinishedDrops(values.nodes, g, h, root, ns, outUse);
    DroppedLists(g, h, root);
    var threader := new JumpThreading.Threader(h, root, numbers, edom, outUse, g, values.nodes, shared);
    threader.MoveBranches(leveler.level, leveler.levels);
    g' := threader.blocks;
    shared' := shared * Liveness.Writes(h[root].stmts);
    ghost var l :| JumpThreading.Progress(g, root, threader.g, l);
    ThreadedEnd(threader, g, h, root, l, shared);
    ThreadedMirror(threader, g, h, root);
  }

  /** What was said of the branches of the numbered graph is true of the blocks rid of their stores. */
  lemma ThreadedMirror(threader: JumpThreading.Threader, g: Graph, h: Graph, root: nat)
    requires Acyclic(g) && ThreadedStores.Dropped(g, h, root)
    requires threader.Mirrors() && threader.lists == JumpThreading.ListsOf(h)
    ensures var g1, g', ns, out := threader.g, threader.blocks, threader.ns, threader.outUse;
      && (JumpThreading.NothingDecided(g, root, g1, ns, out) ==> JumpThreading.NothingDecided(g, root, g', ns, out))
      && (JumpThreading.Unhindered(g, g1, ns, out) ==> JumpThreading.Unhindered(g, g', ns, out))
      && forall b: nat :: b < |g| && b < |g'| && Reachable(g, root, b) ==>
           g'[b].stmts == DeadStores.Pruned(g[b].stmts, DeadStores.EndLive(g, b))
  {
    var g1, g', ns, out := threader.g, threader.blocks, threader.ns, threader.outUse;
    assert |g'| == |g1| && forall b :: 0 <= b < |g1| ==> SameBranch(g1[b], g'[b]);
    if JumpThreading.NothingDecided(g, root, g1, ns, out) {
      forall b: nat, f: nat, d: nat, e: nat, c: nat | Reachable(g, root, b) && JumpThreading.LeadsBy(g', f, b, d)
          && EdgeDominators.EdgeDominates(g, root, e, f) && JumpThreading.Decided(g', ns, e, d, c)
        ensures JumpThreading.Differs(ns, out, b, c)
      {
        assert JumpThreading.LeadsBy(g1, f, b, d);
        assert JumpThreading.Decided(g1, ns, e, d, c);
      }
    }
    if JumpThreading.Unhindered(g, g1, ns, out) {
      forall b: nat, f: nat, d0: nat, d: nat | JumpThreading.LeadsBy(g, f, b, d0) && JumpThreading.LeadsBy(g', f, b, d)
          && d0 != d
        ensures !JumpThreading.Differs(ns, out, b, d)
      {
        assert JumpThreading.LeadsBy(g1, f, b, d);
      }
    }
  }

  predicate SameBranch(b: Block, c: Block) {
    (b.Br? <==> c.Br?) && (b.Br? ==> b.test == c.test && b.jt == c.jt && b.jf == c.jf)
  }

  lemma DroppedLists(g: Graph, h: Graph, root: nat)
    requires Acyclic(g) && ThreadedStores.Dropped(g, h, root)
    ensures |h| == |g| && h == JumpThreading.Relisted(g, JumpThreading.ListsOf(h))
  {
  }

  lemma ThreadedEnd(threader: JumpThreading.Threader, g: Graph, h: Graph, root: nat, l: nat, shared: set<nat>)
    requires JumpThreading.Progress(g, root, threader.g, l) && BlockNumbering.SelfContained(g, root, shared)
    requires Liveness.OwnReturns(g, root) && ThreadedStores.Dropped(g, h, root) && root < |h|
    requires threader.Mirrors() && threader.lists == JumpThreading.ListsOf(h)
    ensures Acyclic(g) && Acyclic(threader.blocks) && root < |g| && root < |threader.blocks|
    ensures SameEnds(g, threader.blocks) && SameVerdicts(g, threader.blocks, root)
    ensures BlockNumbering.SelfContained(threader.blocks, root, shared * Liveness.Writes(h[root].stmts))
  {
    ThreadedStores.ThreadedKeepsVerdicts(g, root, threader.g, l, shared, h);
    ThreadedStores.ThreadedSelfContainedToo(g, root, threader.g, l, shared, h);
    forall b | 0 <= b < |g| ensures SameEnd(g[b], threader.blocks[b]) {
      assert JumpThreading.Settled(g, root, l, b, threader.g[b]);
    }
  }

  /**
   Levels and liveness of the graph, then opt_blk with rewriting on every block, from the root down. The
   verdicts are kept unless something goes that the rewriting has brought into use, and the compiler
   gives up only on a graph with a block that no run gets through.
   */
  method RewriteStatements(g: Graph, root: nat, hash: ValueNumbering.Key -> nat, ghost shared: set<nat>)
    returns (g': Graph, stop: ValueTable.Stop, ns: seq<BlockNumbering.Numbers>, out: seq<set<nat>>)
    requires Acyclic(g) && root < |g| && BlockNumbering.SelfContained(g, root, shared)
    ensures |out| == |g| && forall b: nat :: b < |g| && Reachable(g, root, b) ==> out[b] == Liveness.OutUse(g, b)
    ensures stop.Continue? ==> |ns| == |g| && exists t :: Rewriting.FinishedGraph(t, g, g', root, ns, out, true)
    ensures stop.Continue? ==> Acyclic(Rewriting.Undropped(g, root, ns, out)) && Acyclic(g') && SameEnds(g, g')
    ensures stop.Continue? && Rewriting.NothingLost(g, root, ns, out) ==> SameVerdicts(g, g', root)
    ensures !stop.Continue? ==> exists p: nat :: Rewriting.NoneThrough(g, root, p)
  {
    hide *;
    var leveler := new Leveler(g, root);
    leveler.FindLevels();
    ReachableSelf(g, root);
    LevelCount(g, root, leveler.levels);
    var inUse, outUse := Liveness.FindUd(g, root, leveler.level, leveler.levels);
    forall b: nat | b < |g| && Reachable(g, root, b) ensures outUse[b] == Liveness.OutUse(g, b) {
      LiveAt(g, inUse, outUse, b);
    }
    var values := new ValueTable.Values(hash);
    ns, g', stop := NumberingPass.NumberBlocks(g, root, leveler.level, leveler.levels, values, true, outUse);
    out := outUse;
    if stop.Continue? {
      FinishedParts(values.nodes, g, g', root, ns, out, true);
      FinishedShape(values.nodes, g, g', root, ns, out, true);
      Rewriting.SelfContainedReads(values.nodes, g, root, ns, shared);
      Rewriting.UndroppedAcyclic(g, root, ns, out);
      if Rewriting.NothingLost(g, root, ns, out) {
        Rewriting.FinishingKeepsVerdicts(values.nodes, g, g', root, ns, out);
      }
    } else {
      ghost var p :| Rewriting.Stopped(g, root, p);
      Rewriting.StopFaults(g, root, shared, p);
    }
  }

  lemma FinishedParts(t: ValueNumbering.Table, g: Graph, h: Graph, root: nat, ns: seq<BlockNumbering.Numbers>,
                      out: seq<set<nat>>, alter: bool)
    requires Rewriting.FinishedGraph(t, g, h, root, ns, out, alter)
    ensures BlockNumbering.Numbered(t, g, root, ns, alter) && |h| == |ns| == |out| == |g| && root < |g|
  {
  }

  lemma FinishedShape(t: ValueNumbering.Table, g: Graph, h: Graph, root: nat, ns: seq<BlockNumbering.Numbers>,
                      out: seq<set<nat>>, alter: bool)
    requires Acyclic(g) && Rewriting.FinishedGraph(t, g, h, root, ns, out, alter)
    ensures Acyclic(h) && SameEnds(g, h)
  {
    forall b: nat | b < |g| ensures h[b] == DeadStores.WithStmts(g[b], h[b].stmts) && SameEnd(g[b], h[b]) {
    }
    DeadStores.SameShape(g, h);
  }

  lemma AnalysedIs(t: ValueNumbering.Table, g: Graph, root: nat, ns: seq<BlockNumbering.Numbers>, shared: set<nat>,
                   edom: seq<set<nat>>, outUse: seq<set<nat>>)
    requires Acyclic(g) && BlockNumbering.SelfContained(g, root, shared)
    requires BlockNumbering.Numbered(t, g, root, ns, false)
    requires EdgeDominators.EdomExact(g, root, edom) && |outUse| == |g|
    ensures JumpThreading.Analysed(t, g, root, ns, shared, edom, outUse)
  {
  }

  /** Dominators and predecessor lists of the graph, then one call of or_pullup or and_pullup for block b. */
  method PullUp(g: Graph, root: nat, aval: seq<nat>, side: bool, b: nat, ghost shared: set<nat>)
    returns (g': Graph, done: bool, ghost pulled: Option<(nat, nat)>)
    requires Acyclic(g) && root < |g| && |aval| == |g| && b < |g| && g[b].Br?
    requires BlockNumbering.SelfContained(g, root, shared)
    ensures BlockNumbering.SelfContained(g', root, shared) && PullupPass.PulledRight(g, g', root, side, pulled)
    ensures PullupPass.PulledWhenDue(g, g', root, aval, side, b, true, done)
  {
    hide *;
    var leveler := new Leveler(g, root);
    leveler.FindLevels();
    ReachableSelf(g, root);
    var dom := Dominators.FindDom(g, root, leveler.level, leveler.levels);
    var ins := NumberingPass.FindInedges(g, root, leveler.level, leveler.levels);
    PullupPass.PullupSound(g, root, dom, aval, ins, side, b, shared);
    var puller := new PullupPass.Puller(g, root, dom, aval, ins);
    ReadyIs(puller);
    puller.Pullup(side, b);
    g', done, pulled := puller.g, puller.done, PullupPass.Moved(PullupPass.Target(g, root, dom, aval, ins, side, b));
  }

  lemma ReadyIs(puller: PullupPass.Puller)
    requires Acyclic(puller.g) && puller.root < |puller.g| && |puller.aval| == |puller.g|
    requires Dominators.DomExact(puller.g, puller.root, puller.dom)
    requires NumberingPass.Inedges(puller.g, puller.root, puller.ins)
    ensures puller.Ready()
  {
  }

  /** Liveness of the graph, then opt_deadstores on every block, level by level from the root down. */
  method DropDeadStores(g: Graph, root: nat) returns (g': Graph)
    requires Acyclic(g) && root < |g| && Liveness.OwnReturns(g, root)
    ensures Acyclic(g') && ThreadedStores.Dropped(g, g', root) && |g'| == |g| && SameVerdicts(g, g', root)
    ensures NoDeadFaults(g, root) ==> forall r, p :: Run(g', root, r, p) == Run(g, root, r, p)
  {
    hide *;
    var leveler := new Leveler(g, root);
    leveler.FindLevels();
    ReachableSelf(g, root);
    LevelCount(g, root, leveler.levels);
    var level, levels := leveler.level, leveler.levels;
    var inUse, outUse := Liveness.FindUd(g, root, level, levels);
    g' := g;
    ghost var pruned := {};
    PrunedNone(g);
    LevelBound(g, root);
    NumberingPass.NoneVisited(g, root, levels, level[root]);
    VisitedStart(g, root, levels, pruned);
    var i: int := level[root];
    while i >= 0
      invariant -1 <= i < |levels|
      invariant g' == DeadStores.PrunedBlocks(g, pruned)
      invariant i >= 0 ==> NumberingPass.OnlyVisited(g, root, levels, i, 0, pruned)
      invariant if i >= 0 then AllVisited(g, root, levels, i, 0, pruned)
        else AllVisited(g, root, levels, 0, |levels[0]|, pruned)
    {
      for k := 0 to |levels[i]|
        invariant g' == DeadStores.PrunedBlocks(g, pruned)
        invariant NumberingPass.OnlyVisited(g, root, levels, i, k, pruned) && AllVisited(g, root, levels, i, k, pruned)
      {
        var b := levels[i][k];
        LeveledAt(g, root, levels, i, k);
        LiveAt(g, inUse, outUse, b);
        PrunedOne(g, root, levels, i, k, pruned);
        NumberingPass.CountBlock(g, root, levels, i, k, pruned);
        VisitedOne(g, root, levels, i, k, pruned);
        var stmts := new Stmt[|g'[b].stmts|](j requires 0 <= j < |g'[b].stmts| => g'[b].stmts[j]);
        assert stmts[..] == g'[b].stmts;
        DeadStores.OptDeadstores(stmts, g'[b], outUse[b]);
        g' := g'[b := DeadStores.WithStmts(g'[b], stmts[..])];
        pruned := pruned + {b};
      }
      if i > 0 {
        NumberingPass.CountDown(g, root, levels, i, pruned);
        VisitedDown(g, root, levels, i, pruned);
      }
      i := i - 1;
    }
    PrunedVerdicts(g, root, pruned);
    AllDropped(g, root, levels, pruned);
  }

  /** Every block visited so far is pruned. */
  ghost predicate AllVisited(g: Graph, root: nat, levels: seq<seq<nat>>, i: nat, k: nat, pruned: set<nat>)
    requires Acyclic(g) && i < |levels| && k <= |levels[i]|
  {
    forall b: nat :: Dominators.Visited(g, root, levels, i, k, b) ==> b in pruned
  }

  lemma VisitedStart(g: Graph, root: nat, levels: seq<seq<nat>>, pruned: set<nat>)
    requires Acyclic(g) && root < |g| && Level(g, root) < |levels|
    ensures AllVisited(g, root, levels, Level(g, root), 0, pruned)
  {
    forall b: nat ensures !Dominators.Visited(g, root, levels, Level(g, root), 0, b) {
      if b < |g| && Reachable(g, root, b) {
        NotAboveRoot(g, root, b);
      }
    }
  }

  lemma VisitedOne(g: Graph, root: nat, levels: seq<seq<nat>>, i: nat, k: nat, pruned: set<nat>)
    requires Acyclic(g) && i < |levels| && k < |levels[i]| && AllVisited(g, root, levels, i, k, pruned)
    ensures AllVisited(g, root, levels, i, k + 1, pruned + {levels[i][k]})
  {
    assert levels[i][..k + 1] == levels[i][..k] + [levels[i][k]];
    var next := k + 1;
    forall b: nat | Dominators.Visited(g, root, levels, i, next, b) ensures b in pruned + {levels[i][k]} {
      assert b != levels[i][k] ==> Dominators.Visited(g, root, levels, i, k, b);
    }
  }

  lemma VisitedDown(g: Graph, root: nat, levels: seq<seq<nat>>, i: nat, pruned: set<nat>)
    requires Acyclic(g) && root < |g| && Leveled(g, root, levels) && 0 < i < |levels|
    requires AllVisited(g, root, levels, i, |levels[i]|, pruned)
    ensures AllVisited(g, root, levels, i - 1, 0, pruned)
  {
    assert levels[i][..|levels[i]|] == levels[i];
    var next := i - 1;
    forall b: nat | Dominators.Visited(g, root, levels, next, 0, b) ensures b in pruned {
      assert Dominators.Visited(g, root, levels, i, |levels[i]|, b);
    }
  }

  lemma AllDropped(g: Graph, root: nat, levels: seq<seq<nat>>, pruned: set<nat>)
    requires Acyclic(g) && root < |g| && Leveled(g, root, levels) && |levels| > 0
    requires AllVisited(g, root, levels, 0, |levels[0]|, pruned)
    ensures ThreadedStores.Dropped(g, DeadStores.PrunedBlocks(g, pruned), root)
  {
    assert levels[0][..|levels[0]|] == levels[0];
    forall b: nat | b < |g| && Reachable(g, root, b) ensures b in pruned {
      assert Dominators.Visited(g, root, levels, 0, |levels[0]|, b);
    }
  }

  /** No dead statement of a reachable block can fault. */
  ghost predicate NoDeadFaults(g: Graph, root: nat)
    requires Acyclic(g)
  {
    forall b: nat :: b < |g| && Reachable(g, root, b) ==>
      DeadStores.DeadSafe(g[b].stmts, DeadStores.EndLive(g, b))
  }

  lemma LiveAt(g: Graph, inUse: seq<set<nat>>, outUse: seq<set<nat>>, b: nat)
    requires Acyclic(g) && b < |g| && Liveness.Known(g, inUse, outUse, b)
    ensures b < |outUse| && outUse[b] == Liveness.OutUse(g, b)
  {
  }

  lemma PrunedNone(g: Graph)
    requires Acyclic(g)
    ensures DeadStores.PrunedBlocks(g, {}) == g
  {
  }

  /** The block that is visited next has not been pruned yet; pruning it adds it to those that are. */
  lemma PrunedOne(g: Graph, root: nat, levels: seq<seq<nat>>, i: nat, k: nat, pruned: set<nat>)
    requires Acyclic(g) && root < |g| && Leveled(g, root, levels) && i < |levels| && k < |levels[i]|
    requires levels[i][k] < |g|
    requires NumberingPass.OnlyVisited(g, root, levels, i, k, pruned)
    ensures var b, h := levels[i][k], DeadStores.PrunedBlocks(g, pruned);
      && b < |h| && h[b] == g[b]
      && h[b := DeadStores.WithStmts(g[b], DeadStores.Pruned(g[b].stmts,
        DeadStores.EndUses(g[b]) + Liveness.OutUse(g, b)))]
         == DeadStores.PrunedBlocks(g, pruned + {b})
  {
    LeveledAt(g, root, levels, i, k);
    assert NoRepeats(levels[i]);
    assert levels[i][k] !in pruned;
  }

  lemma PrunedVerdicts(g: Graph, root: nat, pruned: set<nat>)
    requires Acyclic(g) && root < |g| && Liveness.OwnReturns(g, root)
    ensures Acyclic(DeadStores.PrunedBlocks(g, pruned)) && |DeadStores.PrunedBlocks(g, pruned)| == |g|
    ensures SameVerdicts(g, DeadStores.PrunedBlocks(g, pruned), root)
    ensures NoDeadFaults(g, root) ==>
      forall r, p :: Run(DeadStores.PrunedBlocks(g, pruned), root, r, p) == Run(g, root, r, p)
  {
    DeadStores.PrunedBlocksAcyclic(g, pruned);
    forall r, p | Run(g, root, r, p) != Fault || NoDeadFaults(g, root)
      ensures Run(DeadStores.PrunedBlocks(g, pruned), root, r, p) == Run(g, root, r, p)
    {
      DeadStores.PassKeepsVerdict(g, pruned, root, r, r, p);
    }
  }

  // ----- from a graph to the array -----

  /** Merging equal blocks and laying out the rest: the array gives every verdict of the graph. */
  method MergeAndAssemble(g: Graph, root: nat) returns (fp: array<Assembler.Insn>)
    requires Acyclic(g) && root < |g|
    ensures Assembler.Runs(g, root, fp[..], 0)
    ensures forall i :: 0 <= i < fp.Length ==> Assembler.WellEncoded(fp[..], i)
  {
    hide *;
    var interner := new Interning.Interner(g, root);
    interner.InternBlocks();
    SameRunsFrom(g, interner.g, root);
    var converter := new Assembler.Converter(interner.g, root);
    fp := converter.IcodeToFcode();
    SameCode(g, interner.g, root, fp[..]);
  }

  lemma SameRunsFrom(g: Graph, g': Graph, root: nat)
    requires Acyclic(g) && Acyclic(g') && root < |g| && Interning.SameRuns(g, g')
    ensures root < |g'| && forall r, p :: Run(g', root, r, p) == Run(g, root, r, p)
  {
  }

  lemma SameCode(g: Graph, g': Graph, root: nat, code: seq<Assembler.Insn>)
    requires Acyclic(g) && Acyclic(g') && root < |g| && root < |g'| && Assembler.Runs(g', root, code, 0)
    requires forall r, p :: Run(g', root, r, p) == Run(g, root, r, p)
    ensures Assembler.Runs(g, root, code, 0)
  {
    forall r, p ensures Assembler.RunCode(code, 0, r, p) == Some(Run(g, root, r, p)) {
      assert Run(g', root, r, p) == Run(g, root, r, p);
    }
  }

  // ----- from a condition to the array -----

  /** The arena as a graph, when every slot is a finished block. */
  function AsGraph(bs: Arena): (g: Graph)
    ensures |g| == |bs|
  {
    seq(|bs|, i requires 0 <= i < |bs| =>
      if bs[i].exit.Done? then Ret(bs[i].stmts, bs[i].exit.rv)
      else Br(bs[i].stmts, bs[i].exit.test,
              if bs[i].jt.To? then bs[i].jt.b else 0, if bs[i].jf.To? then bs[i].jf.b else 0))
  }

  lemma AllInProgram(bs: Arena, program: seq<nat>)
    requires forall i :: 0 <= i < |bs| ==> i in program
    ensures AsGraph(bs) == Closing.ToGraph(bs, program)
  {
  }

  /** What the array is for: whatever the registers hold, it answers every packet as the condition does. */
  ghost predicate Answers(code: seq<Assembler.Insn>, prefix: seq<Stmt>, e: Cond, snaplen: u32) {
    forall r, p :: Assembler.RunCode(code, 0, r, p) == Some(Closing.Answer(prefix, e, snaplen, r, p))
  }

  lemma CodeAnswers(g: Graph, root: nat, prefix: seq<Stmt>, e: Cond, snaplen: u32, code: seq<Assembler.Insn>)
    requires Acyclic(g) && root < |g| && Closing.Answers(g, root, prefix, e, snaplen)
    requires Assembler.Runs(g, root, code, 0)
    ensures Answers(code, prefix, e, snaplen)
  {
    forall r, p ensures Assembler.RunCode(code, 0, r, p) == Some(Closing.Answer(prefix, e, snaplen, r, p)) {
      assert Run(g, root, r, p) == Closing.Answer(prefix, e, snaplen, r, p);
    }
  }

  /**
   Any condition, compiled without the optimizer: an array that never runs off its end, with all
   jumps in range, that answers every packet as the condition does.
   */
  method CompileFilter(e: Cond, prefix: seq<Stmt>, snaplen: u32) returns (fp: array<Assembler.Insn>)
    ensures Answers(fp[..], prefix, e, snaplen)
    ensures forall i :: 0 <= i < fp.Length ==> Assembler.WellEncoded(fp[..], i)
  {
    hide *;
    var gen := new CodeGen.Generator();
    var top := gen.Generate(e);
    assert gen.Meaning().Keys == {top};
    var root; ghost var program;
    root, program := gen.FinishParse(top, prefix, snaplen);
    AllInProgram(gen.blocks, program);
    var g := AsGraph(gen.blocks);
    var converter := new Assembler.Converter(g, root);
    fp := converter.IcodeToFcode();
    CodeAnswers(g, root, prefix, e, snaplen, fp[..]);
  }

  /**
   Any condition whose tests keep to their registers, compiled with branches moved, dead stores
   dropped and equal blocks merged: the array answers every packet on which the condition does not
   fault, and it never runs off its end.
   */
  method CompileOptimized(e: Cond, prefix: seq<Stmt>, snaplen: u32, hash: ValueNumbering.Key -> nat,
                          ghost shared: set<nat>)
    returns (fp: array<Assembler.Insn>)
    requires Containment.ProgramContained(prefix, e, shared)
    ensures forall r, p :: Closing.Answer(prefix, e, snaplen, r, p) != Fault ==>
      Assembler.RunCode(fp[..], 0, r, p) == Some(Closing.Answer(prefix, e, snaplen, r, p))
    ensures forall r, p :: Assembler.RunCode(fp[..], 0, r, p).Some?
    ensures forall i :: 0 <= i < fp.Length ==> Assembler.WellEncoded(fp[..], i)
  {
    hide *;
    var gen := new CodeGen.Generator();
    var top := gen.Generate(e);
    assert gen.Meaning().Keys == {top};
    var root; ghost var program;
    root, program := gen.FinishParse(top, prefix, snaplen);
    AllInProgram(gen.blocks, program);
    var g := AsGraph(gen.blocks);
    ClosedDistinct(gen.blocks, program);
    Containment.GeneratedSelfContained(gen.blocks, program, root, prefix, e, shared);
    MadeConstant(gen.blocks, program, root, prefix, e);
    SameEndsSelf(g);
    LeavesKept(g, g, root);
    var g1; ghost var shared1, t1, ns1, out1;
    g1, shared1, t1, ns1, out1 := MoveBranches(g, root, hash, shared);
    SameSize(g, g1);
    LeavesKept(g, g1, root);
    var g2 := DropDeadStores(g1, root);
    fp := MergeAndAssemble(g2, root);
    OptimizedAnswers(g, g1, g2, root, prefix, e, snaplen, fp[..]);
  }

  lemma MadeConstant(bs: Arena, program: seq<nat>, root: nat, prefix: seq<Stmt>, e: Cond)
    requires Tracing.MadeFrom(bs, program, root, prefix, e)
    ensures forall b :: 0 <= b < |bs| && Closing.ToGraph(bs, program)[b].Ret? ==>
      Closing.ToGraph(bs, program)[b].rv.RetK?
  {
    forall b | 0 <= b < |bs| && b in program ensures bs[b].exit.Done? ==> bs[b].exit.rv.RetK? {
      var k :| 0 <= k < |program| && program[k] == b;
      if k < |Tracing.Tests(e)| {
        assert Tracing.MadeAt(bs[program[k]], if k == 0 then prefix else [], Tracing.Tests(e)[k]);
      } else {
        assert Tracing.Returns(bs[program[k]]);
      }
    }
  }

  lemma ClosedDistinct(bs: Arena, program: seq<nat>)
    requires Closing.Closed(bs, program)
    ensures Distinct(program)
  {
  }

  lemma LeavesKept(g: Graph, g': Graph, root: nat)
    requires SameEnds(g, g') && forall b :: 0 <= b < |g| && g[b].Ret? ==> g[b].rv.RetK?
    ensures Liveness.OwnReturns(g', root)
  {
    forall b: nat | b < |g'| && g'[b].Ret? ensures g'[b].rv.RetK? {
      assert SameEnd(g[b], g'[b]);
    }
  }

  lemma SameEndsSelf(g: Graph)
    ensures SameEnds(g, g)
  {
  }

  lemma SameSize(g: Graph, g': Graph)
    requires SameEnds(g, g')
    ensures |g| == |g'|
  {
  }

  lemma OptimizedAnswers(g: Graph, g1: Graph, g2: Graph, root: nat, prefix: seq<Stmt>, e: Cond, snaplen: u32,
                         code: seq<Assembler.Insn>)
    requires Acyclic(g) && Acyclic(g1) && Acyclic(g2) && root < |g| == |g1| == |g2|
    requires SameVerdicts(g, g1, root) && SameVerdicts(g1, g2, root)
    requires Closing.Answers(g, root, prefix, e, snaplen) && Assembler.Runs(g2, root, code, 0)
    ensures forall r, p :: Closing.Answer(prefix, e, snaplen, r, p) != Fault ==>
      Assembler.RunCode(code, 0, r, p) == Some(Closing.Answer(prefix, e, snaplen, r, p))
    ensures forall r, p :: Assembler.RunCode(code, 0, r, p).Some?
  {
    forall r, p
      ensures Closing.Answer(prefix, e, snaplen, r, p) != Fault ==>
        Assembler.RunCode(code, 0, r, p) == Some(Closing.Answer(prefix, e, snaplen, r, p))
      ensures Assembler.RunCode(code, 0, r, p).Some?
    {
      assert Run(g, root, r, p) == Closing.Answer(prefix, e, snaplen, r, p);
      assert Assembler.RunCode(code, 0, r, p) == Some(Run(g2, root, r, p));
    }
  }

  /** The number the machine hands back: the snapshot length just when the condition holds without a fault. */
  lemma AcceptedExactly(code: seq<Assembler.Insn>, prefix: seq<Stmt>, e: Cond, snaplen: u32, r: Regs, p: Packet)
    requires Answers(code, prefix, e, snaplen) && snaplen > 0
    ensures var v, m := Assembler.RunCode(code, 0, r, p), RunStmts(prefix, r, p);
      && v.Some?
      && (Accepted(v.value) == snaplen <==> m.Some? && Eval(e, m.value, p).Decided? && Eval(e, m.value, p).holds)
      && (Accepted(v.value) == snaplen || Accepted(v.value) == 0)
  {
    assert Assembler.RunCode(code, 0, r, p) == Some(Closing.Answer(prefix, e, snaplen, r, p));
  }
}
