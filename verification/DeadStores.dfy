/**
 Dead-store elimination inside one block: a statement whose result is overwritten before it is
 read, or is not in use when the block ends, becomes a no-op. The verdict of every run that does
 not fault stays the same.
 */
module DeadStores {
  import opened Machine
  import opened FlowGraph
  import opened Liveness

  /** What the end of the block reads, returns included. */
  function EndUses(b: Block): set<nat> {
    match b
    case Br(_, t, _, _) => TestUses(t)
    case Ret(_, rv) => if rv.RetA? then {A_ATOM} else {}
  }

  predicate Dead(ss: seq<Stmt>, i: nat, live: set<nat>)
    requires i < |ss|
  {
    Def(ss[i]).Some? && Def(ss[i]).value !in LiveBefore(ss[i + 1..], live)
  }

  /** The list with exactly the dead statements replaced by no-ops. */
  function Pruned(ss: seq<Stmt>, live: set<nat>): (r: seq<Stmt>)
    ensures |r| == |ss|
  {
    seq(|ss|, i requires 0 <= i < |ss| => if Dead(ss, i, live) then Nop else ss[i])
  }

  // ----- what pruning preserves -----

  /** Some of the dead statements of ss have become no-ops; the others are as they were. */
  predicate Thins(ss: seq<Stmt>, thin: seq<Stmt>, live: set<nat>) {
    |thin| == |ss| && forall i :: 0 <= i < |ss| ==> thin[i] == ss[i] || (thin[i].Nop? && Dead(ss, i, live))
  }

  lemma ThinsTail(ss: seq<Stmt>, thin: seq<Stmt>, live: set<nat>)
    requires ss != [] && Thins(ss, thin, live)
    ensures Thins(ss[1..], thin[1..], live)
    ensures thin[0] == ss[0] || (thin[0].Nop? && Def(ss[0]).Some? && Def(ss[0]).value !in LiveBefore(ss[1..], live))
  {
    forall i | 0 <= i < |ss[1..]| && thin[1..][i] != ss[1..][i] ensures thin[1..][i].Nop? && Dead(ss[1..], i, live) {
      var next := i + 1;
      assert thin[next] != ss[next] && Dead(ss, next, live);
      assert ss[1..][i + 1..] == ss[next + 1..];
    }
  }

  /** With sets that are too large, only some of the dead statements go. */
  lemma PrunedThins(ss: seq<Stmt>, wide: set<nat>, live: set<nat>)
    requires live <= wide
    ensures Thins(ss, Pruned(ss, wide), live)
  {
    forall i | 0 <= i < |ss| && Dead(ss, i, wide) ensures Dead(ss, i, live) {
      LiveBeforeMonotone(ss[i + 1..], live, wide);
    }
  }

  /** Run on states that agree on what is live, the thinned list ends in one that still agrees. */
  lemma {:induction false} ThinnedRuns(ss: seq<Stmt>, thin: seq<Stmt>, live: set<nat>, r: Regs, s: Regs, p: Packet)
    requires Thins(ss, thin, live) && Agree(r, s, LiveBefore(ss, live)) && RunStmts(ss, r, p).Some?
    ensures RunStmts(thin, s, p).Some? && Agree(RunStmts(ss, r, p).value, RunStmts(thin, s, p).value, live)
  {
    if ss != [] {
      ThinsTail(ss, thin, live);
      StepAgree(ss[0], r, s, p, LiveBefore(ss[1..], live));
      ThinnedRuns(ss[1..], thin[1..], live, Step(ss[0], r, p).value, Step(thin[0], s, p).value, p);
    }
  }

  /** No statement that can fault has gone. */
  predicate FaultsStay(ss: seq<Stmt>, thin: seq<Stmt>)
    requires |thin| == |ss|
  {
    forall i :: 0 <= i < |ss| && CanFault(ss[i]) ==> thin[i] == ss[i]
  }

  /** Then the thinned list faults whenever the full one does. */
  lemma {:induction false} ThinnedFaults(ss: seq<Stmt>, thin: seq<Stmt>, live: set<nat>, r: Regs, s: Regs, p: Packet)
    requires Thins(ss, thin, live) && FaultsStay(ss, thin)
    requires Agree(r, s, LiveBefore(ss, live)) && RunStmts(ss, r, p).None?
    ensures RunStmts(thin, s, p).None?
  {
    ThinsTail(ss, thin, live);
    StepAgree(ss[0], r, s, p, LiveBefore(ss[1..], live));
    CanFaultExact(ss[0]);
    if Step(ss[0], r, p).Some? {
      forall i | 0 <= i < |ss[1..]| && CanFault(ss[1..][i]) ensures thin[1..][i] == ss[1..][i] {
        var next := i + 1;
        assert CanFault(ss[next]);
      }
      ThinnedFaults(ss[1..], thin[1..], live, Step(ss[0], r, p).value, Step(thin[0], s, p).value, p);
    }
  }

  /** What is live at the end of block b. */
  ghost function EndLive(g: Graph, b: nat): set<nat>
    requires Acyclic(g) && b < |g|
  {
    EndUses(g[b]) + OutUse(g, b)
  }

  function WithStmts(b: Block, ss: seq<Stmt>): Block {
    match b
    case Ret(_, rv) => Ret(ss, rv)
    case Br(_, t, jt, jf) => Br(ss, t, jt, jf)
  }

  /** The graph after opt_deadstores on block b. */
  ghost function WithoutDeadStores(g: Graph, b: nat): Graph
    requires Acyclic(g) && b < |g|
  {
    g[b := WithStmts(g[b], Pruned(g[b].stmts, EndLive(g, b)))]
  }

  lemma SameEdges(g: Graph, b: nat, ss: seq<Stmt>)
    requires Acyclic(g) && b < |g|
    ensures Ranked(g[b := WithStmts(g[b], ss)], RankOf(g))
  {
  }

  /** The graph after opt_deadstores on all blocks of bs, with what was in use in g. */
  ghost function PrunedBlocks(g: Graph, bs: set<nat>): (r: Graph)
    requires Acyclic(g)
    ensures |r| == |g|
  {
    seq(|g|, b requires 0 <= b < |g| =>
      if b in bs then WithStmts(g[b], Pruned(g[b].stmts, EndLive(g, b))) else g[b])
  }

  lemma PrunedBlocksAcyclic(g: Graph, bs: set<nat>)
    requires Acyclic(g)
    ensures Acyclic(PrunedBlocks(g, bs))
  {
    assert Ranked(PrunedBlocks(g, bs), RankOf(g));
  }

  // ----- a whole graph -----

  /** h is g with lists thinned by what is live in g, in the blocks that b reaches. */
  ghost predicate ThinnedFrom(g: Graph, h: Graph, b: nat)
    requires Acyclic(g)
  {
    && |h| == |g| && (forall c :: 0 <= c < |g| ==> h[c] == WithStmts(g[c], h[c].stmts))
    && forall c: nat :: c < |g| && Reachable(g, b, c) ==> Thins(g[c].stmts, h[c].stmts, EndLive(g, c))
  }

  ghost predicate FaultsStayFrom(g: Graph, h: Graph, b: nat)
    requires Acyclic(g) && ThinnedFrom(g, h, b)
  {
    forall c: nat :: c < |g| && Reachable(g, b, c) ==> FaultsStay(g[c].stmts, h[c].stmts)
  }

  lemma ThinnedBelow(g: Graph, h: Graph, b: nat)
    requires Acyclic(g) && b < |g| && ThinnedFrom(g, h, b)
    ensures g[b].Br? ==> ThinnedFrom(g, h, g[b].jt) && ThinnedFrom(g, h, g[b].jf)
    ensures g[b].Br? && FaultsStayFrom(g, h, b) ==> FaultsStayFrom(g, h, g[b].jt) && FaultsStayFrom(g, h, g[b].jf)
    ensures Thins(g[b].stmts, h[b].stmts, EndLive(g, b))
    ensures FaultsStayFrom(g, h, b) ==> FaultsStay(g[b].stmts, h[b].stmts)
  {
    ReachableSelf(g, b);
    if g[b].Br? {
      ReachableBelow(g, b);
    }
  }

  lemma SameShape(g: Graph, h: Graph)
    requires Acyclic(g) && |h| == |g| && forall c :: 0 <= c < |g| ==> h[c] == WithStmts(g[c], h[c].stmts)
    ensures Acyclic(h)
  {
    assert Ranked(h, RankOf(g)) by {
      forall b | 0 <= b < |h| && h[b].Br?
        ensures h[b].jt < |h| && h[b].jf < |h| && RankOf(g)[h[b].jt] < RankOf(g)[b] && RankOf(g)[h[b].jf] < RankOf(g)[b]
      {
        assert h[b] == WithStmts(g[b], h[b].stmts);
      }
    }
  }

  lemma ThinnedBlockRuns(g: Graph, h: Graph, b: nat, r: Regs, s: Regs, p: Packet)
    requires Acyclic(g) && b < |g| && OwnReturns(g, b) && Agree(r, s, InUse(g, b)) && ThinnedFrom(g, h, b)
    requires RunStmts(g[b].stmts, r, p).Some? || FaultsStayFrom(g, h, b)
    ensures var m, n := RunStmts(g[b].stmts, r, p), RunStmts(h[b].stmts, s, p);
      m.Some? == n.Some? && (m.Some? ==> Agree(m.value, n.value, EndLive(g, b)))
  {
    OwnReturnsBelow(g, b);
    ThinnedBelow(g, h, b);
    if g[b].Ret? && g[b].rv.RetA? {
      assert EndLive(g, b) == {A_ATOM} && ExitUses(g[b]) + OutUse(g, b) == {};
    } else {
      assert EndLive(g, b) == ExitUses(g[b]) + OutUse(g, b);
    }
    if RunStmts(g[b].stmts, r, p).Some? {
      ThinnedRuns(g[b].stmts, h[b].stmts, EndLive(g, b), r, s, p);
    } else {
      ThinnedFaults(g[b].stmts, h[b].stmts, EndLive(g, b), r, s, p);
    }
  }

  /**
   Thinning any lists by what is live in the graph keeps, from all states that agree on what was in
   use, the verdict of every run that does not fault; and of every run, if no statement goes that can fault.
   */
  lemma {:induction false} ThinnedKeepsVerdict(g: Graph, h: Graph, b: nat, r: Regs, s: Regs, p: Packet)
    requires Acyclic(g) && Acyclic(h) && b < |g| && OwnReturns(g, b) && Agree(r, s, InUse(g, b)) && ThinnedFrom(g, h, b)
    ensures Run(g, b, r, p) != Fault || FaultsStayFrom(g, h, b) ==> Run(h, b, s, p) == Run(g, b, r, p)
    decreases RankOf(g)[b]
  {
    if Run(g, b, r, p) != Fault || FaultsStayFrom(g, h, b) {
      ThinnedBlockRuns(g, h, b, r, s, p);
      ThinnedBelow(g, h, b);
      OwnReturnsBelow(g, b);
      assert h[b] == WithStmts(g[b], h[b].stmts);
      var m, n := RunStmts(g[b].stmts, r, p), RunStmts(h[b].stmts, s, p);
      if m.Some? && g[b].Br? {
        assert A_ATOM in TestUses(g[b].test) && Taken(g[b].test, m.value) == Taken(g[b].test, n.value);
        var c := if Taken(g[b].test, m.value) then g[b].jt else g[b].jf;
        ThinnedKeepsVerdict(g, h, c, m.value, n.value, p);
      }
    }
  }

  // ----- the pass over blocks -----

  /** No dead statement of the list is one that can fault. */
  predicate DeadSafe(ss: seq<Stmt>, live: set<nat>) {
    forall i :: 0 <= i < |ss| && CanFault(ss[i]) ==> !Dead(ss, i, live)
  }

  /** No dead statement can fault in the blocks of bs that b reaches. */
  ghost predicate SafeToPrune(g: Graph, bs: set<nat>, b: nat)
    requires Acyclic(g)
  {
    forall c: nat :: c < |g| && c in bs && Reachable(g, b, c) ==> DeadSafe(g[c].stmts, EndLive(g, c))
  }

  /**
   Any number of blocks can be pruned with the sets of the graph the pass started from, from all
   states that agree on what was in use: runs that do not fault keep their verdict, and when no
   dead statement can fault all runs do.
   */
  lemma PassKeepsVerdict(g: Graph, bs: set<nat>, b: nat, r: Regs, s: Regs, p: Packet)
    requires Acyclic(g) && b < |g| && OwnReturns(g, b) && Agree(r, s, InUse(g, b))
    ensures Acyclic(PrunedBlocks(g, bs))
    ensures Run(g, b, r, p) != Fault || SafeToPrune(g, bs, b) ==> Run(PrunedBlocks(g, bs), b, s, p) == Run(g, b, r, p)
  {
    var h := PrunedBlocks(g, bs);
    PrunedBlocksAcyclic(g, bs);
    forall c: nat | c < |g|
      ensures h[c] == WithStmts(g[c], h[c].stmts) && Thins(g[c].stmts, h[c].stmts, EndLive(g, c))
    {
      PrunedThins(g[c].stmts, EndLive(g, c), EndLive(g, c));
    }
    if SafeToPrune(g, bs, b) {
      assert FaultsStayFrom(g, h, b);
    }
    ThinnedKeepsVerdict(g, h, b, r, s, p);
  }

  /** Removing the dead stores of one block. */
  lemma VerdictKept(g: Graph, b: nat, from: nat, r: Regs, p: Packet)
    requires Acyclic(g) && b < |g| && from < |g| && OwnReturns(g, from)
    requires Run(g, from, r, p) != Fault || DeadSafe(g[b].stmts, EndLive(g, b))
    ensures Acyclic(WithoutDeadStores(g, b))
    ensures Run(WithoutDeadStores(g, b), from, r, p) == Run(g, from, r, p)
  {
    assert WithoutDeadStores(g, b) == PrunedBlocks(g, {b});
    PassKeepsVerdict(g, {b}, from, r, r, p);
  }

  /** A dead load can be what makes a run fault: without it the same packet is accepted. */
  lemma FaultMayVanish()
    ensures var g := [Ret([LdAbs(W, 4)], RetK(1))];
      var r: Regs, p := seq(N_ATOMS, i => 0), Packet([], 0);
      Acyclic(g) && Run(g, 0, r, p) == Fault
      && Acyclic(WithoutDeadStores(g, 0)) && Run(WithoutDeadStores(g, 0), 0, r, p) == Return(1)
  {
    var g := [Ret([LdAbs(W, 4)], RetK(1))];
    assert Ranked(g, [0]);
    SameEdges(g, 0, Pruned(g[0].stmts, EndLive(g, 0)));
    assert g[0].stmts[1..] == [];
    var ss := g[0].stmts;
    var live := EndLive(g, 0);
    assert ss[1..] == [] && LiveBefore(ss[1..], live) == live == {};
    assert Dead(ss, 0, live);
    assert Pruned(ss, live) == [Nop];
    assert WithoutDeadStores(g, 0)[0] == Ret([Nop], RetK(1));
    var r: Regs, p := seq(N_ATOMS, i => 0), Packet([], 0);
    assert RunStmts([Nop], r, p) == Some(r) by { assert [Nop][1..] == []; }
  }

  // ----- the pass -----

  datatype Fate = Pending | Used | Redefined

  /** What first happens to atom a in a run of statements. */
  function FateOf(ss: seq<Stmt>, a: nat): Fate {
    if ss == [] then Pending
    else if a in Uses(ss[0]) then Used
    else if a in Defs(ss[0]) then Redefined
    else FateOf(ss[1..], a)
  }

  lemma {:induction false} FateIsLiveness(ss: seq<Stmt>, a: nat, live: set<nat>)
    ensures a in LiveBefore(ss, live) <==> FateOf(ss, a).Used? || (FateOf(ss, a).Pending? && a in live)
  {
    if ss != [] {
      FateIsLiveness(ss[1..], a, live);
    }
  }

  lemma {:induction false} FateAppend(ss: seq<Stmt>, s: Stmt, a: nat)
    ensures FateOf(ss + [s], a) ==
            if !FateOf(ss, a).Pending? then FateOf(ss, a)
            else if a in Uses(s) then Used else if a in Defs(s) then Redefined else Pending
  {
    if ss == [] {
      assert ([] + [s])[1..] == [];
    } else {
      assert (ss + [s])[1..] == ss[1..] + [s];
      FateAppend(ss[1..], s, a);
    }
  }

  predicate Replaced(ss: seq<Stmt>, i: nat, j: nat)
    requires i <= |ss| && j < |ss|
  {
    j < i && Def(ss[j]).Some? && FateOf(ss[j + 1..i], Def(ss[j]).value).Redefined?
  }

  predicate IsLast(ss: seq<Stmt>, i: nat, a: nat, j: nat)
    requires i <= |ss| && j < |ss|
  {
    j < i && Def(ss[j]) == Some(a) && FateOf(ss[j + 1..i], a).Pending?
  }

  /** The list after the scan has passed i statements: those redefined so far are no-ops. */
  ghost predicate Scanned(ss: seq<Stmt>, i: nat, now: seq<Stmt>)
    requires i <= |ss|
  {
    && |now| == |ss|
    && forall j :: 0 <= j < |ss| ==> now[j] == if Replaced(ss, i, j) then Nop else ss[j]
  }

  /** last[a] is the statement whose value of atom a has been neither read nor replaced. */
  ghost predicate LastOf(ss: seq<Stmt>, i: nat, last: seq<Option<nat>>)
    requires i <= |ss|
  {
    && |last| == N_ATOMS
    && (forall a :: 0 <= a < N_ATOMS && last[a].Some? ==> last[a].value < |ss|)
    && (forall a, j :: 0 <= a < N_ATOMS && 0 <= j < |ss| ==> (last[a] == Some(j) <==> IsLast(ss, i, a, j)))
  }

  /** last[] after the uses of a statement have been taken into account. */
  function Read(last: seq<Option<nat>>, uses: set<nat>): (r: seq<Option<nat>>)
    ensures |r| == |last|
  {
    seq(|last|, a requires 0 <= a < |last| => if a in uses then None else last[a])
  }

  /** The stretch after statement j grows by one statement. */
  lemma SegmentStep(ss: seq<Stmt>, i: nat, j: nat, a: nat)
    requires i < |ss| && j <= i
    ensures FateOf(ss[j + 1..i + 1], a) == (
      if j == i then Pending
      else if !FateOf(ss[j + 1..i], a).Pending? then FateOf(ss[j + 1..i], a)
      else if a in Uses(ss[i]) then Used else if a in Defs(ss[i]) then Redefined else Pending)
  {
    if j < i {
      assert ss[j + 1..i + 1] == ss[j + 1..i] + [ss[i]];
      FateAppend(ss[j + 1..i], ss[i], a);
    } else {
      assert ss[j + 1..i + 1] == [];
    }
  }

  lemma LastStep(ss: seq<Stmt>, i: nat, last: seq<Option<nat>>, a: nat, j: nat)
    requires i < |ss| && LastOf(ss, i, last) && a < N_ATOMS && j < |ss|
    ensures IsLast(ss, i + 1, a, j) <==>
      if Def(ss[i]) == Some(a) then j == i else Read(last, Uses(ss[i]))[a] == Some(j)
  {
    if j <= i {
      SegmentStep(ss, i, j, a);
    }
  }

  lemma ReplacedStep(ss: seq<Stmt>, i: nat, last: seq<Option<nat>>, j: nat)
    requires i < |ss| && LastOf(ss, i, last) && j < |ss|
    ensures Replaced(ss, i + 1, j) <==>
      Replaced(ss, i, j) || (Def(ss[i]).Some? && Read(last, Uses(ss[i]))[Def(ss[i]).value] == Some(j))
  {
    if j <= i && Def(ss[j]).Some? {
      SegmentStep(ss, i, j, Def(ss[j]).value);
      assert last[Def(ss[j]).value] == Some(j) <==> IsLast(ss, i, Def(ss[j]).value, j);
    }
    if Def(ss[i]).Some? {
      assert last[Def(ss[i]).value] == Some(j) <==> IsLast(ss, i, Def(ss[i]).value, j);
    }
  }

  lemma ScanStep(ss: seq<Stmt>, i: nat, now: seq<Stmt>, last: seq<Option<nat>>)
    requires i < |ss| && Scanned(ss, i, now) && LastOf(ss, i, last)
    ensures now[i] == ss[i]
    ensures var mid, d := Read(last, Uses(ss[i])), Def(ss[i]);
      && LastOf(ss, i + 1, if d.Some? then mid[d.value := Some(i)] else mid)
      && (d.Some? && mid[d.value].Some? ==> mid[d.value].value < |ss|)
      && Scanned(ss, i + 1, if d.Some? && mid[d.value].Some? then now[mid[d.value].value := Nop] else now)
  {
    forall j | 0 <= j < |ss| { ReplacedStep(ss, i, last, j); }
    forall a, j | 0 <= a < N_ATOMS && 0 <= j < |ss| { LastStep(ss, i, last, a, j); }
  }

  /** When the scan is over, what remains is decided by the uses at the end and by out_use. */
  lemma ScanEnd(ss: seq<Stmt>, now: seq<Stmt>, last: seq<Option<nat>>, end: set<nat>, out: set<nat>, j: nat)
    requires Scanned(ss, |ss|, now) && LastOf(ss, |ss|, last) && j < |ss|
    ensures Dead(ss, j, end + out) <==>
      Replaced(ss, |ss|, j) || (Def(ss[j]).Some? && Def(ss[j]).value !in out
        && Read(last, end)[Def(ss[j]).value] == Some(j))
  {
    if Def(ss[j]).Some? {
      var a := Def(ss[j]).value;
      FateIsLiveness(ss[j + 1..], a, end + out);
      assert ss[j + 1..|ss|] == ss[j + 1..];
      assert last[a] == Some(j) <==> IsLast(ss, |ss|, a, j);
    }
  }

  /** Among the atoms below n, one not in use on exit was last set by statement j. */
  predicate Unread(ss: seq<Stmt>, last: seq<Option<nat>>, out: set<nat>, n: nat, j: nat)
    requires j < |ss|
  {
    Def(ss[j]).Some? && Def(ss[j]).value < n && Def(ss[j]).value < |last|
    && Def(ss[j]).value !in out && last[Def(ss[j]).value] == Some(j)
  }

  /** deadstmt for the statement at position i of the list. */
  method DeadStmt(stmts: array<Stmt>, i: nat, last0: seq<Option<nat>>) returns (last: seq<Option<nat>>)
    requires i < stmts.Length && |last0| == N_ATOMS
    requires forall a :: 0 <= a < N_ATOMS && last0[a].Some? ==> last0[a].value < stmts.Length
    modifies stmts
    ensures var mid, d := Read(last0, Uses(old(stmts[i]))), Def(old(stmts[i]));
      && last == (if d.Some? then mid[d.value := Some(i)] else mid)
      && stmts[..] == if d.Some? && mid[d.value].Some? then old(stmts[..])[mid[d.value].value := Nop]
        else old(stmts[..])
  {
    last := Read(last0, Uses(stmts[i]));
    var d := Def(stmts[i]);
    if d.Some? {
      if last[d.value].Some? {
        stmts[last[d.value].value] := Nop;
      }
      last := last[d.value := Some(i)];
    }
  }

  /** opt_deadstores on a block that ends like b and has out in use afterwards. */
  method OptDeadstores(stmts: array<Stmt>, b: Block, out: set<nat>)
    requires b.stmts == stmts[..]
    modifies stmts
    ensures stmts[..] == Pruned(b.stmts, EndUses(b) + out)
  {
    ghost var ss := b.stmts;
    var last: seq<Option<nat>> := seq(N_ATOMS, a => None);
    var i := 0;
    while i < stmts.Length
      invariant i <= stmts.Length == |ss|
      invariant Scanned(ss, i, stmts[..]) && LastOf(ss, i, last)
    {
      ScanStep(ss, i, stmts[..], last);
      last := DeadStmt(stmts, i, last);
      i := i + 1;
    }
    ghost var before, final := last, stmts[..];
    last := Read(last, EndUses(b));
    for atom := 0 to N_ATOMS
      invariant |last| == N_ATOMS && stmts.Length == |ss|
      invariant forall j :: 0 <= j < |ss| ==>
        stmts[j] == if Replaced(ss, |ss|, j) || Unread(ss, last, out, atom, j) then Nop else ss[j]
    {
      if last[atom].Some? && atom !in out {
        assert IsLast(ss, |ss|, atom, last[atom].value);
        stmts[last[atom].value] := Nop;
      }
    }
    forall j | 0 <= j < |ss| ensures stmts[j] == Pruned(ss, EndUses(b) + out)[j] {
      ScanEnd(ss, final, before, EndUses(b), out, j);
    }
  }
}
