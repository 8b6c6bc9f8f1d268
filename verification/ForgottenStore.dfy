/**
 A store that opt_blk deletes as dead while its number lives on: a graph of self-contained blocks,
 its exact liveness, and the pass that makes an accepted packet be rejected.
 */
module ForgottenStore {
  import opened Machine
  import opened FlowGraph
  import opened Liveness
  import opened DeadStores
  import opened ValueNumbering
  import opened BlockNumbering
  import opened Rewriting
  import Containment

  /** Both blocks set what they read. The first stores a byte nobody asks for, the second stores it again. */
  function Forgetful(): Graph {
    [Br([LdAbs(B, 0), St(3)], JmpK(JEQ, 0), 1, 2),
     Br([LdAbs(B, 0), St(3), LdImm(7), LdMem(3)], JmpK(JEQ, 0), 3, 4),
     Ret([], RetK(0)), Ret([], RetK(1)), Ret([], RetK(0))]
  }

  /** The same after opt_blk: the store of the first block is dead, that of the second one redundant. */
  function Forgotten(): Graph {
    [Br([LdAbs(B, 0), Nop], JmpK(JEQ, 0), 1, 2),
     Br([Nop, Nop, Nop, LdMem(3)], JmpK(JEQ, 0), 3, 4),
     Ret([], RetK(0)), Ret([], RetK(1)), Ret([], RetK(0))]
  }

  /** The lists opt_stmt leaves, before the dead stores go. */
  function Midway(): Graph {
    [Br([LdAbs(B, 0), St(3)], JmpK(JEQ, 0), 1, 2),
     Br([Nop, Nop, LdImm(7), LdMem(3)], JmpK(JEQ, 0), 3, 4),
     Ret([], RetK(0)), Ret([], RetK(1)), Ret([], RetK(0))]
  }

  function ForgetfulTable(): Table {
    [KAbs(B, 0), KImm(0), KImm(7), KImm(1)]
  }

  /** Nothing known. */
  function Blank(): Vals {
    seq(N_ATOMS, a => 0)
  }

  /** The byte in A and in M[3]. */
  function Loaded(): Vals {
    Blank()[A_ATOM := 1][3 := 1]
  }

  function ForgetfulNumbers(): seq<Numbers> {
    [Numbers(Blank(), Loaded(), 2, [LdAbs(B, 0), St(3)]),
     Numbers(Loaded(), Loaded(), 2, [Nop, Nop, LdImm(7), LdMem(3)]),
     Numbers(Loaded(), Loaded(), 2, []), Numbers(Loaded(), Loaded(), 4, []), Numbers(Loaded(), Loaded(), 2, [])]
  }

  // ----- the numbers are those opt_blk gives -----

  lemma ForgetfulTables()
    ensures WellFormed(ForgetfulTable()) && WellFormed([]) && Within([], Blank()) && Within(ForgetfulTable(), Loaded())
    ensures Intern(ForgetfulTable(), KImm(0)) == (ForgetfulTable(), 2)
    ensures Intern(ForgetfulTable(), KImm(1)) == (ForgetfulTable(), 4)
  {
    var t := ForgetfulTable();
    assert t[1..] == [KImm(0), KImm(7), KImm(1)] && t[1..][1..] == [KImm(7), KImm(1)] && t[1..][1..][1..] == [KImm(1)];
  }

  lemma FirstNumbered()
    ensures NumberedBlock(ForgetfulTable(), Forgetful()[0], ForgetfulNumbers()[0], true)
  {
    var t, b, n := ForgetfulTable(), Forgetful()[0], ForgetfulNumbers()[0];
    ForgetfulTables();
    assert b.stmts[1..] == [St(3)] && [St(3)][1..] == [];
    var v: Vals := Blank()[A_ATOM := 1];
    assert OptStmts([KAbs(B, 0)], v, [St(3)], true) == Listed([KAbs(B, 0)], Loaded(), [St(3)]);
    assert OptStmts([], Blank(), b.stmts, true) == Listed([KAbs(B, 0)], Loaded(), n.ss);
    assert NumberedFrom([], t, b, n, true);
  }

  lemma SecondSteps()
    ensures var t, v: Vals := ForgetfulTable(), Loaded()[A_ATOM := 3];
      && OptStmt(t, Loaded(), LdAbs(B, 0), true) == Rewritten(t, Loaded(), Nop)
      && OptStmt(t, Loaded(), St(3), true) == Rewritten(t, Loaded(), Nop)
      && OptStmt(t, Loaded(), LdImm(7), true) == Rewritten(t, v, LdImm(7))
      && OptStmt(t, v, LdMem(3), true) == Rewritten(t, Loaded(), LdMem(3))
  {
    assert Loaded()[A_ATOM := 3][A_ATOM := 1] == Loaded();
  }

  lemma NumberedFirst(t: Table, v: Vals, s: Stmt, ss: seq<Stmt>, v': Vals, s': Stmt, v'': Vals, ss': seq<Stmt>)
    requires OptStmt(t, v, s, true) == Rewritten(t, v', s') && OptStmts(t, v', ss, true) == Listed(t, v'', ss')
    ensures OptStmts(t, v, [s] + ss, true) == Listed(t, v'', [s'] + ss')
  {
    assert ([s] + ss)[1..] == ss;
    hide OptStmt;
  }

  lemma SecondList()
    ensures OptStmts(ForgetfulTable(), Loaded(), [LdAbs(B, 0), St(3), LdImm(7), LdMem(3)], true)
            == Listed(ForgetfulTable(), Loaded(), [Nop, Nop, LdImm(7), LdMem(3)])
  {
    SecondSteps();
    var t, u, v: Vals := ForgetfulTable(), Loaded(), Loaded()[A_ATOM := 3];
    assert OptStmts(t, u, [], true) == Listed(t, u, []);
    hide OptStmt, OptStmts, ForgetfulTable, Loaded;
    NumberedFirst(t, v, LdMem(3), [], u, LdMem(3), u, []);
    NumberedFirst(t, u, LdImm(7), [LdMem(3)] + [], v, LdImm(7), u, [LdMem(3)] + []);
    NumberedFirst(t, u, St(3), [LdImm(7)] + ([LdMem(3)] + []), u, Nop, u, [LdImm(7)] + ([LdMem(3)] + []));
    var ss := [St(3)] + ([LdImm(7)] + ([LdMem(3)] + []));
    var ss' := [Nop] + ([LdImm(7)] + ([LdMem(3)] + []));
    NumberedFirst(t, u, LdAbs(B, 0), ss, u, Nop, u, ss');
    assert [LdAbs(B, 0)] + ss == [LdAbs(B, 0), St(3), LdImm(7), LdMem(3)];
    assert [Nop] + ss' == [Nop, Nop, LdImm(7), LdMem(3)];
  }

  lemma NumberedIs(t: Table, b: Block, n: Numbers)
    requires WellFormed(t) && Within(t, n.entry) && OptStmts(t, n.entry, b.stmts, true) == Listed(t, n.val, n.ss)
    requires Operand(t, b, n.val) == (t, n.oval)
    ensures NumberedBlock(t, b, n, true)
  {
    assert NumberedFrom(t, t, b, n, true);
  }

  lemma OthersNumbered(b: nat)
    requires 1 <= b < 5
    ensures NumberedBlock(ForgetfulTable(), Forgetful()[b], ForgetfulNumbers()[b], true)
  {
    ForgetfulTables();
    SecondList();
    hide ForgetfulTable, Loaded, Intern;
    NumberedIs(ForgetfulTable(), Forgetful()[b], ForgetfulNumbers()[b]);
  }

  /** The block every other block of the graph is entered from. */
  function Before(b: nat): nat {
    if b < 3 then 0 else 1
  }

  lemma ForgetfulEdges()
    ensures forall a: nat, b: nat :: Edge(Forgetful(), a, b) ==> 0 < b < 5 && a == Before(b)
    ensures forall b: nat :: 0 < b < 5 ==> Edge(Forgetful(), Before(b), b)
  {
  }

  lemma ForgetfulReached(b: nat)
    requires b < 5
    ensures Reachable(Forgetful(), 0, b)
  {
    var g := Forgetful();
    ForgetfulEdges();
    assert |g| == 5;
    hide Forgetful, Reachable, Edge;
    ReachableSelf(g, 0);
    ReachableStep(g, 0, 0, 1);
    if b > 0 {
      ReachableStep(g, 0, Before(b), b);
    }
  }

  /** A block with one way in inherits what the block before it leaves. */
  lemma OnlyBefore(g: Graph, root: nat, ns: seq<Numbers>, b: nat, c: nat)
    requires |ns| == |g| && b < |g| && b != root && Edge(g, c, b) && Reachable(g, root, c)
    requires forall a: nat :: Edge(g, a, b) ==> a == c
    requires ns[b].entry == ns[c].val
    ensures EntryMeets(g, root, ns, b)
  {
    hide Reachable;
    forall a: nat, v: nat | a < N_ATOMS && AllLeave(g, root, ns, b, a, v) ensures ns[b].entry[a] == v {
    }
  }

  lemma ForgetfulShape(b: nat)
    requires b < 5
    ensures |ForgetfulNumbers()| == |Forgetful()| == |Forgotten()| == 5
    ensures b > 0 ==> ForgetfulNumbers()[b].entry == ForgetfulNumbers()[Before(b)].val
    ensures b == 0 ==> forall a :: 0 <= a < N_ATOMS ==> ForgetfulNumbers()[b].entry[a] == 0
    ensures if b < 2 then Forgetful()[b].Br? && b < Forgetful()[b].jt < 5 && b < Forgetful()[b].jf < 5
            else Forgetful()[b].Ret? && Forgetful()[b].rv.RetK?
  {
  }

  lemma ForgetfulMeets(b: nat)
    requires b < 5
    ensures |ForgetfulNumbers()| == |Forgetful()| == 5 && EntryMeets(Forgetful(), 0, ForgetfulNumbers(), b)
  {
    ForgetfulShape(b);
    if b > 0 {
      ForgetfulReached(Before(b));
      ForgetfulEdges();
      hide *;
      OnlyBefore(Forgetful(), 0, ForgetfulNumbers(), b, Before(b));
    }
  }

  lemma NumberedAll(t: Table, g: Graph, ns: seq<Numbers>)
    requires WellFormed(t) && |ns| == |g| == 5
    requires forall b: nat :: b < 5 ==> NumberedBlock(t, g[b], ns[b], true) && EntryMeets(g, 0, ns, b)
    ensures Numbered(t, g, 0, ns, true)
  {
  }

  lemma ForgetfulNumbered()
    ensures Numbered(ForgetfulTable(), Forgetful(), 0, ForgetfulNumbers(), true)
  {
    hide *;
    ForgetfulTables();
    ForgetfulMeets(0);
    var t, g, ns := ForgetfulTable(), Forgetful(), ForgetfulNumbers();
    forall b: nat | b < 5 ensures NumberedBlock(t, g[b], ns[b], true) && EntryMeets(g, 0, ns, b) {
      ForgetfulMeets(b);
      FirstNumbered();
      if b > 0 {
        OthersNumbered(b);
      }
    }
    NumberedAll(t, g, ns);
  }

  // ----- liveness, and what the pass leaves -----

  lemma ForgetfulLive(b: nat)
    requires b < 5
    ensures LiveBefore(Forgetful()[b].stmts, EndUses(Forgetful()[b])) == {}
  {
    Containment.LiveBeforeTwo(LdImm(7), LdMem(3), {A_ATOM});
    Containment.LiveBeforeTwo(LdAbs(B, 0), St(3), {3});
    Containment.LiveBeforeTwo(LdAbs(B, 0), St(3), {A_ATOM});
    var first, last := [LdAbs(B, 0), St(3)], [LdImm(7), LdMem(3)];
    assert LiveBefore(last, {A_ATOM}) == {3} && LiveBefore(first, {3}) == {} && LiveBefore(first, {A_ATOM}) == {};
    assert LiveBefore([], {}) == {};
    assert EndUses(Forgetful()[b]) == if b < 2 then {A_ATOM} else {};
    assert first + last == Forgetful()[1].stmts && first == Forgetful()[0].stmts;
    assert b >= 2 ==> Forgetful()[b].stmts == [];
    hide LiveBefore, Forgetful;
    Containment.LiveBeforeConcat(first, last, {A_ATOM});
  }

  lemma ForgetfulSelfContained()
    ensures SelfContained(Forgetful(), 0, {})
  {
    forall b: nat | b < 5 ensures Inherits(Forgetful()[b]) == {} {
      ForgetfulLive(b);
    }
    hide Reachable, Writes, Inherits;
  }

  lemma NothingInUse(g: Graph, b: nat)
    requires Acyclic(g) && b < |g| && LiveBefore(g[b].stmts, EndUses(g[b])) == {} && (g[b].Ret? ==> g[b].rv.RetK?)
    requires g[b].Br? ==> InUse(g, g[b].jt) == {} && InUse(g, g[b].jf) == {}
    ensures OutUse(g, b) == {} && InUse(g, b) == {}
  {
    assert ExitUses(g[b]) + {} == EndUses(g[b]);
  }

  lemma ForgetfulAcyclic()
    ensures Acyclic(Forgetful()) && Acyclic(Forgotten())
  {
    assert Ranked(Forgetful(), [2, 1, 0, 0, 0]) && Ranked(Forgotten(), [2, 1, 0, 0, 0]);
  }

  lemma ForgetfulUse()
    ensures Acyclic(Forgetful()) && forall b: nat :: b < 5 ==> OutUse(Forgetful(), b) == {}
  {
    hide *;
    ForgetfulAcyclic();
    ForgetfulShape(0);
    var g := Forgetful();
    for b := 5 downto 0
      invariant forall c: nat :: b <= c < 5 ==> InUse(g, c) == {} && OutUse(g, c) == {}
    {
      ForgetfulShape(b);
      ForgetfulLive(b);
      NothingInUse(g, b);
    }
  }

  lemma StorePruned()
    ensures Pruned([LdAbs(B, 0), St(3)], {A_ATOM}) == [LdAbs(B, 0), Nop]
    ensures Pruned([Nop, Nop, LdImm(7), LdMem(3)], {A_ATOM}) == [Nop, Nop, Nop, LdMem(3)]
  {
    var two, four := [LdAbs(B, 0), St(3)], [Nop, Nop, LdImm(7), LdMem(3)];
    assert two[1..] == [St(3)] && two[2..] == [] && [St(3)][1..] == [];
    assert four[4..] == [] && four[3..] == [LdMem(3)] && four[3..][1..] == [];
  }

  lemma MidwayIs(b: nat)
    requires b < 5
    ensures |Forgetful()| == |Midway()| == |ForgetfulNumbers()| == 5
    ensures var n := ForgetfulNumbers()[b];
      Midway()[b] == WithStmts(Forgetful()[b], if Emptied(Forgetful()[b], n, {}) then [] else n.ss)
  {
    assert Blank()[X_ATOM] == Loaded()[X_ATOM] == 0;
  }

  lemma MidwayAcyclic()
    ensures Acyclic(Midway())
  {
    assert Ranked(Midway(), [2, 1, 0, 0, 0]);
  }

  lemma Undropping()
    ensures Undropped(Forgetful(), 0, ForgetfulNumbers(), seq(5, b => {})) == Midway()
  {
    MidwayIs(0);
    hide Emptied, Forgetful, Midway, ForgetfulNumbers, Reachable;
    forall b: nat | b < 5
      ensures Reachable(Forgetful(), 0, b)
      ensures var n := ForgetfulNumbers()[b];
        Midway()[b] == WithStmts(Forgetful()[b], if Emptied(Forgetful()[b], n, {}) then [] else n.ss)
    {
      MidwayIs(b);
      ForgetfulReached(b);
    }
  }

  lemma MidwayLive()
    ensures LiveBefore([Nop, Nop, LdImm(7), LdMem(3)], {A_ATOM}) == {3} && LiveBefore([], {}) == {}
  {
    var first, last := [Nop, Nop], [LdImm(7), LdMem(3)];
    Containment.LiveBeforeTwo(LdImm(7), LdMem(3), {A_ATOM});
    Containment.LiveBeforeTwo(Nop, Nop, {3});
    assert LiveBefore(last, {A_ATOM}) == {3} && LiveBefore(first, {3}) == {3};
    hide LiveBefore;
    Containment.LiveBeforeConcat(first, last, {A_ATOM});
    assert first + last == [Nop, Nop, LdImm(7), LdMem(3)];
  }

  /** The rewriting has brought M[3] into use after the first block. */
  lemma MidwayUse()
    ensures Acyclic(Midway()) && OutUse(Midway(), 0) == {3}
  {
    MidwayAcyclic();
    MidwayLive();
    var u := Midway();
    hide LiveBefore, Acyclic;
    NothingInUse(u, 2);
    NothingInUse(u, 3);
    NothingInUse(u, 4);
    assert OutUse(u, 1) == {};
    assert ExitUses(u[1]) + OutUse(u, 1) == {A_ATOM};
    assert InUse(u, 1) == {3};
  }

  lemma FirstLoses()
    ensures Loses(Forgetful()[0], ForgetfulNumbers()[0], {}, {3})
  {
    var ss := ForgetfulNumbers()[0].ss;
    assert EndUses(Forgetful()[0]) + {} == {A_ATOM} && EndUses(Forgetful()[0]) + {3} == {A_ATOM, 3};
    assert Blank()[X_ATOM] == 0 && ss == [LdAbs(B, 0), St(3)] && ss[2..] == [];
    assert Dead(ss, 1, {A_ATOM}) && !Dead(ss, 1, {A_ATOM, 3});
  }

  lemma FinishedAt(b: nat)
    requires b < 5
    ensures |Forgetful()| == |Forgotten()| == |ForgetfulNumbers()| == 5
    ensures Forgotten()[b] == WithStmts(Forgetful()[b], Finished(Forgetful()[b], ForgetfulNumbers()[b], {}, true))
  {
    StorePruned();
    assert EndUses(Forgetful()[b]) + {} == EndUses(Forgetful()[b]);
    assert Blank()[X_ATOM] == Loaded()[X_ATOM] == 0;
    hide Pruned;
  }

  lemma FinishedIs(t: Table, g: Graph, h: Graph, root: nat, ns: seq<Numbers>)
    requires Numbered(t, g, root, ns, true) && |g| == |h| == |ns| == 5 && root < 5
    requires forall b: nat :: b < 5 ==>
      Reachable(g, root, b) && h[b] == WithStmts(g[b], Finished(g[b], ns[b], {}, true))
    ensures FinishedGraph(t, g, h, root, ns, seq(5, b => {}), true)
  {
  }

  lemma ForgottenIsFinished()
    ensures FinishedGraph(ForgetfulTable(), Forgetful(), Forgotten(), 0, ForgetfulNumbers(), seq(5, b => {}), true)
  {
    hide *;
    ForgetfulNumbered();
    FinishedAt(0);
    var g, h, ns := Forgetful(), Forgotten(), ForgetfulNumbers();
    forall b: nat | b < 5 ensures Reachable(g, 0, b) && h[b] == WithStmts(g[b], Finished(g[b], ns[b], {}, true)) {
      ForgetfulReached(b);
      FinishedAt(b);
    }
    FinishedIs(ForgetfulTable(), g, h, 0, ns);
  }

  // ----- the runs -----

  lemma ForgetfulLists(r: Regs)
    ensures var p, x: Regs := Packet([0], 0), r[A_ATOM := 0];
      && RunStmts([LdAbs(B, 0), St(3)], r, p) == Some(x[3 := 0])
      && RunStmts([LdAbs(B, 0), St(3), LdImm(7), LdMem(3)], x[3 := 0], p) == Some(x[3 := 0])
      && RunStmts([LdAbs(B, 0), Nop], r, p) == Some(x)
      && RunStmts([Nop, Nop, Nop, LdMem(3)], x, p) == Some(x[A_ATOM := r[3]])
  {
    var p, x: Regs := Packet([0], 0), r[A_ATOM := 0];
    var y: Regs := x[3 := 0];
    assert Load(p, 0, B) == Some(0) && y[A_ATOM := 0] == y && y[3 := 0] == y && y[A_ATOM := 7][A_ATOM := 0] == y;
    RunTwo(LdAbs(B, 0), St(3), r, p);
    RunTwo(LdAbs(B, 0), St(3), y, p);
    RunTwo(LdImm(7), LdMem(3), y, p);
    RunStmtsAppend([LdAbs(B, 0), St(3)], [LdImm(7), LdMem(3)], y, p);
    assert [LdAbs(B, 0), St(3)] + [LdImm(7), LdMem(3)] == [LdAbs(B, 0), St(3), LdImm(7), LdMem(3)];
    RunTwo(LdAbs(B, 0), Nop, r, p);
    RunTwo(Nop, Nop, x, p);
    RunTwo(Nop, LdMem(3), x, p);
    RunStmtsAppend([Nop, Nop], [Nop, LdMem(3)], x, p);
    assert [Nop, Nop] + [Nop, LdMem(3)] == [Nop, Nop, Nop, LdMem(3)];
  }

  lemma RunNext(g: Graph, b: nat, r: Regs, x: Regs, p: Packet)
    requires Acyclic(g) && b < |g| && g[b].Br? && RunStmts(g[b].stmts, r, p) == Some(x) && g[b].test == JmpK(JEQ, 0)
    ensures g[b].jt < |g| && g[b].jf < |g|
    ensures Run(g, b, r, p) == Run(g, if x[A_ATOM] == 0 then g[b].jt else g[b].jf, x, p)
  {
  }

  lemma ForgetfulRuns(r: Regs)
    requires r[3] != 0 && Acyclic(Forgetful()) && Acyclic(Forgotten())
    ensures Run(Forgetful(), 0, r, Packet([0], 0)) == Return(1)
    ensures Run(Forgotten(), 0, r, Packet([0], 0)) == Return(0)
  {
    var g, h, p := Forgetful(), Forgotten(), Packet([0], 0);
    hide Acyclic, RankOf;
    var x: Regs := r[A_ATOM := 0];
    var y: Regs := x[3 := 0];
    var z: Regs := x[A_ATOM := r[3]];
    ForgetfulLists(r);
    assert RunStmts([], y, p) == Some(y) && RunStmts([], z, p) == Some(z);
    RunNext(g, 0, r, y, p);
    RunNext(g, 1, y, y, p);
    RunNext(h, 0, r, x, p);
    RunNext(h, 1, x, z, p);
  }

  /**
   The condition does fail. In a graph of self-contained blocks, with exact liveness, a store that
   is dead where it stands is deleted; its number lives on, and a store of the same value further
   down, which is not dead, is taken for redundant. The packet that was accepted is rejected.
   */
  lemma StoreForgotten(r: Regs)
    requires r[3] != 0
    ensures var t, g, h, ns, p := ForgetfulTable(), Forgetful(), Forgotten(), ForgetfulNumbers(), Packet([0], 0);
      && Acyclic(g) && Acyclic(h) && SelfContained(g, 0, {})
      && FinishedGraph(t, g, h, 0, ns, seq(5, b => {}), true) && (forall b: nat :: b < 5 ==> OutUse(g, b) == {})
      && Acyclic(Undropped(g, 0, ns, seq(5, b => {})))
      && Loses(g[0], ns[0], {}, OutUse(Undropped(g, 0, ns, seq(5, b => {})), 0))
      && Run(g, 0, r, p) == Return(1) && Run(h, 0, r, p) == Return(0)
  {
    hide *;
    ForgetfulAcyclic();
    ForgetfulSelfContained();
    ForgetfulUse();
    ForgottenIsFinished();
    FirstLoses();
    Undropping();
    MidwayUse();
    ForgetfulRuns(r);
  }
}
