/**
 Which registers matter where. The local pass over one block and the pass over the levels are
 the optimizer's; the sets they compute are shown to be the backward liveness equations, and
 those to be non-interference: registers outside the set cannot change the verdict.
 */
module Liveness {
  import opened Machine
  import opened FlowGraph
  import opened Levels

  /** atomuse: the atoms a statement reads. */
  function Uses(s: Stmt): (u: set<nat>)
    ensures forall a :: a in u ==> a < N_ATOMS
  {
    match s
    case Nop => {}
    case LdAbs(_, _) => {}
    case LdInd(_, _) => {X_ATOM}
    case LdLen => {}
    case LdImm(_) => {}
    case LdMem(c) => {c}
    case LdxImm(_) => {}
    case LdxMem(c) => {c}
    case LdxMsh(_) => {}
    case St(_) => {A_ATOM}
    case Stx(_) => {X_ATOM}
    case AluK(_, _) => {A_ATOM}
    case AluX(_) => {A_ATOM, X_ATOM}
    case Neg => {A_ATOM}
    case Tax => {A_ATOM}
    case Txa => {X_ATOM}
  }

  function TestUses(t: Test): set<nat> {
    if t.JmpX? then {A_ATOM, X_ATOM} else {A_ATOM}
  }

  /** atomdef, as a set. */
  function Defs(s: Stmt): set<nat> {
    if Def(s).Some? then {Def(s).value} else {}
  }

  /** The atoms live before the statements, when those in out are live after them. */
  function LiveBefore(ss: seq<Stmt>, out: set<nat>): set<nat> {
    if ss == [] then out else (LiveBefore(ss[1..], out) - Defs(ss[0])) + Uses(ss[0])
  }

  lemma {:induction false} LiveBeforeMonotone(ss: seq<Stmt>, o: set<nat>, o': set<nat>)
    requires o <= o'
    ensures LiveBefore(ss, o) <= LiveBefore(ss, o')
  {
    if ss != [] {
      LiveBeforeMonotone(ss[1..], o, o');
    }
  }

  /** The atoms the statements write. */
  function Writes(ss: seq<Stmt>): set<nat> {
    if ss == [] then {} else Defs(ss[0]) + Writes(ss[1..])
  }

  /** What is live after the statements is live before them, unless they write it. */
  lemma {:induction false} LivePassesOver(ss: seq<Stmt>, out: set<nat>)
    ensures out - Writes(ss) <= LiveBefore(ss, out)
  {
    if ss != [] {
      LivePassesOver(ss[1..], out);
    }
  }

  lemma {:induction false} LiveOneMore(ss: seq<Stmt>, out: set<nat>, a: nat)
    ensures LiveBefore(ss, out) <= LiveBefore(ss, out + {a}) <= LiveBefore(ss, out) + {a}
    ensures a in Writes(ss) ==> LiveBefore(ss, out + {a}) == LiveBefore(ss, out)
  {
    if ss != [] {
      LiveOneMore(ss[1..], out, a);
    }
  }

  /** The atoms the branch reads; a return is not looked at. */
  function ExitUses(b: Block): set<nat> {
    if b.Br? then TestUses(b.test) else {}
  }

  // ----- non-interference -----

  predicate Agree(r: Regs, s: Regs, atoms: set<nat>) {
    forall a :: a in atoms && a < N_ATOMS ==> r[a] == s[a]
  }

  lemma StepAgree(st: Stmt, r: Regs, s: Regs, p: Packet, out: set<nat>)
    requires Agree(r, s, (out - Defs(st)) + Uses(st))
    ensures var x, y := Step(st, r, p), Step(st, s, p);
      x.Some? == y.Some? && (x.Some? ==> Agree(x.value, y.value, out))
  {
    assert forall a :: a in Uses(st) ==> r[a] == s[a];
    if !st.Nop? {
      assert Value(st, r, p) == Value(st, s, p);
    }
  }

  lemma {:induction false} RunAgree(ss: seq<Stmt>, r: Regs, s: Regs, p: Packet, out: set<nat>)
    requires Agree(r, s, LiveBefore(ss, out))
    ensures var x, y := RunStmts(ss, r, p), RunStmts(ss, s, p);
      x.Some? == y.Some? && (x.Some? ==> Agree(x.value, y.value, out))
  {
    if ss != [] {
      StepAgree(ss[0], r, s, p, LiveBefore(ss[1..], out));
      var x, y := Step(ss[0], r, p), Step(ss[0], s, p);
      if x.Some? {
        RunAgree(ss[1..], x.value, y.value, p, out);
      }
    }
  }

  /** The atoms live on entry to a block of the graph. */
  ghost function InUse(g: Graph, b: nat): set<nat>
    requires Acyclic(g) && b < |g|
    decreases RankOf(g)[b], 1
  {
    LiveBefore(g[b].stmts, ExitUses(g[b]) + OutUse(g, b))
  }

  ghost function OutUse(g: Graph, b: nat): set<nat>
    requires Acyclic(g) && b < |g|
    decreases RankOf(g)[b], 0
  {
    if g[b].Ret? then {} else InUse(g, g[b].jt) + InUse(g, g[b].jf)
  }

  /** A return reads nothing that is not in use anyway: a constant, or an A that the block has set or read before. */
  predicate OwnReturn(b: Block) {
    b.Ret? && b.rv.RetA? ==> LiveBefore(b.stmts, {A_ATOM}) == LiveBefore(b.stmts, {})
  }

  /** That is so of all leaves that b reaches; those of finish_parse return constants. */
  ghost predicate OwnReturns(g: Graph, b: nat) {
    forall c: nat :: c < |g| && Reachable(g, b, c) ==> OwnReturn(g[c])
  }

  lemma OwnReturnsBelow(g: Graph, b: nat)
    requires b < |g| && OwnReturns(g, b)
    ensures g[b].Br? ==> OwnReturns(g, g[b].jt) && OwnReturns(g, g[b].jf)
    ensures OwnReturn(g[b])
  {
    ReachableSelf(g, b);
    if g[b].Br? {
      ReachableBelow(g, b);
    }
  }

  /** Two machine states that agree on the atoms in use at b get the same outcome, faults included. */
  lemma {:induction false} NonInterference(g: Graph, b: nat, r: Regs, s: Regs, p: Packet)
    requires Acyclic(g) && b < |g| && OwnReturns(g, b)
    requires Agree(r, s, InUse(g, b))
    ensures Run(g, b, r, p) == Run(g, b, s, p)
    decreases RankOf(g)[b]
  {
    OwnReturnsBelow(g, b);
    RunAgree(g[b].stmts, r, s, p, ExitUses(g[b]) + OutUse(g, b));
    if g[b].Ret? && g[b].rv.RetA? {
      assert ExitUses(g[b]) + OutUse(g, b) == {};
      RunAgree(g[b].stmts, r, s, p, {A_ATOM});
    }
    var x, y := RunStmts(g[b].stmts, r, p), RunStmts(g[b].stmts, s, p);
    if x.Some? && g[b].Br? {
      assert A_ATOM in TestUses(g[b].test);
      assert Taken(g[b].test, x.value) == Taken(g[b].test, y.value);
      NonInterference(g, if Taken(g[b].test, x.value) then g[b].jt else g[b].jf, x.value, y.value, p);
    }
  }

  /**
   Any other leaf escapes the analysis: A is not in use there, yet on every run that does not fault
   it decides the verdict.
   */
  lemma ReturnOfAInterferes(g: Graph, b: nat, r: Regs, p: Packet)
    requires Acyclic(g) && b < |g| && !OwnReturn(g[b]) && Run(g, b, r, p) != Fault
    ensures exists s :: Agree(r, s, InUse(g, b)) && Run(g, b, s, p) != Run(g, b, r, p)
  {
    LiveOneMore(g[b].stmts, {}, A_ATOM);
    LivePassesOver(g[b].stmts, {A_ATOM});
    assert {} + {A_ATOM} == {A_ATOM} && ExitUses(g[b]) + OutUse(g, b) == {};
    var s: Regs := r[A_ATOM := if r[A_ATOM] == 0 then 1 else 0];
    RunAgree(g[b].stmts, r, s, p, ExitUses(g[b]) + OutUse(g, b));
    WritesOnly(g[b].stmts, r, p);
    WritesOnly(g[b].stmts, s, p);
    assert Agree(r, s, InUse(g, b)) && Run(g, b, s, p) != Run(g, b, r, p);
  }

  lemma {:induction false} WritesOnly(ss: seq<Stmt>, r: Regs, p: Packet)
    requires RunStmts(ss, r, p).Some?
    ensures forall a :: 0 <= a < N_ATOMS && a !in Writes(ss) ==> RunStmts(ss, r, p).value[a] == r[a]
  {
    if ss != [] {
      WritesOnly(ss[1..], Step(ss[0], r, p).value, p);
    }
  }

  // ----- the passes that compute the sets -----

  lemma {:induction false} LiveBeforeAppend(ss: seq<Stmt>, s: Stmt, out: set<nat>)
    ensures LiveBefore(ss + [s], out) == LiveBefore(ss, (out - Defs(s)) + Uses(s))
  {
    if ss == [] {
      assert ([] + [s])[1..] == [];
    } else {
      assert (ss + [s])[1..] == ss[1..] + [s];
      LiveBeforeAppend(ss[1..], s, out);
    }
  }

  /** The local sets of a statement list give its backward liveness, whatever is live after it. */
  ghost predicate LocalSets(ss: seq<Stmt>, def: set<nat>, kill: set<nat>, use: set<nat>) {
    && kill <= def <= kill + use && kill !! use
    && forall out :: LiveBefore(ss, out) == use + (out - kill)
  }

  lemma LocalStep(ss: seq<Stmt>, s: Stmt, def: set<nat>, kill: set<nat>, use: set<nat>)
    requires LocalSets(ss, def, kill, use)
    ensures var use' := use + (Uses(s) - def);
      LocalSets(ss + [s], def + Defs(s), kill + (Defs(s) - use'), use')
  {
    forall out
      ensures var use' := use + (Uses(s) - def);
        LiveBefore(ss + [s], out) == use' + (out - (kill + (Defs(s) - use')))
    {
      LiveBeforeAppend(ss, s, out);
    }
  }

  /** compute_local_ud, with def, kill and in_use of one block. */
  method ComputeLocalUd(b: Block) returns (def: set<nat>, kill: set<nat>, use: set<nat>)
    ensures forall out :: LiveBefore(b.stmts, ExitUses(b) + out) == use + (out - kill)
  {
    hide *;
    def, kill, use := {}, {}, {};
    LocalStart(b.stmts);
    for i := 0 to |b.stmts|
      invariant LocalSets(b.stmts[..i], def, kill, use)
    {
      var s := b.stmts[i];
      LocalStep(b.stmts[..i], s, def, kill, use);
      assert b.stmts[..i] + [s] == b.stmts[..i + 1];
      LocalEffect(s, def, kill, use);
      if !s.Nop? {
        use := use + (Uses(s) - def);
        if Def(s).Some? {
          var atom := Def(s).value;
          if atom !in use {
            kill := kill + {atom};
          }
          def := def + {atom};
        }
      }
    }
    assert b.stmts[..|b.stmts|] == b.stmts;
    LocalEnd(b, def, kill, use);
    if b.Br? {
      use := use + (TestUses(b.test) - def);
    }
  }

  lemma LocalStart(ss: seq<Stmt>)
    ensures LocalSets(ss[..0], {}, {}, {})
  {
  }

  /** What the pass does for one statement, as set operations. */
  lemma LocalEffect(s: Stmt, def: set<nat>, kill: set<nat>, use: set<nat>)
    ensures s.Nop? ==> Uses(s) == {} && Defs(s) == {}
    ensures Defs(s) == if Def(s).Some? then {Def(s).value} else {}
    ensures var use' := use + (Uses(s) - def);
      && (Def(s).Some? ==> kill + (Defs(s) - use') == if Def(s).value in use' then kill else kill + {Def(s).value})
      && (Def(s).None? ==> kill + (Defs(s) - use') == kill && def + Defs(s) == def)
      && (s.Nop? ==> use' == use)
  {
  }

  lemma LocalEnd(b: Block, def: set<nat>, kill: set<nat>, use: set<nat>)
    requires LocalSets(b.stmts, def, kill, use)
    ensures forall out ::
      LiveBefore(b.stmts, ExitUses(b) + out) == (if b.Br? then use + (TestUses(b.test) - def) else use) + (out - kill)
  {
    forall out
      ensures LiveBefore(b.stmts, ExitUses(b) + out) ==
        (if b.Br? then use + (TestUses(b.test) - def) else use) + (out - kill)
    {
      assert LiveBefore(b.stmts, ExitUses(b) + out) == use + ((ExitUses(b) + out) - kill);
    }
  }

  /** The sets of a visited block are the liveness sets. */
  ghost predicate Known(g: Graph, inUse: seq<set<nat>>, outUse: seq<set<nat>>, b: nat)
    requires Acyclic(g)
  {
    b < |g| && b < |inUse| && b < |outUse| && inUse[b] == InUse(g, b) && outUse[b] == OutUse(g, b)
  }

  /** The local pass has been over the block, the second pass has not. */
  ghost predicate LocalOnly(g: Graph, inUse: seq<set<nat>>, outUse: seq<set<nat>>, kill: seq<set<nat>>, b: nat) {
    && b < |g| && b < |inUse| && b < |outUse| && b < |kill| && outUse[b] == {}
    && forall out :: LiveBefore(g[b].stmts, ExitUses(g[b]) + out) == inUse[b] + (out - kill[b])
  }

  lemma LeafKnown(g: Graph, inUse: seq<set<nat>>, outUse: seq<set<nat>>, kill: seq<set<nat>>, b: nat)
    requires Acyclic(g) && LocalOnly(g, inUse, outUse, kill, b) && g[b].Ret?
    ensures Known(g, inUse, outUse, b)
  {
    assert ExitUses(g[b]) + {} == {};
    assert LiveBefore(g[b].stmts, ExitUses(g[b]) + {}) == inUse[b] + ({} - kill[b]);
  }

  /** The second pass at one block, its successors done. */
  lemma BranchKnown(g: Graph, inUse: seq<set<nat>>, outUse: seq<set<nat>>, kill: seq<set<nat>>, b: nat)
    requires Acyclic(g) && LocalOnly(g, inUse, outUse, kill, b) && g[b].Br?
    requires Known(g, inUse, outUse, g[b].jt) && Known(g, inUse, outUse, g[b].jf)
    ensures var out := outUse[b] + (inUse[g[b].jt] + inUse[g[b].jf]);
      Known(g, inUse[b := inUse[b] + (out - kill[b])], outUse[b := out], b)
  {
    var out := outUse[b] + (inUse[g[b].jt] + inUse[g[b].jf]);
    assert out == OutUse(g, b);
    assert LiveBefore(g[b].stmts, ExitUses(g[b]) + out) == inUse[b] + (out - kill[b]);
  }

  /** find_ud, first half: the local sets of every block, from the root's level down. */
  method LocalPass(g: Graph, root: nat, level: seq<nat>, levels: seq<seq<nat>>)
    returns (inUse: seq<set<nat>>, outUse: seq<set<nat>>, kill: seq<set<nat>>)
    requires Acyclic(g) && root < |g| && Leveled(g, root, levels)
    requires |level| == |g| && level[root] == Level(g, root)
    ensures |inUse| == |outUse| == |kill| == |g| && Level(g, root) < |g|
    ensures forall l, m :: 0 <= l <= Level(g, root) && 0 <= m < |levels[l]| ==>
      LocalOnly(g, inUse, outUse, kill, levels[l][m])
  {
    LevelBound(g, root);
    inUse, outUse, kill := seq(|g|, b => {}), seq(|g|, b => {}), seq(|g|, b => {});
    var i: int := level[root];
    while i >= 0
      invariant -1 <= i <= Level(g, root)
      invariant |inUse| == |outUse| == |kill| == |g|
      invariant forall l, m :: i < l <= Level(g, root) && 0 <= m < |levels[l]| ==>
        LocalOnly(g, inUse, outUse, kill, levels[l][m])
    {
      for k := 0 to |levels[i]|
        invariant |inUse| == |outUse| == |kill| == |g|
        invariant forall l, m :: i < l <= Level(g, root) && 0 <= m < |levels[l]| ==>
          LocalOnly(g, inUse, outUse, kill, levels[l][m])
        invariant forall m :: 0 <= m < k ==> LocalOnly(g, inUse, outUse, kill, levels[i][m])
      {
        LeveledAt(g, root, levels, i, k);
        var p := levels[i][k];
        var def, ki, use := ComputeLocalUd(g[p]);
        inUse, kill, outUse := inUse[p := use], kill[p := ki], outUse[p := {}];
        assert LocalOnly(g, inUse, outUse, kill, p);
      }
      i := i - 1;
    }
  }

  /** Blocks before position (i, k) are done, the ones from there on have had the local pass only. */
  ghost predicate DoneUpTo(g: Graph, root: nat, levels: seq<seq<nat>>, i: nat, k: nat,
                           inUse: seq<set<nat>>, outUse: seq<set<nat>>, kill: seq<set<nat>>)
    requires Acyclic(g) && root < |g|
  {
    && |inUse| == |outUse| == |kill| == |g| == |levels|
    && forall l, m :: 0 <= l < |levels| && l <= Level(g, root) && 0 <= m < |levels[l]| ==>
         if l < i || (l == i && m < k) then Known(g, inUse, outUse, levels[l][m])
         else LocalOnly(g, inUse, outUse, kill, levels[l][m])
  }

  lemma SecondPassStep(g: Graph, root: nat, levels: seq<seq<nat>>, i: nat, k: nat,
                       inUse: seq<set<nat>>, outUse: seq<set<nat>>, kill: seq<set<nat>>)
    requires Acyclic(g) && root < |g| && Leveled(g, root, levels)
    requires 0 < i < |levels| && i <= Level(g, root) && k < |levels[i]|
    requires DoneUpTo(g, root, levels, i, k, inUse, outUse, kill)
    ensures levels[i][k] < |g| && g[levels[i][k]].Br? && g[levels[i][k]].jt < |g| && g[levels[i][k]].jf < |g|
    ensures |inUse| == |outUse| == |kill| == |g|
    ensures var p := levels[i][k];
      var out := outUse[p] + (inUse[g[p].jt] + inUse[g[p].jf]);
      DoneUpTo(g, root, levels, i, k + 1, inUse[p := inUse[p] + (out - kill[p])], outUse[p := out], kill)
  {
    var p := levels[i][k];
    SuccessorsKnown(g, root, levels, i, k, inUse, outUse);
    assert LocalOnly(g, inUse, outUse, kill, p);
    BranchKnown(g, inUse, outUse, kill, p);
    OthersKept(g, root, levels, i, k);
  }

  /** One level of the second pass. */
  method SecondPassLevel(g: Graph, root: nat, levels: seq<seq<nat>>, i: nat,
                         inUse0: seq<set<nat>>, outUse0: seq<set<nat>>, kill: seq<set<nat>>)
    returns (inUse: seq<set<nat>>, outUse: seq<set<nat>>)
    requires Acyclic(g) && root < |g| && Leveled(g, root, levels) && 0 < i < |levels| && i <= Level(g, root)
    requires DoneUpTo(g, root, levels, i, 0, inUse0, outUse0, kill)
    ensures DoneUpTo(g, root, levels, i, |levels[i]|, inUse, outUse, kill)
  {
    hide *;
    inUse, outUse := inUse0, outUse0;
    for k := 0 to |levels[i]|
      invariant DoneUpTo(g, root, levels, i, k, inUse, outUse, kill)
    {
      SecondPassStep(g, root, levels, i, k, inUse, outUse, kill);
      var p := levels[i][k];
      outUse := outUse[p := outUse[p] + (inUse[g[p].jt] + inUse[g[p].jf])];
      inUse := inUse[p := inUse[p] + (outUse[p] - kill[p])];
    }
  }

  lemma SecondPassStart(g: Graph, root: nat, levels: seq<seq<nat>>,
                        inUse: seq<set<nat>>, outUse: seq<set<nat>>, kill: seq<set<nat>>)
    requires Acyclic(g) && root < |g| && Leveled(g, root, levels)
    requires |inUse| == |outUse| == |kill| == |g| && Level(g, root) < |g|
    requires forall l, m :: 0 <= l <= Level(g, root) && 0 <= m < |levels[l]| ==>
      LocalOnly(g, inUse, outUse, kill, levels[l][m])
    ensures DoneUpTo(g, root, levels, 1, 0, inUse, outUse, kill)
  {
    forall m | 0 <= m < |levels[0]| ensures Known(g, inUse, outUse, levels[0][m]) {
      LeveledAt(g, root, levels, 0, m);
      LeafKnown(g, inUse, outUse, kill, levels[0][m]);
    }
  }

  lemma SecondPassNext(g: Graph, root: nat, levels: seq<seq<nat>>, i: nat,
                       inUse: seq<set<nat>>, outUse: seq<set<nat>>, kill: seq<set<nat>>)
    requires Acyclic(g) && root < |g| && i < |levels|
    requires DoneUpTo(g, root, levels, i, |levels[i]|, inUse, outUse, kill)
    ensures DoneUpTo(g, root, levels, i + 1, 0, inUse, outUse, kill)
  {
  }

  lemma SecondPassEnd(g: Graph, root: nat, levels: seq<seq<nat>>, b: nat,
                      inUse: seq<set<nat>>, outUse: seq<set<nat>>, kill: seq<set<nat>>)
    requires Acyclic(g) && root < |g| && Leveled(g, root, levels) && b < |g| && Reachable(g, root, b)
    requires DoneUpTo(g, root, levels, Level(g, root) + 1, 0, inUse, outUse, kill)
    ensures Known(g, inUse, outUse, b) && |inUse| == |outUse| == |g|
  {
    NotAboveRoot(g, root, b);
    var m :| 0 <= m < |levels[Level(g, b)]| && levels[Level(g, b)][m] == b;
  }

  /** find_ud: the local pass, then liveness from the leaves up. */
  method FindUd(g: Graph, root: nat, level: seq<nat>, levels: seq<seq<nat>>)
    returns (inUse: seq<set<nat>>, outUse: seq<set<nat>>)
    requires Acyclic(g) && root < |g| && Leveled(g, root, levels)
    requires |level| == |g| && level[root] == Level(g, root)
    ensures |inUse| == |outUse| == |g|
    ensures forall b: nat :: b < |g| && Reachable(g, root, b) ==> Known(g, inUse, outUse, b)
  {
    hide *;
    LevelCount(g, root, levels);
    var kill;
    inUse, outUse, kill := LocalPass(g, root, level, levels);
    SecondPassStart(g, root, levels, inUse, outUse, kill);
    for i := 1 to level[root] + 1
      invariant DoneUpTo(g, root, levels, i, 0, inUse, outUse, kill)
    {
      inUse, outUse := SecondPassLevel(g, root, levels, i, inUse, outUse, kill);
      SecondPassNext(g, root, levels, i, inUse, outUse, kill);
    }
    ReachableSelf(g, root);
    SecondPassEnd(g, root, levels, root, inUse, outUse, kill);
    forall b: nat | b < |g| && Reachable(g, root, b) ensures Known(g, inUse, outUse, b) {
      SecondPassEnd(g, root, levels, b, inUse, outUse, kill);
    }
  }

  lemma SuccessorsKnown(g: Graph, root: nat, levels: seq<seq<nat>>, i: nat, k: nat, inUse: seq<set<nat>>,
          outUse: seq<set<nat>>)
    requires Acyclic(g) && root < |g| && Leveled(g, root, levels) && 0 < i < |levels| && k < |levels[i]|
    requires forall l, m :: 0 <= l < i && 0 <= m < |levels[l]| ==> Known(g, inUse, outUse, levels[l][m])
    ensures levels[i][k] < |g| && g[levels[i][k]].Br?
    ensures Known(g, inUse, outUse, g[levels[i][k]].jt) && Known(g, inUse, outUse, g[levels[i][k]].jf)
  {
    var p := levels[i][k];
    LeveledAt(g, root, levels, i, k);
    assert Edge(g, p, g[p].jt) && Edge(g, p, g[p].jf) && Ranked(g, RankOf(g));
    ReachableStep(g, root, p, g[p].jt);
    ReachableStep(g, root, p, g[p].jf);
    var m :| 0 <= m < |levels[Level(g, g[p].jt)]| && levels[Level(g, g[p].jt)][m] == g[p].jt;
    var n :| 0 <= n < |levels[Level(g, g[p].jf)]| && levels[Level(g, g[p].jf)][n] == g[p].jf;
  }

  /** A block is listed once. */
  lemma OthersKept(g: Graph, root: nat, levels: seq<seq<nat>>, i: nat, k: nat)
    requires Acyclic(g) && root < |g| && Leveled(g, root, levels) && i < |levels| && k < |levels[i]|
    ensures forall l, m :: 0 <= l < |levels| && 0 <= m < |levels[l]| && (l != i || m != k) ==>
      levels[l][m] != levels[i][k]
  {
    forall l, m | 0 <= l < |levels| && 0 <= m < |levels[l]| && (l != i || m != k) ensures levels[l][m] != levels[i][k] {
      LeveledAt(g, root, levels, i, k);
      LeveledAt(g, root, levels, l, m);
      assert NoRepeats(levels[i]);
    }
  }
}
