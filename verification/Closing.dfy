/**
 Closing a condition: the open true exits are sent to a block that returns the snapshot length,
 the open false exits to one that returns 0, and the blocks become a program.
 */
module Closing {
  import opened Machine
  import opened FlowGraph
  import opened Fragments

  /** The blocks of a finished program as a graph; slots outside it stand for nothing. */
  ghost function ToGraph(bs: Arena, program: seq<nat>): (g: Graph)
    ensures |g| == |bs|
  {
    seq(|bs|, i requires 0 <= i < |bs| =>
      if i !in program then Ret([], RetK(0))
      else if bs[i].exit.Done? then Ret(bs[i].stmts, bs[i].exit.rv)
      else Br(bs[i].stmts, bs[i].exit.test,
              if bs[i].jt.To? then bs[i].jt.b else 0, if bs[i].jf.To? then bs[i].jf.b else 0))
  }

  /** Every exit is resolved and leads to a later block of the program. */
  ghost predicate Closed(bs: Arena, program: seq<nat>) {
    && Distinct(program)
    && forall k :: 0 <= k < |program| ==>
         && program[k] < |bs|
         && (bs[program[k]].exit.Jmp? ==>
               && (exists m :: k < m < |program| && bs[program[k]].jt == To(program[m]))
               && (exists m :: k < m < |program| && bs[program[k]].jf == To(program[m])))
  }

  ghost function Position(s: seq<nat>, i: nat): (k: nat)
    requires i in s
    ensures k < |s| && s[k] == i
  {
    var k :| 0 <= k < |s| && s[k] == i; k
  }

  lemma ClosedAcyclic(bs: Arena, program: seq<nat>)
    requires Closed(bs, program)
    ensures Acyclic(ToGraph(bs, program))
  {
    var g := ToGraph(bs, program);
    var rank := seq(|g|, i requires 0 <= i < |g| => if i in program then |program| - Position(program, i) else 0);
    forall b | 0 <= b < |g| && g[b].Br?
      ensures g[b].jt < |g| && g[b].jf < |g| && rank[g[b].jt] < rank[b] && rank[g[b].jf] < rank[b]
    {
      var k := Position(program, b);
      var m :| k < m < |program| && bs[b].jt == To(program[m]);
      var n :| k < n < |program| && bs[b].jf == To(program[n]);
      assert Position(program, program[m]) == m && Position(program, program[n]) == n;
    }
    assert Ranked(g, rank);
  }

  /** Statements put before those of the head, to load the lengths of variable-length headers. */
  function Prefixed(bs: Arena, b: nat, prefix: seq<Stmt>): (r: Arena)
    requires b < |bs|
    ensures |r| == |bs|
  {
    bs[b := bs[b].(stmts := prefix + bs[b].stmts)]
  }

  function RetSlot(b: nat, v: u32): Slot {
    Slot([], Done(RetK(v)), false, b, Null, Null)
  }

  ghost function FinalArena(bs: Arena, f: Frag, prefix: seq<Stmt>, snaplen: u32): Arena
    requires Shaped(bs, f)
  {
    var n := |bs|;
    var s1 := Prefixed(bs, f.ids[0], prefix) + [RetSlot(n, snaplen)];
    var s2 := Flipped(Patched(s1, f.ts, n), Top(f));
    Patched(s2 + [RetSlot(n + 1, 0)], f.fs, n + 1)
  }

  /** An exit of a block of the piece: patched to where it was to lead. */
  lemma FinalField(bs: Arena, f: Frag, prefix: seq<Stmt>, snaplen: u32, i: nat, side: bool)
    requires Shaped(bs, f) && i in f.ids
    ensures i < |bs| && |FinalArena(bs, f, prefix, snaplen)| == |bs| + 2
    ensures Field(FinalArena(bs, f, prefix, snaplen)[i], side) == To(Target(bs, f, i, side, |bs|, |bs| + 1))
  {
    hide IsList, Distinct, EdgesForward;
    ShapedBasics(bs, f);
    if StatusOf(bs, f, i, side).Resolved? {
      ResolvedTarget(bs, f, i, side);
    }
  }

  lemma FieldSides(s: Slot)
    ensures Field(s, false) == s.jt && Field(s, true) == s.jf
  {
  }

  lemma FinalKept(bs: Arena, f: Frag, prefix: seq<Stmt>, snaplen: u32, i: nat)
    requires Shaped(bs, f) && i in f.ids
    ensures var r := FinalArena(bs, f, prefix, snaplen);
      && i < |bs| && |r| == |bs| + 2
      && r[i].stmts == (if i == f.ids[0] then prefix + bs[i].stmts else bs[i].stmts)
      && r[i].exit == bs[i].exit
  {
    hide IsList, Distinct, EdgesForward;
    ShapedBasics(bs, f);
  }

  lemma FinalSlots(bs: Arena, f: Frag, prefix: seq<Stmt>, snaplen: u32, i: nat)
    requires Shaped(bs, f) && i in f.ids
    ensures var r := FinalArena(bs, f, prefix, snaplen);
      && i < |bs| && |r| == |bs| + 2
      && r[i].stmts == (if i == f.ids[0] then prefix + bs[i].stmts else bs[i].stmts)
      && r[i].exit == bs[i].exit
      && r[i].jt == To(Target(bs, f, i, false, |bs|, |bs| + 1))
      && r[i].jf == To(Target(bs, f, i, true, |bs|, |bs| + 1))
  {
    hide *;
    FinalKept(bs, f, prefix, snaplen, i);
    FinalField(bs, f, prefix, snaplen, i, false);
    FinalField(bs, f, prefix, snaplen, i, true);
    FieldSides(FinalArena(bs, f, prefix, snaplen)[i]);
  }

  lemma FinalReturns(bs: Arena, f: Frag, prefix: seq<Stmt>, snaplen: u32)
    requires Shaped(bs, f)
    ensures var r := FinalArena(bs, f, prefix, snaplen);
      |r| == |bs| + 2 && r[|bs|] == RetSlot(|bs|, snaplen) && r[|bs| + 1] == RetSlot(|bs| + 1, 0)
  {
    hide IsList, Distinct, EdgesForward;
    var n := |bs|;
    forall i | i in f.ids ensures i < n {
    }
    assert n !in f.ts && n !in f.fs && n + 1 !in f.fs;
  }

  ghost function ProgramOf(bs: Arena, f: Frag): seq<nat> {
    f.ids + [|bs|, |bs| + 1]
  }

  lemma FinalClosed(bs: Arena, f: Frag, prefix: seq<Stmt>, snaplen: u32)
    requires Shaped(bs, f)
    ensures Closed(FinalArena(bs, f, prefix, snaplen), ProgramOf(bs, f))
  {
    var r, q := FinalArena(bs, f, prefix, snaplen), ProgramOf(bs, f);
    FinalReturns(bs, f, prefix, snaplen);
    assert Distinct(q) by {
      assert forall k :: 0 <= k < |f.ids| ==> q[k] == f.ids[k] && q[k] < |bs|;
    }
    forall k | 0 <= k < |q|
      ensures q[k] < |r|
      ensures r[q[k]].exit.Jmp? ==>
        (exists m :: k < m < |q| && r[q[k]].jt == To(q[m])) && (exists m :: k < m < |q| && r[q[k]].jf == To(q[m]))
    {
      if k < |f.ids| {
        FinalSlots(bs, f, prefix, snaplen, f.ids[k]);
        FinalEdge(bs, f, k, false);
        FinalEdge(bs, f, k, true);
      }
    }
  }

  lemma FinalEdge(bs: Arena, f: Frag, k: nat, side: bool)
    requires Shaped(bs, f) && k < |f.ids|
    ensures var q := ProgramOf(bs, f);
      exists m :: k < m < |q| && To(Target(bs, f, f.ids[k], side, |bs|, |bs| + 1)) == To(q[m])
  {
    hide IsList, Distinct;
    var q, n := ProgramOf(bs, f), |f.ids|;
    assert q[n] == |bs| && q[n + 1] == |bs| + 1;
    if StatusOf(bs, f, f.ids[k], side).Resolved? {
      assert Forward(bs, f, k, side);
      var m :| k < m < |f.ids| && Field(bs[f.ids[k]], side) == To(f.ids[m]);
      assert q[m] == f.ids[m];
    }
  }

  /** Statements of a block no edge leads to matter only to runs that start there. */
  lemma {:induction false} SameBelow(g: Graph, g': Graph, h: nat, b: nat, r: Regs, p: Packet)
    requires Acyclic(g) && Acyclic(g') && |g| == |g'| && b < |g| && b != h
    requires forall i :: 0 <= i < |g| && i != h ==> g'[i] == g[i]
    requires forall i :: 0 <= i < |g| && g[i].Br? ==> g[i].jt != h && g[i].jf != h
    ensures Run(g', b, r, p) == Run(g, b, r, p)
    decreases RankOf(g)[b]
  {
    var m := RunStmts(g[b].stmts, r, p);
    if m.Some? && g[b].Br? {
      SameBelow(g, g', h, if Taken(g[b].test, m.value) then g[b].jt else g[b].jf, m.value, p);
    }
  }

  lemma FinalCompletes(bs: Arena, f: Frag, snaplen: u32)
    requires Shaped(bs, f)
    ensures Completes(bs, f, ToGraph(FinalArena(bs, f, [], snaplen), ProgramOf(bs, f)), |bs|, |bs| + 1)
  {
    hide *;
    ShapedBasics(bs, f);
    FinalClosed(bs, f, [], snaplen);
    ClosedAcyclic(FinalArena(bs, f, [], snaplen), ProgramOf(bs, f));
    FinalReturns(bs, f, [], snaplen);
    forall k | 0 <= k < |f.ids|
      ensures f.ids[k] < |bs|
      ensures CompletesAt(bs, f, f.ids[k], ToGraph(FinalArena(bs, f, [], snaplen), ProgramOf(bs, f)), |bs|, |bs| + 1)
    {
      FinalCompletesAt(bs, f, snaplen, f.ids[k]);
    }
    AllComplete(bs, f, ToGraph(FinalArena(bs, f, [], snaplen), ProgramOf(bs, f)), |bs|, |bs| + 1);
  }

  lemma FinalCompletesAt(bs: Arena, f: Frag, snaplen: u32, i: nat)
    requires Shaped(bs, f) && i in f.ids
    ensures i < |bs| && |FinalArena(bs, f, [], snaplen)| == |bs| + 2
    ensures CompletesAt(bs, f, i, ToGraph(FinalArena(bs, f, [], snaplen), ProgramOf(bs, f)), |bs|, |bs| + 1)
  {
    hide Shaped, FinalArena, Target, StatusOf;
    ShapedBasics(bs, f);
    FinalReturns(bs, f, [], snaplen);
    FinalSlots(bs, f, [], snaplen, i);
    assert [] + bs[i].stmts == bs[i].stmts;
    assert i in ProgramOf(bs, f);
    CompletesIs(bs, f, i, ToGraph(FinalArena(bs, f, [], snaplen), ProgramOf(bs, f)), |bs|, |bs| + 1);
  }

  /** What the closed program answers, the head's prefix running first. */
  function Answer(prefix: seq<Stmt>, e: Cond, snaplen: u32, r: Regs, p: Packet): Verdict {
    var m := RunStmts(prefix, r, p);
    if m.None? then Fault
    else
      var x := Eval(e, m.value, p);
      if x.Faulted? then Fault else Return(if x.holds then snaplen else 0)
  }

  ghost predicate Answers(g: Graph, root: nat, prefix: seq<Stmt>, e: Cond, snaplen: u32)
    requires Acyclic(g) && root < |g|
  {
    forall r, p :: Run(g, root, r, p) == Answer(prefix, e, snaplen, r, p)
  }

  /** A block of the piece, in the finished program. */
  lemma FinalBlock(bs: Arena, f: Frag, prefix: seq<Stmt>, snaplen: u32, i: nat)
    requires Shaped(bs, f) && i in f.ids
    ensures var g := ToGraph(FinalArena(bs, f, prefix, snaplen), ProgramOf(bs, f));
      && i < |bs| && |g| == |bs| + 2 && bs[i].exit.Jmp?
      && g[i] == Br(if i == f.ids[0] then prefix + bs[i].stmts else bs[i].stmts, bs[i].exit.test,
                    Target(bs, f, i, false, |bs|, |bs| + 1), Target(bs, f, i, true, |bs|, |bs| + 1))
  {
    hide Shaped, FinalArena, Target;
    ShapedBasics(bs, f);
    FinalReturns(bs, f, prefix, snaplen);
    FinalSlots(bs, f, prefix, snaplen, i);
    assert i in ProgramOf(bs, f);
  }

  /** Nothing in a closed program jumps back to its first block. */
  lemma NoEdgeToFirst(bs: Arena, program: seq<nat>, i: nat)
    requires Closed(bs, program) && program != [] && i < |bs|
    ensures var g := ToGraph(bs, program); g[i].Br? ==> g[i].jt != program[0] && g[i].jf != program[0]
  {
    if ToGraph(bs, program)[i].Br? {
      var k := Position(program, i);
      assert program[k] == i;
    }
  }

  /** The blocks of the finished program that are not of the piece: the two returns and nothing else. */
  lemma FinalOther(bs: Arena, f: Frag, prefix: seq<Stmt>, snaplen: u32, i: nat)
    requires Shaped(bs, f) && i !in f.ids && i < |bs| + 2
    ensures |FinalArena(bs, f, prefix, snaplen)| == |bs| + 2
    ensures ToGraph(FinalArena(bs, f, prefix, snaplen), ProgramOf(bs, f))[i] ==
            Ret([], RetK(if i == |bs| then snaplen else 0))
  {
    ShapedBasics(bs, f);
    FinalReturns(bs, f, prefix, snaplen);
    var q := ProgramOf(bs, f);
    assert q[|f.ids|] == |bs| && q[|f.ids| + 1] == |bs| + 1;
    hide Shaped, FinalArena;
    assert i in q <==> i >= |bs|;
  }

  /** The graph of the finished program. */
  ghost function FinalGraph(bs: Arena, f: Frag, prefix: seq<Stmt>, snaplen: u32): Graph
    requires Shaped(bs, f)
  {
    ToGraph(FinalArena(bs, f, prefix, snaplen), ProgramOf(bs, f))
  }

  /** g is g0 with a prefix put before the statements of h, a block no edge leads to. */
  ghost predicate PrefixedAt(g0: Graph, g: Graph, h: nat, prefix: seq<Stmt>) {
    && |g| == |g0| && h < |g0| && g0[h].Br?
    && g[h] == Br(prefix + g0[h].stmts, g0[h].test, g0[h].jt, g0[h].jf)
    && (forall i :: 0 <= i < |g0| && i != h ==> g[i] == g0[i])
    && (forall i :: 0 <= i < |g0| && g0[i].Br? ==> g0[i].jt != h && g0[i].jf != h)
  }

  /** Two runs of the same program, the first through the prefix. */
  lemma PrefixRuns(g0: Graph, g: Graph, h: nat, prefix: seq<Stmt>, r: Regs, p: Packet)
    requires Acyclic(g0) && Acyclic(g) && PrefixedAt(g0, g, h, prefix)
    ensures Run(g, h, r, p) == var m := RunStmts(prefix, r, p); if m.None? then Fault else Run(g0, h, m.value, p)
  {
    RunStmtsAppend(prefix, g0[h].stmts, r, p);
    var m := RunStmts(prefix, r, p);
    if m.Some? {
      var m0 := RunStmts(g0[h].stmts, m.value, p);
      if m0.Some? {
        SameBelow(g0, g, h, if Taken(g0[h].test, m0.value) then g0[h].jt else g0[h].jf, m0.value, p);
      }
    }
  }

  lemma PrefixBlock(bs: Arena, f: Frag, prefix: seq<Stmt>, snaplen: u32, i: nat)
    requires Shaped(bs, f) && i < |bs| + 2
    ensures var h, g, g0 := f.ids[0], FinalGraph(bs, f, prefix, snaplen), FinalGraph(bs, f, [], snaplen);
      && |g| == |g0| == |bs| + 2
      && (if i == h then g0[i].Br? && g[i] == Br(prefix + g0[i].stmts, g0[i].test, g0[i].jt, g0[i].jf)
        else g[i] == g0[i])
      && (g0[i].Br? ==> g0[i].jt != h && g0[i].jf != h)
  {
    hide Shaped, FinalArena, Target, Closed;
    ShapedBasics(bs, f);
    if i in f.ids {
      FinalBlock(bs, f, prefix, snaplen, i);
      FinalBlock(bs, f, [], snaplen, i);
      assert [] + bs[i].stmts == bs[i].stmts;
      FinalClosed(bs, f, [], snaplen);
      assert ProgramOf(bs, f)[0] == f.ids[0];
      NoEdgeToFirst(FinalArena(bs, f, [], snaplen), ProgramOf(bs, f), i);
    } else {
      FinalOther(bs, f, prefix, snaplen, i);
      FinalOther(bs, f, [], snaplen, i);
    }
  }

  lemma PrefixAtHead(bs: Arena, f: Frag, prefix: seq<Stmt>, snaplen: u32)
    requires Shaped(bs, f)
    ensures PrefixedAt(FinalGraph(bs, f, [], snaplen), FinalGraph(bs, f, prefix, snaplen), f.ids[0], prefix)
  {
    hide Shaped, FinalGraph;
    ShapedBasics(bs, f);
    forall i: nat | i < |bs| + 2 {
      PrefixBlock(bs, f, prefix, snaplen, i);
    }
    PrefixBlock(bs, f, prefix, snaplen, f.ids[0]);
  }

  lemma RetRuns(g: Graph, b: nat, v: u32, r: Regs, p: Packet)
    requires Acyclic(g) && b < |g| && g[b] == Ret([], RetK(v))
    ensures Run(g, b, r, p) == Return(v)
  {
  }

  lemma FinalAcyclic(bs: Arena, f: Frag, prefix: seq<Stmt>, snaplen: u32)
    requires Shaped(bs, f)
    ensures Acyclic(FinalGraph(bs, f, prefix, snaplen)) && f.ids[0] < |FinalGraph(bs, f, prefix, snaplen)|
    ensures |FinalGraph(bs, f, prefix, snaplen)| == |bs| + 2
  {
    FinalClosed(bs, f, prefix, snaplen);
    ClosedAcyclic(FinalArena(bs, f, prefix, snaplen), ProgramOf(bs, f));
    FinalReturns(bs, f, prefix, snaplen);
  }

  lemma FinalDecides(bs: Arena, f: Frag, snaplen: u32)
    requires Good(bs, f)
    ensures Acyclic(FinalGraph(bs, f, [], snaplen)) && |FinalGraph(bs, f, [], snaplen)| == |bs| + 2
    ensures f.ids[0] < |bs| && Decides(FinalGraph(bs, f, [], snaplen), f.ids[0], f.e, |bs|, |bs| + 1)
  {
    FinalAcyclic(bs, f, [], snaplen);
    FinalCompletes(bs, f, snaplen);
  }

  lemma FinalAnswer(bs: Arena, f: Frag, prefix: seq<Stmt>, snaplen: u32, r: Regs, p: Packet)
    requires Good(bs, f)
    ensures Acyclic(FinalGraph(bs, f, prefix, snaplen)) && f.ids[0] < |FinalGraph(bs, f, prefix, snaplen)|
    ensures Run(FinalGraph(bs, f, prefix, snaplen), f.ids[0], r, p) == Answer(prefix, f.e, snaplen, r, p)
  {
    hide *;
    GoodShaped(bs, f);
    ShapedBasics(bs, f);
    var h, n := f.ids[0], |bs|;
    var g, g0 := FinalGraph(bs, f, prefix, snaplen), FinalGraph(bs, f, [], snaplen);
    FinalAcyclic(bs, f, prefix, snaplen);
    FinalDecides(bs, f, snaplen);
    PrefixAtHead(bs, f, prefix, snaplen);
    FinalRet(bs, f, snaplen, n);
    FinalRet(bs, f, snaplen, n + 1);
    PrefixRuns(g0, g, h, prefix, r, p);
    AnswerIs(prefix, f.e, snaplen, r, p);
    var m := RunStmts(prefix, r, p);
    if m.Some? {
      DecidesAt(g0, h, f.e, n, n + 1, m.value, p);
      var x := Eval(f.e, m.value, p);
      if x.Decided? {
        RetRuns(g0, n, snaplen, x.regs, p);
        RetRuns(g0, n + 1, 0, x.regs, p);
      }
    }
  }

  lemma GoodShaped(bs: Arena, f: Frag)
    requires Good(bs, f)
    ensures Shaped(bs, f)
  {
  }

  lemma AnswerIs(prefix: seq<Stmt>, e: Cond, snaplen: u32, r: Regs, p: Packet)
    ensures Answer(prefix, e, snaplen, r, p) ==
      var m := RunStmts(prefix, r, p);
      if m.None? then Fault
      else var x := Eval(e, m.value, p); if x.Faulted? then Fault else Return(if x.holds then snaplen else 0)
  {
  }

  lemma DecidesAt(g: Graph, b: nat, e: Cond, t: nat, n: nat, r: Regs, p: Packet)
    requires Acyclic(g) && b < |g| && t < |g| && n < |g| && Decides(g, b, e, t, n)
    ensures Run(g, b, r, p) == var x := Eval(e, r, p); if x.Faulted? then Fault
      else Run(g, if x.holds then t else n, x.regs, p)
  {
  }

  lemma FinalRet(bs: Arena, f: Frag, snaplen: u32, i: nat)
    requires Shaped(bs, f) && (i == |bs| || i == |bs| + 1)
    ensures |FinalGraph(bs, f, [], snaplen)| == |bs| + 2
    ensures FinalGraph(bs, f, [], snaplen)[i] == Ret([], RetK(if i == |bs| then snaplen else 0))
  {
    hide Shaped, FinalArena;
    ShapedBasics(bs, f);
    FinalOther(bs, f, [], snaplen, i);
    FinalReturns(bs, f, [], snaplen);
  }

  /** The finished program answers every packet, from every machine state, as the condition says. */
  lemma FinalAnswers(bs: Arena, f: Frag, prefix: seq<Stmt>, snaplen: u32)
    requires Good(bs, f)
    ensures Acyclic(FinalGraph(bs, f, prefix, snaplen)) && f.ids[0] < |FinalGraph(bs, f, prefix, snaplen)|
    ensures Answers(FinalGraph(bs, f, prefix, snaplen), f.ids[0], prefix, f.e, snaplen)
  {
    FinalAcyclic(bs, f, prefix, snaplen);
    forall r, p
      ensures Run(FinalGraph(bs, f, prefix, snaplen), f.ids[0], r, p) == Answer(prefix, f.e, snaplen, r, p)
    {
      FinalAnswer(bs, f, prefix, snaplen, r, p);
    }
  }

  /** When finish_parse patches them, both exit lists are still the ones the piece had. */
  lemma FinalLists(bs: Arena, f: Frag, prefix: seq<Stmt>, snaplen: u32)
    requires Shaped(bs, f)
    ensures f.ids[0] < |bs|
    ensures var s1 := Prefixed(bs, f.ids[0], prefix) + [RetSlot(|bs|, snaplen)];
      && IsList(s1, f.ts)
      && IsList(Flipped(Patched(s1, f.ts, |bs|), Top(f)) + [RetSlot(|bs| + 1, 0)], f.fs)
      && FinalArena(bs, f, prefix, snaplen)[Top(f)].head == f.ids[0]
  {
    var s1 := Prefixed(bs, f.ids[0], prefix) + [RetSlot(|bs|, snaplen)];
    forall k | 0 <= k < |f.ts|
      ensures f.ts[k] < |s1|
      ensures Field(s1[f.ts[k]], s1[f.ts[k]].sense) == if k + 1 < |f.ts| then To(f.ts[k + 1]) else Null
    {
      ListLink(bs, f.ts, k);
    }
    assert forall k :: 0 <= k < |f.ts| ==> f.ts[k] < |s1|;
    assert forall k :: 0 <= k < |f.ts| ==>
      Field(s1[f.ts[k]], s1[f.ts[k]].sense) == if k + 1 < |f.ts| then To(f.ts[k + 1]) else Null;
    assert IsList(s1, f.ts);
    var s2 := Flipped(Patched(s1, f.ts, |bs|), Top(f)) + [RetSlot(|bs| + 1, 0)];
    forall k | 0 <= k < |f.fs|
      ensures f.fs[k] < |s2|
      ensures Field(s2[f.fs[k]], s2[f.fs[k]].sense) == if k + 1 < |f.fs| then To(f.fs[k + 1]) else Null
    {
      ListLink(Flipped(bs, Top(f)), f.fs, k);
      assert f.fs[k] in f.fs;
    }
    assert IsList(s2, f.fs);
  }
}
