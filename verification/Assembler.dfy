/**
 Turning the graph into the array of instructions the machine runs. Blocks are laid down from
 the end of the array, successors first; a branch offset has 8 bits, so a branch that reaches
 further goes to a long jump put behind it, for which room is made in the next round.
 */
module Assembler {
  import opened Machine
  import opened FlowGraph
  import opened Levels
  import opened Marking
  import opened Sums

  // ----- instructions -----

  datatype Insn = Plain(s: Stmt) | Branch(test: Test, jt: nat, jf: nat) | Ja(k: nat) | Leave(rv: RetVal)

  /** The machine on the array, from instruction pc on; None when it runs off the end. */
  function RunCode(code: seq<Insn>, pc: nat, r: Regs, p: Packet): Option<Verdict>
    decreases |code| - pc
  {
    if pc >= |code| then None
    else match code[pc]
      case Plain(s) =>
        var m := Step(s, r, p);
        if m.None? then Some(Fault) else RunCode(code, pc + 1, m.value, p)
      case Branch(t, jt, jf) => RunCode(code, pc + 1 + (if Taken(t, r) then jt else jf), r, p)
      case Ja(k) => RunCode(code, pc + 1 + k, r, p)
      case Leave(rv) => Some(Return(if rv.RetK? then rv.k else r[A_ATOM]))
  }

  // ----- the place of a block -----

  /** How many cells a block takes: statements, branch or return, and its long jumps. */
  function Cells(b: Block, longT: bool, longF: bool): nat {
    |Kept(b.stmts)| + 1 + (if longT then 1 else 0) + (if longF then 1 else 0)
  }

  function AllCells(g: Graph, longT: set<nat>, longF: set<nat>): (w: seq<nat>)
    ensures |w| == |g|
  {
    seq(|g|, b requires 0 <= b < |g| => Cells(g[b], b in longT, b in longF))
  }

  /** The instruction stored at pc leads to target on the given side, directly or by a long jump. */
  predicate LeadsTo(code: seq<Insn>, pc: nat, side: bool, target: nat) {
    && pc < |code| && code[pc].Branch?
    && var d := if side then code[pc].jt else code[pc].jf;
       pc + 1 + d == target || (pc + 1 + d < |code| && code[pc + 1 + d].Ja?
         && pc + 2 + d + code[pc + 1 + d].k == target)
  }

  /** Block b of the graph stands at its offset in the array, its exits leading to its successors. */
  ghost predicate Placed(g: Graph, code: seq<Insn>, offset: seq<nat>, b: nat)
    requires Valid(g) && |offset| == |g| && b < |g|
  {
    var ss := Kept(g[b].stmts);
    var pc := offset[b] + |ss|;
    && pc < |code|
    && (forall i :: 0 <= i < |ss| ==> code[offset[b] + i] == Plain(ss[i]))
    && match g[b]
       case Ret(_, rv) => code[pc] == Leave(rv)
       case Br(_, t, jt, jf) =>
         && code[pc].Branch? && code[pc].test == t
         && LeadsTo(code, pc, true, offset[jt]) && LeadsTo(code, pc, false, offset[jf])
  }

  lemma {:induction false} StmtsRun(code: seq<Insn>, at: nat, ss: seq<Stmt>, r: Regs, p: Packet)
    requires at + |ss| <= |code| && forall i :: 0 <= i < |ss| ==> code[at + i] == Plain(ss[i])
    ensures RunCode(code, at, r, p) ==
      var m := RunStmts(ss, r, p);
      if m.None? then Some(Fault) else RunCode(code, at + |ss|, m.value, p)
    decreases |ss|
  {
    if ss != [] {
      assert code[at + 0] == Plain(ss[0]);
      var m := Step(ss[0], r, p);
      if m.Some? {
        forall i | 0 <= i < |ss[1..]| ensures code[at + 1 + i] == Plain(ss[1..][i]) {
          assert code[at + (i + 1)] == Plain(ss[i + 1]);
        }
        StmtsRun(code, at + 1, ss[1..], m.value, p);
      }
    }
  }

  lemma BranchRuns(code: seq<Insn>, pc: nat, t: nat, n: nat, r: Regs, p: Packet)
    requires LeadsTo(code, pc, true, t) && LeadsTo(code, pc, false, n)
    ensures RunCode(code, pc, r, p) == RunCode(code, if Taken(code[pc].test, r) then t else n, r, p)
  {
  }

  /** One block of the array: its statements, then its exit. */
  lemma PlacedRuns(g: Graph, code: seq<Insn>, offset: seq<nat>, b: nat, r: Regs, p: Packet)
    requires Valid(g) && |offset| == |g| && b < |g| && Placed(g, code, offset, b)
    ensures RunCode(code, offset[b], r, p) ==
      var m := RunStmts(g[b].stmts, r, p);
      if m.None? then Some(Fault)
      else match g[b]
        case Ret(_, rv) => Some(Return(if rv.RetK? then rv.k else m.value[A_ATOM]))
        case Br(_, t, jt, jf) => RunCode(code, offset[if Taken(t, m.value) then jt else jf], m.value, p)
  {
    var ss := Kept(g[b].stmts);
    KeptRuns(g[b].stmts, r, p);
    StmtsRun(code, offset[b], ss, r, p);
    var m := RunStmts(ss, r, p);
    if m.Some? && g[b].Br? {
      hide LeadsTo;
      BranchRuns(code, offset[b] + |ss|, offset[g[b].jt], offset[g[b].jf], m.value, p);
    }
  }

  lemma RunIs(g: Graph, b: nat, r: Regs, p: Packet)
    requires Acyclic(g) && b < |g|
    ensures Valid(g)
    ensures Run(g, b, r, p) ==
      var m := RunStmts(g[b].stmts, r, p);
      if m.None? then Fault
      else match g[b]
        case Ret(_, rv) => Return(if rv.RetK? then rv.k else m.value[A_ATOM])
        case Br(_, t, jt, jf) => Run(g, if Taken(t, m.value) then jt else jf, m.value, p)
    ensures g[b].Br? ==> g[b].jt < |g| && Level(g, g[b].jt) < Level(g, b)
    ensures g[b].Br? ==> g[b].jf < |g| && Level(g, g[b].jf) < Level(g, b)
  {
    assert Ranked(g, RankOf(g));
  }

  /** The array, entered where a block stands, does what the graph does from that block on. */
  lemma {:induction false} CodeRuns(g: Graph, code: seq<Insn>, offset: seq<nat>, done: set<nat>, b: nat, r: Regs,
          p: Packet)
    requires Acyclic(g) && Valid(g) && |offset| == |g| && b in done && b < |g|
    requires forall x :: x in done ==>
      x < |g| && Placed(g, code, offset, x) && (g[x].Br? ==> g[x].jt in done && g[x].jf in done)
    ensures RunCode(code, offset[b], r, p) == Some(Run(g, b, r, p))
    decreases Level(g, b)
  {
    hide *;
    PlacedRuns(g, code, offset, b, r, p);
    RunIs(g, b, r, p);
    var m := RunStmts(g[b].stmts, r, p);
    if m.Some? && g[b].Br? {
      CodeRuns(g, code, offset, done, if Taken(g[b].test, m.value) then g[b].jt else g[b].jf, m.value, p);
    }
  }

  /** Branch offsets fit in a byte, and no jump leaves the array. */
  predicate WellEncoded(code: seq<Insn>, i: nat)
    requires i < |code|
  {
    match code[i]
    case Plain(s) => !s.Nop?
    case Branch(_, jt, jf) => jt < 256 && jf < 256 && i + 1 + jt < |code| && i + 1 + jf < |code|
    case Ja(k) => i + 1 + k < |code|
    case Leave(_) => true
  }

  // ----- laying blocks down -----

  /** The cells from ftail on hold the blocks in done, the ones before it are still zero. */
  ghost predicate Laid(g: Graph, code: seq<Insn>, offset: seq<nat>, done: set<nat>, ftail: nat, w: seq<nat>)
    requires Valid(g) && |w| == |g|
  {
    && |offset| == |g| && ftail + SumOver(w, done, |g|) == |code|
    && (forall x :: x in done ==> x < |g| && ftail <= offset[x] < |code| && Placed(g, code, offset, x))
    && (forall i :: ftail <= i < |code| ==> WellEncoded(code, i))
    && (forall i :: 0 <= i < ftail ==> code[i] == Plain(LdImm(0)))
  }

  /** Block b has been written to the cells just before ftail0. */
  ghost predicate Emitted(g: Graph, code0: seq<Insn>, code: seq<Insn>, offset0: seq<nat>, offset: seq<nat>,
          ftail0: nat, ftail: nat, b: nat, n: nat)
    requires Valid(g) && b < |g| && |offset0| == |g|
  {
    && |code| == |code0| && ftail + n == ftail0 <= |code| && n > 0 && offset == offset0[b := ftail]
    && (forall i :: 0 <= i < ftail || ftail0 <= i < |code| ==> code[i] == code0[i])
    && Placed(g, code, offset, b)
    && (forall i :: ftail <= i < ftail0 ==> WellEncoded(code, i))
  }

  /** What stands from ftail0 on is not disturbed by what is written before it. */
  lemma PlacedKept(g: Graph, code0: seq<Insn>, code: seq<Insn>, offset0: seq<nat>, offset: seq<nat>, ftail0: nat,
          b: nat, x: nat)
    requires Valid(g) && |offset0| == |offset| == |g| && x < |g| && b < |g| && x != b && |code| == |code0|
    requires Placed(g, code0, offset0, x) && ftail0 <= offset0[x] && offset == offset0[b := offset[b]]
    requires g[x].Br? ==> g[x].jt != b && g[x].jf != b
    requires forall i :: ftail0 <= i < |code| ==> code[i] == code0[i]
    ensures Placed(g, code, offset, x)
  {
    var ss := Kept(g[x].stmts);
    forall i | 0 <= i < |ss| ensures code[offset[x] + i] == Plain(ss[i]) {
      assert code0[offset0[x] + i] == Plain(ss[i]);
    }
  }

  lemma LaidMore(g: Graph, root: nat, code0: seq<Insn>, code: seq<Insn>, offset0: seq<nat>, offset: seq<nat>,
                 done: set<nat>, ftail0: nat, ftail: nat, w: seq<nat>, b: nat)
    requires Valid(g) && |w| == |g| && Laid(g, code0, offset0, done, ftail0, w) && Explored(g, root, done)
    requires b < |g| && b !in done && Emitted(g, code0, code, offset0, offset, ftail0, ftail, b, w[b])
    ensures Laid(g, code, offset, done + {b}, ftail, w) && |offset| == |g| && offset[b] == ftail
  {
    SumAdd(w, done, b, |g|);
    forall x | x in done ensures ftail <= offset[x] < |code| && Placed(g, code, offset, x) {
      PlacedKept(g, code0, code, offset0, offset, ftail0, b, x);
    }
    forall i | ftail <= i < |code| ensures WellEncoded(code, i) {
      if i >= ftail0 {
        assert WellEncoded(code0, i);
      }
    }
  }

  /** The cells not yet used have room for the block. */
  lemma Room(g: Graph, code: seq<Insn>, offset: seq<nat>, done: set<nat>, all: set<nat>, ftail: nat, w: seq<nat>,
          b: nat)
    requires Valid(g) && |w| == |g| && Laid(g, code, offset, done, ftail, w) && |code| == SumOver(w, all, |g|)
    requires b < |g| && b !in done && done <= all && b in all
    ensures w[b] <= ftail
  {
    SumAdd(w, done, b, |g|);
    SumLess(w, w, done + {b}, all, |g|);
  }

  // ----- the order of the blocks, and which branches are too long -----

  /** The order in which convert_code_r finishes the blocks below b, after those in order. */
  ghost function Order(g: Graph, b: nat, order: seq<nat>): seq<nat>
    requires Acyclic(g) && b < |g|
    decreases Level(g, b)
  {
    if b in order then order
    else if g[b].Ret? then order + [b]
    else Order(g, g[b].jt, Order(g, g[b].jf, order)) + [b]
  }

  lemma {:induction false} OrderExtends(g: Graph, b: nat, order: seq<nat>)
    requires Acyclic(g) && b < |g|
    ensures order <= Order(g, b, order)
    decreases Level(g, b)
  {
    if b !in order && g[b].Br? {
      OrderExtends(g, g[b].jf, order);
      OrderExtends(g, g[b].jt, Order(g, g[b].jf, order));
    }
  }

  ghost function CellsTo(w: seq<nat>, order: seq<nat>, k: nat): nat
    requires k <= |order| && forall i :: 0 <= i < |order| ==> order[i] < |w|
  {
    if k == 0 then 0 else CellsTo(w, order, k - 1) + w[order[k - 1]]
  }

  lemma {:induction false} CellsToPrefix(w: seq<nat>, order: seq<nat>, full: seq<nat>, k: nat)
    requires k <= |order| && order <= full && forall i :: 0 <= i < |full| ==> full[i] < |w|
    ensures forall i :: 0 <= i < |order| ==> order[i] < |w|
    ensures CellsTo(w, order, k) == CellsTo(w, full, k)
  {
    assert forall i :: 0 <= i < |order| ==> order[i] == full[i];
    if k > 0 {
      CellsToPrefix(w, order, full, k - 1);
    }
  }

  /** Making blocks longer moves no two of them closer. */
  lemma {:induction false} CellsToGrow(w: seq<nat>, v: seq<nat>, order: seq<nat>, j: nat, i: nat)
    requires j <= i <= |order| && |w| == |v| && forall k :: 0 <= k < |order| ==> order[k] < |w|
    requires forall b :: 0 <= b < |w| ==> w[b] <= v[b]
    ensures CellsTo(w, order, i) - CellsTo(w, order, j) <= CellsTo(v, order, i) - CellsTo(v, order, j)
    decreases i
  {
    if j < i {
      CellsToGrow(w, v, order, j, i - 1);
    }
  }

  function Exit(b: Block, side: bool): nat
    requires b.Br?
  {
    if side then b.jt else b.jf
  }

  /** With blocks this long, laid out in this order, the branch offset of b on this side needs more than 8 bits. */
  ghost predicate TooFar(g: Graph, w: seq<nat>, full: seq<nat>, b: nat, side: bool)
    requires b < |g| && g[b].Br? && |w| == |g| && forall i :: 0 <= i < |full| ==> full[i] < |w|
  {
    exists j, i :: 0 <= j <= i < |full| && full[i] == b && full[j] == Exit(g[b], side)
      && CellsTo(w, full, i + 1) - CellsTo(w, full, j + 1) - |Kept(g[b].stmts)| - 1 >= 256
  }

  lemma TooFarGrows(g: Graph, w: seq<nat>, v: seq<nat>, full: seq<nat>, b: nat, side: bool)
    requires b < |g| && g[b].Br? && |w| == |v| == |g| && forall i :: 0 <= i < |full| ==> full[i] < |w|
    requires TooFar(g, w, full, b, side) && forall x :: 0 <= x < |w| ==> w[x] <= v[x]
    ensures TooFar(g, v, full, b, side)
  {
    var j, i :| 0 <= j <= i < |full| && full[i] == b && full[j] == Exit(g[b], side)
      && CellsTo(w, full, i + 1) - CellsTo(w, full, j + 1) - |Kept(g[b].stmts)| - 1 >= 256;
    CellsToGrow(w, v, full, j + 1, i + 1);
  }

  /** The offset convert_code_r computes for an exit of b. */
  function Reach(g: Graph, offset: seq<nat>, b: nat, side: bool): int
    requires b < |g| && |offset| == |g| && g[b].Br? && Exit(g[b], side) < |g|
  {
    offset[Exit(g[b], side)] - (offset[b] + |Kept(g[b].stmts)|) - 1
  }

  /** The blocks in done were laid down in this order, and long exits have their long jumps. */
  ghost predicate InOrder(g: Graph, offset: seq<nat>, order: seq<nat>, done: set<nat>, w: seq<nat>, ftail: nat,
          n: nat, longT: set<nat>, longF: set<nat>)
    requires Valid(g) && |w| == |g| == |offset|
  {
    && (forall x :: x in done <==> x in order) && NoRepeats(order) && (forall k :: 0 <= k < |order| ==> order[k] < |g|)
    && (forall k :: 0 <= k < |order| ==> offset[order[k]] + CellsTo(w, order, k + 1) == n)
    && ftail + CellsTo(w, order, |order|) == n
    && (forall x :: x in done && g[x].Br? ==> g[x].jt in done && g[x].jf in done && Served(g, offset, longT, longF, x))
  }

  predicate Served(g: Graph, offset: seq<nat>, longT: set<nat>, longF: set<nat>, b: nat)
    requires Valid(g) && |offset| == |g| && b < |g| && g[b].Br?
  {
    (Reach(g, offset, b, true) >= 256 ==> b in longT) && (Reach(g, offset, b, false) >= 256 ==> b in longF)
  }

  lemma InOrderMore(g: Graph, offset0: seq<nat>, offset: seq<nat>, order: seq<nat>, done: set<nat>, w: seq<nat>,
          ftail: nat, n: nat,
                    longT: set<nat>, longF: set<nat>, b: nat)
    requires Valid(g) && |w| == |g| == |offset0| == |offset| && b < |g| && b !in done
    requires InOrder(g, offset0, order, done, w, ftail, n, longT, longF) && offset == offset0[b := offset[b]]
    requires offset[b] + w[b] == ftail
    requires g[b].Br? ==> g[b].jt in done && g[b].jf in done && Served(g, offset, longT, longF, b)
    ensures InOrder(g, offset, order + [b], done + {b}, w, offset[b], n, longT, longF)
  {
    hide CellsTo, Reach, Served;
    assert forall x :: x in order + [b] <==> x in order || x == b;
    OffsetsMore(g, offset0, offset, order, w, n, b);
    forall x | x in done && g[x].Br? ensures Served(g, offset, longT, longF, x) {
      SameReach(g, offset0, offset, b, x, longT, longF);
    }
  }

  lemma SameReach(g: Graph, offset0: seq<nat>, offset: seq<nat>, b: nat, x: nat, longT: set<nat>, longF: set<nat>)
    requires Valid(g) && |g| == |offset0| == |offset| && b < |g| && offset == offset0[b := offset[b]]
    requires x < |g| && x != b && g[x].Br? && g[x].jt != b && g[x].jf != b
    ensures Served(g, offset0, longT, longF, x) == Served(g, offset, longT, longF, x)
  {
  }

  lemma OffsetsMore(g: Graph, offset0: seq<nat>, offset: seq<nat>, order: seq<nat>, w: seq<nat>, n: nat, b: nat)
    requires |w| == |g| == |offset0| == |offset| && b < |g| && b !in order
    requires forall k :: 0 <= k < |order| ==> order[k] < |g|
    requires forall k :: 0 <= k < |order| ==> offset0[order[k]] + CellsTo(w, order, k + 1) == n
    requires offset == offset0[b := offset[b]] && offset[b] + w[b] + CellsTo(w, order, |order|) == n
    ensures forall k :: 0 <= k < |order + [b]| ==> (order + [b])[k] < |g|
    ensures forall k :: 0 <= k < |order + [b]| ==> offset[(order + [b])[k]] + CellsTo(w, order + [b], k + 1) == n
    ensures CellsTo(w, order + [b], |order + [b]|) == CellsTo(w, order, |order|) + w[b]
  {
    var order' := order + [b];
    CellsToPrefix(w, order, order', |order|);
    assert CellsTo(w, order', |order'|) == CellsTo(w, order', |order|) + w[b];
    forall k | 0 <= k < |order'| ensures offset[order'[k]] + CellsTo(w, order', k + 1) == n {
      if k < |order| {
        CellsToPrefix(w, order, order', k + 1);
        assert order[k] in order;
      } else {
        CellsToPrefix(w, order, order', k);
      }
    }
  }

  /** An exit found too long while the array is being laid out is too long in the full order. */
  lemma FoundTooFar(g: Graph, offset: seq<nat>, order: seq<nat>, done: set<nat>, w: seq<nat>, ftail: nat, n: nat,
                    longT: set<nat>, longF: set<nat>, full: seq<nat>, b: nat, side: bool, at: nat)
    requires Valid(g) && |w| == |g| == |offset| && b < |g| && g[b].Br?
    requires InOrder(g, offset, order, done, w, ftail, n, longT, longF)
    requires order + [b] <= full && (forall i :: 0 <= i < |full| ==> full[i] < |g|) && Exit(g[b], side) in done
    requires at + w[b] == ftail
    requires offset[Exit(g[b], side)] - (at + |Kept(g[b].stmts)|) - 1 >= 256
    ensures TooFar(g, w, full, b, side)
  {
    var c := Exit(g[b], side);
    var j :| 0 <= j < |order| && order[j] == c;
    CellsToPrefix(w, order, full, j + 1);
    CellsToPrefix(w, order, full, |order|);
    assert full[|order|] == (order + [b])[|order|] && full[j] == (order + [b])[j];
  }

  /** In the finished layout the exits that are too far are those whose offset is too large. */
  lemma TooFarReach(g: Graph, offset: seq<nat>, order: seq<nat>, done: set<nat>, w: seq<nat>, ftail: nat, n: nat,
                    longT: set<nat>, longF: set<nat>, b: nat, side: bool)
    requires Valid(g) && |w| == |g| == |offset| && b < |g| && g[b].Br?
    requires InOrder(g, offset, order, done, w, ftail, n, longT, longF)
    requires TooFar(g, w, order, b, side)
    ensures Reach(g, offset, b, side) >= 256
  {
  }

  class Converter {
    const g: Graph
    const root: nat
    var longjt: set<nat>
    var longjf: set<nat>
    var marks: set<nat>
    var offset: seq<nat>
    var code: array<Insn>
    var ftail: nat
    ghost var done: set<nat>
    ghost var order: seq<nat>

    constructor (g: Graph, root: nat)
      ensures this.g == g && this.root == root && longjt == longjf == {} && |offset| == |g| && fresh(code)
    {
      this.g, this.root := g, root;
      longjt, longjf, marks, done, order := {}, {}, {}, {}, [];
      offset := seq(|g|, b => 0);
      code := new Insn[0];
      ftail := 0;
    }

    method SLength(ss: seq<Stmt>) returns (n: nat)
      ensures n == |Kept(ss)|
    {
      n := 0;
      for i := 0 to |ss|
        invariant n == |Kept(ss[..i])|
      {
        KeptAppend(ss[..i], ss[i]);
        assert ss[..i] + [ss[i]] == ss[..i + 1];
        if !ss[i].Nop? {
          n := n + 1;
        }
      }
      assert ss[..|ss|] == ss;
    }

    /** count_stmts: the cells that the blocks not yet counted below b take. */
    method CountStmts(b: nat) returns (n: nat)
      requires Acyclic(g) && b < |g| && Reachable(g, root, b) && Explored(g, root, done) && Inside(g, marks, done, b)
      modifies this`marks, this`done
      ensures Explored(g, root, done) && Walked(old(marks), old(done), marks, done, b)
      ensures SumOver(AllCells(g, longjt, longjf), done, |g|) ==
        SumOver(AllCells(g, longjt, longjf), old(done), |g|) + n
      decreases Level(g, b)
    {
      hide *;
      WalkHere(g, marks, done, b);
      if b in marks {
        return 0;
      }
      ghost var marks0, done0 := marks, done;
      marks := marks + {b};
      n := 0;
      if g[b].Br? {
        BranchEdges(g, b);
        WalkDown(g, root, marks0, done0, b, g[b].jt);
        var t := CountStmts(g[b].jt);
        ghost var marks1, done1 := marks, done;
        WalkAcross(g, root, marks0, done0, marks, done, b, g[b].jt, g[b].jf);
        var f := CountStmts(g[b].jf);
        WalkUp(marks0, done0, marks1, done1, marks, done, b, g[b].jt, g[b].jf);
        n := t + f;
      }
      var slen := SLength(g[b].stmts);
      n := slen + n + 1 + (if b in longjt then 1 else 0) + (if b in longjf then 1 else 0);
      CellsAt(g, longjt, longjf, b);
      SumAdd(AllCells(g, longjt, longjf), done, b, |g|);
      ExploredMore(g, root, done, b);
      done := done + {b};
    }

    /** The statements of a block, from cell at on. */
    method EmitStmts(ss: seq<Stmt>, at: nat) returns (dst: nat)
      requires at + |Kept(ss)| <= code.Length
      modifies code
      ensures dst == at + |Kept(ss)|
      ensures forall i :: 0 <= i < |Kept(ss)| ==> code[at + i] == Plain(Kept(ss)[i])
      ensures forall i :: 0 <= i < at || dst <= i < code.Length ==> code[i] == old(code[i])
    {
      dst := at;
      for i := 0 to |ss|
        invariant dst == at + |Kept(ss[..i])| <= code.Length
        invariant forall j :: 0 <= j < |Kept(ss[..i])| ==> code[at + j] == Plain(Kept(ss[..i])[j])
        invariant forall j :: 0 <= j < at || dst <= j < code.Length ==> code[j] == old(code[j])
      {
        KeptAppend(ss[..i], ss[i]);
        assert ss[..i] + [ss[i]] == ss[..i + 1];
        KeptPrefix(ss, i + 1);
        if !ss[i].Nop? {
          code[dst] := Plain(ss[i]);
          dst := dst + 1;
        }
      }
      assert ss[..|ss|] == ss;
    }

    /** The branch in cell dst of block b; false when one of its exits needs a long jump it has no room for. */
    method EmitBranch(b: nat, dst: nat) returns (ok: bool)
      requires b < |g| && g[b].Br? && |offset| == |g| && g[b].jt < |g| && g[b].jf < |g|
      requires dst + 1 + (if b in longjt then 1 else 0) + (if b in longjf then 1 else 0) <= code.Length
      requires var end := dst + 1 + (if b in longjt then 1 else 0) + (if b in longjf then 1 else 0);
        end <= offset[g[b].jt] < code.Length && end <= offset[g[b].jf] < code.Length
      requires forall i :: dst <= i < dst + 1 + (if b in longjt then 1 else 0) + (if b in longjf then 1 else 0) ==>
        code[i] == Plain(LdImm(0))
      modifies code, this`longjt, this`longjf
      ensures !ok ==> Grown(old(longjt), old(longjf), longjt, longjf, b,
                            offset[g[b].jt] - dst - 1 >= 256, offset[g[b].jf] - dst - 1 >= 256)
      ensures ok ==> longjt == old(longjt) && longjf == old(longjf)
      ensures ok && offset[g[b].jt] - dst - 1 >= 256 ==> b in longjt
      ensures ok && offset[g[b].jf] - dst - 1 >= 256 ==> b in longjf
      ensures ok ==>
        && code[dst].Branch? && code[dst].test == g[b].test
        && LeadsTo(code[..], dst, true, offset[g[b].jt]) && LeadsTo(code[..], dst, false, offset[g[b].jf])
      ensures ok ==>
        var end := dst + 1 + (if b in longjt then 1 else 0) + (if b in longjf then 1 else 0);
        && (forall i :: 0 <= i < dst || end <= i < code.Length ==> code[i] == old(code[i]))
        && (forall i :: dst <= i < end ==> WellEncoded(code[..], i))
    {
      var extrajmps := 0;
      var jt, jf;
      var off := offset[g[b].jt] - dst - 1;
      if off >= 256 {
        if b !in longjt {
          longjt := longjt + {b};
          return false;
        }
        jt := extrajmps;
        extrajmps := extrajmps + 1;
        code[dst + extrajmps] := Ja(off - extrajmps);
      } else {
        jt := off;
      }
      off := offset[g[b].jf] - dst - 1;
      if off >= 256 {
        if b !in longjf {
          longjf := longjf + {b};
          return false;
        }
        jf := extrajmps;
        extrajmps := extrajmps + 1;
        code[dst + extrajmps] := Ja(off - extrajmps);
      } else {
        jf := off;
      }
      code[dst] := Branch(g[b].test, jt, jf);
      return true;
    }

    /** Lays block b down in front of ftail. */
    method EmitBlock(b: nat) returns (ok: bool)
      requires Valid(g) && b < |g| && |offset| == |g| && ftail <= code.Length
      requires Cells(g[b], b in longjt, b in longjf) <= ftail
      requires g[b].Ret? ==> b !in longjt && b !in longjf
      requires g[b].Br? ==> g[b].jt != b && g[b].jf != b
      requires g[b].Br? ==> ftail <= offset[g[b].jt] < code.Length && ftail <= offset[g[b].jf] < code.Length
      requires forall i :: 0 <= i < ftail ==> code[i] == Plain(LdImm(0))
      modifies this`longjt, this`longjf, this`offset, this`ftail, code
      ensures |offset| == |old(offset)| && ftail == old(ftail) - old(Cells(g[b], b in longjt, b in longjf))
      ensures offset == old(offset)[b := ftail]
      ensures !ok ==> g[b].Br? && Grown(old(longjt), old(longjf), longjt, longjf, b,
                                        Reach(g, offset, b, true) >= 256, Reach(g, offset, b, false) >= 256)
      ensures ok && g[b].Br? ==> Served(g, offset, longjt, longjf, b)
      ensures ok ==> longjt == old(longjt) && longjf == old(longjf)
      ensures ok ==> Emitted(g, old(code[..]), code[..], old(offset), offset, old(ftail), ftail, b,
        Cells(g[b], b in longjt, b in longjf))
    {
      hide *;
      ghost var n := Cells(g[b], b in longjt, b in longjf);
      ghost var code0, ftail0 := code[..], ftail;
      CellsIs(g[b], b in longjt, b in longjf);
      ValidBranch(g, b);
      var slen := SLength(g[b].stmts);
      ftail := ftail - (slen + 1 + (if b in longjt then 1 else 0) + (if b in longjf then 1 else 0));
      offset := offset[b := ftail];
      var dst := EmitStmts(g[b].stmts, ftail);
      ghost var code1 := code[..];
      ok := true;
      if g[b].Ret? {
        code[dst] := Leave(g[b].rv);
        LeaveEncoded(code[..], dst);
      } else {
        ReachIs(g, offset, longjt, longjf, b);
        ok := EmitBranch(b, dst);
        if !ok {
          return;
        }
      }
      forall i | 0 <= i < slen ensures code[ftail + i] == Plain(Kept(g[b].stmts)[i]) {
        assert code[ftail + i] == code1[ftail + i];
      }
      PlacedBlock(g, code0, code[..], old(offset), offset, ftail0, ftail, b, n);
    }

    /**
     convert_code_r: lays down the blocks below b, successors first and false side before true.
     When a branch turns out too long it is marked and the round is given up.
     */
    method ConvertCodeR(b: nat, ghost all: set<nat>, ghost full: seq<nat>) returns (ok: bool)
      requires Acyclic(g) && Valid(g) && b < |g| && Reachable(g, root, b) && Explored(g, root, done)
      requires Inside(g, marks, done, b)
      requires Explored(g, root, all) && b in all && done <= all
      requires Branches(g, longjt) && Branches(g, longjf)
      requires Laid(g, code[..], offset, done, ftail, AllCells(g, longjt, longjf))
      requires code.Length == SumOver(AllCells(g, longjt, longjf), all, |g|)
      requires |offset| == |g|
      requires InOrder(g, offset, order, done, AllCells(g, longjt, longjf), ftail, code.Length, longjt, longjf)
      requires Order(g, b, order) <= full && forall i :: 0 <= i < |full| ==> full[i] < |g|
      modifies this, code
      ensures code == old(code) && |offset| == |g|
      ensures !ok ==> OneMoreLong(g, old(longjt), old(longjf), longjt, longjf, full)
      ensures ok ==> longjt == old(longjt) && longjf == old(longjf)
      ensures ok ==> Explored(g, root, done) && Walked(old(marks), old(done), marks, done, b) && done <= all
      ensures ok ==> Laid(g, code[..], offset, done, ftail, AllCells(g, longjt, longjf))
      ensures ok ==> order == Order(g, b, old(order))
      ensures ok ==> InOrder(g, offset, order, done, AllCells(g, longjt, longjf), ftail, code.Length, longjt, longjf)
      ensures ok && b !in old(marks) ==> offset[b] == ftail
      decreases Level(g, b)
    {
      hide *;
      BeforeBlock(g, root, marks, done, all, longjt, longjf, b);
      LaidAt(g, code[..], offset, done, ftail, AllCells(g, longjt, longjf), b);
      InOrderAt(g, offset, order, done, AllCells(g, longjt, longjf), ftail, code.Length, longjt, longjf, b);
      OrderDown(g, b, order, full);
      if b in marks {
        return true;
      }
      ghost var marks0, done0, w := marks, done, AllCells(g, longjt, longjf);
      marks := marks + {b};
      if g[b].Br? {
        BranchEdges(g, b);
        WalkDown(g, root, marks0, done0, b, g[b].jf);
        ok := ConvertCodeR(g[b].jf, all, full);
        if !ok {
          return;
        }
        ghost var marks1, done1 := marks, done;
        WalkAcross(g, root, marks0, done0, marks, done, b, g[b].jf, g[b].jt);
        ok := ConvertCodeR(g[b].jt, all, full);
        if !ok {
          return;
        }
        WalkUp(marks0, done0, marks1, done1, marks, done, b, g[b].jf, g[b].jt);
        LaidAt(g, code[..], offset, done, ftail, w, g[b].jt);
        LaidAt(g, code[..], offset, done, ftail, w, g[b].jf);
      }
      LaidAt(g, code[..], offset, done, ftail, w, b);
      Room(g, code[..], offset, done, all, ftail, w, b);
      ghost var code0, offset0, ftail0 := code[..], offset, ftail;
      ok := EmitBlock(b);
      if ok {
        LaidMore(g, root, code0, code[..], offset0, offset, done, ftail0, ftail, w, b);
        ExploredMore(g, root, done, b);
        InOrderMore(g, offset0, offset, order, done, w, ftail0, code.Length, longjt, longjf, b);
        done := done + {b};
        order := order + [b];
      } else {
        ValidBranch(g, b);
        BothTooFar(g, offset0, offset, order, done, w, ftail0, code.Length, old(longjt), old(longjf), full, b);
        GrownFor(g, old(longjt), old(longjf), longjt, longjf, full, b,
                 Reach(g, offset, b, true) >= 256, Reach(g, offset, b, false) >= 256);
      }
    }

    /** icode_to_fcode: rounds of counting and converting until no branch is too long. */
    method IcodeToFcode() returns (fp: array<Insn>)
      requires Acyclic(g) && root < |g| && |offset| == |g| && longjt == longjf == {}
      modifies this
      ensures fresh(fp)
      ensures Runs(g, root, fp[..], 0)
      ensures forall i :: 0 <= i < fp.Length ==> WellEncoded(fp[..], i)
      ensures |offset| == |g| && LongJumpsExact(g, root, offset, longjt, longjf)
    {
      hide *;
      WalkStart(g, root);
      ghost var full := Order(g, root, []);
      OrderBounded(g, root, []);
      NothingLong(g, full);
      while true
        invariant |offset| == |g| && Branches(g, longjt) && Branches(g, longjf)
        invariant Justified(g, longjt, longjf, full)
        decreases 2 * |g| - |longjt| - |longjf|
      {
        MarkedFit(g, longjt);
        MarkedFit(g, longjf);
        marks, done := {}, {};
        var n := CountStmts(root);
        ghost var all, w := done, AllCells(g, longjt, longjf);
        WalkedMore({}, {}, marks, done, root);
        SumNone(w, |g|);
        code := new Insn[n](i => Plain(LdImm(0)));
        ftail := n;
        marks, done, order := {}, {}, [];
        LaidNothing(g, code[..], offset, w);
        OrderNothing(g, offset, w, n, longjt, longjf);
        ghost var longT, longF := longjt, longjf;
        var ok := ConvertCodeR(root, all, full);
        if ok {
          WalkedMore({}, {}, marks, done, root);
          LaidAll(g, root, code[..], offset, done, all, ftail, w);
          ExactAtEnd(g, root, offset, order, done, w, ftail, code.Length, longjt, longjf);
          break;
        }
        StillJustified(g, longT, longF, longjt, longjf, full);
      }
      fp := code;
    }
  }

  lemma InOrderAt(g: Graph, offset: seq<nat>, order: seq<nat>, done: set<nat>, w: seq<nat>, ftail: nat, n: nat,
                  longT: set<nat>, longF: set<nat>, b: nat)
    requires Valid(g) && |w| == |g| == |offset| && InOrder(g, offset, order, done, w, ftail, n, longT, longF)
    ensures b in done <==> b in order
  {
  }

  /** The order of the successors comes first in the order of a block. */
  lemma OrderDown(g: Graph, b: nat, order: seq<nat>, full: seq<nat>)
    requires Acyclic(g) && Valid(g) && b < |g| && Order(g, b, order) <= full
    ensures b in order ==> Order(g, b, order) == order
    ensures b !in order && g[b].Ret? ==> Order(g, b, order) == order + [b]
    ensures b !in order && g[b].Br? ==>
      && g[b].jf < |g| && g[b].jt < |g| && Order(g, g[b].jf, order) <= full
      && Order(g, g[b].jt, Order(g, g[b].jf, order)) <= full
      && Order(g, b, order) == Order(g, g[b].jt, Order(g, g[b].jf, order)) + [b]
  {
    if b !in order && g[b].Br? {
      OrderExtends(g, g[b].jf, order);
      OrderExtends(g, g[b].jt, Order(g, g[b].jf, order));
    }
  }

  lemma {:induction false} OrderBounded(g: Graph, b: nat, order: seq<nat>)
    requires Acyclic(g) && b < |g| && forall i :: 0 <= i < |order| ==> order[i] < |g|
    ensures forall i :: 0 <= i < |Order(g, b, order)| ==> Order(g, b, order)[i] < |g|
    decreases Level(g, b)
  {
    if b !in order && g[b].Br? {
      OrderBounded(g, g[b].jf, order);
      OrderBounded(g, g[b].jt, Order(g, g[b].jf, order));
    }
  }

  /** One exit that did not have one gets a long jump, and it is too far for a short one. */
  ghost predicate OneMoreLong(g: Graph, longT: set<nat>, longF: set<nat>, longT': set<nat>, longF': set<nat>,
          full: seq<nat>)
    requires forall i :: 0 <= i < |full| ==> full[i] < |g|
  {
    exists x :: 0 <= x < |g| && g[x].Br? && GrownAt(g, longT, longF, longT', longF', full, x)
  }

  ghost predicate GrownAt(g: Graph, longT: set<nat>, longF: set<nat>, longT': set<nat>, longF': set<nat>,
          full: seq<nat>, x: nat)
    requires x < |g| && g[x].Br? && forall i :: 0 <= i < |full| ==> full[i] < |g|
  {
    Grown(longT, longF, longT', longF', x,
          TooFar(g, AllCells(g, longT, longF), full, x, true), TooFar(g, AllCells(g, longT, longF), full, x, false))
  }

  lemma GrownFor(g: Graph, longT: set<nat>, longF: set<nat>, longT': set<nat>, longF': set<nat>, full: seq<nat>, b: nat,
                 farT: bool, farF: bool)
    requires b < |g| && g[b].Br? && forall i :: 0 <= i < |full| ==> full[i] < |g|
    requires Grown(longT, longF, longT', longF', b, farT, farF)
    requires farT ==> TooFar(g, AllCells(g, longT, longF), full, b, true)
    requires farF ==> TooFar(g, AllCells(g, longT, longF), full, b, false)
    ensures OneMoreLong(g, longT, longF, longT', longF', full)
  {
    hide TooFar, AllCells;
    assert GrownAt(g, longT, longF, longT', longF', full, b);
  }

  lemma BothTooFar(g: Graph, offset0: seq<nat>, offset: seq<nat>, order: seq<nat>, done: set<nat>, w: seq<nat>,
          ftail: nat, n: nat,
                   longT: set<nat>, longF: set<nat>, full: seq<nat>, b: nat)
    requires Valid(g) && |w| == |g| == |offset0| == |offset| && b < |g| && g[b].Br?
    requires InOrder(g, offset0, order, done, w, ftail, n, longT, longF)
    requires order + [b] <= full && (forall i :: 0 <= i < |full| ==> full[i] < |g|) && g[b].jt in done
    requires g[b].jf in done
    requires offset == offset0[b := offset[b]] && offset[b] + w[b] == ftail && g[b].jt != b && g[b].jf != b
    ensures Reach(g, offset, b, true) >= 256 ==> TooFar(g, w, full, b, true)
    ensures Reach(g, offset, b, false) >= 256 ==> TooFar(g, w, full, b, false)
  {
    if Reach(g, offset, b, true) >= 256 {
      FoundTooFar(g, offset0, order, done, w, ftail, n, longT, longF, full, b, true, offset[b]);
    }
    if Reach(g, offset, b, false) >= 256 {
      FoundTooFar(g, offset0, order, done, w, ftail, n, longT, longF, full, b, false, offset[b]);
    }
  }

  /** Every exit marked as long is too far even with the blocks as long as they now are. */
  ghost predicate Justified(g: Graph, longT: set<nat>, longF: set<nat>, full: seq<nat>)
    requires Branches(g, longT) && Branches(g, longF) && forall i :: 0 <= i < |full| ==> full[i] < |g|
  {
    && (forall b :: b in longT ==> TooFar(g, AllCells(g, longT, longF), full, b, true))
    && (forall b :: b in longF ==> TooFar(g, AllCells(g, longT, longF), full, b, false))
  }

  lemma NothingLong(g: Graph, full: seq<nat>)
    requires forall i :: 0 <= i < |full| ==> full[i] < |g|
    ensures Branches(g, {}) && Justified(g, {}, {}, full)
  {
  }

  lemma StillJustified(g: Graph, longT: set<nat>, longF: set<nat>, longT': set<nat>, longF': set<nat>, full: seq<nat>)
    requires Branches(g, longT) && Branches(g, longF)
    requires forall i :: 0 <= i < |full| ==> full[i] < |g|
    requires Justified(g, longT, longF, full) && OneMoreLong(g, longT, longF, longT', longF', full)
    ensures Branches(g, longT') && Branches(g, longF') && |longT'| + |longF'| == |longT| + |longF| + 1
    ensures Justified(g, longT', longF', full)
  {
    hide TooFar;
    var x :| 0 <= x < |g| && g[x].Br? && GrownAt(g, longT, longF, longT', longF', full, x);
    var w, v := AllCells(g, longT, longF), AllCells(g, longT', longF');
    GrownBranches(g, longT, longF, longT', longF', x, TooFar(g, w, full, x, true), TooFar(g, w, full, x, false));
    assert forall y :: 0 <= y < |w| ==> w[y] <= v[y];
    hide *;
    SideJustified(g, w, v, longT, longT', full, true, x);
    SideJustified(g, w, v, longF, longF', full, false, x);
  }

  lemma SideJustified(g: Graph, w: seq<nat>, v: seq<nat>, long: set<nat>, long': set<nat>, full: seq<nat>,
          side: bool, x: nat)
    requires |w| == |v| == |g| && (forall i :: 0 <= i < |full| ==> full[i] < |g|) && x < |g| && g[x].Br?
    requires Branches(g, long) && Branches(g, long') && forall y :: 0 <= y < |w| ==> w[y] <= v[y]
    requires forall b :: b in long ==> TooFar(g, w, full, b, side)
    requires long' == long || (long' == long + {x} && TooFar(g, w, full, x, side))
    ensures forall b :: b in long' ==> TooFar(g, v, full, b, side)
  {
    hide TooFar;
    forall b | b in long' ensures TooFar(g, v, full, b, side) {
      TooFarGrows(g, w, v, full, b, side);
    }
  }

  lemma OrderNothing(g: Graph, offset: seq<nat>, w: seq<nat>, n: nat, longT: set<nat>, longF: set<nat>)
    requires Valid(g) && |w| == |g| == |offset|
    ensures InOrder(g, offset, [], {}, w, n, n, longT, longF)
  {
  }

  /** A branch has a long jump on a side just when its offset on that side does not fit in 8 bits. */
  ghost predicate LongJumpsExact(g: Graph, root: nat, offset: seq<nat>, longT: set<nat>, longF: set<nat>)
    requires Acyclic(g) && root < |g| && |offset| == |g|
  {
    forall b: nat :: b < |g| && Reachable(g, root, b) && g[b].Br? ==>
      && g[b].jt < |g| && g[b].jf < |g|
      && (b in longT <==> Reach(g, offset, b, true) >= 256)
      && (b in longF <==> Reach(g, offset, b, false) >= 256)
  }

  lemma ExactAtEnd(g: Graph, root: nat, offset: seq<nat>, order: seq<nat>, done: set<nat>, w: seq<nat>, ftail: nat,
          n: nat,
                   longT: set<nat>, longF: set<nat>)
    requires Acyclic(g) && Valid(g) && root < |g| && |offset| == |g| == |w| && Explored(g, root, done) && root in done
    requires Branches(g, longT) && Branches(g, longF) && w == AllCells(g, longT, longF)
    requires InOrder(g, offset, order, done, w, ftail, n, longT, longF) && Justified(g, longT, longF, order)
    ensures LongJumpsExact(g, root, offset, longT, longF)
  {
    forall b: nat | b < |g| && Reachable(g, root, b) && g[b].Br?
      ensures (b in longT <==> Reach(g, offset, b, true) >= 256) && (b in longF <==> Reach(g, offset, b, false) >= 256)
    {
      ClosedReaches(g, root, done, b);
      assert Served(g, offset, longT, longF, b);
      if b in longT {
        TooFarReach(g, offset, order, done, w, ftail, n, longT, longF, b, true);
      }
      if b in longF {
        TooFarReach(g, offset, order, done, w, ftail, n, longT, longF, b, false);
      }
    }
  }

  lemma LaidNothing(g: Graph, code: seq<Insn>, offset: seq<nat>, w: seq<nat>)
    requires Valid(g) && |w| == |offset| == |g| && forall i :: 0 <= i < |code| ==> code[i] == Plain(LdImm(0))
    ensures Laid(g, code, offset, {}, |code|, w)
  {
    SumNone(w, |g|);
  }

  /** Once every reachable block is laid down the whole array is used, and it starts with the root. */
  lemma LaidAll(g: Graph, root: nat, code: seq<Insn>, offset: seq<nat>, done: set<nat>, all: set<nat>, ftail: nat,
          w: seq<nat>)
    requires Acyclic(g) && Valid(g) && |w| == |g| && Laid(g, code, offset, done, ftail, w) && Explored(g, root, done)
    requires Explored(g, root, all) && root in all && root in done && |code| == SumOver(w, all, |g|)
    ensures ftail == 0 && Runs(g, root, code, offset[root])
    ensures forall i :: 0 <= i < |code| ==> WellEncoded(code, i)
  {
    ExploredAll(g, root, done, all);
    forall r, p ensures RunCode(code, offset[root], r, p) == Some(Run(g, root, r, p)) {
      CodeRuns(g, code, offset, done, root, r, p);
    }
  }

  /** From every machine state and on every packet the array, started at pc, gives the verdict of the graph. */
  ghost predicate Runs(g: Graph, root: nat, code: seq<Insn>, pc: nat)
    requires Acyclic(g) && root < |g|
  {
    forall r, p :: RunCode(code, pc, r, p) == Some(Run(g, root, r, p))
  }

  lemma CellsAt(g: Graph, longT: set<nat>, longF: set<nat>, b: nat)
    requires b < |g|
    ensures |AllCells(g, longT, longF)| == |g|
    ensures AllCells(g, longT, longF)[b] ==
            |Kept(g[b].stmts)| + 1 + (if b in longT then 1 else 0) + (if b in longF then 1 else 0)
  {
  }

  lemma CellsIs(b: Block, longT: bool, longF: bool)
    ensures Cells(b, longT, longF) == |Kept(b.stmts)| + 1 + (if longT then 1 else 0) + (if longF then 1 else 0)
  {
  }

  lemma ValidBranch(g: Graph, b: nat)
    requires Valid(g) && b < |g|
    ensures g[b].Br? ==> g[b].jt < |g| && g[b].jf < |g| && Exit(g[b], true) == g[b].jt && Exit(g[b], false) == g[b].jf
  {
  }

  lemma ReachIs(g: Graph, offset: seq<nat>, longT: set<nat>, longF: set<nat>, b: nat)
    requires Valid(g) && |offset| == |g| && b < |g| && g[b].Br?
    ensures g[b].jt < |g| && g[b].jf < |g| && Exit(g[b], true) == g[b].jt && Exit(g[b], false) == g[b].jf
    ensures Reach(g, offset, b, true) == offset[g[b].jt] - (offset[b] + |Kept(g[b].stmts)|) - 1
    ensures Reach(g, offset, b, false) == offset[g[b].jf] - (offset[b] + |Kept(g[b].stmts)|) - 1
    ensures Served(g, offset, longT, longF, b) <==>
      (Reach(g, offset, b, true) >= 256 ==> b in longT) && (Reach(g, offset, b, false) >= 256 ==> b in longF)
  {
  }

  lemma LeaveEncoded(code: seq<Insn>, i: nat)
    requires i < |code| && code[i].Leave?
    ensures WellEncoded(code, i)
  {
  }

  /** What convert_code_r knows when it comes to block b. */
  lemma BeforeBlock(g: Graph, root: nat, marks: set<nat>, done: set<nat>, all: set<nat>, longT: set<nat>,
          longF: set<nat>, b: nat)
    requires Acyclic(g) && b < |g| && Inside(g, marks, done, b) && Explored(g, root, all) && b in all
    requires Branches(g, longT) && Branches(g, longF)
    ensures |AllCells(g, longT, longF)| == |g| && AllCells(g, longT, longF)[b] == Cells(g[b], b in longT, b in longF)
    ensures done <= marks && (b in marks ==> b in done && Walked(marks, done, marks, done, b))
    ensures b !in marks && g[b].Ret? ==> Walked(marks, done, marks + {b}, done + {b}, b)
    ensures g[b].Br? ==> g[b].jt in all && g[b].jf in all && g[b].jt != b && g[b].jf != b
    ensures g[b].Ret? ==> b !in longT && b !in longF
  {
    assert Ranked(g, RankOf(g));
  }

  lemma LaidAt(g: Graph, code: seq<Insn>, offset: seq<nat>, done: set<nat>, ftail: nat, w: seq<nat>, x: nat)
    requires Valid(g) && |w| == |g| && Laid(g, code, offset, done, ftail, w)
    ensures |offset| == |g| && ftail <= |code|
    ensures forall i :: 0 <= i < ftail ==> code[i] == Plain(LdImm(0))
    ensures x in done ==> x < |g| && ftail <= offset[x] < |code|
  {
  }

  /** Long jumps are wanted for branches only. */
  ghost predicate Branches(g: Graph, s: set<nat>) {
    forall x :: x in s ==> x < |g| && g[x].Br?
  }

  lemma GrownBranches(g: Graph, longT: set<nat>, longF: set<nat>, longT': set<nat>, longF': set<nat>, b: nat,
                      farT: bool, farF: bool)
    requires Branches(g, longT) && Branches(g, longF) && b < |g| && g[b].Br?
    requires Grown(longT, longF, longT', longF', b, farT, farF)
    ensures Branches(g, longT') && Branches(g, longF') && |longT'| + |longF'| == |longT| + |longF| + 1
  {
  }

  lemma MarkedFit(g: Graph, s: set<nat>)
    requires Branches(g, s)
    ensures |s| <= |g|
  {
    BoundedCardinality(s, |g|);
  }

  /** A block with its statements and its exit in place is placed. */
  lemma PlacedBlock(g: Graph, code0: seq<Insn>, code: seq<Insn>, offset0: seq<nat>, offset: seq<nat>, ftail0: nat,
          ftail: nat, b: nat, n: nat)
    requires Valid(g) && b < |g| && |offset0| == |g| && |code| == |code0| && offset == offset0[b := ftail]
    requires ftail + n == ftail0 <= |code| && |Kept(g[b].stmts)| < n
    requires forall i :: 0 <= i < ftail || ftail0 <= i < |code| ==> code[i] == code0[i]
    requires forall i :: 0 <= i < |Kept(g[b].stmts)| ==> code[ftail + i] == Plain(Kept(g[b].stmts)[i])
    requires forall i :: ftail + |Kept(g[b].stmts)| <= i < ftail0 ==> WellEncoded(code, i)
    requires var pc := ftail + |Kept(g[b].stmts)|;
      match g[b]
      case Ret(_, rv) => code[pc] == Leave(rv)
      case Br(_, t, jt, jf) =>
        code[pc].Branch? && code[pc].test == t && LeadsTo(code, pc, true, offset[jt])
          && LeadsTo(code, pc, false, offset[jf])
    ensures Emitted(g, code0, code, offset0, offset, ftail0, ftail, b, n)
  {
    KeptPlain(g[b].stmts);
    forall i | ftail <= i < ftail0 ensures WellEncoded(code, i) {
      if i < ftail + |Kept(g[b].stmts)| {
        assert code[ftail + (i - ftail)] == Plain(Kept(g[b].stmts)[i - ftail]);
      }
    }
  }

  /** One more exit of block b, on a side that is too far, is marked as needing a long jump. */
  ghost predicate Grown(longT: set<nat>, longF: set<nat>, longT': set<nat>, longF': set<nat>, b: nat, farT: bool,
          farF: bool) {
    || (farT && b !in longT && longT' == longT + {b} && longF' == longF)
    || (farF && b !in longF && longF' == longF + {b} && longT' == longT)
  }
}
