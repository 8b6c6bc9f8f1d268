/**
 Arithmetic on packet data. Every subexpression leaves its value in a scratch register that it
 has taken from a table of 16; the register of a finished operand is given back before the
 result of the operation takes one.
 */
module Arithmetic {
  import opened Machine
  import opened FlowGraph
  import opened Fragments
  import opened CodeGen
  import opened Liveness
  import opened BlockNumbering
  import opened Containment

  // ----- expressions and their value -----

  /** At is a load from the link-layer header, at the offset its operand comes to. */
  datatype Expr =
    | Num(v: u32)
    | Length
    | Minus(e: Expr)
    | Binary(op: AluOp, l: Expr, r: Expr)
    | At(size: Size, e: Expr)

  /** The value of an expression on a packet; None when it divides by zero or reads outside the packet. */
  function ValueOf(e: Expr, offLl: u32, p: Packet): Option<u32> {
    match e
    case Num(v) => Some(v)
    case Length => Some(p.wirelen)
    case Minus(a) =>
      var x := ValueOf(a, offLl, p);
      if x.None? then None else Some(Neg32(x.value))
    case Binary(op, a, b) =>
      var x, y := ValueOf(a, offLl, p), ValueOf(b, offLl, p);
      if x.None? || y.None? then None else Alu(op, x.value, y.value)
    case At(size, a) =>
      var x := ValueOf(a, offLl, p);
      if x.None? then None else Load(p, Add32(x.value, offLl), size)
  }

  // ----- registers -----

  type Table = t: seq<bool> | |t| == MEMWORDS witness seq(MEMWORDS, i => false)

  function Free(t: seq<bool>): nat {
    if t == [] then 0 else (if t[0] then 0 else 1) + Free(t[1..])
  }

  lemma {:induction false} FreeUpdate(t: seq<bool>, c: nat, v: bool)
    requires c < |t|
    ensures Free(t[c := v]) == Free(t) - (if t[c] then 0 else 1) + (if v then 0 else 1)
  {
    if c > 0 {
      assert t[c := v][1..] == t[1..][c - 1 := v];
      FreeUpdate(t[1..], c - 1, v);
    } else {
      assert t[c := v][1..] == t[1..];
    }
  }

  lemma {:induction false} FreeNone(t: seq<bool>)
    ensures Free(t) == 0 <==> forall c :: 0 <= c < |t| ==> t[c]
    ensures Free(t) <= |t|
  {
    if t != [] {
      FreeNone(t[1..]);
      assert forall c :: 0 <= c < |t[1..]| ==> t[1..][c] == t[c + 1];
      assert forall c :: 1 <= c < |t| ==> t[c] == t[1..][c - 1];
    }
  }

  /** The registers an expression needs at once. */
  function Need(e: Expr): nat {
    match e
    case Num(_) => 1
    case Length => 1
    case Minus(a) => Need(a)
    case Binary(_, a, b) => if Need(a) > Need(b) then Need(a) else Need(b) + 1
    case At(_, a) => if Need(a) > 2 then Need(a) else 2
  }

  lemma NeedSome(e: Expr)
    ensures Need(e) >= 1
  {
  }

  // ----- what the code of a subexpression does -----

  predicate Keeps(used: Table, r: Regs, x: Regs) {
    forall c :: 0 <= c < MEMWORDS && used[c] ==> x[c] == r[c]
  }

  predicate ComputesOn(s: seq<Stmt>, c: Cell, used: Table, e: Expr, offLl: u32, r: Regs, p: Packet) {
    var m, v := RunStmts(s, r, p), ValueOf(e, offLl, p);
    if v.None? then m.None? else m.Some? && m.value[c] == v.value && Keeps(used, r, m.value)
  }

  predicate TidyFor(s: seq<Stmt>, c: Cell, out: set<nat>) {
    LiveBefore(s, out) <= out - {c}
  }

  /** Code that sets all it reads, and register c, and writes no register in use. */
  ghost predicate Tidy(s: seq<Stmt>, c: Cell, used: Table) {
    && (forall out :: TidyFor(s, c, out))
    && (forall a :: a in Writes(s) && a < MEMWORDS ==> !used[a])
  }

  /**
   Running s puts the value of e into register c, faults just when e has none, and leaves the used
   registers alone.
   */
  ghost predicate Computes(s: seq<Stmt>, c: Cell, used: Table, e: Expr, offLl: u32) {
    Tidy(s, c, used) && forall r, p :: ComputesOn(s, c, used, e, offLl, r, p)
  }

  lemma LeafTidy(s: Stmt, c: Cell, used: Table)
    requires !used[c] && Uses(s) == {} && Defs(s) == {A_ATOM}
    ensures Tidy([s, St(c)], c, used)
  {
    forall out ensures TidyFor([s, St(c)], c, out) {
      LiveBeforeTwo(s, St(c), out);
    }
    LiveBeforeTwo(s, St(c), {});
  }

  lemma TidyAt(s: seq<Stmt>, c: Cell, used: Table, out: set<nat>)
    requires Tidy(s, c, used)
    ensures LiveBefore(s, out) <= out - {c}
    ensures forall a :: a in Writes(s) && a < MEMWORDS ==> !used[a]
  {
    assert TidyFor(s, c, out);
  }

  lemma UnaryTidy(s: seq<Stmt>, c: Cell, used: Table, tail: seq<Stmt>, d: Cell)
    requires Tidy(s, c, used) && !used[d]
    requires tail == [LdMem(c), Neg, St(d)] || (|tail| == 3 && tail == [LdxMem(c), tail[1], St(d)] && tail[1].LdInd?)
    ensures Tidy(s + tail, d, used)
  {
    forall out ensures TidyFor(s + tail, d, out) {
      UnaryLive(c, tail, d, out);
      LiveBeforeConcat(s, tail, out);
      TidyAt(s, c, used, LiveBefore(tail, out));
    }
    UnaryLive(c, tail, d, {});
    LiveBeforeConcat(s, tail, {});
    TidyAt(s, c, used, {});
    forall a | a in Writes(s + tail) && a < MEMWORDS ensures !used[a] {
      assert a in Writes(s) || a == d;
    }
  }

  lemma UnaryLive(c: Cell, tail: seq<Stmt>, d: Cell, out: set<nat>)
    requires tail == [LdMem(c), Neg, St(d)] || (|tail| == 3 && tail == [LdxMem(c), tail[1], St(d)] && tail[1].LdInd?)
    ensures LiveBefore(tail, out) <= (out - {d}) + {c} && Writes(tail) <= {A_ATOM, X_ATOM, d}
  {
    assert tail[1..] == [tail[1], St(d)];
    LiveBeforeTwo(tail[1], St(d), out);
  }

  /** The code of two operands and the loads of their registers: it reads nothing but what is live after it. */
  lemma OperandsTidy(s0: seq<Stmt>, c0: Cell, used: Table, s1: seq<Stmt>, c1: Cell, out: set<nat>)
    requires Tidy(s0, c0, used) && !used[c0] && Tidy(s1, c1, used[c0 := true]) && !used[c1]
    ensures LiveBefore(s0 + (s1 + [LdxMem(c1), LdMem(c0)]), out) <= out - {A_ATOM, X_ATOM}
    ensures forall a :: a in Writes(s0 + (s1 + [LdxMem(c1), LdMem(c0)])) && a < MEMWORDS ==> !used[a]
  {
    var both := [LdxMem(c1), LdMem(c0)];
    LiveBeforeTwo(LdxMem(c1), LdMem(c0), out);
    assert Writes(both) == {A_ATOM, X_ATOM};
    hide LiveBefore, Writes, Tidy;
    LiveBeforeConcat(s0, s1 + both, out);
    LiveBeforeConcat(s1, both, out);
    var x := LiveBefore(both, out);
    assert x <= (out - {A_ATOM, X_ATOM}) + {c0, c1};
    TidyAt(s1, c1, used[c0 := true], x);
    TidyAt(s0, c0, used, LiveBefore(s1, x));
    assert forall a: nat :: a < MEMWORDS && used[a] ==> used[c0 := true][a];
  }

  lemma BinaryTidy(s0: seq<Stmt>, c0: Cell, used: Table, s1: seq<Stmt>, c1: Cell, op: AluOp, d: Cell)
    requires Tidy(s0, c0, used) && !used[c0] && Tidy(s1, c1, used[c0 := true]) && !used[c1] && !used[d]
    ensures Tidy(s0 + (s1 + [LdxMem(c1), LdMem(c0)]) + [AluX(op), St(d)], d, used)
  {
    var front, back := s0 + (s1 + [LdxMem(c1), LdMem(c0)]), [AluX(op), St(d)];
    forall out ensures TidyFor(front + back, d, out) {
      LiveBeforeConcat(front, back, out);
      LiveBeforeTwo(AluX(op), St(d), out);
      OperandsTidy(s0, c0, used, s1, c1, LiveBefore(back, out));
    }
    LiveBeforeConcat(front, back, {});
    LiveBeforeTwo(AluX(op), St(d), {});
    OperandsTidy(s0, c0, used, s1, c1, {});
  }

  /** A value is computed into A, then stored in a register that is not in use. */
  lemma LeafComputes(s: Stmt, c: Cell, used: Table, e: Expr, offLl: u32)
    requires !used[c]
    requires (e.Num? && s == LdImm(e.v)) || (e.Length? && s == LdLen)
    ensures Computes([s, St(c)], c, used, e, offLl)
  {
    LeafTidy(s, c, used);
    forall r, p ensures ComputesOn([s, St(c)], c, used, e, offLl, r, p) {
      RunTwo(s, St(c), r, p);
    }
  }

  /** After the operand's code, tail works on its register and stores the result in register d. */
  lemma UnaryComputes(s: seq<Stmt>, c: Cell, used: Table, a: Expr, offLl: u32, tail: seq<Stmt>, d: Cell, e: Expr)
    requires Computes(s, c, used, a, offLl) && !used[d]
    requires (e == Minus(a) && tail == [LdMem(c), Neg, St(d)])
          || (e.At? && e.e == a && tail == [LdxMem(c), LdInd(e.size, offLl), St(d)])
    ensures Computes(s + tail, d, used, e, offLl)
  {
    UnaryTidy(s, c, used, tail, d);
    forall r, p ensures ComputesOn(s + tail, d, used, e, offLl, r, p) {
      RunStmtsAppend(s, tail, r, p);
      assert ComputesOn(s, c, used, a, offLl, r, p);
      var m := RunStmts(s, r, p);
      if m.Some? {
        var m1 := Step(tail[0], m.value, p).value;
        assert tail[1..] == [tail[1], St(d)];
        RunTwo(tail[1], St(d), m1, p);
      }
    }
  }

  /** Both operands, then the loads of their registers: where that leaves X and A. */
  lemma OperandsRun(s0: seq<Stmt>, c0: Cell, used: Table, l: Expr, s1: seq<Stmt>, c1: Cell, r: Expr, offLl: u32,
          q: Regs, p: Packet)
    requires Computes(s0, c0, used, l, offLl) && !used[c0]
    requires Computes(s1, c1, used[c0 := true], r, offLl) && !used[c1]
    ensures var m := RunStmts(s0 + (s1 + [LdxMem(c1), LdMem(c0)]), q, p);
      var x, y := ValueOf(l, offLl, p), ValueOf(r, offLl, p);
      if x.None? || y.None? then m.None?
      else m.Some? && m.value[A_ATOM] == x.value && m.value[X_ATOM] == y.value && Keeps(used, q, m.value)
  {
    var both := [LdxMem(c1), LdMem(c0)];
    RunStmtsAppend(s0, s1 + both, q, p);
    assert ComputesOn(s0, c0, used, l, offLl, q, p);
    var m0 := RunStmts(s0, q, p);
    if m0.Some? {
      RunStmtsAppend(s1, both, m0.value, p);
      assert ComputesOn(s1, c1, used[c0 := true], r, offLl, m0.value, p);
      var m1 := RunStmts(s1, m0.value, p);
      if m1.Some? {
        RunTwo(LdxMem(c1), LdMem(c0), m1.value, p);
        assert used[c0 := true][c0] && m1.value[c0] == m0.value[c0];
        assert forall c :: 0 <= c < MEMWORDS && used[c] ==> used[c0 := true][c];
      }
    }
  }

  lemma BinaryComputes(s0: seq<Stmt>, c0: Cell, used: Table, l: Expr, s1: seq<Stmt>, c1: Cell, r: Expr, offLl: u32,
          op: AluOp, d: Cell)
    requires Computes(s0, c0, used, l, offLl) && !used[c0]
    requires Computes(s1, c1, used[c0 := true], r, offLl) && !used[c1] && !used[d]
    ensures Computes(s0 + (s1 + [LdxMem(c1), LdMem(c0)]) + [AluX(op), St(d)], d, used, Binary(op, l, r), offLl)
  {
    var front, back := s0 + (s1 + [LdxMem(c1), LdMem(c0)]), [AluX(op), St(d)];
    BinaryTidy(s0, c0, used, s1, c1, op, d);
    hide Tidy, LiveBefore, Writes;
    forall q, p ensures ComputesOn(front + back, d, used, Binary(op, l, r), offLl, q, p) {
      OperandsRun(s0, c0, used, l, s1, c1, r, offLl, q, p);
      RunStmtsAppend(front, back, q, p);
      var m := RunStmts(front, q, p);
      if m.Some? {
        RunTwo(AluX(op), St(d), m.value, p);
      }
    }
  }

  // ----- relations -----

  /**
   The condition c holds of a packet just when the two values are in the relation, or are not when
   reversed is set.
   */
  ghost predicate Relates(c: Cond, op: JmpOp, l: Expr, r: Expr, reversed: bool, offLl: u32) {
    forall q, p :: RelatesOn(c, op, l, r, reversed, offLl, q, p)
  }

  predicate RelatesOn(c: Cond, op: JmpOp, l: Expr, r: Expr, reversed: bool, offLl: u32, q: Regs, p: Packet) {
    var x, y, t := ValueOf(l, offLl, p), ValueOf(r, offLl, p), Eval(c, q, p);
    if x.None? || y.None? then t.Faulted?
    else t.Decided? && t.holds == (Machine.Compare(op, x.value, y.value) != reversed)
  }

  lemma DifferenceZero(a: u32, b: u32)
    ensures Sub32(a, b) == 0 <==> a == b
  {
    if a >= b {
      assert (a - b) % WORD == a - b;
    } else {
      assert (a - b) % WORD == a - b + WORD;
    }
  }

  /** The statements and the test of a relation's block. */
  function RelationStmts(op: JmpOp, s0: seq<Stmt>, c0: Cell, s1: seq<Stmt>, c1: Cell): seq<Stmt> {
    s0 + (s1 + [LdxMem(c1), LdMem(c0)]) + (if op.JEQ? then [AluX(SUB)] else [])
  }

  function RelationTest(op: JmpOp): Test {
    if op.JEQ? then JmpK(JEQ, 0) else JmpX(op)
  }

  lemma RelationIs(op: JmpOp, s0: seq<Stmt>, c0: Cell, s1: seq<Stmt>, c1: Cell)
    ensures s0 + (s1 + ([LdxMem(c1)] + ([LdMem(c0)] + (if op.JEQ? then [AluX(SUB)] else [])))) ==
      RelationStmts(op, s0, c0, s1, c1)
  {
    assert [LdxMem(c1)] + ([LdMem(c0)] + []) == [LdxMem(c1), LdMem(c0)];
  }

  lemma RelationHolds(op: JmpOp, s0: seq<Stmt>, c0: Cell, used: Table, l: Expr, s1: seq<Stmt>, c1: Cell, r: Expr,
          offLl: u32)
    requires Computes(s0, c0, used, l, offLl) && !used[c0]
    requires Computes(s1, c1, used[c0 := true], r, offLl) && !used[c1]
    ensures Relates(Prim(RelationStmts(op, s0, c0, s1, c1), RelationTest(op)), op, l, r, false, offLl)
  {
    var c := Prim(RelationStmts(op, s0, c0, s1, c1), RelationTest(op));
    var front := s0 + (s1 + [LdxMem(c1), LdMem(c0)]);
    forall q, p ensures RelatesOn(c, op, l, r, false, offLl, q, p) {
      OperandsRun(s0, c0, used, l, s1, c1, r, offLl, q, p);
      if op.JEQ? {
        RunStmtsAppend(front, [AluX(SUB)], q, p);
        var m := RunStmts(front, q, p);
        if m.Some? {
          RunOne(AluX(SUB), m.value, p);
          DifferenceZero(m.value[A_ATOM], m.value[X_ATOM]);
        }
      } else {
        assert c.stmts == front;
      }
    }
  }

  /** The block of a relation leaves every register in use alone and reads nothing it has not set. */
  lemma RelationContained(op: JmpOp, s0: seq<Stmt>, c0: Cell, used: Table, s1: seq<Stmt>, c1: Cell, shared: set<nat>)
    requires Tidy(s0, c0, used) && !used[c0] && Tidy(s1, c1, used[c0 := true]) && !used[c1]
    requires HeldIn(shared, used)
    ensures AllContained(Prim(RelationStmts(op, s0, c0, s1, c1), RelationTest(op)), shared)
  {
    var front := s0 + (s1 + [LdxMem(c1), LdMem(c0)]);
    var tail, uses := if op.JEQ? then [AluX(SUB)] else [], TestUses(RelationTest(op));
    assert RelationStmts(op, s0, c0, s1, c1) == front + tail;
    LiveBeforeConcat(front, tail, uses);
    LiveBeforeOne(AluX(SUB), uses);
    OperandsTidy(s0, c0, used, s1, c1, LiveBefore(tail, uses));
  }

  lemma AlwaysContained(op: JmpOp, s0: seq<Stmt>, c0: Cell, used: Table, l: Expr, s1: seq<Stmt>, c1: Cell, r: Expr,
          offLl: u32)
    requires Computes(s0, c0, used, l, offLl) && !used[c0]
    requires Computes(s1, c1, used[c0 := true], r, offLl) && !used[c1]
    ensures var c := Prim(RelationStmts(op, s0, c0, s1, c1), RelationTest(op));
      forall shared :: HeldIn(shared, used) ==> AllContained(c, shared) && AllContained(Not(c), shared)
  {
    forall shared | HeldIn(shared, used)
      ensures AllContained(Prim(RelationStmts(op, s0, c0, s1, c1), RelationTest(op)), shared)
    {
      RelationContained(op, s0, c0, used, s1, c1, shared);
    }
  }

  /** The shared atoms are registers in use. */
  predicate HeldIn(shared: set<nat>, used: Table) {
    forall a :: a in shared ==> a < MEMWORDS && used[a]
  }

  lemma RelationReversed(c: Cond, op: JmpOp, l: Expr, r: Expr, offLl: u32)
    requires Relates(c, op, l, r, false, offLl)
    ensures Relates(Not(c), op, l, r, true, offLl)
  {
    forall q, p ensures RelatesOn(Not(c), op, l, r, true, offLl, q, p) {
      assert RelatesOn(c, op, l, r, false, offLl, q, p);
    }
  }

  // ----- the generator -----

  /** A subexpression's code and the register its value is left in. */
  class Arth {
    var s: seq<Stmt>
    var regno: Cell

    constructor (s: seq<Stmt>, regno: Cell)
      ensures this.s == s && this.regno == regno
    {
      this.s, this.regno := s, regno;
    }
  }

  /** The register k places further round the table. */
  function Around(start: nat, k: nat): Cell {
    (start + k) % MEMWORDS
  }

  lemma AroundNext(start: nat, k: nat)
    requires start < MEMWORDS && k < MEMWORDS
    ensures Around(start, 0) == start && (Around(start, k) + 1) % MEMWORDS == Around(start, k + 1)
    ensures Around(start, MEMWORDS) == start
  {
  }

  /** Going all the way round comes past every register. */
  lemma AroundAll(start: nat, used: Table)
    requires start < MEMWORDS && forall j :: 0 <= j < MEMWORDS ==> used[Around(start, j)]
    ensures forall c :: 0 <= c < MEMWORDS ==> used[c]
  {
    forall c | 0 <= c < MEMWORDS ensures used[c] {
      assert Around(start, if c >= start then c - start else c + MEMWORDS - start) == c;
    }
  }

  class Compiler {
    const offLl: u32
    const regused: array<bool>
    var curreg: nat

    ghost predicate Valid()
      reads this, regused
    {
      regused.Length == MEMWORDS && curreg < MEMWORDS
    }

    ghost function Used(): Table
      reads this, regused
      requires Valid()
    {
      regused[..]
    }

    /** init_regs */
    constructor (offLl: u32)
      ensures Valid() && fresh(regused) && this.offLl == offLl && curreg == 0
      ensures forall c :: 0 <= c < MEMWORDS ==> !Used()[c]
    {
      this.offLl := offLl;
      regused := new bool[MEMWORDS](i => false);
      curreg := 0;
    }

    /** The next free register after the one handed out last; none when all are in use. */
    method AllocReg() returns (r: Option<Cell>)
      requires Valid()
      modifies this`curreg, regused
      ensures Valid()
      ensures r.None? <==> forall c :: 0 <= c < MEMWORDS ==> old(Used())[c]
      ensures r.None? ==> Used() == old(Used())
      ensures r.Some? ==> !old(Used())[r.value] && Used() == old(Used())[r.value := true] && curreg == r.value
      ensures r.Some? ==> exists k :: 0 <= k < MEMWORDS && r.value == Around(old(curreg), k) &&
                            forall j :: 0 <= j < k ==> old(Used())[Around(old(curreg), j)]
    {
      hide Around;
      var n := MEMWORDS;
      ghost var start := curreg;
      AroundNext(start, 0);
      while n > 0
        invariant 0 <= n <= MEMWORDS && Valid() && Used() == old(Used())
        invariant curreg == Around(start, MEMWORDS - n)
        invariant forall j :: 0 <= j < MEMWORDS - n ==> Used()[Around(start, j)]
      {
        n := n - 1;
        if regused[curreg] {
          AroundNext(start, MEMWORDS - n - 1);
          curreg := (curreg + 1) % MEMWORDS;
        } else {
          regused[curreg] := true;
          return Some(curreg);
        }
      }
      AroundAll(start, Used());
      return None;
    }

    method FreeReg(c: Cell)
      requires Valid()
      modifies regused
      ensures Valid() && Used() == old(Used())[c := false]
    {
      regused[c] := false;
    }

    /**
     Code for e, made while the registers in used0 were in use: it exists just when enough
     registers were free; then it computes e, and its register is the only one newly in use.
     */
    ghost predicate Compiled(a: Option<Arth>, e: Expr, used0: Table, used: Table)
      reads if a.Some? then {a.value} else {}
    {
      && (a.None? <==> Need(e) > Free(used0))
      && (a.Some? ==>
            && !used0[a.value.regno] && used == used0[a.value.regno := true]
            && Computes(a.value.s, a.value.regno, used0, e, offLl))
    }

    /** gen_loadi and gen_loadlen: one statement that sets A, and the store. */
    method GenLeaf(e: Expr) returns (a: Option<Arth>)
      requires Valid() && (e.Num? || e.Length?)
      modifies this`curreg, regused
      ensures Valid() && Compiled(a, e, old(Used()), Used())
      ensures a.Some? ==> fresh(a.value)
    {
      FreeNone(regused[..]);
      var reg := AllocReg();
      if reg.None? {
        return None;
      }
      var first := if e.Num? then LdImm(e.v) else LdLen;
      var arth := new Arth([first, St(reg.value)], reg.value);
      LeafComputes(first, reg.value, old(Used()), e, offLl);
      a := Some(arth);
    }

    method GenNeg(a: Arth, ghost x: Expr, ghost used: Table)
      requires !used[a.regno] && Computes(a.s, a.regno, used, x, offLl)
      modifies a`s
      ensures Computes(a.s, a.regno, used, Minus(x), offLl)
    {
      UnaryComputes(a.s, a.regno, used, x, offLl, [LdMem(a.regno), Neg, St(a.regno)], a.regno, Minus(x));
      assert [LdMem(a.regno)] + [Neg] + [St(a.regno)] == [LdMem(a.regno), Neg, St(a.regno)];
      assert a.s + [LdMem(a.regno)] + [Neg] + [St(a.regno)] == a.s + [LdMem(a.regno), Neg, St(a.regno)];
      a.s := a.s + [LdMem(a.regno)];
      a.s := a.s + [Neg];
      a.s := a.s + [St(a.regno)];
    }

    /** The operands' registers are free again before the result takes one, so there is one. */
    method GenArth(op: AluOp, a0: Arth, a1: Arth, ghost l: Expr, ghost r: Expr, ghost used: Table)
      requires Valid() && a0 != a1 && !used[a0.regno] && !used[a0.regno := true][a1.regno]
      requires Used() == used[a0.regno := true][a1.regno := true]
      requires Computes(a0.s, a0.regno, used, l, offLl) && Computes(a1.s, a1.regno, used[a0.regno := true], r, offLl)
      modifies this`curreg, regused, a0, a1
      ensures Valid() && !used[a0.regno] && Used() == used[a0.regno := true]
      ensures Computes(a0.s, a0.regno, used, Binary(op, l, r), offLl)
    {
      ghost var s0, c0, s1, c1 := a0.s, a0.regno, a1.s, a1.regno;
      var front := [LdxMem(a1.regno)] + [LdMem(a0.regno)] + [AluX(op)];
      a1.s := a1.s + front;
      a0.s := a0.s + a1.s;
      FreeReg(a0.regno);
      FreeReg(a1.regno);
      assert Used() == used;
      var reg := AllocReg();
      assert reg.Some? by {
        assert !used[c0];
      }
      a0.regno := reg.value;
      a0.s := a0.s + [St(reg.value)];
      BinaryComputes(s0, c0, used, l, s1, c1, r, offLl, op, reg.value);
      assert a0.s == s0 + (s1 + [LdxMem(c1), LdMem(c0)]) + [AluX(op), St(reg.value)];
    }

    /** A load of size bytes from the link-layer header; the offset keeps its register until the load has one. */
    method GenLoad(size: Size, inst: Arth, ghost x: Expr, ghost used: Table) returns (ok: bool)
      requires Valid() && !used[inst.regno] && Used() == used[inst.regno := true]
      requires Computes(inst.s, inst.regno, used, x, offLl)
      modifies this`curreg, regused, inst
      ensures Valid() && (ok <==> Free(used) >= 2)
      ensures ok ==>
        && !used[inst.regno] && Used() == used[inst.regno := true]
        && Computes(inst.s, inst.regno, used, At(size, x), offLl)
    {
      FreeUpdate(used, inst.regno, true);
      FreeNone(Used());
      var reg := AllocReg();
      if reg.None? {
        return false;
      }
      FreeReg(inst.regno);
      assert Used() == used[reg.value := true];
      UnaryComputes(inst.s, inst.regno, used, x, offLl, [LdxMem(inst.regno), LdInd(size, offLl), St(reg.value)],
        reg.value, At(size, x));
      assert inst.s + [LdxMem(inst.regno), LdInd(size, offLl), St(reg.value)]
          == inst.s + ([LdxMem(inst.regno)] + [LdInd(size, offLl)]) + [St(reg.value)];
      inst.s := inst.s + ([LdxMem(inst.regno)] + [LdInd(size, offLl)]);
      inst.regno := reg.value;
      inst.s := inst.s + [St(reg.value)];
      return true;
    }

    /**
     The semantic actions of the grammar over an expression: operands left to right, then the
     operation. It fails just when the expression needs more registers at once than are free.
     */
    method Compile(e: Expr) returns (a: Option<Arth>)
      requires Valid()
      modifies this`curreg, regused
      ensures Valid() && Compiled(a, e, old(Used()), Used())
      ensures a.Some? ==> fresh(a.value)
      decreases e
    {
      hide Computes;
      ghost var used := Used();
      match e {
        case Num(_) =>
          a := GenLeaf(e);
        case Length =>
          a := GenLeaf(e);
        case Minus(x) =>
          a := Compile(x);
          if a.Some? {
            GenNeg(a.value, x, used);
          }
        case Binary(op, l, r) =>
          var a0 := Compile(l);
          if a0.None? {
            return None;
          }
          FreeUpdate(used, a0.value.regno, true);
          var a1 := Compile(r);
          if a1.None? {
            return None;
          }
          GenArth(op, a0.value, a1.value, l, r, used);
          a := a0;
        case At(size, x) =>
          a := Compile(x);
          if a.Some? {
            var ok := GenLoad(size, a.value, x, used);
            if !ok {
              a := None;
            }
          }
      }
    }

    /** The block of a relation; both registers are free again. */
    method GenRelation(gen: Generator, op: JmpOp, a0: Arth, a1: Arth, reversed: bool, ghost l: Expr, ghost r: Expr,
            ghost used: Table)
      returns (b: nat, ghost c: Cond)
      requires Valid() && gen.Valid() && a0 != a1 && !used[a0.regno] && !used[a0.regno := true][a1.regno]
      requires Used() == used[a0.regno := true][a1.regno := true]
      requires Computes(a0.s, a0.regno, used, l, offLl) && Computes(a1.s, a1.regno, used[a0.regno := true], r, offLl)
      modifies this`curreg, regused, gen, a0, a1
      ensures Valid() && gen.Valid() && Used() == used
      ensures b !in old(gen.Meaning()) && gen.Meaning() == old(gen.Meaning())[b := c]
      ensures Relates(c, op, l, r, reversed, offLl)
      ensures forall shared :: HeldIn(shared, used) ==> AllContained(c, shared)
    {
      hide *;
      ghost var s0, c0, s1, c1 := a0.s, a0.regno, a1.s, a1.regno;
      AlwaysContained(op, s0, c0, used, l, s1, c1, r, offLl);
      RelationHolds(op, s0, c0, used, l, s1, c1, r, offLl);
      RelationIs(op, s0, c0, s1, c1);
      a1.s := a1.s + ([LdxMem(a1.regno)] + ([LdMem(a0.regno)] + (if op.JEQ? then [AluX(SUB)] else [])));
      a0.s := a0.s + a1.s;
      c := Prim(a0.s, RelationTest(op));
      b := gen.NewBlock(a0.s, RelationTest(op));
      if reversed {
        RelationReversed(c, op, l, r, offLl);
        gen.GenNot(b);
        c := Not(c);
      }
      FreeReg(a0.regno);
      FreeReg(a1.regno);
    }

    /** A whole relation: its block, or none when an operand needs too many registers. */
    method CompileRelation(gen: Generator, op: JmpOp, l: Expr, r: Expr, reversed: bool)
      returns (b: Option<nat>, ghost c: Cond)
      requires Valid() && gen.Valid()
      modifies this`curreg, regused, gen
      ensures Valid() && gen.Valid()
      ensures b.None? <==> Need(l) > Free(old(Used())) || Need(r) + 1 > Free(old(Used()))
      ensures b.Some? ==>
        && Used() == old(Used()) && Relates(c, op, l, r, reversed, offLl)
        && b.value !in old(gen.Meaning()) && gen.Meaning() == old(gen.Meaning())[b.value := c]
        && forall shared :: HeldIn(shared, old(Used())) ==> AllContained(c, shared)
      ensures b.None? ==> gen.Meaning() == old(gen.Meaning())
    {
      hide Computes, Relates;
      ghost var used := Used();
      c := Prim([], RelationTest(op));
      b := None;
      NeedSome(r);
      var a0 := Compile(l);
      if a0.Some? {
        FreeUpdate(used, a0.value.regno, true);
        var a1 := Compile(r);
        if a1.Some? {
          var block;
          block, c := GenRelation(gen, op, a0.value, a1.value, reversed, l, r, used);
          b := Some(block);
        }
      }
    }
  }
}
