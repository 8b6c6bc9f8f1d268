/**
 What opt_stmt does for a program, said of constants, numbers and the machine's own arithmetic:
 what is known is loaded at once, what is there already is not loaded again, and constants are
 carried through a whole list.
 */
module StatementLaws {
  import opened Machine
  import opened Liveness
  import opened ValueNumbering

  /** The constant atom a is known to hold. */
  function Known(t: Table, val: Vals, a: nat): Option<u32>
    requires a < N_ATOMS
  {
    ConstOf(t, val[a])
  }

  /** Every atom s reads is known, and r holds what is known. */
  predicate OperandsAre(t: Table, val: Vals, s: Stmt, r: Regs) {
    forall a :: a in Uses(s) ==> Known(t, val, a) == Some(r[a])
  }

  /** A statement that computes from the registers alone. */
  predicate Computes(s: Stmt) {
    s.LdMem? || s.LdxMem? || s.Neg? || s.AluK? || s.AluX?
  }

  /** An immediate load of w into the register s writes. */
  function Immediate(s: Stmt, w: u32): Stmt {
    if Def(s) == Some(X_ATOM) then LdxImm(w) else LdImm(w)
  }

  // ----- numbers of constants -----

  lemma InternConst(t: Table, k: u32)
    ensures var (t1, v) := Intern(t, KImm(k)); ConstOf(t1, v) == Some(k)
  {
  }

  lemma ConstKept(t: Table, t': Table, v: nat)
    requires t <= t' && v <= |t|
    ensures ConstOf(t', v) == ConstOf(t, v)
  {
  }

  /** A constant has one number. */
  lemma ConstNumber(t: Table, v: nat, k: u32)
    requires WellFormed(t) && ConstOf(t, v) == Some(k)
    ensures Intern(t, KImm(k)) == (t, v)
  {
    assert t[v - 1] == KImm(k);
    var (t1, v1) := Intern(t, KImm(k));
    assert t1 == t && t[v1 - 1] == t[v - 1];
  }

  // ----- what is computed from constants -----

  /**
   A load of a scratch word, a negation or an operation all of whose operands are known becomes an
   immediate load of the value the machine computes, or goes when its register is known to hold
   that value already; either way the register is known to hold it. The compiler gives up just
   when the machine would fault.
   */
  lemma ConstantsFold(t: Table, val: Vals, s: Stmt, r: Regs, p: Packet)
    requires WellFormed(t) && Within(t, val) && Computes(s) && OperandsAre(t, val, s, r)
    ensures var rw, v, d := OptStmt(t, val, s, true), Value(s, r, p), Def(s).value;
      if v.None? then !rw.Rewritten?
      else
        && rw.Rewritten? && Known(rw.t, rw.val, d) == v
        && (rw.s == Immediate(s, v.value) || (rw.s == Nop && rw.val == val))
  {
    match s
    case LdMem(c) => assert c in Uses(s);
    case LdxMem(c) => assert c in Uses(s);
    case Neg =>
      assert A_ATOM in Uses(s);
      InternConst(t, Neg32(r[A_ATOM]));
    case AluK(op, k) =>
      assert A_ATOM in Uses(s);
      FoldedK(t, val, op, k, r);
    case AluX(op) =>
      assert A_ATOM in Uses(s) && X_ATOM in Uses(s);
      var w := Alu(op, r[A_ATOM], r[X_ATOM]);
      hide Alu;
      if w.Some? {
        InternConst(t, w.value);
      }
  }

  lemma FoldedK(t: Table, val: Vals, op: AluOp, k: u32, r: Regs)
    requires WellFormed(t) && Within(t, val) && ConstOf(t, val[A_ATOM]) == Some(r[A_ATOM])
    ensures var rw, v := OptStmt(t, val, AluK(op, k), true), Alu(op, r[A_ATOM], k);
      if v.None? then !rw.Rewritten?
      else
        && rw.Rewritten? && ConstOf(rw.t, rw.val[A_ATOM]) == v
        && (rw.s == LdImm(v.value) || (rw.s == Nop && rw.val == val))
  {
    AluZeroRight(op, r[A_ATOM]);
    var v := Alu(op, r[A_ATOM], k);
    InternConst(t, k);
    if v.Some? {
      InternConst(t, v.value);
      InternConst(Intern(t, KImm(k)).0, v.value);
    }
  }

  /** The compiler gives up nowhere else. */
  lemma GivesUpExactly(t: Table, val: Vals, s: Stmt, alter: bool)
    requires WellFormed(t) && Within(t, val)
    ensures !OptStmt(t, val, s, alter).Rewritten? <==>
            && alter && (s.AluK? || s.AluX?)
            && exists r: Regs :: OperandsAre(t, val, s, r) && Value(s, r, Packet([], 0)).None?
  {
    if (s.AluK? || s.AluX?) && forall a :: a in Uses(s) ==> Known(t, val, a).Some? {
      var r: Regs := seq(N_ATOMS, a requires 0 <= a < N_ATOMS => if a in Uses(s) then Known(t, val, a).value else 0);
      assert A_ATOM in Uses(s);
      assert s.AluX? ==> X_ATOM in Uses(s);
      ConstantsFold(t, val, s, r, Packet([], 0));
      assert OperandsAre(t, val, s, r);
      forall r': Regs | OperandsAre(t, val, s, r') ensures Value(s, r', Packet([], 0)) == Value(s, r, Packet([], 0)) {
        assert r'[A_ATOM] == r[A_ATOM];
        assert s.AluX? ==> r'[X_ATOM] == r[X_ATOM];
      }
    } else if s.AluK? {
      assert Uses(s) == {A_ATOM};
      AluZeroRight(s.op, 0);
    } else if s.AluX? {
      assert Uses(s) == {A_ATOM, X_ATOM};
    }
  }

  // ----- what is computed from some constants -----

  /** An indexed load with a known index is dealt with as the absolute load at the sum. */
  lemma IndexedBecomesAbsolute(t: Table, val: Vals, sz: Size, k: u32, c: u32)
    requires Known(t, val, X_ATOM) == Some(c)
    ensures var off: u32 := if k + c < 0x1_0000_0000 then k + c else k + c - 0x1_0000_0000;
            var rw := OptStmt(t, val, LdInd(sz, k), true);
      && rw.Rewritten? && rw == OptStmt(t, val, LdAbs(sz, off), true)
      && 0 < rw.val[A_ATOM] <= |rw.t| && rw.t[rw.val[A_ATOM] - 1] == KAbs(sz, off)
      && rw.s == if rw.val[A_ATOM] == val[A_ATOM] then Nop else LdAbs(sz, off)
  {
    var off: u32 := if k + c < 0x1_0000_0000 then k + c else k + c - 0x1_0000_0000;
    assert Add32(k, c) == off;
  }

  /** An operation on X with X known and A not is the operation with that constant. */
  lemma IndexBecomesConstant(t: Table, val: Vals, op: AluOp, c: u32)
    requires WellFormed(t) && Within(t, val) && Known(t, val, X_ATOM) == Some(c) && Known(t, val, A_ATOM).None?
    ensures var rw := OptStmt(t, val, AluX(op), true);
      && rw.Rewritten? && rw.s == AluK(op, c)
      && (!(c == 0 && op in {ADD, LSH, RSH, OR, MUL, AND}) ==> rw == OptStmt(t, val, AluK(op, c), true))
      && Intern(t, KImm(c)) == (t, val[X_ATOM])
      && 0 < rw.val[A_ATOM] <= |rw.t| && rw.t[rw.val[A_ATOM] - 1] == KAluK(op, val[A_ATOM], val[X_ATOM])
  {
    ConstNumber(t, val[X_ATOM], c);
  }

  /** Adding, or-ing or shifting by 0 goes; multiplying by 0 or masking with 0 loads 0. */
  lemma ZeroOperand(t: Table, val: Vals, op: AluOp)
    ensures var rw := OptStmt(t, val, AluK(op, 0), true);
      && (op in {ADD, OR, LSH, RSH} ==> rw == Rewritten(t, val, Nop))
      && (op in {MUL, AND} ==> rw.Rewritten? && rw.s == LdImm(0) && Known(rw.t, rw.val, A_ATOM) == Some(0))
  {
    InternConst(t, 0);
  }

  /** With A known to be 0 and X not known, adding or or-ing X copies it, and all but a subtraction leaves 0. */
  lemma ZeroAccumulator(t: Table, val: Vals, op: AluOp)
    requires WellFormed(t) && Within(t, val) && Known(t, val, A_ATOM) == Some(0) && Known(t, val, X_ATOM).None?
    ensures var rw := OptStmt(t, val, AluX(op), true);
      && (op in {ADD, OR} ==> rw.Rewritten? && rw.s == Txa && rw.val[A_ATOM] == val[X_ATOM])
      && (op in {MUL, DIV, AND, LSH, RSH} ==> rw == Rewritten(t, val, Nop))
  {
    ConstNumber(t, val[A_ATOM], 0);
  }

  // ----- what is left alone -----

  /** A statement none of whose operands is known, and which has no constant 0 to simplify by. */
  predicate NothingKnown(t: Table, val: Vals, s: Stmt) {
    && (forall a :: a in Uses(s) ==> Known(t, val, a).None?)
    && !(s.AluK? && s.k == 0 && s.op in {ADD, OR, LSH, RSH, MUL, AND})
  }

  /** A load or copy goes just when its target has the number already; nothing else changes. */
  lemma LeftAlone(t: Table, val: Vals, s: Stmt, alter: bool)
    requires WellFormed(t) && Within(t, val)
    requires !alter || NothingKnown(t, val, s) || s.Tax? || s.Txa? || s.St? || s.Stx?
    ensures var rw := OptStmt(t, val, s, alter);
      && rw.Rewritten?
      && (s.Nop? ==> rw == Rewritten(t, val, Nop))
      && (!s.Nop? ==>
            rw.s == if alter && !(s.Neg? || s.AluK? || s.AluX?) && rw.val[Def(s).value] == val[Def(s).value] then Nop
                    else s)
  {
    match s
    case LdMem(c) => assert c in Uses(s);
    case LdxMem(c) => assert c in Uses(s);
    case LdInd(_, _) => assert X_ATOM in Uses(s);
    case Neg => assert A_ATOM in Uses(s);
    case AluK(_, _) => assert A_ATOM in Uses(s);
    case AluX(_) => assert A_ATOM in Uses(s) && X_ATOM in Uses(s);
    case _ =>
  }

  /** A load or copy, rewritten or not, goes just when its target has the number of its result already. */
  lemma RedundantGoes(t: Table, val: Vals, s: Stmt)
    requires !s.Nop? && !s.Neg? && !s.AluK? && !s.AluX?
    ensures var rw := OptStmt(t, val, s, true);
      rw.Rewritten? && (rw.s == Nop <==> rw.val[Def(s).value] == val[Def(s).value])
  {
    hide Intern, ConstOf;
  }

  /** Only the atom the statement writes gets another number. */
  lemma OthersKept(t: Table, val: Vals, s: Stmt, alter: bool, a: nat)
    requires a < N_ATOMS && Def(s) != Some(a) && OptStmt(t, val, s, alter).Rewritten?
    ensures OptStmt(t, val, s, alter).val[a] == val[a]
  {
    hide Alu, Intern, ConstOf;
  }

  /** Copies pass numbers on, and a constant load makes its register known. */
  lemma CopiesPassOn(t: Table, val: Vals, s: Stmt, alter: bool)
    requires Copied(s).Some? || s.LdImm? || s.LdxImm?
    ensures var rw := OptStmt(t, val, s, alter);
      && rw.Rewritten?
      && (Copied(s).Some? ==> rw.t == t && rw.val[Def(s).value] == val[Copied(s).value])
      && ((s.LdImm? || s.LdxImm?) ==> Known(rw.t, rw.val, Def(s).value) == Some(s.k))
  {
    if s.LdImm? || s.LdxImm? {
      InternConst(t, s.k);
    }
  }

  // ----- the same computation has the same number -----

  /** Done again later on operands with the same numbers, a statement has a result with the same number. */
  lemma SameAgain(t: Table, val: Vals, t': Table, val': Vals, s: Stmt, alter: bool)
    requires WellFormed(t) && Within(t, val) && WellFormed(t') && Within(t', val')
    requires OptStmt(t, val, s, alter).Rewritten? && OptStmt(t, val, s, alter).t <= t'
    requires forall a :: a in Uses(s) ==> val'[a] == val[a]
    ensures var rw, rw' := OptStmt(t, val, s, alter), OptStmt(t', val', s, alter);
      rw'.Rewritten? && (Def(s).Some? ==> rw'.val[Def(s).value] == rw.val[Def(s).value])
  {
    OptStmtTable(t, val, s, alter);
    assert t <= t';
    if s.AluK? {
      assert A_ATOM in Uses(s);
      AluKAgain(t, val, t', val', s.op, s.k, alter);
    } else if s.AluX? {
      assert A_ATOM in Uses(s) && X_ATOM in Uses(s);
      AluXAgain(t, val, t', val', s.op, alter);
    } else if Copied(s).Some? {
      assert Copied(s).value in Uses(s);
    } else if !s.Nop? {
      OthersAgain(t, val, t', val', s, alter);
    }
  }

  /** What a load or negation numbers: an operation on what it reads. */
  function KeyOf(t: Table, val: Vals, s: Stmt, alter: bool): (key: Key)
    requires s.LdAbs? || s.LdInd? || s.LdLen? || s.LdImm? || s.LdxImm? || s.LdxMsh? || s.Neg?
  {
    var a, x := Known(t, val, A_ATOM), Known(t, val, X_ATOM);
    match s
    case LdAbs(sz, k) => KAbs(sz, k)
    case LdInd(sz, k) => if alter && x.Some? then KAbs(sz, Add32(k, x.value)) else KInd(sz, k, val[X_ATOM])
    case LdLen => KLen
    case LdImm(k) => KImm(k)
    case LdxImm(k) => KImm(k)
    case LdxMsh(k) => KMsh(k)
    case Neg => if alter && a.Some? then KImm(Neg32(a.value)) else KNeg(val[A_ATOM])
  }

  lemma KeyIsNumbered(t: Table, val: Vals, s: Stmt, alter: bool)
    requires s.LdAbs? || s.LdInd? || s.LdLen? || s.LdImm? || s.LdxImm? || s.LdxMsh? || s.Neg?
    ensures var rw, i := OptStmt(t, val, s, alter), Intern(t, KeyOf(t, val, s, alter));
      rw.Rewritten? && rw.t == i.0 && rw.val[Def(s).value] == i.1
  {
    hide Intern, ConstOf;
  }

  lemma OthersAgain(t: Table, val: Vals, t': Table, val': Vals, s: Stmt, alter: bool)
    requires WellFormed(t) && Within(t, val) && WellFormed(t') && Within(t', val')
    requires s.LdAbs? || s.LdInd? || s.LdLen? || s.LdImm? || s.LdxImm? || s.LdxMsh? || s.Neg?
    requires OptStmt(t, val, s, alter).Rewritten? && OptStmt(t, val, s, alter).t <= t' && t <= t'
    requires forall a :: a in Uses(s) ==> val'[a] == val[a]
    ensures var rw, rw' := OptStmt(t, val, s, alter), OptStmt(t', val', s, alter);
      rw'.Rewritten? && rw'.val[Def(s).value] == rw.val[Def(s).value]
  {
    KeyIsNumbered(t, val, s, alter);
    KeyIsNumbered(t', val', s, alter);
    assert s.LdInd? ==> X_ATOM in Uses(s);
    assert s.Neg? ==> A_ATOM in Uses(s);
    ConstKept(t, t', val[A_ATOM]);
    ConstKept(t, t', val[X_ATOM]);
    assert KeyOf(t', val', s, alter) == KeyOf(t, val, s, alter);
    KeyAgain(t, t', KeyOf(t, val, s, alter));
  }

  lemma KeyAgain(t: Table, t': Table, key: Key)
    requires WellFormed(t) && WellFormed(t')
    ensures Intern(t, key).0 <= t' ==> Intern(t', key) == (t', Intern(t, key).1)
  {
    if Intern(t, key).0 <= t' {
      NumbersAreKeys(t, key, t', key);
      var (t1, v) := Intern(t, key);
      assert t'[v - 1] == key;
    }
  }

  lemma AluKAgain(t: Table, val: Vals, t': Table, val': Vals, op: AluOp, k: u32, alter: bool)
    requires WellFormed(t) && Within(t, val) && WellFormed(t') && Within(t', val')
    requires OptAluK(t, val, op, k, alter).Rewritten? && OptAluK(t, val, op, k, alter).t <= t' && t <= t'
    requires val'[A_ATOM] == val[A_ATOM]
    ensures OptAluK(t', val', op, k, alter).Rewritten?
    ensures OptAluK(t', val', op, k, alter).val[A_ATOM] == OptAluK(t, val, op, k, alter).val[A_ATOM]
  {
    hide OptAluK, Intern, Alu;
    ConstKept(t, t', val[A_ATOM]);
    WithinAt(t, val, A_ATOM);
    var c := ConstOf(t, val[A_ATOM]);
    if alter && k == 0 && (op.ADD? || op.LSH? || op.RSH? || op.OR? || op.MUL? || op.AND?) {
      SimplifiedNumber(t, val, op);
      SimplifiedNumber(t', val', op);
      KeyAgain(t, t', KImm(0));
    } else {
      OrdinaryNumber(t, val, op, k, alter);
      OrdinaryNumber(t', val', op, k, alter);
      InternWellFormed(t, KImm(k));
      assert ResultKey(t', val', op, k, alter) == ResultKey(t, val, op, k, alter) by {
        KeyAgain(t, t', KImm(k));
      }
      KeyAgain(t, t', KImm(k));
      KeyAgain(Intern(t, KImm(k)).0, t', ResultKey(t, val, op, k, alter));
    }
  }

  lemma SimplifiedNumber(t: Table, val: Vals, op: AluOp)
    requires op.ADD? || op.LSH? || op.RSH? || op.OR? || op.MUL? || op.AND?
    ensures var rw := OptAluK(t, val, op, 0, true);
      && rw.Rewritten?
      && (op.MUL? || op.AND? ==> (rw.t, rw.val[A_ATOM]) == Intern(t, KImm(0)))
      && (!op.MUL? && !op.AND? ==> rw.val[A_ATOM] == val[A_ATOM])
  {
  }

  /** What an operation with a constant numbers once that constant has its number. */
  function ResultKey(t: Table, val: Vals, op: AluOp, k: u32, alter: bool): Key {
    var c, (t1, kn) := ConstOf(t, val[A_ATOM]), Intern(t, KImm(k));
    if alter && c.Some? && Alu(op, c.value, k).Some? then KImm(Alu(op, c.value, k).value)
    else KAluK(op, val[A_ATOM], kn)
  }

  lemma OrdinaryNumber(t: Table, val: Vals, op: AluOp, k: u32, alter: bool)
    requires !(alter && k == 0 && (op.ADD? || op.LSH? || op.RSH? || op.OR? || op.MUL? || op.AND?))
    ensures var rw, c := OptAluK(t, val, op, k, alter), ConstOf(t, val[A_ATOM]);
      && (rw.Rewritten? <==> !(alter && c.Some? && Alu(op, c.value, k).None?))
      && (rw.Rewritten? ==>
            (rw.t, rw.val[A_ATOM]) == Intern(Intern(t, KImm(k)).0, ResultKey(t, val, op, k, alter))
            && Intern(t, KImm(k)).0 <= rw.t)
  {
    hide Alu;
  }

  lemma AluXAgain(t: Table, val: Vals, t': Table, val': Vals, op: AluOp, alter: bool)
    requires WellFormed(t) && Within(t, val) && WellFormed(t') && Within(t', val')
    requires OptAluX(t, val, op, alter).Rewritten? && OptAluX(t, val, op, alter).t <= t' && t <= t'
    requires val'[A_ATOM] == val[A_ATOM] && val'[X_ATOM] == val[X_ATOM]
    ensures OptAluX(t', val', op, alter).Rewritten?
    ensures OptAluX(t', val', op, alter).val[A_ATOM] == OptAluX(t, val, op, alter).val[A_ATOM]
  {
    ConstKept(t, t', val[A_ATOM]);
    ConstKept(t, t', val[X_ATOM]);
    var a, x := ConstOf(t, val[A_ATOM]), ConstOf(t, val[X_ATOM]);
    if alter && x.Some? {
      IndexKnownAgain(t, val, t', val', op, a, x.value);
    } else {
      KeyAgain(t, t', KImm(0));
      KeyAgain(t, t', KAluX(op, val[A_ATOM], val[X_ATOM]));
      hide Intern, WellFormed, Within, ConstOf, Alu;
    }
  }

  lemma IndexKnownAgain(t: Table, val: Vals, t': Table, val': Vals, op: AluOp, a: Option<u32>, x: u32)
    requires WellFormed(t) && Within(t, val) && WellFormed(t') && Within(t', val')
    requires OptAluX(t, val, op, true).Rewritten? && OptAluX(t, val, op, true).t <= t' && t <= t'
    requires val'[A_ATOM] == val[A_ATOM] && val'[X_ATOM] == val[X_ATOM]
    requires ConstOf(t, val[A_ATOM]) == ConstOf(t', val[A_ATOM]) == a
    requires ConstOf(t, val[X_ATOM]) == ConstOf(t', val[X_ATOM]) == Some(x)
    ensures OptAluX(t', val', op, true).Rewritten?
    ensures OptAluX(t', val', op, true).val[A_ATOM] == OptAluX(t, val, op, true).val[A_ATOM]
  {
    ConstNumber(t, val[X_ATOM], x);
    ConstNumber(t', val[X_ATOM], x);
    KeyAgain(t, t', KAluK(op, val[A_ATOM], val[X_ATOM]));
    if a.Some? && Alu(op, a.value, x).Some? {
      KeyAgain(t, t', KImm(Alu(op, a.value, x).value));
    }
    hide Intern, WellFormed, Within, ConstOf, Alu;
  }

  // ----- a whole list -----

  /** The list up to i, rewritten, and the statement at i at the numbers that leaves. */
  lemma {:induction false} StatementByStatement(t: Table, val: Vals, ss: seq<Stmt>, alter: bool, i: nat)
    requires i < |ss| && OptStmts(t, val, ss, alter).Listed?
    ensures var l, front, upTo := OptStmts(t, val, ss, alter), OptStmts(t, val, ss[..i], alter),
              OptStmts(t, val, ss[..i + 1], alter);
      && |l.ss| == |ss| && front.Listed? && front.ss == l.ss[..i] && upTo.Listed?
      && OptStmt(front.t, front.val, ss[i], alter) == Rewritten(upTo.t, upTo.val, l.ss[i])
    decreases |ss|
  {
    var rw := OptStmt(t, val, ss[0], alter);
    var rest := OptStmts(rw.t, rw.val, ss[1..], alter);
    assert ss[..i + 1][0] == ss[0] && ss[..i + 1][1..] == ss[1..][..i];
    ListedLength(rw.t, rw.val, ss[1..], alter);
    if i == 0 {
      assert ss[..0] == [] && ss[1..][..0] == [];
    } else {
      assert ss[..i][0] == ss[0] && ss[..i][1..] == ss[1..][..i - 1];
      StatementByStatement(rw.t, rw.val, ss[1..], alter, i - 1);
      assert ss[1..][..i - 1 + 1] == ss[1..][..i];
      var front := OptStmts(rw.t, rw.val, ss[1..][..i - 1], alter);
      assert ([rw.s] + rest.ss)[..i] == [rw.s] + rest.ss[..i - 1];
    }
  }

  lemma {:induction false} ListedLength(t: Table, val: Vals, ss: seq<Stmt>, alter: bool)
    requires OptStmts(t, val, ss, alter).Listed?
    ensures |OptStmts(t, val, ss, alter).ss| == |ss|
    decreases |ss|
  {
    if ss != [] {
      var rw := OptStmt(t, val, ss[0], alter);
      ListedLength(rw.t, rw.val, ss[1..], alter);
    }
  }

  // ----- constants carried through a list -----

  /** What the atoms are known to hold. */
  type Consts = c: seq<Option<u32>> | |c| == N_ATOMS witness seq(N_ATOMS, a => None)

  /** Some registers that hold what is known. */
  function Filled(c: Consts): Regs {
    seq(N_ATOMS, a requires 0 <= a < N_ATOMS => if c[a].Some? then c[a].value else 0)
  }

  predicate ReadsPacket(s: Stmt) {
    s.LdAbs? || s.LdInd? || s.LdLen? || s.LdxMsh?
  }

  predicate Settled(c: Consts, s: Stmt) {
    !ReadsPacket(s) && forall a :: a in Uses(s) ==> c[a].Some?
  }

  /** Running statement s on what is known. */
  function Carry(c: Consts, s: Stmt): Consts {
    if s.Nop? then c
    else c[Def(s).value := if Settled(c, s) then Value(s, Filled(c), Packet([], 0)) else None]
  }

  function CarryAll(c: Consts, ss: seq<Stmt>): Consts
    decreases |ss|
  {
    if ss == [] then c else CarryAll(Carry(c, ss[0]), ss[1..])
  }

  ghost predicate Fits(c: Consts, r: Regs) {
    forall a :: 0 <= a < N_ATOMS && c[a].Some? ==> r[a] == c[a].value
  }

  /** The numbers know at least as much. */
  ghost predicate Covers(t: Table, val: Vals, c: Consts) {
    forall a :: 0 <= a < N_ATOMS && c[a].Some? ==> Known(t, val, a) == c[a]
  }

  /** What is carried is true of every run. */
  lemma {:induction false} CarriedIsTrue(c: Consts, ss: seq<Stmt>, r: Regs, x: Regs, p: Packet)
    requires Fits(c, r) && RunStmts(ss, r, p) == Some(x)
    ensures Fits(CarryAll(c, ss), x)
    decreases |ss|
  {
    if ss != [] {
      var s := ss[0];
      if !s.Nop? && Settled(c, s) {
        SettledValue(c, s, r, p);
      }
      CarriedIsTrue(Carry(c, s), ss[1..], Step(s, r, p).value, x, p);
    }
  }

  lemma SettledValue(c: Consts, s: Stmt, r: Regs, p: Packet)
    requires !s.Nop? && Settled(c, s) && forall a :: a in Uses(s) ==> c[a] == Some(r[a])
    ensures Value(s, Filled(c), Packet([], 0)) == Value(s, r, p)
  {
    forall a | a in Uses(s) ensures Filled(c)[a] == r[a] {
    }
    assert A_ATOM in Uses(s) ==> Filled(c)[A_ATOM] == r[A_ATOM];
    assert X_ATOM in Uses(s) ==> Filled(c)[X_ATOM] == r[X_ATOM];
    hide Alu;
  }

  lemma CarryOne(t: Table, val: Vals, c: Consts, s: Stmt)
    requires WellFormed(t) && Within(t, val) && Covers(t, val, c) && OptStmt(t, val, s, true).Rewritten?
    ensures var rw := OptStmt(t, val, s, true);
      WellFormed(rw.t) && Within(rw.t, rw.val) && Covers(rw.t, rw.val, Carry(c, s))
  {
    OptStmtTable(t, val, s, true);
    var rw := OptStmt(t, val, s, true);
    var c' := Carry(c, s);
    forall a | 0 <= a < N_ATOMS && c'[a].Some? ensures Known(rw.t, rw.val, a) == c'[a] {
      if Def(s) != Some(a) {
        OthersKept(t, val, s, true, a);
        ConstKept(t, rw.t, val[a]);
      } else {
        CarryDef(t, val, c, s);
      }
    }
  }

  lemma CarryDef(t: Table, val: Vals, c: Consts, s: Stmt)
    requires WellFormed(t) && Within(t, val) && Covers(t, val, c) && !s.Nop? && Settled(c, s)
    requires OptStmt(t, val, s, true).Rewritten?
    ensures var rw := OptStmt(t, val, s, true);
      Known(rw.t, rw.val, Def(s).value) == Value(s, Filled(c), Packet([], 0))
  {
    hide Alu, OptStmt, Intern;
    forall a | a in Uses(s) ensures Known(t, val, a) == Some(Filled(c)[a]) {
    }
    if Computes(s) {
      ConstantsFold(t, val, s, Filled(c), Packet([], 0));
    } else {
      CopiesPassOn(t, val, s, true);
      if Copied(s).Some? {
        assert Copied(s).value in Uses(s);
      }
    }
  }

  /** Every constant a plain run over the list would know, the numbers know in the end. */
  lemma {:induction false} ConstantsCarried(t: Table, val: Vals, c: Consts, ss: seq<Stmt>)
    requires WellFormed(t) && Within(t, val) && Covers(t, val, c) && OptStmts(t, val, ss, true).Listed?
    ensures var l := OptStmts(t, val, ss, true);
      WellFormed(l.t) && Within(l.t, l.val) && Covers(l.t, l.val, CarryAll(c, ss))
    decreases |ss|
  {
    if ss != [] {
      CarryOne(t, val, c, ss[0]);
      var rw := OptStmt(t, val, ss[0], true);
      ConstantsCarried(rw.t, rw.val, Carry(c, ss[0]), ss[1..]);
    }
  }

  /**
   So in the rewritten list a statement that computes from constants is an immediate load of its
   value, an indexed load with a constant index is an absolute one, and either may have gone.
   */
  lemma ConstantsLoaded(t: Table, val: Vals, c: Consts, ss: seq<Stmt>, i: nat)
    requires WellFormed(t) && Within(t, val) && Covers(t, val, c) && i < |ss| && OptStmts(t, val, ss, true).Listed?
    ensures var l, ci := OptStmts(t, val, ss, true), CarryAll(c, ss[..i]);
      && |l.ss| == |ss|
      && (Computes(ss[i]) && Settled(ci, ss[i]) ==>
            var v := Value(ss[i], Filled(ci), Packet([], 0));
            v.Some? && (l.ss[i] == Immediate(ss[i], v.value) || l.ss[i] == Nop))
      && (ss[i].LdInd? && ci[X_ATOM].Some? ==>
            l.ss[i] == LdAbs(ss[i].sz, (ss[i].off + ci[X_ATOM].value) % 0x1_0000_0000) || l.ss[i] == Nop)
  {
    hide Alu, OptStmt, Intern;
    StatementByStatement(t, val, ss, true, i);
    ConstantsCarried(t, val, c, ss[..i]);
    var front, ci, s := OptStmts(t, val, ss[..i], true), CarryAll(c, ss[..i]), ss[i];
    if Computes(s) && Settled(ci, s) {
      forall a | a in Uses(s) ensures Known(front.t, front.val, a) == Some(Filled(ci)[a]) {
      }
      ConstantsFold(front.t, front.val, s, Filled(ci), Packet([], 0));
    }
    if s.LdInd? && ci[X_ATOM].Some? {
      IndexedBecomesAbsolute(front.t, front.val, s.sz, s.off, ci[X_ATOM].value);
    }
  }
}
