/**
 Value numbering of the statements of a block: the value table, the symbolic meaning of its
 numbers, and opt_stmt, which numbers what a statement computes and rewrites it when the table
 knows better. Number 0 stands for a value nothing is known about.
 */
module ValueNumbering {
  import opened Machine
  import opened Liveness

  // ----- the table -----

  /** What a number stands for: an operation over the packet, constants and other numbers. */
  datatype Key =
    | KImm(k: u32)
    | KAbs(sz: Size, off: u32)
    | KInd(sz: Size, off: u32, x: nat)
    | KLen
    | KMsh(off: u32)
    | KNeg(a: nat)
    | KAluK(op: AluOp, a: nat, kn: nat)
    | KAluX(op: AluOp, a: nat, x: nat)

  /** Number v is entry v - 1. */
  type Table = seq<Key>

  /** Every operand below n is a number given out before. */
  predicate OperandsBelow(key: Key, n: nat) {
    match key
    case KInd(_, _, x) => x < n
    case KNeg(a) => a < n
    case KAluK(_, a, kn) => a < n && kn < n
    case KAluX(_, a, x) => a < n && x < n
    case _ => true
  }

  predicate WellFormed(t: Table) {
    && (forall i :: 0 <= i < |t| ==> OperandsBelow(t[i], i + 1))
    && (forall i, j :: 0 <= i < j < |t| ==> t[i] != t[j])
  }

  function IndexOf(t: Table, key: Key): (i: nat)
    ensures i <= |t| && (i < |t| ==> t[i] == key)
    ensures i == |t| ==> key !in t
  {
    if t == [] then 0 else if t[0] == key then 0 else 1 + IndexOf(t[1..], key)
  }

  /** F: the number of a key, given out now if it is new. */
  function Intern(t: Table, key: Key): (r: (Table, nat))
    ensures 0 < r.1 <= |r.0| && r.0[r.1 - 1] == key && t <= r.0 && |r.0| <= |t| + 1
    ensures key in t ==> r.0 == t
  {
    var i := IndexOf(t, key);
    if i < |t| then (t, i + 1) else (t + [key], |t| + 1)
  }

  lemma InternWellFormed(t: Table, key: Key)
    requires WellFormed(t) && OperandsBelow(key, |t| + 1)
    ensures WellFormed(Intern(t, key).0)
  {
  }

  /** Numbers are equal exactly when the keys are, even when given out at different times. */
  lemma NumbersAreKeys(t: Table, key0: Key, t': Table, key1: Key)
    requires WellFormed(t) && WellFormed(t') && Intern(t, key0).0 <= t'
    ensures Intern(t', key1).1 == Intern(t, key0).1 <==> key0 == key1
  {
    var (t0, v0) := Intern(t, key0);
    assert t'[v0 - 1] == key0;
    var (t1, v1) := Intern(t', key1);
    if key0 == key1 {
      assert t1[v1 - 1] == t'[v0 - 1] && key1 in t';
    }
  }

  function ConstOf(t: Table, v: nat): Option<u32> {
    if 0 < v <= |t| && t[v - 1].KImm? then Some(t[v - 1].k) else None
  }

  // ----- what the numbers mean -----

  /** The run-time value of number v on packet p; None for 0, and where computing it faults. */
  function Den(t: Table, v: nat, p: Packet): Option<u32>
    requires WellFormed(t)
    decreases v
  {
    if v == 0 || v > |t| then None
    else
      assert OperandsBelow(t[v - 1], v);
      match t[v - 1]
      case KImm(k) => Some(k)
      case KAbs(sz, k) => Load(p, k, sz)
      case KInd(sz, k, x) => (match Den(t, x, p) case None => None case Some(xv) => Load(p, Add32(xv, k), sz))
      case KLen => Some(p.wirelen)
      case KMsh(k) => LoadMsh(p, k)
      case KNeg(a) => (match Den(t, a, p) case None => None case Some(av) => Some(Neg32(av)))
      case KAluK(op, a, kn) => Binary(op, Den(t, a, p), Den(t, kn, p))
      case KAluX(op, a, x) => Binary(op, Den(t, a, p), Den(t, x, p))
  }

  function Binary(op: AluOp, a: Option<u32>, b: Option<u32>): Option<u32> {
    if a.None? || b.None? then None else Alu(op, a.value, b.value)
  }

  lemma {:induction false} DenKept(t: Table, t': Table, v: nat, p: Packet)
    requires WellFormed(t) && WellFormed(t') && t <= t' && v <= |t|
    ensures Den(t', v, p) == Den(t, v, p)
    decreases v
  {
    if v > 0 {
      assert t'[v - 1] == t[v - 1] && OperandsBelow(t[v - 1], v);
      match t[v - 1]
      case KInd(_, _, x) => DenKept(t, t', x, p);
      case KNeg(a) => DenKept(t, t', a, p);
      case KAluK(_, a, kn) => DenKept(t, t', a, p); DenKept(t, t', kn, p);
      case KAluX(_, a, x) => DenKept(t, t', a, p); DenKept(t, t', x, p);
      case _ =>
    }
  }

  type Vals = s: seq<nat> | |s| == N_ATOMS witness [0, 0, 0, 0, 0, 0, 0, 0, 0, 0, 0, 0, 0, 0, 0, 0, 0, 0]

  predicate Within(t: Table, val: Vals) {
    forall a :: 0 <= a < N_ATOMS ==> val[a] <= |t|
  }

  /** Every atom with a known number holds that number's value. */
  ghost predicate Matches(t: Table, val: Vals, r: Regs, p: Packet)
    requires WellFormed(t)
  {
    forall a :: 0 <= a < N_ATOMS && val[a] != 0 ==> Den(t, val[a], p) == Some(r[a])
  }

  lemma MatchesKept(t: Table, t': Table, val: Vals, r: Regs, p: Packet)
    requires WellFormed(t) && WellFormed(t') && t <= t' && Within(t, val) && Matches(t, val, r, p)
    ensures Within(t', val) && Matches(t', val, r, p)
  {
    forall a | 0 <= a < N_ATOMS && val[a] != 0 ensures Den(t', val[a], p) == Some(r[a]) {
      DenKept(t, t', val[a], p);
    }
  }

  // ----- opt_stmt -----

  /**
   The table, the numbers and the statement after opt_stmt. DivideError is the compiler's own
   "division by zero"; ShiftUndefined is a constant shift by 32 or more, which C leaves open.
   */
  datatype Rewrite = Rewritten(t: Table, val: Vals, s: Stmt) | DivideError | ShiftUndefined

  /** vstore: atom gets number v; when it is known to hold it already, the statement goes. */
  function VStore(t: Table, val: Vals, s: Stmt, atom: nat, v: nat, alter: bool): Rewrite
    requires atom < N_ATOMS
  {
    if alter && val[atom] == v then Rewritten(t, val, Nop) else Rewritten(t, val[atom := v], s)
  }

  function VStoreKey(t: Table, val: Vals, s: Stmt, atom: nat, key: Key, alter: bool): Rewrite
    requires atom < N_ATOMS
  {
    var (t1, v) := Intern(t, key);
    VStore(t1, val, s, atom, v, alter)
  }

  /** The accumulator gets the number of key, the statement stays. */
  function SetA(t: Table, val: Vals, s: Stmt, key: Key): Rewrite {
    var (t1, v) := Intern(t, key);
    Rewritten(t1, val[A_ATOM := v], s)
  }

  /** fold_op on two constants, and the numbering of the result. */
  function Fold(t: Table, val: Vals, op: AluOp, a: u32, b: u32): Rewrite {
    match Alu(op, a, b)
    case Some(c) => SetA(t, val, LdImm(c), KImm(c))
    case None => if op.DIV? then DivideError else ShiftUndefined
  }

  function OptAluK(t: Table, val: Vals, op: AluOp, k: u32, alter: bool): Rewrite {
    var c := ConstOf(t, val[A_ATOM]);
    if alter && k == 0 && (op.ADD? || op.LSH? || op.RSH? || op.OR?) then Rewritten(t, val, Nop)
    else if alter && k == 0 && (op.MUL? || op.AND?) then SetA(t, val, LdImm(k), KImm(k))
    else
      var (t1, kn) := Intern(t, KImm(k));
      if alter && c.Some? then Fold(t1, val, op, c.value, k)
      else SetA(t1, val, AluK(op, k), KAluK(op, val[A_ATOM], kn))
  }

  function OptAluX(t: Table, val: Vals, op: AluOp, alter: bool): Rewrite {
    var a, x := ConstOf(t, val[A_ATOM]), ConstOf(t, val[X_ATOM]);
    if alter && x.Some? then
      if a.Some? then Fold(t, val, op, a.value, x.value)
      else
        var (t1, kn) := Intern(t, KImm(x.value));
        SetA(t1, val, AluK(op, x.value), KAluK(op, val[A_ATOM], kn))
    else if alter && a == Some(0) && (op.ADD? || op.OR?) then
      VStore(t, val, Txa, A_ATOM, val[X_ATOM], alter)
    else if alter && a == Some(0) && !op.SUB? then
      VStoreKey(t, val, LdImm(0), A_ATOM, KImm(0), alter)
    else
      SetA(t, val, AluX(op), KAluX(op, val[A_ATOM], val[X_ATOM]))
  }

  function OptStmt(t: Table, val: Vals, s: Stmt, alter: bool): Rewrite {
    match s
    case Nop => Rewritten(t, val, Nop)
    case LdAbs(sz, k) => VStoreKey(t, val, s, A_ATOM, KAbs(sz, k), alter)
    case LdInd(sz, k) =>
      var x := ConstOf(t, val[X_ATOM]);
      if alter && x.Some? then
        VStoreKey(t, val, LdAbs(sz, Add32(k, x.value)), A_ATOM, KAbs(sz, Add32(k, x.value)), alter)
      else
        VStoreKey(t, val, s, A_ATOM, KInd(sz, k, val[X_ATOM]), alter)
    case LdLen => VStoreKey(t, val, s, A_ATOM, KLen, alter)
    case LdImm(k) => VStoreKey(t, val, s, A_ATOM, KImm(k), alter)
    case LdxImm(k) => VStoreKey(t, val, s, X_ATOM, KImm(k), alter)
    case LdxMsh(k) => VStoreKey(t, val, s, X_ATOM, KMsh(k), alter)
    case Neg =>
      var a := ConstOf(t, val[A_ATOM]);
      if alter && a.Some? then SetA(t, val, LdImm(Neg32(a.value)), KImm(Neg32(a.value)))
      else SetA(t, val, s, KNeg(val[A_ATOM]))
    case AluK(op, k) => OptAluK(t, val, op, k, alter)
    case AluX(op) => OptAluX(t, val, op, alter)
    case Txa => VStore(t, val, s, A_ATOM, val[X_ATOM], alter)
    case Tax => VStore(t, val, s, X_ATOM, val[A_ATOM], alter)
    case LdMem(c) =>
      var k := ConstOf(t, val[c]);
      VStore(t, val, if alter && k.Some? then LdImm(k.value) else s, A_ATOM, val[c], alter)
    case LdxMem(c) =>
      var k := ConstOf(t, val[c]);
      VStore(t, val, if alter && k.Some? then LdxImm(k.value) else s, X_ATOM, val[c], alter)
    case St(c) => VStore(t, val, s, c, val[A_ATOM], alter)
    case Stx(c) => VStore(t, val, s, c, val[X_ATOM], alter)
  }

  // ----- soundness of one statement -----

  lemma AluZeroRight(op: AluOp, a: u32)
    ensures op.ADD? || op.OR? || op.LSH? || op.RSH? ==> Alu(op, a, 0) == Some(a)
    ensures op.MUL? || op.AND? ==> Alu(op, a, 0) == Some(0)
  {
    assert Pow2(0) == 1;
    assert BitAnd(a, 0) == 0;
  }

  lemma AluZeroLeft(op: AluOp, b: u32)
    ensures op.ADD? || op.OR? ==> Alu(op, 0, b) == Some(b)
    ensures !op.ADD? && !op.OR? && !op.SUB? && Alu(op, 0, b).Some? ==> Alu(op, 0, b) == Some(0)
  {
  }

  /** From state r the rewritten statement ends in x too, and the new numbers describe x. */
  ghost predicate Faithful(t: Table, rw: Rewrite, r: Regs, x: Regs, p: Packet) {
    rw.Rewritten? ==>
      && WellFormed(rw.t) && t <= rw.t && |rw.t| <= |t| + 2 && Within(rw.t, rw.val)
      && Step(rw.s, r, p) == Some(x)
      && Matches(rw.t, rw.val, x, p)
  }

  ghost predicate Knows(t: Table, val: Vals, r: Regs, p: Packet) {
    WellFormed(t) && Within(t, val) && Matches(t, val, r, p)
  }

  lemma VStoreFaithful(t: Table, val: Vals, s: Stmt, atom: nat, v: nat, alter: bool, r: Regs, w: u32, p: Packet)
    requires Knows(t, val, r, p) && atom < N_ATOMS && 0 < v <= |t| && Den(t, v, p) == Some(w)
    requires Step(s, r, p) == Some(r[atom := w])
    ensures Faithful(t, VStore(t, val, s, atom, v, alter), r, r[atom := w], p)
  {
    assert val[atom] == v ==> r[atom := w] == r;
  }

  lemma InternKnows(t: Table, val: Vals, key: Key, r: Regs, p: Packet)
    requires Knows(t, val, r, p) && OperandsBelow(key, |t| + 1)
    ensures var (t1, v) := Intern(t, key); Knows(t1, val, r, p) && 0 < v <= |t1|
  {
    InternWellFormed(t, key);
    MatchesKept(t, Intern(t, key).0, val, r, p);
  }

  lemma VStoreKeyFaithful(t: Table, val: Vals, s: Stmt, atom: nat, key: Key, alter: bool, r: Regs, w: u32, p: Packet)
    requires Knows(t, val, r, p) && atom < N_ATOMS && OperandsBelow(key, |t| + 1)
    requires WellFormed(Intern(t, key).0) ==> Den(Intern(t, key).0, Intern(t, key).1, p) == Some(w)
    requires Step(s, r, p) == Some(r[atom := w])
    ensures Faithful(t, VStoreKey(t, val, s, atom, key, alter), r, r[atom := w], p)
  {
    var (t1, v) := Intern(t, key);
    InternKnows(t, val, key, r, p);
    VStoreFaithful(t1, val, s, atom, v, alter, r, w, p);
  }

  lemma SetAFaithful(t: Table, val: Vals, s: Stmt, key: Key, r: Regs, w: u32, p: Packet)
    requires Knows(t, val, r, p) && OperandsBelow(key, |t| + 1)
    requires WellFormed(Intern(t, key).0) ==> Den(Intern(t, key).0, Intern(t, key).1, p) == Some(w)
    requires Step(s, r, p) == Some(r[A_ATOM := w])
    ensures var rw := SetA(t, val, s, key);
      Faithful(t, rw, r, r[A_ATOM := w], p) && |rw.t| <= |t| + 1
  {
    InternKnows(t, val, key, r, p);
  }

  /** A number known to be constant has that constant as its value. */
  lemma ConstDen(t: Table, v: nat, p: Packet)
    requires WellFormed(t) && ConstOf(t, v).Some?
    ensures Den(t, v, p) == ConstOf(t, v) && v != 0
  {
  }

  /** The value of a newly numbered operation. */
  lemma InternDen(t: Table, key: Key, p: Packet)
    requires WellFormed(t) && OperandsBelow(key, |t| + 1)
    ensures var (t1, v) := Intern(t, key);
      && WellFormed(t1)
      && (key.KImm? ==> Den(t1, v, p) == Some(key.k))
      && (key.KAbs? ==> Den(t1, v, p) == Load(p, key.off, key.sz))
      && (key.KInd? && Den(t, key.x, p).Some? ==>
            Den(t1, v, p) == Load(p, Add32(Den(t, key.x, p).value, key.off), key.sz))
      && (key.KLen? ==> Den(t1, v, p) == Some(p.wirelen))
      && (key.KMsh? ==> Den(t1, v, p) == LoadMsh(p, key.off))
      && (key.KNeg? && Den(t, key.a, p).Some? ==> Den(t1, v, p) == Some(Neg32(Den(t, key.a, p).value)))
      && (key.KAluK? ==> Den(t1, v, p) == Binary(key.op, Den(t, key.a, p), Den(t, key.kn, p)))
      && (key.KAluX? ==> Den(t1, v, p) == Binary(key.op, Den(t, key.a, p), Den(t, key.x, p)))
  {
    var (t1, v) := Intern(t, key);
    InternWellFormed(t, key);
    assert t1[v - 1] == key && OperandsBelow(key, v);
    match key
    case KInd(_, _, x) => DenKept(t, t1, x, p);
    case KNeg(a) => DenKept(t, t1, a, p);
    case KAluK(_, a, kn) => DenKept(t, t1, a, p); DenKept(t, t1, kn, p);
    case KAluX(_, a, x) => DenKept(t, t1, a, p); DenKept(t, t1, x, p);
    case _ =>
  }

  /** An operation with constant k, when nothing is simplified. */
  lemma AluKPlain(t: Table, val: Vals, op: AluOp, k: u32, r: Regs, w: u32, p: Packet)
    requires Knows(t, val, r, p) && val[A_ATOM] != 0 && Alu(op, r[A_ATOM], k) == Some(w)
    ensures var (t1, kn) := Intern(t, KImm(k));
      Faithful(t, SetA(t1, val, AluK(op, k), KAluK(op, val[A_ATOM], kn)), r, r[A_ATOM := w], p)
  {
    var (t1, kn) := Intern(t, KImm(k));
    InternKnows(t, val, KImm(k), r, p);
    InternDen(t, KImm(k), p);
    DenKept(t, t1, val[A_ATOM], p);
    var key := KAluK(op, val[A_ATOM], kn);
    InternDen(t1, key, p);
    hide Alu;
    SetAFaithful(t1, val, AluK(op, k), key, r, w, p);
  }

  /** An operation on two constants. */
  lemma FoldFaithful(t: Table, val: Vals, op: AluOp, a: u32, b: u32, r: Regs, w: u32, p: Packet)
    requires Knows(t, val, r, p) && Alu(op, a, b) == Some(w)
    ensures var rw := Fold(t, val, op, a, b);
      rw.Rewritten? && |rw.t| <= |t| + 1 && Faithful(t, rw, r, r[A_ATOM := w], p)
  {
    InternDen(t, KImm(w), p);
    SetAFaithful(t, val, LdImm(w), KImm(w), r, w, p);
  }

  lemma AluKFaithful(t: Table, val: Vals, op: AluOp, k: u32, alter: bool, r: Regs, x: Regs, p: Packet)
    requires Knows(t, val, r, p) && val[A_ATOM] != 0 && Step(AluK(op, k), r, p) == Some(x)
    ensures Faithful(t, OptAluK(t, val, op, k, alter), r, x, p)
    ensures OptAluK(t, val, op, k, alter).Rewritten?
  {
    AluZeroRight(op, r[A_ATOM]);
    var w := Alu(op, r[A_ATOM], k).value;
    assert x == r[A_ATOM := w];
    if alter && k == 0 && (op.ADD? || op.LSH? || op.RSH? || op.OR?) {
      assert x == r;
    } else if alter && k == 0 && (op.MUL? || op.AND?) {
      InternDen(t, KImm(k), p);
      SetAFaithful(t, val, LdImm(k), KImm(k), r, w, p);
    } else if alter && ConstOf(t, val[A_ATOM]).Some? {
      ConstDen(t, val[A_ATOM], p);
      InternKnows(t, val, KImm(k), r, p);
      FoldFaithful(Intern(t, KImm(k)).0, val, op, r[A_ATOM], k, r, w, p);
    } else {
      AluKPlain(t, val, op, k, r, w, p);
    }
  }

  lemma AluXPlain(t: Table, val: Vals, op: AluOp, r: Regs, w: u32, p: Packet)
    requires Knows(t, val, r, p) && val[A_ATOM] != 0 && val[X_ATOM] != 0 && Alu(op, r[A_ATOM], r[X_ATOM]) == Some(w)
    ensures Faithful(t, SetA(t, val, AluX(op), KAluX(op, val[A_ATOM], val[X_ATOM])), r, r[A_ATOM := w], p)
  {
    var key := KAluX(op, val[A_ATOM], val[X_ATOM]);
    InternDen(t, key, p);
    hide Alu;
    SetAFaithful(t, val, AluX(op), key, r, w, p);
  }

  lemma AluXFaithful(t: Table, val: Vals, op: AluOp, alter: bool, r: Regs, x: Regs, p: Packet)
    requires Knows(t, val, r, p) && val[A_ATOM] != 0 && val[X_ATOM] != 0 && Step(AluX(op), r, p) == Some(x)
    ensures Faithful(t, OptAluX(t, val, op, alter), r, x, p)
    ensures OptAluX(t, val, op, alter).Rewritten?
  {
    AluZeroLeft(op, r[X_ATOM]);
    var w := Alu(op, r[A_ATOM], r[X_ATOM]).value;
    assert x == r[A_ATOM := w];
    var ca, cx := ConstOf(t, val[A_ATOM]), ConstOf(t, val[X_ATOM]);
    if ca.Some? { ConstDen(t, val[A_ATOM], p); }
    if cx.Some? { ConstDen(t, val[X_ATOM], p); }
    if alter && cx.Some? {
      if ca.Some? {
        FoldFaithful(t, val, op, ca.value, cx.value, r, w, p);
      } else {
        AluKPlain(t, val, op, cx.value, r, w, p);
      }
    } else if alter && ca == Some(0) && (op.ADD? || op.OR?) {
      VStoreFaithful(t, val, Txa, A_ATOM, val[X_ATOM], alter, r, w, p);
    } else if alter && ca == Some(0) && !op.SUB? {
      InternDen(t, KImm(0), p);
      VStoreKeyFaithful(t, val, LdImm(0), A_ATOM, KImm(0), alter, r, w, p);
    } else {
      AluXPlain(t, val, op, r, w, p);
    }
  }

  /** The atom a statement copies, when it does nothing else. */
  function Copied(s: Stmt): Option<nat> {
    match s
    case Txa => Some(X_ATOM)
    case Tax => Some(A_ATOM)
    case LdMem(c) => Some(c)
    case LdxMem(c) => Some(c)
    case St(_) => Some(A_ATOM)
    case Stx(_) => Some(X_ATOM)
    case _ => None
  }

  /** No atom the statement reads is numbered 0; for a copy it is enough that not both atoms are. */
  predicate ReadsKnown(val: Vals, s: Stmt) {
    if Copied(s).Some? then val[Copied(s).value] != 0 || val[Def(s).value] != 0
    else forall a :: a in Uses(s) ==> val[a] != 0
  }

  lemma LoadFaithful(t: Table, val: Vals, s: Stmt, alter: bool, r: Regs, x: Regs, p: Packet)
    requires Knows(t, val, r, p) && ReadsKnown(val, s) && Step(s, r, p) == Some(x)
    requires s.LdAbs? || s.LdInd? || s.LdLen? || s.LdImm? || s.LdxImm? || s.LdxMsh?
    ensures Faithful(t, OptStmt(t, val, s, alter), r, x, p)
  {
    assert forall a :: a in Uses(s) ==> val[a] != 0;
    var atom := Def(s).value;
    var key := match s
      case LdAbs(sz, k) => KAbs(sz, k)
      case LdInd(sz, k) => KInd(sz, k, val[X_ATOM])
      case LdLen => KLen
      case LdImm(k) => KImm(k)
      case LdxImm(k) => KImm(k)
      case LdxMsh(k) => KMsh(k);
    if s.LdInd? && alter && ConstOf(t, val[X_ATOM]).Some? {
      ConstDen(t, val[X_ATOM], p);
      var k := Add32(s.off, ConstOf(t, val[X_ATOM]).value);
      InternDen(t, KAbs(s.sz, k), p);
      VStoreKeyFaithful(t, val, LdAbs(s.sz, k), A_ATOM, KAbs(s.sz, k), alter, r, x[A_ATOM], p);
    } else {
      InternDen(t, key, p);
      VStoreKeyFaithful(t, val, s, atom, key, alter, r, x[atom], p);
    }
  }

  lemma MoveFaithful(t: Table, val: Vals, s: Stmt, alter: bool, r: Regs, x: Regs, p: Packet)
    requires Knows(t, val, r, p) && ReadsKnown(val, s) && Step(s, r, p) == Some(x)
    requires Copied(s).Some?
    ensures Faithful(t, OptStmt(t, val, s, alter), r, x, p)
  {
    var from := Copied(s).value;
    var k := ConstOf(t, val[from]);
    if k.Some? { ConstDen(t, val[from], p); }
    if val[from] == 0 {
      return;
    }
    var s' := if alter && k.Some? && s.LdMem? then LdImm(k.value)
      else if alter && k.Some? && s.LdxMem? then LdxImm(k.value) else s;
    VStoreFaithful(t, val, s', Def(s).value, val[from], alter, r, r[from], p);
  }

  lemma NegFaithful(t: Table, val: Vals, alter: bool, r: Regs, p: Packet)
    requires Knows(t, val, r, p) && val[A_ATOM] != 0
    ensures Faithful(t, OptStmt(t, val, Neg, alter), r, r[A_ATOM := Neg32(r[A_ATOM])], p)
  {
    var c, w := ConstOf(t, val[A_ATOM]), Neg32(r[A_ATOM]);
    if alter && c.Some? {
      ConstDen(t, val[A_ATOM], p);
      InternDen(t, KImm(w), p);
      SetAFaithful(t, val, LdImm(w), KImm(w), r, w, p);
    } else {
      InternDen(t, KNeg(val[A_ATOM]), p);
      SetAFaithful(t, val, Neg, KNeg(val[A_ATOM]), r, w, p);
    }
  }

  /**
   One statement: on every run that gets past it, the rewritten statement does the same, the
   numbers stay true, and the compiler does not give up.
   */
  lemma OptStmtFaithful(t: Table, val: Vals, s: Stmt, alter: bool, r: Regs, x: Regs, p: Packet)
    requires Knows(t, val, r, p) && ReadsKnown(val, s) && Step(s, r, p) == Some(x)
    ensures OptStmt(t, val, s, alter).Rewritten?
    ensures Faithful(t, OptStmt(t, val, s, alter), r, x, p)
  {
    match s
    case Nop =>
    case Neg =>
      assert A_ATOM in Uses(s);
      NegFaithful(t, val, alter, r, p);
    case AluK(op, k) =>
      assert A_ATOM in Uses(s);
      AluKFaithful(t, val, op, k, alter, r, x, p);
    case AluX(op) =>
      assert A_ATOM in Uses(s) && X_ATOM in Uses(s);
      AluXFaithful(t, val, op, alter, r, x, p);
    case LdAbs(_, _) => LoadFaithful(t, val, s, alter, r, x, p);
    case LdInd(_, _) => LoadFaithful(t, val, s, alter, r, x, p);
    case LdLen => LoadFaithful(t, val, s, alter, r, x, p);
    case LdImm(_) => LoadFaithful(t, val, s, alter, r, x, p);
    case LdxImm(_) => LoadFaithful(t, val, s, alter, r, x, p);
    case LdxMsh(_) => LoadFaithful(t, val, s, alter, r, x, p);
    case _ => MoveFaithful(t, val, s, alter, r, x, p);
  }

  // ----- a whole statement list -----

  datatype ListRewrite = Listed(t: Table, val: Vals, ss: seq<Stmt>) | GaveUp

  function OptStmts(t: Table, val: Vals, ss: seq<Stmt>, alter: bool): ListRewrite
    decreases |ss|
  {
    if ss == [] then Listed(t, val, [])
    else
      var rw := OptStmt(t, val, ss[0], alter);
      if !rw.Rewritten? then GaveUp
      else
        var rest := OptStmts(rw.t, rw.val, ss[1..], alter);
        if rest.GaveUp? then GaveUp else Listed(rest.t, rest.val, [rw.s] + rest.ss)
  }

  /** No statement of the list reads an atom that is numbered 0 when it runs. */
  predicate AllReadsKnown(t: Table, val: Vals, ss: seq<Stmt>, alter: bool)
    decreases |ss|
  {
    ss == [] ||
    (ReadsKnown(val, ss[0]) &&
     var rw := OptStmt(t, val, ss[0], alter);
     rw.Rewritten? ==> AllReadsKnown(rw.t, rw.val, ss[1..], alter))
  }

  /**
   A whole list: every run that gets through it gets through the rewritten one to the same
   registers, which the final numbers describe. The compiler gives up on no such list.
   */
  lemma {:induction false} OptStmtsFaithful(t: Table, val: Vals, ss: seq<Stmt>, alter: bool, r: Regs, x: Regs,
          p: Packet)
    requires Knows(t, val, r, p) && AllReadsKnown(t, val, ss, alter) && RunStmts(ss, r, p) == Some(x)
    ensures var l := OptStmts(t, val, ss, alter);
      l.Listed? && t <= l.t && RunStmts(l.ss, r, p) == Some(x) && Knows(l.t, l.val, x, p)
    decreases |ss|
  {
    if ss != [] {
      var r1 := Step(ss[0], r, p).value;
      OptStmtFaithful(t, val, ss[0], alter, r, r1, p);
      var rw := OptStmt(t, val, ss[0], alter);
      OptStmtsFaithful(rw.t, rw.val, ss[1..], alter, r1, x, p);
      var rest := OptStmts(rw.t, rw.val, ss[1..], alter);
      assert ([rw.s] + rest.ss)[1..] == rest.ss;
    }
  }

  /** What the final numbers say: equal numbers hold equal values, and constants are constant. */
  lemma NumbersTellTheTruth(t: Table, val: Vals, r: Regs, p: Packet, a: nat, b: nat)
    requires Knows(t, val, r, p) && a < N_ATOMS && b < N_ATOMS
    ensures val[a] == val[b] != 0 ==> r[a] == r[b]
    ensures ConstOf(t, val[a]).Some? ==> r[a] == ConstOf(t, val[a]).value
  {
    if ConstOf(t, val[a]).Some? {
      ConstDen(t, val[a], p);
    }
  }

  /**
   Copying between two atoms numbered 0 is what goes wrong: two unknown values are taken for the
   same, and the copy is deleted, whenever they are not. In particular the table may be empty.
   */
  lemma ZeroTakenForEqual(t: Table, val: Vals, s: Stmt, r: Regs, p: Packet)
    requires Knows(t, val, r, p) && Copied(s).Some? && !ReadsKnown(val, s)
    ensures OptStmt(t, val, s, true) == Rewritten(t, val, Nop)
    ensures Step(s, r, p).Some? && (Step(s, r, p) == Step(Nop, r, p) <==> r[Copied(s).value] == r[Def(s).value])
    ensures var zero: Vals := seq(N_ATOMS, a => 0); Knows([], zero, r, p) && !ReadsKnown(zero, s)
  {
    var from, to := Copied(s).value, Def(s).value;
    var x := Step(s, r, p).value;
    assert x[to] == r[from] && x == r[to := r[from]];
    if r[from] == r[to] {
      assert x == r;
    }
    var zero: Vals := seq(N_ATOMS, a => 0);
    assert zero[from] == 0 && zero[to] == 0;
  }

  /** A statement that reads known numbers only has a known result. */
  lemma KnownResult(t: Table, val: Vals, s: Stmt, alter: bool)
    requires forall a :: a in Uses(s) ==> val[a] != 0
    ensures ReadsKnown(val, s)
    ensures var rw := OptStmt(t, val, s, alter); rw.Rewritten? && Def(s).Some? ==> rw.val[Def(s).value] != 0
  {
    hide Intern, ConstOf, Alu;
    assert Copied(s).Some? ==> Copied(s).value in Uses(s);
    assert s.AluK? || s.AluX? || s.Neg? ==> A_ATOM in Uses(s);
  }

  // ----- how many numbers are given out -----

  /** A rewrite that has given out at most n numbers. */
  ghost predicate Grown(t: Table, rw: Rewrite, n: nat) {
    rw.Rewritten? ==> WellFormed(rw.t) && t <= rw.t && Within(rw.t, rw.val) && |rw.t| <= |t| + n
  }

  lemma InternGrown(t: Table, val: Vals, s: Stmt, atom: nat, key: Key, alter: bool)
    requires WellFormed(t) && Within(t, val) && OperandsBelow(key, |t| + 1) && atom < N_ATOMS
    ensures Within(Intern(t, key).0, val) && WellFormed(Intern(t, key).0)
    ensures Grown(t, SetA(t, val, s, key), 1) && Grown(t, VStoreKey(t, val, s, atom, key, alter), 1)
  {
    InternWellFormed(t, key);
  }

  lemma OptAluKGrown(t: Table, val: Vals, op: AluOp, k: u32, alter: bool)
    requires WellFormed(t) && Within(t, val)
    ensures Grown(t, OptAluK(t, val, op, k, alter), 2)
  {
    hide Fold, SetA, Intern, WellFormed, Within, ConstOf;
    InternGrown(t, val, LdImm(k), A_ATOM, KImm(k), alter);
    var (t1, kn) := Intern(t, KImm(k));
    var c := ConstOf(t, val[A_ATOM]);
    if c.Some? {
      FoldGrown(t1, val, op, c.value, k);
    }
    InternGrown(t1, val, AluK(op, k), A_ATOM, KAluK(op, val[A_ATOM], kn), alter);
  }

  lemma OptAluXGrown(t: Table, val: Vals, op: AluOp, alter: bool)
    requires WellFormed(t) && Within(t, val)
    ensures Grown(t, OptAluX(t, val, op, alter), 2)
  {
    hide Fold, SetA, Intern, VStore, VStoreKey, WellFormed, Within, ConstOf;
    var ca, cx := ConstOf(t, val[A_ATOM]), ConstOf(t, val[X_ATOM]);
    WithinAt(t, val, A_ATOM);
    WithinAt(t, val, X_ATOM);
    InternGrown(t, val, LdImm(0), A_ATOM, KImm(0), alter);
    InternGrown(t, val, AluX(op), A_ATOM, KAluX(op, val[A_ATOM], val[X_ATOM]), alter);
    if cx.Some? {
      InternGrown(t, val, LdImm(0), A_ATOM, KImm(cx.value), alter);
      var (t2, kn2) := Intern(t, KImm(cx.value));
      InternGrown(t2, val, AluK(op, cx.value), A_ATOM, KAluK(op, val[A_ATOM], kn2), alter);
      if ca.Some? {
        FoldGrown(t, val, op, ca.value, cx.value);
      }
    }
    StoreGrown(t, val, Txa, A_ATOM, val[X_ATOM], alter);
  }

  lemma WithinAt(t: Table, val: Vals, a: nat)
    requires Within(t, val) && a < N_ATOMS
    ensures val[a] <= |t|
  {
  }

  lemma StoreGrown(t: Table, val: Vals, s: Stmt, a: nat, v: nat, alter: bool)
    requires WellFormed(t) && Within(t, val) && a < N_ATOMS && v <= |t|
    ensures Grown(t, VStore(t, val, s, a, v, alter), 2)
  {
  }

  lemma FoldGrown(t: Table, val: Vals, op: AluOp, a: u32, b: u32)
    requires WellFormed(t) && Within(t, val)
    ensures Grown(t, Fold(t, val, op, a, b), 1)
  {
    var c := Alu(op, a, b);
    hide Alu;
    if c.Some? {
      InternGrown(t, val, LdImm(c.value), A_ATOM, KImm(c.value), false);
    }
  }

  /** opt_stmt takes at most two numbers, and none for a deleted statement. */
  lemma OptStmtTable(t: Table, val: Vals, s: Stmt, alter: bool)
    requires WellFormed(t) && Within(t, val)
    ensures Grown(t, OptStmt(t, val, s, alter), if s.Nop? then 0 else 2)
  {
    hide OptAluK, OptAluX;
    match s
    case LdAbs(sz, k) => InternGrown(t, val, s, A_ATOM, KAbs(sz, k), alter);
    case LdInd(sz, k) =>
      var x := ConstOf(t, val[X_ATOM]);
      if x.Some? {
        var k1 := Add32(k, x.value);
        InternGrown(t, val, LdAbs(sz, k1), A_ATOM, KAbs(sz, k1), alter);
      }
      InternGrown(t, val, s, A_ATOM, KInd(sz, k, val[X_ATOM]), alter);
    case LdLen => InternGrown(t, val, s, A_ATOM, KLen, alter);
    case LdImm(k) => InternGrown(t, val, s, A_ATOM, KImm(k), alter);
    case LdxImm(k) => InternGrown(t, val, s, X_ATOM, KImm(k), alter);
    case LdxMsh(k) => InternGrown(t, val, s, X_ATOM, KMsh(k), alter);
    case Neg =>
      var a := ConstOf(t, val[A_ATOM]);
      if a.Some? {
        InternGrown(t, val, LdImm(Neg32(a.value)), A_ATOM, KImm(Neg32(a.value)), alter);
      }
      InternGrown(t, val, s, A_ATOM, KNeg(val[A_ATOM]), alter);
    case AluK(op, k) => OptAluKGrown(t, val, op, k, alter);
    case AluX(op) => OptAluXGrown(t, val, op, alter);
    case _ =>
  }

  lemma {:induction false} OptStmtsTable(t: Table, val: Vals, ss: seq<Stmt>, alter: bool)
    requires WellFormed(t) && Within(t, val) && OptStmts(t, val, ss, alter).Listed?
    ensures var l := OptStmts(t, val, ss, alter);
      WellFormed(l.t) && t <= l.t && Within(l.t, l.val) && |l.t| <= |t| + 2 * |Kept(ss)|
    decreases |ss|
  {
    if ss != [] {
      OptStmtTable(t, val, ss[0], alter);
      var rw := OptStmt(t, val, ss[0], alter);
      OptStmtsTable(rw.t, rw.val, ss[1..], alter);
    }
  }
}
