/**
 The BPF machine: 32-bit words, the packet, the registers and the meaning of one statement.

 Registers are addressed by atom number, the way the optimizer does it: atoms 0..15 are the
 scratch words M[0..15], atom 16 is the accumulator A and atom 17 the index register X.
 A run that reads outside the packet, divides by zero or shifts by 32 or more has no next
 state: it faults.
 */
module Machine {

  datatype Option<+T> = None | Some(value: T)

  // ----- words -----

  const WORD: int := 0x1_0000_0000

  type u32 = x: int | 0 <= x < 0x1_0000_0000

  type byte = x: int | 0 <= x < 256

  function Pow2(n: nat): (r: int)
    ensures r > 0
  {
    if n == 0 then 1 else 2 * Pow2(n - 1)
  }

  function BitAnd(a: nat, b: nat): (r: nat)
    ensures r <= a && r <= b
  {
    if a == 0 || b == 0 then 0
    else 2 * BitAnd(a / 2, b / 2) + (if a % 2 == 1 && b % 2 == 1 then 1 else 0)
  }

  function BitOr(a: nat, b: nat): (r: nat)
    ensures a <= r <= a + b && b <= r
  {
    if a == 0 then b else if b == 0 then a
    else 2 * BitOr(a / 2, b / 2) + (if a % 2 == 1 || b % 2 == 1 then 1 else 0)
  }

  lemma {:induction false} BitOrBound(a: nat, b: nat, n: nat)
    requires a < Pow2(n) && b < Pow2(n)
    ensures BitOr(a, b) < Pow2(n)
  {
    if a != 0 && b != 0 {
      BitOrBound(a / 2, b / 2, n - 1);
    }
  }

  lemma Pow2Is32()
    ensures Pow2(32) == WORD
  {
    assert Pow2(8) == 256;
    assert Pow2(16) == 65536;
    assert Pow2(24) == 16777216;
  }

  function Or32(a: u32, b: u32): u32 {
    Pow2Is32();
    BitOrBound(a, b, 32);
    BitOr(a, b)
  }

  function Mul32(a: u32, b: u32): u32 { (a * b) % WORD }

  function Shl32(a: u32, n: nat): u32 { (a * Pow2(n)) % WORD }

  function Shr32(a: u32, n: nat): (r: u32)
    ensures r <= a
  {
    QuotientBound(a, Pow2(n));
    a / Pow2(n)
  }

  lemma QuotientBound(a: nat, d: int)
    requires d > 0
    ensures 0 <= a / d <= a
  {
    var q := a / d;
    var m := a % d;
    assert a == d * q + m;
    ProductBound(d, q, a - m);
  }

  lemma ProductBound(d: int, q: int, n: int)
    requires d > 0 && d * q == n && n > -d
    ensures 0 <= q && (n >= 0 ==> q <= n)
  {
    assert q < 0 ==> d * q <= d * -1;
    assert q >= 0 ==> d * q >= 1 * q;
  }

  function Add32(a: u32, b: u32): u32 { (a + b) % WORD }

  function Sub32(a: u32, b: u32): u32 { (a - b) % WORD }

  function Neg32(a: u32): u32 { Sub32(0, a) }

  datatype AluOp = ADD | SUB | MUL | DIV | OR | AND | LSH | RSH

  function Alu(op: AluOp, a: u32, b: u32): Option<u32> {
    match op
    case ADD => Some(Add32(a, b))
    case SUB => Some(Sub32(a, b))
    case MUL => Some(Mul32(a, b))
    case DIV => if b == 0 then None else (QuotientBound(a, b); Some(a / b))
    case OR => Some(Or32(a, b))
    case AND => Some(BitAnd(a, b))
    case LSH => if b >= 32 then None else Some(Shl32(a, b))
    case RSH => if b >= 32 then None else Some(Shr32(a, b))
  }

  // ----- the packet -----

  /** data is the captured part, wirelen the length the packet had on the wire. */
  datatype Packet = Packet(data: seq<byte>, wirelen: u32)

  datatype Size = W | H | B

  function Bytes(sz: Size): nat {
    match sz case W => 4 case H => 2 case B => 1
  }

  function BigEndian(d: seq<byte>): (v: u32)
    requires |d| == 1 || |d| == 2 || |d| == 4
  {
    var b0: int := d[0];
    if |d| == 1 then b0
    else
      var b1: int := d[1];
      if |d| == 2 then b0 * 256 + b1
      else
        var b2: int := d[2];
        var b3: int := d[3];
        b0 * 16777216 + b1 * 65536 + b2 * 256 + b3
  }

  /** Big-endian load of 4, 2 or 1 bytes at offset k. */
  function Load(p: Packet, k: nat, sz: Size): Option<u32> {
    if k + Bytes(sz) > |p.data| then None else Some(BigEndian(p.data[k..k + Bytes(sz)]))
  }

  function LoadMsh(p: Packet, k: nat): Option<u32> {
    if k >= |p.data| then None else Some(4 * BitAnd(p.data[k], 15))
  }

  // ----- registers and statements -----

  const MEMWORDS: nat := 16
  const A_ATOM: nat := 16
  const X_ATOM: nat := 17
  const N_ATOMS: nat := 18

  type Regs = r: seq<u32> | |r| == N_ATOMS witness [0, 0, 0, 0, 0, 0, 0, 0, 0, 0, 0, 0, 0, 0, 0, 0, 0, 0]

  /** The index of a scratch word. */
  type Cell = c: nat | c < MEMWORDS

  datatype Stmt =
    | Nop
    | LdAbs(sz: Size, off: u32)
    | LdInd(sz: Size, off: u32)
    | LdLen
    | LdImm(k: u32)
    | LdMem(cell: Cell)
    | LdxImm(k: u32)
    | LdxMem(cell: Cell)
    | LdxMsh(off: u32)
    | St(cell: Cell)
    | Stx(cell: Cell)
    | AluK(op: AluOp, k: u32)
    | AluX(op: AluOp)
    | Neg
    | Tax
    | Txa

  /** The atom a statement writes, if any. */
  function Def(s: Stmt): (d: Option<nat>)
    ensures d.Some? ==> d.value < N_ATOMS
  {
    match s
    case Nop => None
    case LdAbs(_, _) => Some(A_ATOM)
    case LdInd(_, _) => Some(A_ATOM)
    case LdLen => Some(A_ATOM)
    case LdImm(_) => Some(A_ATOM)
    case LdMem(_) => Some(A_ATOM)
    case AluK(_, _) => Some(A_ATOM)
    case AluX(_) => Some(A_ATOM)
    case Neg => Some(A_ATOM)
    case Txa => Some(A_ATOM)
    case LdxImm(_) => Some(X_ATOM)
    case LdxMem(_) => Some(X_ATOM)
    case LdxMsh(_) => Some(X_ATOM)
    case Tax => Some(X_ATOM)
    case St(c) => Some(c)
    case Stx(c) => Some(c)
  }

  /** The value the statement computes; None when it faults. */
  function Value(s: Stmt, r: Regs, p: Packet): Option<u32>
    requires !s.Nop?
  {
    match s
    case LdAbs(sz, k) => Load(p, k, sz)
    case LdInd(sz, k) => Load(p, Add32(r[X_ATOM], k), sz)
    case LdLen => Some(p.wirelen)
    case LdImm(k) => Some(k)
    case LdMem(c) => Some(r[c])
    case LdxImm(k) => Some(k)
    case LdxMem(c) => Some(r[c])
    case LdxMsh(k) => LoadMsh(p, k)
    case St(_) => Some(r[A_ATOM])
    case Stx(_) => Some(r[X_ATOM])
    case AluK(op, k) => Alu(op, r[A_ATOM], k)
    case AluX(op) => Alu(op, r[A_ATOM], r[X_ATOM])
    case Neg => Some(Neg32(r[A_ATOM]))
    case Tax => Some(r[A_ATOM])
    case Txa => Some(r[X_ATOM])
  }

  function Step(s: Stmt, r: Regs, p: Packet): Option<Regs> {
    if s.Nop? then Some(r)
    else
      var v := Value(s, r, p);
      if v.None? then None else Some(r[Def(s).value := v.value])
  }

  function RunStmts(ss: seq<Stmt>, r: Regs, p: Packet): Option<Regs> {
    if ss == [] then Some(r)
    else
      var r1 := Step(ss[0], r, p);
      if r1.None? then None else RunStmts(ss[1..], r1.value, p)
  }

  lemma {:induction false} RunStmtsAppend(s: seq<Stmt>, t: seq<Stmt>, r: Regs, p: Packet)
    ensures RunStmts(s + t, r, p) ==
            var m := RunStmts(s, r, p);
            if m.None? then None else RunStmts(t, m.value, p)
  {
    if s == [] {
      assert s + t == t;
    } else {
      assert (s + t)[1..] == s[1..] + t;
      var r1 := Step(s[0], r, p);
      if r1.Some? {
        RunStmtsAppend(s[1..], t, r1.value, p);
      }
    }
  }

  lemma RunOne(s: Stmt, r: Regs, p: Packet)
    ensures RunStmts([s], r, p) == Step(s, r, p)
  {
    assert [s][1..] == [];
  }

  lemma RunTwo(s: Stmt, t: Stmt, r: Regs, p: Packet)
    ensures RunStmts([s, t], r, p) == var m := Step(s, r, p); if m.None? then None else Step(t, m.value, p)
  {
    assert [s, t][1..] == [t];
    RunOne(s, r, p);
    var m := Step(s, r, p);
    if m.Some? {
      RunOne(t, m.value, p);
    }
  }

  /** The statements that fault in some state on some packet: loads from the packet, divisions and shifts. */
  predicate CanFault(s: Stmt) {
    match s
    case LdAbs(_, _) => true
    case LdInd(_, _) => true
    case LdxMsh(_) => true
    case AluK(op, k) => (op.DIV? && k == 0) || ((op.LSH? || op.RSH?) && k >= 32)
    case AluX(op) => op.DIV? || op.LSH? || op.RSH?
    case _ => false
  }

  predicate NeverFaults(ss: seq<Stmt>) {
    forall i :: 0 <= i < |ss| ==> !CanFault(ss[i])
  }

  lemma CanFaultExact(s: Stmt)
    ensures CanFault(s) <==> exists r, p :: Step(s, r, p).None?
  {
    if CanFault(s) {
      var r: Regs := seq(N_ATOMS, a => if s.AluX? && !s.op.DIV? then 32 else 0);
      assert Step(s, r, Packet([], 0)).None?;
    }
  }

  lemma {:induction false} NeverFaultsRuns(ss: seq<Stmt>, r: Regs, p: Packet)
    requires NeverFaults(ss)
    ensures RunStmts(ss, r, p).Some?
  {
    if ss != [] {
      CanFaultExact(ss[0]);
      NeverFaultsRuns(ss[1..], Step(ss[0], r, p).value, p);
    }
  }

  /** The statements that do something: NOPs are dropped. */
  function Kept(ss: seq<Stmt>): seq<Stmt> {
    if ss == [] then [] else (if ss[0].Nop? then [] else [ss[0]]) + Kept(ss[1..])
  }

  lemma {:induction false} KeptRuns(ss: seq<Stmt>, r: Regs, p: Packet)
    ensures RunStmts(Kept(ss), r, p) == RunStmts(ss, r, p)
  {
    if ss != [] {
      var r1 := Step(ss[0], r, p);
      if ss[0].Nop? {
        assert Kept(ss) == Kept(ss[1..]);
        KeptRuns(ss[1..], r, p);
      } else {
        assert Kept(ss)[0] == ss[0] && Kept(ss)[1..] == Kept(ss[1..]);
        if r1.Some? {
          KeptRuns(ss[1..], r1.value, p);
        }
      }
    }
  }

  lemma {:induction false} KeptAppend(ss: seq<Stmt>, s: Stmt)
    ensures Kept(ss + [s]) == Kept(ss) + Kept([s])
    ensures Kept([s]) == if s.Nop? then [] else [s]
  {
    assert [s][1..] == [];
    if ss == [] {
      assert ss + [s] == [s];
    } else {
      var rest := ss[1..];
      assert (ss + [s])[1..] == rest + [s] && (ss + [s])[0] == ss[0];
      KeptAppend(rest, s);
      var head := if ss[0].Nop? then [] else [ss[0]];
      assert head + (Kept(rest) + Kept([s])) == (head + Kept(rest)) + Kept([s]);
    }
  }

  lemma KeptPlain(ss: seq<Stmt>)
    ensures forall i :: 0 <= i < |Kept(ss)| ==> !Kept(ss)[i].Nop?
  {
  }

  lemma {:induction false} KeptPrefix(ss: seq<Stmt>, n: nat)
    requires n <= |ss|
    ensures |Kept(ss[..n])| <= |Kept(ss)|
    decreases |ss| - n
  {
    if n < |ss| {
      KeptPrefix(ss, n + 1);
      assert ss[..n + 1] == ss[..n] + [ss[n]];
      KeptAppend(ss[..n], ss[n]);
    } else {
      assert ss[..n] == ss;
    }
  }

  // ----- branches -----

  datatype JmpOp = JEQ | JGT | JGE | JSET

  datatype Test = JmpK(op: JmpOp, k: u32) | JmpX(op: JmpOp)

  function Compare(op: JmpOp, a: u32, b: u32): bool {
    match op
    case JEQ => a == b
    case JGT => a > b
    case JGE => a >= b
    case JSET => BitAnd(a, b) != 0
  }

  function Taken(t: Test, r: Regs): bool {
    match t
    case JmpK(op, k) => Compare(op, r[A_ATOM], k)
    case JmpX(op) => Compare(op, r[A_ATOM], r[X_ATOM])
  }
}
