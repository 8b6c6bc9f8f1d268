/**
 What the atom sets mean: a statement uses an atom just when it can tell two values of it apart, and
 an atom is in use at a block just when some way on from there reads it before anything writes it.
 */
module LivenessLaws {
  import opened Machine
  import opened FlowGraph
  import opened Liveness

  // ----- one statement -----

  /** The two states differ in atom a at most. */
  predicate SameBut(r: Regs, s: Regs, a: nat) {
    forall i :: 0 <= i < N_ATOMS && i != a ==> r[i] == s[i]
  }

  /** There are two states, different in atom a alone, in which s computes different values, or faults in one. */
  ghost predicate Tells(s: Stmt, a: nat) {
    !s.Nop? && exists x: Regs, y: Regs, p: Packet :: SameBut(x, y, a) && Value(s, x, p) != Value(s, y, p)
  }

  ghost predicate TestTells(t: Test, a: nat) {
    exists x: Regs, y: Regs :: SameBut(x, y, a) && Taken(t, x) != Taken(t, y)
  }

  /** Registers that all hold w, but for atom a. */
  function Only(a: nat, v: u32, w: u32): (r: Regs)
    ensures forall i :: 0 <= i < N_ATOMS ==> r[i] == if i == a then v else w
  {
    seq(N_ATOMS, i => if i == a then v else w)
  }

  /** An operation whose constant decides the result, or faults, whatever is in A. */
  predicate Decides(s: Stmt) {
    s.AluK? && match s.op
      case MUL => s.k == 0
      case AND => s.k == 0
      case OR => s.k == 0xffff_ffff
      case DIV => s.k == 0
      case LSH => s.k >= 32
      case RSH => s.k >= 32
      case _ => false
  }

  /** Every value is masked by all ones to itself. */
  lemma {:induction false} AndOnes(n: nat, k: nat)
    requires k < Pow2(n)
    ensures BitAnd(Pow2(n) - 1, k) == k
  {
    if n > 0 && k > 0 {
      var m := Pow2(n - 1);
      assert (2 * m - 1) / 2 == m - 1 && (2 * m - 1) % 2 == 1;
      AndOnes(n - 1, k / 2);
    }
  }

  lemma PowersFit(n: nat)
    requires n < 32
    ensures 0 < Pow2(n) <= 0x8000_0000
  {
    Pow2Is32();
    PowersGrow(n, 31);
  }

  lemma {:induction false} PowersGrow(m: nat, n: nat)
    requires m <= n
    ensures Pow2(m) <= Pow2(n)
    decreases n - m
  {
    if m < n {
      PowersGrow(m, n - 1);
    }
  }

  /** A constant operand leaves the value in A to matter unless it decides the result alone. */
  lemma OperandMatters(op: AluOp, k: u32)
    requires !Decides(AluK(op, k))
    ensures Alu(op, 0, k) != Alu(op, 1, k) || Alu(op, 0, k) != Alu(op, 0xffff_ffff, k)
  {
    if op.AND? {
      Pow2Is32();
      AndOnes(32, k);
      hide Pow2;
    } else if op.OR? {
      assert Or32(0, k) == k && Or32(0xffff_ffff, k) == 0xffff_ffff;
    } else if op.LSH? {
      ShiftedOne(k);
      hide Pow2;
    } else if op.RSH? {
      PowersFit(k);
      DividedUp(0xffff_ffff, Pow2(k));
      hide Pow2;
    } else if op.DIV? {
      DividedUp(0xffff_ffff, k);
    }
  }

  lemma ShiftedOne(k: nat)
    requires k < 32
    ensures Shl32(0, k) == 0 && Shl32(1, k) == Pow2(k) > 0
  {
    PowersFit(k);
    hide Pow2;
  }

  lemma DividedUp(a: nat, d: int)
    requires 0 < d <= a
    ensures a / d >= 1 && 0 / d == 0
  {
    var q := a / d;
    assert a == d * q + a % d;
    assert d * q > 0;
  }

  /** A statement uses what it can tell apart, and tells apart what it uses unless its constant decides. */
  lemma UsesExact(s: Stmt, a: nat)
    ensures Tells(s, a) <==> a in Uses(s) && !Decides(s)
  {
    if a !in Uses(s) {
      NotRead(s, a);
    } else if Decides(s) {
      DecidedAlone(s);
    } else if s.LdInd? {
      IndexTells(s.sz, s.off);
    } else if s.AluK? {
      OperandMatters(s.op, s.k);
      var x, y, z := Only(a, 0, 0), Only(a, 1, 0), Only(a, 0xffff_ffff, 0);
      assert SameBut(x, y, a) && SameBut(x, z, a);
      assert Value(s, x, Packet([], 0)) != Value(s, y, Packet([], 0))
          || Value(s, x, Packet([], 0)) != Value(s, z, Packet([], 0));
    } else if s.AluX? {
      BothTell(s.op, a);
    } else {
      CopyTells(s, a);
    }
  }

  lemma CopyTells(s: Stmt, a: nat)
    requires a in Uses(s) && !s.LdInd? && !s.AluK? && !s.AluX?
    ensures Tells(s, a)
  {
    var x, y := Only(a, 0, 0), Only(a, 1, 0);
    assert SameBut(x, y, a) && Value(s, x, Packet([], 0)) != Value(s, y, Packet([], 0));
  }

  lemma NotRead(s: Stmt, a: nat)
    requires a !in Uses(s)
    ensures !Tells(s, a)
  {
    if !s.Nop? {
      forall x: Regs, y: Regs, p: Packet | SameBut(x, y, a) ensures Value(s, x, p) == Value(s, y, p) {
        assert forall i :: i in Uses(s) ==> x[i] == y[i];
      }
    }
  }

  lemma DecidedAlone(s: Stmt)
    requires Decides(s)
    ensures forall a :: !Tells(s, a)
  {
    forall x: u32, y: u32 ensures Alu(s.op, x, s.k) == Alu(s.op, y, s.k) {
      if s.op.OR? {
        assert Or32(x, s.k) >= s.k && Or32(y, s.k) >= s.k;
      }
    }
  }

  /** An indexed load of the only bytes there are, and one byte further on. */
  lemma IndexTells(sz: Size, k: u32)
    ensures Tells(LdInd(sz, k), X_ATOM)
  {
    var s, p := LdInd(sz, k), Packet(seq(Bytes(sz), i => 0), 0);
    var i: u32 := if k == 0 then 0 else WORD - k;
    var j: u32 := if k <= 1 then 1 - k else WORD + 1 - k;
    var x, y := Only(X_ATOM, i, 0), Only(X_ATOM, j, 0);
    assert Add32(i, k) == 0 && Add32(j, k) == 1;
    assert SameBut(x, y, X_ATOM) && Value(s, x, p).Some? && Value(s, y, p).None?;
  }

  lemma BothTell(op: AluOp, a: nat)
    requires a == A_ATOM || a == X_ATOM
    ensures Tells(AluX(op), a)
  {
    var s, p := AluX(op), Packet([], 0);
    var other: u32 := if op.OR? || ((op.LSH? || op.RSH?) && a == A_ATOM) then 0 else 1;
    var x, y := Only(a, 0, other), Only(a, 1, other);
    assert BitAnd(1, 1) == 1 && BitAnd(0, 1) == 0 && BitAnd(1, 0) == 0;
    assert BitOr(0, 0) == 0 && BitOr(0, 1) == 1 && BitOr(1, 0) == 1;
    assert Pow2(0) == 1 && Pow2(1) == 2;
    hide Pow2, BitAnd, BitOr;
    assert SameBut(x, y, a) && Value(s, x, p) != Value(s, y, p);
  }

  /** A comparison with a constant that comes out one way only. */
  predicate OneWay(t: Test) {
    t == JmpK(JGE, 0) || t == JmpK(JGT, 0xffff_ffff) || t == JmpK(JSET, 0)
  }

  /** A branch reads what it can tell apart, and tells apart what it reads unless its constant settles it. */
  lemma TestUsesExact(t: Test, a: nat)
    requires a < N_ATOMS
    ensures TestTells(t, a) <==> a in TestUses(t) && !OneWay(t)
  {
    if a in TestUses(t) && !OneWay(t) {
      Pow2Is32();
      if t.JmpK? {
        AndOnes(32, t.k);
        var x, y, z := Only(a, 0, 0), Only(a, 0xffff_ffff, 0), Only(a, t.k, 0);
        assert SameBut(x, y, a) && SameBut(x, z, a);
        assert Taken(t, x) != Taken(t, y) || Taken(t, x) != Taken(t, z);
      } else {
        var one := t.op.JSET? || (t.op.JGT? && a == X_ATOM) || (t.op.JGE? && a == A_ATOM);
        var x, y := Only(a, 0, if one then 1 else 0), Only(a, 1, if one then 1 else 0);
        assert BitAnd(1, 1) == 1 && BitAnd(0, 1) == 0 && BitAnd(1, 0) == 0;
        assert SameBut(x, y, a) && Taken(t, x) != Taken(t, y);
      }
    }
  }

  // ----- a list and a graph -----

  /** Some statement reads a before any statement ahead of it has written it. */
  predicate ReadFirst(ss: seq<Stmt>, a: nat) {
    exists i :: 0 <= i < |ss| && a in Uses(ss[i]) && NotWritten(ss, a, i)
  }

  /** None of the first n statements writes a. */
  predicate NotWritten(ss: seq<Stmt>, a: nat, n: nat)
    requires n <= |ss|
  {
    forall j :: 0 <= j < n ==> Def(ss[j]) != Some(a)
  }

  lemma {:induction false} LiveIsReadFirst(ss: seq<Stmt>, out: set<nat>, a: nat)
    ensures a in LiveBefore(ss, out) <==> ReadFirst(ss, a) || (a in out && NotWritten(ss, a, |ss|))
  {
    if ss != [] {
      var s, rest := ss[0], ss[1..];
      LiveIsReadFirst(rest, out, a);
      if ReadFirst(rest, a) && Def(s) != Some(a) {
        var i :| 0 <= i < |rest| && a in Uses(rest[i]) && NotWritten(rest, a, i);
        var next := i + 1;
        assert a in Uses(ss[next]);
        assert NotWritten(ss, a, next);
      }
      if ReadFirst(ss, a) && a !in Uses(s) {
        var i :| 0 <= i < |ss| && a in Uses(ss[i]) && NotWritten(ss, a, i);
        var before := i - 1;
        assert a in Uses(rest[before]);
        assert NotWritten(rest, a, before) by {
          forall j | 0 <= j < before ensures Def(rest[j]) != Some(a) {
            var up := j + 1;
            assert ss[up] == rest[j];
          }
        }
      }
      if a in Uses(s) {
        assert NotWritten(ss, a, 0);
      }
      if NotWritten(ss, a, |ss|) {
        assert Def(ss[0]) != Some(a);
        forall j | 0 <= j < |rest| ensures Def(rest[j]) != Some(a) {
          var up := j + 1;
          assert ss[up] == rest[j];
        }
      }
    }
  }

  /** Along the path nothing writes a, until the last block reads it first or tests it. */
  ghost predicate Awaited(g: Graph, path: seq<nat>, a: nat) {
    && IsPath(g, path)
    && (forall i :: 0 <= i < |path| - 1 ==> NotWritten(g[path[i]].stmts, a, |g[path[i]].stmts|))
    && var last := g[path[|path| - 1]];
       ReadFirst(last.stmts, a) || (a in ExitUses(last) && NotWritten(last.stmts, a, |last.stmts|))
  }

  /** An atom is in use at b just when some path from b reads it before anything has written it. */
  lemma {:induction false} InUseExact(g: Graph, b: nat, a: nat)
    requires Acyclic(g) && b < |g|
    ensures a in InUse(g, b) <==> exists path :: Awaited(g, path, a) && path[0] == b
    decreases RankOf(g)[b]
  {
    var ss := g[b].stmts;
    LiveIsReadFirst(ss, ExitUses(g[b]) + OutUse(g, b), a);
    if g[b].Br? {
      InUseExact(g, g[b].jt, a);
      InUseExact(g, g[b].jf, a);
    }
    if a in InUse(g, b) {
      if ReadFirst(ss, a) || a in ExitUses(g[b]) {
        assert Awaited(g, [b], a);
      } else {
        var c := if a in InUse(g, g[b].jt) then g[b].jt else g[b].jf;
        var rest :| Awaited(g, rest, a) && rest[0] == c;
        AwaitedLonger(g, b, rest, a);
      }
    }
    if path :| Awaited(g, path, a) && path[0] == b {
      if |path| > 1 {
        AwaitedShorter(g, path, a);
        assert Edge(g, path[0], path[1]);
        assert path[1..][0] == path[1];
        assert NotWritten(g[path[0]].stmts, a, |g[path[0]].stmts|);
      }
    }
  }

  lemma AwaitedLonger(g: Graph, b: nat, rest: seq<nat>, a: nat)
    requires Awaited(g, rest, a) && Edge(g, b, rest[0]) && NotWritten(g[b].stmts, a, |g[b].stmts|)
    ensures Awaited(g, [b] + rest, a)
  {
    var path := [b] + rest;
    assert path[1..] == rest;
    forall i | 0 <= i < |path| - 1
      ensures Edge(g, path[i], path[i + 1]) && NotWritten(g[path[i]].stmts, a, |g[path[i]].stmts|)
    {
      if i > 0 {
        var j := i - 1;
        assert path[i] == rest[j] && path[i + 1] == rest[j + 1];
        assert Edge(g, rest[j], rest[j + 1]);
        assert NotWritten(g[rest[j]].stmts, a, |g[rest[j]].stmts|);
      }
    }
  }

  lemma AwaitedShorter(g: Graph, path: seq<nat>, a: nat)
    requires Awaited(g, path, a) && |path| > 1
    ensures Awaited(g, path[1..], a)
  {
    var rest := path[1..];
    forall i | 0 <= i < |rest| - 1
      ensures Edge(g, rest[i], rest[i + 1]) && NotWritten(g[rest[i]].stmts, a, |g[rest[i]].stmts|)
    {
      var j := i + 1;
      assert rest[i] == path[j] && rest[i + 1] == path[j + 1];
      assert Edge(g, path[j], path[j + 1]);
      assert NotWritten(g[path[j]].stmts, a, |g[path[j]].stmts|);
    }
  }

  /** And in use after b just when that is so of a block b leads to. */
  lemma OutUseExact(g: Graph, b: nat, a: nat)
    requires Acyclic(g) && b < |g|
    ensures a in OutUse(g, b) <==> exists path :: Awaited(g, path, a) && Edge(g, b, path[0])
  {
    assert Ranked(g, RankOf(g));
    if g[b].Br? {
      InUseExact(g, g[b].jt, a);
      InUseExact(g, g[b].jf, a);
    }
  }
}
