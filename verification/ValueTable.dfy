/**
 The value table as the optimizer keeps it: a growing array of nodes and a table of hash chains,
 newest node first. F, vstore, fold_op and opt_stmt update it in place.
 */
module ValueTable {
  import opened Machine
  import opened ValueNumbering

  const MODULUS: nat := 213

  /** Why opt_stmt stopped the compiler, if it did. */
  datatype Stop = Continue | Division | Shift

  function StopOf(rw: Rewrite): Stop {
    match rw case Rewritten(_, _, _) => Continue case DivideError => Division case ShiftUndefined => Shift
  }

  function Bucket(hash: Key -> nat, key: Key): (h: nat)
    ensures h < MODULUS
  {
    hash(key) % MODULUS
  }

  /** Chain h lists, newest first, exactly the numbers whose keys hash to h. */
  ghost predicate Chained(t: Table, chains: seq<seq<nat>>, hash: Key -> nat) {
    && |chains| == MODULUS
    && (forall h, k :: 0 <= h < MODULUS && 0 <= k < |chains[h]| ==> 0 < chains[h][k] <= |t|)
    && (forall i :: 0 <= i < |t| ==> i + 1 in chains[Bucket(hash, t[i])])
  }

  /** The const_val of every number that is a constant. */
  ghost predicate Mapped(t: Table, vmap: seq<Option<u32>>) {
    |vmap| == |t| + 1 && forall v :: 0 <= v <= |t| ==> vmap[v] == ConstOf(t, v)
  }

  lemma ChainedPush(t: Table, chains: seq<seq<nat>>, hash: Key -> nat, key: Key)
    requires Chained(t, chains, hash)
    ensures var h := Bucket(hash, key);
      Chained(t + [key], chains[h := [|t| + 1] + chains[h]], hash)
  {
    var h, t', n := Bucket(hash, key), t + [key], |t| + 1;
    var c' := chains[h := [n] + chains[h]];
    assert c'[h][0] == n;
    forall i | 0 <= i < |t'| ensures i + 1 in c'[Bucket(hash, t'[i])] {
      if i < |t| {
        assert t'[i] == t[i] && i + 1 in chains[Bucket(hash, t[i])];
        PushedKeeps(chains[h], n, i + 1);
      }
    }
    forall b, k | 0 <= b < MODULUS && 0 <= k < |c'[b]| ensures 0 < c'[b][k] <= |t'| {
      if b == h && k > 0 {
        assert c'[b][k] == chains[b][k - 1];
      }
    }
  }

  lemma PushedKeeps(s: seq<nat>, n: nat, x: nat)
    ensures x in s ==> x in [n] + s
  {
  }

  lemma MappedPush(t: Table, vmap: seq<Option<u32>>, key: Key)
    requires Mapped(t, vmap)
    ensures Mapped(t + [key], vmap + [if key.KImm? then Some(key.k) else None])
  {
  }

  class Values {
    const hash: Key -> nat
    var nodes: Table
    var chains: seq<seq<nat>>
    var vmap: seq<Option<u32>>

    ghost predicate Valid()
      reads this
    {
      WellFormed(nodes) && Chained(nodes, chains, hash) && Mapped(nodes, vmap)
    }

    /** init_val, for whatever hash function the table is used with. */
    constructor (hash: Key -> nat)
      ensures Valid() && nodes == [] && this.hash == hash
    {
      this.hash, nodes, chains, vmap := hash, [], seq(MODULUS, h => []), [None];
    }

    lemma ChainsBounded()
      requires Valid()
      ensures WellFormed(nodes) && Chained(nodes, chains, hash) && |chains| == MODULUS
      ensures forall key :: 0 <= Bucket(hash, key) < |chains|
      ensures forall h, k :: 0 <= h < |chains| && 0 <= k < |chains[h]| ==> 0 < chains[h][k] <= |nodes|
    {
    }

    /** The walk along one chain: the number of the key, or 0. */
    method Search(key: Key) returns (v: nat)
      requires Valid()
      ensures v == 0 ==> Intern(nodes, key) == (nodes + [key], |nodes| + 1)
      ensures v != 0 ==> Intern(nodes, key) == (nodes, v)
    {
      hide *;
      ChainsBounded();
      var h := Bucket(hash, key);
      for i := 0 to |chains[h]|
        invariant forall j :: 0 <= j < i ==> nodes[chains[h][j] - 1] != key
      {
        v := chains[h][i];
        if nodes[v - 1] == key {
          Unique(nodes, v - 1);
          return;
        }
      }
      NotInChain(nodes, chains, hash, key);
      v := 0;
    }

    method F(key: Key) returns (v: nat)
      requires Valid() && OperandsBelow(key, |nodes| + 1)
      modifies this
      ensures Valid()
      ensures (nodes, v) == Intern(old(nodes), key)
    {
      v := Search(key);
      if v == 0 {
        InternWellFormed(nodes, key);
        ChainedPush(nodes, chains, hash, key);
        MappedPush(nodes, vmap, key);
        var h := Bucket(hash, key);
        assert |chains| == MODULUS;
        hide *;
        v := |nodes| + 1;
        vmap := vmap + [if key.KImm? then Some(key.k) else None];
        nodes := nodes + [key];
        chains := chains[h := [v] + chains[h]];
      }
    }

    method VStore(s: Stmt, val: array<nat>, atom: nat, v: nat, alter: bool) returns (s': Stmt)
      requires val.Length == N_ATOMS && atom < N_ATOMS
      modifies val
      ensures Rewritten(nodes, val[..], s') == ValueNumbering.VStore(nodes, old(val[..]), s, atom, v, alter)
    {
      if alter && val[atom] == v {
        s' := Nop;
      } else {
        val[atom] := v;
        s' := s;
      }
    }

    /** Numbers key and stores the number in an atom with vstore. */
    method StoreKey(s: Stmt, val: array<nat>, atom: nat, key: Key, alter: bool) returns (s': Stmt)
      requires Valid() && val.Length == N_ATOMS && atom < N_ATOMS && OperandsBelow(key, |nodes| + 1)
      modifies this, val
      ensures Valid()
      ensures Rewritten(nodes, val[..], s') == VStoreKey(old(nodes), old(val[..]), s, atom, key, alter)
    {
      var v := F(key);
      s' := VStore(s, val, atom, v, alter);
    }

    /** Numbers key and makes it the accumulator's number. */
    method StoreA(s: Stmt, val: array<nat>, key: Key) returns (s': Stmt)
      requires Valid() && val.Length == N_ATOMS && OperandsBelow(key, |nodes| + 1)
      modifies this, val
      ensures Valid()
      ensures Rewritten(nodes, val[..], s') == SetA(old(nodes), old(val[..]), s, key)
    {
      var v := F(key);
      val[A_ATOM] := v;
      s' := s;
    }

    method FoldOp(val: array<nat>, op: AluOp, a: u32, b: u32) returns (s': Stmt, stop: Stop)
      requires Valid() && val.Length == N_ATOMS
      modifies this, val
      ensures Valid()
      ensures var rw := Fold(old(nodes), old(val[..]), op, a, b);
        stop == StopOf(rw) && (rw.Rewritten? ==> Rewritten(nodes, val[..], s') == rw)
      ensures |nodes| <= |old(nodes)| + 1
    {
      var c := Alu(op, a, b);
      if c.None? {
        s' := Nop;
        stop := if op.DIV? then Division else Shift;
        return;
      }
      stop := Continue;
      s' := StoreA(LdImm(c.value), val, KImm(c.value));
    }

    /** The cases of opt_stmt for loads and for the negation. */
    method OptLoad(s: Stmt, val: array<nat>, alter: bool) returns (s': Stmt)
      requires Valid() && val.Length == N_ATOMS && Within(nodes, val[..])
      requires s.LdAbs? || s.LdInd? || s.LdLen? || s.LdImm? || s.LdxImm? || s.LdxMsh? || s.Neg?
      modifies this, val
      ensures Valid()
      ensures Rewritten(nodes, val[..], s') == ValueNumbering.OptStmt(old(nodes), old(val[..]), s, alter)
    {
      match s {
        case LdAbs(sz, k) =>
          s' := StoreKey(s, val, A_ATOM, KAbs(sz, k), alter);
        case LdInd(sz, k) =>
          var x := vmap[val[X_ATOM]];
          if alter && x.Some? {
            s' := StoreKey(LdAbs(sz, Add32(k, x.value)), val, A_ATOM, KAbs(sz, Add32(k, x.value)), alter);
          } else {
            s' := StoreKey(s, val, A_ATOM, KInd(sz, k, val[X_ATOM]), alter);
          }
        case LdLen =>
          s' := StoreKey(s, val, A_ATOM, KLen, alter);
        case LdImm(k) =>
          s' := StoreKey(s, val, A_ATOM, KImm(k), alter);
        case LdxImm(k) =>
          s' := StoreKey(s, val, X_ATOM, KImm(k), alter);
        case LdxMsh(k) =>
          s' := StoreKey(s, val, X_ATOM, KMsh(k), alter);
        case Neg =>
          var a := vmap[val[A_ATOM]];
          if alter && a.Some? {
            s' := StoreA(LdImm(Neg32(a.value)), val, KImm(Neg32(a.value)));
          } else {
            s' := StoreA(s, val, KNeg(val[A_ATOM]));
          }
      }
    }

    /** The cases of opt_stmt that copy one atom to another. */
    method OptMove(s: Stmt, val: array<nat>, alter: bool) returns (s': Stmt)
      requires Valid() && val.Length == N_ATOMS && Within(nodes, val[..])
      requires s.Txa? || s.Tax? || s.LdMem? || s.LdxMem? || s.St? || s.Stx?
      modifies val
      ensures Rewritten(nodes, val[..], s') == ValueNumbering.OptStmt(nodes, old(val[..]), s, alter)
    {
      match s {
        case Txa =>
          s' := VStore(s, val, A_ATOM, val[X_ATOM], alter);
        case Tax =>
          s' := VStore(s, val, X_ATOM, val[A_ATOM], alter);
        case LdMem(c) =>
          var k := vmap[val[c]];
          s' := VStore(if alter && k.Some? then LdImm(k.value) else s, val, A_ATOM, val[c], alter);
        case LdxMem(c) =>
          var k := vmap[val[c]];
          s' := VStore(if alter && k.Some? then LdxImm(k.value) else s, val, X_ATOM, val[c], alter);
        case St(c) =>
          s' := VStore(s, val, c, val[A_ATOM], alter);
        case Stx(c) =>
          s' := VStore(s, val, c, val[X_ATOM], alter);
      }
    }

    /** opt_stmt: val is updated in place, the statement is returned. */
    method OptStmt(s: Stmt, val: array<nat>, alter: bool) returns (s': Stmt, stop: Stop)
      requires Valid() && val.Length == N_ATOMS && Within(nodes, val[..])
      modifies this, val
      ensures Valid()
      ensures var rw := ValueNumbering.OptStmt(old(nodes), old(val[..]), s, alter);
        stop == StopOf(rw) && (rw.Rewritten? ==> Rewritten(nodes, val[..], s') == rw)
      ensures |nodes| <= |old(nodes)| + 2
    {
      stop := Continue;
      s' := s;
      if s.AluK? {
        s', stop := OptAluK(s.op, s.k, val, alter);
      } else if s.AluX? {
        s', stop := OptAluX(s.op, val, alter);
      } else if s.Txa? || s.Tax? || s.LdMem? || s.LdxMem? || s.St? || s.Stx? {
        s' := OptMove(s, val, alter);
      } else if !s.Nop? {
        s' := OptLoad(s, val, alter);
      }
    }

    /** The cases of opt_stmt for an operation with a constant. */
    method OptAluK(op: AluOp, k: u32, val: array<nat>, alter: bool) returns (s': Stmt, stop: Stop)
      requires Valid() && val.Length == N_ATOMS && Within(nodes, val[..])
      modifies this, val
      ensures Valid()
      ensures var rw := ValueNumbering.OptAluK(old(nodes), old(val[..]), op, k, alter);
        stop == StopOf(rw) && (rw.Rewritten? ==> Rewritten(nodes, val[..], s') == rw)
      ensures |nodes| <= |old(nodes)| + 2
    {
      stop := Continue;
      if alter && k == 0 && (op.ADD? || op.LSH? || op.RSH? || op.OR?) {
        s' := Nop;
      } else if alter && k == 0 && (op.MUL? || op.AND?) {
        s' := StoreA(LdImm(k), val, KImm(k));
      } else {
        var a := vmap[val[A_ATOM]];
        var kn := F(KImm(k));
        if alter && a.Some? {
          s', stop := FoldOp(val, op, a.value, k);
        } else {
          s' := StoreA(AluK(op, k), val, KAluK(op, val[A_ATOM], kn));
        }
      }
    }

    /** The cases of opt_stmt for an operation with X. */
    method OptAluX(op: AluOp, val: array<nat>, alter: bool) returns (s': Stmt, stop: Stop)
      requires Valid() && val.Length == N_ATOMS && Within(nodes, val[..])
      modifies this, val
      ensures Valid()
      ensures var rw := ValueNumbering.OptAluX(old(nodes), old(val[..]), op, alter);
        stop == StopOf(rw) && (rw.Rewritten? ==> Rewritten(nodes, val[..], s') == rw)
      ensures |nodes| <= |old(nodes)| + 2
    {
      stop := Continue;
      var a, x := vmap[val[A_ATOM]], vmap[val[X_ATOM]];
      if alter && x.Some? {
        if a.Some? {
          s', stop := FoldOp(val, op, a.value, x.value);
        } else {
          var kn := F(KImm(x.value));
          s' := StoreA(AluK(op, x.value), val, KAluK(op, val[A_ATOM], kn));
        }
      } else if alter && a == Some(0) && (op.ADD? || op.OR?) {
        s' := VStore(Txa, val, A_ATOM, val[X_ATOM], alter);
      } else if alter && a == Some(0) && !op.SUB? {
        s' := StoreKey(LdImm(0), val, A_ATOM, KImm(0), alter);
      } else {
        s' := StoreA(AluX(op), val, KAluX(op, val[A_ATOM], val[X_ATOM]));
      }
    }
  }

  lemma Unique(t: Table, i: nat)
    requires WellFormed(t) && i < |t|
    ensures Intern(t, t[i]) == (t, i + 1)
  {
    assert t[i] in t;
  }

  /** A key no member of its chain has is not in the table. */
  lemma NotInChain(t: Table, chains: seq<seq<nat>>, hash: Key -> nat, key: Key)
    requires Chained(t, chains, hash)
    requires forall j :: 0 <= j < |chains[Bucket(hash, key)]| ==> t[chains[Bucket(hash, key)][j] - 1] != key
    ensures Intern(t, key) == (t + [key], |t| + 1)
  {
    forall k | 0 <= k < |t| ensures t[k] != key {
      assert k + 1 in chains[Bucket(hash, t[k])];
    }
  }
}
