/**
 Comparing packet bytes with constants. A condition means a three-valued function of the packet
 alone: true, false, or a fault.
 */
module Matching {
  import opened Machine
  import opened FlowGraph
  import opened Fragments
  import opened CodeGen
  import opened Containment
  import opened Liveness
  import opened BlockNumbering
  import MachineLaws

  datatype Tri = True | False | Faulty

  type Meaning = Packet -> Tri

  function OfBool(b: bool): Tri {
    if b then True else False
  }

  function TriOf(t: Truth): Tri {
    if t.Faulted? then Faulty else OfBool(t.holds)
  }

  /** Left to right: a fault or a false on the left decides. */
  function TriAnd(x: Tri, y: Tri): Tri {
    if x.True? then y else x
  }

  function TriOr(x: Tri, y: Tri): Tri {
    if x.False? then y else x
  }

  function TriNot(x: Tri): Tri {
    match x case True => False case False => True case Faulty => Faulty
  }

  function AndOf(f: Meaning, g: Meaning): Meaning { p => TriAnd(f(p), g(p)) }

  function OrOf(f: Meaning, g: Meaning): Meaning { p => TriOr(f(p), g(p)) }

  function NotOf(f: Meaning): Meaning { p => TriNot(f(p)) }

  /** Whatever the registers hold, the condition comes out as f says, and it leaves the scratch words alone. */
  ghost predicate Means(c: Cond, f: Meaning) {
    Scratchless(c) && forall r, p :: TriOf(Eval(c, r, p)) == f(p)
  }

  lemma AndMeans(c0: Cond, f0: Meaning, c1: Cond, f1: Meaning)
    requires Means(c0, f0) && Means(c1, f1)
    ensures Means(And(c0, c1), AndOf(f0, f1))
  {
    forall r, p ensures TriOf(Eval(And(c0, c1), r, p)) == AndOf(f0, f1)(p) {
      assert TriOf(Eval(c0, r, p)) == f0(p);
    }
  }

  lemma OrMeans(c0: Cond, f0: Meaning, c1: Cond, f1: Meaning)
    requires Means(c0, f0) && Means(c1, f1)
    ensures Means(Or(c0, c1), OrOf(f0, f1))
  {
    forall r, p ensures TriOf(Eval(Or(c0, c1), r, p)) == OrOf(f0, f1)(p) {
      assert TriOf(Eval(c0, r, p)) == f0(p);
    }
  }

  lemma NotMeans(c: Cond, f: Meaning)
    requires Means(c, f)
    ensures Means(Not(c), NotOf(f))
  {
    forall r, p ensures TriOf(Eval(Not(c), r, p)) == NotOf(f)(p) {
      assert TriOf(Eval(c, r, p)) == f(p);
    }
  }

  lemma SameMeaning(c: Cond, f: Meaning, g: Meaning)
    requires Means(c, f) && forall p :: f(p) == g(p)
    ensures Means(c, g)
  {
  }

  // ----- blocks under construction, besides those already there -----

  /** Two new blocks joined: nothing but the second is left of them. */
  lemma JoinedMap(m: map<nat, Cond>, b0: nat, c0: Cond, b1: nat, c1: Cond, c: Cond)
    requires b0 !in m && b1 !in m && b0 != b1
    ensures (m[b0 := c0][b1 := c1] - {b0, b1})[b1 := c] == m[b1 := c]
  {
  }

  lemma NegatedMap(m: map<nat, Cond>, b: nat, c0: Cond, c: Cond)
    requires b !in m
    ensures (m[b := c0] - {b, b})[b := c] == m[b := c]
  {
  }

  /** gen_and on the two newest blocks. */
  method Both(gen: Generator, b0: nat, b1: nat, ghost m: map<nat, Cond>, ghost c0: Cond, ghost c1: Cond)
    requires gen.Valid() && b0 !in m && b1 !in m && b0 != b1 && gen.Meaning() == m[b0 := c0][b1 := c1]
    modifies gen
    ensures gen.Valid() && gen.Meaning() == m[b1 := And(c0, c1)]
  {
    JoinedMap(m, b0, c0, b1, c1, And(c0, c1));
    hide *;
    gen.GenAnd(b0, b1);
  }

  /** gen_or on the two newest blocks. */
  method Any(gen: Generator, b0: nat, b1: nat, ghost m: map<nat, Cond>, ghost c0: Cond, ghost c1: Cond)
    requires gen.Valid() && b0 !in m && b1 !in m && b0 != b1 && gen.Meaning() == m[b0 := c0][b1 := c1]
    modifies gen
    ensures gen.Valid() && gen.Meaning() == m[b1 := Or(c0, c1)]
  {
    JoinedMap(m, b0, c0, b1, c1, Or(c0, c1));
    hide *;
    gen.GenOr(b0, b1);
  }

  // ----- one comparison -----

  lemma {:induction false} AllOnes(a: nat, n: nat)
    requires a < Pow2(n)
    ensures BitAnd(a, Pow2(n) - 1) == a
  {
    if a != 0 {
      AllOnes(a / 2, n - 1);
      assert (Pow2(n) - 1) / 2 == Pow2(n - 1) - 1;
    }
  }

  function NcmpTri(p: Packet, offset: u32, size: Size, mask: u32, jtype: JmpOp, reverse: bool, v: u32): Tri {
    var x := Load(p, offset, size);
    if x.None? then Faulty else OfBool(Machine.Compare(jtype, BitAnd(x.value, mask), v) != reverse)
  }

  function NcmpOf(offset: u32, size: Size, mask: u32, jtype: JmpOp, reverse: bool, v: u32): Meaning {
    p => NcmpTri(p, offset, size, mask, jtype, reverse, v)
  }

  lemma NcmpScratchless(offset: u32, size: Size, mask: u32, jtype: JmpOp, v: u32)
    ensures Scratchless(Prim([LdAbs(size, offset)] + (if mask != 0xffffffff then [AluK(AND, mask)] else []),
      JmpK(jtype, v)))
  {
    var load, and := LdAbs(size, offset), AluK(AND, mask);
    assert [load] + [] == [load] && [load] + [and] == [load, and];
    LiveBeforeOne(load, {A_ATOM});
    LiveBeforeTwo(load, and, {A_ATOM});
  }

  lemma NcmpMeans(offset: u32, size: Size, mask: u32, jtype: JmpOp, v: u32)
    ensures Means(Prim([LdAbs(size, offset)] + (if mask != 0xffffffff then [AluK(AND, mask)] else []), JmpK(jtype, v)),
                  NcmpOf(offset, size, mask, jtype, false, v))
  {
    var load, ss := LdAbs(size, offset), [LdAbs(size, offset)] + (if mask != 0xffffffff then [AluK(AND, mask)] else []);
    NcmpScratchless(offset, size, mask, jtype, v);
    forall r, p ensures TriOf(Eval(Prim(ss, JmpK(jtype, v)), r, p)) == NcmpOf(offset, size, mask, jtype, false, v)(p) {
      var x := Load(p, offset, size);
      if mask == 0xffffffff {
        assert ss == [load];
        RunOne(load, r, p);
        if x.Some? {
          Pow2Is32();
          AllOnes(x.value, 32);
        }
      } else {
        assert ss == [load, AluK(AND, mask)];
        RunTwo(load, AluK(AND, mask), r, p);
      }
    }
  }

  lemma NcmpReversed(c: Cond, offset: u32, size: Size, mask: u32, jtype: JmpOp, v: u32)
    requires Means(c, NcmpOf(offset, size, mask, jtype, false, v))
    ensures Means(Not(c), NcmpOf(offset, size, mask, jtype, true, v))
  {
    var f, g := NotOf(NcmpOf(offset, size, mask, jtype, false, v)), NcmpOf(offset, size, mask, jtype, true, v);
    NotMeans(c, NcmpOf(offset, size, mask, jtype, false, v));
    forall p ensures f(p) == g(p) {
      assert f(p) == TriNot(NcmpTri(p, offset, size, mask, jtype, false, v));
      assert g(p) == NcmpTri(p, offset, size, mask, jtype, true, v);
    }
    SameMeaning(Not(c), f, g);
  }

  /**
   gen_ncmp, for a field of the raw packet: its value under the mask is compared with v. The
   test is turned round only for the two orderings.
   */
  method GenNcmp(gen: Generator, offset: u32, size: Size, mask: u32, jtype: JmpOp, reverse: bool, v: u32)
    returns (b: nat, ghost c: Cond)
    requires gen.Valid()
    modifies gen
    ensures gen.Valid() && b !in old(gen.Meaning()) && gen.Meaning() == old(gen.Meaning())[b := c]
    ensures Means(c, NcmpOf(offset, size, mask, jtype, reverse && (jtype.JGT? || jtype.JGE?), v))
  {
    ghost var m := gen.Meaning();
    var s := [LdAbs(size, offset)];
    if mask != 0xffffffff {
      s := s + [AluK(AND, mask)];
    }
    NcmpMeans(offset, size, mask, jtype, v);
    assert s == [LdAbs(size, offset)] + (if mask != 0xffffffff then [AluK(AND, mask)] else []);
    c := Prim(s, JmpK(jtype, v));
    b := gen.NewBlock(s, JmpK(jtype, v));
    if reverse && (jtype.JGT? || jtype.JGE?) {
      NcmpReversed(c, offset, size, mask, jtype, v);
      NegatedMap(m, b, c, Not(c));
      gen.GenNot(b);
      c := Not(c);
    }
  }

  method GenCmp(gen: Generator, offset: u32, size: Size, v: u32) returns (b: nat, ghost c: Cond)
    requires gen.Valid()
    modifies gen
    ensures gen.Valid() && b !in old(gen.Meaning()) && gen.Meaning() == old(gen.Meaning())[b := c]
    ensures Means(c, NcmpOf(offset, size, 0xffffffff, JEQ, false, v))
  {
    b, c := GenNcmp(gen, offset, size, 0xffffffff, JEQ, false, v);
  }

  // ----- byte strings -----

  /** The bytes at offset are all in the packet and are those of v; a fault when they are not all there. */
  function BytesTri(p: Packet, offset: nat, v: seq<byte>): Tri {
    if offset + |v| > |p.data| then Faulty else OfBool(p.data[offset..offset + |v|] == v)
  }

  function BytesOf(offset: nat, v: seq<byte>): Meaning {
    p => BytesTri(p, offset, v)
  }

  lemma Digits(a0: byte, a1: byte, a2: byte, a3: byte, b0: byte, b1: byte, b2: byte, b3: byte)
    requires a0 * 16777216 + a1 * 65536 + a2 * 256 + a3 == b0 * 16777216 + b1 * 65536 + b2 * 256 + b3
    ensures a0 == b0 && a1 == b1 && a2 == b2 && a3 == b3
  {
    MachineLaws.WordDigits(a0, a1, a2, a3);
    MachineLaws.WordDigits(b0, b1, b2, b3);
  }

  lemma BigEndianInjective(s: seq<byte>, t: seq<byte>)
    requires |s| == |t| && (|s| == 1 || |s| == 2 || |s| == 4)
    ensures BigEndian(s) == BigEndian(t) <==> s == t
  {
    if BigEndian(s) == BigEndian(t) {
      if |s| == 4 {
        Digits(s[0], s[1], s[2], s[3], t[0], t[1], t[2], t[3]);
      } else if |s| == 2 {
        Digits(0, 0, s[0], s[1], 0, 0, t[0], t[1]);
      }
      assert s[0] == t[0];
    }
  }

  /** A chunk of 4, 2 or 1 bytes, tested as one word. */
  lemma ChunkMeans(c: Cond, offset: u32, size: Size, v: seq<byte>)
    requires |v| == Bytes(size) && Means(c, NcmpOf(offset, size, 0xffffffff, JEQ, false, BigEndian(v)))
    ensures Means(c, BytesOf(offset, v))
  {
    forall p ensures NcmpTri(p, offset, size, 0xffffffff, JEQ, false, BigEndian(v)) == BytesTri(p, offset, v) {
      var x := Load(p, offset, size);
      if x.Some? {
        Pow2Is32();
        AllOnes(x.value, 32);
        BigEndianInjective(p.data[offset..offset + |v|], v);
      }
    }
    SameMeaning(c, NcmpOf(offset, size, 0xffffffff, JEQ, false, BigEndian(v)), BytesOf(offset, v));
  }

  /** The later bytes first, then the ones before them: the whole string, and a fault just when it is not all there. */
  lemma ChunksMean(c0: Cond, c1: Cond, offset: nat, v: seq<byte>, n: nat)
    requires n <= |v| && Means(c0, BytesOf(offset + n, v[n..])) && Means(c1, BytesOf(offset, v[..n]))
    ensures Means(And(c0, c1), BytesOf(offset, v))
  {
    AndMeans(c0, BytesOf(offset + n, v[n..]), c1, BytesOf(offset, v[..n]));
    forall p ensures TriAnd(BytesTri(p, offset + n, v[n..]), BytesTri(p, offset, v[..n])) == BytesTri(p, offset, v) {
      if offset + |v| <= |p.data| {
        var d := p.data[offset..offset + |v|];
        assert d[..n] == p.data[offset..offset + n] && d[n..] == p.data[offset + n..offset + |v|];
        assert d == d[..n] + d[n..] && v == v[..n] + v[n..];
      }
    }
    SameMeaning(And(c0, c1), AndOf(BytesOf(offset + n, v[n..]), BytesOf(offset, v[..n])), BytesOf(offset, v));
  }

  /** The size of the piece that is tested first: the last 4 bytes, or 2, or the only one. */
  function Largest(n: nat): Size {
    if n >= 4 then W else if n >= 2 then H else B
  }

  /** The offset of that piece does not wrap around. */
  predicate Reaches(offset: u32, v: seq<byte>) {
    offset + |v| - Bytes(Largest(|v|)) < WORD
  }

  /** On packet q the condition is false, whatever the registers hold. */
  ghost predicate Misses(c: Cond, q: Packet) {
    forall r :: TriOf(Eval(c, r, q)) == False
  }

  /**
   The pieces of v from position at on have been tested. Where an offset has wrapped around, they
   are not tested where they should be: some packet too short to hold them is found different.
   */
  ghost predicate Tested(c: Cond, offset: u32, v: seq<byte>, at: nat)
    requires at <= |v|
  {
    Scratchless(c) &&
    if Reaches(offset, v) then Means(c, BytesOf(offset + at, v[at..]))
    else exists q: Packet :: |q.data| < offset + |v| && Misses(c, q)
  }

  /** A packet that ends with bytes other than those of v, at the offset of v. */
  lemma Different(c: Cond, w: u32, v: seq<byte>) returns (q: Packet)
    requires v != [] && Means(c, BytesOf(w, v))
    ensures |q.data| == w + |v| && Misses(c, q)
  {
    var first: byte := if v[0] == 0 then 1 else 0;
    var d: seq<byte> := seq(w, i => 0) + ([first] + v[1..]);
    q := Packet(d, 0);
    assert d[w..w + |v|][0] == first != v[0];
    assert d[w..w + |v|] != v;
    assert BytesOf(w, v)(q) == BytesTri(q, w, v) == False;
    forall r ensures TriOf(Eval(c, r, q)) == False {
      assert TriOf(Eval(c, r, q)) == BytesOf(w, v)(q);
    }
  }

  lemma FirstTested(c: Cond, offset: u32, v: seq<byte>, at: nat)
    requires v != []
    requires at <= |v| && at == |v| - Bytes(Largest(|v|))
    requires Means(c, BytesOf((offset + at) % 0x1_0000_0000, v[at..]))
    ensures Tested(c, offset, v, at)
  {
    var w: u32 := (offset + at) % 0x1_0000_0000;
    if Reaches(offset, v) {
      assert w == offset + at;
    } else {
      assert w < offset + at;
      var q := Different(c, w, v[at..]);
    }
  }

  lemma MoreTested(c0: Cond, c1: Cond, offset: u32, v: seq<byte>, at: nat, n: nat)
    requires at + n <= |v| && n > 0 && |v| - (at + n) >= Bytes(Largest(|v|)) && Tested(c0, offset, v, at + n)
    requires Means(c1, BytesOf((offset + at) % 0x1_0000_0000, v[at..at + n]))
    ensures Tested(And(c0, c1), offset, v, at)
  {
    if Reaches(offset, v) {
      assert (offset + at) % 0x1_0000_0000 == offset + at;
      MoreReached(c0, c1, offset + at, v, at, n);
    } else {
      var q: Packet :| |q.data| < offset + |v| && Misses(c0, q);
      MissesToo(c0, c1, q);
    }
    hide *;
  }

  lemma MoreReached(c0: Cond, c1: Cond, from: nat, v: seq<byte>, at: nat, n: nat)
    requires at + n <= |v| && Means(c0, BytesOf(from + n, v[at + n..])) && Means(c1, BytesOf(from, v[at..at + n]))
    ensures Means(And(c0, c1), BytesOf(from, v[at..]))
  {
    var whole := v[at..];
    assert whole[n..] == v[at + n..] && whole[..n] == v[at..at + n];
    hide Means;
    ChunksMean(c0, c1, from, whole, n);
  }

  /** A packet on which the first condition is false is one on which both are not true. */
  lemma MissesToo(c0: Cond, c1: Cond, q: Packet)
    requires Misses(c0, q)
    ensures Misses(And(c0, c1), q)
  {
    forall r ensures TriOf(Eval(And(c0, c1), r, q)) == False {
      assert TriOf(Eval(c0, r, q)) == False;
    }
  }

  lemma AllTested(c: Cond, offset: u32, v: seq<byte>)
    requires v != [] && Tested(c, offset, v, 0)
    ensures Means(c, BytesOf(offset, v)) <==> Reaches(offset, v)
  {
    assert v[0..] == v;
    if !Reaches(offset, v) {
      var q: Packet :| |q.data| < offset + |v| && Misses(c, q);
      var r: Regs := seq(N_ATOMS, i => 0);
      assert TriOf(Eval(c, r, q)) == False && BytesOf(offset, v)(q) == Faulty;
    }
  }

  /** One more chunk in front of what has been tested so far, if anything has. */
  method AddChunk(gen: Generator, offset: u32, size: Size, v: seq<byte>, at: nat, b0: Option<nat>,
          ghost m: map<nat, Cond>, ghost c0: Cond)
    returns (b: nat, ghost c: Cond)
    requires gen.Valid() && at + Bytes(size) <= |v|
    requires b0.None? ==> at + Bytes(size) == |v| && size == Largest(|v|) && gen.Meaning() == m
    requires b0.Some? ==> b0.value !in m && gen.Meaning() == m[b0.value := c0]
    requires b0.Some? ==> |v| - (at + Bytes(size)) >= Bytes(Largest(|v|)) && Tested(c0, offset, v, at + Bytes(size))
    modifies gen
    ensures gen.Valid() && b !in m && gen.Meaning() == m[b := c] && Tested(c, offset, v, at)
  {
    hide *;
    var n := Bytes(size);
    ChunkSize(size);
    var chunk := v[at..at + n];
    var where: u32 := (offset + at) % 0x1_0000_0000;
    b, c := GenCmp(gen, where, size, BigEndian(chunk));
    ChunkMeans(c, where, size, chunk);
    if b0.Some? {
      MoreTested(c0, c, offset, v, at, n);
      Both(gen, b0.value, b, m, c0, c);
      c := And(c0, c);
    } else {
      assert v[at..] == chunk;
      FirstTested(c, offset, v, at);
    }
  }

  lemma ChunkSize(size: Size)
    ensures Bytes(size) == 1 || Bytes(size) == 2 || Bytes(size) == 4
  {
  }

  /**
   gen_bcmp: words from the end, then a half word, then a byte, each and-ed behind the later ones.
   Nothing is generated for the empty string; the string is tested where it should be just when
   the offset of its last piece does not wrap around.
   */
  method GenBcmp(gen: Generator, offset: u32, v: seq<byte>) returns (b: Option<nat>, ghost c: Cond)
    requires gen.Valid()
    modifies gen
    ensures gen.Valid() && (b.None? <==> v == [])
    ensures b.None? ==> gen.Meaning() == old(gen.Meaning())
    ensures b.Some? ==> b.value !in old(gen.Meaning()) && gen.Meaning() == old(gen.Meaning())[b.value := c]
    ensures b.Some? ==>
      (Means(c, BytesOf(offset, v)) <==>
       offset + |v| < 0x1_0000_0000 + if |v| >= 4 then 4 else if |v| >= 2 then 2 else 1)
  {
    hide *;
    ghost var m := gen.Meaning();
    var size: nat := |v|;
    b := None;
    c := Prim([], JmpK(JEQ, 0));
    Sizes(|v|);
    while size >= 4
      invariant gen.Valid() && size <= |v|
      invariant b.None? ==> size == |v| && gen.Meaning() == m
      invariant b.Some? ==> b.value !in m && gen.Meaning() == m[b.value := c] && Tested(c, offset, v, size)
      invariant b.Some? ==> |v| - size >= Bytes(Largest(|v|))
    {
      var b1;
      b1, c := AddChunk(gen, offset, W, v, size - 4, b, m, c);
      b := Some(b1);
      size := size - 4;
    }
    while size >= 2
      invariant gen.Valid() && size <= |v| && size < 4
      invariant b.None? ==> size == |v| && gen.Meaning() == m
      invariant b.Some? ==> b.value !in m && gen.Meaning() == m[b.value := c] && Tested(c, offset, v, size)
      invariant b.Some? ==> |v| - size >= Bytes(Largest(|v|))
    {
      var b1;
      b1, c := AddChunk(gen, offset, H, v, size - 2, b, m, c);
      b := Some(b1);
      size := size - 2;
    }
    if size > 0 {
      var b1;
      b1, c := AddChunk(gen, offset, B, v, 0, b, m, c);
      b := Some(b1);
    }
    if b.Some? {
      AllTested(c, offset, v);
      ReachesIs(offset, v);
    }
  }

  lemma ReachesIs(offset: u32, v: seq<byte>)
    ensures Reaches(offset, v) <==>
            offset + |v| < 0x1_0000_0000 + if |v| >= 4 then 4 else if |v| >= 2 then 2 else 1
  {
  }

  lemma Sizes(n: nat)
    ensures Bytes(W) == 4 && Bytes(H) == 2 && Bytes(B) == 1
    ensures Largest(n) == if n >= 4 then W else if n >= 2 then H else B
  {
  }
}
