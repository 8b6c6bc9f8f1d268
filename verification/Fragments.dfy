/**
 Short-circuit code generation. A condition becomes blocks whose unresolved true and false
 exits are chained through the very jt/jf fields they will later fill; the sense bit of a
 block says which of its two fields is the link.

 The blocks live in one arena, as newchunk hands them out; a block is named by its position
 there, so two fields holding the same name alias the same block.
 */
module Fragments {
  import opened Machine
  import opened FlowGraph

  // ----- conditions and their meaning -----

  datatype Cond =
    | Prim(stmts: seq<Stmt>, test: Test)
    | And(l: Cond, r: Cond)
    | Or(l: Cond, r: Cond)
    | Not(c: Cond)

  /** The outcome of evaluating a condition: a truth value and the registers then, or a fault. */
  datatype Truth = Decided(holds: bool, regs: Regs) | Faulted

  /** Left to right, short-circuiting, with a fault ending everything. */
  function Eval(e: Cond, r: Regs, p: Packet): Truth {
    match e
    case Prim(ss, t) =>
      var m := RunStmts(ss, r, p);
      if m.None? then Faulted else Decided(Taken(t, m.value), m.value)
    case And(a, b) =>
      var x := Eval(a, r, p);
      if x.Decided? && x.holds then Eval(b, x.regs, p) else x
    case Or(a, b) =>
      var x := Eval(a, r, p);
      if x.Decided? && !x.holds then Eval(b, x.regs, p) else x
    case Not(a) =>
      var x := Eval(a, r, p);
      if x.Decided? then Decided(!x.holds, x.regs) else x
  }

  // ----- blocks under construction -----

  datatype Ptr = Null | To(b: nat)

  datatype Exit = Jmp(test: Test) | Done(rv: RetVal)

  datatype Slot = Slot(stmts: seq<Stmt>, exit: Exit, sense: bool, head: nat, jt: Ptr, jf: Ptr)

  type Arena = seq<Slot>

  /** The field picked by a sense: jt when it is clear, jf when it is set. */
  function Field(s: Slot, sense: bool): Ptr {
    if !sense then s.jt else s.jf
  }

  function SetField(s: Slot, sense: bool, q: Ptr): (r: Slot)
    ensures Field(r, sense) == q && Field(r, !sense) == Field(s, !sense)
  {
    if !sense then s.(jt := q) else s.(jf := q)
  }

  /** list is the chain of blocks found by following, from list[0], the fields picked by sense. */
  ghost predicate IsList(bs: Arena, list: seq<nat>) {
    && (forall k :: 0 <= k < |list| ==> list[k] < |bs|)
    && (forall k :: 0 <= k < |list| ==>
          Field(bs[list[k]], bs[list[k]].sense) == if k + 1 < |list| then To(list[k + 1]) else Null)
  }

  ghost predicate Distinct(s: seq<nat>) {
    forall j, k :: 0 <= j < k < |s| ==> s[j] != s[k]
  }

  ghost function Patched(bs: Arena, list: seq<nat>, target: nat): (r: Arena)
    ensures |r| == |bs| && forall i :: 0 <= i < |bs| ==> r[i].head == bs[i].head
  {
    seq(|bs|, i requires 0 <= i < |bs| => if i in list then SetField(bs[i], bs[i].sense, To(target)) else bs[i])
  }

  function Flipped(bs: Arena, b: nat): (r: Arena)
    requires b < |bs|
    ensures |r| == |bs|
  {
    bs[b := bs[b].(sense := !bs[b].sense)]
  }

  /**
   What is known of a piece of code under construction: ids are its blocks in an order in which
   every resolved edge goes forward; the last one is the top block, the first one the head;
   ts and fs are the blocks whose true and false exits are open, top first; e is its meaning.
   */
  datatype Frag = Frag(ids: seq<nat>, ts: seq<nat>, fs: seq<nat>, e: Cond)

  function Top(f: Frag): nat
    requires f.ids != []
  {
    f.ids[|f.ids| - 1]
  }

  datatype Status = OpenTrue | OpenFalse | Resolved

  /** The top block is on both lists, with its two fields; any other open block is on one. */
  function StatusOf(bs: Arena, f: Frag, i: nat, side: bool): Status
    requires f.ids != [] && i < |bs|
  {
    if i in f.ts && side == bs[i].sense then OpenTrue
    else if i in f.fs && side == (if i == Top(f) then !bs[i].sense else bs[i].sense) then OpenFalse
    else Resolved
  }

  ghost predicate Forward(bs: Arena, f: Frag, k: nat, side: bool)
    requires k < |f.ids| && f.ids[k] < |bs|
  {
    exists m :: k < m < |f.ids| && Field(bs[f.ids[k]], side) == To(f.ids[m])
  }

  ghost predicate Shaped(bs: Arena, f: Frag) {
    Named(bs, f) && Chained(bs, f) && EdgesForward(bs, f)
  }

  ghost predicate Named(bs: Arena, f: Frag) {
    && f.ids != [] && Distinct(f.ids)
    && (forall k :: 0 <= k < |f.ids| ==> f.ids[k] < |bs| && bs[f.ids[k]].exit.Jmp?)
    && bs[Top(f)].head == f.ids[0]
  }

  /** Both exit lists start at the top block and are well linked; they share nothing else. */
  ghost predicate Chained(bs: Arena, f: Frag)
    requires Named(bs, f)
  {
    && f.ts != [] && f.ts[0] == Top(f) && Distinct(f.ts)
    && f.fs != [] && f.fs[0] == Top(f) && Distinct(f.fs)
    && (forall i :: i in f.ts ==> i in f.ids)
    && (forall i :: i in f.fs ==> i in f.ids)
    && (forall i :: i in f.ts && i in f.fs ==> i == Top(f))
    && IsList(bs, f.ts)
    && IsList(Flipped(bs, Top(f)), f.fs)
  }

  ghost predicate EdgesForward(bs: Arena, f: Frag)
    requires Named(bs, f)
  {
    forall k, side :: 0 <= k < |f.ids| && StatusOf(bs, f, f.ids[k], side).Resolved? ==> Forward(bs, f, k, side)
  }

  /** The block an exit leads to once open true exits go to t and open false exits to n. */
  function Target(bs: Arena, f: Frag, i: nat, side: bool, t: nat, n: nat): nat
    requires f.ids != [] && i < |bs|
  {
    match StatusOf(bs, f, i, side)
    case OpenTrue => t
    case OpenFalse => n
    case Resolved => if Field(bs[i], side).To? then Field(bs[i], side).b else t
  }

  ghost predicate Completes(bs: Arena, f: Frag, g: Graph, t: nat, n: nat)
    requires f.ids != []
  {
    && Acyclic(g) && t < |g| && n < |g|
    && forall k :: 0 <= k < |f.ids| ==>
         f.ids[k] < |g| && f.ids[k] < |bs| && CompletesAt(bs, f, f.ids[k], g, t, n)
  }

  /** Block i of g is slot i with its open exits filled. */
  ghost predicate CompletesAt(bs: Arena, f: Frag, i: nat, g: Graph, t: nat, n: nat)
    requires f.ids != [] && i < |bs| && i < |g|
  {
    && bs[i].exit.Jmp?
    && g[i] == Br(bs[i].stmts, bs[i].exit.test, Target(bs, f, i, false, t, n), Target(bs, f, i, true, t, n))
  }

  /** What running g from block b does, if the condition decides between t and n. */
  ghost predicate Decides(g: Graph, b: nat, e: Cond, t: nat, n: nat)
    requires Acyclic(g) && b < |g| && t < |g| && n < |g|
  {
    forall r, p :: Run(g, b, r, p) ==
      var x := Eval(e, r, p);
      if x.Faulted? then Fault else Run(g, if x.holds then t else n, x.regs, p)
  }

  /** However the open exits are later filled, running from the head evaluates the condition. */
  ghost predicate Implements(bs: Arena, f: Frag)
    requires f.ids != []
  {
    forall g: Graph, t, n :: Completes(bs, f, g, t, n) ==> Decides(g, f.ids[0], f.e, t, n)
  }

  ghost predicate Good(bs: Arena, f: Frag) {
    Shaped(bs, f) && Implements(bs, f)
  }

  ghost predicate Disjoint(f0: Frag, f1: Frag) {
    forall i :: i in f0.ids ==> i !in f1.ids
  }

  // ----- conjunction -----

  ghost function Joined(f0: Frag, f1: Frag): Frag {
    Frag(f0.ids + f1.ids, f1.ts, f1.fs + f0.fs, And(f0.e, f1.e))
  }

  /** The arena after gen_and: f0's true exits meet f1's head, f0's false list hangs off f1's. */
  ghost function AndArena(bs: Arena, f0: Frag, f1: Frag): Arena
    requires Shaped(bs, f0) && Shaped(bs, f1)
  {
    var b0, b1, l := Top(f0), Top(f1), f1.fs[|f1.fs| - 1];
    var s1 := Flipped(Flipped(Patched(bs, f0.ts, f1.ids[0]), b0), b1);
    var s2 := Flipped(s1[l := SetField(s1[l], s1[l].sense, To(b0))], b1);
    s2[b1 := s2[b1].(head := f0.ids[0])]
  }

  lemma AndSlots(bs: Arena, f0: Frag, f1: Frag, i: nat)
    requires Shaped(bs, f0) && Shaped(bs, f1) && Disjoint(f0, f1) && i < |bs|
    ensures var r := AndArena(bs, f0, f1);
      && |r| == |bs|
      && r[i].stmts == bs[i].stmts && r[i].exit == bs[i].exit
      && r[i].head == (if i == Top(f1) then f0.ids[0] else bs[i].head)
      && r[i].sense == (if i == Top(f0) then !bs[i].sense else bs[i].sense)
      && forall side :: Field(r[i], side) ==
           if i in f0.ts && side == bs[i].sense then To(f1.ids[0])
           else if i == f1.fs[|f1.fs| - 1] && side == (if i == Top(f1) then !bs[i].sense else bs[i].sense)
           then To(Top(f0))
           else Field(bs[i], side)
  {
  }

  lemma ListLink(bs: Arena, list: seq<nat>, k: nat)
    requires IsList(bs, list) && k < |list|
    ensures list[k] < |bs|
    ensures Field(bs[list[k]], bs[list[k]].sense) == if k + 1 < |list| then To(list[k + 1]) else Null
  {
  }

  lemma AndTrueLink(bs: Arena, f0: Frag, f1: Frag, k: nat)
    requires Shaped(bs, f0) && Shaped(bs, f1) && Disjoint(f0, f1) && k < |f1.ts|
    ensures var r := AndArena(bs, f0, f1);
      f1.ts[k] < |r| &&
      Field(r[f1.ts[k]], r[f1.ts[k]].sense) == if k + 1 < |f1.ts| then To(f1.ts[k + 1]) else Null
  {
    var i := f1.ts[k];
    assert i in f1.ts && i in f1.ids && f1.fs[|f1.fs| - 1] in f1.fs;
    ListLink(bs, f1.ts, k);
    AndSlots(bs, f0, f1, i);
  }

  /** The joined false list: first f1's, its last link now the top block of f0, then f0's. */
  lemma AndFalseLink(bs: Arena, f0: Frag, f1: Frag, k: nat)
    requires Shaped(bs, f0) && Shaped(bs, f1) && Disjoint(f0, f1) && k < |f1.fs|
    ensures var r := Flipped(AndArena(bs, f0, f1), Top(f1));
      f1.fs[k] < |r| &&
      Field(r[f1.fs[k]], r[f1.fs[k]].sense) == To(if k + 1 < |f1.fs| then f1.fs[k + 1] else Top(f0))
  {
    var i := f1.fs[k];
    assert i in f1.fs && i in f1.ids;
    ListLink(Flipped(bs, Top(f1)), f1.fs, k);
    AndSlots(bs, f0, f1, i);
  }

  lemma AndFalseTail(bs: Arena, f0: Frag, f1: Frag, k: nat)
    requires Shaped(bs, f0) && Shaped(bs, f1) && Disjoint(f0, f1) && k < |f0.fs|
    ensures var r := Flipped(AndArena(bs, f0, f1), Top(f1));
      f0.fs[k] < |r| &&
      Field(r[f0.fs[k]], r[f0.fs[k]].sense) == if k + 1 < |f0.fs| then To(f0.fs[k + 1]) else Null
  {
    var i := f0.fs[k];
    assert i in f0.fs && i in f0.ids && f1.fs[|f1.fs| - 1] in f1.fs;
    ListLink(Flipped(bs, Top(f0)), f0.fs, k);
    AndSlots(bs, f0, f1, i);
  }

  lemma AndLists(bs: Arena, f0: Frag, f1: Frag)
    requires Shaped(bs, f0) && Shaped(bs, f1) && Disjoint(f0, f1)
    ensures IsList(AndArena(bs, f0, f1), f1.ts)
    ensures IsList(Flipped(AndArena(bs, f0, f1), Top(f1)), f1.fs + f0.fs)
  {
    forall k | 0 <= k < |f1.ts| { AndTrueLink(bs, f0, f1, k); }
    var fs := f1.fs + f0.fs;
    var r := Flipped(AndArena(bs, f0, f1), Top(f1));
    forall k | 0 <= k < |fs|
      ensures fs[k] < |r| && Field(r[fs[k]], r[fs[k]].sense) == if k + 1 < |fs| then To(fs[k + 1]) else Null
    {
      if k < |f1.fs| {
        AndFalseLink(bs, f0, f1, k);
      } else {
        assert fs[k] == f0.fs[k - |f1.fs|];
        AndFalseTail(bs, f0, f1, k - |f1.fs|);
      }
    }
    assert IsList(r, fs);
  }

  lemma AndStatus(bs: Arena, f0: Frag, f1: Frag, i: nat, side: bool)
    requires Shaped(bs, f0) && Shaped(bs, f1) && Disjoint(f0, f1)
    requires i in f0.ids || i in f1.ids
    ensures i < |bs|
    ensures StatusOf(AndArena(bs, f0, f1), Joined(f0, f1), i, side) ==
            if i in f1.ids then StatusOf(bs, f1, i, side)
            else if StatusOf(bs, f0, i, side).OpenTrue? then Resolved
            else StatusOf(bs, f0, i, side)
    ensures i in f0.ids && StatusOf(bs, f0, i, side).OpenTrue? ==>
            Field(AndArena(bs, f0, f1)[i], side) == To(f1.ids[0])
    ensures (if i in f1.ids then StatusOf(bs, f1, i, side) else StatusOf(bs, f0, i, side)).Resolved? ==>
            Field(AndArena(bs, f0, f1)[i], side) == Field(bs[i], side)
  {
    AndSlots(bs, f0, f1, i);
    assert Top(Joined(f0, f1)) == Top(f1);
    assert i in Joined(f0, f1).fs <==> i in f0.fs || i in f1.fs;
    assert f1.fs[|f1.fs| - 1] in f1.fs;
  }

  lemma AndForward(bs: Arena, f0: Frag, f1: Frag, k: nat, side: bool)
    requires Shaped(bs, f0) && Shaped(bs, f1) && Disjoint(f0, f1) && k < |f0.ids| + |f1.ids|
    requires (f0.ids + f1.ids)[k] < |bs|
    requires StatusOf(AndArena(bs, f0, f1), Joined(f0, f1), (f0.ids + f1.ids)[k], side).Resolved?
    ensures Forward(AndArena(bs, f0, f1), Joined(f0, f1), k, side)
  {
    hide *;
    ShapedBasics(bs, f0);
    ShapedBasics(bs, f1);
    JoinedIds(f0, f1);
    var r, f := AndArena(bs, f0, f1), Joined(f0, f1);
    var i := f.ids[k];
    AndStatus(bs, f0, f1, i, side);
    AndSize(bs, f0, f1);
    if k < |f0.ids| {
      ApartFrom(f0, f1, i);
      if StatusOf(bs, f0, i, side).OpenTrue? {
        ForwardIs(r, f, k, side, |f0.ids|);
      } else {
        var m := ForwardTo(bs, f0, k, side);
        ForwardIs(r, f, k, side, m);
      }
    } else {
      var m := ForwardTo(bs, f1, k - |f0.ids|, side);
      ForwardIs(r, f, k, side, m + |f0.ids|);
    }
  }

  lemma AndSize(bs: Arena, f0: Frag, f1: Frag)
    requires Shaped(bs, f0) && Shaped(bs, f1) && Disjoint(f0, f1)
    ensures |AndArena(bs, f0, f1)| == |bs|
  {
  }

  lemma ForwardIs(bs: Arena, f: Frag, k: nat, side: bool, m: nat)
    requires k < m < |f.ids| && f.ids[k] < |bs| && Field(bs[f.ids[k]], side) == To(f.ids[m])
    ensures Forward(bs, f, k, side)
  {
  }

  lemma ForwardTo(bs: Arena, f: Frag, k: nat, side: bool) returns (m: nat)
    requires Shaped(bs, f) && k < |f.ids| && f.ids[k] < |bs| && StatusOf(bs, f, f.ids[k], side).Resolved?
    ensures k < m < |f.ids| && Field(bs[f.ids[k]], side) == To(f.ids[m])
  {
    assert Forward(bs, f, k, side);
    m :| k < m < |f.ids| && Field(bs[f.ids[k]], side) == To(f.ids[m]);
  }

  lemma DistinctAppend(s: seq<nat>, t: seq<nat>)
    requires Distinct(s) && Distinct(t) && forall i :: i in s ==> i !in t
    ensures Distinct(s + t)
  {
    forall j, k | 0 <= j < k < |s + t| ensures (s + t)[j] != (s + t)[k] {
      assert j < |s| ==> (s + t)[j] in s;
      assert k >= |s| ==> (s + t)[k] in t;
    }
  }

  lemma AndShaped(bs: Arena, f0: Frag, f1: Frag)
    requires Shaped(bs, f0) && Shaped(bs, f1) && Disjoint(f0, f1)
    ensures Shaped(AndArena(bs, f0, f1), Joined(f0, f1))
  {
    var r, f := AndArena(bs, f0, f1), Joined(f0, f1);
    assert Top(f) == Top(f1);
    assert Named(r, f) by {
      DistinctAppend(f0.ids, f1.ids);
      AndSlots(bs, f0, f1, Top(f));
      forall k | 0 <= k < |f.ids| ensures f.ids[k] < |r| && r[f.ids[k]].exit.Jmp? {
        AndSlots(bs, f0, f1, f.ids[k]);
      }
    }
    assert Chained(r, f) by {
      AndLists(bs, f0, f1);
      DistinctAppend(f1.fs, f0.fs);
      assert f.fs[0] == f1.fs[0];
    }
    forall k, side | 0 <= k < |f.ids| && StatusOf(r, f, f.ids[k], side).Resolved?
      ensures Forward(r, f, k, side)
    {
      AndForward(bs, f0, f1, k, side);
    }
  }

  /** A resolved exit leads where its field points. */
  lemma ResolvedTarget(bs: Arena, f: Frag, i: nat, side: bool)
    requires Shaped(bs, f) && i in f.ids && StatusOf(bs, f, i, side).Resolved?
    ensures Field(bs[i], side).To?
  {
    var k :| 0 <= k < |f.ids| && f.ids[k] == i;
    assert Forward(bs, f, k, side);
  }

  lemma AndTarget(bs: Arena, f0: Frag, f1: Frag, i: nat, side: bool, t: nat, n: nat)
    requires Shaped(bs, f0) && Shaped(bs, f1) && Disjoint(f0, f1)
    requires i in f0.ids || i in f1.ids
    ensures i < |bs|
    ensures Target(AndArena(bs, f0, f1), Joined(f0, f1), i, side, t, n) ==
            if i in f1.ids then Target(bs, f1, i, side, t, n) else Target(bs, f0, i, side, f1.ids[0], n)
  {
    AndStatus(bs, f0, f1, i, side);
    if i in f0.ids && StatusOf(bs, f0, i, side).Resolved? {
      ResolvedTarget(bs, f0, i, side);
    }
  }

  lemma CompletesIs(bs: Arena, f: Frag, i: nat, g: Graph, t: nat, n: nat)
    requires f.ids != [] && i < |bs| && i < |g| && bs[i].exit.Jmp?
    requires g[i] == Br(bs[i].stmts, bs[i].exit.test, Target(bs, f, i, false, t, n), Target(bs, f, i, true, t, n))
    ensures CompletesAt(bs, f, i, g, t, n)
  {
  }

  lemma AllComplete(bs: Arena, f: Frag, g: Graph, t: nat, n: nat)
    requires f.ids != [] && Acyclic(g) && t < |g| && n < |g|
    requires forall k :: 0 <= k < |f.ids| ==> f.ids[k] < |bs| && f.ids[k] < |g| && CompletesAt(bs, f, f.ids[k], g, t, n)
    ensures Completes(bs, f, g, t, n)
  {
  }

  lemma CompletesHas(bs: Arena, f: Frag, g: Graph, t: nat, n: nat, i: nat)
    requires f.ids != [] && Completes(bs, f, g, t, n) && i in f.ids
    ensures Acyclic(g) && t < |g| && n < |g| && i < |g| && i < |bs| && bs[i].exit.Jmp?
    ensures g[i] == Br(bs[i].stmts, bs[i].exit.test, Target(bs, f, i, false, t, n), Target(bs, f, i, true, t, n))
  {
    var k :| 0 <= k < |f.ids| && f.ids[k] == i;
    assert CompletesAt(bs, f, f.ids[k], g, t, n);
  }

  lemma JoinedIds(f0: Frag, f1: Frag)
    ensures Joined(f0, f1).ids == f0.ids + f1.ids
    ensures forall i :: i in Joined(f0, f1).ids <==> i in f0.ids || i in f1.ids
  {
  }

  /** A block of the completed conjunction is the completed block of the part it came from. */
  lemma AndPartAt(bs: Arena, f0: Frag, f1: Frag, g: Graph, t: nat, n: nat, i: nat)
    requires Shaped(bs, f0) && Shaped(bs, f1) && Disjoint(f0, f1)
    requires Joined(f0, f1).ids != [] && Completes(AndArena(bs, f0, f1), Joined(f0, f1), g, t, n)
    requires f0.ids != [] && f1.ids != [] && (i in f0.ids || i in f1.ids)
    ensures i < |bs| && i < |g|
    ensures if i in f1.ids then CompletesAt(bs, f1, i, g, t, n) else CompletesAt(bs, f0, i, g, f1.ids[0], n)
  {
    hide *;
    JoinedIds(f0, f1);
    CompletesHas(AndArena(bs, f0, f1), Joined(f0, f1), g, t, n, i);
    AndTarget(bs, f0, f1, i, false, t, n);
    AndTarget(bs, f0, f1, i, true, t, n);
    AndSlots(bs, f0, f1, i);
    if i in f1.ids {
      CompletesIs(bs, f1, i, g, t, n);
    } else {
      CompletesIs(bs, f0, i, g, f1.ids[0], n);
    }
  }

  /** A graph that completes the conjunction completes both parts, the first with true exits to the second. */
  lemma AndParts(bs: Arena, f0: Frag, f1: Frag, g: Graph, t: nat, n: nat)
    requires Shaped(bs, f0) && Shaped(bs, f1) && Disjoint(f0, f1) && f1.ids != []
    requires Joined(f0, f1).ids != [] && Completes(AndArena(bs, f0, f1), Joined(f0, f1), g, t, n)
    ensures f1.ids[0] < |g| && Completes(bs, f0, g, f1.ids[0], n) && Completes(bs, f1, g, t, n)
  {
    hide *;
    ShapedBasics(bs, f0);
    ShapedBasics(bs, f1);
    JoinedIds(f0, f1);
    CompletesHas(AndArena(bs, f0, f1), Joined(f0, f1), g, t, n, f1.ids[0]);
    forall k | 0 <= k < |f1.ids|
      ensures f1.ids[k] < |bs| && f1.ids[k] < |g| && CompletesAt(bs, f1, f1.ids[k], g, t, n)
    {
      AndPartAt(bs, f0, f1, g, t, n, f1.ids[k]);
    }
    forall k | 0 <= k < |f0.ids|
      ensures f0.ids[k] < |bs| && f0.ids[k] < |g| && CompletesAt(bs, f0, f0.ids[k], g, f1.ids[0], n)
    {
      ApartFrom(f0, f1, f0.ids[k]);
      AndPartAt(bs, f0, f1, g, t, n, f0.ids[k]);
    }
    AllComplete(bs, f0, g, f1.ids[0], n);
    AllComplete(bs, f1, g, t, n);
  }

  lemma ApartFrom(f0: Frag, f1: Frag, i: nat)
    requires Disjoint(f0, f1) && i in f0.ids
    ensures i !in f1.ids
  {
  }

  lemma AndDecides(g: Graph, h0: nat, e0: Cond, h1: nat, e1: Cond, t: nat, n: nat)
    requires Acyclic(g) && h0 < |g| && h1 < |g| && t < |g| && n < |g|
    requires Decides(g, h0, e0, h1, n) && Decides(g, h1, e1, t, n)
    ensures Decides(g, h0, And(e0, e1), t, n)
  {
  }

  lemma AndGood(bs: Arena, f0: Frag, f1: Frag)
    requires Good(bs, f0) && Good(bs, f1) && Disjoint(f0, f1)
    ensures Good(AndArena(bs, f0, f1), Joined(f0, f1))
  {
    AndShaped(bs, f0, f1);
    forall g: Graph, t, n | Completes(AndArena(bs, f0, f1), Joined(f0, f1), g, t, n)
      ensures Decides(g, Joined(f0, f1).ids[0], And(f0.e, f1.e), t, n)
    {
      AndParts(bs, f0, f1, g, t, n);
      AndDecides(g, f0.ids[0], f0.e, f1.ids[0], f1.e, t, n);
    }
  }

  /** When gen_and merges, f1's false list is still the one it had. */
  lemma AndMergeList(bs: Arena, f0: Frag, f1: Frag)
    requires Shaped(bs, f0) && Shaped(bs, f1) && Disjoint(f0, f1)
    ensures IsList(Flipped(Flipped(Patched(bs, f0.ts, f1.ids[0]), Top(f0)), Top(f1)), f1.fs)
  {
    forall k | 0 <= k < |f1.fs| ensures f1.fs[k] in f1.ids {
      assert f1.fs[k] in f1.fs;
    }
    assert Top(f0) in f0.ids;
    ListFrame(Flipped(bs, Top(f1)), Flipped(Flipped(Patched(bs, f0.ts, f1.ids[0]), Top(f0)), Top(f1)), f1.fs);
  }

  /** gen_and touches no block but those of its two operands. */
  lemma AndFrame(bs: Arena, f0: Frag, f1: Frag)
    requires Shaped(bs, f0) && Shaped(bs, f1) && Disjoint(f0, f1)
    ensures var r := AndArena(bs, f0, f1);
      && |r| == |bs|
      && forall i: nat :: i < |bs| && i !in f0.ids && i !in f1.ids ==> r[i] == bs[i]
  {
    assert Top(f0) in f0.ids && Top(f1) in f1.ids && f1.fs[|f1.fs| - 1] in f1.fs;
  }

  // ----- negation and disjunction -----

  ghost function Negated(f: Frag): Frag {
    Frag(f.ids, f.fs, f.ts, Not(f.e))
  }

  lemma NotStatus(bs: Arena, f: Frag, i: nat, side: bool)
    requires Shaped(bs, f) && i in f.ids
    ensures StatusOf(Flipped(bs, Top(f)), Negated(f), i, side) ==
        match StatusOf(bs, f, i, side)
          case OpenTrue => OpenFalse case OpenFalse => OpenTrue case Resolved => Resolved
  {
  }

  lemma NotGood(bs: Arena, f: Frag)
    requires Good(bs, f)
    ensures Good(Flipped(bs, Top(f)), Negated(f))
  {
    var r, f' := Flipped(bs, Top(f)), Negated(f);
    assert Flipped(r, Top(f)) == bs;
    forall k, side | 0 <= k < |f'.ids| && StatusOf(r, f', f'.ids[k], side).Resolved?
      ensures Forward(r, f', k, side)
    {
      NotStatus(bs, f, f.ids[k], side);
      assert Forward(bs, f, k, side);
    }
    forall g: Graph, t, n | Completes(r, f', g, t, n)
      ensures Decides(g, f'.ids[0], f'.e, t, n)
    {
      forall k | 0 <= k < |f.ids| ensures CompletesAt(bs, f, f.ids[k], g, n, t) {
        NotTarget(bs, f, f.ids[k], false, n, t);
        NotTarget(bs, f, f.ids[k], true, n, t);
        assert CompletesAt(r, f', f'.ids[k], g, t, n);
      }
      assert Completes(bs, f, g, n, t);
      NotDecides(g, f.ids[0], f.e, n, t);
    }
  }

  lemma NotTarget(bs: Arena, f: Frag, i: nat, side: bool, t: nat, n: nat)
    requires Shaped(bs, f) && i in f.ids
    ensures Target(Flipped(bs, Top(f)), Negated(f), i, side, n, t) == Target(bs, f, i, side, t, n)
  {
    NotStatus(bs, f, i, side);
    if StatusOf(bs, f, i, side).Resolved? {
      ResolvedTarget(bs, f, i, side);
    }
  }

  lemma NotDecides(g: Graph, h: nat, e: Cond, t: nat, n: nat)
    requires Acyclic(g) && h < |g| && t < |g| && n < |g|
    requires Decides(g, h, e, t, n)
    ensures Decides(g, h, Not(e), n, t)
  {
  }

  ghost function Either(f0: Frag, f1: Frag): Frag {
    Frag(f0.ids + f1.ids, f1.ts + f0.ts, f1.fs, Or(f0.e, f1.e))
  }

  /** The arena after gen_or: f0's false exits meet f1's head, f0's true list hangs off f1's. */
  ghost function OrArena(bs: Arena, f0: Frag, f1: Frag): Arena
    requires Shaped(bs, f0) && Shaped(bs, f1)
  {
    var b0, b1, l := Top(f0), Top(f1), f1.ts[|f1.ts| - 1];
    var s1 := Flipped(Patched(Flipped(bs, b0), f0.fs, f1.ids[0]), b0);
    var s2 := s1[l := SetField(s1[l], s1[l].sense, To(b0))];
    s2[b1 := s2[b1].(head := f0.ids[0])]
  }

  lemma ListFrame(bs: Arena, bs': Arena, list: seq<nat>)
    requires IsList(bs, list) && |bs| <= |bs'|
    requires forall k :: 0 <= k < |list| ==> bs'[list[k]] == bs[list[k]]
    ensures IsList(bs', list)
  {
  }

  /** A fragment is unaffected by what happens to blocks that are not its own. */
  lemma ShapedFrame(bs: Arena, bs': Arena, f: Frag)
    requires Shaped(bs, f) && |bs| <= |bs'|
    requires forall i :: i in f.ids ==> bs'[i] == bs[i]
    ensures Shaped(bs', f)
  {
    assert forall k :: 0 <= k < |f.ids| ==> f.ids[k] in f.ids;
    assert forall k :: 0 <= k < |f.ts| ==> f.ts[k] in f.ts;
    assert forall k :: 0 <= k < |f.fs| ==> f.fs[k] in f.fs;
    ListFrame(bs, bs', f.ts);
    ListFrame(Flipped(bs, Top(f)), Flipped(bs', Top(f)), f.fs);
    forall k, side | 0 <= k < |f.ids| && StatusOf(bs', f, f.ids[k], side).Resolved?
      ensures Forward(bs', f, k, side)
    {
      assert Forward(bs, f, k, side);
    }
  }

  lemma CompletesFrame(bs: Arena, bs': Arena, f: Frag, g: Graph, t: nat, n: nat)
    requires f.ids != [] && Completes(bs', f, g, t, n)
    requires forall k :: 0 <= k < |f.ids| ==> f.ids[k] < |bs| && bs'[f.ids[k]] == bs[f.ids[k]]
    ensures Completes(bs, f, g, t, n)
  {
    forall k | 0 <= k < |f.ids| ensures CompletesAt(bs, f, f.ids[k], g, t, n) {
      assert CompletesAt(bs', f, f.ids[k], g, t, n);
    }
  }

  lemma GoodFrame(bs: Arena, bs': Arena, f: Frag)
    requires Good(bs, f) && |bs| <= |bs'|
    requires forall i :: i in f.ids ==> bs'[i] == bs[i]
    ensures Good(bs', f)
  {
    ShapedFrame(bs, bs', f);
    assert forall k :: 0 <= k < |f.ids| ==> f.ids[k] in f.ids;
    forall g: Graph, t, n | Completes(bs', f, g, t, n)
      ensures Decides(g, f.ids[0], f.e, t, n)
    {
      CompletesFrame(bs, bs', f, g, t, n);
    }
  }

  lemma ShapedSameMeaning(bs: Arena, f: Frag, e: Cond)
    requires Shaped(bs, f)
    ensures Shaped(bs, f.(e := e))
  {
    var f' := f.(e := e);
    forall k, side | 0 <= k < |f'.ids| && StatusOf(bs, f', f'.ids[k], side).Resolved?
      ensures Forward(bs, f', k, side)
    {
      assert StatusOf(bs, f, f.ids[k], side).Resolved?;
      assert Forward(bs, f, k, side);
    }
  }

  lemma CompletesSameMeaning(bs: Arena, f: Frag, e: Cond, g: Graph, t: nat, n: nat)
    requires f.ids != [] && Completes(bs, f.(e := e), g, t, n)
    ensures Completes(bs, f, g, t, n)
  {
    forall k | 0 <= k < |f.ids| ensures CompletesAt(bs, f, f.ids[k], g, t, n) {
      assert CompletesAt(bs, f.(e := e), f.(e := e).ids[k], g, t, n);
    }
  }

  lemma GoodSameMeaning(bs: Arena, f: Frag, e: Cond)
    requires Good(bs, f)
    requires forall r, p :: Eval(e, r, p) == Eval(f.e, r, p)
    ensures Good(bs, f.(e := e))
  {
    ShapedSameMeaning(bs, f, e);
    forall g: Graph, t, n | Completes(bs, f.(e := e), g, t, n)
      ensures Decides(g, f.ids[0], e, t, n)
    {
      CompletesSameMeaning(bs, f, e, g, t, n);
      assert Decides(g, f.ids[0], f.e, t, n);
    }
  }

  /** De Morgan, faults and registers included. */
  lemma OrMeaning(e0: Cond, e1: Cond, r: Regs, p: Packet)
    ensures Eval(Or(e0, e1), r, p) == Eval(Not(And(Not(e0), Not(e1))), r, p)
  {
    var x := Eval(e0, r, p);
    var y := Eval(Not(e0), r, p);
    var z := Eval(And(Not(e0), Not(e1)), r, p);
    if x.Decided? && !x.holds {
      assert z == Eval(Not(e1), x.regs, p);
    }
  }

  lemma OrNegated(bs: Arena, f0: Frag, f1: Frag)
    requires Good(bs, f0) && Good(bs, f1) && Disjoint(f0, f1)
    ensures var s := Flipped(Flipped(bs, Top(f0)), Top(f1)); Good(s, Negated(f0)) && Good(s, Negated(f1))
  {
    var s0 := Flipped(bs, Top(f0));
    var s := Flipped(s0, Top(f1));
    assert Top(f0) in f0.ids && Top(f1) in f1.ids;
    NotGood(bs, f0);
    GoodFrame(bs, s0, f1);
    NotGood(s0, f1);
    GoodFrame(s0, s, Negated(f0));
  }

  lemma OrGood(bs: Arena, f0: Frag, f1: Frag)
    requires Good(bs, f0) && Good(bs, f1) && Disjoint(f0, f1)
    ensures Good(OrArena(bs, f0, f1), Either(f0, f1))
  {
    var s := Flipped(Flipped(bs, Top(f0)), Top(f1));
    OrNegated(bs, f0, f1);
    AndGood(s, Negated(f0), Negated(f1));
    var j := Joined(Negated(f0), Negated(f1));
    assert Top(j) == Top(f1);
    NotGood(AndArena(s, Negated(f0), Negated(f1)), j);
    OrAsAnd(bs, f0, f1);
    forall r, p { OrMeaning(f0.e, f1.e, r, p); }
    GoodSameMeaning(OrArena(bs, f0, f1), Negated(j), Or(f0.e, f1.e));
  }

  lemma OrSlots(bs: Arena, f0: Frag, f1: Frag, i: nat)
    requires Shaped(bs, f0) && Shaped(bs, f1) && Disjoint(f0, f1) && i < |bs|
    ensures var r := OrArena(bs, f0, f1);
      && |r| == |bs|
      && r[i].stmts == bs[i].stmts && r[i].exit == bs[i].exit && r[i].sense == bs[i].sense
      && r[i].head == (if i == Top(f1) then f0.ids[0] else bs[i].head)
      && forall side :: Field(r[i], side) ==
           if i in f0.fs && side == (if i == Top(f0) then !bs[i].sense else bs[i].sense) then To(f1.ids[0])
           else if i == f1.ts[|f1.ts| - 1] && side == bs[i].sense then To(Top(f0))
           else Field(bs[i], side)
  {
    hide IsList, Distinct, EdgesForward;
    assert f1.ts[|f1.ts| - 1] in f1.ts;
  }

  lemma OrAsAnd(bs: Arena, f0: Frag, f1: Frag)
    requires Shaped(bs, f0) && Shaped(bs, f1) && Disjoint(f0, f1)
    requires Shaped(Flipped(Flipped(bs, Top(f0)), Top(f1)), Negated(f0))
    requires Shaped(Flipped(Flipped(bs, Top(f0)), Top(f1)), Negated(f1))
    ensures OrArena(bs, f0, f1) ==
            Flipped(AndArena(Flipped(Flipped(bs, Top(f0)), Top(f1)), Negated(f0), Negated(f1)), Top(f1))
  {
    hide IsList, Distinct, EdgesForward, AndArena, OrArena;
    assert Top(f0) in f0.ids && Top(f1) in f1.ids && Top(f0) != Top(f1);
    var s := Flipped(Flipped(bs, Top(f0)), Top(f1));
    var l := OrArena(bs, f0, f1);
    assert f1.ts[|f1.ts| - 1] in f1.ts && f1.ts[|f1.ts| - 1] in f1.ids;
    AndSlots(s, Negated(f0), Negated(f1), Top(f1));
    OrSlots(bs, f0, f1, Top(f1));
    var r := Flipped(AndArena(s, Negated(f0), Negated(f1)), Top(f1));
    forall i: nat | i < |bs| ensures l[i] == r[i] {
      AndSlots(s, Negated(f0), Negated(f1), i);
      OrSlots(bs, f0, f1, i);
      assert i in f0.fs ==> i in f0.ids && i !in f1.ids;
      assert Top(Negated(f1)) == Top(f1) && Negated(f1).fs == f1.ts;
      var a := AndArena(s, Negated(f0), Negated(f1));
      assert Field(l[i], false) == Field(a[i], false) && Field(l[i], true) == Field(a[i], true) by {
        var k := f1.ts[|f1.ts| - 1];
        assert s[i].sense == if i == Top(f0) || i == Top(f1) then !bs[i].sense else bs[i].sense;
        assert Field(s[i], false) == Field(bs[i], false) && Field(s[i], true) == Field(bs[i], true);
        if i in f0.fs {
          assert i != k;
          assert Field(a[i], s[i].sense) == Field(l[i], s[i].sense);
          assert Field(a[i], !s[i].sense) == Field(l[i], !s[i].sense);
        } else if i == k {
          assert Field(a[i], bs[i].sense) == Field(l[i], bs[i].sense);
          assert Field(a[i], !bs[i].sense) == Field(l[i], !bs[i].sense);
        }
      }
    }
  }

  lemma OrMergeList(bs: Arena, f0: Frag, f1: Frag)
    requires Shaped(bs, f0) && Shaped(bs, f1) && Disjoint(f0, f1)
    ensures IsList(Flipped(Patched(Flipped(bs, Top(f0)), f0.fs, f1.ids[0]), Top(f0)), f1.ts)
  {
    forall k | 0 <= k < |f1.ts| ensures f1.ts[k] in f1.ids {
      assert f1.ts[k] in f1.ts;
    }
    assert Top(f0) in f0.ids;
    ListFrame(bs, Flipped(Patched(Flipped(bs, Top(f0)), f0.fs, f1.ids[0]), Top(f0)), f1.ts);
  }

  lemma OrFrame(bs: Arena, f0: Frag, f1: Frag)
    requires Shaped(bs, f0) && Shaped(bs, f1) && Disjoint(f0, f1)
    ensures var r := OrArena(bs, f0, f1);
      && |r| == |bs|
      && forall i: nat :: i < |bs| && i !in f0.ids && i !in f1.ids ==> r[i] == bs[i]
  {
    assert Top(f0) in f0.ids && Top(f1) in f1.ids && f1.ts[|f1.ts| - 1] in f1.ts;
  }

  ghost function Single(b: nat, stmts: seq<Stmt>, test: Test): Frag {
    Frag([b], [b], [b], Prim(stmts, test))
  }

  lemma SingletonList(bs: Arena, b: nat)
    requires b < |bs| && Field(bs[b], bs[b].sense) == Null
    ensures IsList(bs, [b])
  {
    var list := [b];
    assert forall k :: 0 <= k < |list| ==> k == 0 && list[k] == b;
  }

  lemma SingleGood(bs: Arena, b: nat, stmts: seq<Stmt>, test: Test)
    requires b < |bs| && bs[b] == Slot(stmts, Jmp(test), false, b, Null, Null)
    ensures Good(bs, Single(b, stmts, test))
  {
    var f := Single(b, stmts, test);
    SingletonList(bs, b);
    SingletonList(Flipped(bs, b), b);
    forall g: Graph, t, n | Completes(bs, f, g, t, n)
      ensures Decides(g, f.ids[0], f.e, t, n)
    {
      assert CompletesAt(bs, f, f.ids[0], g, t, n);
      assert g[b] == Br(stmts, test, t, n);
    }
  }

  /** The plain facts about a piece of code, without its lists and edges. */
  lemma ShapedBasics(bs: Arena, f: Frag)
    requires Shaped(bs, f)
    ensures f.ids != [] && f.ids[0] in f.ids && Top(f) in f.ids && bs[Top(f)].head == f.ids[0]
    ensures forall i :: i in f.ids ==> i < |bs| && bs[i].exit.Jmp?
    ensures forall k :: 0 <= k < |f.ids| ==> f.ids[k] in f.ids
    ensures forall i :: i in f.ts || i in f.fs ==> i in f.ids
    ensures Distinct(f.ids) && Distinct(f.ts) && Distinct(f.fs)
    ensures f.ts != [] && f.ts[0] == Top(f) && f.fs != [] && f.fs[0] == Top(f)
    ensures IsList(bs, f.ts) && IsList(Flipped(bs, Top(f)), f.fs)
    ensures forall i :: i in f.ts && i in f.fs ==> i == Top(f)
  {
  }
}
