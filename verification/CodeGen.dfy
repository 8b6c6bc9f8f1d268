/**
 The code generator's own operations: they rewrite the jt/jf fields and the sense bits of
 the arena in place, and every one of them keeps each piece of code standing for its condition.
 */
module CodeGen {
  import opened Machine
  import opened FlowGraph
  import opened Fragments
  import opened Closing
  import opened Tracing

  /** The pieces of code under construction: each well formed, each with its own blocks. */
  ghost predicate AllGood(bs: Arena, frags: map<nat, Frag>) {
    && (forall b :: b in frags ==> Good(bs, frags[b]) && Top(frags[b]) == b)
    && (forall b, c :: b in frags && c in frags && b != c ==> Disjoint(frags[b], frags[c]))
  }

  /** Putting the piece f at b in place of the pieces in gone leaves the others as they were. */
  lemma AllGoodAfter(bs: Arena, frags: map<nat, Frag>, bs': Arena, gone: set<nat>, b: nat, f: Frag)
    requires AllGood(bs, frags) && |bs| <= |bs'|
    requires forall c, i :: c in frags && c !in gone && i in frags[c].ids ==> bs'[i] == bs[i] && i !in f.ids
    requires Good(bs', f) && Top(f) == b && (b in gone || b !in frags)
    ensures AllGood(bs', (frags - gone)[b := f])
  {
    var frags' := (frags - gone)[b := f];
    forall c | c in frags' ensures Good(bs', frags'[c]) && Top(frags'[c]) == c {
      if c != b {
        GoodFrame(bs, bs', frags[c]);
      }
    }
    forall c, d | c in frags' && d in frags' && c != d
      ensures Disjoint(frags'[c], frags'[d])
    {
      if c != b && d != b {
        assert Disjoint(frags[c], frags[d]);
      }
    }
  }

  lemma InBounds(bs: Arena, frags: map<nat, Frag>, c: nat, i: nat)
    requires AllGood(bs, frags) && c in frags && i in frags[c].ids
    ensures i < |bs|
  {
  }

  ghost function MeaningOf(frags: map<nat, Frag>): map<nat, Cond> {
    map b | b in frags :: frags[b].e
  }

  lemma MeaningAfter(frags: map<nat, Frag>, gone: set<nat>, b: nat, f: Frag)
    ensures MeaningOf((frags - gone)[b := f]) == (MeaningOf(frags) - gone)[b := f.e]
  {
  }

  /** What a generator method may rely on about one of its operands. */
  lemma Operand(bs: Arena, frags: map<nat, Frag>, b: nat)
    requires AllGood(bs, frags) && b in frags
    ensures var f := frags[b];
      && Good(bs, f) && b < |bs| && f.ids != [] && Top(f) == b && bs[b].head == f.ids[0]
      && IsList(bs, f.ts) && Distinct(f.ts) && f.ts != [] && f.ts[0] == b
      && IsList(Flipped(bs, b), f.fs) && Distinct(f.fs) && f.fs != [] && f.fs[0] == b
  {
  }

  /** The pieces at b0 and b1 have become the piece f at b1, in an arena changed only there. */
  lemma AllGoodJoined(bs: Arena, frags: map<nat, Frag>, bs': Arena, b0: nat, b1: nat, f: Frag)
    requires AllGood(bs, frags) && b0 in frags && b1 in frags
    requires f.ids != [] && Good(bs', f) && Top(f) == b1
    requires forall i :: i in f.ids ==> i in frags[b0].ids || i in frags[b1].ids
    requires |bs| == |bs'|
    requires forall i: nat :: i < |bs| && i !in frags[b0].ids && i !in frags[b1].ids ==> bs'[i] == bs[i]
    ensures AllGood(bs', (frags - {b0, b1})[b1 := f])
  {
    hide Good;
    forall c, i | c in frags && c !in {b0, b1} && i in frags[c].ids
      ensures i < |bs| && bs'[i] == bs[i] && i !in f.ids
    {
      InBounds(bs, frags, c, i);
      assert Disjoint(frags[c], frags[b0]) && Disjoint(frags[c], frags[b1]);
    }
    AllGoodAfter(bs, frags, bs', {b0, b1}, b1, f);
  }

  lemma AndStep(bs: Arena, frags: map<nat, Frag>, b0: nat, b1: nat)
    requires AllGood(bs, frags) && b0 in frags && b1 in frags && b0 != b1
    ensures Shaped(bs, frags[b0]) && Shaped(bs, frags[b1])
    ensures AllGood(AndArena(bs, frags[b0], frags[b1]),
                    (frags - {b0, b1})[b1 := Joined(frags[b0], frags[b1])])
    ensures IsList(Flipped(Flipped(Patched(bs, frags[b0].ts, frags[b1].ids[0]), b0), b1), frags[b1].fs)
  {
    hide Implements, EdgesForward, Chained, Named;
    var f0, f1 := frags[b0], frags[b1];
    Operand(bs, frags, b0);
    Operand(bs, frags, b1);
    assert Disjoint(f0, f1);
    AndGood(bs, f0, f1);
    AndFrame(bs, f0, f1);
    AndMergeList(bs, f0, f1);
    AllGoodJoined(bs, frags, AndArena(bs, f0, f1), b0, b1, Joined(f0, f1));
  }

  lemma OrStep(bs: Arena, frags: map<nat, Frag>, b0: nat, b1: nat)
    requires AllGood(bs, frags) && b0 in frags && b1 in frags && b0 != b1
    ensures Shaped(bs, frags[b0]) && Shaped(bs, frags[b1])
    ensures AllGood(OrArena(bs, frags[b0], frags[b1]),
                    (frags - {b0, b1})[b1 := Either(frags[b0], frags[b1])])
    ensures IsList(Flipped(Patched(Flipped(bs, b0), frags[b0].fs, frags[b1].ids[0]), b0), frags[b1].ts)
  {
    hide Implements, EdgesForward, Chained, Named;
    var f0, f1 := frags[b0], frags[b1];
    Operand(bs, frags, b0);
    Operand(bs, frags, b1);
    assert Disjoint(f0, f1);
    OrGood(bs, f0, f1);
    OrFrame(bs, f0, f1);
    OrMergeList(bs, f0, f1);
    AllGoodJoined(bs, frags, OrArena(bs, f0, f1), b0, b1, Either(f0, f1));
  }

  lemma NotStep(bs: Arena, frags: map<nat, Frag>, b: nat)
    requires AllGood(bs, frags) && b in frags && b < |bs|
    ensures AllGood(Flipped(bs, b), (frags - {b, b})[b := Negated(frags[b])])
  {
    hide Implements, EdgesForward, Chained, Named;
    Operand(bs, frags, b);
    NotGood(bs, frags[b]);
    assert b in frags[b].ids;
    AllGoodJoined(bs, frags, Flipped(bs, b), b, b, Negated(frags[b]));
  }

  lemma BlockStep(bs: Arena, frags: map<nat, Frag>, stmts: seq<Stmt>, test: Test)
    requires AllGood(bs, frags)
    ensures |bs| !in frags
    ensures AllGood(bs + [Slot(stmts, Jmp(test), false, |bs|, Null, Null)],
                    (frags - {})[|bs| := Single(|bs|, stmts, test)])
  {
    var b := |bs|;
    var bs' := bs + [Slot(stmts, Jmp(test), false, b, Null, Null)];
    SingleGood(bs', b, stmts, test);
    hide Good;
    forall c, i | c in frags && i in frags[c].ids ensures i < b {
      InBounds(bs, frags, c, i);
    }
    if b in frags {
      Operand(bs, frags, b);
      assert false;
    }
    AllGoodAfter(bs, frags, bs', {}, b, Single(b, stmts, test));
  }

  /** Every block made so far belongs to some piece. */
  ghost predicate Covered(n: nat, frags: map<nat, Frag>) {
    forall i :: 0 <= i < n ==> Owned(frags, i)
  }

  ghost predicate Owned(frags: map<nat, Frag>, i: nat) {
    exists b :: b in frags && i in frags[b].ids
  }

  lemma CoveredMore(n: nat, frags: map<nat, Frag>, gone: set<nat>, b: nat, f: Frag, n': nat)
    requires Covered(n, frags) && (b in gone || b !in frags)
    requires forall c, i :: c in frags && c in gone && i in frags[c].ids ==> i in f.ids
    requires forall i: nat :: n <= i < n' ==> i in f.ids
    ensures Covered(n', (frags - gone)[b := f])
  {
    var frags' := (frags - gone)[b := f];
    forall i | 0 <= i < n' ensures Owned(frags', i) {
      assert b in frags' && frags'[b] == f;
      if i < n {
        assert Owned(frags, i);
        var c :| c in frags && i in frags[c].ids;
        if c !in gone {
          assert c in frags' && frags'[c] == frags[c];
        }
      }
    }
  }

  lemma CoveredJoined(n: nat, frags: map<nat, Frag>, b0: nat, b1: nat, f: Frag)
    requires Covered(n, frags) && b0 in frags && b1 in frags
    requires forall i :: i in frags[b0].ids || i in frags[b1].ids ==> i in f.ids
    ensures Covered(n, (frags - {b0, b1})[b1 := f])
  {
    CoveredMore(n, frags, {b0, b1}, b1, f, n);
  }

  lemma SameSize(bs: Arena, f0: Frag, f1: Frag)
    requires Shaped(bs, f0) && Shaped(bs, f1)
    ensures |AndArena(bs, f0, f1)| == |bs| && |OrArena(bs, f0, f1)| == |bs|
  {
  }

  /** When there is only one piece, all blocks are its blocks. */
  lemma OnlyPiece(n: nat, frags: map<nat, Frag>, p: nat)
    requires Covered(n, frags) && MeaningOf(frags).Keys == {p}
    ensures p in frags && forall i :: 0 <= i < n ==> i in frags[p].ids
  {
    assert forall b :: b in frags ==> b in MeaningOf(frags);
    forall i | 0 <= i < n ensures i in frags[p].ids {
      assert Owned(frags, i);
    }
    assert p in MeaningOf(frags);
  }

  lemma WholeProgram(bs: Arena, frags: map<nat, Frag>, p: nat)
    requires Covered(|bs|, frags) && p in frags
    ensures MeaningOf(frags).Keys == {p} ==> forall i :: 0 <= i < |bs| + 2 ==> i in ProgramOf(bs, frags[p])
  {
    if MeaningOf(frags).Keys == {p} {
      OnlyPiece(|bs|, frags, p);
      var q, n := ProgramOf(bs, frags[p]), |frags[p].ids|;
      assert q[n] == |bs| && q[n + 1] == |bs| + 1;
      assert forall i :: i in frags[p].ids ==> i in q;
    }
  }

  // ----- where the blocks come from -----

  /** Every piece has a block for each of the tests of its condition. */
  ghost predicate AllTraced(bs: Arena, frags: map<nat, Frag>) {
    forall b :: b in frags ==> Traced(bs, frags[b])
  }

  lemma TracedAt(bs: Arena, frags: map<nat, Frag>, b: nat)
    requires AllTraced(bs, frags) && b in frags
    ensures Traced(bs, frags[b])
  {
  }

  /** Pieces that are not touched keep their blocks. */
  lemma AllTracedAfter(bs: Arena, frags: map<nat, Frag>, bs': Arena, gone: set<nat>, b: nat, f: Frag)
    requires AllTraced(bs, frags) && Traced(bs', f) && |bs| <= |bs'|
    requires forall c, i :: c in frags && c !in gone && i in frags[c].ids && i < |bs| ==> bs'[i] == bs[i]
    ensures AllTraced(bs', (frags - gone)[b := f])
  {
    var frags' := (frags - gone)[b := f];
    forall c | c in frags' ensures Traced(bs', frags'[c]) {
      if c != b {
        TracedFrame(bs, bs', frags[c]);
      }
    }
  }

  lemma AllTracedJoined(bs: Arena, frags: map<nat, Frag>, bs': Arena, b0: nat, b1: nat, f: Frag)
    requires AllGood(bs, frags) && AllTraced(bs, frags) && b0 in frags && b1 in frags
    requires Traced(bs', f) && |bs| == |bs'|
    requires forall i: nat :: i < |bs| && i !in frags[b0].ids && i !in frags[b1].ids ==> bs'[i] == bs[i]
    ensures AllTraced(bs', (frags - {b0, b1})[b1 := f])
  {
    hide Good, Traced;
    forall c, i | c in frags && c !in {b0, b1} && i in frags[c].ids && i < |bs| ensures bs'[i] == bs[i] {
      assert Disjoint(frags[c], frags[b0]) && Disjoint(frags[c], frags[b1]);
    }
    AllTracedAfter(bs, frags, bs', {b0, b1}, b1, f);
  }

  lemma AndTracedStep(bs: Arena, frags: map<nat, Frag>, b0: nat, b1: nat)
    requires AllGood(bs, frags) && AllTraced(bs, frags) && b0 in frags && b1 in frags && b0 != b1
    ensures Shaped(bs, frags[b0]) && Shaped(bs, frags[b1])
    ensures AllTraced(AndArena(bs, frags[b0], frags[b1]), (frags - {b0, b1})[b1 := Joined(frags[b0], frags[b1])])
  {
    hide Implements, Shaped, Traced, AndArena;
    var f0, f1 := frags[b0], frags[b1];
    assert Good(bs, f0) && Good(bs, f1) && Disjoint(f0, f1);
    AndTraced(bs, f0, f1);
    AndFrame(bs, f0, f1);
    AllTracedJoined(bs, frags, AndArena(bs, f0, f1), b0, b1, Joined(f0, f1));
  }

  lemma OrTracedStep(bs: Arena, frags: map<nat, Frag>, b0: nat, b1: nat)
    requires AllGood(bs, frags) && AllTraced(bs, frags) && b0 in frags && b1 in frags && b0 != b1
    ensures Shaped(bs, frags[b0]) && Shaped(bs, frags[b1])
    ensures AllTraced(OrArena(bs, frags[b0], frags[b1]), (frags - {b0, b1})[b1 := Either(frags[b0], frags[b1])])
  {
    hide Implements, Shaped, Traced, OrArena;
    var f0, f1 := frags[b0], frags[b1];
    assert Good(bs, f0) && Good(bs, f1) && Disjoint(f0, f1);
    OrTraced(bs, f0, f1);
    OrFrame(bs, f0, f1);
    AllTracedJoined(bs, frags, OrArena(bs, f0, f1), b0, b1, Either(f0, f1));
  }

  lemma NotTracedStep(bs: Arena, frags: map<nat, Frag>, b: nat)
    requires AllGood(bs, frags) && AllTraced(bs, frags) && b in frags && b < |bs|
    ensures AllTraced(Flipped(bs, b), (frags - {b, b})[b := Negated(frags[b])])
  {
    hide Implements, Shaped, Traced;
    Operand(bs, frags, b);
    assert b in frags[b].ids;
    NotTraced(bs, frags[b]);
    AllTracedJoined(bs, frags, Flipped(bs, b), b, b, Negated(frags[b]));
  }

  lemma BlockTracedStep(bs: Arena, frags: map<nat, Frag>, stmts: seq<Stmt>, test: Test)
    requires AllTraced(bs, frags)
    ensures AllTraced(bs + [Slot(stmts, Jmp(test), false, |bs|, Null, Null)],
                      (frags - {})[|bs| := Single(|bs|, stmts, test)])
  {
    var bs' := bs + [Slot(stmts, Jmp(test), false, |bs|, Null, Null)];
    SingleTraced(bs', |bs|, stmts, test);
    hide Traced;
    AllTracedAfter(bs, frags, bs', {}, |bs|, Single(|bs|, stmts, test));
  }

  /** What closing a piece comes to. */
  lemma Finishing(bs: Arena, f: Frag, prefix: seq<Stmt>, snaplen: u32)
    requires Good(bs, f) && Traced(bs, f)
    ensures Shaped(bs, f) && f.ids != [] && f.ids[0] < |bs|
    ensures var r, q := FinalArena(bs, f, prefix, snaplen), ProgramOf(bs, f);
      && Closed(r, q) && f.ids[0] in q && MadeFrom(r, q, f.ids[0], prefix, f.e)
      && Acyclic(ToGraph(r, q)) && f.ids[0] < |ToGraph(r, q)| && Answers(ToGraph(r, q), f.ids[0], prefix, f.e, snaplen)
      && r[Top(f)].head == f.ids[0]
    ensures var s1 := Prefixed(bs, f.ids[0], prefix) + [RetSlot(|bs|, snaplen)];
      var s2 := Flipped(Patched(s1, f.ts, |bs|), Top(f)) + [RetSlot(|bs| + 1, 0)];
      && Top(f) < |bs| && IsList(s1, f.ts) && IsList(s2, f.fs)
      && FinalArena(bs, f, prefix, snaplen) == Patched(s2, f.fs, |bs| + 1)
  {
    GoodShaped(bs, f);
    ShapedBasics(bs, f);
    hide Good, Shaped, IsList, Traced, Closed, Acyclic, Answers, MadeFrom;
    FinalAnswers(bs, f, prefix, snaplen);
    FinalClosed(bs, f, prefix, snaplen);
    FinalLists(bs, f, prefix, snaplen);
    FinalMade(bs, f, prefix, snaplen);
    assert ProgramOf(bs, f)[0] == f.ids[0];
  }

  class Generator {
    var blocks: Arena
    ghost var frags: map<nat, Frag>

    ghost predicate Valid()
      reads this
    {
      AllGood(blocks, frags) && Covered(|blocks|, frags) && AllTraced(blocks, frags)
    }

    /** The condition each top block stands for. */
    ghost function Meaning(): map<nat, Cond>
      reads this
    {
      MeaningOf(frags)
    }

    constructor ()
      ensures Valid() && Meaning() == map[]
    {
      blocks, frags := [], map[];
    }

    /** new_block with its statements and test. */
    method NewBlock(stmts: seq<Stmt>, test: Test) returns (b: nat)
      requires Valid()
      modifies this
      ensures Valid()
      ensures b !in old(Meaning()) && Meaning() == old(Meaning())[b := Prim(stmts, test)]
    {
      hide AllGood, Covered, AllTraced;
      BlockTracedStep(blocks, frags, stmts, test);
      BlockStep(blocks, frags, stmts, test);
      MeaningAfter(frags, {}, |blocks|, Single(|blocks|, stmts, test));
      CoveredMore(|blocks|, frags, {}, |blocks|, Single(|blocks|, stmts, test), |blocks| + 1);
      assert MeaningOf(frags) - {} == MeaningOf(frags);
      b := |blocks|;
      blocks := blocks + [Slot(stmts, Jmp(test), false, b, Null, Null)];
      frags := (frags - {})[b := Single(b, stmts, test)];
    }

    method Backpatch(list: Ptr, target: nat, ghost chain: seq<nat>)
      requires IsList(blocks, chain) && Distinct(chain)
      requires list == if chain == [] then Null else To(chain[0])
      modifies this`blocks
      ensures blocks == Patched(old(blocks), chain, target)
    {
      var b := list;
      ghost var done := 0;
      while b != Null
        invariant 0 <= done <= |chain|
        invariant b == if done < |chain| then To(chain[done]) else Null
        invariant blocks == Patched(old(blocks), chain[..done], target)
        decreases |chain| - done
      {
        var next;
        if !blocks[b.b].sense {
          next := blocks[b.b].jt;
          blocks := blocks[b.b := blocks[b.b].(jt := To(target))];
        } else {
          next := blocks[b.b].jf;
          blocks := blocks[b.b := blocks[b.b].(jf := To(target))];
        }
        b := next;
        done := done + 1;
      }
      assert chain[..done] == chain;
    }

    /** Hangs block b1, with its list, off the end of the list of b0. */
    method Merge(b0: nat, b1: nat, ghost chain: seq<nat>)
      requires IsList(blocks, chain) && chain != [] && chain[0] == b0
      modifies this`blocks
      ensures var l := chain[|chain| - 1];
        blocks == old(blocks)[l := SetField(old(blocks)[l], old(blocks)[l].sense, To(b1))]
    {
      // q and its sense name the field that p points to
      var q := b0;
      ghost var at := 0;
      while Field(blocks[q], blocks[q].sense) != Null
        invariant 0 <= at < |chain| && q == chain[at]
        invariant blocks == old(blocks)
        decreases |chain| - at
      {
        ListLink(blocks, chain, at);
        q := Field(blocks[q], blocks[q].sense).b;
        at := at + 1;
      }
      ListLink(blocks, chain, at);
      blocks := blocks[q := SetField(blocks[q], blocks[q].sense, To(b1))];
    }

    method FlipSense(b: nat)
      requires b < |blocks|
      modifies this`blocks
      ensures blocks == Flipped(old(blocks), b)
    {
      blocks := blocks[b := blocks[b].(sense := !blocks[b].sense)];
    }

    /** Both conditions: b1 becomes the top of the conjunction and b0 is used up. */
    method GenAnd(b0: nat, b1: nat)
      requires Valid() && b0 in Meaning() && b1 in Meaning() && b0 != b1
      modifies this
      ensures Valid()
      ensures Meaning() == (old(Meaning()) - {b0, b1})[b1 := And(old(Meaning())[b0], old(Meaning())[b1])]
    {
      hide AllGood, Good, Shaped, IsList, Distinct, Patched, Covered, AllTraced;
      ghost var f0, f1, bs := frags[b0], frags[b1], blocks;
      Operand(bs, frags, b0);
      Operand(bs, frags, b1);
      AndStep(bs, frags, b0, b1);
      MeaningAfter(frags, {b0, b1}, b1, Joined(f0, f1));
      CoveredJoined(|blocks|, frags, b0, b1, Joined(f0, f1));
      AndTracedStep(bs, frags, b0, b1);
      SameSize(bs, f0, f1);
      Backpatch(To(b0), blocks[b1].head, f0.ts);
      FlipSense(b0);
      FlipSense(b1);
      Merge(b1, b0, f1.fs);
      FlipSense(b1);
      blocks := blocks[b1 := blocks[b1].(head := blocks[b0].head)];
      assert blocks == AndArena(bs, f0, f1);
      frags := (frags - {b0, b1})[b1 := Joined(f0, f1)];
    }

    /** Either condition: b1 becomes the top of the disjunction and b0 is used up. */
    method GenOr(b0: nat, b1: nat)
      requires Valid() && b0 in Meaning() && b1 in Meaning() && b0 != b1
      modifies this
      ensures Valid()
      ensures Meaning() == (old(Meaning()) - {b0, b1})[b1 := Or(old(Meaning())[b0], old(Meaning())[b1])]
    {
      hide AllGood, Good, Shaped, IsList, Distinct, Patched, Covered, AllTraced;
      ghost var f0, f1, bs := frags[b0], frags[b1], blocks;
      Operand(bs, frags, b0);
      Operand(bs, frags, b1);
      OrStep(bs, frags, b0, b1);
      MeaningAfter(frags, {b0, b1}, b1, Either(f0, f1));
      CoveredJoined(|blocks|, frags, b0, b1, Either(f0, f1));
      OrTracedStep(bs, frags, b0, b1);
      SameSize(bs, f0, f1);
      FlipSense(b0);
      Backpatch(To(b0), blocks[b1].head, f0.fs);
      FlipSense(b0);
      Merge(b1, b0, f1.ts);
      blocks := blocks[b1 := blocks[b1].(head := blocks[b0].head)];
      assert blocks == OrArena(bs, f0, f1);
      frags := (frags - {b0, b1})[b1 := Either(f0, f1)];
    }

    method GenNot(b: nat)
      requires Valid() && b in Meaning()
      modifies this
      ensures Valid()
      ensures Meaning() == (old(Meaning()) - {b, b})[b := Not(old(Meaning())[b])]
    {
      hide AllGood, Good, Shaped, IsList, Distinct, Patched, Covered, AllTraced;
      Operand(blocks, frags, b);
      NotStep(blocks, frags, b);
      MeaningAfter(frags, {b, b}, b, Negated(frags[b]));
      CoveredJoined(|blocks|, frags, b, b, Negated(frags[b]));
      NotTracedStep(blocks, frags, b);
      FlipSense(b);
      frags := (frags - {b, b})[b := Negated(frags[b])];
    }

    /**
     The semantic actions of the grammar over a whole condition: operands are built left to
     right and combined by gen_and, gen_or and gen_not.
     */
    method Generate(e: Cond) returns (b: nat)
      requires Valid()
      modifies this
      ensures Valid()
      ensures b !in old(Meaning()) && Meaning() == old(Meaning())[b := e]
      decreases e
    {
      hide AllGood, Covered, AllTraced;
      match e {
        case Prim(stmts, test) =>
          b := NewBlock(stmts, test);
        case And(l, r) =>
          var b0 := Generate(l);
          b := Generate(r);
          GenAnd(b0, b);
        case Or(l, r) =>
          var b0 := Generate(l);
          b := Generate(r);
          GenOr(b0, b);
        case Not(c) =>
          b := Generate(c);
          GenNot(b);
      }
    }

    method GenRetBlk(v: u32) returns (b: nat)
      modifies this`blocks
      ensures b == |old(blocks)| && blocks == old(blocks) + [RetSlot(b, v)]
    {
      b := |blocks|;
      blocks := blocks + [RetSlot(b, v)];
    }

    /**
     Closes the condition at p: the true exits return snaplen, the false exits 0, and the
     statements in prefix run first. program lists the blocks of the result, in order.
     */
    method FinishParse(p: nat, prefix: seq<Stmt>, snaplen: u32) returns (root: nat, ghost program: seq<nat>)
      requires Valid() && p in Meaning()
      modifies this
      ensures Closed(blocks, program) && root in program
      ensures var g := ToGraph(blocks, program);
        Acyclic(g) && root < |g| && Answers(g, root, prefix, old(Meaning())[p], snaplen)
      ensures MadeFrom(blocks, program, root, prefix, old(Meaning())[p])
      ensures old(Meaning()).Keys == {p} ==> forall i :: 0 <= i < |blocks| ==> i in program
    {
      hide *;
      ValidParts();
      ghost var f, bs := frags[p], blocks;
      Operand(bs, frags, p);
      WholeProgram(bs, frags, p);
      TracedAt(bs, frags, p);
      Finishing(bs, f, prefix, snaplen);
      program := ProgramOf(bs, f);
      blocks := Prefixed(blocks, blocks[p].head, prefix);
      var accept := GenRetBlk(snaplen);
      Backpatch(To(p), accept, f.ts);
      FlipSense(p);
      var reject := GenRetBlk(0);
      Backpatch(To(p), reject, f.fs);
      assert blocks == FinalArena(bs, f, prefix, snaplen);
      root := blocks[p].head;
    }

    lemma ValidParts()
      requires Valid()
      ensures AllGood(blocks, frags) && Covered(|blocks|, frags) && AllTraced(blocks, frags)
      ensures Meaning() == MeaningOf(frags) && forall b :: b in Meaning() ==> b in frags && Meaning()[b] == frags[b].e
    {
    }
  }
}
