/**
 A filter whose program is not self-contained. On link type DLT_IEEE802_11_RADIO the register of
 the header length is taken when a test first needs it, from the pool that also serves arithmetic.
 In `less 100 and len + 1 > 5 and type mgt` the relation has used M[2] and given it back before the
 third test takes it; the length is computed at the root and overwritten by the relation.
 */
module RegisterReuse {
  import opened Machine
  import opened FlowGraph
  import opened Liveness
  import opened BlockNumbering
  import opened Fragments
  import opened Containment
  import Closing
  import Tracing

  /** The length of the radiotap header into M[2]. */
  const HeaderLength: seq<Stmt> := [LdAbs(B, 3), AluK(LSH, 8), Tax, LdAbs(B, 2), AluX(OR), St(2), Tax]

  /** less 100 */
  const Short: Cond := Not(Prim([LdLen], JmpK(JGT, 100)))

  /** len + 1, into M[1] */
  const Successor: seq<Stmt> := [LdLen, St(0), LdImm(1), St(1), LdxMem(1), LdMem(0), AluX(ADD), St(1)]

  const Operands: seq<Stmt> := [LdImm(5), St(2), LdxMem(2), LdMem(1)]

  /** len + 1 > 5 */
  const Longer: Cond := Prim(Successor + Operands, JmpX(JGT))

  /** type mgt */
  const Management: Cond := Prim([LdxMem(2), LdInd(B, 0), AluK(AND, 12)], JmpK(JEQ, 0))

  const Filter: Cond := And(And(Short, Longer), Management)

  lemma ManagementReads()
    ensures Inherits(Br(Management.stmts, Management.test, 0, 0)) == {2}
  {
    var ss := Management.stmts;
    assert ss[1..] == [LdInd(B, 0), AluK(AND, 12)];
    LiveBeforeTwo(LdInd(B, 0), AluK(AND, 12), {A_ATOM});
  }

  lemma LongerWrites()
    ensures 2 in Writes(Longer.stmts)
  {
    assert Operands == [LdImm(5), St(2)] + [LdxMem(2), LdMem(1)];
    LiveBeforeTwo(LdImm(5), St(2), {});
    assert 2 in Writes([LdImm(5), St(2)]);
    hide Writes, Successor, LiveBefore;
    LiveBeforeConcat([LdImm(5), St(2)], [LdxMem(2), LdMem(1)], {});
    LiveBeforeConcat(Successor, Operands, {});
  }

  lemma OneRegisterTwice(shared: set<nat>)
    ensures TestContained((Management.stmts, Management.test), shared) ==> 2 in shared
    ensures TestContained((Longer.stmts, Longer.test), shared) ==> 2 !in shared
  {
    ManagementReads();
    LongerWrites();
  }

  lemma LengthStored()
    ensures LiveBefore([St(2), Tax], {2}) == {A_ATOM} && 2 in Writes([St(2), Tax])
  {
    LiveBeforeTwo(St(2), Tax, {2});
  }

  lemma LengthPieces()
    ensures LiveBefore([LdAbs(B, 2), AluX(OR)], {A_ATOM}) == {X_ATOM}
    ensures LiveBefore([AluK(LSH, 8), Tax], {X_ATOM}) == {A_ATOM}
    ensures LiveBefore([LdAbs(B, 3)], {A_ATOM}) == {}
  {
    LiveBeforeTwo(LdAbs(B, 2), AluX(OR), {A_ATOM});
    LiveBeforeTwo(AluK(LSH, 8), Tax, {X_ATOM});
    LiveBeforeOne(LdAbs(B, 3), {A_ATOM});
  }

  lemma LengthSets()
    ensures Sets(HeaderLength, {2})
  {
    var l3, l2, l1 := [St(2), Tax], [LdAbs(B, 2), AluX(OR)], [AluK(LSH, 8), Tax];
    assert HeaderLength == [LdAbs(B, 3)] + (l1 + (l2 + l3));
    LengthStored();
    LengthPieces();
    hide LiveBefore, Writes, HeaderLength;
    LiveBeforeConcat(l2, l3, {2});
    LiveBeforeConcat(l1, l2 + l3, {2});
    LiveBeforeConcat([LdAbs(B, 3)], l1 + (l2 + l3), {2});
  }

  lemma ManagementWrites()
    ensures Writes(Management.stmts) == {A_ATOM, X_ATOM}
  {
    var rest := [LdInd(B, 0), AluK(AND, 12)];
    assert Management.stmts[1..] == rest;
    LiveBeforeTwo(LdInd(B, 0), AluK(AND, 12), {});
  }

  lemma ShortContained()
    ensures AllContained(Short, {2})
  {
    LiveBeforeOne(LdLen, {A_ATOM});
  }

  /** The prefix, and the tests beside the relation, are as they should be. */
  lemma OthersContained()
    ensures Sets(HeaderLength, {2}) && AllContained(And(Short, Management), {2})
  {
    LengthSets();
    ShortContained();
    ManagementReads();
    ManagementWrites();
    hide LiveBefore, Writes, HeaderLength, Inherits, Short;
    assert AllContained(Management, {2});
  }

  lemma FilterTests()
    ensures |Tracing.Tests(Filter)| == 3
    ensures Tracing.Tests(Filter)[1] == (Longer.stmts, Longer.test)
    ensures Tracing.Tests(Filter)[2] == (Management.stmts, Management.test)
  {
    assert Tracing.Tests(Longer) == [(Longer.stmts, Longer.test)];
    assert Tracing.Tests(Management) == [(Management.stmts, Management.test)];
    assert |Tracing.Tests(Short)| == 1;
    hide Longer, Management, Short;
    assert Tracing.Tests(And(Short, Longer)) == Tracing.Tests(Short) + Tracing.Tests(Longer);
    assert Tracing.Tests(Filter) == Tracing.Tests(And(Short, Longer)) + Tracing.Tests(Management);
  }

  /** The program that finish_parse closes for the filter is not self-contained, whatever atoms are called shared. */
  lemma NotSelfContained(bs: Arena, program: seq<nat>, root: nat, prefix: seq<Stmt>, shared: set<nat>)
    requires Tracing.MadeFrom(bs, program, root, prefix, Filter) && Distinct(program)
    ensures !SelfContained(Closing.ToGraph(bs, program), root, shared)
  {
    hide *;
    GeneratedSelfContained(bs, program, root, prefix, Filter, shared);
    NotContained(prefix, shared);
  }

  lemma NotContained(prefix: seq<Stmt>, shared: set<nat>)
    ensures !ProgramContained(prefix, Filter, shared)
  {
    FilterTests();
    OneRegisterTwice(shared);
    LaterTests(prefix, Filter, shared);
    hide ProgramContained, TestContained, Filter, Longer, Management;
  }

  lemma LaterTests(prefix: seq<Stmt>, e: Cond, shared: set<nat>)
    requires |Tracing.Tests(e)| == 3
    ensures ProgramContained(prefix, e, shared) ==>
      TestContained(Tracing.Tests(e)[1], shared) && TestContained(Tracing.Tests(e)[2], shared)
  {
  }

  // ----- what the filter answers -----

  /** A management frame of one byte after a radiotap header of eight. */
  const Frame: Packet := Packet([0, 0, 8, 0, 0, 4, 0, 0, 0], 9)

  lemma RunFirst(s: Stmt, ss: seq<Stmt>, r: Regs, x: Regs, p: Packet)
    requires Step(s, r, p) == Some(x)
    ensures RunStmts([s] + ss, r, p) == RunStmts(ss, x, p)
  {
    RunStmtsAppend([s], ss, r, p);
    RunOne(s, r, p);
  }

  lemma LengthBytes()
    ensures Load(Frame, 3, B) == Some(0) && Load(Frame, 2, B) == Some(8)
    ensures Alu(LSH, 0, 8) == Some(0) && Alu(OR, 8, 0) == Some(8)
  {
  }

  lemma LengthSteps(r: Regs, a: Regs, b: Regs, c: Regs)
    requires a == r[A_ATOM := 0] && b == a[X_ATOM := 0] && c == b[A_ATOM := 8]
    ensures Step(LdAbs(B, 3), r, Frame) == Some(a) && Step(AluK(LSH, 8), a, Frame) == Some(a)
    ensures Step(Tax, a, Frame) == Some(b) && Step(LdAbs(B, 2), b, Frame) == Some(c)
    ensures Step(AluX(OR), c, Frame) == Some(c)
  {
    LengthBytes();
    assert a[A_ATOM := 0] == a && c[A_ATOM := 8] == c;
    hide Load, Alu;
  }

  lemma LengthLoaded(r: Regs)
    ensures var m := RunStmts(HeaderLength, r, Frame);
      m.Some? && m.value[2] == 8
  {
    var a: Regs := r[A_ATOM := 0];
    var b: Regs := a[X_ATOM := 0];
    var c: Regs := b[A_ATOM := 8];
    LengthSteps(r, a, b, c);
    RunTwo(St(2), Tax, c, Frame);
    assert RunStmts([St(2), Tax], c, Frame).Some? && RunStmts([St(2), Tax], c, Frame).value[2] == 8;
    var l5 := [AluX(OR)] + [St(2), Tax];
    var l4 := [LdAbs(B, 2)] + l5;
    var l3 := [Tax] + l4;
    var l2 := [AluK(LSH, 8)] + l3;
    assert HeaderLength == [LdAbs(B, 3)] + l2;
    hide Frame, RunStmts, Step;
    RunFirst(LdAbs(B, 3), l2, r, a, Frame);
    RunFirst(AluK(LSH, 8), l3, a, a, Frame);
    RunFirst(Tax, l4, a, b, Frame);
    RunFirst(LdAbs(B, 2), l5, b, c, Frame);
    RunFirst(AluX(OR), [St(2), Tax], c, c, Frame);
  }

  lemma ShortHolds(r: Regs)
    ensures Eval(Short, r, Frame) == Decided(true, r[A_ATOM := 9])
  {
    RunOne(LdLen, r, Frame);
  }

  lemma LongerHolds(r: Regs)
    ensures var t := Eval(Longer, r, Frame); t.Decided? && t.holds && t.regs[2] == 5
  {
    var p := Frame;
    var a: Regs := r[A_ATOM := 9][0 := 9];
    var b: Regs := a[A_ATOM := 1][1 := 1];
    var c: Regs := b[X_ATOM := 1][A_ATOM := 9];
    var d: Regs := c[A_ATOM := 10][1 := 10];
    var e: Regs := d[A_ATOM := 5][2 := 5];
    RunTwo(LdLen, St(0), r, p);
    RunTwo(LdImm(1), St(1), a, p);
    RunTwo(LdxMem(1), LdMem(0), b, p);
    RunTwo(AluX(ADD), St(1), c, p);
    RunTwo(LdImm(5), St(2), d, p);
    RunTwo(LdxMem(2), LdMem(1), e, p);
    assert e[X_ATOM := 5][A_ATOM := 10][2] == 5;
    var last := [LdxMem(2), LdMem(1)];
    assert RunStmts(last, e, p) == Some(e[X_ATOM := 5][A_ATOM := 10]);
    hide RunStmts;
    var l5 := [LdImm(5), St(2)] + last;
    var l4 := [AluX(ADD), St(1)] + l5;
    var l3 := [LdxMem(1), LdMem(0)] + l4;
    var l2 := [LdImm(1), St(1)] + l3;
    RunStmtsAppend([LdLen, St(0)], l2, r, p);
    RunStmtsAppend([LdImm(1), St(1)], l3, a, p);
    RunStmtsAppend([LdxMem(1), LdMem(0)], l4, b, p);
    RunStmtsAppend([AluX(ADD), St(1)], l5, c, p);
    RunStmtsAppend([LdImm(5), St(2)], last, d, p);
    assert Successor + Operands == [LdLen, St(0)] + l2;
  }

  lemma ManagementIs(r: Regs)
    requires r[2] == 8 || r[2] == 5
    ensures var t := Eval(Management, r, Frame); t.Decided? && (t.holds <==> r[2] == 8)
  {
    var p := Frame;
    var v: u32 := if r[2] == 8 then 0 else 4;
    var x: Regs := r[X_ATOM := r[2]];
    assert Load(p, r[2], B) == Some(v) && Add32(r[2], 0) == r[2];
    RunFirst(LdxMem(2), [LdInd(B, 0), AluK(AND, 12)], r, x, p);
    RunTwo(LdInd(B, 0), AluK(AND, 12), x, p);
    assert Management.stmts == [LdxMem(2)] + [LdInd(B, 0), AluK(AND, 12)];
    assert BitAnd(1, 3) == 1 && BitAnd(2, 6) == 2 && BitAnd(4, 12) == 4;
  }

  /** Each of the three tests accepts the frame, and the three together reject it. */
  lemma LengthOverwritten(r: Regs, snaplen: u32)
    requires snaplen > 0
    ensures Closing.Answer(HeaderLength, Short, snaplen, r, Frame) == Return(snaplen)
    ensures Closing.Answer(HeaderLength, Longer, snaplen, r, Frame) == Return(snaplen)
    ensures Closing.Answer(HeaderLength, Management, snaplen, r, Frame) == Return(snaplen)
    ensures Closing.Answer(HeaderLength, Filter, snaplen, r, Frame) == Return(0)
  {
    hide Short, Longer, Management, HeaderLength, Frame;
    LengthLoaded(r);
    var m := RunStmts(HeaderLength, r, Frame).value;
    ShortHolds(m);
    LongerHolds(m);
    ManagementIs(m);
    var x := m[A_ATOM := 9];
    LongerHolds(x);
    ManagementIs(Eval(Longer, x, Frame).regs);
    assert Eval(And(Short, Longer), m, Frame) == Eval(Longer, x, Frame);
  }
}
