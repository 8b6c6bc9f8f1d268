/**
 Capturing with a compiled filter: what the read loop delivers, said of the condition the filter
 was made from and of the records the kernel hands over.
 */
module Capture {
  import opened Machine
  import opened FlowGraph
  import opened Fragments
  import Closing
  import Containment
  import Assembler
  import Pipeline
  import ValueNumbering
  import opened ReadLoop

  /** What there is before the filter has run: every register and scratch word is 0. */
  function Fresh(): Regs {
    seq(N_ATOMS, a => 0)
  }

  /** The condition, its prefix run before it, comes to an end on the packet and is true. */
  predicate Satisfies(prefix: seq<Stmt>, e: Cond, p: Packet) {
    var m := RunStmts(prefix, Fresh(), p);
    m.Some? && Eval(e, m.value, p).Decided? && Eval(e, m.value, p).holds
  }

  /** It comes to an end at all. */
  predicate Settles(prefix: seq<Stmt>, e: Cond, p: Packet) {
    var m := RunStmts(prefix, Fresh(), p);
    m.Some? && Eval(e, m.value, p).Decided?
  }

  /** The packets of the records that satisfy the condition. */
  function Satisfying(prefix: seq<Stmt>, e: Cond, rs: seq<Record>): seq<Packet> {
    if rs == [] then []
    else (if Satisfies(prefix, e, rs[0].pkt) then [rs[0].pkt] else []) + Satisfying(prefix, e, rs[1..])
  }

  function Packets(rs: seq<Record>): (ps: seq<Packet>)
    ensures |ps| == |rs| && forall k :: 0 <= k < |rs| ==> ps[k] == rs[k].pkt
  {
    seq(|rs|, k requires 0 <= k < |rs| => rs[k].pkt)
  }

  /** The array answers, whatever packet does not make the condition fault, as the condition does. */
  ghost predicate AnswersSettled(code: seq<Assembler.Insn>, prefix: seq<Stmt>, e: Cond, snaplen: u32) {
    forall r, p :: Closing.Answer(prefix, e, snaplen, r, p) != Fault ==>
      Assembler.RunCode(code, 0, r, p) == Some(Closing.Answer(prefix, e, snaplen, r, p))
  }

  lemma StartIsFresh()
    ensures START == Fresh()
  {
  }

  // ----- one packet -----

  /** A filter made from a condition passes the packets on which the condition is true, and no others. */
  lemma PassesExactly(code: seq<Assembler.Insn>, prefix: seq<Stmt>, e: Cond, snaplen: u32, p: Packet)
    requires Pipeline.Answers(code, prefix, e, snaplen) && snaplen > 0
    ensures Passes(false, code, p) <==> Satisfies(prefix, e, p)
  {
    StartIsFresh();
    assert Assembler.RunCode(code, 0, START, p) == Some(Closing.Answer(prefix, e, snaplen, START, p));
  }

  /** With the optimizer that is so of the packets on which the condition does not fault. */
  lemma PassesSettled(code: seq<Assembler.Insn>, prefix: seq<Stmt>, e: Cond, snaplen: u32, p: Packet)
    requires AnswersSettled(code, prefix, e, snaplen) && snaplen > 0 && Settles(prefix, e, p)
    ensures Passes(false, code, p) <==> Satisfies(prefix, e, p)
  {
    StartIsFresh();
    assert Assembler.RunCode(code, 0, START, p) == Some(Closing.Answer(prefix, e, snaplen, START, p));
  }

  /** A filter that is in the kernel, or that is empty, lets every packet pass. */
  lemma PassesAll(useBpf: bool, code: seq<Assembler.Insn>, p: Packet)
    requires useBpf || code == []
    ensures Passes(useBpf, code, p)
  {
  }

  // ----- all packets -----

  lemma {:induction false} MatchingIsSatisfying(code: seq<Assembler.Insn>, prefix: seq<Stmt>, e: Cond, snaplen: u32,
                                                rs: seq<Record>)
    requires Pipeline.Answers(code, prefix, e, snaplen) && snaplen > 0
    ensures Matching(false, code, rs) == Satisfying(prefix, e, rs)
  {
    if rs != [] {
      PassesExactly(code, prefix, e, snaplen, rs[0].pkt);
      MatchingIsSatisfying(code, prefix, e, snaplen, rs[1..]);
    }
  }

  lemma {:induction false} MatchingSettled(code: seq<Assembler.Insn>, prefix: seq<Stmt>, e: Cond, snaplen: u32,
                                           rs: seq<Record>)
    requires AnswersSettled(code, prefix, e, snaplen) && snaplen > 0
    requires forall k :: 0 <= k < |rs| ==> Settles(prefix, e, rs[k].pkt)
    ensures Matching(false, code, rs) == Satisfying(prefix, e, rs)
  {
    if rs != [] {
      PassesSettled(code, prefix, e, snaplen, rs[0].pkt);
      MatchingSettled(code, prefix, e, snaplen, rs[1..]);
    }
  }

  lemma {:induction false} MatchingIsAll(useBpf: bool, code: seq<Assembler.Insn>, rs: seq<Record>)
    requires useBpf || code == []
    ensures Matching(useBpf, code, rs) == Packets(rs)
  {
    if rs != [] {
      PassesAll(useBpf, code, rs[0].pkt);
      MatchingIsAll(useBpf, code, rs[1..]);
      assert Packets(rs) == [rs[0].pkt] + Packets(rs[1..]);
    }
  }

  // ----- a whole capture -----

  /** What the handle was given is the buffers the kernel had for it. */
  ghost predicate Fed(r: Reader, kernel: seq<ReadResult>)
    reads r
  {
    r.taken + AllRecords(r.kernel) == AllRecords(kernel)
  }

  /**
   Compiling any condition and reading with it, the filter not being in the kernel: the packets
   delivered are, in order and none twice, among those of the buffers read on which the condition is
   true; when the flag is never raised they are all of those but the ones waiting.
   */
  method CaptureFiltered(e: Cond, prefix: seq<Stmt>, snaplen: u32, kernel: seq<ReadResult>, cnts: seq<int>,
                         signals: seq<nat -> bool>) returns (r: Reader)
    requires snaplen > 0 && |cnts| == |signals|
    requires forall i :: 0 <= i < |kernel| && kernel[i].Data? ==> WellFormed(kernel[i].buf)
    ensures r.Valid() && Fed(r, kernel)
    ensures TakenAt(Satisfying(prefix, e, r.taken), r.places, r.delivered)
    ensures Quiet(signals) ==> r.delivered + r.Waiting() == Satisfying(prefix, e, r.taken)
  {
    hide *;
    var fp := Pipeline.CompileFilter(e, prefix, snaplen);
    r := new Reader(false, fp[..], kernel);
    Session(r, cnts, signals);
    MatchingIsSatisfying(fp[..], prefix, e, snaplen, r.taken);
    FedIs(r, kernel);
  }

  /** The same with the optimizer, as far as the condition does not fault on the packets that come. */
  method CaptureOptimized(e: Cond, prefix: seq<Stmt>, snaplen: u32, hash: ValueNumbering.Key -> nat,
                          ghost shared: set<nat>, kernel: seq<ReadResult>, cnts: seq<int>,
                          signals: seq<nat -> bool>) returns (r: Reader)
    requires snaplen > 0 && |cnts| == |signals| && Containment.ProgramContained(prefix, e, shared)
    requires forall i :: 0 <= i < |kernel| && kernel[i].Data? ==> WellFormed(kernel[i].buf)
    ensures r.Valid() && Fed(r, kernel)
    ensures (forall k :: 0 <= k < |r.taken| ==> Settles(prefix, e, r.taken[k].pkt)) ==>
      && TakenAt(Satisfying(prefix, e, r.taken), r.places, r.delivered)
      && (Quiet(signals) ==> r.delivered + r.Waiting() == Satisfying(prefix, e, r.taken))
  {
    hide *;
    var fp := Pipeline.CompileOptimized(e, prefix, snaplen, hash, shared);
    SettledIs(fp[..], prefix, e, snaplen);
    r := new Reader(false, fp[..], kernel);
    Session(r, cnts, signals);
    if forall k :: 0 <= k < |r.taken| ==> Settles(prefix, e, r.taken[k].pkt) {
      MatchingSettled(fp[..], prefix, e, snaplen, r.taken);
    }
    FedIs(r, kernel);
  }

  /** With the filter in the kernel, or with none, every packet of the buffers read counts. */
  method CaptureAll(useBpf: bool, fcode: seq<Assembler.Insn>, kernel: seq<ReadResult>, cnts: seq<int>,
                    signals: seq<nat -> bool>) returns (r: Reader)
    requires (useBpf || fcode == []) && |cnts| == |signals|
    requires forall i :: 0 <= i < |kernel| && kernel[i].Data? ==> WellFormed(kernel[i].buf)
    ensures r.Valid() && Fed(r, kernel)
    ensures TakenAt(Packets(r.taken), r.places, r.delivered)
    ensures Quiet(signals) ==> r.delivered + r.Waiting() == Packets(r.taken)
  {
    hide *;
    r := new Reader(useBpf, fcode, kernel);
    Session(r, cnts, signals);
    MatchingIsAll(useBpf, fcode, r.taken);
    FedIs(r, kernel);
  }

  lemma FedIs(r: Reader, kernel: seq<ReadResult>)
    requires r.taken + AllRecords(r.kernel) == [] + AllRecords(kernel)
    ensures Fed(r, kernel)
  {
    assert [] + AllRecords(kernel) == AllRecords(kernel);
  }

  lemma SettledIs(code: seq<Assembler.Insn>, prefix: seq<Stmt>, e: Cond, snaplen: u32)
    requires forall r, p :: Closing.Answer(prefix, e, snaplen, r, p) != Fault ==>
      Assembler.RunCode(code, 0, r, p) == Some(Closing.Answer(prefix, e, snaplen, r, p))
    ensures AnswersSettled(code, prefix, e, snaplen)
  {
  }
}
