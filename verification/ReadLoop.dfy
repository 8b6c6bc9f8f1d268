/**
 Delivering packets from BPF buffers. A call hands out at most cnt packets; what is left of a
 buffer waits, as a cursor and a byte count, for the next call. The flag that breaks the loop
 can be raised at any moment.
 */
module ReadLoop {
  import opened Machine
  import opened FlowGraph
  import Assembler

  // ----- buffers -----

  const BPF_ALIGNMENT: nat := 4

  function WordAlign(n: nat): nat {
    (n + 3) / BPF_ALIGNMENT * BPF_ALIGNMENT
  }

  /** A captured packet behind its header. */
  datatype Record = Record(hdrlen: nat, pkt: Packet)

  function Extent(r: Record): nat {
    WordAlign(|r.pkt.data| + r.hdrlen)
  }

  /** Where record k starts; every record is padded to a word boundary. */
  function Start(rs: seq<Record>, k: nat): nat
    requires k <= |rs|
  {
    if k == 0 then 0 else Extent(rs[0]) + Start(rs[1..], k - 1)
  }

  /** What the kernel puts into the buffer in one read; the last record may lack its padding. */
  datatype Buffer = Buffer(records: seq<Record>, len: nat)

  predicate WellFormed(b: Buffer) {
    && (forall k :: 0 <= k < |b.records| ==> b.records[k].hdrlen > 0)
    && (if b.records == [] then b.len == 0
        else Start(b.records, |b.records| - 1) < b.len <= Start(b.records, |b.records|))
  }

  /** The record whose header is at byte offset off. */
  function RecordAt(rs: seq<Record>, off: nat): Option<Record> {
    if rs == [] then None
    else if off == 0 then Some(rs[0])
    else if off < Extent(rs[0]) then None
    else RecordAt(rs[1..], off - Extent(rs[0]))
  }

  /** The next multiple of four. */
  lemma AlignUp(n: nat)
    ensures n <= WordAlign(n) < n + 4 && WordAlign(n) % 4 == 0
  {
  }

  lemma {:induction false} StartNext(rs: seq<Record>, k: nat)
    requires k < |rs| && forall j :: 0 <= j < |rs| ==> rs[j].hdrlen > 0
    ensures Start(rs, k + 1) == Start(rs, k) + Extent(rs[k]) > Start(rs, k)
    ensures RecordAt(rs, Start(rs, k)) == Some(rs[k])
  {
    AlignUp(|rs[0].pkt.data| + rs[0].hdrlen);
    if k > 0 {
      StartNext(rs[1..], k - 1);
      AlignUp(|rs[k].pkt.data| + rs[k].hdrlen);
    } else {
      assert Start(rs[1..], 0) == 0;
    }
  }

  lemma {:induction false} StartGrows(rs: seq<Record>, j: nat, k: nat)
    requires j < k <= |rs| && forall i :: 0 <= i < |rs| ==> rs[i].hdrlen > 0
    ensures Start(rs, j) < Start(rs, k)
  {
    StartNext(rs, k - 1);
    if j < k - 1 {
      StartGrows(rs, j, k - 1);
    }
  }

  // ----- the packets that match -----

  const START: Regs := [0, 0, 0, 0, 0, 0, 0, 0, 0, 0, 0, 0, 0, 0, 0, 0, 0, 0]

  /** With the filter in the kernel every packet has passed already; no filter accepts all. */
  function Passes(useBpf: bool, fcode: seq<Assembler.Insn>, p: Packet): bool {
    useBpf || fcode == [] ||
    var v := Assembler.RunCode(fcode, 0, START, p);
    v.Some? && v.value.Return? && v.value.v != 0
  }

  function Matching(useBpf: bool, fcode: seq<Assembler.Insn>, rs: seq<Record>): seq<Packet> {
    if rs == [] then []
    else (if Passes(useBpf, fcode, rs[0].pkt) then [rs[0].pkt] else []) + Matching(useBpf, fcode, rs[1..])
  }

  lemma {:induction false} MatchingAppend(useBpf: bool, fcode: seq<Assembler.Insn>, rs: seq<Record>, more: seq<Record>)
    ensures Matching(useBpf, fcode, rs + more) == Matching(useBpf, fcode, rs) + Matching(useBpf, fcode, more)
  {
    if rs == [] {
      assert rs + more == more;
    } else {
      assert (rs + more)[1..] == rs[1..] + more;
      MatchingAppend(useBpf, fcode, rs[1..], more);
    }
  }

  /** The matching packets are those of the records that pass, each once and in order. */
  lemma {:induction false} MatchingPlaces(useBpf: bool, fcode: seq<Assembler.Insn>, rs: seq<Record>)
    returns (places: seq<nat>)
    ensures |places| == |Matching(useBpf, fcode, rs)|
    ensures forall i :: 0 <= i < |places| ==> places[i] < |rs| && rs[places[i]].pkt == Matching(useBpf, fcode, rs)[i]
    ensures forall i, j :: 0 <= i < j < |places| ==> places[i] < places[j]
    ensures forall k :: 0 <= k < |rs| ==> (k in places <==> Passes(useBpf, fcode, rs[k].pkt))
    decreases |rs|
  {
    if rs == [] {
      places := [];
    } else {
      var n := |rs| - 1;
      places := MatchingPlaces(useBpf, fcode, rs[..n]);
      assert rs[..n] + [rs[n]] == rs;
      MatchingAppend(useBpf, fcode, rs[..n], [rs[n]]);
      assert [rs[n]][1..] == [];
      ghost var before := places;
      if Passes(useBpf, fcode, rs[n].pkt) {
        places := places + [n];
      }
      forall k | 0 <= k < |rs| ensures k in places <==> Passes(useBpf, fcode, rs[k].pkt) {
        assert k < n ==> rs[..n][k] == rs[k] && (k in places <==> k in before);
      }
    }
  }

  // ----- in order, without duplicates -----

  /** From s some elements were taken, at these places, in order and none twice. */
  ghost predicate TakenAt(s: seq<Packet>, places: seq<nat>, taken: seq<Packet>) {
    && |places| == |taken|
    && (forall i :: 0 <= i < |places| ==> places[i] < |s| && s[places[i]] == taken[i])
    && (forall i, j :: 0 <= i < j < |places| ==> places[i] < places[j])
  }

  function Stretch(from: nat, n: nat): (r: seq<nat>)
    ensures |r| == n && forall i :: 0 <= i < n ==> r[i] == from + i
  {
    seq(n, i requires 0 <= i => from + i)
  }

  /** Taking the next n elements, all places so far being before them. */
  lemma TakeMore(s: seq<Packet>, places: seq<nat>, taken: seq<Packet>, from: nat, n: nat)
    requires TakenAt(s, places, taken) && from + n <= |s| && forall i :: 0 <= i < |places| ==> places[i] < from
    ensures TakenAt(s, places + Stretch(from, n), taken + s[from..from + n])
    ensures forall i :: 0 <= i < |places + Stretch(from, n)| ==> (places + Stretch(from, n))[i] < from + n
  {
  }

  // ----- the capture handle -----

  datatype ReadResult = Data(buf: Buffer) | Interrupted | WouldBlock | ReadError

  /** The records of all the buffers there are to read. */
  function AllRecords(kernel: seq<ReadResult>): seq<Record> {
    if kernel == [] then []
    else (if kernel[0].Data? then kernel[0].buf.records else []) + AllRecords(kernel[1..])
  }

  /** What a call returns: a number of packets, or that it was told to break, or an error. */
  datatype Outcome = Count(n: nat) | Broke | Failed

  /**
   What holds between calls: matched are the matching packets of all buffers read so far, some
   of them delivered, in order and none twice, and waiting the last ones. Unless a buffer was
   given up, every matching packet is either delivered or waiting.
   */
  ghost predicate Accounted(matched: seq<Packet>, places: seq<nat>, delivered: seq<Packet>, waiting: seq<Packet>,
          lost: bool) {
    && TakenAt(matched, places, delivered)
    && |waiting| <= |matched| && matched[|matched| - |waiting|..] == waiting
    && (forall i :: 0 <= i < |places| ==> places[i] < |matched| - |waiting|)
    && (!lost ==> delivered + waiting == matched)
  }

  /** The first n of the waiting packets are delivered. */
  lemma DeliverSome(matched: seq<Packet>, places: seq<nat>, delivered: seq<Packet>, waiting: seq<Packet>,
          lost: bool, n: nat)
    requires Accounted(matched, places, delivered, waiting, lost) && n <= |waiting|
    ensures |waiting| <= |matched|
    ensures Accounted(matched, places + Stretch(|matched| - |waiting|, n), delivered + waiting[..n], waiting[n..], lost)
  {
    var from := |matched| - |waiting|;
    TakeMore(matched, places, delivered, from, n);
    assert matched[from..from + n] == waiting[..n];
    assert waiting[..n] + waiting[n..] == waiting;
    assert delivered + waiting[..n] + waiting[n..] == delivered + waiting;
  }

  lemma NewBuffer(matched: seq<Packet>, places: seq<nat>, delivered: seq<Packet>, lost: bool, more: seq<Packet>)
    requires Accounted(matched, places, delivered, [], lost)
    ensures Accounted(matched + more, places, delivered, more, lost)
  {
  }

  /** Giving up what is waiting loses it, if it is anything at all. */
  lemma GiveUp(matched: seq<Packet>, places: seq<nat>, delivered: seq<Packet>, waiting: seq<Packet>, lost: bool)
    requires Accounted(matched, places, delivered, waiting, lost)
    ensures Accounted(matched, places, delivered, [], lost || waiting != [])
  {
    assert waiting == [] ==> delivered + [] == delivered + waiting;
  }

  /** Why the loop over the packets stopped. */
  datatype Why = Ended | Full | Broken

  lemma NothingYet()
    ensures WellFormed(Buffer([], 0)) && Accounted([], [], [], [], false)
  {
  }

  /** A cursor before the end of the data is at the start of a record. */
  lemma CursorInside(buf: Buffer, j: nat)
    requires WellFormed(buf) && j <= |buf.records| && Start(buf.records, j) < buf.len
    ensures j < |buf.records| && RecordAt(buf.records, Start(buf.records, j)) == Some(buf.records[j])
    ensures Start(buf.records, j + 1) == Start(buf.records, j) + Extent(buf.records[j])
  {
    if j < |buf.records| {
      StartNext(buf.records, j);
    }
  }

  lemma CursorOutside(buf: Buffer, j: nat)
    requires WellFormed(buf) && j <= |buf.records| && Start(buf.records, j) >= buf.len
    ensures j == |buf.records|
  {
    var n := |buf.records|;
    if j < n - 1 {
      StartGrows(buf.records, j, n - 1);
    }
  }

  lemma MatchingNext(useBpf: bool, fcode: seq<Assembler.Insn>, rs: seq<Record>, j: nat)
    requires j < |rs|
    ensures Matching(useBpf, fcode, rs[j..]) ==
            (if Passes(useBpf, fcode, rs[j].pkt) then [rs[j].pkt] else []) + Matching(useBpf, fcode, rs[j + 1..])
  {
    assert rs[j..][1..] == rs[j + 1..];
  }

  class Reader {
    const useBpf: bool
    const fcode: seq<Assembler.Insn>
    /** What the reads to come return; after that there is never any data. */
    var kernel: seq<ReadResult>
    var buffer: Buffer
    var bp: nat
    var cc: int
    var breakLoop: bool
    var delivered: seq<Packet>
    ghost var at: nat
    /** The records of the buffers read so far. */
    ghost var taken: seq<Record>
    ghost var matched: seq<Packet>
    ghost var places: seq<nat>
    ghost var lost: bool

    ghost predicate CursorOk()
      reads this
    {
      && WellFormed(buffer)
      && (forall i :: 0 <= i < |kernel| && kernel[i].Data? ==> WellFormed(kernel[i].buf))
      && (cc != 0 ==> at <= |buffer.records| && bp == Start(buffer.records, at) && bp + cc == buffer.len)
    }

    /** The matching packets of the buffer that the cursor has not passed. */
    ghost function Waiting(): seq<Packet>
      reads this
      requires CursorOk()
    {
      if cc == 0 then [] else Matching(useBpf, fcode, buffer.records[at..])
    }

    ghost predicate Valid()
      reads this
    {
      CursorOk() && Accounted(matched, places, delivered, Waiting(), lost) && matched == Matching(useBpf, fcode, taken)
    }

    constructor (useBpf: bool, fcode: seq<Assembler.Insn>, kernel: seq<ReadResult>)
      requires forall i :: 0 <= i < |kernel| && kernel[i].Data? ==> WellFormed(kernel[i].buf)
      ensures Valid() && delivered == matched == [] && !lost && !breakLoop && this.kernel == kernel && taken == []
      ensures this.useBpf == useBpf && this.fcode == fcode
    {
      this.useBpf, this.fcode, this.kernel := useBpf, fcode, kernel;
      buffer, bp, cc, breakLoop, delivered := Buffer([], 0), 0, 0, false, [];
      at, taken, matched, places, lost := 0, [], [], [], false;
      NothingYet();
    }

    /**
     The loop over the packets of buf from record j0 on. It ends at the end of the buffer, when
     cnt packets are delivered, or when the flag is found raised.
     */
    method Deliver(buf: Buffer, bp0: nat, cnt: int, signal: nat -> bool, t0: nat, ghost j0: nat)
      returns (n: nat, bpEnd: nat, why: Why, ghost j: nat, ghost got: seq<Packet>)
      requires WellFormed(buf) && j0 <= |buf.records| && bp0 == Start(buf.records, j0) && !breakLoop
      modifies this`delivered, this`breakLoop
      ensures delivered == old(delivered) + got && |got| == n
      ensures j0 <= j <= |buf.records| && bpEnd == Start(buf.records, j)
      ensures Matching(useBpf, fcode, buf.records[j0..]) == got + Matching(useBpf, fcode, buf.records[j..])
      ensures cnt > 0 ==> n <= cnt && (n == cnt <==> why.Full?)
      ensures why.Ended? ==> j == |buf.records|
      ensures why.Full? ==> cnt > 0
      ensures breakLoop <==> why.Broken?
      ensures why.Broken? ==> bpEnd < buf.len && exists i :: signal(i)
    {
      hide *;
      n, bpEnd, got, j := 0, bp0, [], j0;
      var t := t0;
      while bpEnd < buf.len
        invariant j0 <= j <= |buf.records| && bpEnd == Start(buf.records, j) && !breakLoop
        invariant delivered == old(delivered) + got && |got| == n && (cnt > 0 ==> n < cnt)
        invariant Matching(useBpf, fcode, buf.records[j0..]) == got + Matching(useBpf, fcode, buf.records[j..])
        decreases |buf.records| - j
      {
        breakLoop := signal(t);
        t := t + 1;
        if breakLoop {
          return n, bpEnd, Broken, j, got;
        }
        CursorInside(buf, j);
        var bhp := RecordAt(buf.records, bpEnd).value;
        MatchingNext(useBpf, fcode, buf.records, j);
        bpEnd := bpEnd + Extent(bhp);
        j := j + 1;
        if Passes(useBpf, fcode, bhp.pkt) {
          delivered := delivered + [bhp.pkt];
          got := got + [bhp.pkt];
          n := n + 1;
          if n >= cnt && cnt > 0 {
            return n, bpEnd, Full, j, got;
          }
        }
      }
      CursorOutside(buf, j);
      why := Ended;
    }

    /** What the next read returns; Interrupted only while there is something left to come. */
    method KernelRead() returns (got: ReadResult)
      requires forall i :: 0 <= i < |kernel| && kernel[i].Data? ==> WellFormed(kernel[i].buf)
      modifies this`kernel
      ensures forall i :: 0 <= i < |kernel| && kernel[i].Data? ==> WellFormed(kernel[i].buf)
      ensures got.Data? ==> WellFormed(got.buf)
      ensures got.Interrupted? ==> |kernel| < |old(kernel)|
      ensures AllRecords(old(kernel)) == (if got.Data? then got.buf.records else []) + AllRecords(kernel)
    {
      NothingYet();
      if kernel == [] {
        return Data(Buffer([], 0));
      }
      got := kernel[0];
      kernel := kernel[1..];
    }

    /** Looks at the flag: it may have been raised since the last time. */
    method TestBreak(signal: nat -> bool, t: nat)
      modifies this`breakLoop
      ensures breakLoop == (old(breakLoop) || signal(t))
    {
      breakLoop := breakLoop || signal(t);
    }

    /**
     The part of a call before the loop over the packets: it looks at the flag and gets hold of
     a buffer, the one in hand or a new one. source are the matching packets there are to deliver.
     */
    method NextBuffer(signal: nat -> bool)
      returns (early: Option<Outcome>, t: nat, bp0: nat, ghost j0: nat, ghost source: seq<Packet>, ghost anew: bool)
      requires Valid()
      modifies this`kernel, this`buffer, this`breakLoop, this`matched, this`taken
      ensures !breakLoop && CursorOk() && matched == Matching(useBpf, fcode, taken)
      ensures taken + AllRecords(kernel) == old(taken) + AllRecords(old(kernel))
      ensures if anew then cc == 0 && matched == old(matched) + source
              else matched == old(matched) && source == Waiting() == old(Waiting())
      ensures early.Some? ==> !anew && Valid()
      ensures early.Some? && !early.value.Broke? ==> source == [] && early.value in {Count(0), Failed}
      ensures early == Some(Broke) ==> old(breakLoop) || exists i :: signal(i)
      ensures early.None? ==>
        && j0 <= |buffer.records| && bp0 == Start(buffer.records, j0) && (!anew ==> cc != 0)
        && source == Matching(useBpf, fcode, buffer.records[j0..])
        && Accounted(matched, places, delivered, source, lost)
    {
      hide WellFormed, Start, Matching, Accounted, AllRecords;
      t, bp0, j0, source, anew := 0, bp, at, Waiting(), false;
      while true
        invariant kernel == old(kernel) || |kernel| < |old(kernel)|
        invariant Valid() && buffer == old(buffer) && matched == old(matched) && !anew
        invariant source == Waiting() == old(Waiting()) && bp0 == bp && j0 == at
        invariant taken == old(taken) && AllRecords(kernel) == AllRecords(old(kernel))
        invariant breakLoop ==> old(breakLoop)
        decreases |kernel|
      {
        TestBreak(signal, t);
        t := t + 1;
        if breakLoop {
          breakLoop := false;
          return Some(Broke), t, bp0, j0, source, anew;
        }
        if cc != 0 {
          return None, t, bp0, j0, source, anew;
        }
        var got := KernelRead();
        match got {
          case Interrupted =>
          case WouldBlock =>
            return Some(Count(0)), t, bp0, j0, source, anew;
          case ReadError =>
            return Some(Failed), t, bp0, j0, source, anew;
          case Data(buf) =>
            buffer, bp0, j0 := buf, 0, 0;
            source, anew := Matching(useBpf, fcode, buf.records), true;
            NewBuffer(matched, places, delivered, lost, source);
            assert buf.records[0..] == buf.records;
            StartZero(buf.records);
            MatchingAppend(useBpf, fcode, taken, buf.records);
            matched, taken := matched + source, taken + buf.records;
            return None, t, bp0, j0, source, anew;
        }
      }
    }

    /** Remembers where to go on: the records from j on are waiting. */
    method SaveCursor(bpEnd: nat, ghost j: nat)
      requires CursorOk() && j <= |buffer.records| && bpEnd == Start(buffer.records, j)
      modifies this`bp, this`cc, this`at
      ensures CursorOk() && Waiting() == Matching(useBpf, fcode, buffer.records[j..])
    {
      bp, cc, at := bpEnd, buffer.len - bpEnd, j;
      if cc == 0 {
        CursorOutside(buffer, j);
      }
    }

    /**
     pcap_read_bpf. source is what there was to deliver: the rest of the buffer in hand, or, when
     that was used up and a new one was read, the matching packets of the new one. signal tells
     before which looks at the flag it is raised.
     */
    method Read(cnt: int, signal: nat -> bool) returns (r: Outcome, ghost source: seq<Packet>, ghost anew: bool)
      requires Valid()
      modifies this
      ensures Valid() && taken + AllRecords(kernel) == old(taken) + AllRecords(old(kernel))
      ensures if anew then old(cc) == 0 && matched == old(matched) + source
        else matched == old(matched) && source == old(Waiting())
      ensures r.Count? ==>
        && r.n <= |source| && delivered == old(delivered) + source[..r.n] && Waiting() == source[r.n..]
        && lost == old(lost)
      ensures r.Count? && cnt > 0 ==> r.n <= cnt
      ensures r.Count? && !breakLoop && (cnt <= 0 || r.n < cnt) ==> r.n == |source|
      ensures !r.Count? ==> delivered == old(delivered)
      ensures r.Failed? ==> Waiting() == source == [] && lost == old(lost)
      ensures r.Broke? ==>
        && !breakLoop && Waiting() == (if anew then [] else source)
        && (lost <==> old(lost) || (anew && source != []))
      ensures r.Broke? || breakLoop ==> old(breakLoop) || exists i :: signal(i)
    {
      hide WellFormed, Start, Matching, Accounted, AllRecords;
      var early, t, bp0; ghost var j0;
      early, t, bp0, j0, source, anew := NextBuffer(signal);
      if early.Some? {
        return early.value, source, anew;
      }
      var n, bpEnd, why; ghost var j, got;
      n, bpEnd, why, j, got := Deliver(buffer, bp0, cnt, signal, t, j0);
      assert |got| <= |source| && source[..n] == got && source[n..] == Matching(useBpf, fcode, buffer.records[j..]);
      if why.Broken? && n == 0 {
        breakLoop := false;
        assert got == [] && delivered == old(delivered);
        if anew {
          GiveUp(matched, places, delivered, source, lost);
          lost := lost || source != [];
        }
        return Broke, source, anew;
      }
      MatchingNone(useBpf, fcode, buffer.records);
      r := Count(n);
      Settle(n, bpEnd, why.Ended?, j, source, old(delivered));
    }

    /** After n packets of the source are delivered: the rest waits, or the buffer is used up. */
    method Settle(n: nat, bpEnd: nat, ended: bool, ghost j: nat, ghost source: seq<Packet>, ghost was: seq<Packet>)
      requires CursorOk() && Accounted(matched, places, was, source, lost) && matched == Matching(useBpf, fcode, taken)
      requires n <= |source| && delivered == was + source[..n]
      requires j <= |buffer.records| && bpEnd == Start(buffer.records, j) && (ended ==> j == |buffer.records|)
      requires source[n..] == Matching(useBpf, fcode, buffer.records[j..])
      modifies this`bp, this`cc, this`at, this`places
      ensures Valid() && Waiting() == source[n..]
    {
      hide WellFormed, Start, Matching, Accounted;
      DeliverSome(matched, places, was, source, lost, n);
      places := places + Stretch(|matched| - |source|, n);
      MatchingNone(useBpf, fcode, buffer.records);
      if ended {
        cc := 0;
      } else {
        SaveCursor(bpEnd, j);
      }
    }
  }

  lemma StartZero(rs: seq<Record>)
    ensures Start(rs, 0) == 0
  {
  }

  lemma MatchingNone(useBpf: bool, fcode: seq<Assembler.Insn>, rs: seq<Record>)
    ensures Matching(useBpf, fcode, rs[|rs|..]) == []
  {
  }

  /** The flag is never raised. */
  ghost predicate Quiet(signals: seq<nat -> bool>) {
    forall k, i: nat :: 0 <= k < |signals| ==> !signals[k](i)
  }

  /**
   Any sequence of calls: the packets delivered are matching packets of the buffers read, in
   order and none twice; when the flag is never raised they are all of them but the ones waiting.
   */
  method Session(r: Reader, cnts: seq<int>, signals: seq<nat -> bool>)
    requires r.Valid() && |cnts| == |signals| && !r.breakLoop && !r.lost
    modifies r
    ensures r.Valid() && TakenAt(r.matched, r.places, r.delivered)
    ensures r.matched == Matching(r.useBpf, r.fcode, r.taken)
    ensures r.taken + AllRecords(r.kernel) == old(r.taken) + AllRecords(old(r.kernel))
    ensures old(r.delivered) <= r.delivered && old(r.matched) <= r.matched
    ensures Quiet(signals) ==> r.delivered + r.Waiting() == r.matched
  {
    hide *;
    for k := 0 to |cnts|
      invariant r.Valid() && old(r.delivered) <= r.delivered && old(r.matched) <= r.matched
      invariant r.taken + AllRecords(r.kernel) == old(r.taken) + AllRecords(old(r.kernel))
      invariant Quiet(signals) ==> !r.breakLoop && !r.lost
    {
      var outcome; ghost var source, anew;
      outcome, source, anew := r.Read(cnts[k], signals[k]);
      QuietAt(signals, k);
    }
    WhatIsKept(r);
  }

  lemma QuietAt(signals: seq<nat -> bool>, k: nat)
    requires k < |signals|
    ensures Quiet(signals) ==> !exists i :: signals[k](i)
  {
  }

  /** What the invariant says of the packets delivered and waiting. */
  lemma WhatIsKept(r: Reader)
    requires r.Valid()
    ensures r.CursorOk() && TakenAt(r.matched, r.places, r.delivered)
    ensures r.matched == Matching(r.useBpf, r.fcode, r.taken)
    ensures !r.lost ==> r.delivered + r.Waiting() == r.matched
  {
  }
}
