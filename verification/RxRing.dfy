/**
 The receive ring between the interrupt handler, which takes buffers to fill, and the poller,
 which peeks at the oldest frame and releases it. One element always stays unused, so that a
 full ring can be told from an empty one.
 */
module RxRing {
  import opened Machine

  const ETH_MIN: nat := 60
  const ETH_MAX: nat := 1514

  /** An element: the length of the frame, and its bytes. */
  datatype Elem = Elem(size: nat, data: seq<byte>)

  function Wrap(i: nat, n: nat): nat {
    if i >= n then i - n else i
  }

  /** The elements from out on, k of them, going round. */
  function Take(pool: seq<Elem>, out: nat, k: nat): (r: seq<Elem>)
    requires out < |pool| && k <= |pool|
    ensures |r| == k
    decreases k
  {
    if k == 0 then [] else [pool[out]] + Take(pool, Wrap(out + 1, |pool|), k - 1)
  }

  lemma {:induction false} TakeLast(pool: seq<Elem>, out: nat, k: nat)
    requires out < |pool| && k < |pool|
    ensures Take(pool, out, k + 1) == Take(pool, out, k) + [pool[Wrap(out + k, |pool|)]]
    decreases k
  {
    if k > 0 {
      TakeLast(pool, Wrap(out + 1, |pool|), k - 1);
    }
  }

  /** Writing to the element behind the k that are in use does not touch them. */
  lemma {:induction false} TakeOthers(pool: seq<Elem>, out: nat, k: nat, j: nat, e: Elem)
    requires out < |pool| && k <= j < |pool|
    ensures Take(pool[Wrap(out + j, |pool|) := e], out, k) == Take(pool, out, k)
    decreases k
  {
    if k > 0 {
      TakeOthers(pool, Wrap(out + 1, |pool|), k - 1, j - 1, e);
    }
  }

  // ----- the queue it stands for -----

  datatype Op = Get(len: int, data: seq<byte>) | Peek | Release

  /**
   The poller's view: the frames queued, and whether it has peeked at the first since the last
   overflow or release.
   */
  datatype Queue = Queue(frames: seq<Elem>, peeked: bool)

  predicate Fits(len: int) {
    ETH_MIN <= len <= ETH_MAX
  }

  /** A frame is queued, dropped for its length, or, when the queue is full, lost with everything queued. */
  function Apply(capacity: nat, q: Queue, op: Op): Queue {
    match op
    case Get(len, data) =>
      if !Fits(len) then q
      else if |q.frames| < capacity then q.(frames := q.frames + [Elem(len, data)])
      else Queue([], false)
    case Peek => q.(peeked := q.frames != [])
    case Release => if q.frames == [] then q else Queue(q.frames[1..], false)
  }

  /** Every release follows a peek that found a frame, with no overflow in between. */
  predicate Disciplined(capacity: nat, q: Queue, ops: seq<Op>)
    decreases |ops|
  {
    ops == [] || ((ops[0].Release? ==> q.peeked) && Disciplined(capacity, Apply(capacity, q, ops[0]), ops[1..]))
  }

  function ApplyAll(capacity: nat, q: Queue, ops: seq<Op>): Queue
    decreases |ops|
  {
    if ops == [] then q else ApplyAll(capacity, Apply(capacity, q, ops[0]), ops[1..])
  }

  /** What a peek has seen is still there when the release comes. */
  predicate Sound(capacity: nat, q: Queue) {
    (q.peeked ==> q.frames != []) && |q.frames| <= capacity
  }

  lemma {:induction false} AllSound(capacity: nat, q: Queue, ops: seq<Op>)
    requires Sound(capacity, q)
    ensures Sound(capacity, ApplyAll(capacity, q, ops))
    decreases |ops|
  {
    if ops != [] {
      AllSound(capacity, Apply(capacity, q, ops[0]), ops[1..]);
    }
  }

  /** What an operation tells its caller: whether there is room, or the oldest frame. */
  datatype Reply = Room(ok: bool) | Oldest(frame: Option<Elem>) | Released

  function ReplyTo(capacity: nat, q: Queue, op: Op): Reply {
    match op
    case Get(len, _) => Room(Fits(len) && |q.frames| < capacity)
    case Peek => Oldest(if q.frames == [] then None else Some(q.frames[0]))
    case Release => Released
  }

  /** What the operations of a run are to be told, one after another. */
  function Replies(capacity: nat, q: Queue, ops: seq<Op>): (r: seq<Reply>)
    ensures |r| == |ops|
    decreases |ops|
  {
    if ops == [] then [] else [ReplyTo(capacity, q, ops[0])] + Replies(capacity, Apply(capacity, q, ops[0]), ops[1..])
  }

  /** The frames a run queues, and those it takes out again, in order. */
  function Queued(capacity: nat, q: Queue, ops: seq<Op>): seq<Elem>
    decreases |ops|
  {
    if ops == [] then []
    else
      var rest := Queued(capacity, Apply(capacity, q, ops[0]), ops[1..]);
      if ops[0].Get? && ReplyTo(capacity, q, ops[0]).ok then [Elem(ops[0].len, ops[0].data)] + rest else rest
  }

  function Taken(capacity: nat, q: Queue, ops: seq<Op>): seq<Elem>
    decreases |ops|
  {
    if ops == [] then []
    else
      var rest := Taken(capacity, Apply(capacity, q, ops[0]), ops[1..]);
      if ops[0].Release? && q.frames != [] then [q.frames[0]] + rest else rest
  }

  predicate Overflows(capacity: nat, q: Queue, ops: seq<Op>)
    decreases |ops|
  {
    ops != [] &&
    ((ops[0].Get? && Fits(ops[0].len) && |q.frames| >= capacity)
      || Overflows(capacity, Apply(capacity, q, ops[0]), ops[1..]))
  }

  /** Without an overflow the frames come out in the order they went in, none lost and none twice. */
  lemma {:induction false} FirstInFirstOut(capacity: nat, q: Queue, ops: seq<Op>)
    requires !Overflows(capacity, q, ops)
    ensures Taken(capacity, q, ops) + ApplyAll(capacity, q, ops).frames == q.frames + Queued(capacity, q, ops)
    decreases |ops|
  {
    if ops != [] {
      var next := Apply(capacity, q, ops[0]);
      FirstInFirstOut(capacity, next, ops[1..]);
      var rest := Queued(capacity, next, ops[1..]);
      match ops[0]
      case Get(len, data) =>
        if Fits(len) {
          assert (q.frames + [Elem(len, data)]) + rest == q.frames + ([Elem(len, data)] + rest);
        }
      case Peek =>
      case Release =>
        if q.frames != [] {
          assert [q.frames[0]] + q.frames[1..] == q.frames;
          assert [q.frames[0]] + (q.frames[1..] + rest) == q.frames + rest;
        }
    }
  }

  // ----- the ring -----

  class Ring {
    const pool: array<Elem>
    var inIndex: nat
    var outIndex: nat

    ghost predicate Valid()
      reads this
    {
      pool.Length > 0 && inIndex < pool.Length && outIndex < pool.Length
    }

    function Count(): (k: nat)
      reads this
      requires Valid()
      ensures k < pool.Length
    {
      if outIndex <= inIndex then inIndex - outIndex else inIndex + pool.Length - outIndex
    }

    /** The frames in the ring, oldest first. */
    ghost function Frames(): (r: seq<Elem>)
      reads this, pool
      requires Valid()
    {
      Take(pool[..], outIndex, Count())
    }

    /** pktq_init */
    constructor (num: nat)
      requires num > 0
      ensures Valid() && Frames() == [] && pool.Length == num && fresh(pool)
    {
      pool := new Elem[num](i => Elem(0, []));
      inIndex, outIndex := 0, 0;
    }

    /** pktq_inc_out */
    method IncOut()
      requires Valid()
      modifies this`outIndex
      ensures outIndex == Wrap(old(outIndex) + 1, pool.Length)
    {
      outIndex := outIndex + 1;
      if outIndex >= pool.Length {
        outIndex := 0;
      }
    }

    /** pktq_in_index */
    method NextIn() returns (index: nat)
      requires Valid()
      ensures index == Wrap(inIndex + 1, pool.Length)
    {
      index := inIndex + 1;
      if index >= pool.Length {
        index := 0;
      }
    }

    /** peek_rxbuf: the oldest frame, which stays where it is. */
    method PeekRxbuf() returns (r: Option<Elem>)
      requires Valid()
      ensures r == if Frames() == [] then None else Some(Frames()[0])
    {
      if inIndex != outIndex {
        r := Some(pool[outIndex]);
      } else {
        r := None;
      }
    }

    /** release_rxbuf: without a frame to release, the ring comes to hold all its stale elements. */
    method ReleaseRxbuf()
      requires Valid()
      modifies this`outIndex
      ensures Valid()
      ensures if old(Frames()) != [] then Frames() == old(Frames())[1..] else |Frames()| == pool.Length - 1
    {
      IncOut();
    }

    /** get_rxbuf: the element to fill, already counted as the newest frame; an overflow empties the ring. */
    method GetRxbuf(len: int) returns (slot: Option<nat>)
      requires Valid()
      modifies this`inIndex, pool
      ensures Valid()
      ensures slot.Some? <==> 60 <= len <= 1514 && |old(Frames())| < pool.Length - 1
      ensures slot.None? ==> Frames() == if 60 <= len <= 1514 then [] else old(Frames())
      ensures slot.Some? ==>
        && slot.value == old(inIndex) && pool[slot.value].size == len
        && Frames() == old(Frames()) + [pool[slot.value]]
    {
      if len < ETH_MIN || len > ETH_MAX {
        return None;
      }
      ghost var frames, k, out := Frames(), Count(), outIndex;
      var idx := NextIn();
      if idx != outIndex {
        ghost var pool0 := pool[..];
        pool[inIndex] := Elem(len, pool[inIndex].data);
        TakeOthers(pool0, out, k, k, Elem(len, pool0[inIndex].data));
        assert pool[..] == pool0[inIndex := Elem(len, pool0[inIndex].data)];
        TakeLast(pool[..], out, k);
        slot := Some(inIndex);
        inIndex := idx;
        return;
      }
      inIndex := outIndex;
      slot := None;
    }

    /** The driver copies a frame into the element it was given. */
    method Fill(slot: nat, data: seq<byte>)
      requires Valid() && Frames() != [] && slot == Wrap(outIndex + Count() - 1, pool.Length)
      modifies pool
      ensures Frames() == old(Frames())[..Count() - 1] + [Elem(old(Frames())[Count() - 1].size, data)]
    {
      ghost var pool0, k := pool[..], Count() - 1;
      TakeLast(pool0, outIndex, k);
      pool[slot] := Elem(pool[slot].size, data);
      assert pool[..] == pool0[slot := Elem(pool0[slot].size, data)];
      TakeOthers(pool0, outIndex, k, k, Elem(pool0[slot].size, data));
      TakeLast(pool[..], outIndex, k);
    }

    /** One thing the handler or the poller does. */
    method Do(op: Op, ghost q: Queue) returns (reply: Reply)
      requires Valid() && Frames() == q.frames && (op.Release? ==> q.peeked) && Sound(pool.Length - 1, q)
      modifies this, pool
      ensures Valid() && Frames() == Apply(pool.Length - 1, q, op).frames
      ensures reply == ReplyTo(pool.Length - 1, q, op)
    {
      match op {
        case Get(len, data) =>
          var slot := GetRxbuf(len);
          if slot.Some? {
            Fill(slot.value, data);
          }
          reply := Room(slot.Some?);
        case Peek =>
          var r := PeekRxbuf();
          reply := Oldest(r);
        case Release =>
          ReleaseRxbuf();
          reply := Released;
      }
    }

    /**
     Any run in which each release follows a successful peek with no overflow in between: the
     ring is a queue of num_elem - 1 frames that empties itself when it overflows, and every
     operation is told what that queue would tell it.
     */
    method RunAll(ops: seq<Op>) returns (replies: seq<Reply>)
      requires Valid() && Frames() == [] && Disciplined(pool.Length - 1, Queue([], false), ops)
      modifies this, pool
      ensures Valid() && Frames() == ApplyAll(pool.Length - 1, Queue([], false), ops).frames
      ensures replies == Replies(pool.Length - 1, Queue([], false), ops)
    {
      ghost var capacity, q := pool.Length - 1, Queue([], false);
      replies := [];
      for i := 0 to |ops|
        invariant Valid() && Disciplined(capacity, q, ops[i..]) && Sound(capacity, q)
        invariant Frames() == q.frames
        invariant ApplyAll(capacity, q, ops[i..]) == ApplyAll(capacity, Queue([], false), ops)
        invariant replies + Replies(capacity, q, ops[i..]) == Replies(capacity, Queue([], false), ops)
      {
        assert ops[i..][0] == ops[i] && ops[i..][1..] == ops[i + 1..];
        var reply := Do(ops[i], q);
        q := Apply(capacity, q, ops[i]);
        replies := replies + [reply];
      }
    }
  }
}
