/**
 Matching an address in an 802.11 frame. Where the source and the destination address are
 depends on the frame type and on To DS and From DS (sections 7.2.2 and 7.2.3 of IEEE
 802.11-2007); every load is guarded by the tests that say the field is there.
 */
module Wlan {
  import opened Machine
  import opened FlowGraph
  import opened Fragments
  import opened CodeGen
  import opened Matching
  import opened Containment
  import MachineLaws

  // ----- where an address is -----

  /** Cut: the captured part ends before the frame control field tells. */
  datatype Place = Cut | Nowhere | Offset(o: nat)

  predicate Bit(b: byte, mask: nat) {
    BitAnd(b, mask) != 0
  }

  /** Type bits of the first byte: 0x04 control or reserved, 0x08 data. Second byte: 0x01 To DS, 0x02 From DS. */
  function SourceAt(d: seq<byte>): Place {
    if |d| < 1 then Cut
    else if Bit(d[0], 0x04) then Nowhere
    else if !Bit(d[0], 0x08) then Offset(10)
    else if |d| < 2 then Cut
    else if !Bit(d[1], 0x02) then Offset(10)
    else if !Bit(d[1], 0x01) then Offset(16)
    else Offset(24)
  }

  function DestinationAt(d: seq<byte>): Place {
    if |d| < 1 then Cut
    else if Bit(d[0], 0x04) then Nowhere
    else if !Bit(d[0], 0x08) then Offset(4)
    else if |d| < 2 then Cut
    else if !Bit(d[1], 0x01) then Offset(4)
    else Offset(16)
  }

  /** Frame control and duration take two bytes each, an address six; sequence control is before the fourth. */
  function AddressField(k: nat): nat
    requires 1 <= k <= 4
  {
    2 + 2 + 6 * (k - 1) + if k == 4 then 2 else 0
  }

  /**
   The places by frame type (management 0, control 1, data 2, reserved 3) and, for data, by the DS
   bits: the source is address 2 unless the frame comes from the distribution system, and then 3, or
   4 when it goes there as well; the destination is address 3 of what goes there and 1 of the rest.
   */
  lemma PlacesByLayout(d: seq<byte>)
    requires d != []
    ensures var kind := (d[0] / 4) % 4;
      && (kind == 1 || kind == 3 ==> SourceAt(d) == DestinationAt(d) == Nowhere)
      && (kind == 0 ==> SourceAt(d) == Offset(AddressField(2)) && DestinationAt(d) == Offset(AddressField(1)))
      && (kind == 2 && |d| == 1 ==> SourceAt(d) == DestinationAt(d) == Cut)
      && (kind == 2 && |d| > 1 ==>
            var toDs, fromDs := d[1] % 2 == 1, (d[1] / 2) % 2 == 1;
            && SourceAt(d) == Offset(AddressField(if !fromDs then 2 else if !toDs then 3 else 4))
            && DestinationAt(d) == Offset(AddressField(if toDs then 3 else 1)))
  {
    HeaderBits(d[0]);
    if |d| > 1 {
      HeaderBits(d[1]);
    }
    hide Bit;
  }

  lemma HeaderBits(b: byte)
    ensures Bit(b, 0x01) <==> b % 2 == 1
    ensures Bit(b, 0x02) <==> (b / 2) % 2 == 1
    ensures Bit(b, 0x04) <==> (b / 4) % 4 == 1 || (b / 4) % 4 == 3
    ensures Bit(b, 0x08) <==> (b / 4) % 4 == 2 || (b / 4) % 4 == 3
  {
    HeaderBit(b, 0, 0x01);
    HeaderBit(b, 1, 0x02);
    HeaderBit(b, 2, 0x04);
    HeaderBit(b, 3, 0x08);
    TypeBits(b);
    hide *;
  }

  lemma HeaderBit(b: byte, i: nat, mask: nat)
    requires i < 4 && mask == if i == 0 then 1 else if i == 1 then 2 else if i == 2 then 4 else 8
    ensures Bit(b, mask) <==> (b / mask) % 2 == 1
  {
    assert Pow2(0) == 1 && Pow2(1) == 2 && Pow2(2) == 4 && Pow2(3) == 8;
    MachineLaws.OneBit(b, i);
    hide Pow2, BitAnd;
  }

  lemma TypeBits(b: byte)
    ensures (b / 4) % 2 == 1 <==> (b / 4) % 4 == 1 || (b / 4) % 4 == 3
    ensures (b / 8) % 2 == 1 <==> (b / 4) % 4 == 2 || (b / 4) % 4 == 3
    ensures b / 1 == b
  {
  }

  datatype Direction = Src | Dst | AndDir | OrDir

  /** The address at its place equals v. */
  function PlaceTri(p: Packet, place: Place, v: seq<byte>): Tri {
    match place
    case Cut => Faulty
    case Nowhere => False
    case Offset(o) => BytesTri(p, o, v)
  }

  function HostTri(p: Packet, dir: Direction, v: seq<byte>): Tri {
    match dir
    case Src => PlaceTri(p, SourceAt(p.data), v)
    case Dst => PlaceTri(p, DestinationAt(p.data), v)
    case AndDir => TriAnd(PlaceTri(p, SourceAt(p.data), v), PlaceTri(p, DestinationAt(p.data), v))
    case OrDir => TriOr(PlaceTri(p, SourceAt(p.data), v), PlaceTri(p, DestinationAt(p.data), v))
  }

  function HostOf(dir: Direction, v: seq<byte>): Meaning {
    p => HostTri(p, dir, v)
  }

  /** The frame holds the address v, all of it captured, at this place. */
  predicate Holds(p: Packet, place: Place, v: seq<byte>) {
    place.Offset? && place.o + |v| <= |p.data| && p.data[place.o..place.o + |v|] == v
  }

  /** A source or destination test is true just when the frame has such an address and it is v. */
  lemma HostTrue(p: Packet, v: seq<byte>)
    ensures HostTri(p, Src, v).True? <==> Holds(p, SourceAt(p.data), v)
    ensures HostTri(p, Dst, v).True? <==> Holds(p, DestinationAt(p.data), v)
  {
  }

  /** Both is exact; either is not: it also needs the source address to be captured when there is one. */
  lemma BothAndEitherTrue(p: Packet, v: seq<byte>)
    ensures HostTri(p, AndDir, v).True? <==> Holds(p, SourceAt(p.data), v) && Holds(p, DestinationAt(p.data), v)
    ensures HostTri(p, OrDir, v).True? <==>
      || Holds(p, SourceAt(p.data), v)
      || (Holds(p, DestinationAt(p.data), v) && SourceAt(p.data).Offset? && SourceAt(p.data).o + |v| <= |p.data|)
  {
  }

  /** A frame with both DS bits set, cut off after the destination address, is missed although that address matches. */
  lemma EitherMissesCutFrame(v: seq<byte>)
    requires |v| == 6
    ensures var p := Packet([0x08, 0x03] + seq(14, i => 0) + v, 22);
      Holds(p, DestinationAt(p.data), v) && !HostTri(p, OrDir, v).True?
  {
    var d: seq<byte> := [0x08, 0x03] + seq(14, i => 0) + v;
    assert |d| == 22 && d[0] == 0x08 && d[1] == 0x03 && d[16..22] == v;
    BitAnds();
  }

  lemma BitAnds()
    ensures BitAnd(0x08, 0x04) == 0 && BitAnd(0x08, 0x08) != 0 && BitAnd(0x03, 0x01) != 0 && BitAnd(0x03, 0x02) != 0
  {
    assert BitAnd(2, 1) == 0;
    assert BitAnd(4, 2) == 0;
    assert BitAnd(1, 1) == 1;
    assert BitAnd(2, 2) == 2;
    assert BitAnd(4, 4) == 4;
  }

  // ----- the tests it is made of -----

  function BitTri(p: Packet, offset: u32, mask: u32, on: bool): Tri {
    if offset >= |p.data| then Faulty else OfBool(Bit(p.data[offset], mask) == on)
  }

  function BitOf(offset: u32, mask: u32, on: bool): Meaning {
    p => BitTri(p, offset, mask, on)
  }

  lemma BitMeans(offset: u32, mask: u32)
    ensures Means(Prim([LdAbs(B, offset)], JmpK(JSET, mask)), BitOf(offset, mask, true))
  {
    LiveBeforeOne(LdAbs(B, offset), {A_ATOM});
    forall r, p ensures TriOf(Eval(Prim([LdAbs(B, offset)], JmpK(JSET, mask)), r, p)) == BitOf(offset, mask, true)(p) {
      RunOne(LdAbs(B, offset), r, p);
    }
  }

  lemma BitClear(c: Cond, offset: u32, mask: u32)
    requires Means(c, BitOf(offset, mask, true))
    ensures Means(Not(c), BitOf(offset, mask, false))
  {
    NotMeans(c, BitOf(offset, mask, true));
    forall p ensures NotOf(BitOf(offset, mask, true))(p) == BitOf(offset, mask, false)(p) {
      assert BitOf(offset, mask, true)(p) == BitTri(p, offset, mask, true);
    }
    SameMeaning(Not(c), NotOf(BitOf(offset, mask, true)), BitOf(offset, mask, false));
  }

  /** A test that a bit of a header byte is set, or, negated, that it is clear. */
  method GenBit(gen: Generator, offset: u32, mask: u32, on: bool) returns (b: nat, ghost c: Cond)
    requires gen.Valid()
    modifies gen
    ensures gen.Valid() && b !in old(gen.Meaning()) && gen.Meaning() == old(gen.Meaning())[b := c]
    ensures Means(c, BitOf(offset, mask, on))
  {
    ghost var m := gen.Meaning();
    c := Prim([LdAbs(B, offset)], JmpK(JSET, mask));
    BitMeans(offset, mask);
    b := gen.NewBlock([LdAbs(B, offset)], JmpK(JSET, mask));
    if !on {
      NegatedMap(m, b, c, Not(c));
      BitClear(c, offset, mask);
      gen.GenNot(b);
      c := Not(c);
    }
  }

  /** A bit test and-ed in front of a condition. */
  method Guard(gen: Generator, offset: u32, mask: u32, on: bool, b: nat, ghost m: map<nat, Cond>, ghost c0: Cond,
          ghost f: Meaning)
    returns (ghost c: Cond)
    requires gen.Valid() && b !in m && gen.Meaning() == m[b := c0] && Means(c0, f)
    modifies gen
    ensures gen.Valid() && gen.Meaning() == m[b := c] && Means(c, AndOf(BitOf(offset, mask, on), f))
  {
    hide *;
    var b1; ghost var c1;
    b1, c1 := GenBit(gen, offset, mask, on);
    assert m[b := c0][b1 := c1] == m[b1 := c1][b := c0];
    AndMeans(c1, BitOf(offset, mask, on), c0, f);
    Both(gen, b1, b, m, c1, c0);
    c := And(c1, c0);
  }

  lemma SmallReaches(at: u32, v: seq<byte>)
    requires v != [] && at + |v| <= 0x1_0000_0000
    ensures Reaches(at, v)
  {
  }

  /** A bit test and-ed in front of a comparison of the address. */
  method GuardedAddress(gen: Generator, offset: u32, mask: u32, on: bool, at: u32,
          eaddr: seq<byte>) returns (b: nat, ghost c: Cond)
    requires gen.Valid() && |eaddr| == 6 && at + 6 <= 0x1_0000_0000
    modifies gen
    ensures gen.Valid() && b !in old(gen.Meaning()) && gen.Meaning() == old(gen.Meaning())[b := c]
    ensures Means(c, AndOf(BitOf(offset, mask, on), BytesOf(at, eaddr)))
  {
    hide *;
    ghost var m := gen.Meaning();
    var b1; ghost var c1;
    b1, c1 := GenBit(gen, offset, mask, on);
    var b2;
    b2, c := GenBcmp(gen, at, eaddr);
    SmallReaches(at, eaddr);
    b := b2.value;
    AndMeans(c1, BitOf(offset, mask, on), c, BytesOf(at, eaddr));
    Both(gen, b1, b, m, c1, c);
    c := And(c1, c);
  }

  /** A guarded comparison or-ed in front of the condition at b0. */
  method OrAddress(gen: Generator, offset: u32, mask: u32, on: bool, at: u32, eaddr: seq<byte>,
                   b0: nat, ghost m: map<nat, Cond>, ghost c0: Cond, ghost f: Meaning) returns (ghost c: Cond)
    requires gen.Valid() && |eaddr| == 6 && at + 6 <= 0x1_0000_0000
    requires b0 !in m && gen.Meaning() == m[b0 := c0] && Means(c0, f)
    modifies gen
    ensures gen.Valid() && gen.Meaning() == m[b0 := c]
    ensures Means(c, OrOf(AndOf(BitOf(offset, mask, on), BytesOf(at, eaddr)), f))
  {
    hide *;
    var b1; ghost var c1;
    b1, c1 := GuardedAddress(gen, offset, mask, on, at, eaddr);
    assert m[b0 := c0][b1 := c1] == m[b1 := c1][b0 := c0];
    OrMeans(c1, AndOf(BitOf(offset, mask, on), BytesOf(at, eaddr)), c0, f);
    Any(gen, b1, b0, m, c1, c0);
    c := Or(c1, c0);
  }

  // ----- what they add up to -----

  /** Data frames with From DS set. */
  ghost function FromDs(v: seq<byte>): Meaning {
    OrOf(AndOf(BitOf(1, 0x01, false), BytesOf(16, v)), AndOf(BitOf(1, 0x01, true), BytesOf(24, v)))
  }

  ghost function SourceParts(v: seq<byte>): Meaning {
    AndOf(BitOf(0, 0x04, false),
      OrOf(AndOf(BitOf(0, 0x08, false), BytesOf(10, v)),
        AndOf(BitOf(0, 0x08, true),
          OrOf(AndOf(BitOf(1, 0x02, false), BytesOf(10, v)), AndOf(BitOf(1, 0x02, true), FromDs(v))))))
  }

  ghost function DestinationParts(v: seq<byte>): Meaning {
    AndOf(BitOf(0, 0x04, false),
      OrOf(AndOf(BitOf(0, 0x08, false), BytesOf(4, v)),
        AndOf(BitOf(0, 0x08, true),
          OrOf(AndOf(BitOf(1, 0x01, false), BytesOf(4, v)), AndOf(BitOf(1, 0x01, true), BytesOf(16, v))))))
  }

  /** The guards send every frame to the one comparison that is right for it, and to no other load. */
  lemma SourceIsParts(p: Packet, v: seq<byte>)
    ensures SourceParts(v)(p) == HostTri(p, Src, v)
  {
    var fromDs := TriOr(TriAnd(BitTri(p, 1, 0x01, false), BytesTri(p, 16, v)),
      TriAnd(BitTri(p, 1, 0x01, true), BytesTri(p, 24, v)));
    var data := TriOr(TriAnd(BitTri(p, 1, 0x02, false), BytesTri(p, 10, v)), TriAnd(BitTri(p, 1, 0x02, true), fromDs));
    assert FromDs(v)(p) == fromDs;
    assert OrOf(AndOf(BitOf(1, 0x02, false), BytesOf(10, v)), AndOf(BitOf(1, 0x02, true), FromDs(v)))(p) == data;
    assert SourceParts(v)(p) == TriAnd(BitTri(p, 0, 0x04, false),
      TriOr(TriAnd(BitTri(p, 0, 0x08, false), BytesTri(p, 10, v)), TriAnd(BitTri(p, 0, 0x08, true), data)));
  }

  lemma DestinationIsParts(p: Packet, v: seq<byte>)
    ensures DestinationParts(v)(p) == HostTri(p, Dst, v)
  {
    var data := TriOr(TriAnd(BitTri(p, 1, 0x01, false), BytesTri(p, 4, v)),
      TriAnd(BitTri(p, 1, 0x01, true), BytesTri(p, 16, v)));
    assert OrOf(AndOf(BitOf(1, 0x01, false), BytesOf(4, v)), AndOf(BitOf(1, 0x01, true), BytesOf(16, v)))(p) == data;
    assert DestinationParts(v)(p) == TriAnd(BitTri(p, 0, 0x04, false),
      TriOr(TriAnd(BitTri(p, 0, 0x08, false), BytesTri(p, 4, v)), TriAnd(BitTri(p, 0, 0x08, true), data)));
  }

  method GenSource(gen: Generator, eaddr: seq<byte>) returns (b0: nat, ghost c: Cond)
    requires gen.Valid() && |eaddr| == 6
    modifies gen
    ensures gen.Valid() && b0 !in old(gen.Meaning()) && gen.Meaning() == old(gen.Meaning())[b0 := c]
    ensures Means(c, HostOf(Src, eaddr))
  {
    PartsOf(eaddr);
    hide *;
    ghost var m := gen.Meaning();
    // data frames with From DS set
    b0, c := GuardedAddress(gen, 1, 0x01, true, 24, eaddr);
    c := OrAddress(gen, 1, 0x01, false, 16, eaddr, b0, m, c, AndOf(BitOf(1, 0x01, true), BytesOf(24, eaddr)));
    c := Guard(gen, 1, 0x02, true, b0, m, c, FromDs(eaddr));
    // and with From DS clear
    ghost var f := AndOf(BitOf(1, 0x02, true), FromDs(eaddr));
    c := OrAddress(gen, 1, 0x02, false, 10, eaddr, b0, m, c, f);
    f := OrOf(AndOf(BitOf(1, 0x02, false), BytesOf(10, eaddr)), f);
    c := Guard(gen, 0, 0x08, true, b0, m, c, f);
    f := AndOf(BitOf(0, 0x08, true), f);
    // management frames
    c := OrAddress(gen, 0, 0x08, false, 10, eaddr, b0, m, c, f);
    f := OrOf(AndOf(BitOf(0, 0x08, false), BytesOf(10, eaddr)), f);
    // no control frames
    c := Guard(gen, 0, 0x04, false, b0, m, c, f);
    SameMeaning(c, SourceParts(eaddr), HostOf(Src, eaddr));
  }

  method GenDestination(gen: Generator, eaddr: seq<byte>) returns (b0: nat, ghost c: Cond)
    requires gen.Valid() && |eaddr| == 6
    modifies gen
    ensures gen.Valid() && b0 !in old(gen.Meaning()) && gen.Meaning() == old(gen.Meaning())[b0 := c]
    ensures Means(c, HostOf(Dst, eaddr))
  {
    PartsOf(eaddr);
    hide *;
    ghost var m := gen.Meaning();
    // data frames
    b0, c := GuardedAddress(gen, 1, 0x01, true, 16, eaddr);
    ghost var f := AndOf(BitOf(1, 0x01, true), BytesOf(16, eaddr));
    c := OrAddress(gen, 1, 0x01, false, 4, eaddr, b0, m, c, f);
    f := OrOf(AndOf(BitOf(1, 0x01, false), BytesOf(4, eaddr)), f);
    c := Guard(gen, 0, 0x08, true, b0, m, c, f);
    f := AndOf(BitOf(0, 0x08, true), f);
    // management frames
    c := OrAddress(gen, 0, 0x08, false, 4, eaddr, b0, m, c, f);
    f := OrOf(AndOf(BitOf(0, 0x08, false), BytesOf(4, eaddr)), f);
    // no control frames
    c := Guard(gen, 0, 0x04, false, b0, m, c, f);
    SameMeaning(c, DestinationParts(eaddr), HostOf(Dst, eaddr));
  }

  lemma PartsOf(v: seq<byte>)
    ensures FromDs(v) == OrOf(AndOf(BitOf(1, 0x01, false), BytesOf(16, v)), AndOf(BitOf(1, 0x01, true), BytesOf(24, v)))
    ensures SourceParts(v) ==
      AndOf(BitOf(0, 0x04, false),
        OrOf(AndOf(BitOf(0, 0x08, false), BytesOf(10, v)),
          AndOf(BitOf(0, 0x08, true),
            OrOf(AndOf(BitOf(1, 0x02, false), BytesOf(10, v)), AndOf(BitOf(1, 0x02, true), FromDs(v))))))
    ensures DestinationParts(v) ==
      AndOf(BitOf(0, 0x04, false),
        OrOf(AndOf(BitOf(0, 0x08, false), BytesOf(4, v)),
          AndOf(BitOf(0, 0x08, true),
            OrOf(AndOf(BitOf(1, 0x01, false), BytesOf(4, v)), AndOf(BitOf(1, 0x01, true), BytesOf(16, v))))))
    ensures forall p :: SourceParts(v)(p) == HostOf(Src, v)(p)
    ensures forall p :: DestinationParts(v)(p) == HostOf(Dst, v)(p)
  {
    forall p ensures SourceParts(v)(p) == HostOf(Src, v)(p) && DestinationParts(v)(p) == HostOf(Dst, v)(p) {
      SourceIsParts(p, v);
      DestinationIsParts(p, v);
    }
  }

  /** gen_wlanhostop on DLT_IEEE802_11, for the directions src, dst, src and dst, and src or dst. */
  method GenWlanhostop(gen: Generator, eaddr: seq<byte>, dir: Direction) returns (b: nat, ghost c: Cond)
    requires gen.Valid() && |eaddr| == 6
    modifies gen
    ensures gen.Valid() && b !in old(gen.Meaning()) && gen.Meaning() == old(gen.Meaning())[b := c]
    ensures Means(c, HostOf(dir, eaddr))
  {
    ghost var m := gen.Meaning();
    if dir.Src? {
      b, c := GenSource(gen, eaddr);
    } else if dir.Dst? {
      b, c := GenDestination(gen, eaddr);
    } else {
      EitherWay(eaddr);
      hide *;
      var b0; ghost var c0;
      b0, c0 := GenSource(gen, eaddr);
      b, c := GenDestination(gen, eaddr);
      if dir.AndDir? {
        AndMeans(c0, HostOf(Src, eaddr), c, HostOf(Dst, eaddr));
        Both(gen, b0, b, m, c0, c);
        c := And(c0, c);
        SameMeaning(c, AndOf(HostOf(Src, eaddr), HostOf(Dst, eaddr)), HostOf(dir, eaddr));
      } else {
        OrMeans(c0, HostOf(Src, eaddr), c, HostOf(Dst, eaddr));
        Any(gen, b0, b, m, c0, c);
        c := Or(c0, c);
        SameMeaning(c, OrOf(HostOf(Src, eaddr), HostOf(Dst, eaddr)), HostOf(dir, eaddr));
      }
    }
  }

  lemma EitherWay(v: seq<byte>)
    ensures forall p :: AndOf(HostOf(Src, v), HostOf(Dst, v))(p) == HostOf(AndDir, v)(p)
    ensures forall p :: OrOf(HostOf(Src, v), HostOf(Dst, v))(p) == HostOf(OrDir, v)(p)
  {
    forall p
      ensures AndOf(HostOf(Src, v), HostOf(Dst, v))(p) == HostOf(AndDir, v)(p)
      ensures OrOf(HostOf(Src, v), HostOf(Dst, v))(p) == HostOf(OrDir, v)(p)
    {
      assert HostOf(Src, v)(p) == HostTri(p, Src, v) && HostOf(Dst, v)(p) == HostTri(p, Dst, v);
    }
  }
}
