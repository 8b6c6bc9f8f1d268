/**
 The list of capture devices. It is kept as a linked list in the order in which it is shown:
 loopback devices last, otherwise by instance number, and in the order found among equals.
 */
module InterfaceList {

  const INT_MAX: nat := 0x7fff_ffff

  // ----- the instance number of a name -----

  predicate IsDigit(c: char) {
    '0' <= c <= '9'
  }

  /** The name from its first digit on. */
  function FromDigit(s: string): string {
    if s == [] || IsDigit(s[0]) then s else FromDigit(s[1..])
  }

  /** The number that the digits at the start of s spell, n being what came before. */
  function Digits(s: string, n: nat): nat
    decreases |s|
  {
    if s == [] || !IsDigit(s[0]) then n else Digits(s[1..], 10 * n + (s[0] as nat - '0' as nat))
  }

  function Instance(name: string): nat {
    if name == "any" then INT_MAX else Digits(FromDigit(name), 0)
  }

  /** get_instance */
  method GetInstance(name: string) returns (n: nat)
    ensures n == Instance(name)
    ensures forall word, zeros, m, rest :: Spells(name, word, zeros, m, rest) ==> n == m
    ensures NoDigit(name) ==> n == if name == "any" then 0x7fff_ffff else 0
  {
    InstanceMeans(name);
    if name == "any" {
      return INT_MAX;
    }
    var cp := 0;
    while cp < |name| && !IsDigit(name[cp])
      invariant cp <= |name| && FromDigit(name) == FromDigit(name[cp..])
    {
      assert name[cp..][1..] == name[cp + 1..];
      cp := cp + 1;
    }
    assert cp == |name| ==> name[cp..] == [];
    n := 0;
    while cp < |name| && IsDigit(name[cp])
      invariant cp <= |name| && Digits(FromDigit(name), 0) == Digits(name[cp..], n)
    {
      assert name[cp..][1..] == name[cp + 1..];
      n := 10 * n + (name[cp] as nat - '0' as nat);
      cp := cp + 1;
    }
  }

  // ----- what the instance number is -----

  /** n written in decimal, without leading zeros: its last digit is the remainder by ten. */
  function Decimal(n: nat): (s: string)
    ensures s != [] && forall i :: 0 <= i < |s| ==> '0' <= s[i] <= '9'
  {
    var last := ('0' as nat + n % 10) as char;
    if n < 10 then [last] else Decimal(n / 10) + [last]
  }

  function Zeros(k: nat): (s: string)
    ensures |s| == k && forall i :: 0 <= i < k ==> s[i] == '0'
  {
    seq(k, i => '0')
  }

  /** No character of the word is a digit. */
  predicate NoDigit(word: string) {
    forall i :: 0 <= i < |word| ==> !('0' <= word[i] <= '9')
  }

  lemma {:induction false} DigitsAppend(s: string, t: string, n: nat)
    requires forall i :: 0 <= i < |s| ==> '0' <= s[i] <= '9'
    ensures Digits(s + t, n) == Digits(t, Digits(s, n))
    decreases |s|
  {
    if s == [] {
      assert s + t == t;
    } else {
      assert (s + t)[1..] == s[1..] + t && (s + t)[0] == s[0];
      DigitsAppend(s[1..], t, 10 * n + (s[0] as nat - '0' as nat));
    }
  }

  lemma {:induction false} DecimalDigits(n: nat)
    ensures Digits(Decimal(n), 0) == n
    decreases n
  {
    var last := ('0' as nat + n % 10) as char;
    assert forall m: nat :: Digits([last], m) == 10 * m + n % 10 by {
      assert [last][1..] == [];
    }
    if n >= 10 {
      DecimalDigits(n / 10);
      DigitsAppend(Decimal(n / 10), [last], 0);
    }
  }

  lemma {:induction false} ZeroDigits(k: nat)
    ensures Digits(Zeros(k), 0) == 0
  {
    if k > 0 {
      assert Zeros(k)[1..] == Zeros(k - 1);
      ZeroDigits(k - 1);
    }
  }

  lemma {:induction false} PastWord(word: string, t: string)
    requires NoDigit(word) && (t == [] || '0' <= t[0] <= '9')
    ensures FromDigit(word + t) == t
    decreases |word|
  {
    if word == [] {
      assert word + t == t;
    } else {
      assert (word + t)[1..] == word[1..] + t;
      PastWord(word[1..], t);
    }
  }

  lemma InstanceMeans(name: string)
    ensures forall word, zeros, n, rest :: Spells(name, word, zeros, n, rest) ==> Instance(name) == n
    ensures NoDigit(name) ==> Instance(name) == if name == "any" then 0x7fff_ffff else 0
  {
    forall word, zeros, n, rest | Spells(name, word, zeros, n, rest) ensures Instance(name) == n {
      InstanceIsDecimal(word, zeros, n, rest);
    }
    if NoDigit(name) {
      InstanceWithoutDigits(name);
    }
  }

  /** name is a word, zeros, n in decimal, and a rest that does not go on with a digit. */
  predicate Spells(name: string, word: string, zeros: nat, n: nat, rest: string) {
    && name == word + Zeros(zeros) + Decimal(n) + rest
    && NoDigit(word) && (rest == [] || !('0' <= rest[0] <= '9'))
  }

  /** A word, leading zeros, a number in decimal and whatever does not go on with a digit: the number. */
  lemma InstanceIsDecimal(word: string, zeros: nat, n: nat, rest: string)
    requires NoDigit(word) && (rest == [] || !('0' <= rest[0] <= '9'))
    ensures Instance(word + Zeros(zeros) + Decimal(n) + rest) == n
  {
    var t := Zeros(zeros) + (Decimal(n) + rest);
    var name := word + Zeros(zeros) + Decimal(n) + rest;
    assert name == word + t;
    assert name[|word|] == t[0] && '0' <= t[0] <= '9' by {
      assert t[0] == if zeros > 0 then Zeros(zeros)[0] else Decimal(n)[0];
    }
    assert name != "any";
    PastWord(word, t);
    ZeroDigits(zeros);
    DecimalDigits(n);
    DigitsAppend(Zeros(zeros), Decimal(n) + rest, 0);
    DigitsAppend(Decimal(n), rest, 0);
  }

  /** A name without digits has number 0, but for "any", which has the largest. */
  lemma InstanceWithoutDigits(name: string)
    requires NoDigit(name)
    ensures Instance(name) == if name == "any" then 0x7fff_ffff else 0
  {
    assert name + [] == name;
    PastWord(name, []);
  }

  // ----- the order -----

  /** A device as listed; found numbers the devices in the order in which they were added. */
  datatype Entry = Entry(name: string, loopback: bool, found: nat)

  predicate Before(a: Entry, b: Entry) {
    || (!a.loopback && b.loopback)
    || (a.loopback == b.loopback &&
          (Instance(a.name) < Instance(b.name) || (Instance(a.name) == Instance(b.name) && a.found < b.found)))
  }

  ghost predicate Listed(s: seq<Entry>) {
    && (forall i, j :: 0 <= i < j < |s| ==> Before(s[i], s[j]))
    && (forall i, j :: 0 <= i < j < |s| ==> s[i].name != s[j].name)
  }

  /** Devices of one kind are listed in the order of their decimal numbers: the tenth after the ninth. */
  lemma NumberOrder(s: seq<Entry>, i: nat, j: nat, v: string, m: nat, w: string, n: nat)
    requires Listed(s) && i < |s| && j < |s| && s[i].loopback == s[j].loopback
    requires NoDigit(v) && NoDigit(w) && s[i].name == v + Decimal(m) && s[j].name == w + Decimal(n)
    requires m < n
    ensures i < j
  {
    assert v + Zeros(0) + Decimal(m) + [] == s[i].name;
    assert w + Zeros(0) + Decimal(n) + [] == s[j].name;
    InstanceIsDecimal(v, 0, m, []);
    InstanceIsDecimal(w, 0, n, []);
  }

  /** Loopback devices are listed after all others, and devices of one kind and number as they were found. */
  lemma LoopbackLast(s: seq<Entry>, i: nat, j: nat)
    requires Listed(s) && i < |s| && j < |s|
    ensures !s[i].loopback && s[j].loopback ==> i < j
    ensures s[i].loopback == s[j].loopback && Instance(s[i].name) == Instance(s[j].name) && s[i].found < s[j].found ==>
      i < j
  {
    if j < i {
      assert Before(s[j], s[i]);
    }
  }

  /** Whether a new entry goes in front of this one. */
  predicate Stops(e: Entry, next: Entry) {
    || (!e.loopback && next.loopback)
    || (Instance(e.name) < Instance(next.name) && (!e.loopback || next.loopback))
  }

  /** The place of a new entry: in front of the first it is to go in front of. */
  function Place(s: seq<Entry>, e: Entry): (k: nat)
    ensures k <= |s|
    ensures forall i :: 0 <= i < k ==> !Stops(e, s[i])
    ensures k < |s| ==> Stops(e, s[k])
  {
    if s == [] || Stops(e, s[0]) then 0 else 1 + Place(s[1..], e)
  }

  function Inserted(s: seq<Entry>, e: Entry): seq<Entry> {
    s[..Place(s, e)] + [e] + s[Place(s, e)..]
  }

  lemma BeforeChain(a: Entry, b: Entry, c: Entry)
    requires Before(a, b) && Before(b, c)
    ensures Before(a, c)
  {
  }

  /** Inserting a device that is new, and found after all the others, keeps the list in order. */
  lemma InsertedListed(s: seq<Entry>, e: Entry)
    requires Listed(s) && forall i :: 0 <= i < |s| ==> s[i].name != e.name && s[i].found < e.found
    ensures Listed(Inserted(s, e))
  {
    var k, t := Place(s, e), Inserted(s, e);
    forall i | k <= i < |s| ensures Before(e, s[i]) {
      assert Before(e, s[k]);
      if k < i {
        BeforeChain(e, s[k], s[i]);
      }
    }
    forall i | 0 <= i < k ensures Before(s[i], e) {
    }
    assert forall i :: 0 <= i < k ==> t[i] == s[i];
    assert forall i :: k < i < |t| ==> t[i] == s[i - 1];
  }

  // ----- the linked list -----

  /** What the system reports of a device, and whether it can be opened. */
  datatype Found = Found(name: string, loopback: bool, description: string, canOpen: bool)

  class Device {
    const name: string
    const loopback: bool
    const description: string
    ghost const found: nat
    var next: Device?

    constructor (name: string, loopback: bool, description: string, ghost found: nat)
      ensures this.name == name && this.loopback == loopback && this.found == found && this.description == description
      ensures next == null
    {
      this.name, this.loopback, this.description, this.found := name, loopback, description, found;
      next := null;
    }
  }

  ghost predicate NoRepeats(s: seq<Device>) {
    forall i, j :: 0 <= i < j < |s| ==> s[i] != s[j]
  }

  lemma NoRepeatsMore(s: seq<Device>, d: Device, k: nat)
    requires NoRepeats(s) && d !in s && k <= |s|
    ensures NoRepeats(s[..k] + [d] + s[k..])
    ensures forall i :: 0 <= i < |s| && i + 1 != k && k > 0 ==> s[i] != s[k - 1]
    ensures forall i :: 0 <= i < |s| ==> s[i] != d
  {
    var t := s[..k] + [d] + s[k..];
    assert forall i :: 0 <= i < |t| ==> t[i] == if i < k then s[i] else if i == k then d else s[i - 1];
    assert forall i :: 0 <= i < |s| ==> s[i] in s;
  }

  ghost function EntryOf(d: Device): Entry {
    Entry(d.name, d.loopback, d.found)
  }

  ghost function EntriesOf(devs: seq<Device>): (s: seq<Entry>)
    ensures |s| == |devs| && forall i :: 0 <= i < |devs| ==> s[i] == EntryOf(devs[i])
  {
    seq(|devs|, i requires 0 <= i < |devs| => EntryOf(devs[i]))
  }

  lemma EntriesSpliced(devs: seq<Device>, d: Device, k: nat)
    requires k == Place(EntriesOf(devs), EntryOf(d)) && k <= |devs|
    ensures EntriesOf(devs[..k] + [d] + devs[k..]) == Inserted(EntriesOf(devs), EntryOf(d))
  {
  }

  lemma StopsIs(d: Device, next: Device)
    ensures Stops(EntryOf(d), EntryOf(next)) <==>
      || (!d.loopback && next.loopback)
      || (Instance(d.name) < Instance(next.name) && (!d.loopback || next.loopback))
  {
  }

  /** A list with a new device in its place is listed again, and the device numbers stay below its length. */
  lemma InsertedDevice(devs: seq<Device>, d: Device)
    requires Listed(EntriesOf(devs)) && d.found == |devs|
    requires forall i :: 0 <= i < |devs| ==> devs[i].name != d.name && devs[i].found < |devs|
    ensures Listed(Inserted(EntriesOf(devs), EntryOf(d)))
  {
    hide *;
    var s := EntriesOf(devs);
    forall i | 0 <= i < |s| ensures s[i].name != EntryOf(d).name && s[i].found < EntryOf(d).found {
      EntryIs(devs[i]);
      EntryIs(d);
    }
    InsertedListed(s, EntryOf(d));
  }

  lemma EntryIs(d: Device)
    ensures EntryOf(d) == Entry(d.name, d.loopback, d.found)
  {
  }

  function After(s: seq<Device>, i: nat): Device?
    requires i < |s|
  {
    if i + 1 < |s| then s[i + 1] else null
  }

  class DeviceList {
    var alldevs: Device?
    ghost var devs: seq<Device>

    /** The next pointers, from alldevs on, run through devs. */
    ghost predicate Linked()
      reads this, devs
    {
      && alldevs == (if devs == [] then null else devs[0])
      && NoRepeats(devs)
      && (forall i :: 0 <= i < |devs| ==> devs[i].next == After(devs, i))
    }

    ghost function Entries(): (s: seq<Entry>)
      reads this
    {
      EntriesOf(devs)
    }

    ghost predicate Valid()
      reads this, devs
    {
      Linked() && Listed(Entries()) && forall i :: 0 <= i < |devs| ==> devs[i].found < |devs|
    }

    constructor ()
      ensures Valid() && devs == []
    {
      alldevs, devs := null, [];
    }

    /** The device of that name, if it is on the list. */
    method Find(name: string) returns (cur: Device?)
      requires Valid()
      ensures cur != null ==> cur in devs && cur.name == name
      ensures cur == null ==> forall i :: 0 <= i < |devs| ==> devs[i].name != name
    {
      cur := alldevs;
      ghost var k := 0;
      while cur != null
        invariant k <= |devs| && cur == (if k < |devs| then devs[k] else null)
        invariant forall i :: 0 <= i < k ==> devs[i].name != name
        decreases |devs| - k
      {
        if cur.name == name {
          return;
        }
        cur := cur.next;
        k := k + 1;
      }
    }

    /** The device to put the new one behind; null for the front of the list. */
    method FindPlace(cur: Device) returns (prev: Device?, next: Device?)
      requires Valid()
      ensures var k := Place(EntriesOf(devs), EntryOf(cur));
        && k <= |devs| && prev == (if k > 0 then devs[k - 1] else null)
        && next == (if k < |devs| then devs[k] else null)
    {
      hide *;
      LinkedParts();
      ghost var e, s := EntryOf(cur), EntriesOf(devs);
      EntryIs(cur);
      var instance := GetInstance(cur.name);
      ghost var k := 0;
      prev := null;
      while true
        invariant k <= |devs| && prev == (if k > 0 then devs[k - 1] else null)
        invariant forall i :: 0 <= i < k ==> !Stops(e, s[i])
        decreases |devs| - k
      {
        if prev == null {
          next := alldevs;
        } else {
          next := prev.next;
        }
        if next == null {
          break;
        }
        StopsIs(cur, devs[k]);
        if !cur.loopback && next.loopback {
          break;
        }
        var other := GetInstance(next.name);
        if instance < other && (!cur.loopback || next.loopback) {
          break;
        }
        prev, k := next, k + 1;
      }
      PlaceUnique(s, e, k);
    }

    lemma LinkedParts()
      requires Valid()
      ensures alldevs == if |devs| == 0 then null else devs[0]
      ensures forall i :: 0 <= i < |devs| - 1 ==> devs[i].next == devs[i + 1]
      ensures |devs| > 0 ==> devs[|devs| - 1].next == null
    {
    }

    /** Adds a device that is new to the list in its place. */
    method Insert(cur: Device)
      requires Valid() && cur !in devs && cur.found == |devs|
      requires forall i :: 0 <= i < |devs| ==> devs[i].name != cur.name
      modifies this, cur, devs
      ensures Valid()
      ensures Entries() == Inserted(old(Entries()), Entry(cur.name, cur.loopback, cur.found))
      ensures exists k :: 0 <= k <= |old(devs)| && devs == old(devs)[..k] + [cur] + old(devs)[k..]
    {
      hide *;
      ValidParts();
      EntryIs(cur);
      var prev, next := FindPlace(cur);
      ghost var k := Place(EntriesOf(devs), EntryOf(cur));
      InsertedDevice(devs, cur);
      EntriesSpliced(devs, cur, k);
      ghost var was := devs;
      Splice(cur, prev, next, k);
      ValidAgain(was, cur, k);
    }

    lemma ValidParts()
      requires Valid()
      ensures Linked() && Listed(EntriesOf(devs)) && Entries() == EntriesOf(devs)
      ensures forall i :: 0 <= i < |devs| ==> devs[i].found < |devs|
    {
    }

    lemma ValidAgain(was: seq<Device>, cur: Device, k: nat)
      requires Linked() && k <= |was| && devs == was[..k] + [cur] + was[k..] && Listed(EntriesOf(devs))
      requires cur.found == |was|
      requires forall i :: 0 <= i < |was| ==> was[i].found < |was|
      ensures Valid() && Entries() == EntriesOf(devs)
    {
    }

    /**
     add_or_find_if: finds the device, or adds it, if it can be opened, in its place. The list
     stays in order and without duplicates, and nothing on it is lost.
     */
    method AddOrFindIf(name: string, loopback: bool, description: string, canOpen: bool) returns (cur: Device?)
      requires Valid()
      modifies this, devs
      ensures Valid()
      ensures (exists i :: 0 <= i < |old(devs)| && old(devs)[i].name == name) ==>
        devs == old(devs) && cur != null && cur in devs && cur.name == name
      ensures !(exists i :: 0 <= i < |old(devs)| && old(devs)[i].name == name) && !canOpen ==>
        devs == old(devs) && cur == null
      ensures !(exists i :: 0 <= i < |old(devs)| && old(devs)[i].name == name) && canOpen ==>
        && cur != null && fresh(cur) && cur.name == name && cur.description == description
        && Entries() == Inserted(old(Entries()), Entry(name, loopback, |old(devs)|))
        && exists k :: 0 <= k <= |old(devs)| && devs == old(devs)[..k] + [cur] + old(devs)[k..]
    {
      hide *;
      cur := Find(name);
      if cur != null || !canOpen {
        return;
      }
      cur := new Device(name, loopback, description, |devs|);
      Insert(cur);
    }

    /** Any sequence of calls: what was on the list stays, and every device that can be opened is on it. */
    method AddAll(found: seq<Found>)
      requires Valid()
      modifies this, devs
      ensures Valid()
      ensures forall d :: d in old(devs) ==> d in devs
      ensures forall k :: 0 <= k < |found| && found[k].canOpen ==> IsListed(found[k].name)
    {
      hide Listed, Inserted, Linked, Valid, EntriesOf, Entries;
      for k := 0 to |found|
        invariant Valid()
        invariant forall i :: 0 <= i < |devs| ==> devs[i] in old(devs) || fresh(devs[i])
        invariant forall d :: d in old(devs) ==> d in devs
        invariant forall j :: 0 <= j < k && found[j].canOpen ==> IsListed(found[j].name)
      {
        ghost var was := devs;
        var f := found[k];
        var cur := AddOrFindIf(f.name, f.loopback, f.description, f.canOpen);
        assert forall d :: d in was ==> d in devs;
        assert cur != null ==> cur in devs && cur.name == f.name;
      }
    }

    ghost predicate IsListed(name: string)
      reads this
    {
      exists d :: d in devs && d.name == name
    }

    /** Puts cur between prev and next. */
    method Splice(cur: Device, prev: Device?, next: Device?, ghost k: nat)
      requires Linked() && k <= |devs| && cur !in devs
      requires prev == (if k > 0 then devs[k - 1] else null) && next == (if k < |devs| then devs[k] else null)
      modifies this, cur, devs
      ensures devs == old(devs)[..k] + [cur] + old(devs)[k..] && Linked()
    {
      ghost var was, now := devs, devs[..k] + [cur] + devs[k..];
      NoRepeatsMore(was, cur, k);
      assert forall i :: 0 <= i < |was| ==> was[i].next == After(was, i);
      hide *;
      cur.next := next;
      if prev == null {
        alldevs := cur;
      } else {
        prev.next := cur;
      }
      assert forall i :: 0 <= i < |was| ==> was[i].next == if i + 1 == k then cur else After(was, i);
      devs := now;
      LinkedAgain(was, cur, k);
    }

    lemma LinkedAgain(was: seq<Device>, cur: Device, k: nat)
      requires k <= |was| && devs == was[..k] + [cur] + was[k..] && NoRepeats(devs)
      requires alldevs == (if k == 0 then cur else was[0])
      requires cur.next == if k < |was| then was[k] else null
      requires forall i :: 0 <= i < |was| ==> was[i].next == if i + 1 == k then cur else After(was, i)
      ensures Linked()
    {
      assert forall i :: 0 <= i < |devs| ==> devs[i] == if i < k then was[i] else if i == k then cur else was[i - 1];
      forall i | 0 <= i < |devs| ensures devs[i].next == After(devs, i) {
        if i > k {
          var j := i - 1;
          assert devs[i] == was[j];
        }
      }
    }
  }

  lemma {:induction false} PlaceUnique(s: seq<Entry>, e: Entry, k: nat)
    requires k <= |s| && (forall i :: 0 <= i < k ==> !Stops(e, s[i])) && (k < |s| ==> Stops(e, s[k]))
    ensures Place(s, e) == k
  {
    var p := Place(s, e);
    assert !(p < k) && !(k < p);
  }
}
