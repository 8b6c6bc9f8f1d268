/**
 The machine's arithmetic, digit by digit and by what undoes what: bits of a word, bytes of a load,
 and how the operations go together.
 */
module MachineLaws {
  import opened Machine

  /** Binary digit i of n, the lowest being number 0. */
  function Bit(n: nat, i: nat): int {
    (n / Pow2(i)) % 2
  }

  lemma DivisionIs(a: int, d: int, q: int, r: int)
    requires d > 0 && a == d * q + r && 0 <= r < d
    ensures a / d == q && a % d == r
  {
    var k := a / d - q;
    assert a == d * (a / d) + a % d;
    assert d * k == r - a % d;
    assert k >= 1 ==> d * k >= d * 1;
    assert k <= -1 ==> d * k <= d * -1;
  }

  lemma HalfFirst(n: nat, d: int)
    requires d > 0
    ensures (n / 2) / d == n / (2 * d)
  {
    var q, r := n / (2 * d), n % (2 * d);
    assert n == (2 * d) * q + r;
    assert (2 * d) * q == 2 * (d * q);
    DivisionIs(n / 2, d, q, r / 2);
  }

  lemma BitNext(n: nat, i: nat)
    requires i > 0
    ensures Bit(n, i) == Bit(n / 2, i - 1)
    ensures Bit(n, 0) == n % 2
  {
    HalfFirst(n, Pow2(i - 1));
    assert Pow2(i) == 2 * Pow2(i - 1);
    assert Pow2(0) == 1;
  }

  lemma NoBits(i: nat)
    ensures Bit(0, i) == 0
  {
    DivisionIs(0, Pow2(i), 0, 0);
  }

  /** AND has a bit where both words have it. */
  lemma {:induction false} AndBits(a: nat, b: nat, i: nat)
    ensures Bit(BitAnd(a, b), i) == if Bit(a, i) == 1 && Bit(b, i) == 1 then 1 else 0
  {
    NoBits(i);
    if a != 0 && b != 0 {
      var c := BitAnd(a, b);
      assert c / 2 == BitAnd(a / 2, b / 2);
      if i == 0 {
        BitNext(a, 1);
        BitNext(b, 1);
        BitNext(c, 1);
      } else {
        BitNext(a, i);
        BitNext(b, i);
        BitNext(c, i);
        AndBits(a / 2, b / 2, i - 1);
      }
    }
  }

  /** OR has a bit where either word has it. */
  lemma {:induction false} OrBits(a: nat, b: nat, i: nat)
    ensures Bit(BitOr(a, b), i) == if Bit(a, i) == 1 || Bit(b, i) == 1 then 1 else 0
  {
    NoBits(i);
    if a != 0 && b != 0 {
      var c := BitOr(a, b);
      assert c / 2 == BitOr(a / 2, b / 2);
      if i == 0 {
        BitNext(a, 1);
        BitNext(b, 1);
        BitNext(c, 1);
      } else {
        BitNext(a, i);
        BitNext(b, i);
        BitNext(c, i);
        OrBits(a / 2, b / 2, i - 1);
      }
    }
  }

  /** Masking with one bit leaves that bit. */
  lemma {:induction false} OneBit(n: nat, i: nat)
    ensures BitAnd(n, Pow2(i)) == if Bit(n, i) == 1 then Pow2(i) else 0
  {
    NoBits(i);
    if n > 0 {
      BitNext(n, if i == 0 then 1 else i);
      if i == 0 {
        assert BitAnd(n, 1) == 2 * BitAnd(n / 2, 0) + n % 2;
      } else {
        var m := Pow2(i - 1);
        assert Pow2(i) / 2 == m && Pow2(i) % 2 == 0;
        OneBit(n / 2, i - 1);
      }
    }
  }

  /** Words with the same bits are the same. */
  lemma {:induction false} SameBits(a: nat, b: nat)
    requires forall i: nat :: Bit(a, i) == Bit(b, i)
    ensures a == b
    decreases a + b
  {
    if a + b > 0 {
      BitNext(a, 1);
      BitNext(b, 1);
      assert Bit(a, 0) == Bit(b, 0);
      forall i: nat ensures Bit(a / 2, i) == Bit(b / 2, i) {
        var next := i + 1;
        BitNext(a, next);
        BitNext(b, next);
        assert Bit(a, next) == Bit(b, next);
      }
      SameBits(a / 2, b / 2);
    }
  }

  lemma {:induction false} SomeBit(n: nat)
    requires n > 0
    ensures exists i :: Bit(n, i) == 1
  {
    BitNext(n, 1);
    if n % 2 == 1 {
      assert Bit(n, 0) == 1;
    } else {
      SomeBit(n / 2);
      var i :| Bit(n / 2, i) == 1;
      var next := i + 1;
      BitNext(n, next);
      assert Bit(n, next) == 1;
    }
  }

  /** A JSET test comes out true just when the words have a bit in common. */
  lemma CommonBit(a: u32, b: u32)
    ensures Compare(JSET, a, b) <==> exists i :: Bit(a, i) == 1 && Bit(b, i) == 1
  {
    var c := BitAnd(a, b);
    if c > 0 {
      SomeBit(c);
      var i :| Bit(c, i) == 1;
      AndBits(a, b, i);
      assert Bit(a, i) == 1 && Bit(b, i) == 1;
    }
    if i :| Bit(a, i) == 1 && Bit(b, i) == 1 {
      AndBits(a, b, i);
      NoBits(i);
    }
  }

  // ----- loads -----

  /** The bytes of a load, the first as the most significant digit to the base 256. */
  lemma LoadedDigits(p: Packet, k: nat, sz: Size)
    ensures Load(p, k, sz).Some? <==> k + Bytes(sz) <= |p.data|
    ensures Load(p, k, sz).Some? ==>
      var v := Load(p, k, sz).value;
      match sz
      case B => v == p.data[k]
      case H => v / 256 == p.data[k] && v % 256 == p.data[k + 1]
      case W =>
        && (v / 16777216) % 256 == p.data[k] && (v / 65536) % 256 == p.data[k + 1]
        && (v / 256) % 256 == p.data[k + 2] && v % 256 == p.data[k + 3]
  {
    if Load(p, k, sz).Some? && sz.W? {
      WordDigits(p.data[k], p.data[k + 1], p.data[k + 2], p.data[k + 3]);
    }
  }

  lemma WordDigits(b0: byte, b1: byte, b2: byte, b3: byte)
    ensures var v := b0 * 16777216 + b1 * 65536 + b2 * 256 + b3;
      && (v / 16777216) % 256 == b0 && (v / 65536) % 256 == b1 && (v / 256) % 256 == b2 && v % 256 == b3
  {
    var v := b0 * 16777216 + b1 * 65536 + b2 * 256 + b3;
    DivisionIs(v, 16777216, b0, b1 * 65536 + b2 * 256 + b3);
    DivisionIs(v, 65536, b0 * 256 + b1, b2 * 256 + b3);
    DivisionIs(v, 256, b0 * 65536 + b1 * 256 + b2, b3);
    DivisionIs(b0, 256, 0, b0);
    DivisionIs(b0 * 256 + b1, 256, b0, b1);
    DivisionIs(b0 * 65536 + b1 * 256 + b2, 256, b0 * 256 + b1, b2);
  }

  /** Four times the low half of the byte: the length in bytes that an IP header gives in words. */
  lemma HeaderLength(p: Packet, k: nat)
    ensures LoadMsh(p, k) == if k < |p.data| then Some(4 * (p.data[k] % 16)) else None
  {
    if k < |p.data| {
      LowBits(p.data[k], 4);
      assert Pow2(4) == 16;
    }
  }

  lemma HalfRemainder(n: nat, m: int)
    requires m > 0
    ensures n % (2 * m) == 2 * ((n / 2) % m) + n % 2
  {
    var q, r := (n / 2) / m, (n / 2) % m;
    assert n / 2 == m * q + r;
    assert (2 * m) * q == 2 * (m * q);
    DivisionIs(n, 2 * m, q, 2 * r + n % 2);
  }

  /** Masking with k ones leaves the remainder by the power of two. */
  lemma {:induction false} LowBits(n: nat, k: nat)
    ensures BitAnd(n, Pow2(k) - 1) == n % Pow2(k)
  {
    if n == 0 || k == 0 {
      DivisionIs(n, Pow2(k), if n == 0 then 0 else n, 0);
    } else {
      LowBits(n / 2, k - 1);
      LowStep(n, Pow2(k - 1));
    }
  }

  lemma LowStep(n: nat, m: int)
    requires n > 0 && m > 0 && BitAnd(n / 2, m - 1) == (n / 2) % m
    ensures BitAnd(n, 2 * m - 1) == n % (2 * m)
  {
    var b := 2 * m - 1;
    assert b / 2 == m - 1 && b % 2 == 1;
    assert BitAnd(n, b) == 2 * BitAnd(n / 2, b / 2) + n % 2;
    HalfRemainder(n, m);
    hide BitAnd;
  }

  // ----- operations -----

  /** Subtracting takes back what adding has put on, and a word and its negative add up to 0. */
  lemma AddAndSub(a: u32, b: u32)
    ensures exists c :: Alu(ADD, a, b) == Some(c) && Alu(SUB, c, b) == Some(a)
    ensures exists c :: Alu(SUB, a, b) == Some(c) && Alu(ADD, c, b) == Some(a)
    ensures Alu(ADD, a, Neg32(a)) == Some(0)
    ensures a + b < 0x1_0000_0000 ==> Alu(ADD, a, b) == Some(a + b)
  {
    var up: u32 := if a + b < WORD then a + b else a + b - WORD;
    var down: u32 := if a >= b then a - b else a - b + WORD;
    Wrapped(a, b);
    Wrapped(up, b);
    Wrapped(down, b);
    Wrapped(0, a);
    Wrapped(a, if a == 0 then 0 else WORD - a);
    hide Add32, Sub32;
    assert Alu(ADD, a, b) == Some(up) && Alu(SUB, up, b) == Some(a);
    assert Alu(SUB, a, b) == Some(down) && Alu(ADD, down, b) == Some(a);
  }

  lemma Wrapped(a: u32, b: u32)
    ensures Add32(a, b) == if a + b < WORD then a + b else a + b - WORD
    ensures Sub32(a, b) == if a >= b then a - b else a - b + WORD
  {
    DivisionIs(a + b, WORD, if a + b < WORD then 0 else 1, if a + b < WORD then a + b else a + b - WORD);
    DivisionIs(a - b, WORD, if a >= b then 0 else -1, if a >= b then a - b else a - b + WORD);
  }

  /** The quotient is the largest number of times the divisor goes in; there is none by 0. */
  lemma Quotient(a: u32, b: u32)
    ensures if b == 0 then Alu(DIV, a, b) == None
            else exists q :: Alu(DIV, a, b) == Some(q) && b * q <= a < b * q + b
  {
    if b != 0 {
      var q := a / b;
      assert Alu(DIV, a, b) == Some(q) && a == b * q + a % b;
    }
  }

  /** A product goes on growing by its second factor, round the end of a word. */
  lemma Product(a: u32, b: u32)
    ensures Alu(MUL, 0, b) == Some(0)
    ensures a > 0 ==> exists c :: Alu(MUL, a - 1, b) == Some(c) && Alu(MUL, a, b) == Alu(ADD, c, b)
  {
    if a > 0 {
      var n, m := (a - 1) * b, a * b;
      assert m == n + b;
      assert Alu(MUL, a - 1, b) == Some(n % WORD);
      var q := n / WORD;
      assert n == WORD * q + n % WORD;
      WholeWords(n % WORD + b, q);
    }
  }

  lemma WholeWords(a: nat, q: int)
    ensures (WORD * q + a) % WORD == a % WORD
  {
    DivisionIs(WORD * q + a, WORD, q + a / WORD, a % WORD);
  }

  /** A shift by one doubles, or halves and drops the lowest bit; by 32 or more there is none. */
  lemma Shifts(a: u32, n: u32)
    ensures Alu(LSH, a, 0) == Some(a) && Alu(RSH, a, 0) == Some(a)
    ensures n >= 32 ==> Alu(LSH, a, n) == None && Alu(RSH, a, n) == None
    ensures 0 < n < 32 ==> exists c :: Alu(LSH, a, n - 1) == Some(c) && Alu(LSH, a, n) == Alu(ADD, c, c)
    ensures 0 < n < 32 ==> exists c :: Alu(RSH, a, n - 1) == Some(c) && Alu(RSH, a, n) == Some(c / 2)
  {
    assert Pow2(0) == 1;
    if 0 < n < 32 {
      var d := Pow2(n - 1);
      assert Pow2(n) == 2 * d;
      LeftByOne(a, d);
      assert Alu(LSH, a, n - 1) == Some((a * d) % WORD);
      assert Alu(RSH, a, n - 1) == Some(a / d);
      HalfLast(a, d);
    }
  }

  lemma LeftByOne(a: nat, d: int)
    requires d > 0
    ensures (a * (2 * d)) % WORD == ((a * d) % WORD + (a * d) % WORD) % WORD
  {
    var m, r := (a * d) / WORD, (a * d) % WORD;
    assert a * d == WORD * m + r;
    assert a * (2 * d) == WORD * (2 * m) + (r + r);
    WholeWords(r + r, 2 * m);
  }

  lemma HalfLast(a: nat, d: int)
    requires d > 0
    ensures a / (2 * d) == (a / d) / 2
  {
    var q, r := a / d, a % d;
    var h, odd := q / 2, q % 2;
    assert a == d * q + r && q == 2 * h + odd;
    QuotientBound(a, d);
    Distributes(d, h, odd);
    DivisionIs(a, 2 * d, h, (if odd == 1 then d else 0) + r);
  }

  lemma Distributes(d: int, h: int, odd: int)
    requires odd == 0 || odd == 1
    ensures d * (2 * h + odd) == (2 * d) * h + if odd == 1 then d else 0
  {
  }
}
