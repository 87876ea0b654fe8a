/** Big-endian numbers in byte strings, and the exclusive or of bytes. */
module Octets {
  import opened Arithmetic

  type Octet = x: int | 0 <= x < 256
  type U16 = x: int | 0 <= x < 0x1_0000
  type U32 = x: int | 0 <= x < 0x1_0000_0000

  function Be16(x: int): (r: seq<Octet>)
    ensures |r| == 2
  {
    [x / 256 % 256, x % 256]
  }

  function Be32(x: int): (r: seq<Octet>)
    ensures |r| == 4
  {
    Be16(x / 0x1_0000) + Be16(x % 0x1_0000)
  }

  function Read16(b: seq<Octet>, at: nat): U16
    requires at + 2 <= |b|
  {
    var hi: int, lo: int := b[at], b[at + 1];
    256 * hi + lo
  }

  function Read32(b: seq<Octet>, at: nat): U32
    requires at + 4 <= |b|
  {
    var hi: int, lo: int := Read16(b, at), Read16(b, at + 2);
    0x1_0000 * hi + lo
  }

  lemma Be16Read(x: U16)
    ensures Read16(Be16(x), 0) == x
  {
  }

  lemma Be32Read(x: U32)
    ensures Read32(Be32(x), 0) == x
  {
    Be16Read(x / 0x1_0000);
    Be16Read(x % 0x1_0000);
  }

  lemma Read16Be(b: seq<Octet>, at: nat)
    requires at + 2 <= |b|
    ensures Be16(Read16(b, at)) == b[at..at + 2]
  {
  }

  lemma Read32Be(b: seq<Octet>, at: nat)
    requires at + 4 <= |b|
    ensures Be32(Read32(b, at)) == b[at..at + 4]
  {
    var hi: int, lo: int := Read16(b, at), Read16(b, at + 2);
    var x := Read32(b, at);
    assert x / 0x1_0000 == hi && x % 0x1_0000 == lo;
    Read16Be(b, at);
    Read16Be(b, at + 2);
    assert b[at..at + 4] == b[at..at + 2] + b[at + 2..at + 4];
  }

  // ---- most significant first ----

  /** The number that bytes spell, the most significant first. */
  function Number(b: seq<Octet>): nat {
    if b == [] then 0 else 256 * Number(b[..|b| - 1]) + b[|b| - 1]
  }

  lemma NumberSnoc(b: seq<Octet>, x: Octet)
    ensures Number(b + [x]) == 256 * Number(b) + x
  {
    assert (b + [x])[..|b|] == b;
  }

  lemma Number16(x: Octet, y: Octet)
    ensures var n: int := 256 * (x as int) + y; Number([x, y]) == n < 0x1_0000 && Be16(n) == [x, y]
  {
    NumberSnoc([], x);
    NumberSnoc([x], y);
    hide Number;
    assert [x] + [y] == [x, y] && [] + [x] == [x];
    assert Number([]) == 0 by { EmptyNumber(); }
  }

  lemma EmptyNumber()
    ensures Number([]) == 0
  {
  }

  /** The bytes written for a number spell it. */
  lemma Number32(b: seq<Octet>)
    requires |b| == 4
    ensures Number(b) < 0x1_0000_0000 && Be32(Number(b)) == b
  {
    var p: seq<Octet>, r: seq<Octet> := [b[0], b[1]], [b[2], b[3]];
    Number16(b[0], b[1]);
    Number16(b[2], b[3]);
    NumberSnoc(p, b[2]);
    NumberSnoc(p + [b[2]], b[3]);
    hide Number, Be16;
    assert b == p + r && p + [b[2]] + [b[3]] == b;
    SplitWord(Number(b), Number(p), Number(r));
  }

  /** And the other way round. */
  lemma Spelled32(x: U32)
    ensures Number(Be32(x)) == x
  {
    var b := Be32(x);
    Number32(b);
    Be32Read(x);
    Be32Read(Number(b));
    hide Be32, Number, Read32;
  }

  lemma Spelled16(x: U16)
    ensures Number(Be16(x)) == x
  {
    var b := Be16(x);
    Number16(b[0], b[1]);
    assert b == [b[0], b[1]];
  }

  lemma SplitWord(x: nat, hi: nat, lo: nat)
    requires x == 0x1_0000 * hi + lo && hi < 0x1_0000 && lo < 0x1_0000
    ensures x / 0x1_0000 == hi && x % 0x1_0000 == lo && x < 0x1_0000_0000
  {
  }

  lemma NumberSplit(a: seq<Octet>, b: seq<Octet>)
    requires |b| == 4
    ensures Number(a + b) == 0x1_0000_0000 * Number(a) + Number(b)
  {
    var e: seq<Octet> := [];
    NumberSnoc(a, b[0]);
    NumberSnoc(a + [b[0]], b[1]);
    NumberSnoc(a + [b[0]] + [b[1]], b[2]);
    NumberSnoc(a + [b[0]] + [b[1]] + [b[2]], b[3]);
    NumberSnoc(e, b[0]);
    NumberSnoc(e + [b[0]], b[1]);
    NumberSnoc(e + [b[0]] + [b[1]], b[2]);
    NumberSnoc(e + [b[0]] + [b[1]] + [b[2]], b[3]);
    EmptyNumber();
    hide Number;
    assert a + [b[0]] + [b[1]] + [b[2]] + [b[3]] == a + b && e + [b[0]] + [b[1]] + [b[2]] + [b[3]] == b;
  }

  /** Reading past a prefix reads what follows it. */
  lemma Read16Later(a: seq<Octet>, b: seq<Octet>, at: nat)
    requires at + 2 <= |b|
    ensures Read16(a + b, |a| + at) == Read16(b, at)
  {
  }

  lemma Read16Early(a: seq<Octet>, b: seq<Octet>, at: nat)
    requires at + 2 <= |a|
    ensures Read16(a + b, at) == Read16(a, at)
  {
  }

  lemma Read32Later(a: seq<Octet>, b: seq<Octet>, at: nat)
    requires at + 4 <= |b|
    ensures Read32(a + b, |a| + at) == Read32(b, at)
  {
  }

  lemma Read32Early(a: seq<Octet>, b: seq<Octet>, at: nat)
    requires at + 4 <= |a|
    ensures Read32(a + b, at) == Read32(a, at)
  {
  }

  // ---- exclusive or ----

  /** The lowest n bits of a and b, exclusive-ored. */
  function XorBits(a: nat, b: nat, n: nat): (r: nat)
    ensures r < Pow2(n)
  {
    if n == 0 then 0 else 2 * XorBits(a / 2, b / 2, n - 1) + (a % 2 + b % 2) % 2
  }

  lemma XorHalves(a: nat, b: nat, n: nat)
    requires n > 0
    ensures XorBits(a, b, n) / 2 == XorBits(a / 2, b / 2, n - 1) && XorBits(a, b, n) % 2 == (a % 2 + b % 2) % 2
  {
  }

  /** Every bit is set exactly when one of the two is. */
  lemma {:induction false} XorBit(a: nat, b: nat, n: nat, k: nat)
    requires k < n
    ensures XorBits(a, b, n) / Pow2(k) % 2 == 1 <==> (a / Pow2(k) % 2 == 1) != (b / Pow2(k) % 2 == 1)
  {
    XorHalves(a, b, n);
    if k == 0 {
      OneBit(a % 2, b % 2);
      assert Pow2(0) == 1;
    } else {
      assert Pow2(k) == 2 * Pow2(k - 1);
      hide XorBits, Pow2;
      XorBit(a / 2, b / 2, n - 1, k - 1);
      HalfFirst(a, Pow2(k - 1));
      HalfFirst(b, Pow2(k - 1));
      HalfFirst(XorBits(a, b, n), Pow2(k - 1));
    }
  }

  lemma OneBit(x: nat, y: nat)
    requires x < 2 && y < 2
    ensures (x + y) % 2 == 1 <==> x != y
  {
  }

  lemma HalfFirst(x: nat, p: nat)
    requires p > 0
    ensures x / 2 / p == x / (2 * p)
  {
    var q, r := x / 2 / p, x / (2 * p);
    assert q * p <= x / 2 < (q + 1) * p;
    assert r * (2 * p) <= x < (r + 1) * (2 * p);
    if q < r { MulAtLeast(r - q, p); }
    if r < q { MulAtLeast(q - r, p); }
  }

  lemma {:induction false} XorUndo(a: nat, b: nat, n: nat)
    requires a < Pow2(n)
    ensures XorBits(XorBits(a, b, n), b, n) == a
  {
    if n > 0 {
      assert a / 2 < Pow2(n - 1);
      XorUndo(a / 2, b / 2, n - 1);
      var x := XorBits(a, b, n);
      XorHalves(a, b, n);
      XorHalves(x, b, n);
      hide XorBits, Pow2;
      ParityTwice(a, b, x);
    }
  }

  lemma ParityTwice(a: nat, b: nat, x: nat)
    requires x % 2 == (a % 2 + b % 2) % 2
    ensures (x % 2 + b % 2) % 2 == a % 2
  {
  }

  lemma {:induction false} XorComm(a: nat, b: nat, n: nat)
    ensures XorBits(a, b, n) == XorBits(b, a, n)
  {
    if n > 0 {
      XorComm(a / 2, b / 2, n - 1);
    }
  }

  function Xor(a: Octet, b: Octet): Octet {
    assert Pow2(8) == 256 by { PowValues(); }
    XorBits(a, b, 8)
  }

  /** Exclusive or with the same byte twice, and so once is injective. */
  lemma XorTwice(a: Octet, b: Octet)
    ensures Xor(Xor(a, b), b) == a
  {
    PowValues();
    XorUndo(a, b, 8);
  }

  function XorAll(a: seq<Octet>, b: seq<Octet>): (r: seq<Octet>)
    requires |a| == |b|
    ensures |r| == |a|
  {
    seq(|a|, i requires 0 <= i < |a| => Xor(a[i], b[i]))
  }

  lemma XorAllTwice(a: seq<Octet>, b: seq<Octet>)
    requires |a| == |b|
    ensures XorAll(XorAll(a, b), b) == a
  {
    forall i | 0 <= i < |a| ensures XorAll(XorAll(a, b), b)[i] == a[i] {
      XorTwice(a[i], b[i]);
    }
  }
}
