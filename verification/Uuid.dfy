/** `UUIDHelper::uuid`: eight random bytes and eight overlapping windows of a counter, in hexadecimal. */
module Uuid {
  import opened Bytes

  const DASH: byte := 45
  const TWO36: nat := 0x10_0000_0000

  /** A hexadecimal digit as the stream prints it. */
  function Digit(d: nat): (ch: byte)
    requires d < 16
  {
    if d < 10 then 48 + d else 87 + d
  }

  function Hex(b: byte): (s: Str)
    ensures |s| == 2
  {
    [Digit(b / 16), Digit(b % 16)]
  }

  lemma {:induction false} HexInjective(a: byte, b: byte)
    requires Hex(a) == Hex(b)
    ensures a == b
  {
    assert Hex(a)[0] == Hex(b)[0] && Hex(a)[1] == Hex(b)[1];
    assert a == 16 * (a / 16) + a % 16 && b == 16 * (b / 16) + b % 16;
  }

  function Pow16(i: nat): (p: nat)
    ensures p > 0
  {
    if i == 0 then 1 else 16 * Pow16(i - 1)
  }

  /** `(num >> (i * 4)) & 0xff`. */
  function Window(num: nat, i: nat): byte {
    num / Pow16(i) % 256
  }

  // ---- The text ----

  function RandomPart(random: seq<byte>, i: nat): Str
    requires |random| == 8 && i <= 8
  {
    if i == 0 then []
    else RandomPart(random, i - 1) + Hex(random[i - 1]) + (if i == 4 || i == 6 || i == 8 then [DASH] else [])
  }

  /** The windows from number 7 down to number `8 - i`. */
  function CounterPart(num: nat, i: nat): Str
    requires i <= 8
  {
    if i == 0 then []
    else CounterPart(num, i - 1) + Hex(Window(num, 8 - i)) + (if i == 2 then [DASH] else [])
  }

  function Text(random: seq<byte>, num: nat): Str
    requires |random| == 8
  {
    RandomPart(random, 8) + CounterPart(num, 8)
  }

  /** Digits in lower case, the high one first. */
  lemma {:induction false} Digits(b: byte)
    ensures var digits: Str := [48, 49, 50, 51, 52, 53, 54, 55, 56, 57, 97, 98, 99, 100, 101, 102];
            Hex(b) == [digits[b / 16], digits[b % 16]]
  {
  }

  lemma {:induction false} RandomText(r: seq<byte>)
    requires |r| == 8
    ensures RandomPart(r, 8) == Hex(r[0]) + Hex(r[1]) + Hex(r[2]) + Hex(r[3]) + [45]
                                + Hex(r[4]) + Hex(r[5]) + [45] + Hex(r[6]) + Hex(r[7]) + [45]
  {
    hide Hex;
    assert RandomPart(r, 1) == Hex(r[0]);
    assert RandomPart(r, 2) == Hex(r[0]) + Hex(r[1]);
    assert RandomPart(r, 3) == RandomPart(r, 2) + Hex(r[2]);
    assert RandomPart(r, 4) == RandomPart(r, 3) + Hex(r[3]) + [45];
    assert RandomPart(r, 5) == RandomPart(r, 4) + Hex(r[4]);
    assert RandomPart(r, 6) == RandomPart(r, 5) + Hex(r[5]) + [45];
    assert RandomPart(r, 7) == RandomPart(r, 6) + Hex(r[6]);
    assert RandomPart(r, 8) == RandomPart(r, 7) + Hex(r[7]) + [45];
  }

  /** The eight windows of the counter, the highest first: a byte each, at shifts of four bits. */
  lemma {:induction false} CounterText(n: nat)
    ensures CounterPart(n, 8) == Hex(n / 0x1000_0000 % 256) + Hex(n / 0x100_0000 % 256) + [45]
                                 + Hex(n / 0x10_0000 % 256) + Hex(n / 0x1_0000 % 256) + Hex(n / 0x1000 % 256)
                                 + Hex(n / 0x100 % 256) + Hex(n / 0x10 % 256) + Hex(n % 256)
  {
    WindowsAt(n);
    hide Hex, Window;
    assert CounterPart(n, 1) == Hex(Window(n, 7));
    assert CounterPart(n, 2) == CounterPart(n, 1) + Hex(Window(n, 6)) + [45];
    assert CounterPart(n, 3) == CounterPart(n, 2) + Hex(Window(n, 5));
    assert CounterPart(n, 4) == CounterPart(n, 3) + Hex(Window(n, 4));
    assert CounterPart(n, 5) == CounterPart(n, 4) + Hex(Window(n, 3));
    assert CounterPart(n, 6) == CounterPart(n, 5) + Hex(Window(n, 2));
    assert CounterPart(n, 7) == CounterPart(n, 6) + Hex(Window(n, 1));
    assert CounterPart(n, 8) == CounterPart(n, 7) + Hex(Window(n, 0));
  }

  lemma {:induction false} WindowsAt(n: nat)
    ensures Window(n, 7) == n / 0x1000_0000 % 256 && Window(n, 6) == n / 0x100_0000 % 256
    ensures Window(n, 5) == n / 0x10_0000 % 256 && Window(n, 4) == n / 0x1_0000 % 256
    ensures Window(n, 3) == n / 0x1000 % 256 && Window(n, 2) == n / 0x100 % 256
    ensures Window(n, 1) == n / 0x10 % 256 && Window(n, 0) == n % 256
  {
    PowersOf16();
  }

  class Generator {
    var next: nat

    constructor ()
      ensures next == 1
    {
      next := 1;
    }

    /** The random bytes come from outside; the counter is a 64-bit `size_t`. */
    method Mint(random: seq<byte>) returns (id: Str)
      requires |random| == 8
      modifies this
      ensures id == Text(random, old(next)) && next == (old(next) + 1) % TWO64
    {
      id := [];
      for i := 0 to 8
        invariant id == RandomPart(random, i) && next == old(next)
      {
        id := id + Hex(random[i]);
        if i == 3 || i == 5 || i == 7 {
          id := id + [DASH];
        }
      }
      var num := next;
      next := (next + 1) % TWO64;
      var i := 7;
      while i >= 0
        invariant -1 <= i <= 7
        invariant id == RandomPart(random, 8) + CounterPart(num, 7 - i)
        invariant num == old(next) && next == (num + 1) % TWO64
      {
        ghost var front, before := RandomPart(random, 8), CounterPart(num, 7 - i);
        Assoc(front, before, Hex(Window(num, i)));
        id := id + Hex(Window(num, i));
        if i == 6 {
          Assoc(front, before + Hex(Window(num, i)), [DASH]);
          id := id + [DASH];
        }
        i := i - 1;
      }
    }
  }

  // ---- Uniqueness ----

  lemma {:induction false} RandomLength(random: seq<byte>, i: nat)
    requires |random| == 8 && i <= 8
    ensures |RandomPart(random, i)| == 2 * i + (if i < 4 then 0 else if i < 6 then 1 else if i < 8 then 2 else 3)
  {
    if i > 0 {
      RandomLength(random, i - 1);
    }
  }

  lemma {:induction false} CounterLength(num: nat, i: nat)
    requires i <= 8
    ensures |CounterPart(num, i)| == 2 * i + (if i < 2 then 0 else 1)
  {
    if i > 0 {
      CounterLength(num, i - 1);
    }
  }

  lemma {:induction false} SameTail<T>(a: seq<T>, b: seq<T>, a': seq<T>, b': seq<T>)
    requires |a| == |a'| && a + b == a' + b'
    ensures a == a' && b == b'
  {
    assert (a + b)[..|a|] == a && (a' + b')[..|a|] == a';
    assert (a + b)[|a|..] == b && (a' + b')[|a|..] == b';
  }

  lemma {:induction false} SameWindows(x: nat, y: nat, i: nat)
    requires i <= 8 && CounterPart(x, i) == CounterPart(y, i)
    ensures forall k :: 8 - i <= k < 8 ==> Window(x, k) == Window(y, k)
  {
    if i > 0 {
      var dash: Str := if i == 2 then [DASH] else [];
      CounterLength(x, i - 1);
      CounterLength(y, i - 1);
      SameTail(CounterPart(x, i - 1) + Hex(Window(x, 8 - i)), dash,
               CounterPart(y, i - 1) + Hex(Window(y, 8 - i)), dash);
      SameTail(CounterPart(x, i - 1), Hex(Window(x, 8 - i)), CounterPart(y, i - 1), Hex(Window(y, 8 - i)));
      HexInjective(Window(x, 8 - i), Window(y, 8 - i));
      SameWindows(x, y, i - 1);
    }
  }

  lemma {:induction false} WindowsSame(x: nat, y: nat, i: nat)
    requires i <= 8 && forall k :: 0 <= k < 8 ==> Window(x, k) == Window(y, k)
    ensures CounterPart(x, i) == CounterPart(y, i)
  {
    if i > 0 {
      WindowsSame(x, y, i - 1);
    }
  }

  lemma {:induction false} Quotients(x: nat)
    ensures x / 0x100 / 0x100 == x / 0x1_0000
  {
  }

  lemma {:induction false} FourthQuotient(x: nat)
    ensures x / 0x1_0000 / 0x100 == x / 0x100_0000 && x / 0x100_0000 / 0x10 == x / 0x1000_0000
  {
  }

  /** The windows at shifts 0, 8, 16 and 24 are the low four bytes, and that at 28 overlaps the fifth. */
  lemma {:induction false} WindowBytes(x: nat, a: nat, b: nat, c: nat)
    requires a == x / 0x100 && b == a / 0x100 && c == b / 0x100
    ensures Window(x, 0) == x % 256 && Window(x, 2) == a % 256 && Window(x, 4) == b % 256 && Window(x, 6) == c % 256
    ensures Window(x, 7) == c / 16 % 256
  {
    PowersOf16();
    Quotients(x);
    FourthQuotient(x);
  }

  lemma {:induction false} Overlap(c: nat)
    ensures c / 16 % 256 / 16 == c / 0x100 % 16
  {
    var g, r := c / 16 / 256, c / 16 % 256;
    Nibble(g, r);
    assert c / 16 == 256 * g + r;
    Sixteenth(c);
  }

  lemma {:induction false} Nibble(g: nat, r: nat)
    requires r < 256
    ensures (256 * g + r) / 16 % 16 == r / 16
  {
    assert (256 * g + r) / 16 == 16 * g + r / 16;
  }

  lemma {:induction false} Sixteenth(c: nat)
    ensures c / 16 / 16 == c / 0x100
  {
  }

  lemma {:induction false} LowBits(x: nat, a: nat, b: nat, c: nat, d: nat)
    requires a == x / 0x100 && b == a / 0x100 && c == b / 0x100 && d == c / 0x100
    ensures x % TWO36 == x % 256 + 0x100 * (a % 256) + 0x1_0000 * (b % 256) + 0x100_0000 * (c % 256)
                         + 0x1_0000_0000 * (d % 16)
  {
    var low := x % 256 + 0x100 * (a % 256) + 0x1_0000 * (b % 256) + 0x100_0000 * (c % 256) + 0x1_0000_0000 * (d % 16);
    assert x == TWO36 * (d / 16) + low;
    LowPart(x, d / 16, low);
  }

  lemma {:induction false} LowPart(x: nat, high: nat, low: nat)
    requires x == TWO36 * high + low && low < TWO36
    ensures x % TWO36 == low
  {
  }

  /** The low 36 bits from the windows at shifts 0, 8, 16, 24 and 28. */
  lemma {:induction false} BitsFromWindows(x: nat)
    ensures x % TWO36 == Window(x, 0) + 0x100 * Window(x, 2) + 0x1_0000 * Window(x, 4)
                         + 0x100_0000 * Window(x, 6) + 0x1_0000_0000 * (Window(x, 7) / 16)
  {
    var a := x / 0x100;
    var b := a / 0x100;
    var c := b / 0x100;
    WindowBytes(x, a, b, c);
    Overlap(c);
    LowBits(x, a, b, c, c / 0x100);
  }

  lemma {:induction false} PowersOf16()
    ensures Pow16(0) == 1 && Pow16(1) == 16 && Pow16(2) == 0x100 && Pow16(3) == 0x1000 && Pow16(4) == 0x1_0000
    ensures Pow16(5) == 0x10_0000 && Pow16(6) == 0x100_0000 && Pow16(7) == 0x1000_0000
  {
    assert Pow16(2) == 16 * Pow16(1);
    assert Pow16(4) == 16 * Pow16(3);
    assert Pow16(6) == 16 * Pow16(5);
  }

  /** A window only depends on the low 36 bits. */
  lemma {:induction false} WindowOfLowBits(x: nat, i: nat)
    requires i < 8
    ensures Window(x, i) == Window(x % TWO36, i)
  {
    PowersOf16();
    var high, low := x / TWO36, x % TWO36;
    assert x == high * 0x10_0000_0000 + low;
    ShiftLow(high, low, Pow16(i), 0x10_0000_0000 / (256 * Pow16(i)));
  }

  lemma {:induction false} ShiftLow(high: nat, low: nat, p: nat, q: nat)
    requires p > 0 && 256 * p * q == 0x10_0000_0000
    ensures (high * 0x10_0000_0000 + low) / p % 256 == low / p % 256
  {
    var k := 256 * (high * q);
    assert high * 0x10_0000_0000 == p * k;
    DivShift(k, low, p);
    ModShift(high * q, low / p);
  }

  lemma {:induction false} DivShift(k: nat, low: nat, p: nat)
    requires p > 0
    ensures (p * k + low) / p == k + low / p
  {
    var q := (p * k + low) / p;
    assert p * k + low == p * q + (p * k + low) % p;
    assert low == p * (low / p) + low % p;
    var d := q - (k + low / p);
    assert p * d == low % p - (p * k + low) % p;
    if d >= 1 {
      Grows(p, d, 1);
      assert false;
    } else if d <= -1 {
      Grows(p, -1, d);
      assert false;
    }
  }

  lemma {:induction false} Grows(p: nat, d: int, e: int)
    requires d >= e
    ensures p * d >= p * e
  {
    assert p * (d - e) >= 0;
  }

  lemma {:induction false} ModShift(a: nat, b: nat)
    ensures (256 * a + b) % 256 == b % 256
  {
  }

  /** The counter part of an identifier determines the low 36 bits of the counter, and nothing more. */
  lemma {:induction false} CounterPartIff(x: nat, y: nat)
    ensures CounterPart(x, 8) == CounterPart(y, 8) <==> x % TWO36 == y % TWO36
  {
    if CounterPart(x, 8) == CounterPart(y, 8) {
      SameWindows(x, y, 8);
      BitsFromWindows(x);
      BitsFromWindows(y);
    }
    if x % TWO36 == y % TWO36 {
      forall k | 0 <= k < 8 ensures Window(x, k) == Window(y, k) {
        WindowOfLowBits(x, k);
        WindowOfLowBits(y, k);
      }
      WindowsSame(x, y, 8);
    }
  }

  /** Two identifiers differ, whatever the random bytes, whenever their counters differ modulo 2^36. */
  lemma {:induction false} DistinctCountersDistinctIds(r: seq<byte>, x: nat, s: seq<byte>, y: nat)
    requires |r| == |s| == 8 && x % TWO36 != y % TWO36
    ensures Text(r, x) != Text(s, y)
  {
    RandomLength(r, 8);
    RandomLength(s, 8);
    CounterPartIff(x, y);
    if Text(r, x) == Text(s, y) {
      SameTail(RandomPart(r, 8), CounterPart(x, 8), RandomPart(s, 8), CounterPart(y, 8));
    }
  }
}
