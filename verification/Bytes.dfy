/** Bytes, strings of bytes and the two byte orders in which integers are stored. */
module Bytes {
  type byte = x: int | 0 <= x < 256

  /** `std::string`: a sequence of 8-bit characters. */
  type Str = seq<byte>

  datatype Option<+T> = None | Some(value: T)

  const TWO32: nat := 0x1_0000_0000
  const TWO64: nat := 0x1_0000_0000_0000_0000

  function Pow256(k: nat): (p: nat)
    ensures p > 0
  {
    if k == 0 then 1 else 256 * Pow256(k - 1)
  }

  /** The `k` low bytes of `n`, least significant first: a `size_t` in memory on x86-64. */
  function LittleEndian(n: nat, k: nat): (s: seq<byte>)
    ensures |s| == k
  {
    if k == 0 then [] else [n % 256] + LittleEndian(n / 256, k - 1)
  }

  function FromLittleEndian(s: seq<byte>): nat {
    if s == [] then 0 else s[0] + 256 * FromLittleEndian(s[1..])
  }

  lemma {:induction false} LittleEndianRoundTrip(n: nat, k: nat)
    requires n < Pow256(k)
    ensures FromLittleEndian(LittleEndian(n, k)) == n
  {
    if k > 0 {
      LittleEndianRoundTrip(n / 256, k - 1);
      assert LittleEndian(n, k)[1..] == LittleEndian(n / 256, k - 1);
    }
  }

  /** The `k` low bytes of `n`, most significant first: network byte order. */
  function BigEndian(n: nat, k: nat): (s: seq<byte>)
    ensures |s| == k
  {
    if k == 0 then [] else BigEndian(n / 256, k - 1) + [n % 256]
  }

  function FromBigEndian(s: seq<byte>): nat {
    if s == [] then 0 else 256 * FromBigEndian(s[..|s| - 1]) + s[|s| - 1]
  }

  lemma {:induction false} OneMoreMultiple(m: nat, q: int, r: int)
    requires q < r
    ensures m * q + m <= m * r
  {
    assert 0 <= m * (r - q - 1);
    assert m * (r - q - 1) == m * r - m * q - m;
  }

  lemma {:induction false} QuotientIs(n: nat, m: nat, q: nat, r: nat)
    requires m > 0 && n == m * q + r && r < m
    ensures n / m == q
  {
    var d, e := n / m, n % m;
    assert n == m * d + e && 0 <= e < m;
    if d < q {
      OneMoreMultiple(m, d, q);
    } else if d > q {
      OneMoreMultiple(m, q, d);
    }
  }

  /** Dividing twice. */
  lemma {:induction false} Quotient(n: nat, p: nat)
    requires p > 0
    ensures n / 256 / p == n / (256 * p)
  {
    var a, b := n / 256, n % 256;
    var c, d := a / p, a % p;
    assert n == 256 * a + b && a == p * c + d;
    Times256(p, c);
    QuotientIs(n, 256 * p, c, 256 * d + b);
  }

  lemma {:induction false} Times256(p: nat, c: nat)
    ensures 256 * (p * c) == (256 * p) * c
  {
  }

  /** Byte `i` of `k` in memory holds the bits from `8 * i` on. */
  lemma {:induction false} LittleEndianAt(n: nat, k: nat, i: nat)
    requires i < k
    ensures LittleEndian(n, k)[i] == n / Pow256(i) % 256
  {
    if i > 0 {
      LittleEndianAt(n / 256, k - 1, i - 1);
      Quotient(n, Pow256(i - 1));
    }
  }

  /** Byte `i` of `k` in network order holds the bits from `8 * (k - 1 - i)` on: the high ones come first. */
  lemma {:induction false} BigEndianAt(n: nat, k: nat, i: nat)
    requires i < k
    ensures BigEndian(n, k)[i] == n / Pow256(k - 1 - i) % 256
  {
    if i < k - 1 {
      BigEndianAt(n / 256, k - 1, i);
      Quotient(n, Pow256(k - 2 - i));
    }
  }

  lemma {:induction false} BigEndianRoundTrip(n: nat, k: nat)
    requires n < Pow256(k)
    ensures FromBigEndian(BigEndian(n, k)) == n
  {
    if k > 0 {
      BigEndianRoundTrip(n / 256, k - 1);
      assert BigEndian(n, k)[..k - 1] == BigEndian(n / 256, k - 1);
    }
  }

  lemma {:induction false} FromBigEndianBound(s: seq<byte>)
    ensures FromBigEndian(s) < Pow256(|s|)
  {
    if s != [] {
      FromBigEndianBound(s[..|s| - 1]);
    }
  }

  /** A signed integer of `k` bytes as the unsigned one with the same bits (two's complement), and back. */
  function AsUnsigned(x: int, k: nat): (u: nat)
    requires 2 * x < Pow256(k) && 0 <= 2 * x + Pow256(k)
    ensures u < Pow256(k)
  {
    if x >= 0 then x else x + Pow256(k)
  }

  function AsSigned(u: nat, k: nat): int {
    if 2 * u < Pow256(k) then u else u - Pow256(k)
  }

  // ---- Sequences ----

  lemma {:induction false} Assoc<T>(a: seq<T>, b: seq<T>, c: seq<T>)
    ensures (a + b) + c == a + (b + c)
  {
  }

  /** Reading back the parts of a concatenation. */
  lemma {:induction false} Parts<T>(a: seq<T>, b: seq<T>, c: seq<T>)
    ensures var s := a + (b + c);
            && s[..|a|] == a
            && s[|a|..|a| + |b|] == b
            && s[|a| + |b|..] == c
  {
  }
}
