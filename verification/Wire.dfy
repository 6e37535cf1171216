/**
 The Protocol Buffers wire format: base-128 varints and length-delimited records, as the
 generated code in mqcommon/msg.pb.cc uses them. A read pointer is modelled by what is left
 of the input.
 */
module Wire {
  import opened Bytes

  /** The longest length-delimited field the runtime reads: INT_MAX less its 16 slop bytes. */
  const MAX_SIZE: nat := 0x7FFF_FFEF

  /** How many messages and groups may be nested inside each other: the runtime's default. */
  const MAX_DEPTH: nat := 100

  datatype Scan<+T> = Bad | Got(value: T, rest: seq<byte>)

  function Varint(n: nat): (s: seq<byte>)
    ensures s != []
  {
    if n < 128 then [n] else [128 + n % 128] + Varint(n / 128)
  }

  /** The example of the encoding's own description: seven bits a byte, the low ones first. */
  lemma {:induction false} KnownVarint()
    ensures Varint(150) == [0x96, 0x01] && Varint(300) == [0xAC, 0x02]
  {
    assert Varint(150) == [128 + 150 % 128] + Varint(1);
    assert Varint(300) == [128 + 300 % 128] + Varint(2);
  }

  /** Reads at most `budget` bytes of a varint. */
  function ReadVarint(s: seq<byte>, budget: nat): (r: Scan<nat>)
    ensures r.Got? ==> |r.rest| < |s|
  {
    if s == [] || budget == 0 then Bad
    else if s[0] < 128 then Got(s[0], s[1..])
    else match ReadVarint(s[1..], budget - 1)
      case Bad => Bad
      case Got(high, rest) => Got(s[0] - 128 + 128 * high, rest)
  }

  function Pow128(k: nat): (p: nat)
    ensures p > 0
  {
    if k == 0 then 1 else 128 * Pow128(k - 1)
  }

  /** A varint below 128^budget reads back, whatever follows it. */
  lemma {:induction false} VarintRoundTrip(n: nat, budget: nat, rest: seq<byte>)
    requires budget > 0 && n < Pow128(budget)
    ensures ReadVarint(Varint(n) + rest, budget) == Got(n, rest)
  {
    var s := Varint(n) + rest;
    if n < 128 {
      assert s[1..] == rest;
    } else {
      assert s[1..] == Varint(n / 128) + rest;
      VarintRoundTrip(n / 128, budget - 1, rest);
    }
  }

  /** A tag or a size: 32 bits in at most five bytes. */
  function ReadVarint32(s: seq<byte>): (r: Scan<nat>)
    ensures r.Got? ==> |r.rest| < |s|
  {
    match ReadVarint(s, 5)
    case Bad => Bad
    case Got(v, rest) => Got(v % TWO32, rest)
  }

  function ReadVarint64(s: seq<byte>): (r: Scan<nat>)
    ensures r.Got? ==> |r.rest| < |s|
  {
    match ReadVarint(s, 10)
    case Bad => Bad
    case Got(v, rest) => Got(v % TWO64, rest)
  }

  lemma {:induction false} Varint32RoundTrip(n: nat, rest: seq<byte>)
    requires n < TWO32
    ensures ReadVarint32(Varint(n) + rest) == Got(n, rest)
  {
    assert Pow128(5) == 128 * (128 * (128 * (128 * (128 * Pow128(0)))));
    VarintRoundTrip(n, 5, rest);
  }

  lemma {:induction false} Varint64RoundTrip(n: nat, rest: seq<byte>)
    requires n < TWO64
    ensures ReadVarint64(Varint(n) + rest) == Got(n, rest)
  {
    assert Pow128(5) == 128 * (128 * (128 * (128 * (128 * Pow128(0)))));
    assert Pow128(10) == 128 * (128 * (128 * (128 * (128 * Pow128(5)))));
    VarintRoundTrip(n, 10, rest);
  }

  /** Number of bytes of a varint, as `ByteSizeLong` counts it. */
  function VarintSize(n: nat): nat {
    if n < 128 then 1 else 1 + VarintSize(n / 128)
  }

  lemma {:induction false} VarintSizeIsLength(n: nat)
    ensures VarintSize(n) == |Varint(n)|
  {
    if n >= 128 {
      VarintSizeIsLength(n / 128);
    }
  }

  function Delimited(v: Str): seq<byte> {
    Varint(|v|) + v
  }

  /** A size is a varint of at most five bytes; a fifth byte of 8 or more, 2^31 or beyond, is refused. */
  function ReadSize(s: seq<byte>): (r: Scan<nat>)
    ensures r.Got? ==> |r.rest| < |s| && r.value <= MAX_SIZE
  {
    match ReadVarint(s, 5)
    case Bad => Bad
    case Got(size, rest) => if size > MAX_SIZE then Bad else Got(size, rest)
  }

  function ReadDelimited(s: seq<byte>): (r: Scan<Str>)
    ensures r.Got? ==> |r.rest| < |s| && |r.value| < |s|
  {
    match ReadSize(s)
    case Bad => Bad
    case Got(size, rest) => if size > |rest| then Bad else Got(rest[..size], rest[size..])
  }

  lemma {:induction false} DelimitedRoundTrip(v: Str, rest: seq<byte>)
    requires |v| <= MAX_SIZE
    ensures ReadDelimited(Delimited(v) + rest) == Got(v, rest)
  {
    assert Delimited(v) + rest == Varint(|v|) + (v + rest);
    assert Pow128(5) == 128 * (128 * (128 * (128 * (128 * Pow128(0)))));
    VarintRoundTrip(|v|, 5, v + rest);
    assert (v + rest)[..|v|] == v;
    assert (v + rest)[|v|..] == rest;
  }

  /** Skips a field no message declares; `depth` is how many more groups may open inside each other. */
  function SkipUnknown(tag: nat, s: seq<byte>, depth: nat): (r: Scan<()>)
    ensures r.Got? ==> |r.rest| <= |s|
    decreases |s|, 1
  {
    if tag / 8 == 0 then Bad
    else match tag % 8
      case 0 => (match ReadVarint64(s) case Bad => Bad case Got(_, rest) => Got((), rest))
      case 1 => if |s| < 8 then Bad else Got((), s[8..])
      case 2 => (match ReadDelimited(s) case Bad => Bad case Got(_, rest) => Got((), rest))
      case 3 => if depth == 0 then Bad else SkipGroup(tag / 8, s, depth - 1)
      case 5 => if |s| < 4 then Bad else Got((), s[4..])
      case _ => Bad
  }

  /** Skips the fields of a group up to the end tag of the same number. */
  function SkipGroup(field: nat, s: seq<byte>, depth: nat): (r: Scan<()>)
    ensures r.Got? ==> |r.rest| <= |s|
    decreases |s|, 0
  {
    match ReadVarint32(s)
    case Bad => Bad
    case Got(tag, rest) =>
      if tag == 0 || tag % 8 == 4 then (if tag == 8 * field + 4 then Got((), rest) else Bad)
      else match SkipUnknown(tag, rest, depth)
        case Bad => Bad
        case Got(_, rest') => SkipGroup(field, rest', depth)
  }

  /** Well-formed UTF-8, the syntax of section 4 of RFC 3629. */
  predicate Utf8(s: Str) {
    s == [] ||
    if s[0] < 0x80 then Utf8(s[1..])
    else if 0xC2 <= s[0] <= 0xDF then |s| >= 2 && Tail(s[1]) && Utf8(s[2..])
    else if 0xE0 <= s[0] <= 0xEF then
      && |s| >= 3 && Tail(s[1]) && Tail(s[2])
      && (s[0] == 0xE0 ==> s[1] >= 0xA0) && (s[0] == 0xED ==> s[1] <= 0x9F)
      && Utf8(s[3..])
    else
      && 0xF0 <= s[0] <= 0xF4
      && |s| >= 4 && Tail(s[1]) && Tail(s[2]) && Tail(s[3])
      && (s[0] == 0xF0 ==> s[1] >= 0x90) && (s[0] == 0xF4 ==> s[1] <= 0x8F)
      && Utf8(s[4..])
  }

  predicate Tail(b: byte) {
    0x80 <= b <= 0xBF
  }
}
