/** muduo's `Buffer`: a growing byte array whose readable part lies between two indices. */
module NetBuffer {
  import opened Bytes

  const CHEAP_PREPEND: nat := 8
  const INITIAL_SIZE: nat := 1024

  lemma {:induction false} SliceOfPrefix(s: seq<byte>, prefix: seq<byte>, from: nat, to: nat)
    requires prefix <= s && from <= to <= |prefix|
    ensures s[from..to] == prefix[from..to]
  {
  }

  /** The slice from `from` up to bytes just written at `at`. */
  lemma {:induction false} SliceWritten(was: seq<byte>, now: seq<byte>, from: nat, at: nat, data: seq<byte>)
    requires from <= at <= at + |data| <= |was| && now == was[..at] + data + was[at + |data|..]
    ensures now[from..at + |data|] == was[from..at] + data
  {
  }

  /** The slice from bytes just written at `at` on. */
  lemma {:induction false} SliceAfterWritten(was: seq<byte>, now: seq<byte>, at: nat, data: seq<byte>, to: nat)
    requires at + |data| <= to <= |was| && now == was[..at] + data + was[at + |data|..]
    ensures now[at..to] == data + was[at + |data|..to]
  {
  }

  class Buffer {
    var buffer: array<byte>
    var reader: nat
    var writer: nat

    ghost predicate Valid()
      reads this
    {
      reader <= writer <= buffer.Length && CHEAP_PREPEND <= buffer.Length
    }

    /** The readable bytes. */
    ghost function Content(): (c: seq<byte>)
      reads this, buffer
      requires Valid()
      ensures |c| == writer - reader
    {
      buffer[reader..writer]
    }

    constructor (initialSize: nat)
      ensures Valid() && fresh(buffer) && Content() == []
      ensures reader == CHEAP_PREPEND && WritableBytes() == initialSize
    {
      buffer := new byte[CHEAP_PREPEND + initialSize](_ => 0);
      reader, writer := CHEAP_PREPEND, CHEAP_PREPEND;
    }

    function ReadableBytes(): nat
      reads this
      requires Valid()
    {
      writer - reader
    }

    function WritableBytes(): nat
      reads this
      requires Valid()
    {
      buffer.Length - writer
    }

    method Swap(rhs: Buffer)
      requires Valid() && rhs.Valid()
      modifies this, rhs
      ensures buffer == old(rhs.buffer) && reader == old(rhs.reader) && writer == old(rhs.writer)
      ensures rhs.buffer == old(buffer) && rhs.reader == old(reader) && rhs.writer == old(writer)
    {
      var b, r, w := buffer, reader, writer;
      buffer, reader, writer := rhs.buffer, rhs.reader, rhs.writer;
      rhs.buffer, rhs.reader, rhs.writer := b, r, w;
    }

    // ---- Reading ----

    method RetrieveAll()
      requires Valid()
      modifies this`reader, this`writer
      ensures Valid() && Content() == [] && reader == CHEAP_PREPEND
    {
      reader, writer := CHEAP_PREPEND, CHEAP_PREPEND;
    }

    /** Drops the first `len` readable bytes; an emptied buffer goes back to its start. */
    method Retrieve(len: nat)
      requires Valid() && len <= ReadableBytes()
      modifies this`reader, this`writer
      ensures Valid() && Content() == old(Content())[len..]
      ensures reader == if len < old(ReadableBytes()) then old(reader) + len else CHEAP_PREPEND
    {
      if len < ReadableBytes() {
        reader := reader + len;
      } else {
        RetrieveAll();
      }
    }

    method RetrieveAsString(len: nat) returns (s: Str)
      requires Valid() && len <= ReadableBytes()
      modifies this`reader, this`writer
      ensures Valid() && s + Content() == old(Content()) && |s| == len
    {
      s := buffer[reader..reader + len];
      Retrieve(len);
    }

    method RetrieveAllAsString() returns (s: Str)
      requires Valid()
      modifies this`reader, this`writer
      ensures Valid() && s == old(Content()) && Content() == []
    {
      s := RetrieveAsString(ReadableBytes());
    }

    // ---- Making room ----

    /** `std::vector::resize` to a larger size: a new array with the old elements in front. */
    method Resize(size: nat)
      requires Valid() && buffer.Length <= size
      modifies this`buffer
      ensures Valid() && fresh(buffer) && buffer.Length == size
      ensures buffer[..old(buffer.Length)] == old(buffer[..])
    {
      var larger := new byte[size](_ => 0);
      for i := 0 to buffer.Length
        invariant buffer == old(buffer) && larger[..i] == buffer[..i]
      {
        larger[i] := buffer[i];
        assert larger[..i + 1] == larger[..i] + [buffer[i]];
        assert buffer[..i + 1] == buffer[..i] + [buffer[i]];
      }
      assert buffer[..buffer.Length] == buffer[..];
      buffer := larger;
    }

    /** `std::copy` of the readable bytes to the front: the two ranges may overlap. */
    method MoveToFront()
      requires Valid() && CHEAP_PREPEND < reader
      modifies this`reader, this`writer, buffer
      ensures Valid() && reader == CHEAP_PREPEND
      ensures Content() == old(Content())
    {
      var readable := ReadableBytes();
      ghost var was := buffer[..];
      for i := 0 to readable
        invariant reader == old(reader) && writer == old(writer)
        invariant buffer[CHEAP_PREPEND..CHEAP_PREPEND + i] == was[reader..reader + i]
        invariant buffer[reader + i..] == was[reader + i..]
      {
        var b := buffer[reader + i];
        assert b == buffer[reader + i..][0] == was[reader + i];
        ghost var rest := buffer[reader + i + 1..];
        assert rest == buffer[reader + i..][1..] == was[reader + i..][1..] == was[reader + i + 1..];
        buffer[CHEAP_PREPEND + i] := b;
        assert buffer[CHEAP_PREPEND..CHEAP_PREPEND + i + 1] == buffer[CHEAP_PREPEND..CHEAP_PREPEND + i] + [b];
        assert was[reader..reader + i + 1] == was[reader..reader + i] + [b];
      }
      assert old(Content()) == was[reader..reader + readable];
      reader := CHEAP_PREPEND;
      writer := reader + readable;
    }

    /** Called when the space behind the content is short; the assertion of the source is the call's precondition. */
    method MakeSpace(len: nat)
      requires Valid() && WritableBytes() < len
      modifies this, buffer
      ensures Valid() && (buffer == old(buffer) || fresh(buffer))
      ensures Content() == old(Content()) && WritableBytes() >= len
      ensures reader == old(reader) || reader == CHEAP_PREPEND
    {
      if WritableBytes() + reader < len + CHEAP_PREPEND {
        ghost var was := buffer[..];
        Resize(writer + len);
        SliceOfPrefix(buffer[..], was, reader, writer);
      } else {
        MoveToFront();
      }
    }

    method EnsureWritableBytes(len: nat)
      requires Valid()
      modifies this, buffer
      ensures Valid() && (buffer == old(buffer) || fresh(buffer))
      ensures Content() == old(Content()) && WritableBytes() >= len
      ensures reader == old(reader) || reader == CHEAP_PREPEND
      ensures len <= old(WritableBytes()) ==>
                buffer == old(buffer) && reader == old(reader) && writer == old(writer)
    {
      if WritableBytes() < len {
        MakeSpace(len);
      }
    }

    // ---- Writing ----

    method CopyIn(at: nat, data: seq<byte>)
      requires at + |data| <= buffer.Length
      modifies buffer
      ensures buffer[..] == old(buffer[..at]) + data + old(buffer[at + |data|..])
    {
      ghost var was := buffer[..];
      for i := 0 to |data|
        invariant buffer[..at] == was[..at]
        invariant buffer[at..at + i] == data[..i]
        invariant buffer[at + |data|..] == was[at + |data|..]
      {
        buffer[at + i] := data[i];
        assert buffer[at..at + i + 1] == buffer[at..at + i] + [data[i]];
        assert data[..i + 1] == data[..i] + [data[i]];
      }
      assert buffer[..] == buffer[..at] + buffer[at..at + |data|] + buffer[at + |data|..];
    }

    method Append(data: seq<byte>)
      requires Valid()
      modifies this, buffer
      ensures Valid() && (buffer == old(buffer) || fresh(buffer))
      ensures Content() == old(Content()) + data
      ensures |data| <= old(WritableBytes()) ==>
                buffer == old(buffer) && reader == old(reader) && writer == old(writer) + |data|
    {
      EnsureWritableBytes(|data|);
      ghost var was := buffer[..];
      CopyIn(writer, data);
      SliceWritten(was, buffer[..], reader, writer, data);
      writer := writer + |data|;
    }

    /** Takes back the last `len` bytes appended. */
    method Unwrite(len: nat)
      requires Valid() && len <= ReadableBytes()
      modifies this`writer
      ensures Valid() && Content() == old(Content())[..old(ReadableBytes()) - len]
    {
      ghost var was := Content();
      writer := writer - len;
      assert Content() == was[..|was| - len];
    }

    method Prepend(data: seq<byte>)
      requires Valid() && |data| <= reader
      modifies this`reader, buffer
      ensures Valid() && Content() == data + old(Content()) && reader == old(reader) - |data|
    {
      ghost var was := buffer[..];
      reader := reader - |data|;
      CopyIn(reader, data);
      SliceAfterWritten(was, buffer[..], reader, data, writer);
    }

    /** Moves the content to a new buffer with room for `reserve` more bytes. */
    method Shrink(reserve: nat)
      requires Valid()
      modifies this
      ensures Valid() && fresh(buffer) && Content() == old(Content())
      ensures reader == CHEAP_PREPEND && WritableBytes() >= reserve
    {
      var other := new Buffer(INITIAL_SIZE);
      other.EnsureWritableBytes(ReadableBytes() + reserve);
      other.Append(buffer[reader..writer]);
      Swap(other);
    }

    // ---- Integers in network byte order; `k` is the size in bytes: 1, 2, 4 or 8 ----

    method AppendInt(x: int, k: nat)
      requires Valid() && Fits(x, k)
      modifies this, buffer
      ensures Valid() && (buffer == old(buffer) || fresh(buffer))
      ensures Content() == old(Content()) + Network(x, k)
    {
      Append(Network(x, k));
    }

    method PeekInt(k: nat) returns (x: int)
      requires Valid() && k <= ReadableBytes()
      ensures x == FromNetwork(Content()[..k])
    {
      x := FromNetwork(buffer[reader..reader + k]);
      assert Content()[..k] == buffer[reader..reader + k];
    }

    method ReadInt(k: nat) returns (x: int)
      requires Valid() && k <= ReadableBytes()
      modifies this`reader, this`writer
      ensures Valid() && x == FromNetwork(old(Content())[..k]) && Content() == old(Content())[k..]
    {
      x := PeekInt(k);
      Retrieve(k);
    }

    method PrependInt(x: int, k: nat)
      requires Valid() && Fits(x, k) && k <= reader
      modifies this`reader, buffer
      ensures Valid() && Content() == Network(x, k) + old(Content()) && reader == old(reader) - k
    {
      Prepend(Network(x, k));
    }
  }

  /** `x` is a signed integer of `k` bytes. */
  predicate Fits(x: int, k: nat) {
    2 * x < Pow256(k) && 0 <= 2 * x + Pow256(k)
  }

  function Network(x: int, k: nat): (s: seq<byte>)
    requires Fits(x, k)
    ensures |s| == k
  {
    BigEndian(AsUnsigned(x, k), k)
  }

  function FromNetwork(s: seq<byte>): int {
    AsSigned(FromBigEndian(s), |s|)
  }

  /** Byte `i` is that of weight 256^(k - 1 - i), negative numbers in two's complement: the high bytes come first. */
  lemma {:induction false} NetworkAt(x: int, k: nat, i: nat)
    requires Fits(x, k) && i < k
    ensures Network(x, k)[i] == (if x >= 0 then x else x + Pow256(k)) / Pow256(k - 1 - i) % 256
  {
    BigEndianAt(if x >= 0 then x else x + Pow256(k), k, i);
  }

  /** An integer appended is the integer read, and one prepended is the next one read, whatever surrounds it. */
  lemma {:induction false} IntegersReadBack(x: int, k: nat, rest: seq<byte>)
    requires Fits(x, k)
    ensures FromNetwork((Network(x, k) + rest)[..k]) == x
    ensures (Network(x, k) + rest)[k..] == rest
  {
    BigEndianRoundTrip(AsUnsigned(x, k), k);
    assert (Network(x, k) + rest)[..k] == Network(x, k);
  }

  /** Both ways: bytes read as an integer and written again are the same bytes. */
  lemma {:induction false} BytesWriteBack(s: seq<byte>)
    ensures Fits(FromNetwork(s), |s|) && Network(FromNetwork(s), |s|) == s
  {
    FromBigEndianBound(s);
    BigEndianOnto(s);
    Pow256Even(|s|);
  }

  lemma {:induction false} Pow256Even(k: nat)
    ensures k > 0 ==> Pow256(k) % 2 == 0
  {
  }

  lemma {:induction false} BigEndianOnto(s: seq<byte>)
    ensures BigEndian(FromBigEndian(s), |s|) == s
  {
    if s != [] {
      BigEndianOnto(s[..|s| - 1]);
    }
  }
}
