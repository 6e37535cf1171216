/**
 The record format of a data file: each body is preceded by its length, a `size_t` of eight bytes
 in the machine's (little-endian) order. Nothing here looks inside a body.
 */
module Framing {
  import opened Bytes

  const HEADER: nat := 8

  function Frame(body: Str): (f: seq<byte>)
    ensures |f| == HEADER + |body|
  {
    LittleEndian(|body|, HEADER) + body
  }

  /** A file holding exactly these bodies, in order. */
  function Frames(bodies: seq<Str>): seq<byte> {
    if bodies == [] then [] else Frame(bodies[0]) + Frames(bodies[1..])
  }

  lemma {:induction false} FramesConcat(a: seq<Str>, b: seq<Str>)
    ensures Frames(a + b) == Frames(a) + Frames(b)
  {
    if a == [] {
      assert a + b == b;
    } else {
      assert (a + b)[1..] == a[1..] + b;
      FramesConcat(a[1..], b);
    }
  }

  lemma {:induction false} FramesOne(body: Str)
    ensures Frames([body]) == Frame(body)
  {
    assert [body][1..] == [];
  }

  /** Where body `i` starts. */
  function BodyStart(bodies: seq<Str>, i: nat): nat
    requires i < |bodies|
  {
    |Frames(bodies[..i])| + HEADER
  }

  lemma {:induction false} FramesSplit(bodies: seq<Str>, i: nat)
    requires i < |bodies|
    ensures Frames(bodies) == Frames(bodies[..i]) + (Frame(bodies[i]) + Frames(bodies[i + 1..]))
  {
    assert bodies == bodies[..i] + bodies[i..];
    FramesConcat(bodies[..i], bodies[i..]);
    assert bodies[i..][1..] == bodies[i + 1..];
  }

  lemma {:induction false} FramesAppend(bodies: seq<Str>, body: Str)
    ensures Frames(bodies + [body]) == Frames(bodies) + Frame(body)
    ensures BodyStart(bodies + [body], |bodies|) == |Frames(bodies)| + HEADER
  {
    FramesConcat(bodies, [body]);
    FramesOne(body);
    assert (bodies + [body])[..|bodies|] == bodies;
  }

  lemma {:induction false} FrameAt(bodies: seq<Str>, i: nat)
    requires i < |bodies|
    ensures var start, size := BodyStart(bodies, i), |bodies[i]|;
            && start + size <= |Frames(bodies)|
            && Frames(bodies)[start - HEADER..start] == LittleEndian(size, HEADER)
            && Frames(bodies)[start..start + size] == bodies[i]
  {
    var front, back := Frames(bodies[..i]), Frames(bodies[i + 1..]);
    var header := LittleEndian(|bodies[i]|, HEADER);
    FramesSplit(bodies, i);
    Assoc(header, bodies[i], back);
    Parts(front, header, bodies[i] + back);
    Assoc(front, header, bodies[i] + back);
    Parts(front + header, bodies[i], back);
  }

  /** The records tile the file: each header starts where the previous body ended, the last body ends the file. */
  lemma {:induction false} FramesTile(bodies: seq<Str>, i: nat)
    requires i < |bodies|
    ensures var start, size := BodyStart(bodies, i), |bodies[i]|;
            && start + size <= |Frames(bodies)|
            && Frames(bodies)[start - HEADER..start] == LittleEndian(size, HEADER)
            && Frames(bodies)[start..start + size] == bodies[i]
            && (i == 0 ==> start == HEADER)
            && (i + 1 < |bodies| ==> BodyStart(bodies, i + 1) == start + size + HEADER)
            && (i + 1 == |bodies| ==> start + size == |Frames(bodies)|)
  {
    FrameAt(bodies, i);
    assert bodies[..i + 1] == bodies[..i] + [bodies[i]];
    FramesAppend(bodies[..i], bodies[i]);
    if i + 1 == |bodies| {
      assert bodies == bodies[..i + 1];
    }
  }

  lemma {:induction false} FramesFit(bodies: seq<Str>, i: nat)
    requires i < |bodies|
    ensures BodyStart(bodies, i) + |bodies[i]| <= |Frames(bodies)|
  {
    FramesSplit(bodies, i);
  }

  lemma {:induction false} FramesDisjoint(bodies: seq<Str>, i: nat, j: nat)
    requires i < j < |bodies|
    ensures BodyStart(bodies, i) + |bodies[i]| + HEADER <= BodyStart(bodies, j)
    decreases j
  {
    FramesTile(bodies, j - 1);
    if i < j - 1 {
      FramesDisjoint(bodies, i, j - 1);
    }
  }

  // ---- Scanning ----

  datatype Scanned = Scanned(ok: bool, bodies: seq<Str>)

  /** The bodies a scan meets, and whether it reached the end of the file without a short read. */
  function Unframe(s: seq<byte>): Scanned
    decreases |s|
  {
    if s == [] then Scanned(true, [])
    else if |s| < HEADER then Scanned(false, [])
    else
      var length := FromLittleEndian(s[..HEADER]);
      if HEADER + length > |s| then Scanned(false, [])
      else
        var rest := Unframe(s[HEADER + length..]);
        Scanned(rest.ok, [s[HEADER..HEADER + length]] + rest.bodies)
  }

  lemma {:induction false} UnframeFrame(body: Str, rest: seq<byte>)
    requires |body| < TWO64
    ensures Unframe(Frame(body) + rest) == Scanned(Unframe(rest).ok, [body] + Unframe(rest).bodies)
  {
    var s := Frame(body) + rest;
    assert Pow256(8) == TWO64 by {
      assert Pow256(4) == TWO32;
      assert Pow256(8) == 256 * (256 * (256 * (256 * Pow256(4))));
    }
    LittleEndianRoundTrip(|body|, HEADER);
    Assoc(LittleEndian(|body|, HEADER), body, rest);
    Parts(LittleEndian(|body|, HEADER), body, rest);
  }

  /** Scanning a well-formed prefix meets exactly its bodies, whatever bytes follow it. */
  lemma {:induction false} UnframeFrames(bodies: seq<Str>, rest: seq<byte>)
    requires forall i :: 0 <= i < |bodies| ==> |bodies[i]| < TWO64
    ensures Unframe(Frames(bodies) + rest) == Scanned(Unframe(rest).ok, bodies + Unframe(rest).bodies)
  {
    if bodies == [] {
      assert Frames(bodies) + rest == rest;
    } else {
      Assoc(Frame(bodies[0]), Frames(bodies[1..]), rest);
      Assoc([bodies[0]], bodies[1..], Unframe(rest).bodies);
      assert bodies == [bodies[0]] + bodies[1..];
      UnframeFrames(bodies[1..], rest);
      UnframeFrame(bodies[0], Frames(bodies[1..]) + rest);
    }
  }

  lemma {:induction false} UnframeFirst(s: seq<byte>, next: nat)
    requires HEADER <= next <= |s| && next == HEADER + FromLittleEndian(s[..HEADER])
    ensures Unframe(s) == Scanned(Unframe(s[next..]).ok, [s[HEADER..next]] + Unframe(s[next..]).bodies)
  {
  }

  lemma {:induction false} UnframeShort(s: seq<byte>)
    requires s != [] && (|s| < HEADER || HEADER + FromLittleEndian(s[..HEADER]) > |s|)
    ensures Unframe(s) == Scanned(false, [])
  {
  }

  lemma {:induction false} SplitAt<T>(a: seq<T>, b: seq<T>, n: nat, m: nat)
    requires n <= m <= |a|
    ensures (a + b)[n..m] == a[n..m] && (a + b)[m..] == a[m..] + b
  {
  }

  /** A scan that reaches the end of one part goes on with the next; otherwise it has met the first bodies only. */
  lemma {:induction false} UnframeConcat(a: seq<byte>, b: seq<byte>)
    ensures Unframe(a).ok ==> Unframe(a + b) == Scanned(Unframe(b).ok, Unframe(a).bodies + Unframe(b).bodies)
    ensures Unframe(a).bodies <= Unframe(a + b).bodies
    decreases |a|
  {
    if a == [] {
      assert a + b == b;
      assert [] + Unframe(b).bodies == Unframe(b).bodies;
    } else if |a| < HEADER || HEADER + FromLittleEndian(a[..HEADER]) > |a| {
      UnframeShort(a);
    } else {
      var next := HEADER + FromLittleEndian(a[..HEADER]);
      UnframeConcat(a[next..], b);
      SplitAt(a, b, 0, HEADER);
      SplitAt(a, b, HEADER, next);
      UnframeFirst(a, next);
      UnframeFirst(a + b, next);
      Assoc([a[HEADER..next]], Unframe(a[next..]).bodies, Unframe(b).bodies);
    }
  }

  // ---- Records written in part ----

  /** A record of which some bytes are missing stops the scan. */
  lemma {:induction false} UnframeTorn(body: Str, n: nat)
    requires |body| < TWO64 && 0 < n < |Frame(body)|
    ensures Unframe(Frame(body)[..n]) == Scanned(false, [])
  {
    if n >= HEADER {
      HeaderOf(body, n);
    }
  }

  lemma {:induction false} HeaderOf(body: Str, n: nat)
    requires |body| < TWO64 && HEADER <= n <= |Frame(body)|
    ensures Frame(body)[..n][..HEADER] == LittleEndian(|body|, HEADER)
    ensures FromLittleEndian(LittleEndian(|body|, HEADER)) == |body|
  {
    assert Pow256(8) == TWO64 by {
      assert Pow256(4) == TWO32;
      assert Pow256(8) == 256 * (256 * (256 * (256 * Pow256(4))));
    }
    LittleEndianRoundTrip(|body|, HEADER);
  }

  /** What follows a torn record is read as its missing bytes, as far as it reaches. */
  lemma {:induction false} UnframeTornThen(body: Str, n: nat, more: seq<byte>)
    requires |body| < TWO64 && HEADER <= n <= |Frame(body)|
    ensures var missing := |Frame(body)| - n;
            var met := Unframe(Frame(body)[..n] + more);
            if |more| < missing then met == Scanned(false, [])
            else
              var rest := Unframe(more[missing..]);
              met == Scanned(rest.ok, [Frame(body)[HEADER..n] + more[..missing]] + rest.bodies)
  {
    var s, missing := Frame(body)[..n] + more, |Frame(body)| - n;
    HeaderOf(body, n);
    assert s[..HEADER] == Frame(body)[..n][..HEADER];
    if |more| >= missing {
      assert s[HEADER + |body|..] == more[missing..];
      assert s[HEADER..HEADER + |body|] == Frame(body)[HEADER..n] + more[..missing];
    }
  }

  // ---- Writing in place ----

  /** `fs.write` at `offset`: a gap left beyond the end of the file reads as zeros. */
  function Written(file: seq<byte>, offset: nat, bytes: seq<byte>): (r: seq<byte>)
    ensures |r| == if offset + |bytes| <= |file| then |file| else offset + |bytes|
  {
    if offset + |bytes| <= |file| then file[..offset] + bytes + file[offset + |bytes|..]
    else if offset <= |file| then file[..offset] + bytes
    else file + seq(offset - |file|, _ => 0) + bytes
  }

  lemma {:induction false} WrittenMiddle(a: seq<byte>, b: seq<byte>, c: seq<byte>, b': seq<byte>)
    requires |b| == |b'|
    ensures Written(a + (b + c), |a|, b') == a + (b' + c)
  {
    Parts(a, b, c);
    Assoc(a, b', c);
  }

  lemma {:induction false} WrittenOver(head: seq<byte>, tail: seq<byte>, bytes: seq<byte>)
    ensures Written(head + tail, |head|, bytes) == head + (bytes + After(tail, |bytes|))
  {
    assert (head + tail)[..|head|] == head;
    if |bytes| <= |tail| {
      assert (head + tail)[|head| + |bytes|..] == tail[|bytes|..];
    }
  }

  function After(s: seq<byte>, n: nat): seq<byte> {
    if n <= |s| then s[n..] else []
  }

  /** Eight bytes of length, the low ones first, and then the body. */
  lemma {:induction false} FrameBytes(body: Str)
    ensures |Frame(body)| == 8 + |body| && Frame(body)[8..] == body
    ensures forall i :: 0 <= i < 8 ==> Frame(body)[i] == |body| / Pow256(i) % 256
  {
    forall i | 0 <= i < 8 ensures Frame(body)[i] == |body| / Pow256(i) % 256 {
      LittleEndianAt(|body|, HEADER, i);
    }
  }

  lemma {:induction false} AfterBoth(s: seq<byte>, t: seq<byte>, n: nat)
    ensures After(s + t, |s| + n) == After(t, n)
  {
  }

  /** What a body reads after `bytes` of its own length were written `d` bytes behind its start. */
  function Shifted(body: Str, bytes: Str, d: nat): (r: Str)
    requires |bytes| == |body| && d <= |body|
    ensures |r| == |body|
  {
    body[..d] + bytes[..|body| - d]
  }

  /** Writing `d` bytes too far damages that body's end and, of what follows it, the first `d` bytes. */
  lemma {:induction false} WrittenTooFar(front: seq<byte>, body: Str, back: seq<byte>, bytes: Str, d: nat)
    requires |bytes| == |body| && d <= |body|
    ensures Written(front + (Frame(body) + back), |front| + HEADER + d, bytes)
            == front + (Frame(Shifted(body, bytes, d)) + (bytes[|body| - d..] + After(back, d)))
  {
    hide LittleEndian, Written, After;
    var header := LittleEndian(|body|, HEADER);
    var head, tail := front + header + body[..d], body[d..] + back;
    assert body == body[..d] + body[d..];
    assert front + (Frame(body) + back) == head + tail;
    WrittenOver(head, tail, bytes);
    AfterBoth(body[d..], back, d);
    assert bytes == bytes[..|body| - d] + bytes[|body| - d..];
    Regroup(front, header, body[..d], bytes[..|body| - d], bytes[|body| - d..], After(back, d));
  }

  lemma {:induction false} Regroup<T>(a: seq<T>, b: seq<T>, c: seq<T>, d: seq<T>, e: seq<T>, f: seq<T>)
    ensures (a + b + c) + ((d + e) + f) == a + ((b + (c + d)) + (e + f))
  {
  }

  /** Overwriting a body with one of the same length changes that body and no other. */
  lemma {:induction false} OverwriteBody(bodies: seq<Str>, i: nat, body: Str)
    requires i < |bodies| && |body| == |bodies[i]|
    ensures Written(Frames(bodies), BodyStart(bodies, i), body) == Frames(bodies[i := body])
  {
    var bodies' := bodies[i := body];
    FramesSplit(bodies, i);
    FramesSplit(bodies', i);
    assert bodies'[..i] == bodies[..i] && bodies'[i + 1..] == bodies[i + 1..];
    var front, back := Frames(bodies[..i]), Frames(bodies[i + 1..]);
    var header := LittleEndian(|body|, HEADER);
    Assoc(header, bodies[i], back);
    Assoc(header, body, back);
    Assoc(front, header, bodies[i] + back);
    Assoc(front, header, body + back);
    WrittenMiddle(front + header, bodies[i], back, body);
  }

  /** Changing one byte of a body changes that byte of the file. */
  lemma {:induction false} ChangeByte(bodies: seq<Str>, i: nat, k: nat, b: byte, changed: Str)
    requires i < |bodies| && k < |bodies[i]| && changed == bodies[i][k := b]
    ensures BodyStart(bodies, i) + k < |Frames(bodies)|
    ensures Frames(bodies)[BodyStart(bodies, i) + k] == bodies[i][k]
    ensures Frames(bodies[i := changed]) == Frames(bodies)[BodyStart(bodies, i) + k := b]
  {
    var body := bodies[i];
    var bodies' := bodies[i := changed];
    FramesSplit(bodies, i);
    FramesSplit(bodies', i);
    assert bodies'[..i] == bodies[..i] && bodies'[i + 1..] == bodies[i + 1..];
    var front, back := Frames(bodies[..i]), Frames(bodies[i + 1..]);
    var header := LittleEndian(|body|, HEADER);
    Assoc(header, body, back);
    Assoc(header, changed, back);
    Assoc(front, header, body + back);
    Assoc(front, header, changed + back);
    ChangeMiddle(front + header, body, back, k, b);
  }

  /** The files differ in the byte at `at` and nowhere else. */
  ghost predicate OneByteDiffers(file: seq<byte>, file': seq<byte>, at: nat, was: byte, now: byte) {
    at < |file| && file[at] == was && file' == file[at := now]
  }

  lemma {:induction false} ChangeLastByte(bodies: seq<Str>, i: nat, b: byte, bodies': seq<Str>)
    requires i < |bodies| == |bodies'| && |bodies[i]| > 0
    requires bodies' == bodies[i := bodies'[i]] && bodies'[i] == bodies[i][|bodies[i]| - 1 := b]
    ensures OneByteDiffers(Frames(bodies), Frames(bodies'), BodyStart(bodies, i) + |bodies[i]| - 1,
                           bodies[i][|bodies[i]| - 1], b)
  {
    ChangeByte(bodies, i, |bodies[i]| - 1, b, bodies'[i]);
  }

  lemma {:induction false} ChangeMiddle(a: seq<byte>, m: seq<byte>, c: seq<byte>, k: nat, b: byte)
    requires k < |m|
    ensures (a + (m + c))[|a| + k] == m[k]
    ensures a + (m[k := b] + c) == (a + (m + c))[|a| + k := b]
  {
  }

  lemma {:induction false} WrittenAtEnd(file: seq<byte>, bytes: seq<byte>)
    ensures Written(file, |file|, bytes) == file + bytes
  {
    if bytes == [] {
      assert file[..|file|] + bytes + file[|file|..] == file + bytes;
    } else {
      assert file[..|file|] == file;
    }
  }

  lemma {:induction false} WrittenTwiceAtEnd(file: seq<byte>, a: seq<byte>, b: seq<byte>)
    ensures Written(Written(file, |file|, a), |file| + |a|, b) == file + (a + b)
  {
    WrittenAtEnd(file, a);
    var longer := file + a;
    assert Written(file, |file|, a) == longer;
    WrittenAtEnd(longer, b);
    assert longer + b == file + (a + b);
  }

  // ---- Where appended bodies land ----

  /** A position and a size as a message records them. */
  datatype Place = Place(offset: nat, length: nat)

  /** Storing a number in a `uint32` field. */
  function Low32(n: nat): (r: nat)
    ensures n < TWO32 ==> r == n
  {
    n % TWO32
  }

  /** The places recorded when the bodies are appended one after the other to a file of `base` bytes. */
  function Places(base: nat, bodies: seq<Str>): (r: seq<Place>)
    ensures |r| == |bodies|
    decreases |bodies|
  {
    if bodies == [] then []
    else [Place(Low32(base + HEADER), Low32(|bodies[0]|))] + Places(base + HEADER + |bodies[0]|, bodies[1..])
  }

  lemma {:induction false} PlacesAt(base: nat, bodies: seq<Str>, i: nat)
    requires i < |bodies|
    ensures Places(base, bodies)[i] == Place(Low32(base + BodyStart(bodies, i)), Low32(|bodies[i]|))
    decreases i
  {
    if i > 0 {
      PlacesAt(base + HEADER + |bodies[0]|, bodies[1..], i - 1);
      assert bodies[..i][1..] == bodies[1..][..i - 1];
    }
  }

  lemma {:induction false} PlacesAtStart(base: nat, bodies: seq<Str>, i: nat, start: nat)
    requires i < |bodies| && start == base + BodyStart(bodies, i)
    ensures Places(base, bodies)[i] == Place(Low32(start), Low32(|bodies[i]|))
  {
    PlacesAt(base, bodies, i);
  }

  lemma {:induction false} BodyStartConcat(before: seq<Str>, bodies: seq<Str>, i: nat)
    requires i < |bodies|
    ensures BodyStart(before + bodies, |before| + i) == |Frames(before)| + BodyStart(bodies, i)
  {
    FramesConcat(before, bodies[..i]);
    assert (before + bodies)[..|before| + i] == before + bodies[..i];
  }

  /** Below 4 GiB the recorded places are the true ones. */
  lemma {:induction false} PlacesExact(before: seq<Str>, bodies: seq<Str>, all: seq<Str>, i: nat)
    requires i < |bodies| && all == before + bodies && |Frames(all)| < TWO32
    ensures Places(|Frames(before)|, bodies)[i] == Place(BodyStart(all, |before| + i), |bodies[i]|)
  {
    var base := |Frames(before)|;
    BodyStartConcat(before, bodies, i);
    assert base + BodyStart(bodies, i) + |bodies[i]| <= |Frames(all)| by {
      FramesConcat(before, bodies);
      FramesFit(bodies, i);
    }
    PlacesAt(base, bodies, i);
  }
}
