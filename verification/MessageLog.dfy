/**
 The data file of one queue: what `MessageMapper` reads from it and writes to it.
 A record is an 8-byte little-endian length followed by a serialized payload.
 */
module MessageLog {
  import opened Bytes
  import opened PayloadCodec
  import opened Framing

  /** A message with where the broker believes its record body is: both numbers are `uint32` fields. */
  datatype Msg = Msg(payload: Payload, offset: nat, length: nat)

  /** The data file and the temporary file; an absent file is `None`. */
  datatype Disk = Disk(data: Option<seq<byte>>, tmp: Option<seq<byte>>)

  // ---- Records ----

  function Bodies(recs: seq<Payload>): (b: seq<Str>)
    ensures |b| == |recs|
  {
    if recs == [] then [] else [Encode(recs[0])] + Bodies(recs[1..])
  }

  lemma {:induction false} BodiesAt(recs: seq<Payload>, i: nat)
    requires i < |recs|
    ensures Bodies(recs)[i] == Encode(recs[i])
  {
    hide Encode;
    if i > 0 {
      BodiesAt(recs[1..], i - 1);
    }
  }

  /** A file holding exactly these records, in order. */
  function Layout(recs: seq<Payload>): seq<byte> {
    Frames(Bodies(recs))
  }

  /** Where the body of record `i` starts. */
  function BodyOffset(recs: seq<Payload>, i: nat): nat
    requires i < |recs|
  {
    BodyStart(Bodies(recs), i)
  }

  lemma {:induction false} BodiesConcat(a: seq<Payload>, b: seq<Payload>)
    ensures Bodies(a + b) == Bodies(a) + Bodies(b)
  {
    if a == [] {
      assert a + b == b;
    } else {
      assert (a + b)[1..] == a[1..] + b;
      BodiesConcat(a[1..], b);
      Assoc([Encode(a[0])], Bodies(a[1..]), Bodies(b));
    }
  }

  lemma {:induction false} BodiesJoin(a: seq<Payload>, b: seq<Payload>, all: seq<Payload>)
    requires all == a + b
    ensures Bodies(all) == Bodies(a) + Bodies(b)
  {
    BodiesConcat(a, b);
  }

  lemma {:induction false} LayoutFirst(recs: seq<Payload>)
    requires recs != []
    ensures Layout(recs) == Frame(Encode(recs[0])) + Layout(recs[1..])
  {
    var first, rest := Encode(recs[0]), Bodies(recs[1..]);
    assert ([first] + rest)[1..] == rest;
  }

  lemma {:induction false} LayoutConcat(a: seq<Payload>, b: seq<Payload>)
    ensures Layout(a + b) == Layout(a) + Layout(b)
  {
    BodiesConcat(a, b);
    FramesConcat(Bodies(a), Bodies(b));
  }

  // ---- Choosing among messages ----

  datatype Sieve = Live | Durable | Except(id: Str)

  function IdOf(p: Payload): Str {
    Present(p.properties).id
  }

  predicate IsDurable(p: Payload) {
    Present(p.properties).mode == DURABLE
  }

  predicate Passes(k: Sieve, p: Payload) {
    match k
    case Live => p.valid != INVALID
    case Durable => IsDurable(p)
    case Except(id) => IdOf(p) != id
  }

  function Keep(k: Sieve, s: seq<Payload>): (r: seq<Payload>)
    ensures |r| <= |s|
  {
    if s == [] then [] else KeepOne(k, s[0]) + Keep(k, s[1..])
  }

  function KeepOne(k: Sieve, p: Payload): seq<Payload> {
    if Passes(k, p) then [p] else []
  }

  lemma {:induction false} KeepMember(k: Sieve, s: seq<Payload>, p: Payload)
    ensures p in Keep(k, s) <==> p in s && Passes(k, p)
  {
    if s != [] {
      KeepMember(k, s[1..], p);
    }
  }

  lemma {:induction false} KeepConcat(k: Sieve, a: seq<Payload>, b: seq<Payload>)
    ensures Keep(k, a + b) == Keep(k, a) + Keep(k, b)
  {
    if a == [] {
      assert a + b == b;
    } else {
      assert (a + b)[1..] == a[1..] + b;
      KeepConcat(k, a[1..], b);
      Assoc(KeepOne(k, a[0]), Keep(k, a[1..]), Keep(k, b));
    }
  }

  lemma {:induction false} KeepAround(k: Sieve, a: seq<Payload>, p: Payload, b: seq<Payload>)
    ensures Keep(k, a + ([p] + b)) == Keep(k, a) + (KeepOne(k, p) + Keep(k, b))
    ensures Keep(k, a + [p]) == Keep(k, a) + KeepOne(k, p)
  {
    KeepConcat(k, a, [p] + b);
    KeepConcat(k, a, [p]);
    assert ([p] + b)[1..] == b;
    assert [p][1..] == [];
  }

  lemma {:induction false} KeepCommutes(j: Sieve, k: Sieve, s: seq<Payload>)
    ensures Keep(j, Keep(k, s)) == Keep(k, Keep(j, s))
  {
    if s != [] {
      KeepCommutes(j, k, s[1..]);
      KeepConcat(j, KeepOne(k, s[0]), Keep(k, s[1..]));
      KeepConcat(k, KeepOne(j, s[0]), Keep(j, s[1..]));
    }
  }

  lemma {:induction false} KeepAll(k: Sieve, s: seq<Payload>)
    requires forall p :: p in s ==> Passes(k, p)
    ensures Keep(k, s) == s
  {
    if s != [] {
      KeepAll(k, s[1..]);
    }
  }

  lemma {:induction false} KeepTwice(k: Sieve, s: seq<Payload>)
    ensures Keep(k, Keep(k, s)) == Keep(k, s)
  {
    forall p | p in Keep(k, s) ensures Passes(k, p) {
      KeepMember(k, s, p);
    }
    KeepAll(k, Keep(k, s));
  }

  lemma {:induction false} KeepShrinks(k: Sieve, recs: seq<Payload>)
    ensures |Layout(Keep(k, recs))| <= |Layout(recs)|
  {
    if recs != [] {
      var head := KeepOne(k, recs[0]);
      assert recs == [recs[0]] + recs[1..];
      LayoutConcat([recs[0]], recs[1..]);
      LayoutConcat(head, Keep(k, recs[1..]));
      KeepShrinks(k, recs[1..]);
    }
  }

  // ---- Loading ----

  datatype Loaded = Loaded(ok: bool, msgs: seq<Payload>)

  /** The bodies decoded, whether or not the decoding succeeds; those flagged "0" are passed over. */
  function Decoded(bodies: seq<Str>): seq<Payload> {
    if bodies == [] then []
    else
      var p := Parse(bodies[0]).value;
      (if p.valid == INVALID then [] else [p]) + Decoded(bodies[1..])
  }

  /** What `load` returns for a file. */
  function Load(file: seq<byte>): Loaded {
    Loaded(Unframe(file).ok, Decoded(Unframe(file).bodies))
  }

  /** All the records a scan meets, those flagged "0" included. */
  function Records(file: seq<byte>): seq<Payload> {
    ParsedAll(Unframe(file).bodies)
  }

  function ParsedAll(bodies: seq<Str>): seq<Payload> {
    if bodies == [] then [] else [Parse(bodies[0]).value] + ParsedAll(bodies[1..])
  }

  /** A record the reader can take back: decodable, and its length fits the 8-byte header. */
  predicate Sound(p: Payload) {
    Storable(p) && |Encode(p)| < TWO64
  }

  predicate AllSound(recs: seq<Payload>) {
    forall i :: 0 <= i < |recs| ==> Sound(recs[i])
  }

  lemma {:induction false} DecodedConcat(a: seq<Str>, b: seq<Str>)
    ensures Decoded(a + b) == Decoded(a) + Decoded(b)
  {
    if a == [] {
      assert a + b == b;
    } else {
      assert (a + b)[1..] == a[1..] + b;
      DecodedConcat(a[1..], b);
    }
  }

  lemma {:induction false} LayoutBodies(recs: seq<Payload>)
    requires AllSound(recs)
    ensures Unframe(Layout(recs)) == Scanned(true, Bodies(recs))
  {
    forall i | 0 <= i < |recs| ensures |Bodies(recs)[i]| < TWO64 {
      BodiesAt(recs, i);
    }
    UnframeFrames(Bodies(recs), []);
    assert Layout(recs) + [] == Layout(recs);
    assert Bodies(recs) + [] == Bodies(recs);
  }

  lemma {:induction false} DecodedBodies(recs: seq<Payload>)
    requires AllSound(recs)
    ensures Decoded(Bodies(recs)) == Keep(Live, recs)
  {
    if recs != [] {
      var first, rest := Encode(recs[0]), Bodies(recs[1..]);
      PayloadRoundTrip(recs[0]);
      DecodedBodies(recs[1..]);
      assert ([first] + rest)[1..] == rest;
    }
  }

  /** Scanning a well-formed prefix yields its live records, whatever bytes follow it. */
  lemma {:induction false} LoadLayout(recs: seq<Payload>, rest: seq<byte>)
    requires AllSound(recs)
    ensures Load(Layout(recs) + rest) == Loaded(Load(rest).ok, Keep(Live, recs) + Load(rest).msgs)
  {
    forall i | 0 <= i < |recs| ensures |Bodies(recs)[i]| < TWO64 {
      BodiesAt(recs, i);
    }
    UnframeFrames(Bodies(recs), rest);
    DecodedConcat(Bodies(recs), Unframe(rest).bodies);
    DecodedBodies(recs);
  }

  /** Loading passes over what is flagged "0", and over nothing else. */
  lemma {:induction false} LoadedUnlessCleared(recs: seq<Payload>, p: Payload)
    requires AllSound(recs)
    ensures Load(Layout(recs)).ok && (p in Load(Layout(recs)).msgs <==> p in recs && p.valid != [48])
  {
    LoadWellFormed(recs);
    KeepMember(Live, recs, p);
  }

  lemma {:induction false} LoadWellFormed(recs: seq<Payload>)
    requires AllSound(recs)
    ensures Load(Layout(recs)) == Loaded(true, Keep(Live, recs))
  {
    LoadLayout(recs, []);
    assert Layout(recs) + [] == Layout(recs);
    assert Keep(Live, recs) + [] == Keep(Live, recs);
  }

  // ---- Acknowledging in place ----

  function Dead(p: Payload): Payload {
    p.(valid := INVALID)
  }

  lemma {:induction false} BodiesUpdate(recs: seq<Payload>, i: nat, p: Payload)
    requires i < |recs|
    ensures Bodies(recs[i := p]) == Bodies(recs)[i := Encode(p)]
  {
    var rest := recs[1..];
    if i == 0 {
      assert recs[i := p][1..] == rest;
      ConsUpdate(Encode(recs[0]), Bodies(rest), 0, Encode(p));
    } else {
      assert recs[i := p][1..] == rest[i - 1 := p];
      BodiesUpdate(rest, i - 1, p);
      ConsUpdate(Encode(recs[0]), Bodies(rest), i, Encode(p));
    }
  }

  lemma {:induction false} ConsUpdate(first: Str, rest: seq<Str>, i: nat, body: Str)
    requires i <= |rest|
    ensures ([first] + rest)[i := body] == if i == 0 then [body] + rest else [first] + rest[i - 1 := body]
  {
  }

  /** Overwriting a record with its cleared form turns the file into that of the changed list. */
  lemma {:induction false} ClearRecord(recs: seq<Payload>, i: nat)
    requires i < |recs| && recs[i].valid == VALID
    ensures |Encode(Dead(recs[i]))| == |Encode(recs[i])|
    ensures Written(Layout(recs), BodyOffset(recs, i), Encode(Dead(recs[i]))) == Layout(recs[i := Dead(recs[i])])
  {
    ClearingFlagChangesLastByte(recs[i]);
    BodiesAt(recs, i);
    BodiesUpdate(recs, i, Dead(recs[i]));
    OverwriteBody(Bodies(recs), i, Encode(Dead(recs[i])));
  }

  lemma {:induction false} ClearBody(recs: seq<Payload>, i: nat, recs': seq<Payload>)
    requires i < |recs| && recs[i].valid == VALID && recs' == recs[i := Dead(recs[i])]
    ensures var b, b' := Bodies(recs), Bodies(recs');
            && |b[i]| > 0 && b[i][|b[i]| - 1] == 49
            && b'[i] == b[i][|b[i]| - 1 := 48] && b' == b[i := b'[i]]
  {
    ClearingFlagChangesLastByte(recs[i]);
    BodiesAt(recs, i);
    BodiesUpdate(recs, i, Dead(recs[i]));
  }

  /** An acknowledgement changes one byte of the whole file: the last of the record's own body, from '1' to '0'. */
  lemma {:induction false} ClearRecordChangesOneByte(recs: seq<Payload>, i: nat, recs': seq<Payload>)
    returns (last: nat)
    requires i < |recs| && recs[i].valid == VALID && recs' == recs[i := Dead(recs[i])]
    ensures last == BodyOffset(recs, i) + |Bodies(recs)[i]| - 1
    ensures OneByteDiffers(Layout(recs), Layout(recs'), last, 49, 48)
  {
    var bodies, bodies' := Bodies(recs), Bodies(recs');
    ClearBody(recs, i, recs');
    last := BodyStart(bodies, i) + |bodies[i]| - 1;
    ChangeLastByte(bodies, i, 48, bodies');
  }

  // ---- Compaction ----

  /** The messages as appended one after the other to a file of `base` bytes. */
  function Placed(base: nat, msgs: seq<Payload>): (r: seq<Msg>)
    ensures |r| == |msgs| && forall i :: 0 <= i < |r| ==> r[i].payload == msgs[i]
  {
    var places := Places(base, Bodies(msgs));
    seq(|msgs|, i requires 0 <= i < |msgs| => Msg(msgs[i], places[i].offset, places[i].length))
  }

  function Unplaced(msgs: seq<Payload>): (r: seq<Msg>)
    ensures |r| == |msgs| && forall i :: 0 <= i < |r| ==> r[i] == Msg(msgs[i], 0, 0)
  {
    if msgs == [] then [] else [Msg(msgs[0], 0, 0)] + Unplaced(msgs[1..])
  }

  function Content(file: Option<seq<byte>>): seq<byte> {
    match file case None => [] case Some(bytes) => bytes
  }

  datatype Collected = Collected(disk: Disk, msgs: seq<Msg>)

  /**
   `gc`: live messages are appended to the temporary file, which keeps what it already held, and that
   file replaces the data file. A failed scan stops before touching any file; an absent data file
   cannot be removed, so the temporary one stays.
   */
  function Collect(d: Disk): Collected {
    var loaded := Load(Content(d.data));
    if !loaded.ok then Collected(d, Unplaced(loaded.msgs))
    else
      var base := Content(d.tmp);
      var file := base + Layout(loaded.msgs);
      var msgs := Placed(|base|, loaded.msgs);
      if d.data == None then Collected(Disk(None, Some(file)), msgs) else Collected(Disk(Some(file), None), msgs)
  }

  lemma {:induction false} PlacedAt(base: nat, msgs: seq<Payload>, i: nat)
    requires i < |msgs|
    ensures var place := Places(base, Bodies(msgs))[i];
            Placed(base, msgs)[i] == Msg(msgs[i], place.offset, place.length)
  {
  }

  lemma {:induction false} LayoutAppend(recs: seq<Payload>, p: Payload)
    ensures Layout(recs + [p]) == Layout(recs) + Frame(Encode(p))
  {
    assert Bodies([p]) == [Encode(p)] by {
      assert [p][1..] == [];
    }
    BodiesConcat(recs, [p]);
    FramesAppend(Bodies(recs), Encode(p));
  }

  lemma {:induction false} PlacesFrom(base: nat, msgs: seq<Payload>, i: nat, start: nat)
    requires i < |msgs| && start == base + |Layout(msgs[..i])| + HEADER
    ensures Places(base, Bodies(msgs))[i] == Place(Low32(start), Low32(|Bodies(msgs)[i]|))
  {
    StartAfter(msgs, i);
    PlacesAtStart(base, Bodies(msgs), i, start);
  }

  lemma {:induction false} StartAfter(recs: seq<Payload>, i: nat)
    requires i < |recs|
    ensures BodyStart(Bodies(recs), i) == |Layout(recs[..i])| + HEADER
  {
    BodiesPrefix(recs, i);
  }

  lemma {:induction false} BodiesPrefix(recs: seq<Payload>, i: nat)
    requires i <= |recs|
    ensures Bodies(recs)[..i] == Bodies(recs[..i])
  {
    BodiesJoin(recs[..i], recs[i..], recs);
  }

  lemma {:induction false} FileStep(base: seq<byte>, msgs: seq<Payload>, i: nat, file: seq<byte>)
    requires i < |msgs| && file == base + Layout(msgs[..i])
    ensures file + Frame(Encode(msgs[i])) == base + Layout(msgs[..i + 1])
  {
    hide *;
    LayoutAppend(msgs[..i], msgs[i]);
    assert msgs[..i + 1] == msgs[..i] + [msgs[i]];
    Assoc(base, Layout(msgs[..i]), Frame(Encode(msgs[i])));
  }

  /** The place recorded for message `i` when the earlier ones made the file `size` bytes long. */
  lemma {:induction false} PlacedStep(base: nat, msgs: seq<Payload>, i: nat, size: nat)
    requires i < |msgs| && size == base + |Layout(msgs[..i])|
    ensures Placed(base, msgs)[i] == Msg(msgs[i], Low32(size + HEADER), Low32(|Encode(msgs[i])|))
  {
    BodiesAt(msgs, i);
    PlacedBody(base, msgs, i, size + HEADER, Encode(msgs[i]));
  }

  lemma {:induction false} PlacedBody(base: nat, msgs: seq<Payload>, i: nat, start: nat, body: Str)
    requires i < |msgs| && start == base + |Layout(msgs[..i])| + HEADER && body == Bodies(msgs)[i]
    ensures Placed(base, msgs)[i] == Msg(msgs[i], Low32(start), Low32(|body|))
  {
    PlacedAt(base, msgs, i);
    PlacesFrom(base, msgs, i, start);
  }

  lemma {:induction false} PlacesInLog(base: seq<Payload>, msgs: seq<Payload>, all: seq<Payload>, i: nat)
    requires i < |msgs| && all == base + msgs && |Layout(all)| < TWO32
    ensures Places(|Layout(base)|, Bodies(msgs))[i] == Place(BodyOffset(all, |base| + i), |Bodies(msgs)[i]|)
  {
    BodiesJoin(base, msgs, all);
    PlacesExact(Bodies(base), Bodies(msgs), Bodies(all), i);
  }

  lemma {:induction false} KeepSound(k: Sieve, recs: seq<Payload>)
    requires AllSound(recs)
    ensures AllSound(Keep(k, recs))
  {
    forall i | 0 <= i < |Keep(k, recs)| ensures Sound(Keep(k, recs)[i]) {
      KeepMember(k, recs, Keep(k, recs)[i]);
    }
  }

  lemma {:induction false} CollectFresh(recs: seq<Payload>)
    requires AllSound(recs)
    ensures var live := Keep(Live, recs);
            && Load(Layout(recs)) == Loaded(true, live)
            && Collect(Disk(Some(Layout(recs)), None)) == Collected(Disk(Some(Layout(live)), None), Placed(0, live))
  {
    LoadWellFormed(recs);
    var file := Layout(Keep(Live, recs));
    assert [] + file == file;
  }

  lemma {:induction false} PlacedFresh(live: seq<Payload>, i: nat)
    requires i < |live| && |Layout(live)| < TWO32
    ensures Placed(0, live)[i] == Msg(live[i], BodyOffset(live, i), |Encode(live[i])|)
  {
    var none: seq<Payload> := [];
    assert none + live == live;
    PlacedAt(0, live, i);
    PlacesInLog(none, live, live, i);
    BodiesAt(live, i);
  }

  /**
   Compaction of a well-formed file with no temporary file present: the new file holds exactly the live
   records, loads to the same messages, every returned message carries the place of its record, and
   compacting again changes nothing.
   */
  lemma {:induction false} CompactionPreservesMeaning(recs: seq<Payload>)
    requires AllSound(recs) && |Layout(recs)| < TWO32
    ensures var live := Keep(Live, recs);
            var c := Collect(Disk(Some(Layout(recs)), None));
            && c.disk == Disk(Some(Layout(live)), None)
            && Load(Layout(live)) == Load(Layout(recs))
            && |c.msgs| == |live|
            && (forall i :: 0 <= i < |live| ==>
                  c.msgs[i] == Msg(live[i], BodyOffset(live, i), |Encode(live[i])|))
            && Collect(c.disk) == c
  {
    var live := Keep(Live, recs);
    KeepSound(Live, recs);
    KeepTwice(Live, recs);
    KeepShrinks(Live, recs);
    CollectFresh(recs);
    CollectFresh(live);
    forall i | 0 <= i < |live|
      ensures Placed(0, live)[i] == Msg(live[i], BodyOffset(live, i), |Encode(live[i])|)
    {
      PlacedFresh(live, i);
    }
  }

  lemma {:induction false} DecodedPrefix(a: seq<Str>, b: seq<Str>)
    requires a <= b
    ensures Decoded(a) <= Decoded(b)
  {
    assert b == a + b[|a|..];
    DecodedConcat(a, b[|a|..]);
  }

  lemma {:induction false} LoadConcat(a: seq<byte>, b: seq<byte>)
    ensures Load(a).ok ==> Load(a + b) == Loaded(Load(b).ok, Load(a).msgs + Load(b).msgs)
    ensures Load(a).msgs <= Load(a + b).msgs
  {
    UnframeConcat(a, b);
    DecodedConcat(Unframe(a).bodies, Unframe(b).bodies);
    DecodedPrefix(Unframe(a).bodies, Unframe(a + b).bodies);
  }

  /**
   Compaction with any bytes left over in the temporary file: they stay in front, the messages returned are the
   live ones all the same, and the outcome is that without leftover only when there are none. If they scan to
   their end the file loads to what they hold, then the live messages, which is the old meaning exactly when
   they hold no message; if they do not, what they hold comes first.
   */
  lemma {:induction false} CompactionWithLeftover(recs: seq<Payload>, left: seq<byte>)
    requires AllSound(recs)
    ensures var live := Keep(Live, recs);
            var c := Collect(Disk(Some(Layout(recs)), Some(left)));
            && c == Collected(Disk(Some(left + Layout(live)), None), Placed(|left|, live))
            && (c == Collect(Disk(Some(Layout(recs)), None)) <==> left == [])
            && Load(left).msgs <= Load(left + Layout(live)).msgs
            && (Load(left).ok ==>
                  && Load(left + Layout(live)) == Loaded(true, Load(left).msgs + live)
                  && (Load(left + Layout(live)) == Load(Layout(recs)) <==> Load(left).msgs == []))
  {
    var live := Keep(Live, recs);
    LoadWellFormed(recs);
    CollectFresh(recs);
    KeepSound(Live, recs);
    KeepTwice(Live, recs);
    LoadWellFormed(live);
    LoadConcat(left, Layout(live));
    if left == [] {
      assert left + Layout(live) == Layout(live);
    } else {
      assert |left + Layout(live)| > |Layout(live)|;
    }
  }

  // ---- The three file operations of a queue, on the file and on the list of records it holds ----

  /** The message for record `i` of a file holding `recs`. */
  function At(recs: seq<Payload>, i: nat): Msg
    requires i < |recs|
  {
    Msg(recs[i], BodyOffset(recs, i), |Bodies(recs)[i]|)
  }

  datatype Appended = Appended(ok: bool, disk: Disk, msg: Msg)

  /** `insert`: two writes at the end of the data file; they fail when the file is absent. */
  function Append(d: Disk, p: Payload): Appended {
    match d.data
    case None => Appended(false, d, Msg(p, 0, 0))
    case Some(file) =>
      var body := Encode(p);
      Appended(true, d.(data := Some(file + Frame(body))), Msg(p, Low32(|file| + HEADER), Low32(|body|)))
  }

  /** `remove`: the cleared payload is written where the message says its record is, if the length still fits. */
  function Clear(d: Disk, m: Msg): Disk {
    var body := Encode(Dead(m.payload));
    match d.data
    case None => d
    case Some(file) =>
      if |body| != m.length then d else d.(data := Some(Written(file, m.offset, body)))
  }

  lemma {:induction false} WrittenAfter(file: seq<byte>, n: nat, offset: nat, bytes: seq<byte>)
    returns (rest: seq<byte>)
    requires n <= |file| && n <= offset
    ensures Written(file, offset, bytes) == file[..n] + rest
  {
    rest := Written(file, offset, bytes)[n..];
  }

  /** Clearing at a place behind the first `n` records loses none of the live ones among them. */
  lemma {:induction false} ClearAfter(recs: seq<Payload>, n: nat, m: Msg)
    requires AllSound(recs) && n <= |recs| && m.offset >= |Layout(recs[..n])|
    ensures var after := Clear(Disk(Some(Layout(recs)), None), m).data;
            after.Some? && Keep(Live, recs[..n]) <= Load(after.value).msgs
  {
    hide Encode;
    var front, back, body := recs[..n], recs[n..], Encode(Dead(m.payload));
    assert recs == front + back;
    LayoutConcat(front, back);
    assert Layout(recs)[..|Layout(front)|] == Layout(front);
    if |body| == m.length {
      var rest := WrittenAfter(Layout(recs), |Layout(front)|, m.offset, body);
      LoadLayout(front, rest);
    } else {
      LoadLayout(front, Layout(back));
    }
  }

  lemma {:induction false} AppendToLog(recs: seq<Payload>, p: Payload)
    requires var r := Append(Disk(Some(Layout(recs)), None), p);
             |Content(r.disk.data)| < TWO32
    ensures Append(Disk(Some(Layout(recs)), None), p)
            == Appended(true, Disk(Some(Layout(recs + [p])), None), At(recs + [p], |recs|))
    ensures |Layout(recs + [p])| < TWO32 && |Encode(p)| < TWO32
  {
    var body := Encode(p);
    assert Bodies([p]) == [body] by {
      assert [p][1..] == [];
    }
    BodiesConcat(recs, [p]);
    FramesAppend(Bodies(recs), body);
  }

  /** The messages for all the records of a file. */
  function Table(recs: seq<Payload>): (t: seq<Msg>)
    ensures |t| == |recs|
  {
    if recs == [] then [] else Table(recs[..|recs| - 1]) + [At(recs, |recs| - 1)]
  }

  /** Records written earlier stay where they are. */
  lemma {:induction false} PrefixKeepsPlaces(front: seq<Payload>, recs: seq<Payload>, i: nat)
    requires i < |front| && front <= recs
    ensures At(recs, i) == At(front, i)
  {
    var more := recs[|front|..];
    assert recs == front + more;
    BodiesConcat(front, more);
    TakeOfConcat(Bodies(front), Bodies(more), i);
  }

  lemma {:induction false} TakeOfConcat(a: seq<Str>, b: seq<Str>, i: nat)
    requires i < |a|
    ensures (a + b)[..i] == a[..i] && (a + b)[i] == a[i]
  {
  }

  lemma {:induction false} TableAt(recs: seq<Payload>, i: nat)
    requires i < |recs|
    ensures Table(recs)[i] == At(recs, i)
  {
    var front := recs[..|recs| - 1];
    if i < |front| {
      TableAt(front, i);
      PrefixKeepsPlaces(front, recs, i);
    }
  }

  lemma {:induction false} TableAppend(recs: seq<Payload>, p: Payload)
    ensures Table(recs + [p]) == Table(recs) + [At(recs + [p], |recs|)]
  {
    assert (recs + [p])[..|recs|] == recs;
  }

  /** With the right place in hand, `remove` clears exactly its own record. */
  lemma {:induction false} ClearInLog(recs: seq<Payload>, i: nat)
    requires i < |recs| && recs[i].valid == VALID
    ensures Clear(Disk(Some(Layout(recs)), None), At(recs, i))
            == Disk(Some(Layout(recs[i := Dead(recs[i])])), None)
    ensures |Layout(recs[i := Dead(recs[i])])| == |Layout(recs)|
  {
    BodiesAt(recs, i);
    ClearRecord(recs, i);
    FramesFit(Bodies(recs), i);
  }

  lemma {:induction false} ClearKeepsPlaces(recs: seq<Payload>, i: nat, j: nat)
    requires i < |recs| && recs[i].valid == VALID && j < |recs| && i != j
    ensures At(recs[i := Dead(recs[i])], j) == At(recs, j)
  {
    var b, b' := Bodies(recs), Bodies(recs[i := Dead(recs[i])]);
    BodiesAt(recs, i);
    BodiesUpdate(recs, i, Dead(recs[i]));
    ClearingFlagChangesLastByte(recs[i]);
    SameSizesSamePlace(b, b', i, j);
  }

  lemma {:induction false} TableClear(recs: seq<Payload>, i: nat)
    requires i < |recs| && recs[i].valid == VALID
    ensures var recs' := recs[i := Dead(recs[i])];
            Table(recs') == Table(recs)[i := At(recs', i)]
  {
    var recs' := recs[i := Dead(recs[i])];
    TableAt(recs', i);
    forall j | 0 <= j < |recs| && j != i ensures Table(recs')[j] == Table(recs)[j] {
      TableAt(recs, j);
      TableAt(recs', j);
      ClearKeepsPlaces(recs, i, j);
    }
    SameExcept(Table(recs), Table(recs'), i);
  }

  lemma {:induction false} SameExcept<T>(t: seq<T>, t': seq<T>, i: nat)
    requires i < |t| && |t'| == |t| && forall j :: 0 <= j < |t| && j != i ==> t'[j] == t[j]
    ensures t' == t[i := t'[i]]
  {
  }

  lemma {:induction false} SameSizesSamePlace(b: seq<Str>, b': seq<Str>, i: nat, j: nat)
    requires i < |b| && j < |b| && |b'| == |b| && b' == b[i := b'[i]] && |b'[i]| == |b[i]|
    ensures BodyStart(b', j) == BodyStart(b, j)
  {
    if i < j {
      OverwriteBody(b[..j], i, b'[i]);
      assert b'[..j] == b[..j][i := b'[i]];
      FramesFit(b[..j], i);
    } else {
      assert b'[..j] == b[..j];
    }
  }

  /** What `gc` returns for a fresh file is the table of that file. */
  lemma {:induction false} TablePlaced(live: seq<Payload>)
    requires |Layout(live)| < TWO32
    ensures Placed(0, live) == Table(live)
  {
    var placed, table := Placed(0, live), Table(live);
    forall i | 0 <= i < |live| ensures placed[i] == table[i] {
      PlacedFresh(live, i);
      BodiesAt(live, i);
      TableAt(live, i);
    }
  }
}
