/**
 A crash inside an operation: what it leaves of the files, what the next process makes of them, and the one
 after that. A write that is cut short leaves its first bytes.
 */
module Crashes {
  import opened Bytes
  import opened PayloadCodec
  import opened Framing
  import opened MessageLog
  import opened QueueStore
  import opened QueueRuns

  /** The data file holds `recs`; `live` are those not acknowledged. */
  datatype Crash =
    | InInsert(p: Payload, n: nat)  // `n` bytes of the new record, header included, have reached the data file
    | InAck(i: nat, n: nat)         // `n` bytes of the cleared form have been written over record `i`
    | InCopy(n: nat)                // `n` bytes of the copies of the live records have reached the temporary file
    | BeforeRename                  // the data file has been removed, the temporary file not yet renamed

  predicate Possible(recs: seq<Payload>, x: Crash) {
    match x
    case InInsert(p, n) => Record(p) && p.valid == VALID && n <= |Frame(Encode(p))|
    case InAck(i, n) => i < |recs| && recs[i].valid == VALID && n <= |Encode(Dead(recs[i]))|
    case InCopy(n) => n <= |Layout(Keep(Live, recs))|
    case BeforeRename => true
  }

  function LeftBy(recs: seq<Payload>, x: Crash): Disk
    requires Possible(recs, x)
  {
    match x
    case InInsert(p, n) => Disk(Some(Layout(recs) + Frame(Encode(p))[..n]), None)
    case InAck(i, n) => Disk(Some(Written(Layout(recs), BodyOffset(recs, i), Encode(Dead(recs[i]))[..n])), None)
    case InCopy(n) => Disk(Some(Layout(recs)), Some(Layout(Keep(Live, recs))[..n]))
    case BeforeRename => Disk(None, Some(Layout(Keep(Live, recs))))
  }

  function Holding(recs: seq<Payload>): Disk {
    Disk(Some(Layout(recs)), None)
  }

  /** The records once the operation is complete. */
  function Completed(recs: seq<Payload>, x: Crash): seq<Payload>
    requires Possible(recs, x)
  {
    match x
    case InInsert(p, n) => recs + [p]
    case InAck(i, n) => recs[i := Dead(recs[i])]
    case InCopy(n) => recs
    case BeforeRename => recs
  }

  ghost predicate AllRecords(recs: seq<Payload>) {
    forall i :: 0 <= i < |recs| ==> Record(recs[i])
  }

  /** The process after the next, if the next one does nothing. */
  function RecoveredTwice(d: Disk): Store {
    Recovered(Recovered(d).disk)
  }

  // ---- Recovery without a crash ----

  lemma {:induction false} RecoveredHolding(recs: seq<Payload>)
    requires AllRecords(recs)
    ensures var live := Keep(Live, recs);
            && Recovered(Holding(recs)).disk == Holding(live)
            && Recovered(Holding(recs)).pending == Placed(0, live)
            && RecoveredTwice(Holding(recs)) == Recovered(Holding(recs))
  {
    var live := Keep(Live, recs);
    RecordsSound(recs);
    CollectFresh(recs);
    KeepSound(Live, recs);
    CollectFresh(live);
    KeepTwice(Live, recs);
    KeepShrinks(Live, recs);
  }

  lemma {:induction false} RecoveredFrom(d: Disk, d': Disk)
    requires d.data.Some? && d'.data.Some? && Collect(d) == Collect(d')
    ensures Recovered(d) == Recovered(d')
  {
    assert NewStore(d).disk == d && NewStore(d').disk == d';
  }

  // ---- A crash in `insert` ----

  /** Between the first byte and the last. */
  predicate Torn(p: Payload, n: nat) {
    0 < n < |Frame(Encode(p))|
  }

  lemma {:induction false} TornLoads(recs: seq<Payload>, p: Payload, n: nat)
    requires AllRecords(recs) && Record(p) && Torn(p, n)
    ensures Load(Layout(recs) + Frame(Encode(p))[..n]) == Loaded(false, Keep(Live, recs))
  {
    RecordsSound(recs);
    LoadLayout(recs, Frame(Encode(p))[..n]);
    UnframeTorn(Encode(p), n);
    assert Keep(Live, recs) + [] == Keep(Live, recs);
  }

  /**
   Part of a record at the end of the data file: the next process has all the live messages, but none of their
   places, and leaves the torn file as it is, so that the one after that finds the same.
   */
  lemma {:induction false} TornInsert(recs: seq<Payload>, p: Payload, n: nat)
    requires AllRecords(recs) && Possible(recs, InInsert(p, n)) && Torn(p, n)
    ensures var d, live := LeftBy(recs, InInsert(p, n)), Keep(Live, recs);
            && !Load(d.data.value).ok
            && Recovered(d).disk == d && Recovered(d).pending == Unplaced(live)
            && RecoveredTwice(d) == Recovered(d)
  {
    TornLoads(recs, p, n);
    var d := LeftBy(recs, InInsert(p, n));
    assert NewStore(d).disk == d;
  }

  lemma {:induction false} ClearedNotEmpty(p: Payload)
    requires p.valid == VALID
    ensures |Encode(Dead(p))| > 0
  {
    ClearingFlagChangesLastByte(p);
  }

  /** No acknowledgement of a message recovered from a torn file reaches that file. */
  lemma {:induction false} TornAckLost(recs: seq<Payload>, p: Payload, n: nat, k: nat)
    requires AllRecords(recs) && Possible(recs, InInsert(p, n)) && Torn(p, n)
    requires k < |Keep(Live, recs)| && Keep(Live, recs)[k].valid == VALID
    ensures var d := LeftBy(recs, InInsert(p, n));
            k < |Recovered(d).pending| && Clear(d, Recovered(d).pending[k]) == d
  {
    TornInsert(recs, p, n);
    ClearedNotEmpty(Keep(Live, recs)[k]);
  }

  /** Where the first record of these bytes ends, by the length at their head. */
  function Next(s: seq<byte>): nat
    requires |s| >= HEADER
  {
    HEADER + FromLittleEndian(s[..HEADER])
  }

  /** The first record is all there. */
  predicate Whole(s: seq<byte>) {
    |s| >= HEADER && Next(s) <= |s|
  }

  /** What the scan makes of bytes that follow whole records with the messages `live`. */
  function ReadOn(live: seq<Payload>, s: seq<byte>): Loaded {
    if Whole(s) then
      var rest := Load(s[Next(s)..]);
      Loaded(rest.ok, live + (Seen(s[HEADER..Next(s)]) + rest.msgs))
    else Loaded(false, live)
  }

  lemma {:induction false} LoadOn(recs: seq<Payload>, s: seq<byte>)
    requires AllRecords(recs) && s != []
    ensures Load(Layout(recs) + s) == ReadOn(Keep(Live, recs), s)
  {
    hide Encode;
    RecordsSound(recs);
    LoadLayout(recs, s);
    if Whole(s) {
      var rest := Unframe(s[Next(s)..]).bodies;
      UnframeFirst(s, Next(s));
      assert ([s[HEADER..Next(s)]] + rest)[1..] == rest;
    } else {
      UnframeShort(s);
      assert Keep(Live, recs) + [] == Keep(Live, recs);
    }
  }

  /**
   The bytes behind the first `n` of a record complete it: its length first, if that was cut, which then need
   not be the record's; otherwise its body, and the scan goes on behind the bytes that were missing.
   */
  ghost predicate Completing(frame: seq<byte>, n: nat, more: seq<byte>)
    requires HEADER <= |frame| && n <= |frame|
  {
    var s, missing := frame[..n] + more, |frame| - n;
    && (n < HEADER <= |s| ==> s[..HEADER] == frame[..n] + more[..HEADER - n])
    && (n >= HEADER ==>
          && Next(s) == |frame| && (Whole(s) <==> missing <= |more|)
          && (missing <= |more| ==>
                s[HEADER..Next(s)] == frame[HEADER..n] + more[..missing] && s[Next(s)..] == more[missing..]))
  }

  lemma {:induction false} Completes(body: Str, n: nat, more: seq<byte>)
    requires |body| < TWO64 && 0 < n <= |Frame(body)|
    ensures Completing(Frame(body), n, more)
  {
    var frame, s := Frame(body), Frame(body)[..n] + more;
    if n >= HEADER {
      HeaderOf(body, n);
      assert s[..HEADER] == frame[..n][..HEADER];
    }
  }

  /**
   Whatever is appended behind a torn record is read as its missing bytes; until there are enough of them the
   scan fails where it failed, and then it goes on inside what was appended.
   */
  lemma {:induction false} AppendedBehindTear(recs: seq<Payload>, p: Payload, n: nat, more: seq<byte>)
    requires AllRecords(recs) && Record(p) && 0 < n <= |Frame(Encode(p))|
    ensures Completing(Frame(Encode(p)), n, more)
    ensures var s := Frame(Encode(p))[..n] + more;
            Load(Layout(recs) + s) == ReadOn(Keep(Live, recs), s)
  {
    RecordSmall(p);
    hide *;
    Completes(Encode(p), n, more);
    NotNone(Frame(Encode(p)), n, more);
    LoadOn(recs, Frame(Encode(p))[..n] + more);
  }

  lemma {:induction false} NotNone(frame: seq<byte>, n: nat, more: seq<byte>)
    requires 0 < n <= |frame|
    ensures frame[..n] + more != []
  {
    assert (frame[..n] + more)[0] == frame[0];
  }

  lemma {:induction false} RecordSmall(p: Payload)
    requires Record(p)
    ensures |Encode(p)| < TWO64
  {
  }

  // ---- A crash in `remove` ----

  /** Only the last byte of the cleared form is new, so the acknowledgement has happened or it has not. */
  lemma {:induction false} AckIsAtomic(recs: seq<Payload>, i: nat, n: nat)
    requires Possible(recs, InAck(i, n))
    ensures LeftBy(recs, InAck(i, n))
            == Holding(if n < |Encode(Dead(recs[i]))| then recs else recs[i := Dead(recs[i])])
  {
    hide Encode;
    var dead := Encode(Dead(recs[i]));
    ClearRecord(recs, i);
    if n < |dead| {
      ClearingFlagChangesLastByte(recs[i]);
      StartAfter(recs, i);
      LayoutAround(recs, i);
      WrittenSame(Layout(recs[..i]), Encode(recs[i]), Layout(recs[i + 1..]), dead, n);
    } else {
      assert dead[..n] == dead;
    }
  }

  /** Writing the first bytes of a body that differs in its last byte only. */
  lemma {:induction false} WrittenSame(front: seq<byte>, body: Str, back: seq<byte>, changed: Str, n: nat)
    requires body != [] && changed == body[|body| - 1 := 48] && n < |body|
    ensures var file := front + (Frame(body) + back); Written(file, |front| + HEADER, changed[..n]) == file
  {
    var head, tail := front + LittleEndian(|body|, HEADER), body[n..] + back;
    assert changed[..n] == body[..n] && body == body[..n] + body[n..];
    assert front + (Frame(body) + back) == head + (body[..n] + tail);
    WrittenMiddle(head, body[..n], tail, body[..n]);
  }

  // ---- A crash in `gc` ----

  /**
   With part of the copies in the temporary file the next process has all the live messages, with true places;
   but its data file starts with those bytes. The one after that has first the messages copied whole.
   */
  lemma {:induction false} CopyCutShort(recs: seq<Payload>, n: nat)
    requires AllRecords(recs) && Possible(recs, InCopy(n))
    ensures var d, live := LeftBy(recs, InCopy(n)), Keep(Live, recs);
            && Recovered(d).disk == Disk(Some(Layout(live)[..n] + Layout(live)), None)
            && Recovered(d).pending == Placed(n, live)
            && Load(Layout(live)[..n]).msgs <= Load(Layout(live)[..n] + Layout(live)).msgs
  {
    var d := LeftBy(recs, InCopy(n));
    RecordsSound(recs);
    CompactionWithLeftover(recs, Layout(Keep(Live, recs))[..n]);
    assert NewStore(d).disk == d;
  }

  lemma {:induction false} CopiedWhole(live: seq<Payload>, k: nat)
    requires k <= |live|
    ensures Layout(live) == Layout(live[..k]) + Layout(live[k..])
    ensures |Layout(live[..k])| <= |Layout(live)| && Layout(live)[..|Layout(live[..k])|] == Layout(live[..k])
  {
    assert live == live[..k] + live[k..];
    LayoutConcat(live[..k], live[k..]);
  }

  lemma {:induction false} LiveStay(recs: seq<Payload>, k: nat)
    requires k <= |Keep(Live, recs)|
    ensures Keep(Live, Keep(Live, recs)[..k]) == Keep(Live, recs)[..k]
  {
    forall p | p in Keep(Live, recs)[..k] ensures Passes(Live, p) {
      KeepMember(Live, recs, p);
    }
    KeepAll(Live, Keep(Live, recs)[..k]);
  }

  /** With `k` whole copies the process after the next has the first `k` messages twice. */
  lemma {:induction false} CopyDuplicates(recs: seq<Payload>, k: nat)
    requires AllRecords(recs) && k <= |Keep(Live, recs)|
    ensures var live := Keep(Live, recs);
            var n := |Layout(live[..k])|;
            && Possible(recs, InCopy(n))
            && var file := Recovered(LeftBy(recs, InCopy(n))).disk.data;
               file.Some? && Load(file.value) == Loaded(true, live[..k] + live)
               && (Load(file.value) == Loaded(true, live) <==> k == 0)
  {
    hide Encode, Recovered, Collect;
    var live := Keep(Live, recs);
    CopiedWhole(live, k);
    CopyCutShort(recs, |Layout(live[..k])|);
    LiveStay(recs, k);
    RecordsSound(recs);
    KeepSound(Live, recs);
    LoadWellFormed(live[..k]);
    CompactionWithLeftover(recs, Layout(live[..k]));
    if k == 0 {
      assert live[..k] + live == live;
    }
  }

  /**
   With `k` whole copies and part of another the process after the next reads the missing part of that record
   from the start of the live records behind it, and goes on in the middle of them.
   */
  lemma {:induction false} CopyTorn(recs: seq<Payload>, live: seq<Payload>, k: nat, frame: seq<byte>, m: nat, n: nat)
    requires AllRecords(recs) && live == Keep(Live, recs) && k < |live| && frame == Frame(Encode(live[k]))
    requires 0 < m <= |frame| && n == |Layout(live[..k])| + m
    ensures Possible(recs, InCopy(n)) && HEADER <= |frame| <= |Layout(live)| && Completing(frame, m, Layout(live))
    ensures var file := Recovered(LeftBy(recs, InCopy(n))).disk.data;
            && file.Some?
            && Load(file.value) == ReadOn(live[..k], frame[..m] + Layout(live))
  {
    hide *;
    LiveRecords(recs);
    LiveStay(recs, k);
    CutPossible(recs, k, m);
    CopyCutShort(recs, n);
    TornCopyRead(live, k, m, n, Recovered(LeftBy(recs, InCopy(n))).disk.data.value);
  }

  lemma {:induction false} CutPossible(recs: seq<Payload>, k: nat, m: nat)
    requires k < |Keep(Live, recs)| && m <= |Frame(Encode(Keep(Live, recs)[k]))|
    ensures Possible(recs, InCopy(|Layout(Keep(Live, recs)[..k])| + m))
  {
    CutInside(Keep(Live, recs), k, m);
  }

  lemma {:induction false} TornCopyRead(live: seq<Payload>, k: nat, m: nat, n: nat, file: seq<byte>)
    requires AllRecords(live) && k < |live| && 0 < m <= |Frame(Encode(live[k]))|
    requires Keep(Live, live[..k]) == live[..k]
    requires n == |Layout(live[..k])| + m && n <= |Layout(live)| && file == Layout(live)[..n] + Layout(live)
    ensures var frame := Frame(Encode(live[k]));
            && HEADER <= |frame| <= |Layout(live)| && Completing(frame, m, Layout(live))
            && Load(file) == ReadOn(live[..k], frame[..m] + Layout(live))
  {
    hide Encode, Frame, Load, Layout, ReadOn, Completing;
    CutInside(live, k, m);
    AppendedBehindTear(live[..k], live[k], m, Layout(live));
    Assoc(Layout(live[..k]), Frame(Encode(live[k]))[..m], Layout(live));
  }

  lemma {:induction false} LiveRecords(recs: seq<Payload>)
    requires AllRecords(recs)
    ensures AllRecords(Keep(Live, recs))
  {
    forall i | 0 <= i < |Keep(Live, recs)| ensures Record(Keep(Live, recs)[i]) {
      KeepMember(Live, recs, Keep(Live, recs)[i]);
    }
  }

  lemma {:induction false} CutInside(live: seq<Payload>, k: nat, m: nat)
    requires k < |live| && m <= |Frame(Encode(live[k]))|
    ensures var front, frame := Layout(live[..k]), Frame(Encode(live[k]));
            && |front| + |frame| <= |Layout(live)|
            && Layout(live)[..|front| + m] == front + frame[..m]
  {
    LayoutAround(live, k);
  }

  /**
   So when the crash comes between the two writes for the first copy, the process after the next finds none of
   the live records where it looks: one record made of other bytes at most, and then the scan fails.
   */
  lemma {:induction false} FirstHeaderOnly(recs: seq<Payload>)
    requires AllRecords(recs) && Keep(Live, recs) != [] && |Layout(Keep(Live, recs))| < TWO32
    ensures var live := Keep(Live, recs);
            && Possible(recs, InCopy(HEADER))
            && var file := Recovered(LeftBy(recs, InCopy(HEADER))).disk.data;
               file.Some? && |Encode(live[0])| <= |Layout(live)|
               && Load(file.value) == Loaded(false, Seen(Layout(live)[..|Encode(live[0])|]))
  {
    var live := Keep(Live, recs);
    LiveRecords(recs);
    LiveFlag(recs, live[0]);
    LayoutAround(live, 0);
    assert live[..0] == [];
    CopyCutShort(recs, HEADER);
    HeaderThenLive(live, Recovered(LeftBy(recs, InCopy(HEADER))).disk.data.value);
  }

  lemma {:induction false} HeaderThenLive(live: seq<Payload>, file: seq<byte>)
    requires live != [] && live[0].valid == VALID && |Layout(live)| < TWO32
    requires HEADER <= |Layout(live)| && file == Layout(live)[..HEADER] + Layout(live)
    ensures var size := |Encode(live[0])|;
            size <= |Layout(live)| && Load(file) == Loaded(false, Seen(Layout(live)[..size]))
  {
    LayoutFirst(live);
    ClearingFlagChangesLastByte(live[0]);
    HeaderTwice(Encode(live[0]), Layout(live[1..]), Layout(live), file);
    DecodedOne(Layout(live)[..|Encode(live[0])|]);
  }

  lemma {:induction false} DecodedOne(body: Str)
    ensures Decoded([body]) == Seen(body)
  {
    assert [body][1..] == [];
  }

  /** A length written twice: the body read is cut out of what follows, whose last bytes are no length. */
  lemma {:induction false} HeaderTwice(body: Str, back: seq<byte>, whole: seq<byte>, file: seq<byte>)
    requires whole == Frame(body) + back && |whole| < TWO32
    requires body != [] && body[|body| - 1] >= 1 && file == whole[..HEADER] + whole
    ensures Unframe(file) == Scanned(false, [whole[..|body|]])
  {
    var rest := whole[|body|..];
    assert whole[..HEADER] == Frame(body)[..HEADER];
    UnframeTornThen(body, HEADER, whole);
    assert Frame(body)[HEADER..HEADER] + whole[..|body|] == whole[..|body|];
    assert rest[HEADER - 1] == whole[|body| + HEADER - 1] == Frame(body)[HEADER + |body| - 1] == body[|body| - 1];
    TopByte(rest[..HEADER]);
    UnframeShort(rest);
    assert [whole[..|body|]] + [] == [whole[..|body|]];
  }

  lemma {:induction false} LiveFlag(recs: seq<Payload>, p: Payload)
    requires AllRecords(recs) && p in Keep(Live, recs)
    ensures Record(p) && p.valid == VALID
  {
    KeepMember(Live, recs, p);
  }

  /** Eight bytes with the last one not zero are a length that exceeds the file. */
  lemma {:induction false} TopByte(s: seq<byte>)
    requires |s| == HEADER && s[HEADER - 1] >= 1
    ensures FromLittleEndian(s) >= TWO32
  {
    TopByteAt(s, 7);
    assert Pow256(4) == TWO32;
    assert Pow256(7) == 256 * (256 * (256 * Pow256(4)));
  }

  lemma {:induction false} TopByteAt(s: seq<byte>, k: nat)
    requires |s| == k + 1 && s[k] >= 1
    ensures FromLittleEndian(s) >= Pow256(k)
  {
    if k > 0 {
      assert s[1..][k - 1] == s[k];
      TopByteAt(s[1..], k - 1);
    }
  }

  /**
   Between the removal of the data file and the renaming the next process starts with an empty queue, and its
   data file holds all the live messages, which the one after that has again.
   */
  lemma {:induction false} RemovedNotRenamed(recs: seq<Payload>)
    requires AllRecords(recs)
    ensures var d, live := LeftBy(recs, BeforeRename), Keep(Live, recs);
            && Recovered(d) == Store(Holding(live), 0, [], map[], map[])
            && RecoveredTwice(d) == Recovered(Holding(recs))
  {
    var d, live := LeftBy(recs, BeforeRename), Keep(Live, recs);
    var empty := Disk(Some([]), Some(Layout(live)));
    var none: seq<Payload> := [];
    assert NewStore(d).disk == empty;
    assert Layout(none) == [] && Keep(Live, none) == [];
    CompactionWithLeftover(none, Layout(live));
    assert Layout(live) + [] == Layout(live);
    assert Placed(|Layout(live)|, none) == [];
    assert Recovered(d) == Store(Holding(live), 0, [], map[], map[]);
    RecoveredHolding(recs);
    LiveRecords(recs);
    RecoveredAgain(recs);
  }

  lemma {:induction false} RecoveredAgain(recs: seq<Payload>)
    requires AllRecords(recs)
    ensures Recovered(Holding(Keep(Live, recs))) == Recovered(Holding(recs))
  {
    RecoveredHolding(recs);
  }

  lemma {:induction false} RecoveredNothing()
    ensures Recovered(Holding([])) == Store(Holding([]), 0, [], map[], map[])
  {
    var none: seq<Payload> := [];
    assert Layout(none) == [] && Keep(Live, none) == [];
    RecoveredHolding(none);
  }

  // ---- At which points a crash does no harm ----

  predicate Harmless(recs: seq<Payload>, x: Crash)
    requires Possible(recs, x)
  {
    match x
    case InInsert(p, n) => !Torn(p, n)
    case InAck(i, n) => true
    case InCopy(n) => n == 0
    case BeforeRename => Keep(Live, recs) == []
  }

  /** The next process is in the state in which it would be had the operation not begun, or been completed. */
  predicate AsIfWhole(recs: seq<Payload>, x: Crash)
    requires Possible(recs, x)
  {
    var s := Recovered(LeftBy(recs, x));
    s == Recovered(Holding(recs)) || s == Recovered(Holding(Completed(recs, x)))
  }

  lemma {:induction false} InsertHarmless(recs: seq<Payload>, p: Payload, n: nat)
    requires AllRecords(recs) && Possible(recs, InInsert(p, n))
    ensures AsIfWhole(recs, InInsert(p, n)) <==> !Torn(p, n)
  {
    hide Encode, Recovered;
    var frame := Frame(Encode(p));
    if n == 0 {
      assert Layout(recs) + frame[..0] == Layout(recs);
    } else if n == |frame| {
      assert frame[..n] == frame;
      LayoutAppend(recs, p);
    } else {
      TornInsert(recs, p, n);
      RecoveredHolding(recs);
      RecoveredHolding(recs + [p]);
      RecordsSound(recs);
      KeepSound(Live, recs);
      LoadWellFormed(Keep(Live, recs));
      AllRecordsMore(recs, p);
    }
  }

  lemma {:induction false} AllRecordsMore(recs: seq<Payload>, p: Payload)
    requires AllRecords(recs) && Record(p)
    ensures AllRecords(recs + [p]) && Load(Layout(Keep(Live, recs + [p]))).ok
  {
    RecordsSound(recs + [p]);
    KeepSound(Live, recs + [p]);
    LoadWellFormed(Keep(Live, recs + [p]));
  }

  lemma {:induction false} CopyHarmless(recs: seq<Payload>, n: nat)
    requires AllRecords(recs) && Possible(recs, InCopy(n))
    ensures AsIfWhole(recs, InCopy(n)) <==> n == 0
  {
    var d, live := LeftBy(recs, InCopy(n)), Keep(Live, recs);
    CopyCutShort(recs, n);
    RecoveredHolding(recs);
    if n == 0 {
      RecordsSound(recs);
      CompactionWithLeftover(recs, Layout(live)[..n]);
      RecoveredFrom(d, Holding(recs));
    } else {
      assert |Layout(live)[..n] + Layout(live)| > |Layout(live)|;
    }
  }

  lemma {:induction false} RenameHarmless(recs: seq<Payload>)
    requires AllRecords(recs)
    ensures AsIfWhole(recs, BeforeRename) <==> Keep(Live, recs) == []
  {
    hide Recovered, Collect;
    RemovedNotRenamed(recs);
    RecoveredHolding(recs);
    RecoveredAgain(recs);
    RecoveredNothing();
    if Keep(Live, recs) != [] {
      assert Placed(0, Keep(Live, recs)) != [];
    }
  }

  /**
   A crash is as good as a restart before or after the operation exactly when it is not inside a new record,
   not after the first byte of a copy and, between removal and renaming, only when nothing was live. An
   acknowledgement may be cut anywhere.
   */
  lemma {:induction false} HarmlessIff(recs: seq<Payload>, x: Crash)
    requires AllRecords(recs) && Possible(recs, x)
    ensures AsIfWhole(recs, x) <==> Harmless(recs, x)
  {
    match x
    case InInsert(p, n) => InsertHarmless(recs, p, n);
    case InAck(i, n) => AckIsAtomic(recs, i, n);
    case InCopy(n) => CopyHarmless(recs, n);
    case BeforeRename => RenameHarmless(recs);
  }

  lemma {:induction false} EachHarmlessIff(recs: seq<Payload>)
    requires AllRecords(recs)
    ensures forall x :: Possible(recs, x) ==> (AsIfWhole(recs, x) <==> Harmless(recs, x))
  {
    forall x | Possible(recs, x) ensures AsIfWhole(recs, x) <==> Harmless(recs, x) {
      HarmlessIff(recs, x);
    }
  }

  lemma {:induction false} RestartsFrom(c: Config, a: Ideal, recs: seq<Payload>)
    requires Agrees(c, a, recs)
    ensures c.store.disk == Holding(recs) && AllRecords(recs)
    ensures Step(c, Restart).store == Recovered(Holding(recs))
  {
    hide Indexed, Located, Recovered, Layout, Keep;
  }

  /**
   Over whole runs: in every reached state the file holds records, a restart recovers from them, and a crash in
   the operation under way is as good as a restart before or after it exactly when it is harmless.
   */
  lemma {:induction false} CrashInRun(recs: seq<Payload>, ops: seq<Op>) returns (recs': seq<Payload>)
    requires Startable(recs) && Legal(Opened(recs), Intended(recs), ops)
    ensures var c := Run(Opened(recs), Intended(recs), ops);
            c.store.disk == Holding(recs') && Step(c, Restart).store == Recovered(Holding(recs'))
    ensures AllRecords(recs')
    ensures forall x :: Possible(recs', x) ==> (AsIfWhole(recs', x) <==> Harmless(recs', x))
  {
    recs' := Reached(recs, ops);
    RestartsFrom(Run(Opened(recs), Intended(recs), ops), IdealRun(Intended(recs), ops), recs');
    EachHarmlessIff(recs');
  }

  /**
   The same for the compaction that follows an acknowledgement: it starts from the file in which the record has
   been cleared, with the counter not yet reset.
   */
  lemma {:induction false} CrashInAck(recs: seq<Payload>, ops: seq<Op>, id: Str) returns (recs': seq<Payload>)
    requires Startable(recs) && Legal(Opened(recs), Intended(recs), ops)
    requires var c := Run(Opened(recs), Intended(recs), ops); id in c.store.waitack && id !in c.stale
    ensures ClearStep(Run(Opened(recs), Intended(recs), ops).store, id).disk == Holding(recs')
    ensures Keep(Live, recs') == Keep(Durable, All(IdealStep(IdealRun(Intended(recs), ops), Ack(id))))
    ensures AllRecords(recs')
    ensures forall x :: Possible(recs', x) ==> (AsIfWhole(recs', x) <==> Harmless(recs', x))
  {
    var c, a := Run(Opened(recs), Intended(recs), ops), IdealRun(Intended(recs), ops);
    recs' := Reached(recs, ops);
    recs' := ClearKeeps(c, a, recs', id);
    RestartsFrom(Config(ClearStep(c.store, id), c.stale - {id}), IdealStep(a, Ack(id)), recs');
    EachHarmlessIff(recs');
  }
}
