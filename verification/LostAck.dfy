/**
 A run in which compaction loses an acknowledgement: a message is delivered, two thousand others pass through
 the queue, compaction moves the first one's record, and its acknowledgement then misses the record.
 */
module LostAck {
  import opened Bytes
  import opened Wire
  import opened PayloadCodec
  import opened Framing
  import opened MessageLog
  import opened QueueStore
  import opened QueueRuns

  /** Three one-letter identifiers; all the messages have records of the same size. */
  const FIRST: byte := 119
  const KEPT: byte := 121
  const PASSING: byte := 122

  const RECORD_SIZE: nat := 18

  function Small(b: byte): Payload {
    Payload(Some(Properties([b], DURABLE, [])), [], VALID)
  }

  function Put(b: byte): Op {
    Insert(Some(Properties([b], DURABLE, [])), [], true, [])
  }

  lemma {:induction false} SmallRecord(b: byte)
    requires b < 128
    ensures Storable(Small(b)) && |Frame(Encode(Small(b)))| == RECORD_SIZE
    ensures IdOf(Small(b)) == [b] && Built(Some(Properties([b], DURABLE, [])), [], true, []) == Small(b)
  {
    assert Utf8([b]) by {
      assert [b][1..] == [];
    }
    assert Utf8(VALID) by {
      assert VALID[1..] == [];
    }
    var properties := EncodeProperties(Properties([b], DURABLE, []));
    assert |properties| == 5;
    assert |Encode(Small(b))| == 10;
  }

  // ---- Steps on a file of such records ----

  ghost predicate Sized(c: Config, a: Ideal, recs: seq<Payload>) {
    && Agrees(c, a, recs) && c.stale == {}
    && |Layout(recs)| == RECORD_SIZE * |recs|
  }

  lemma {:induction false} PutKeeps(c: Config, a: Ideal, recs: seq<Payload>, b: byte)
    requires Sized(c, a, recs) && |recs| <= 2000 && b < 128 && [b] !in Ids(All(a))
    ensures Allowed(c, a, Put(b))
    ensures Sized(Step(c, Put(b)), a.(pending := a.pending + [Small(b)]), recs + [Small(b)])
    ensures Step(c, Put(b)).store.pending
            == c.store.pending + [Msg(Small(b), Low32(RECORD_SIZE * |recs| + HEADER), Low32(|Encode(Small(b))|))]
    ensures Step(c, Put(b)).store.waitack == c.store.waitack
  {
    SmallRecord(b);
    InsertKeepsSize(c, a, recs, Small(b));
  }

  lemma {:induction false} InsertKeepsSize(c: Config, a: Ideal, recs: seq<Payload>, p: Payload)
    requires Sized(c, a, recs) && |recs| <= 2000 && IdOf(p) !in Ids(All(a))
    requires IsDurable(p) && p.valid == VALID && Storable(p) && |Frame(Encode(p))| == RECORD_SIZE
    ensures |Content(InsertStep(c.store, p).disk.data)| < TWO32
    ensures Sized(c.(store := InsertStep(c.store, p)), a.(pending := a.pending + [p]), recs + [p])
    ensures InsertStep(c.store, p).pending
            == c.store.pending + [Msg(p, Low32(RECORD_SIZE * |recs| + HEADER), Low32(|Encode(p)|))]
    ensures InsertStep(c.store, p).waitack == c.store.waitack
  {
    assert Append(c.store.disk, p).disk.data == Some(Layout(recs) + Frame(Encode(p)));
    InsertDurableKeeps(c, a, recs, p);
    AppendToLog(recs, p);
  }

  lemma {:induction false} FrontKeeps(c: Config, a: Ideal, recs: seq<Payload>)
    requires Sized(c, a, recs)
    ensures Allowed(c, a, Front) && Sized(Step(c, Front), IdealStep(a, Front), recs)
  {
    IndexedFront(c.store, a);
  }

  lemma {:induction false} ClearKeepsSize(c: Config, a: Ideal, recs: seq<Payload>, id: Str)
    returns (recs': seq<Payload>)
    requires Sized(c, a, recs) && id in c.store.waitack && IsDurable(c.store.waitack[id].payload)
    ensures Sized(Config(ClearStep(c.store, id), {}), IdealStep(a, Ack(id)), recs') && |recs'| == |recs|
  {
    var i := AckedRecord(c, a, recs, id);
    ClearInLog(recs, i);
    recs' := ClearDurableKeeps(c, a, recs, id);
    assert c.stale - {id} == {};
    assert Content(ClearStep(c.store, id).disk.data) == Layout(recs');
  }

  // ---- Composing runs ----

  lemma {:induction false} Prepend(c: Config, a: Ideal, op: Op, rest: seq<Op>)
    requires Allowed(c, a, op) && Legal(Step(c, op), IdealStep(a, op), rest)
    ensures Legal(c, a, [op] + rest)
    ensures Run(c, a, [op] + rest) == Run(Step(c, op), IdealStep(a, op), rest)
  {
    assert ([op] + rest)[1..] == rest;
  }

  function Rounds(k: nat): seq<Op> {
    if k == 0 then [] else [Put(PASSING)] + ([Front] + ([Ack([PASSING])] + Rounds(k - 1)))
  }

  /** The acknowledged message is in no container, and a restart would deliver it again. */
  ghost predicate Loses(s: Store, id: Str) {
    && id in s.waitack
    && var after := ClearStep(s, id);
       id !in after.durable && id !in after.waitack
       && after.disk.data.Some? && id in Ids(Load(after.disk.data.value).msgs)
  }

  /** The kept message waits for its acknowledgement and its record was the second of the file. */
  ghost predicate Between(c: Config, a: Ideal, recs: seq<Payload>) {
    && Sized(c, a, recs) && a == Ideal([Small(KEPT)], [])
    && c.store.waitack.Keys == {[KEPT]} && c.store.waitack[[KEPT]].offset == RECORD_SIZE + HEADER
  }

  /** In the middle of a round: the passing message has been delivered too. */
  ghost predicate During(c: Config, a: Ideal, recs: seq<Payload>) {
    && Sized(c, a, recs) && a == Ideal([Small(KEPT), Small(PASSING)], [])
    && c.store.waitack.Keys == {[KEPT], [PASSING]}
    && c.store.waitack[[KEPT]].offset == RECORD_SIZE + HEADER
    && c.store.waitack[[PASSING]].payload == Small(PASSING)
  }

  /** The passing message is in the queue. */
  ghost predicate Queued(c: Config, a: Ideal, recs: seq<Payload>) {
    && Sized(c, a, recs) && a == Ideal([Small(KEPT)], [Small(PASSING)])
    && c.store.waitack.Keys == {[KEPT]} && c.store.waitack[[KEPT]].offset == RECORD_SIZE + HEADER
  }

  lemma {:induction false} PassingPut(c: Config, a: Ideal, recs: seq<Payload>)
    requires Between(c, a, recs) && |recs| <= 2000
    ensures Allowed(c, a, Put(PASSING))
    ensures Queued(Step(c, Put(PASSING)), IdealStep(a, Put(PASSING)), recs + [Small(PASSING)])
  {
    SmallRecord(PASSING);
    SmallRecord(KEPT);
    assert [KEPT][0] != [PASSING][0];
    PutKeeps(c, a, recs, PASSING);
    assert [] + [Small(PASSING)] == [Small(PASSING)];
  }

  lemma {:induction false} PassingDelivered(c: Config, a: Ideal, recs: seq<Payload>)
    requires Queued(c, a, recs)
    ensures Allowed(c, a, Front) && During(Step(c, Front), IdealStep(a, Front), recs)
  {
    FrontKeeps(c, a, recs);
    PassingIdeal();
    PassingFront(c.store, a);
  }

  lemma {:induction false} PassingIdeal()
    ensures IdealStep(Ideal([Small(KEPT)], [Small(PASSING)]), Front) == Ideal([Small(KEPT), Small(PASSING)], [])
  {
    assert [Small(KEPT)] + [Small(PASSING)] == [Small(KEPT), Small(PASSING)];
  }

  lemma {:induction false} PassingFront(s: Store, a: Ideal)
    requires Indexed(s, a) && a.pending == [Small(PASSING)] && s.waitack.Keys == {[KEPT]}
    ensures FrontStep(s).waitack.Keys == {[KEPT], [PASSING]}
    ensures FrontStep(s).waitack[[KEPT]] == s.waitack[[KEPT]]
    ensures FrontStep(s).waitack[[PASSING]].payload == Small(PASSING)
  {
    FrontWaits(s, a);
    SmallId(PASSING);
    PassingWaits(s, FrontStep(s), s.pending[0]);
  }

  lemma {:induction false} SmallId(b: byte)
    ensures IdOf(Small(b)) == [b]
  {
  }

  lemma {:induction false} PassingWaits(s: Store, s': Store, m: Msg)
    requires s.waitack.Keys == {[KEPT]} && m.payload == Small(PASSING) && s'.waitack == s.waitack[[PASSING] := m]
    ensures s'.waitack.Keys == {[KEPT], [PASSING]}
    ensures s'.waitack[[KEPT]] == s.waitack[[KEPT]] && s'.waitack[[PASSING]] == m
  {
    assert [KEPT][0] != [PASSING][0];
  }

  lemma {:induction false} OnlyKeptLeft()
    ensures IdealStep(Ideal([Small(KEPT), Small(PASSING)], []), Ack([PASSING])) == Ideal([Small(KEPT)], [])
  {
    var s := [Small(KEPT), Small(PASSING)];
    assert [KEPT][0] != [PASSING][0];
    assert s[1..] == [Small(PASSING)] && s[1..][1..] == [];
    assert Keep(Except([PASSING]), s[1..]) == [];
  }

  lemma {:induction false} RoundKeeps(c: Config, a: Ideal, recs: seq<Payload>) returns (recs': seq<Payload>)
    requires During(c, a, recs)
    ensures Between(Config(ClearStep(c.store, [PASSING]), {}), IdealStep(a, Ack([PASSING])), recs') && |recs'| == |recs|
  {
    OnlyKeptLeft();
    recs' := ClearKeepsSize(c, a, recs, [PASSING]);
    KeptWaits(c.store, ClearStep(c.store, [PASSING]), PASSING);
  }

  lemma {:induction false} KeptWaits(s: Store, s': Store, other: byte)
    requires other != KEPT
    requires s.waitack.Keys == {[KEPT], [other]} && s'.waitack == s.waitack - {[other]}
    ensures s'.waitack.Keys == {[KEPT]} && s'.waitack[[KEPT]] == s.waitack[[KEPT]]
  {
    assert [KEPT][0] != [other][0];
  }

  lemma {:induction false} OneDurable(c: Config, a: Ideal, recs: seq<Payload>)
    requires Between(c, a, recs)
    ensures |c.store.durable| == 1 && Keep(Durable, All(a)) == [Small(KEPT)]
  {
    DurableCount(c.store, a);
    assert All(a) == [Small(KEPT)];
    assert [Small(KEPT)][1..] == [];
  }

  /** The acknowledgement of the passing message compacts the file exactly when that has more than 2000 records. */
  lemma {:induction false} RoundCompacts(c: Config, a: Ideal, recs: seq<Payload>, recs': seq<Payload>)
    requires During(c, a, recs) && |recs'| == |recs|
    requires Between(Config(ClearStep(c.store, [PASSING]), {}), IdealStep(a, Ack([PASSING])), recs')
    ensures Compacts(c.store, [PASSING]) <==> |recs| > 2000
  {
    OneDurable(Config(ClearStep(c.store, [PASSING]), {}), IdealStep(a, Ack([PASSING])), recs');
    WastefulMeansHalf(1, |recs|);
  }

  lemma {:induction false} CompactedLoses(c: Config, a: Ideal, recs: seq<Payload>)
    requires Between(c, a, recs)
    ensures Loses(Compacted(c).store, [KEPT])
  {
    var live := [Small(KEPT)];
    OneDurable(c, a, recs);
    CompactKeeps(c, a, recs);
    SmallRecord(KEPT);
    LayoutSize(live);
    assert |Layout(live[1..])| == 0;
    WaitingMessage(c.store, a, [KEPT]);
    assert live[..1] == live && Keep(Live, live) == live;
    assert IdOf(live[0]) in Ids(live);
    MovedAckIsLost(Compacted(c), a, live, 1, [KEPT]);
  }

  /** The round ends between rounds, or after the compaction that makes the kept message's acknowledgement miss. */
  lemma {:induction false} RoundEnds(c: Config, a: Ideal, recs: seq<Payload>, c': Config) returns (recs': seq<Payload>)
    requires During(c, a, recs) && c' == Step(c, Ack([PASSING]))
    ensures Allowed(c, a, Ack([PASSING])) && |recs'| == |recs|
    ensures if |recs| > 2000 then Loses(c'.store, [KEPT]) else Between(c', IdealStep(a, Ack([PASSING])), recs')
  {
    recs' := RoundKeeps(c, a, recs);
    RoundCompacts(c, a, recs, recs');
    assert c.stale - {[PASSING]} == {};
    if |recs| > 2000 {
      CompactedLoses(Config(ClearStep(c.store, [PASSING]), {}), IdealStep(a, Ack([PASSING])), recs');
    }
  }

  ghost predicate Doomed(c: Config, a: Ideal, ops: seq<Op>) {
    Legal(c, a, ops) && Loses(Run(c, a, ops).store, [KEPT])
  }

  lemma {:induction false} DoomedEarlier(c: Config, a: Ideal, op: Op, rest: seq<Op>, c': Config, a': Ideal)
    requires Allowed(c, a, op) && c' == Step(c, op) && a' == IdealStep(a, op) && Doomed(c', a', rest)
    ensures Doomed(c, a, [op] + rest)
  {
    Prepend(c, a, op, rest);
  }

  lemma {:induction false} DoomedNow(c: Config, a: Ideal)
    requires Loses(c.store, [KEPT])
    ensures Doomed(c, a, Rounds(0))
  {
  }

  lemma {:induction false} RoundsLose(c: Config, a: Ideal, recs: seq<Payload>, k: nat)
    requires Between(c, a, recs) && 0 < k && |recs| + k == 2001
    ensures Doomed(c, a, Rounds(k))
    decreases k, 1
  {
    PassingPut(c, a, recs);
    var c1, a1 := Step(c, Put(PASSING)), IdealStep(a, Put(PASSING));
    DeliverLose(c1, a1, recs + [Small(PASSING)], k - 1);
    DoomedEarlier(c, a, Put(PASSING), [Front] + ([Ack([PASSING])] + Rounds(k - 1)), c1, a1);
  }

  lemma {:induction false} DeliverLose(c: Config, a: Ideal, recs: seq<Payload>, k: nat)
    requires Queued(c, a, recs) && |recs| + k == 2001
    ensures Doomed(c, a, [Front] + ([Ack([PASSING])] + Rounds(k)))
    decreases k, 3
  {
    PassingDelivered(c, a, recs);
    var c1, a1 := Step(c, Front), IdealStep(a, Front);
    LastOfRound(c1, a1, recs, k);
    DoomedEarlier(c, a, Front, [Ack([PASSING])] + Rounds(k), c1, a1);
  }

  lemma {:induction false} LastOfRound(c: Config, a: Ideal, recs: seq<Payload>, k: nat)
    requires During(c, a, recs) && |recs| + k == 2001
    ensures Doomed(c, a, [Ack([PASSING])] + Rounds(k))
    decreases k, 2
  {
    var c', a' := Step(c, Ack([PASSING])), IdealStep(a, Ack([PASSING]));
    var recs' := RoundEnds(c, a, recs, c');
    if k == 0 {
      DoomedNow(c', a');
    } else {
      RoundsLose(c', a', recs', k);
    }
    DoomedEarlier(c, a, Ack([PASSING]), Rounds(k), c', a');
  }

  // ---- The whole run, from an empty file ----

  /** Nothing delivered yet, and the kept message second in the queue and in the file. */
  ghost predicate BothQueued(c: Config, a: Ideal, recs: seq<Payload>) {
    && Sized(c, a, recs) && |recs| == 2 && a == Ideal([], [Small(FIRST), Small(KEPT)])
    && |c.store.pending| == 2 && c.store.pending[1].offset == RECORD_SIZE + HEADER
  }

  ghost predicate FirstDelivered(c: Config, a: Ideal, recs: seq<Payload>) {
    && Sized(c, a, recs) && |recs| == 2 && a == Ideal([Small(FIRST)], [Small(KEPT)])
    && |c.store.pending| == 1 && c.store.pending[0].offset == RECORD_SIZE + HEADER
  }

  ghost predicate BothDelivered(c: Config, a: Ideal, recs: seq<Payload>) {
    && Sized(c, a, recs) && |recs| == 2 && a == Ideal([Small(FIRST), Small(KEPT)], [])
    && c.store.waitack.Keys == {[KEPT], [FIRST]}
    && c.store.waitack[[KEPT]].offset == RECORD_SIZE + HEADER
    && c.store.waitack[[FIRST]].payload == Small(FIRST)
  }

  lemma {:induction false} EmptySized(c: Config, a: Ideal)
    requires c == Opened([]) && a == Intended([])
    ensures Sized(c, a, []) && a == Ideal([], []) && c.store.pending == []
  {
    var none: seq<Payload> := [];
    RecoveryAgrees(Disk(Some(Layout(none)), None), none, Keep(Live, none));
  }

  lemma {:induction false} FirstPut(c: Config, a: Ideal, c1: Config, a1: Ideal)
    requires Sized(c, a, []) && a == Ideal([], []) && c.store.pending == []
    requires c1 == Step(c, Put(FIRST)) && a1 == IdealStep(a, Put(FIRST))
    ensures Allowed(c, a, Put(FIRST)) && Sized(c1, a1, [Small(FIRST)])
    ensures a1 == Ideal([], [Small(FIRST)]) && |c1.store.pending| == 1
  {
    SmallRecord(FIRST);
    PutKeeps(c, a, [], FIRST);
    assert [] + [Small(FIRST)] == [Small(FIRST)];
  }

  lemma {:induction false} SecondPut(c: Config, a: Ideal, c1: Config, a1: Ideal)
    requires Sized(c, a, [Small(FIRST)]) && a == Ideal([], [Small(FIRST)]) && |c.store.pending| == 1
    requires c1 == Step(c, Put(KEPT)) && a1 == IdealStep(a, Put(KEPT))
    ensures Allowed(c, a, Put(KEPT)) && BothQueued(c1, a1, [Small(FIRST)] + [Small(KEPT)])
  {
    hide Agrees, Encode, Append;
    SmallRecord(FIRST);
    SmallRecord(KEPT);
    assert [FIRST][0] != [KEPT][0];
    PutKeeps(c, a, [Small(FIRST)], KEPT);
    assert [Small(FIRST)] + [Small(KEPT)] == [Small(FIRST), Small(KEPT)];
  }

  lemma {:induction false} FirstFront(c: Config, a: Ideal, recs: seq<Payload>, c1: Config, a1: Ideal)
    requires BothQueued(c, a, recs) && c1 == Step(c, Front) && a1 == IdealStep(a, Front)
    ensures Allowed(c, a, Front) && FirstDelivered(c1, a1, recs)
  {
    FrontKeeps(c, a, recs);
    assert [Small(FIRST), Small(KEPT)][1..] == [Small(KEPT)];
  }

  lemma {:induction false} SecondFront(c: Config, a: Ideal, recs: seq<Payload>, c1: Config, a1: Ideal)
    requires FirstDelivered(c, a, recs) && c1 == Step(c, Front) && a1 == IdealStep(a, Front)
    ensures Allowed(c, a, Front) && BothDelivered(c1, a1, recs)
  {
    hide Agrees, Indexed, Allowed;
    SizedIndexed(c, a, recs);
    FrontKeeps(c, a, recs);
    SizedIndexed(c1, a1, recs);
    assert [Small(FIRST)] + [Small(KEPT)] == [Small(FIRST), Small(KEPT)];
    SmallId(FIRST);
    SmallId(KEPT);
    BothWait(c1.store, a1, Small(FIRST), Small(KEPT));
    FrontWaits(c.store, a);
  }

  lemma {:induction false} SizedIndexed(c: Config, a: Ideal, recs: seq<Payload>)
    requires Sized(c, a, recs)
    ensures Indexed(c.store, a)
  {
  }

  lemma {:induction false} BothWait(s: Store, a: Ideal, p: Payload, q: Payload)
    requires Indexed(s, a) && a.waiting == [p, q]
    ensures s.waitack.Keys == {IdOf(p), IdOf(q)} && s.waitack[IdOf(p)].payload == p
  {
    assert a.waiting[0] == p && a.waiting[1] == q;
    assert p in a.waiting && q in a.waiting;
  }

  lemma {:induction false} FirstAck(c: Config, a: Ideal, recs: seq<Payload>, c1: Config, a1: Ideal)
    returns (recs': seq<Payload>)
    requires BothDelivered(c, a, recs) && c1 == Step(c, Ack([FIRST])) && a1 == IdealStep(a, Ack([FIRST]))
    ensures Allowed(c, a, Ack([FIRST])) && Between(c1, a1, recs') && |recs'| == 2
  {
    FirstGone();
    recs' := ClearKeepsSize(c, a, recs, [FIRST]);
    KeptWaits(c.store, ClearStep(c.store, [FIRST]), FIRST);
    assert !Compacts(c.store, [FIRST]);
    assert c.stale - {[FIRST]} == {};
  }

  lemma {:induction false} FirstGone()
    ensures IdealStep(Ideal([Small(FIRST), Small(KEPT)], []), Ack([FIRST])) == Ideal([Small(KEPT)], [])
  {
    var s := [Small(FIRST), Small(KEPT)];
    assert [KEPT][0] != [FIRST][0];
    assert s[1..] == [Small(KEPT)] && s[1..][1..] == [];
    assert Keep(Except([FIRST]), s[1..]) == [Small(KEPT)];
  }

  /** A queue on an empty file: the first message is acknowledged at once, the second only after 1999 others. */
  function LosingRun(): seq<Op> {
    [Put(FIRST)] + ([Put(KEPT)] + ([Front] + ([Front] + ([Ack([FIRST])] + Rounds(1999)))))
  }

  /**
   A run every step of which is allowed, after which acknowledging the one message still held has no effect on
   the file: the message is gone from memory, and a restart delivers it again.
   */
  lemma {:induction false} CompactionLosesAcknowledgement()
    ensures Legal(Opened([]), Intended([]), LosingRun())
    ensures Loses(Run(Opened([]), Intended([]), LosingRun()).store, [KEPT])
  {
    var c0, a0 := Opened([]), Intended([]);
    var c1, a1 := Step(c0, Put(FIRST)), IdealStep(a0, Put(FIRST));
    EmptySized(c0, a0);
    FirstPut(c0, a0, c1, a1);
    AfterFirstPut(c1, a1);
    DoomedEarlier(c0, a0, Put(FIRST), [Put(KEPT)] + ([Front] + ([Front] + ([Ack([FIRST])] + Rounds(1999)))), c1, a1);
  }

  lemma {:induction false} AfterFirstPut(c: Config, a: Ideal)
    requires Sized(c, a, [Small(FIRST)]) && a == Ideal([], [Small(FIRST)]) && |c.store.pending| == 1
    ensures Doomed(c, a, [Put(KEPT)] + ([Front] + ([Front] + ([Ack([FIRST])] + Rounds(1999)))))
  {
    var c1, a1 := Step(c, Put(KEPT)), IdealStep(a, Put(KEPT));
    SecondPut(c, a, c1, a1);
    AfterSecondPut(c1, a1, [Small(FIRST)] + [Small(KEPT)]);
    DoomedEarlier(c, a, Put(KEPT), [Front] + ([Front] + ([Ack([FIRST])] + Rounds(1999))), c1, a1);
  }

  lemma {:induction false} AfterSecondPut(c: Config, a: Ideal, recs: seq<Payload>)
    requires BothQueued(c, a, recs)
    ensures Doomed(c, a, [Front] + ([Front] + ([Ack([FIRST])] + Rounds(1999))))
  {
    var c1, a1 := Step(c, Front), IdealStep(a, Front);
    FirstFront(c, a, recs, c1, a1);
    AfterFirstFront(c1, a1, recs);
    DoomedEarlier(c, a, Front, [Front] + ([Ack([FIRST])] + Rounds(1999)), c1, a1);
  }

  lemma {:induction false} AfterFirstFront(c: Config, a: Ideal, recs: seq<Payload>)
    requires FirstDelivered(c, a, recs)
    ensures Doomed(c, a, [Front] + ([Ack([FIRST])] + Rounds(1999)))
  {
    var c1, a1 := Step(c, Front), IdealStep(a, Front);
    SecondFront(c, a, recs, c1, a1);
    AfterSecondFront(c1, a1, recs);
    DoomedEarlier(c, a, Front, [Ack([FIRST])] + Rounds(1999), c1, a1);
  }

  lemma {:induction false} AfterSecondFront(c: Config, a: Ideal, recs: seq<Payload>)
    requires BothDelivered(c, a, recs)
    ensures Doomed(c, a, [Ack([FIRST])] + Rounds(1999))
  {
    var c1, a1 := Step(c, Ack([FIRST])), IdealStep(a, Ack([FIRST]));
    var recs' := FirstAck(c, a, recs, c1, a1);
    RoundsLose(c1, a1, recs', 1999);
    DoomedEarlier(c, a, Ack([FIRST]), Rounds(1999), c1, a1);
  }
}
