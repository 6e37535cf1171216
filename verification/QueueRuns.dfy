/** Whole runs of one queue, restarts included: the broker's queue against the simple one. */
module QueueRuns {
  import opened Bytes
  import opened PayloadCodec
  import opened Framing
  import opened MessageLog
  import opened QueueStore

  // ---- One step ----

  lemma {:induction false} InsertDurableKeeps(c: Config, a: Ideal, recs: seq<Payload>, p: Payload)
    requires Agrees(c, a, recs) && IdOf(p) !in Ids(All(a))
    requires IsDurable(p) && p.valid == VALID && Storable(p)
    requires |Content(Append(c.store.disk, p).disk.data)| < TWO32
    ensures Agrees(c.(store := InsertStep(c.store, p)), a.(pending := a.pending + [p]), recs + [p])
  {
    var s, r := c.store, Append(c.store.disk, p);
    FileInsert(s.disk, recs, Keep(Durable, All(a)), p);
    IndexedInsert(s, InsertStep(s, p), a, p, r.msg);
    LocatedInsert(s.durable, Table(recs), c.stale, r.msg);
    TableAppend(recs, p);
  }

  lemma {:induction false} InsertKeeps(c: Config, a: Ideal, recs: seq<Payload>, p: Payload)
    returns (recs': seq<Payload>)
    requires Agrees(c, a, recs) && IdOf(p) !in Ids(All(a))
    requires IsDurable(p) ==> p.valid == VALID && Storable(p) && |Content(InsertStep(c.store, p).disk.data)| < TWO32
    ensures Agrees(c.(store := InsertStep(c.store, p)), a.(pending := a.pending + [p]), recs')
  {
    if IsDurable(p) {
      recs' := recs + [p];
      InsertDurableKeeps(c, a, recs, p);
    } else {
      recs' := recs;
      IndexedInsert(c.store, InsertStep(c.store, p), a, p, Msg(p, 0, 0));
    }
  }

  /** The record a delivered, durable, unmoved message stands for, found through its true place. */
  lemma {:induction false} AckedRecord(c: Config, a: Ideal, recs: seq<Payload>, id: Str) returns (i: nat)
    requires Agrees(c, a, recs) && id in c.store.waitack && id !in c.stale
    requires IsDurable(c.store.waitack[id].payload)
    ensures i < |recs| && recs[i].valid == VALID && IdOf(recs[i]) == id
    ensures c.store.waitack[id] == At(recs, i) == Table(recs)[i]
    ensures Distinct(Keep(Live, recs))
  {
    var p :| p in a.waiting && IdOf(p) == id;
    DurableMember(All(a), p);
    i := RecordOf(c.store.disk, recs, Keep(Durable, All(a)), p);
    TableAt(recs, i);
    DistinctKeep(Durable, All(a));
  }

  lemma {:induction false} ClearDurableKeeps(c: Config, a: Ideal, recs: seq<Payload>, id: Str)
    returns (recs': seq<Payload>)
    requires Agrees(c, a, recs) && id in c.store.waitack && id !in c.stale
    requires IsDurable(c.store.waitack[id].payload)
    ensures Agrees(Config(ClearStep(c.store, id), c.stale - {id}), IdealStep(a, Ack(id)), recs')
  {
    var s := c.store;
    var i := AckedRecord(c, a, recs, id);
    recs' := recs[i := Dead(recs[i])];
    FileAck(s.disk, recs, Keep(Durable, All(a)), i);
    AckIdeal(a, id);
    IndexedAck(s, ClearStep(s, id), a, id);
    forall j | 0 <= j < |recs| && j != i && Table(recs)[j].payload.valid == VALID
      ensures MsgId(Table(recs)[j]) != id
    {
      TableAt(recs, j);
      LiveRecordsDiffer(recs, i, j);
    }
    LocatedAck(s.durable, Table(recs), c.stale, i, At(recs', i));
    TableClear(recs, i);
  }

  lemma {:induction false} ClearOtherKeeps(c: Config, a: Ideal, recs: seq<Payload>, id: Str)
    requires Agrees(c, a, recs) && id in c.store.waitack && id !in c.stale
    requires !IsDurable(c.store.waitack[id].payload)
    ensures Agrees(Config(ClearStep(c.store, id), c.stale - {id}), IdealStep(a, Ack(id)), recs)
  {
    WaitingMessage(c.store, a, id);
    AckIdeal(a, id);
    IndexedAck(c.store, ClearStep(c.store, id), a, id);
    AckedUndurable(a, id, c.store.waitack[id].payload);
  }

  lemma {:induction false} ClearKeeps(c: Config, a: Ideal, recs: seq<Payload>, id: Str) returns (recs': seq<Payload>)
    requires Agrees(c, a, recs) && id in c.store.waitack && id !in c.stale
    ensures Agrees(Config(ClearStep(c.store, id), c.stale - {id}), IdealStep(a, Ack(id)), recs')
  {
    if IsDurable(c.store.waitack[id].payload) {
      recs' := ClearDurableKeeps(c, a, recs, id);
    } else {
      recs' := recs;
      ClearOtherKeeps(c, a, recs, id);
    }
  }

  lemma {:induction false} CompactKeeps(c: Config, a: Ideal, recs: seq<Payload>)
    requires Agrees(c, a, recs)
    ensures Agrees(Compacted(c), a, Keep(Durable, All(a)))
  {
    var live := Keep(Durable, All(a));
    FileCollect(c.store.disk, recs, live);
    DurableCount(c.store, a);
    DistinctKeep(Durable, All(a));
    TableIds(live);
    forall k | 0 <= k < |live| ensures NotBefore(c.store.durable, Table(live)[k]) {
      CompactedPlace(c.store.durable, c.stale, recs, live, k);
    }
    LocatedMoved(c.store.durable, Table(live));
  }

  lemma {:induction false} CompactedPlace(durable: map<Str, Msg>, stale: set<Str>, recs: seq<Payload>,
                                          live: seq<Payload>, k: nat)
    requires Located(durable, Table(recs), stale) && live == Keep(Live, recs) && Distinct(live)
    requires k < |live| && (forall i :: 0 <= i < |recs| ==> Record(recs[i]))
    ensures NotBefore(durable, Table(live)[k])
  {
    KeepMember(Live, recs, live[k]);
    var i :| 0 <= i < |recs| && recs[i] == live[k];
    var k' := PlaceKept(recs, i);
    assert k' == k;
    TableAt(live, k);
    TableAt(recs, i);
  }

  lemma {:induction false} LocatedMoved(durable: map<Str, Msg>, table: seq<Msg>)
    requires forall i :: 0 <= i < |table| ==> NotBefore(durable, table[i])
    requires forall i, j :: 0 <= i < j < |table| ==> MsgId(table[i]) != MsgId(table[j])
    ensures Located(durable, table, Moved(durable, table))
  {
    forall k | 0 <= k < |table|
      ensures MsgId(table[k]) in Moved(durable, table) <==> durable[MsgId(table[k])] != table[k]
    {
      MovedAt(durable, table, k);
    }
  }

  lemma {:induction false} RecoveredStore(d: Disk, recs: seq<Payload>, live: seq<Payload>)
    requires Filed(d, recs, live)
    ensures var s := Recovered(d);
            && Filed(s.disk, live, live)
            && s.pending == Table(live) && Carry(s.pending, live)
            && s.durable == AddAll(map[], s.pending) && s.waitack == map[] && s.total == |s.durable|
    ensures Keep(Durable, live) == live
  {
    FileCollect(d, recs, live);
    forall p | p in live ensures IsDurable(p) {
      KeepMember(Live, recs, p);
    }
    KeepAll(Durable, live);
    TableCarries(live);
  }

  lemma {:induction false} TableCarries(live: seq<Payload>)
    ensures Carry(Table(live), live)
  {
    forall i | 0 <= i < |live| ensures Table(live)[i].payload == live[i] {
      TableAt(live, i);
    }
  }

  /** A process that starts on a well-formed file holds exactly the live messages, each with its true place. */
  lemma {:induction false} RecoveryAgrees(d: Disk, recs: seq<Payload>, live: seq<Payload>)
    requires Filed(d, recs, live) && Distinct(live)
    ensures Agrees(Config(Recovered(d), {}), Ideal([], live), live)
  {
    var s, a := Recovered(d), Ideal([], live);
    RecoveredStore(d, recs, live);
    IndexedRestart(s, a);
    IndexKeys(s.pending, live);
    LocatedAll(s.durable, Table(live));
  }

  lemma {:induction false} LocatedAll(durable: map<Str, Msg>, table: seq<Msg>)
    requires forall i :: 0 <= i < |table| ==> MsgId(table[i]) in durable && durable[MsgId(table[i])] == table[i]
    ensures Located(durable, table, {})
  {
  }

  lemma {:induction false} RestartKeeps(c: Config, a: Ideal, recs: seq<Payload>)
    requires Agrees(c, a, recs)
    ensures var live := Keep(Durable, All(a));
            Agrees(Config(Recovered(c.store.disk), {}), Ideal([], live), live)
  {
    DistinctKeep(Durable, All(a));
    RecoveryAgrees(c.store.disk, recs, Keep(Durable, All(a)));
  }

  lemma {:induction false} AckKeeps(c: Config, a: Ideal, recs: seq<Payload>, id: Str) returns (recs': seq<Payload>)
    requires Agrees(c, a, recs) && id in c.store.waitack && id !in c.stale
    ensures var cleared := Config(ClearStep(c.store, id), c.stale - {id});
            Agrees(if Compacts(c.store, id) then Compacted(cleared) else cleared, IdealStep(a, Ack(id)), recs')
  {
    recs' := ClearKeeps(c, a, recs, id);
    if Compacts(c.store, id) {
      var a' := IdealStep(a, Ack(id));
      CompactKeeps(Config(ClearStep(c.store, id), c.stale - {id}), a', recs');
      recs' := Keep(Durable, All(a'));
    }
  }

  lemma {:induction false} StepKeeps(c: Config, a: Ideal, recs: seq<Payload>, op: Op) returns (recs': seq<Payload>)
    requires Agrees(c, a, recs) && Allowed(c, a, op)
    ensures Agrees(Step(c, op), IdealStep(a, op), recs')
  {
    match op
    case Insert(given, body, durableQueue, minted) =>
      recs' := InsertKeeps(c, a, recs, Built(given, body, durableQueue, minted));
    case Front =>
      recs' := recs;
      IndexedFront(c.store, a);
    case Ack(id) =>
      recs' := AckKeeps(c, a, recs, id);
    case Restart =>
      recs' := Keep(Durable, All(a));
      RestartKeeps(c, a, recs);
  }

  // ---- Runs ----

  predicate Legal(c: Config, a: Ideal, ops: seq<Op>)
    decreases |ops|
  {
    ops == [] || (Allowed(c, a, ops[0]) && Legal(Step(c, ops[0]), IdealStep(a, ops[0]), ops[1..]))
  }

  function Run(c: Config, a: Ideal, ops: seq<Op>): Config
    requires Legal(c, a, ops)
    decreases |ops|
  {
    if ops == [] then c else Run(Step(c, ops[0]), IdealStep(a, ops[0]), ops[1..])
  }

  function IdealRun(a: Ideal, ops: seq<Op>): Ideal
    decreases |ops|
  {
    if ops == [] then a else IdealRun(IdealStep(a, ops[0]), ops[1..])
  }

  lemma {:induction false} RunKeeps(c: Config, a: Ideal, recs: seq<Payload>, ops: seq<Op>) returns (recs': seq<Payload>)
    requires Agrees(c, a, recs) && Legal(c, a, ops)
    ensures Agrees(Run(c, a, ops), IdealRun(a, ops), recs')
    decreases |ops|
  {
    recs' := recs;
    if ops != [] {
      recs' := StepKeeps(c, a, recs, ops[0]);
      recs' := RunKeeps(Step(c, ops[0]), IdealStep(a, ops[0]), recs', ops[1..]);
    }
  }

  /** A well-formed data file to start from: an empty file for a new queue, or what an earlier process left. */
  ghost predicate Startable(recs: seq<Payload>) {
    && (forall i :: 0 <= i < |recs| ==> Record(recs[i]))
    && |Layout(recs)| < TWO32
    && Distinct(Keep(Live, recs))
  }

  function Opened(recs: seq<Payload>): Config {
    Config(Recovered(Disk(Some(Layout(recs)), None)), {})
  }

  function Intended(recs: seq<Payload>): Ideal {
    Ideal([], Keep(Live, recs))
  }

  lemma {:induction false} Reached(recs: seq<Payload>, ops: seq<Op>) returns (recs': seq<Payload>)
    requires Startable(recs) && Legal(Opened(recs), Intended(recs), ops)
    ensures Agrees(Run(Opened(recs), Intended(recs), ops), IdealRun(Intended(recs), ops), recs')
  {
    RecoveryAgrees(Disk(Some(Layout(recs)), None), recs, Keep(Live, recs));
    recs' := RunKeeps(Opened(recs), Intended(recs), Keep(Live, recs), ops);
  }

  lemma {:induction false} AgreedRecovery(c: Config, a: Ideal, recs: seq<Payload>)
    requires Agrees(c, a, recs)
    ensures c.store.disk.data.Some?
    ensures Load(c.store.disk.data.value) == Loaded(true, Keep(Durable, All(a)))
    ensures Carry(Recovered(c.store.disk).pending, Keep(Durable, All(a)))
  {
    FiledLoads(c.store.disk, recs, Keep(Durable, All(a)));
    RestartKeeps(c, a, recs);
  }

  /**
   After any run, crashes and restarts included, the broker holds the messages of the simple queue in its
   order, the file loads to the durable messages not yet acknowledged in insertion order, and a restart at
   that point rebuilds exactly that queue.
   */
  lemma {:induction false} CrashRecovery(recs: seq<Payload>, ops: seq<Op>)
    requires Startable(recs) && Legal(Opened(recs), Intended(recs), ops)
    ensures var s := Run(Opened(recs), Intended(recs), ops).store;
            var a := IdealRun(Intended(recs), ops);
            && Carry(s.pending, a.pending)
            && s.waitack.Keys == Ids(a.waiting)
            && (forall p :: p in a.waiting ==> s.waitack[IdOf(p)].payload == p)
            && s.disk.data.Some? && Load(s.disk.data.value) == Loaded(true, Keep(Durable, All(a)))
            && Carry(Recovered(s.disk).pending, Keep(Durable, All(a)))
  {
    var recs' := Reached(recs, ops);
    AgreedRecovery(Run(Opened(recs), Intended(recs), ops), IdealRun(Intended(recs), ops), recs');
  }

  /** The record of an unmoved durable message lies where the message says, in a file of `file` bytes. */
  ghost predicate Delimits(m: Msg, file: seq<byte>) {
    && HEADER <= m.offset && m.offset + m.length <= |file|
    && file[m.offset..m.offset + m.length] == Encode(m.payload)
    && file[m.offset - HEADER..m.offset] == LittleEndian(m.length, HEADER)
  }

  lemma {:induction false} RecordDelimited(recs: seq<Payload>, i: nat, m: Msg)
    requires i < |recs| && m == At(recs, i)
    ensures Delimits(m, Layout(recs))
  {
    hide Encode;
    FrameAt(Bodies(recs), i);
    BodiesAt(recs, i);
  }

  lemma {:induction false} AgreedPlace(c: Config, a: Ideal, recs: seq<Payload>, id: Str) returns (i: nat)
    requires Agrees(c, a, recs) && id in c.store.durable && id !in c.stale
    ensures i < |recs| && recs[i].valid == VALID && IdOf(recs[i]) == id
    ensures c.store.durable[id] == At(recs, i)
  {
    var live := Keep(Durable, All(a));
    var p :| p in live && IdOf(p) == id;
    i := RecordOf(c.store.disk, recs, live, p);
    TableAt(recs, i);
  }

  /** In every reached state an unmoved durable message has the place of its own record in the file. */
  lemma {:induction false} OffsetsDelimitRecords(recs: seq<Payload>, ops: seq<Op>, id: Str)
    requires Startable(recs) && Legal(Opened(recs), Intended(recs), ops)
    requires var c := Run(Opened(recs), Intended(recs), ops);
             id in c.store.durable && id !in c.stale
    ensures var s := Run(Opened(recs), Intended(recs), ops).store;
            MsgId(s.durable[id]) == id && Delimits(s.durable[id], Content(s.disk.data))
  {
    var recs' := Reached(recs, ops);
    var i := AgreedPlace(Run(Opened(recs), Intended(recs), ops), IdealRun(Intended(recs), ops), recs', id);
    RecordDelimited(recs', i, At(recs', i));
  }

  /** Record `i` lies in the file, header and body, next to the records before and after it. */
  ghost predicate Tiled(file: seq<byte>, recs: seq<Payload>, i: nat)
    requires i < |recs|
  {
    var start, size := BodyOffset(recs, i), |Encode(recs[i])|;
    && HEADER <= start && start + size <= |file|
    && file[start - HEADER..start] == LittleEndian(size, HEADER) && file[start..start + size] == Encode(recs[i])
    && (i == 0 ==> start == HEADER)
    && (if i + 1 < |recs| then BodyOffset(recs, i + 1) == start + size + HEADER else start + size == |file|)
  }

  lemma {:induction false} RecordTiled(recs: seq<Payload>, i: nat)
    requires i < |recs|
    ensures Tiled(Layout(recs), recs, i)
  {
    hide Encode;
    BodiesAt(recs, i);
    FramesTile(Bodies(recs), i);
  }

  lemma {:induction false} RecordsDisjoint(recs: seq<Payload>, i: nat, j: nat)
    requires i < j < |recs|
    ensures BodyOffset(recs, i) + |Encode(recs[i])| + HEADER <= BodyOffset(recs, j)
  {
    BodiesAt(recs, i);
    FramesDisjoint(Bodies(recs), i, j);
  }

  /**
   In every reached state the data file is tiled by as many records as the counter says, no two overlapping,
   and there is no temporary file.
   */
  lemma {:induction false} RecordsTileFile(recs: seq<Payload>, ops: seq<Op>) returns (recs': seq<Payload>)
    requires Startable(recs) && Legal(Opened(recs), Intended(recs), ops)
    ensures var s := Run(Opened(recs), Intended(recs), ops).store;
            && s.total == |recs'| && s.disk.data.Some? && s.disk.tmp == None
            && (forall i :: 0 <= i < |recs'| ==> Tiled(s.disk.data.value, recs', i))
            && (forall i, j :: 0 <= i < j < |recs'| ==>
                  BodyOffset(recs', i) + |Encode(recs'[i])| + HEADER <= BodyOffset(recs', j))
            && (recs' == [] ==> s.disk.data.value == [])
  {
    recs' := Reached(recs, ops);
    forall i | 0 <= i < |recs'| ensures Tiled(Layout(recs'), recs', i) {
      RecordTiled(recs', i);
    }
    forall i, j | 0 <= i < j < |recs'|
      ensures BodyOffset(recs', i) + |Encode(recs'[i])| + HEADER <= BodyOffset(recs', j)
    {
      RecordsDisjoint(recs', i, j);
    }
  }

  lemma {:induction false} ClearChangesOneByte(recs: seq<Payload>, i: nat, m: Msg, file: seq<byte>, after: Disk)
    requires i < |recs| && recs[i].valid == VALID && m == At(recs, i) && file == Layout(recs)
    requires after == Clear(Disk(Some(file), None), m)
    ensures Delimits(m, file) && m.length >= 1
    ensures OneByteDiffers(file, Content(after.data), m.offset + m.length - 1, 49, 48)
  {
    hide Encode;
    RecordDelimited(recs, i, m);
    ClearInLog(recs, i);
    ClearBody(recs, i, recs[i := Dead(recs[i])]);
    var last := ClearRecordChangesOneByte(recs, i, recs[i := Dead(recs[i])]);
  }

  lemma {:induction false} AckedRecordOf(c: Config, a: Ideal, recs: seq<Payload>, id: Str) returns (i: nat)
    requires Agrees(c, a, recs) && id in c.store.waitack && id !in c.stale && IsDurable(c.store.waitack[id].payload)
    ensures i < |recs| && recs[i].valid == VALID && c.store.waitack[id] == At(recs, i)
    ensures c.store.disk == Disk(Some(Layout(recs)), None)
    ensures ClearStep(c.store, id).disk == Clear(c.store.disk, c.store.waitack[id])
  {
    i := AckedRecord(c, a, recs, id);
  }

  lemma {:induction false} AckedByte(c: Config, a: Ideal, recs: seq<Payload>, id: Str)
    requires Agrees(c, a, recs) && id in c.store.waitack && id !in c.stale && IsDurable(c.store.waitack[id].payload)
    ensures var m, file := c.store.waitack[id], Content(c.store.disk.data);
            && Delimits(m, file)
            && OneByteDiffers(file, Content(ClearStep(c.store, id).disk.data), m.offset + m.length - 1, 49, 48)
  {
    hide Encode, ClearStep, OneByteDiffers;
    var i := AckedRecordOf(c, a, recs, id);
    ClearChangesOneByte(recs, i, c.store.waitack[id], c.store.disk.data.value, ClearStep(c.store, id).disk);
  }

  /**
   In every reached state the acknowledgement of an unmoved durable message changes one byte of the file, the
   last one of its own record, before it decides about compaction.
   */
  lemma {:induction false} AckChangesOneByte(recs: seq<Payload>, ops: seq<Op>, id: Str)
    requires Startable(recs) && Legal(Opened(recs), Intended(recs), ops)
    requires var c := Run(Opened(recs), Intended(recs), ops);
             id in c.store.waitack && id !in c.stale && IsDurable(c.store.waitack[id].payload)
    ensures var s := Run(Opened(recs), Intended(recs), ops).store;
            var m := s.waitack[id];
            && Delimits(m, Content(s.disk.data))
            && OneByteDiffers(Content(s.disk.data), Content(ClearStep(s, id).disk.data),
                              m.offset + m.length - 1, 49, 48)
  {
    hide Agrees, Run, Opened, Intended, ClearStep, Delimits, OneByteDiffers;
    var c, a := Run(Opened(recs), Intended(recs), ops), IdealRun(Intended(recs), ops);
    var recs' := Reached(recs, ops);
    AckedByte(c, a, recs', id);
  }

  // ---- Compaction and places ----

  lemma {:induction false} LayoutSize(recs: seq<Payload>)
    requires recs != []
    ensures |Layout(recs)| == HEADER + |Encode(recs[0])| + |Layout(recs[1..])|
  {
    LayoutFirst(recs);
  }

  /** Dropping messages shortens a file unless there was nothing to drop. */
  lemma {:induction false} KeepSameSize(k: Sieve, recs: seq<Payload>)
    ensures |Layout(Keep(k, recs))| == |Layout(recs)| <==> Keep(k, recs) == recs
  {
    if recs != [] {
      LayoutSize(recs);
      if Passes(k, recs[0]) {
        var kept := Keep(k, recs);
        assert kept[1..] == Keep(k, recs[1..]);
        LayoutSize(kept);
        KeepSameSize(k, recs[1..]);
        assert recs == [recs[0]] + recs[1..];
      } else {
        KeepShrinks(k, recs[1..]);
        assert Keep(k, recs) == Keep(k, recs[1..]);
      }
    }
  }

  lemma {:induction false} PlaceAfter(front: seq<Payload>, p: Payload, back: seq<Payload>, recs: seq<Payload>)
    requires recs == front + ([p] + back)
    ensures At(recs, |front|) == Msg(p, |Layout(front)| + HEADER, |Encode(p)|)
  {
    BodiesConcat(front, [p] + back);
    TakeAll(Bodies(front), Bodies([p] + back));
    BodiesAt(recs, |front|);
  }

  lemma {:induction false} TakeAll(a: seq<Str>, b: seq<Str>)
    ensures (a + b)[..|a|] == a
  {
  }

  lemma {:induction false} KeepNotLonger(k: Sieve, recs: seq<Payload>)
    ensures |Layout(Keep(k, recs))| <= |Layout(recs)|
  {
    if recs != [] {
      LayoutSize(recs);
      KeepNotLonger(k, recs[1..]);
      if Passes(k, recs[0]) {
        var kept := Keep(k, recs);
        assert kept[1..] == Keep(k, recs[1..]);
        LayoutSize(kept);
      } else {
        assert Keep(k, recs) == Keep(k, recs[1..]);
      }
    }
  }

  /**
   Compaction moves a live record towards the front or not at all, and not at all exactly when every record
   before it is live.
   */
  lemma {:induction false} PlaceKept(recs: seq<Payload>, i: nat) returns (k: nat)
    requires i < |recs| && recs[i].valid == VALID
    ensures k < |Keep(Live, recs)| && Keep(Live, recs)[k] == recs[i]
    ensures At(Keep(Live, recs), k).offset <= At(recs, i).offset
    ensures At(recs, i).(offset := At(Keep(Live, recs), k).offset) == At(Keep(Live, recs), k)
    ensures At(Keep(Live, recs), k) == At(recs, i) <==> forall j :: 0 <= j < i ==> recs[j].valid != INVALID
  {
    var front, p, back := recs[..i], recs[i], recs[i + 1..];
    var kept := Keep(Live, front);
    assert recs == front + ([p] + back);
    KeepAround(Live, front, p, back);
    k := |kept|;
    PlaceAfter(front, p, back, recs);
    PlaceAfter(kept, p, Keep(Live, back), Keep(Live, recs));
    KeepNotLonger(Live, front);
    KeepSameSize(Live, front);
    AllLive(front);
  }

  /** Some acknowledged record comes before the live record of `id`. */
  ghost predicate DeadBefore(recs: seq<Payload>, id: Str) {
    exists i, j :: 0 <= j < i < |recs| && recs[i].valid == VALID && IdOf(recs[i]) == id && recs[j].valid == INVALID
  }

  /**
   Compaction leaves a wrong place in memory for exactly those live messages that had one already or had an
   acknowledged record before them in the file.
   */
  lemma {:induction false} CompactionMoves(c: Config, a: Ideal, recs: seq<Payload>, i: nat)
    requires Agrees(c, a, recs) && i < |recs| && recs[i].valid == VALID
    ensures IdOf(recs[i]) in Compacted(c).stale <==>
              IdOf(recs[i]) in c.stale || exists j :: 0 <= j < i && recs[j].valid == INVALID
  {
    var live := Keep(Durable, All(a));
    var k := PlaceKept(recs, i);
    FileCollect(c.store.disk, recs, live);
    DistinctKeep(Durable, All(a));
    TableIds(live);
    TableAt(live, k);
    TableAt(recs, i);
    MovedAt(c.store.durable, Table(live), k);
  }

  lemma {:induction false} LiveRecord(c: Config, a: Ideal, recs: seq<Payload>, id: Str) returns (i: nat)
    requires Agrees(c, a, recs) && id in c.store.durable
    ensures i < |recs| && recs[i].valid == VALID && IdOf(recs[i]) == id
  {
    var p :| p in Keep(Durable, All(a)) && IdOf(p) == id;
    i := RecordOf(c.store.disk, recs, Keep(Durable, All(a)), p);
  }

  lemma {:induction false} OneLiveRecord(recs: seq<Payload>, i: nat, i': nat)
    requires i < |recs| && i' < |recs| && Distinct(Keep(Live, recs)) && IdOf(recs[i]) == IdOf(recs[i'])
    requires recs[i].valid == VALID && recs[i'].valid == VALID
    ensures i == i'
  {
    if i != i' {
      LiveRecordsDiffer(recs, i, i');
    }
  }

  lemma {:induction false} CompactionMovesIff(c: Config, a: Ideal, recs: seq<Payload>, id: Str)
    requires Agrees(c, a, recs)
    ensures id in Compacted(c).stale <==> id in c.stale || DeadBefore(recs, id)
  {
    DistinctKeep(Durable, All(a));
    CompactKeeps(c, a, recs);
    if id in c.store.durable {
      var i := LiveRecord(c, a, recs, id);
      CompactionMoves(c, a, recs, i);
      forall i', j | 0 <= j < i' < |recs| && recs[i'].valid == VALID && IdOf(recs[i']) == id && recs[j].valid == INVALID
        ensures i' == i
      {
        OneLiveRecord(recs, i, i');
      }
    } else if DeadBefore(recs, id) {
      NotDurableNotLive(c, a, recs, id);
    }
  }

  lemma {:induction false} NotDurableNotLive(c: Config, a: Ideal, recs: seq<Payload>, id: Str)
    requires Agrees(c, a, recs) && id !in c.store.durable
    ensures forall i :: 0 <= i < |recs| && recs[i].valid == VALID ==> IdOf(recs[i]) != id
  {
    forall i | 0 <= i < |recs| && recs[i].valid == VALID ensures IdOf(recs[i]) != id {
      KeepMember(Live, recs, recs[i]);
    }
  }

  lemma {:induction false} AllLive(recs: seq<Payload>)
    ensures Keep(Live, recs) == recs <==> forall j :: 0 <= j < |recs| ==> recs[j].valid != INVALID
  {
    if Keep(Live, recs) == recs {
      forall j | 0 <= j < |recs| ensures recs[j].valid != INVALID {
        KeepMember(Live, recs, recs[j]);
      }
    }
    if forall j :: 0 <= j < |recs| ==> recs[j].valid != INVALID {
      KeepAll(Live, recs);
    }
  }

  lemma {:induction false} MovedAt(durable: map<Str, Msg>, table: seq<Msg>, k: nat)
    requires k < |table| && MsgId(table[k]) in durable
    requires forall i, j :: 0 <= i < j < |table| ==> MsgId(table[i]) != MsgId(table[j])
    ensures MsgId(table[k]) in Moved(durable, table) <==> durable[MsgId(table[k])] != table[k]
  {
  }

  lemma {:induction false} TableIds(live: seq<Payload>)
    requires Distinct(live)
    ensures forall i, j :: 0 <= i < j < |live| ==> MsgId(Table(live)[i]) != MsgId(Table(live)[j])
  {
    var table := Table(live);
    forall i | 0 <= i < |live| ensures table[i].payload == live[i] {
      TableAt(live, i);
    }
  }

  /**
   Acknowledging a message whose place lies behind its record clears that record no more: the message leaves
   memory, and a restart delivers it again.
   */
  lemma {:induction false} MovedAckIsLost(c: Config, a: Ideal, recs: seq<Payload>, n: nat, id: Str)
    requires Agrees(c, a, recs) && id in c.store.waitack
    requires IsDurable(c.store.waitack[id].payload)
    requires n <= |recs| && id in Ids(Keep(Live, recs[..n]))
    requires c.store.waitack[id].offset >= |Layout(recs[..n])|
    ensures var after := ClearStep(c.store, id);
            && id !in after.durable && id !in after.waitack
            && after.disk.data.Some?
            && Keep(Live, recs[..n]) <= Load(after.disk.data.value).msgs
            && id in Ids(Load(after.disk.data.value).msgs)
  {
    var p :| p in Keep(Live, recs[..n]) && IdOf(p) == id;
    RecordsSound(recs);
    ClearAfter(recs, n, c.store.waitack[id]);
    PrefixIds(Keep(Live, recs[..n]), Load(ClearStep(c.store, id).disk.data.value).msgs, p);
  }

  lemma {:induction false} PrefixIds(live: seq<Payload>, loaded: seq<Payload>, p: Payload)
    requires live <= loaded && p in live
    ensures IdOf(p) in Ids(loaded)
  {
    var i :| 0 <= i < |live| && live[i] == p;
    assert loaded[i] == p;
  }

  /** Where record `i` ends in the compacted file. */
  lemma {:induction false} CompactedEnd(recs: seq<Payload>, i: nat) returns (n: nat)
    requires i < |recs| && recs[i].valid == VALID
    ensures n <= |Keep(Live, recs)| && recs[i] in Keep(Live, recs)[..n]
    ensures |Layout(Keep(Live, recs)[..n])| == |Layout(Keep(Live, recs[..i]))| + HEADER + |Encode(recs[i])|
  {
    var front, p, back := recs[..i], recs[i], recs[i + 1..];
    var kept := Keep(Live, front);
    assert recs == front + ([p] + back);
    KeepAround(Live, front, p, back);
    n := |kept| + 1;
    assert Keep(Live, recs)[..n] == kept + [p];
    LayoutAppend(kept, p);
    assert (kept + [p])[|kept|] == p;
  }

  /**
   So it goes, after compaction, for every delivered message that had at least as many bytes of acknowledged
   records before its record as that record has itself.
   */
  lemma {:induction false} CompactionLosesAck(c: Config, a: Ideal, recs: seq<Payload>, i: nat)
    requires Agrees(c, a, recs)
    requires i < |recs| && recs[i].valid == VALID && IdOf(recs[i]) in c.store.waitack
    requires |Layout(recs[..i])| >= |Layout(Keep(Live, recs[..i]))| + |Encode(recs[i])|
    ensures var after := ClearStep(Compacted(c).store, IdOf(recs[i]));
            && IdOf(recs[i]) !in after.durable && IdOf(recs[i]) !in after.waitack
            && after.disk.data.Some? && IdOf(recs[i]) in Ids(Load(after.disk.data.value).msgs)
  {
    var live, id := Keep(Live, recs), IdOf(recs[i]);
    var n := CompactedEnd(recs, i);
    WaitingPlace(c, a, recs, i);
    CompactKeeps(c, a, recs);
    LiveAgain(recs, n, recs[i]);
    MovedAckIsLost(Compacted(c), a, live, n, id);
  }

  /** A delivered message has the place of its record or one behind it. */
  lemma {:induction false} WaitingPlace(c: Config, a: Ideal, recs: seq<Payload>, i: nat)
    requires Agrees(c, a, recs)
    requires i < |recs| && recs[i].valid == VALID && IdOf(recs[i]) in c.store.waitack
    ensures IsDurable(c.store.waitack[IdOf(recs[i])].payload)
    ensures c.store.waitack[IdOf(recs[i])].offset >= |Layout(recs[..i])| + HEADER
  {
    WaitingRecord(c, a, recs, i);
    TablePlace(recs, i);
  }

  lemma {:induction false} TablePlace(recs: seq<Payload>, i: nat)
    requires i < |recs|
    ensures Table(recs)[i].offset == |Layout(recs[..i])| + HEADER
  {
    TableAt(recs, i);
    StartAfter(recs, i);
  }

  lemma {:induction false} WaitingRecord(c: Config, a: Ideal, recs: seq<Payload>, i: nat)
    requires Agrees(c, a, recs)
    requires i < |recs| && recs[i].valid == VALID && IdOf(recs[i]) in c.store.waitack
    ensures c.store.waitack[IdOf(recs[i])].payload == recs[i] && IsDurable(recs[i])
    ensures var m := c.store.waitack[IdOf(recs[i])];
            m == Table(recs)[i].(offset := m.offset) && m.offset >= Table(recs)[i].offset
  {
    TableAt(recs, i);
    SamePayload(c.store, a, recs, recs[i]);
  }

  lemma {:induction false} SamePayload(s: Store, a: Ideal, recs: seq<Payload>, p: Payload)
    requires Indexed(s, a) && Keep(Live, recs) == Keep(Durable, All(a))
    requires p in recs && p.valid == VALID && IdOf(p) in s.waitack
    ensures s.waitack[IdOf(p)].payload == p && IsDurable(p)
  {
    WaitingMessage(s, a, IdOf(p));
    KeepMember(Live, recs, p);
    DurableMember(All(a), p);
    SameIdSame(All(a), p, s.waitack[IdOf(p)].payload);
  }

  lemma {:induction false} LiveAgain(recs: seq<Payload>, n: nat, p: Payload)
    requires n <= |Keep(Live, recs)| && p in Keep(Live, recs)[..n]
    ensures IdOf(p) in Ids(Keep(Live, Keep(Live, recs)[..n]))
  {
    var front := Keep(Live, recs)[..n];
    forall q | q in front ensures Passes(Live, q) {
      KeepMember(Live, recs, q);
    }
    KeepAll(Live, front);
  }

  /** What the scan makes of a record's bytes: nothing when they are flagged "0". */
  function Seen(body: Str): seq<Payload> {
    if Parse(body).value.valid == INVALID then [] else [Parse(body).value]
  }

  lemma {:induction false} LoadFrame(body: Str, rest: seq<byte>)
    requires |body| < TWO64
    ensures Load(Frame(body) + rest) == Loaded(Load(rest).ok, Seen(body) + Load(rest).msgs)
  {
    UnframeFrame(body, rest);
    assert ([body] + Unframe(rest).bodies)[1..] == Unframe(rest).bodies;
  }

  lemma {:induction false} LoadDamaged(front: seq<Payload>, body: Str, rest: seq<byte>)
    requires AllSound(front) && |body| < TWO64
    ensures Load(Layout(front) + (Frame(body) + rest))
            == Loaded(Load(rest).ok, Keep(Live, front) + (Seen(body) + Load(rest).msgs))
  {
    LoadLayout(front, Frame(body) + rest);
    LoadFrame(body, rest);
  }

  lemma {:induction false} LayoutAround(recs: seq<Payload>, i: nat)
    requires i < |recs|
    ensures Layout(recs) == Layout(recs[..i]) + (Frame(Encode(recs[i])) + Layout(recs[i + 1..]))
  {
    var p, back := recs[i], recs[i + 1..];
    assert recs == recs[..i] + ([p] + back);
    LayoutConcat(recs[..i], [p] + back);
    LayoutFirst([p] + back);
    assert ([p] + back)[1..] == back;
  }

  /** Clearing a record `d` bytes behind its start, with `d` less than its length. */
  lemma {:induction false} ClearTooFar(recs: seq<Payload>, i: nat, m: Msg, d: nat)
    requires AllSound(recs) && i < |recs| && recs[i].valid == VALID
    requires m == At(recs, i).(offset := BodyOffset(recs, i) + d) && d <= |Encode(recs[i])|
    ensures var body, dead := Encode(recs[i]), Encode(Dead(recs[i]));
            && |dead| == |body|
            && Clear(Disk(Some(Layout(recs)), None), m).data
               == Some(Layout(recs[..i])
                       + (Frame(Shifted(body, dead, d)) + (dead[|body| - d..] + After(Layout(recs[i + 1..]), d))))
  {
    hide Encode;
    ClearingFlagChangesLastByte(recs[i]);
    BodiesAt(recs, i);
    StartAfter(recs, i);
    LayoutAround(recs, i);
    WrittenTooFar(Layout(recs[..i]), Encode(recs[i]), Layout(recs[i + 1..]), Encode(Dead(recs[i])), d);
  }

  lemma {:induction false} PrefixSound(recs: seq<Payload>, i: nat)
    requires AllSound(recs) && i < |recs|
    ensures AllSound(recs[..i]) && Sound(recs[i])
  {
  }

  lemma {:induction false} InsideFile(c: Config, a: Ideal, recs: seq<Payload>, i: nat, d: nat)
    requires Agrees(c, a, recs) && i < |recs| && recs[i].valid == VALID && IdOf(recs[i]) in c.store.waitack
    requires c.store.waitack[IdOf(recs[i])].offset == BodyOffset(recs, i) + d
    ensures AllSound(recs) && c.store.waitack[IdOf(recs[i])] == At(recs, i).(offset := BodyOffset(recs, i) + d)
    ensures ClearStep(c.store, IdOf(recs[i])).disk
            == Clear(Disk(Some(Layout(recs)), None), c.store.waitack[IdOf(recs[i])])
  {
    WaitingRecord(c, a, recs, i);
    TableAt(recs, i);
    RecordsSound(recs);
  }

  lemma {:induction false} LoadTooFar(recs: seq<Payload>, i: nat, d: nat, body: Str, dead: Str)
    requires i < |recs| && AllSound(recs[..i])
    requires |dead| == |body| && d <= |body| < TWO64
    ensures var rest := dead[|body| - d..] + After(Layout(recs[i + 1..]), d);
            Load(Layout(recs[..i]) + (Frame(Shifted(body, dead, d)) + rest))
            == Loaded(Load(rest).ok, Keep(Live, recs[..i]) + (Seen(Shifted(body, dead, d)) + Load(rest).msgs))
  {
    LoadDamaged(recs[..i], Shifted(body, dead, d), dead[|body| - d..] + After(Layout(recs[i + 1..]), d));
  }

  /**
   Acknowledging a message whose place lies inside its record, `d` bytes behind its start: the scan still
   meets the records before it; then a record of the same length with the first `d` bytes as they were and
   the rest from the cleared form; then it goes on with the last `d` bytes of the cleared form in place of
   the first `d` bytes of what followed.
   */
  lemma {:induction false} AckInsideRecord(c: Config, a: Ideal, recs: seq<Payload>, i: nat, d: nat)
    requires Agrees(c, a, recs) && i < |recs| && recs[i].valid == VALID && IdOf(recs[i]) in c.store.waitack
    requires c.store.waitack[IdOf(recs[i])].offset == BodyOffset(recs, i) + d && d <= |Encode(recs[i])|
    ensures var body, dead := Encode(recs[i]), Encode(Dead(recs[i]));
            var rest := dead[|body| - d..] + After(Layout(recs[i + 1..]), d);
            var after := ClearStep(c.store, IdOf(recs[i])).disk.data;
            && |dead| == |body|
            && after == Some(Layout(recs[..i]) + (Frame(Shifted(body, dead, d)) + rest))
            && Load(after.value)
               == Loaded(Load(rest).ok, Keep(Live, recs[..i]) + (Seen(Shifted(body, dead, d)) + Load(rest).msgs))
  {
    hide Encode, Agrees, ClearStep;
    InsideFile(c, a, recs, i, d);
    ClearTooFar(recs, i, c.store.waitack[IdOf(recs[i])], d);
    PrefixSound(recs, i);
    LoadTooFar(recs, i, d, Encode(recs[i]), Encode(Dead(recs[i])));
  }

  // ---- Which messages compaction has moved, over whole runs ----

  lemma {:induction false} RecordsOfLayout(recs: seq<Payload>)
    requires AllSound(recs)
    ensures Records(Layout(recs)) == recs
  {
    LayoutBodies(recs);
    ParsedBodies(recs);
  }

  lemma {:induction false} ParsedBodies(recs: seq<Payload>)
    requires AllSound(recs)
    ensures ParsedAll(Bodies(recs)) == recs
  {
    if recs != [] {
      var first, rest := Encode(recs[0]), Bodies(recs[1..]);
      PayloadRoundTrip(recs[0]);
      ParsedBodies(recs[1..]);
      assert ([first] + rest)[1..] == rest;
      assert recs == [recs[0]] + recs[1..];
    }
  }

  /** This operation compacts a file in which an acknowledged record comes before the live record of `id`. */
  ghost predicate CompactsPast(c: Config, op: Op, id: Str)
    requires op.Ack? ==> op.id in c.store.waitack
  {
    && op.Ack? && Compacts(c.store, op.id)
    && DeadBefore(Records(Content(ClearStep(c.store, op.id).disk.data)), id)
  }

  predicate NoRestart(ops: seq<Op>) {
    forall j :: 0 <= j < |ops| ==> !ops[j].Restart?
  }

  /** Some compaction of the run went past an acknowledged record before that of `id`, and no restart came after it. */
  ghost predicate MovedInRun(c: Config, a: Ideal, ops: seq<Op>, id: Str)
    requires Legal(c, a, ops)
    decreases |ops|
  {
    && ops != []
    && ((CompactsPast(c, ops[0], id) && NoRestart(ops[1..]))
        || MovedInRun(Step(c, ops[0]), IdealStep(a, ops[0]), ops[1..], id))
  }

  lemma {:induction false} AckStale(c: Config, a: Ideal, recs: seq<Payload>, x: Str, id: Str)
    requires Agrees(c, a, recs) && x in c.store.waitack && x !in c.stale
    ensures id in Step(c, Ack(x)).stale <==> id in c.stale || CompactsPast(c, Ack(x), id)
  {
    if Compacts(c.store, x) {
      var cleared := Config(ClearStep(c.store, x), c.stale - {x});
      var recs' := ClearKeeps(c, a, recs, x);
      CompactionMovesIff(cleared, IdealStep(a, Ack(x)), recs', id);
      RecordsSound(recs');
      RecordsOfLayout(recs');
    }
  }

  lemma {:induction false} StaleStep(c: Config, a: Ideal, recs: seq<Payload>, op: Op, id: Str)
    requires Agrees(c, a, recs) && Allowed(c, a, op)
    ensures id in Step(c, op).stale <==>
              (id in c.stale && !op.Restart?) || CompactsPast(c, op, id)
  {
    if op.Ack? {
      AckStale(c, a, recs, op.id, id);
    }
  }

  lemma {:induction false} StaleRun(c: Config, a: Ideal, recs: seq<Payload>, ops: seq<Op>, id: Str)
    requires Agrees(c, a, recs) && Legal(c, a, ops)
    ensures id in Run(c, a, ops).stale <==> (id in c.stale && NoRestart(ops)) || MovedInRun(c, a, ops, id)
    decreases |ops|
  {
    hide Agrees, CompactsPast;
    if ops != [] {
      var op, rest := ops[0], ops[1..];
      var recs' := StepKeeps(c, a, recs, op);
      StaleStep(c, a, recs, op, id);
      StaleRun(Step(c, op), IdealStep(a, op), recs', rest, id);
      NoRestartFirst(op, rest, ops);
    }
  }

  lemma {:induction false} NoRestartFirst(op: Op, rest: seq<Op>, ops: seq<Op>)
    requires ops == [op] + rest
    ensures NoRestart(ops) <==> !op.Restart? && NoRestart(rest)
  {
    if NoRestart(ops) {
      assert ops[0] == op;
      forall j | 0 <= j < |rest| ensures !rest[j].Restart? {
        assert ops[j + 1] == rest[j];
      }
    }
  }

  /**
   In every reached state the messages with a wrong place are exactly those for which some compaction, with
   no restart since, found an acknowledged record before theirs.
   */
  lemma {:induction false} StaleIffMoved(recs: seq<Payload>, ops: seq<Op>, id: Str)
    requires Startable(recs) && Legal(Opened(recs), Intended(recs), ops)
    ensures id in Run(Opened(recs), Intended(recs), ops).stale <==> MovedInRun(Opened(recs), Intended(recs), ops, id)
  {
    RecoveryAgrees(Disk(Some(Layout(recs)), None), recs, Keep(Live, recs));
    StaleRun(Opened(recs), Intended(recs), Keep(Live, recs), ops, id);
  }

  /** And a wrong place it is: behind the record's own, which a message not among them has. */
  lemma {:induction false} StalePlace(c: Config, a: Ideal, recs: seq<Payload>, i: nat)
    requires Agrees(c, a, recs) && i < |recs| && recs[i].valid == VALID
    ensures IdOf(recs[i]) in c.store.durable
    ensures var m := c.store.durable[IdOf(recs[i])];
            && m == At(recs, i).(offset := m.offset)
            && if IdOf(recs[i]) in c.stale then m.offset > BodyOffset(recs, i) else m.offset == BodyOffset(recs, i)
  {
    TableAt(recs, i);
  }
}
