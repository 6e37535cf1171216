/**
 One queue's messages as values: what each operation of `QueueMessage` does to the files, to the counter
 and to the three containers, and the proof that over any run this is the simple queue `Ideal`.
 */
module QueueStore {
  import opened Bytes
  import opened PayloadCodec
  import opened Framing
  import opened MessageLog

  datatype Store = Store(
    disk: Disk,
    total: nat,
    pending: seq<Msg>,
    durable: map<Str, Msg>,
    waitack: map<Str, Msg>)

  // ---- The operations ----

  function MsgId(m: Msg): Str {
    IdOf(m.payload)
  }

  /** The payload `insert` builds; `minted` is the identifier minted when the publisher gave no properties. */
  function Built(given: Option<Properties>, body: Str, durableQueue: bool, minted: Str): Payload {
    var p := match given
      case Some(q) => Properties(q.id, if durableQueue then q.mode else UNDURABLE, q.routingKey)
      case None => Properties(minted, if durableQueue then DURABLE else UNDURABLE, []);
    Payload(Some(p), body, if p.mode == DURABLE then VALID else [])
  }

  /**
   The copy a queue keeps of a publication: body, identifier and routing key as given, or a minted identifier
   and no key; persistent as asked if the queue is durable, or if nothing was asked; flagged "1" if persistent.
   */
  predicate CopyOf(p: Payload, given: Option<Properties>, body: Str, durableQueue: bool, minted: Str) {
    && p.body == body && p.properties.Some?
    && p.properties.value.id == (match given case Some(q) => q.id case None => minted)
    && p.properties.value.routingKey == (match given case Some(q) => q.routingKey case None => [])
    && (!durableQueue ==> p.properties.value.mode == 1)
    && (durableQueue ==> p.properties.value.mode == match given case Some(q) => q.mode case None => 2)
    && (if p.properties.value.mode == 2 then p.valid == [49] else p.valid == [])
  }

  lemma {:induction false} BuiltIsCopy(given: Option<Properties>, body: Str, durableQueue: bool, minted: Str)
    ensures CopyOf(Built(given, body, durableQueue, minted), given, body, durableQueue, minted)
  {
  }

  /** An accepted message comes last; a persistent one is in the file too, and nothing else is. */
  lemma {:induction false} InsertKept(s: Store, p: Payload)
    requires p.properties.Some? && (p.properties.value.mode == 2 ==> s.disk.data.Some?)
    ensures var s' := InsertStep(s, p);
            && |s'.pending| == |s.pending| + 1 && s'.pending[..|s.pending|] == s.pending
            && s'.pending[|s.pending|].payload == p && s'.waitack == s.waitack
            && (p.properties.value.mode != 2 ==> s'.disk == s.disk && s'.durable == s.durable)
            && (p.properties.value.mode == 2 ==>
                  && s'.disk == s.disk.(data := Some(s.disk.data.value + Frame(Encode(p))))
                  && p.properties.value.id in s'.durable)
  {
  }

  /** `unordered_map::insert`: an entry already there stays. */
  function AddNew(index: map<Str, Msg>, m: Msg): map<Str, Msg> {
    if MsgId(m) in index then index else index[MsgId(m) := m]
  }

  function AddAll(index: map<Str, Msg>, ms: seq<Msg>): map<Str, Msg>
    decreases |ms|
  {
    if ms == [] then index else AddAll(AddNew(index, ms[0]), ms[1..])
  }

  function InsertStep(s: Store, p: Payload): Store {
    if IsDurable(p) then
      var r := Append(s.disk, p);
      if !r.ok then s
      else
        s.(disk := r.disk, total := s.total + 1, durable := AddNew(s.durable, r.msg), pending := s.pending + [r.msg])
    else
      s.(pending := s.pending + [Msg(p, 0, 0)])
  }

  function FrontStep(s: Store): Store {
    if s.pending == [] then s
    else s.(pending := s.pending[1..], waitack := AddNew(s.waitack, s.pending[0]))
  }

  /** The garbage test of `remove`, in the integer division of the code. */
  predicate Wasteful(durable: nat, total: nat) {
    total > 2000 && durable * 10 / total < 5
  }

  predicate Compacts(s: Store, id: Str)
    requires id in s.waitack
  {
    IsDurable(s.waitack[id].payload) && Wasteful(|s.durable - {id}|, s.total)
  }

  /** The acknowledged message leaves the containers and, when durable, its record is cleared in the file. */
  function ClearStep(s: Store, id: Str): Store
    requires id in s.waitack
  {
    var m := s.waitack[id];
    if IsDurable(m.payload) then
      s.(disk := Clear(s.disk, m), durable := s.durable - {id}, waitack := s.waitack - {id})
    else
      s.(waitack := s.waitack - {id})
  }

  /** Compaction changes the files and the counter, but none of the messages in memory. */
  function CompactStep(s: Store): Store {
    s.(disk := Collect(s.disk).disk, total := |s.durable|)
  }

  function AckStep(s: Store, id: Str): Store
    requires id in s.waitack
  {
    if Compacts(s, id) then CompactStep(ClearStep(s, id)) else ClearStep(s, id)
  }

  /** `recovery`: the compacted file's messages become the pending ones and are added to the index. */
  function RecoverStep(s: Store): Store {
    var c := Collect(s.disk);
    var durable := AddAll(s.durable, c.msgs);
    Store(c.disk, |durable|, c.msgs, durable, s.waitack)
  }

  /** A queue object just constructed on these files, which creates the data file if it is absent. */
  function NewStore(d: Disk): Store {
    Store(d.(data := Some(Content(d.data))), 0, [], map[], map[])
  }

  /** A new process on these files: the constructor followed by `recovery`. */
  function Recovered(d: Disk): Store {
    RecoverStep(NewStore(d))
  }

  /** `clear`: both files go and the containers are emptied, but the counter is not reset. */
  function ClearedStore(s: Store): Store {
    s.(disk := Disk(None, None), pending := [], durable := map[], waitack := map[])
  }

  // ---- The integer test ----

  /** The division rounds down, yet the test is exact: fewer than half of the records are live. */
  lemma {:induction false} WastefulMeansHalf(durable: nat, total: nat)
    ensures Wasteful(durable, total) <==> total > 2000 && 2 * durable < total
  {
    if total > 2000 {
      var q := durable * 10 / total;
      assert q * total <= durable * 10 < q * total + total;
      if q < 5 {
        assert q * total <= 4 * total;
      } else {
        assert q * total >= 5 * total;
      }
    }
  }

  // ---- The simple queue ----

  /** Delivered but unacknowledged messages, then messages not yet delivered, both in insertion order. */
  datatype Ideal = Ideal(waiting: seq<Payload>, pending: seq<Payload>)

  function All(a: Ideal): seq<Payload> {
    a.waiting + a.pending
  }

  function Ids(s: seq<Payload>): set<Str> {
    set p | p in s :: IdOf(p)
  }

  ghost predicate Distinct(s: seq<Payload>) {
    forall i, j :: 0 <= i < j < |s| ==> IdOf(s[i]) != IdOf(s[j])
  }

  datatype Op =
    | Insert(given: Option<Properties>, body: Str, durableQueue: bool, minted: Str)
    | Front
    | Ack(id: Str)
    | Restart

  function IdealStep(a: Ideal, op: Op): Ideal {
    match op
    case Insert(given, body, durableQueue, minted) =>
      a.(pending := a.pending + [Built(given, body, durableQueue, minted)])
    case Front => if a.pending == [] then a else Ideal(a.waiting + [a.pending[0]], a.pending[1..])
    case Ack(id) => a.(waiting := Keep(Except(id), a.waiting))
    case Restart => Ideal([], Keep(Durable, All(a)))
  }

  // ---- The broker's queue, and which messages compaction has left with a wrong place ----

  datatype Config = Config(store: Store, stale: set<Str>)

  /** Messages whose place in memory is not the one `gc` returned for them. */
  function Moved(durable: map<Str, Msg>, returned: seq<Msg>): set<Str> {
    set m | m in returned && MsgId(m) in durable && durable[MsgId(m)] != m :: MsgId(m)
  }

  function Step(c: Config, op: Op): Config
    requires op.Ack? ==> op.id in c.store.waitack
  {
    match op
    case Insert(given, body, durableQueue, minted) =>
      c.(store := InsertStep(c.store, Built(given, body, durableQueue, minted)))
    case Front => c.(store := FrontStep(c.store))
    case Ack(id) =>
      var cleared := Config(ClearStep(c.store, id), c.stale - {id});
      if Compacts(c.store, id) then Compacted(cleared) else cleared
    case Restart => Config(Recovered(c.store.disk), {})
  }

  function Compacted(c: Config): Config {
    Config(CompactStep(c.store), Moved(c.store.durable, Collect(c.store.disk).msgs))
  }

  lemma {:induction false} StepIsAck(c: Config, id: Str)
    requires id in c.store.waitack
    ensures Step(c, Ack(id)).store == AckStep(c.store, id)
  {
  }

  /**
   What a run needs: identifiers differ from those of messages still held, what is stored can be encoded and
   fits a file below 4 GiB, and an acknowledgement names a delivered message that compaction has not moved.
   */
  predicate Allowed(c: Config, a: Ideal, op: Op) {
    match op
    case Insert(given, body, durableQueue, minted) =>
      var p := Built(given, body, durableQueue, minted);
      && IdOf(p) !in Ids(All(a))
      && (IsDurable(p) ==> Storable(p) && |Content(InsertStep(c.store, p).disk.data)| < TWO32)
    case Front => true
    case Ack(id) => id in c.store.waitack && id !in c.stale
    case Restart => true
  }

  // ---- The invariant ----

  predicate Record(p: Payload) {
    Sound(p) && IsDurable(p) && (p.valid == VALID || p.valid == INVALID)
  }

  /** The data file holds `recs`, whose live ones are `live`, and there is no temporary file. */
  ghost predicate Filed(d: Disk, recs: seq<Payload>, live: seq<Payload>) {
    && d == Disk(Some(Layout(recs)), None)
    && |Layout(recs)| < TWO32
    && (forall i :: 0 <= i < |recs| ==> Record(recs[i]))
    && Keep(Live, recs) == live
  }

  /** The message is indexed with this place or with one behind it. */
  ghost predicate NotBefore(durable: map<Str, Msg>, m: Msg) {
    && MsgId(m) in durable
    && durable[MsgId(m)].(offset := m.offset) == m && durable[MsgId(m)].offset >= m.offset
  }

  /**
   Every live record is indexed with its true place, listed in `table`, or with one behind it if compaction
   has moved the record.
   */
  ghost predicate Located(durable: map<Str, Msg>, table: seq<Msg>, stale: set<Str>) {
    && stale <= durable.Keys
    && (forall i :: 0 <= i < |table| && table[i].payload.valid == VALID ==>
          && NotBefore(durable, table[i])
          && (MsgId(table[i]) in stale <==> durable[MsgId(table[i])] != table[i]))
  }

  /** The payloads of a list of messages are these. */
  ghost predicate Carry(ms: seq<Msg>, ps: seq<Payload>) {
    |ms| == |ps| && forall i :: 0 <= i < |ps| ==> ms[i].payload == ps[i]
  }

  /** `_msgs` and `_waitack_msgs` hold the messages of the simple queue. */
  ghost predicate Holds(s: Store, a: Ideal) {
    && Carry(s.pending, a.pending)
    && s.waitack.Keys == Ids(a.waiting)
    && (forall p :: p in a.waiting ==> s.waitack[IdOf(p)].payload == p)
  }

  /** A durable message is the very entry that `_durable_msgs` has for it. */
  ghost predicate Shared(s: Store) {
    && (forall id :: id in s.waitack && IsDurable(s.waitack[id].payload) ==>
          id in s.durable && s.durable[id] == s.waitack[id])
    && (forall i :: 0 <= i < |s.pending| && IsDurable(s.pending[i].payload) ==>
          MsgId(s.pending[i]) in s.durable && s.durable[MsgId(s.pending[i])] == s.pending[i])
  }

  ghost predicate Indexed(s: Store, a: Ideal) {
    && Distinct(All(a)) && Holds(s, a) && Shared(s)
    && s.durable.Keys == Ids(Keep(Durable, All(a)))
  }

  ghost predicate Agrees(c: Config, a: Ideal, recs: seq<Payload>) {
    && Indexed(c.store, a)
    && Filed(c.store.disk, recs, Keep(Durable, All(a)))
    && Located(c.store.durable, Table(recs), c.stale)
    && c.store.total == |recs|
  }

  // ---- Files ----

  lemma {:induction false} RecordsSound(recs: seq<Payload>)
    requires forall i :: 0 <= i < |recs| ==> Record(recs[i])
    ensures AllSound(recs)
  {
  }

  /** A restart at this point would load exactly the live records. */
  lemma {:induction false} FiledLoads(d: Disk, recs: seq<Payload>, live: seq<Payload>)
    requires Filed(d, recs, live)
    ensures d.data.Some? && Load(d.data.value) == Loaded(true, live)
  {
    RecordsSound(recs);
    LoadWellFormed(recs);
  }

  lemma {:induction false} LiveAppend(recs: seq<Payload>, p: Payload)
    requires p.valid == VALID
    ensures Keep(Live, recs + [p]) == Keep(Live, recs) + [p]
  {
    KeepAround(Live, recs, p, []);
  }

  lemma {:induction false} FileInsert(d: Disk, recs: seq<Payload>, live: seq<Payload>, p: Payload)
    requires Filed(d, recs, live)
    requires IsDurable(p) && Storable(p) && p.valid == VALID
    requires |Content(Append(d, p).disk.data)| < TWO32
    ensures var r := Append(d, p);
            r.ok && r.msg == At(recs + [p], |recs|) && Filed(r.disk, recs + [p], live + [p])
  {
    var r := Append(d, p);
    AppendToLog(recs, p);
    assert r.disk == Disk(Some(Layout(recs + [p])), None);
    LiveAppend(recs, p);
  }

  lemma {:induction false} LocatedInsert(durable: map<Str, Msg>, table: seq<Msg>, stale: set<Str>, m: Msg)
    requires Located(durable, table, stale) && MsgId(m) !in durable
    ensures Located(AddNew(durable, m), table + [m], stale)
  {
  }

  lemma {:induction false} OthersDiffer(a: seq<Payload>, p: Payload, b: seq<Payload>)
    requires Distinct(a + ([p] + b))
    ensures forall q :: q in a || q in b ==> IdOf(q) != IdOf(p)
  {
    var all := a + ([p] + b);
    assert all[|a|] == p;
    forall i | 0 <= i < |a| ensures IdOf(a[i]) != IdOf(p) {
      assert all[i] == a[i];
    }
    forall i | 0 <= i < |b| ensures IdOf(b[i]) != IdOf(p) {
      assert all[|a| + 1 + i] == b[i];
    }
  }

  lemma {:induction false} WithoutOne(a: seq<Payload>, p: Payload, b: seq<Payload>)
    requires Distinct(a + ([p] + b))
    ensures Keep(Except(IdOf(p)), a + ([p] + b)) == a + b
  {
    var k := Except(IdOf(p));
    OthersDiffer(a, p, b);
    KeepAround(k, a, p, b);
    assert KeepOne(k, p) + Keep(k, b) == Keep(k, b);
    KeepAll(k, a);
    KeepAll(k, b);
  }

  lemma {:induction false} LiveAround(a: seq<Payload>, p: Payload, b: seq<Payload>)
    requires p.valid == VALID
    ensures Keep(Live, a + ([p] + b)) == Keep(Live, a) + ([p] + Keep(Live, b))
    ensures Keep(Live, a + ([Dead(p)] + b)) == Keep(Live, a) + Keep(Live, b)
  {
    KeepAround(Live, a, p, b);
    KeepAround(Live, a, Dead(p), b);
    assert KeepOne(Live, Dead(p)) + Keep(Live, b) == Keep(Live, b);
  }

  lemma {:induction false} KeepUpdated(recs: seq<Payload>, i: nat)
    requires i < |recs| && recs[i].valid == VALID && Distinct(Keep(Live, recs))
    ensures Keep(Live, recs[i := Dead(recs[i])]) == Keep(Except(IdOf(recs[i])), Keep(Live, recs))
  {
    var a, p, b := recs[..i], recs[i], recs[i + 1..];
    assert recs == a + ([p] + b);
    assert recs[i := Dead(p)] == a + ([Dead(p)] + b);
    LiveAround(a, p, b);
    WithoutOne(Keep(Live, a), p, Keep(Live, b));
  }

  /** A delivered durable message is a live record of the file. */
  lemma {:induction false} RecordOf(d: Disk, recs: seq<Payload>, live: seq<Payload>, p: Payload) returns (i: nat)
    requires Filed(d, recs, live) && p in live
    ensures i < |recs| && recs[i] == p && p.valid == VALID
  {
    KeepMember(Live, recs, p);
    i :| 0 <= i < |recs| && recs[i] == p;
    assert Record(recs[i]);
  }

  /** Acknowledging through a true place clears that record and no other. */
  lemma {:induction false} FileAck(d: Disk, recs: seq<Payload>, live: seq<Payload>, i: nat)
    requires Filed(d, recs, live) && Distinct(live)
    requires i < |recs| && recs[i].valid == VALID
    ensures Filed(Clear(d, At(recs, i)), recs[i := Dead(recs[i])], Keep(Except(IdOf(recs[i])), live))
  {
    ClearInLog(recs, i);
    KeepUpdated(recs, i);
    DeadRecord(recs[i]);
  }

  lemma {:induction false} DeadRecord(p: Payload)
    requires Record(p) && p.valid == VALID
    ensures Record(Dead(p))
  {
    ClearingFlagChangesLastByte(p);
  }

  lemma {:induction false} LocatedAck(durable: map<Str, Msg>, table: seq<Msg>, stale: set<Str>, i: nat, dead: Msg)
    requires Located(durable, table, stale) && i < |table|
    requires dead.payload.valid != VALID
    requires forall j :: 0 <= j < |table| && j != i && table[j].payload.valid == VALID ==>
               MsgId(table[j]) != MsgId(table[i])
    ensures Located(durable - {MsgId(table[i])}, table[i := dead], stale - {MsgId(table[i])})
  {
  }

  lemma {:induction false} LiveRecordsDiffer(recs: seq<Payload>, i: nat, j: nat)
    requires i < |recs| && j < |recs| && i != j && Distinct(Keep(Live, recs))
    requires recs[i].valid == VALID && recs[j].valid == VALID
    ensures IdOf(recs[i]) != IdOf(recs[j])
  {
    KeepUpdated(recs, i);
    var recs' := recs[i := Dead(recs[i])];
    KeepMember(Live, recs', recs'[j]);
    KeepMember(Except(IdOf(recs[i])), Keep(Live, recs), recs'[j]);
  }

  lemma {:induction false} FileCollect(d: Disk, recs: seq<Payload>, live: seq<Payload>)
    requires Filed(d, recs, live)
    ensures var c := Collect(d);
            && Filed(c.disk, live, live)
            && c.msgs == Table(live)
  {
    RecordsSound(recs);
    CollectFresh(recs);
    KeepShrinks(Live, recs);
    KeepTwice(Live, recs);
    TablePlaced(live);
    forall i | 0 <= i < |live| ensures Record(live[i]) {
      KeepMember(Live, recs, live[i]);
    }
  }

  // ---- The containers ----

  lemma {:induction false} DistinctKeep(k: Sieve, s: seq<Payload>)
    requires Distinct(s)
    ensures Distinct(Keep(k, s))
  {
    if s != [] {
      var rest := Keep(k, s[1..]);
      DistinctKeep(k, s[1..]);
      forall i | 0 <= i < |rest| ensures IdOf(rest[i]) != IdOf(s[0]) {
        KeepMember(k, s[1..], rest[i]);
      }
    }
  }

  lemma {:induction false} DistinctCount(s: seq<Payload>)
    requires Distinct(s)
    ensures |Ids(s)| == |s|
  {
    if s != [] {
      DistinctCount(s[1..]);
      assert Ids(s) == {IdOf(s[0])} + Ids(s[1..]);
    }
  }

  lemma {:induction false} IdsExcept(id: Str, s: seq<Payload>)
    ensures Ids(Keep(Except(id), s)) == Ids(s) - {id}
  {
    forall p ensures p in Keep(Except(id), s) <==> p in s && IdOf(p) != id {
      KeepMember(Except(id), s, p);
    }
  }

  lemma {:induction false} DurableMember(s: seq<Payload>, p: Payload)
    ensures p in Keep(Durable, s) <==> p in s && IsDurable(p)
  {
    KeepMember(Durable, s, p);
  }

  /** With distinct identifiers the identifier decides the message. */
  lemma {:induction false} SameIdSame(s: seq<Payload>, p: Payload, q: Payload)
    requires Distinct(s) && p in s && q in s && IdOf(p) == IdOf(q)
    ensures p == q
  {
    var i :| 0 <= i < |s| && s[i] == p;
    var j :| 0 <= j < |s| && s[j] == q;
    assert i == j;
  }

  lemma {:induction false} DistinctAppend(s: seq<Payload>, p: Payload)
    requires Distinct(s) && IdOf(p) !in Ids(s)
    ensures Distinct(s + [p]) && IdOf(p) !in Ids(Keep(Durable, s))
    ensures Ids(Keep(Durable, s + [p])) == Ids(Keep(Durable, s)) + Ids(KeepOne(Durable, p))
  {
    forall i | 0 <= i < |s| ensures IdOf(s[i]) != IdOf(p) {
      assert s[i] in s;
    }
    forall q | q in Keep(Durable, s) ensures q in s {
      DurableMember(s, q);
    }
    KeepAround(Durable, s, p, []);
  }

  lemma {:induction false} IndexedInsert(s: Store, s': Store, a: Ideal, p: Payload, m: Msg)
    requires Indexed(s, a) && IdOf(p) !in Ids(All(a)) && m.payload == p
    requires s'.pending == s.pending + [m] && s'.waitack == s.waitack
    requires s'.durable == if IsDurable(p) then AddNew(s.durable, m) else s.durable
    ensures Indexed(s', a.(pending := a.pending + [p]))
    ensures Keep(Durable, All(a.(pending := a.pending + [p]))) == Keep(Durable, All(a)) + KeepOne(Durable, p)
    ensures IdOf(p) !in s.durable
  {
    hide Keep;
    var a' := a.(pending := a.pending + [p]);
    DistinctAppend(All(a), p);
    assert All(a') == All(a) + [p] by {
      Assoc(a.waiting, a.pending, [p]);
    }
    assert Keep(Durable, All(a) + [p]) == Keep(Durable, All(a)) + KeepOne(Durable, p) by {
      KeepAround(Durable, All(a), p, []);
    }
    assert Holds(s', a');
    assert Shared(s');
  }

  lemma {:induction false} FrontIdeal(a: Ideal)
    requires a.pending != []
    ensures var a' := IdealStep(a, Front);
            All(a') == All(a) && Ids(a'.waiting) == Ids(a.waiting) + {IdOf(a.pending[0])}
    ensures Distinct(All(a)) ==> IdOf(a.pending[0]) !in Ids(a.waiting)
  {
    Assoc(a.waiting, [a.pending[0]], a.pending[1..]);
    assert [a.pending[0]] + a.pending[1..] == a.pending;
    if Distinct(All(a)) {
      OthersDiffer(a.waiting, a.pending[0], a.pending[1..]);
    }
  }

  lemma {:induction false} FrontWaits(s: Store, a: Ideal)
    requires Indexed(s, a) && a.pending != []
    ensures s.pending != [] && s.pending[0].payload == a.pending[0] && IdOf(a.pending[0]) !in s.waitack
    ensures FrontStep(s).waitack == s.waitack[IdOf(a.pending[0]) := s.pending[0]]
  {
    FrontIdeal(a);
  }

  lemma {:induction false} IndexedFront(s: Store, a: Ideal)
    requires Indexed(s, a)
    ensures Indexed(FrontStep(s), IdealStep(a, Front)) && All(IdealStep(a, Front)) == All(a)
  {
    if s.pending != [] {
      var a', s' := IdealStep(a, Front), FrontStep(s);
      FrontIdeal(a);
      assert s'.waitack == s.waitack[IdOf(a.pending[0]) := s.pending[0]];
      assert Holds(s', a');
      assert Shared(s');
    }
  }

  lemma {:induction false} PendingOthers(a: Ideal, p: Payload)
    requires Distinct(All(a)) && p in a.waiting
    ensures forall q :: q in a.pending ==> IdOf(q) != IdOf(p)
  {
    var i :| 0 <= i < |a.waiting| && a.waiting[i] == p;
    assert All(a)[i] == p;
    forall j | 0 <= j < |a.pending| ensures IdOf(a.pending[j]) != IdOf(p) {
      assert All(a)[|a.waiting| + j] == a.pending[j];
    }
  }

  lemma {:induction false} AckIdeal(a: Ideal, id: Str)
    requires Distinct(All(a)) && id in Ids(a.waiting)
    ensures var a' := IdealStep(a, Ack(id));
            && All(a') == Keep(Except(id), All(a))
            && Keep(Durable, All(a')) == Keep(Except(id), Keep(Durable, All(a)))
            && Distinct(All(a'))
  {
    var p :| p in a.waiting && IdOf(p) == id;
    PendingOthers(a, p);
    KeepConcat(Except(id), a.waiting, a.pending);
    KeepAll(Except(id), a.pending);
    KeepCommutes(Durable, Except(id), All(a));
    DistinctKeep(Except(id), All(a));
  }

  lemma {:induction false} AckHolds(s: Store, s': Store, a: Ideal, id: Str)
    requires Holds(s, a) && s'.pending == s.pending && s'.waitack == s.waitack - {id}
    ensures Holds(s', IdealStep(a, Ack(id)))
  {
    var waiting' := Keep(Except(id), a.waiting);
    IdsExcept(id, a.waiting);
    forall p | p in waiting' ensures p in a.waiting && IdOf(p) != id {
      KeepMember(Except(id), a.waiting, p);
    }
  }

  lemma {:induction false} AckShared(s: Store, s': Store, a: Ideal, id: Str)
    requires Holds(s, a) && Shared(s) && Distinct(All(a)) && id in s.waitack
    requires s'.pending == s.pending && s'.waitack == s.waitack - {id}
    requires s'.durable == s.durable - {id} || s'.durable == s.durable
    ensures Shared(s')
  {
    AckIdeal(a, id);
    forall i | 0 <= i < |s.pending| ensures MsgId(s.pending[i]) != id {
      assert a.pending[i] in Keep(Except(id), All(a));
      KeepMember(Except(id), All(a), a.pending[i]);
    }
  }

  lemma {:induction false} WaitingMessage(s: Store, a: Ideal, id: Str)
    requires Holds(s, a) && id in s.waitack
    ensures s.waitack[id].payload in a.waiting && MsgId(s.waitack[id]) == id
  {
    var q :| q in a.waiting && IdOf(q) == id;
  }

  lemma {:induction false} IndexedAck(s: Store, s': Store, a: Ideal, id: Str)
    requires Indexed(s, a) && id in s.waitack
    requires s'.pending == s.pending && s'.waitack == s.waitack - {id}
    requires s'.durable == if IsDurable(s.waitack[id].payload) then s.durable - {id} else s.durable
    ensures Indexed(s', IdealStep(a, Ack(id)))
  {
    var p := s.waitack[id].payload;
    AckIdeal(a, id);
    AckHolds(s, s', a, id);
    AckShared(s, s', a, id);
    WaitingMessage(s, a, id);
    IdsExcept(id, Keep(Durable, All(a)));
    if !IsDurable(p) {
      AckedUndurable(a, id, p);
    }
  }

  /** Acknowledging a non-durable message leaves the durable ones as they were. */
  lemma {:induction false} AckedUndurable(a: Ideal, id: Str, p: Payload)
    requires Distinct(All(a)) && p in a.waiting && IdOf(p) == id && !IsDurable(p)
    ensures Keep(Except(id), Keep(Durable, All(a))) == Keep(Durable, All(a))
  {
    forall q | q in Keep(Durable, All(a)) ensures IdOf(q) != id {
      DurableMember(All(a), q);
      if IdOf(q) == id {
        SameIdSame(All(a), p, q);
      }
    }
    KeepAll(Except(id), Keep(Durable, All(a)));
  }

  /** The first message of an identifier stays, of those indexed and of those added. */
  lemma {:induction false} AddAllFirst(index: map<Str, Msg>, ms: seq<Msg>, i: nat)
    requires i < |ms| && forall j :: 0 <= j < i ==> MsgId(ms[j]) != MsgId(ms[i])
    ensures var id := MsgId(ms[i]);
            id in AddAll(index, ms) && AddAll(index, ms)[id] == if id in index then index[id] else ms[i]
    decreases |ms|
  {
    var index' := AddNew(index, ms[0]);
    if i == 0 {
      AddAllKeeps(index', ms[1..], MsgId(ms[0]));
    } else {
      assert ms[1..][i - 1] == ms[i] && MsgId(ms[0]) != MsgId(ms[i]);
      AddAllFirst(index', ms[1..], i - 1);
    }
  }

  lemma {:induction false} AddAllKeeps(index: map<Str, Msg>, ms: seq<Msg>, id: Str)
    requires id in index
    ensures id in AddAll(index, ms) && AddAll(index, ms)[id] == index[id]
    decreases |ms|
  {
    if ms != [] {
      AddAllKeeps(AddNew(index, ms[0]), ms[1..], id);
    }
  }

  lemma {:induction false} AddAllDistinct(index: map<Str, Msg>, ms: seq<Msg>)
    requires forall i, j :: 0 <= i < j < |ms| ==> MsgId(ms[i]) != MsgId(ms[j])
    requires forall i :: 0 <= i < |ms| ==> MsgId(ms[i]) !in index
    ensures forall i :: 0 <= i < |ms| ==> MsgId(ms[i]) in AddAll(index, ms) && AddAll(index, ms)[MsgId(ms[i])] == ms[i]
    ensures forall id :: id in index ==> id in AddAll(index, ms) && AddAll(index, ms)[id] == index[id]
    ensures forall id :: id in AddAll(index, ms) ==> id in index || exists i :: 0 <= i < |ms| && MsgId(ms[i]) == id
    decreases |ms|
  {
    if ms != [] {
      var index' := AddNew(index, ms[0]);
      AddAllDistinct(index', ms[1..]);
      assert AddAll(index, ms) == AddAll(index', ms[1..]);
      forall i | 0 <= i < |ms|
        ensures MsgId(ms[i]) in AddAll(index, ms) && AddAll(index, ms)[MsgId(ms[i])] == ms[i]
      {
        if i > 0 {
          assert ms[i] == ms[1..][i - 1];
        }
      }
      forall id | id in AddAll(index', ms[1..]) && id !in index
        ensures exists i :: 0 <= i < |ms| && MsgId(ms[i]) == id
      {
        if id in index' {
          assert MsgId(ms[0]) == id;
        } else {
          var i :| 0 <= i < |ms[1..]| && MsgId(ms[1..][i]) == id;
          assert MsgId(ms[i + 1]) == id;
        }
      }
    }
  }

  lemma {:induction false} IndexKeys(ms: seq<Msg>, live: seq<Payload>)
    requires Carry(ms, live) && Distinct(live)
    ensures AddAll(map[], ms).Keys == Ids(live)
    ensures forall i :: 0 <= i < |ms| ==> MsgId(ms[i]) in AddAll(map[], ms) && AddAll(map[], ms)[MsgId(ms[i])] == ms[i]
  {
    var index := AddAll(map[], ms);
    AddAllDistinct(map[], ms);
    forall id | id in index ensures id in Ids(live) {
      var i :| 0 <= i < |ms| && MsgId(ms[i]) == id;
      assert live[i] in live;
    }
    forall p | p in live ensures IdOf(p) in index {
      var i :| 0 <= i < |live| && live[i] == p;
      assert MsgId(ms[i]) in index;
    }
  }

  lemma {:induction false} IndexedRestart(s: Store, a: Ideal)
    requires a.waiting == [] && Carry(s.pending, a.pending)
    requires Distinct(a.pending) && Keep(Durable, a.pending) == a.pending
    requires s.durable == AddAll(map[], s.pending) && s.waitack == map[]
    ensures Indexed(s, a) && |s.durable| == |a.pending| && All(a) == a.pending
  {
    assert All(a) == a.pending;
    IndexKeys(s.pending, a.pending);
    DistinctCount(a.pending);
    assert Holds(s, a);
    RestartShared(s);
  }

  lemma {:induction false} RestartShared(s: Store)
    requires s.waitack == map[]
    requires forall i :: 0 <= i < |s.pending| ==>
               MsgId(s.pending[i]) in s.durable && s.durable[MsgId(s.pending[i])] == s.pending[i]
    ensures Shared(s)
  {
  }

  lemma {:induction false} DurableCount(s: Store, a: Ideal)
    requires Indexed(s, a)
    ensures |s.durable| == |Keep(Durable, All(a))|
  {
    DistinctKeep(Durable, All(a));
    DistinctCount(Keep(Durable, All(a)));
  }
}
