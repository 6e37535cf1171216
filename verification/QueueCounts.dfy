/** Counting over runs of one queue: how many dead records a file keeps, and where every message ends up. */
module QueueCounts {
  import opened Bytes
  import opened PayloadCodec
  import opened MessageLog
  import opened QueueStore
  import opened QueueRuns

  // ---- Space ----

  /** Records counted but no longer live number at most 2000 or as many as the live ones. */
  predicate Bounded(s: Store) {
    s.total <= |s.durable| + 2000 || s.total <= 2 * |s.durable|
  }

  /** What one server lifetime demands: new identifiers, and acknowledgements of delivered messages only. */
  predicate InLifetime(s: Store, a: Ideal, op: Op) {
    match op
    case Insert(given, body, durableQueue, minted) => IdOf(Built(given, body, durableQueue, minted)) !in Ids(All(a))
    case Front => true
    case Ack(id) => id in s.waitack
    case Restart => false
  }

  lemma {:induction false} AckIndexed(s: Store, a: Ideal, id: Str)
    requires Indexed(s, a) && id in s.waitack
    ensures Indexed(AckStep(s, id), IdealStep(a, Ack(id)))
    ensures IsDurable(s.waitack[id].payload) ==> id in s.durable
  {
    var cleared := ClearStep(s, id);
    if Compacts(s, id) {
      IndexedAck(s, CompactStep(cleared), a, id);
    } else {
      IndexedAck(s, cleared, a, id);
    }
  }

  lemma {:induction false} ClearBounded(s: Store, id: Str)
    requires Bounded(s) && id in s.waitack
    requires IsDurable(s.waitack[id].payload) ==> id in s.durable
    ensures Bounded(AckStep(s, id))
  {
    var left := s.durable - {id};
    WastefulMeansHalf(|left|, s.total);
    if IsDurable(s.waitack[id].payload) {
      assert s.durable.Keys == left.Keys + {id};
      assert AckStep(s, id).durable == left;
    }
  }

  lemma {:induction false} InsertBounded(s: Store, s': Store, a: Ideal, p: Payload, m: Msg)
    requires Indexed(s, a) && Bounded(s) && IdOf(p) !in Ids(All(a)) && m.payload == p
    requires s'.pending == s.pending + [m] && s'.waitack == s.waitack
    requires s'.durable == if IsDurable(p) then AddNew(s.durable, m) else s.durable
    requires s'.total == if IsDurable(p) then s.total + 1 else s.total
    ensures Bounded(s') && Indexed(s', a.(pending := a.pending + [p]))
  {
    IndexedInsert(s, s', a, p, m);
    if IsDurable(p) {
      AddNewCount(s.durable, m);
    }
  }

  lemma {:induction false} AddNewCount(index: map<Str, Msg>, m: Msg)
    requires MsgId(m) !in index
    ensures |AddNew(index, m)| == |index| + 1
  {
    assert AddNew(index, m).Keys == index.Keys + {MsgId(m)};
  }

  ghost predicate Counted(s: Store, a: Ideal) {
    Indexed(s, a) && Bounded(s) && s.disk.data.Some?
  }

  lemma {:induction false} InsertCounted(s: Store, a: Ideal, p: Payload)
    requires Counted(s, a) && IdOf(p) !in Ids(All(a))
    ensures Counted(InsertStep(s, p), a.(pending := a.pending + [p]))
  {
    var m := if IsDurable(p) then Append(s.disk, p).msg else Msg(p, 0, 0);
    InsertBounded(s, InsertStep(s, p), a, p, m);
  }

  lemma {:induction false} FrontCounted(s: Store, a: Ideal)
    requires Counted(s, a)
    ensures Counted(FrontStep(s), IdealStep(a, Front))
  {
    IndexedFront(s, a);
  }

  lemma {:induction false} AckCounted(s: Store, a: Ideal, id: Str)
    requires Counted(s, a) && id in s.waitack
    ensures Counted(AckStep(s, id), IdealStep(a, Ack(id)))
  {
    AckIndexed(s, a, id);
    ClearBounded(s, id);
    assert ClearStep(s, id).disk.data.Some?;
  }

  lemma {:induction false} StepBounded(c: Config, a: Ideal, op: Op)
    requires Counted(c.store, a) && InLifetime(c.store, a, op)
    ensures Counted(Step(c, op).store, IdealStep(a, op))
  {
    match op
    case Insert(given, body, durableQueue, minted) =>
      InsertCounted(c.store, a, Built(given, body, durableQueue, minted));
    case Front =>
      FrontCounted(c.store, a);
    case Ack(id) =>
      StepIsAck(c, id);
      AckCounted(c.store, a, id);
  }

  predicate Lifetime(c: Config, a: Ideal, ops: seq<Op>)
    decreases |ops|
  {
    ops == []
    || (InLifetime(c.store, a, ops[0]) && Lifetime(Step(c, ops[0]), IdealStep(a, ops[0]), ops[1..]))
  }

  /** No restart, and acknowledgements of delivered messages only, of whatever identifiers. */
  predicate Serves(c: Config, ops: seq<Op>)
    decreases |ops|
  {
    ops == []
    || (!ops[0].Restart? && (ops[0].Ack? ==> ops[0].id in c.store.waitack) && Serves(Step(c, ops[0]), ops[1..]))
  }

  function After(c: Config, ops: seq<Op>): Config
    requires Serves(c, ops)
    decreases |ops|
  {
    if ops == [] then c else After(Step(c, ops[0]), ops[1..])
  }

  /**
   In every state a server lifetime reaches, acknowledgements through wrong places included, the counter
   exceeds the number of unacknowledged durable messages by at most 2000 or by that number.
   */
  lemma {:induction false} SpaceBound(c: Config, a: Ideal, ops: seq<Op>)
    requires Counted(c.store, a) && Lifetime(c, a, ops)
    ensures Serves(c, ops) && Counted(After(c, ops).store, IdealRun(a, ops))
    decreases |ops|
  {
    if ops != [] {
      StepBounded(c, a, ops[0]);
      SpaceBound(Step(c, ops[0]), IdealStep(a, ops[0]), ops[1..]);
    }
  }

  lemma {:induction false} FileStep(c: Config, a: Ideal, recs: seq<Payload>, op: Op) returns (recs': seq<Payload>)
    requires Agrees(c, a, recs) && Allowed(c, a, op) && Bounded(c.store)
    ensures Agrees(Step(c, op), IdealStep(a, op), recs') && Bounded(Step(c, op).store)
  {
    recs' := StepKeeps(c, a, recs, op);
    if op.Restart? {
      DurableCount(Step(c, op).store, IdealStep(a, op));
    } else {
      StepBounded(c, a, op);
    }
  }

  lemma {:induction false} FileRun(c: Config, a: Ideal, recs: seq<Payload>, ops: seq<Op>) returns (recs': seq<Payload>)
    requires Agrees(c, a, recs) && Legal(c, a, ops) && Bounded(c.store)
    ensures Agrees(Run(c, a, ops), IdealRun(a, ops), recs') && Bounded(Run(c, a, ops).store)
    decreases |ops|
  {
    recs' := recs;
    if ops != [] {
      recs' := FileStep(c, a, recs, ops[0]);
      recs' := FileRun(Step(c, ops[0]), IdealStep(a, ops[0]), recs', ops[1..]);
    }
  }

  /** The file itself: over any run it holds at most 2000 dead records, or as many as live ones. */
  lemma {:induction false} FileBound(recs: seq<Payload>, ops: seq<Op>) returns (recs': seq<Payload>)
    requires Startable(recs) && Legal(Opened(recs), Intended(recs), ops)
    ensures var live := |Keep(Live, recs')|;
            && Run(Opened(recs), Intended(recs), ops).store.disk == Disk(Some(Layout(recs')), None)
            && (|recs'| - live <= 2000 || |recs'| - live <= live)
  {
    RecoveryAgrees(Disk(Some(Layout(recs)), None), recs, Keep(Live, recs));
    DurableCount(Opened(recs).store, Intended(recs));
    recs' := FileRun(Opened(recs), Intended(recs), Keep(Live, recs), ops);
    DurableCount(Run(Opened(recs), Intended(recs), ops).store, IdealRun(Intended(recs), ops));
  }

  // ---- What is handed out and acknowledged ----

  function Payloads(ms: seq<Msg>): (ps: seq<Payload>)
    ensures |ps| == |ms| && forall i :: 0 <= i < |ms| ==> ps[i] == ms[i].payload
  {
    if ms == [] then [] else [ms[0].payload] + Payloads(ms[1..])
  }

  lemma {:induction false} PayloadsConcat(a: seq<Msg>, b: seq<Msg>)
    ensures Payloads(a + b) == Payloads(a) + Payloads(b)
  {
    forall i | 0 <= i < |a + b| ensures Payloads(a + b)[i] == (Payloads(a) + Payloads(b))[i] {
    }
  }

  function InsertedBy(op: Op): seq<Payload> {
    match op
    case Insert(given, body, durableQueue, minted) => [Built(given, body, durableQueue, minted)]
    case _ => []
  }

  /** The message an operation adds; a durable one is refused when the data file is absent. */
  function AcceptedBy(s: Store, op: Op): seq<Payload> {
    match op
    case Insert(given, body, durableQueue, minted) =>
      var p := Built(given, body, durableQueue, minted);
      if IsDurable(p) && s.disk.data == None then [] else [p]
    case _ => []
  }

  function HandedBy(s: Store, op: Op): seq<Payload> {
    if op.Front? && s.pending != [] then [s.pending[0].payload] else []
  }

  function AckedBy(s: Store, op: Op): seq<Payload> {
    if op.Ack? && op.id in s.waitack then [s.waitack[op.id].payload] else []
  }

  function Accepted(c: Config, ops: seq<Op>): seq<Payload>
    requires Serves(c, ops)
    decreases |ops|
  {
    if ops == [] then [] else AcceptedBy(c.store, ops[0]) + Accepted(Step(c, ops[0]), ops[1..])
  }

  /** The messages `front` takes from the queue, in order. */
  function HandedOut(c: Config, ops: seq<Op>): seq<Payload>
    requires Serves(c, ops)
    decreases |ops|
  {
    if ops == [] then [] else HandedBy(c.store, ops[0]) + HandedOut(Step(c, ops[0]), ops[1..])
  }

  /** The messages `remove` takes from those waiting, in order. */
  function Acknowledged(c: Config, ops: seq<Op>): seq<Payload>
    requires Serves(c, ops)
    decreases |ops|
  {
    if ops == [] then [] else AckedBy(c.store, ops[0]) + Acknowledged(Step(c, ops[0]), ops[1..])
  }

  lemma {:induction false} InsertInOrder(s: Store, p: Payload)
    requires IsDurable(p) ==> s.disk.data.Some?
    ensures Payloads(InsertStep(s, p).pending) == Payloads(s.pending) + [p]
    ensures InsertStep(s, p).waitack == s.waitack
  {
    var m := InsertStep(s, p).pending[|s.pending|];
    assert InsertStep(s, p).pending == s.pending + [m] && m.payload == p;
    PayloadsConcat(s.pending, [m]);
    assert Payloads([m]) == [p];
  }

  lemma {:induction false} StepInOrder(c: Config, op: Op)
    requires !op.Restart? && (op.Ack? ==> op.id in c.store.waitack)
    ensures Payloads(c.store.pending) + AcceptedBy(c.store, op)
            == HandedBy(c.store, op) + Payloads(Step(c, op).store.pending)
  {
    match op
    case Insert(given, body, durableQueue, minted) =>
      if AcceptedBy(c.store, op) != [] {
        InsertInOrder(c.store, Built(given, body, durableQueue, minted));
      }
    case Front =>
    case Ack(id) =>
  }

  /**
   Messages leave the queue in the order in which they entered it: in any state whatsoever, until the next
   restart, whatever the files hold and whatever identifiers the messages have.
   */
  lemma {:induction false} FirstInFirstOut(c: Config, ops: seq<Op>)
    requires Serves(c, ops)
    ensures Payloads(c.store.pending) + Accepted(c, ops) == HandedOut(c, ops) + Payloads(After(c, ops).store.pending)
    decreases |ops|
  {
    if ops != [] {
      var op, rest, c' := ops[0], ops[1..], Step(c, ops[0]);
      StepInOrder(c, op);
      FirstInFirstOut(c', rest);
      OneMoreInOrder(Payloads(c.store.pending), AcceptedBy(c.store, op), HandedBy(c.store, op),
                     Payloads(c'.store.pending), Accepted(c', rest), HandedOut(c', rest),
                     Payloads(After(c', rest).store.pending));
    }
  }

  lemma {:induction false} OneMoreInOrder<T>(before: seq<T>, i: seq<T>, h: seq<T>, mid: seq<T>,
                                             i': seq<T>, h': seq<T>, after: seq<T>)
    requires before + i == h + mid && mid + i' == h' + after
    ensures before + (i + i') == (h + h') + after
  {
    Assoc(before, i, i');
    Assoc(h, mid, i');
    Assoc(h, h', after);
  }

  // ---- Conservation ----

  function Waits(waitack: map<Str, Msg>): set<Payload> {
    set id | id in waitack :: waitack[id].payload
  }

  /** The messages of the two containers, as a bag. */
  function Held(s: Store): multiset<Payload> {
    multiset(Payloads(s.pending)) + multiset(Waits(s.waitack))
  }

  ghost predicate Keyed(waitack: map<Str, Msg>) {
    forall id :: id in waitack ==> MsgId(waitack[id]) == id
  }

  lemma {:induction false} WaitsMore(waitack: map<Str, Msg>, m: Msg)
    requires Keyed(waitack) && MsgId(m) !in waitack
    ensures multiset(Waits(waitack[MsgId(m) := m])) == multiset(Waits(waitack)) + multiset{m.payload}
  {
    assert m.payload !in Waits(waitack);
    var more := waitack[MsgId(m) := m];
    forall p ensures p in Waits(more) <==> p in Waits(waitack) || p == m.payload {
      if p in Waits(waitack) {
        var id :| id in waitack && waitack[id].payload == p;
        assert id in more && more[id].payload == p;
      }
      if p == m.payload {
        assert more[MsgId(m)].payload == p;
      }
    }
    assert Waits(more) == Waits(waitack) + {m.payload};
  }

  lemma {:induction false} WaitsLess(waitack: map<Str, Msg>, id: Str)
    requires Keyed(waitack) && id in waitack
    ensures multiset(Waits(waitack)) == multiset(Waits(waitack - {id})) + multiset{waitack[id].payload}
  {
    var rest := waitack - {id};
    WaitsMore(rest, waitack[id]);
    assert rest[id := waitack[id]] == waitack;
  }

  lemma {:induction false} WaitingKeyed(s: Store, a: Ideal)
    requires Holds(s, a)
    ensures Keyed(s.waitack)
  {
    forall id | id in s.waitack ensures MsgId(s.waitack[id]) == id {
      WaitingMessage(s, a, id);
    }
  }

  lemma {:induction false} IndexedHolds(s: Store, a: Ideal)
    requires Indexed(s, a)
    ensures Holds(s, a) && |a.pending| == |s.pending|
  {
  }

  lemma {:induction false} InsertHeld(s: Store, p: Payload)
    requires IsDurable(p) ==> s.disk.data.Some?
    ensures Held(InsertStep(s, p)) == Held(s) + multiset([p])
  {
    hide InsertStep;
    InsertInOrder(s, p);
  }

  lemma {:induction false} FrontHeld(s: Store, a: Ideal)
    requires Indexed(s, a)
    ensures Held(FrontStep(s)) == Held(s)
  {
    hide Indexed, Holds, Keyed, Waits;
    IndexedHolds(s, a);
    if s.pending != [] {
      FrontWaits(s, a);
      WaitingKeyed(s, a);
      WaitsMore(s.waitack, s.pending[0]);
      assert Payloads(s.pending) == [s.pending[0].payload] + Payloads(s.pending[1..]);
    }
  }

  lemma {:induction false} AckContainers(s: Store, id: Str)
    requires id in s.waitack
    ensures AckStep(s, id).waitack == s.waitack - {id} && AckStep(s, id).pending == s.pending
  {
    hide Clear, Collect;
  }

  lemma {:induction false} AckHeld(s: Store, a: Ideal, id: Str)
    requires Holds(s, a) && id in s.waitack
    ensures Held(s) == Held(AckStep(s, id)) + multiset{s.waitack[id].payload}
  {
    hide AckStep, Holds, Keyed, Waits;
    WaitingKeyed(s, a);
    WaitsLess(s.waitack, id);
    AckContainers(s, id);
  }

  /** Containers that hold the simple queue's messages, over a data file whatever its bytes. */
  ghost predicate Serving(s: Store, a: Ideal) {
    Indexed(s, a) && s.disk.data.Some?
  }

  lemma {:induction false} InsertServing(s: Store, a: Ideal, p: Payload)
    requires Serving(s, a) && IdOf(p) !in Ids(All(a))
    ensures Serving(InsertStep(s, p), a.(pending := a.pending + [p]))
  {
    var m := if IsDurable(p) then Append(s.disk, p).msg else Msg(p, 0, 0);
    IndexedInsert(s, InsertStep(s, p), a, p, m);
  }

  lemma {:induction false} AckServing(s: Store, a: Ideal, id: Str)
    requires Serving(s, a) && id in s.waitack
    ensures Serving(AckStep(s, id), IdealStep(a, Ack(id)))
  {
    AckIndexed(s, a, id);
    assert ClearStep(s, id).disk.data.Some?;
  }

  lemma {:induction false} StepServing(c: Config, a: Ideal, op: Op)
    requires Serving(c.store, a) && InLifetime(c.store, a, op)
    ensures Serving(Step(c, op).store, IdealStep(a, op))
  {
    match op
    case Insert(given, body, durableQueue, minted) =>
      InsertServing(c.store, a, Built(given, body, durableQueue, minted));
    case Front =>
      IndexedFront(c.store, a);
    case Ack(id) =>
      StepIsAck(c, id);
      AckServing(c.store, a, id);
  }

  lemma {:induction false} StepConserves(c: Config, a: Ideal, op: Op)
    requires Serving(c.store, a) && InLifetime(c.store, a, op)
    ensures Held(c.store) + multiset(AcceptedBy(c.store, op))
            == Held(Step(c, op).store) + multiset(AckedBy(c.store, op))
  {
    hide Indexed, Holds, Held, InsertStep, FrontStep, AckStep, ClearStep, CompactStep;
    IndexedHolds(c.store, a);
    match op
    case Insert(given, body, durableQueue, minted) =>
      InsertHeld(c.store, Built(given, body, durableQueue, minted));
    case Front =>
      FrontHeld(c.store, a);
    case Ack(id) =>
      StepIsAck(c, id);
      AckHeld(c.store, a, id);
  }

  lemma {:induction false} Chain<T>(a: multiset<T>, i: multiset<T>, a': multiset<T>, k: multiset<T>,
                                    i': multiset<T>, a'': multiset<T>, k': multiset<T>)
    requires a + i == a' + k && a' + i' == a'' + k'
    ensures a + (i + i') == a'' + (k + k')
  {
    assert a + (i + i') == (a + i) + i' == (a' + k) + i' == (a' + i') + k == (a'' + k') + k;
  }

  /** No identifier is held twice, and each waiting message is found under its own. */
  ghost predicate HeldOnce(s: Store) {
    && Keyed(s.waitack)
    && (forall i :: 0 <= i < |s.pending| ==> MsgId(s.pending[i]) !in s.waitack)
    && (forall i, j :: 0 <= i < j < |s.pending| ==> MsgId(s.pending[i]) != MsgId(s.pending[j]))
  }

  lemma {:induction false} IndexedOnce(s: Store, a: Ideal)
    requires Indexed(s, a)
    ensures HeldOnce(s)
  {
    WaitingKeyed(s, a);
    forall i, id | 0 <= i < |s.pending| && id in s.waitack ensures id != MsgId(s.pending[i]) {
      var j :| 0 <= j < |a.waiting| && IdOf(a.waiting[j]) == id;
      assert All(a)[j] == a.waiting[j] && All(a)[|a.waiting| + i] == a.pending[i];
    }
    forall i, j | 0 <= i < j < |s.pending| ensures MsgId(s.pending[i]) != MsgId(s.pending[j]) {
      assert All(a)[|a.waiting| + i] == a.pending[i] && All(a)[|a.waiting| + j] == a.pending[j];
    }
  }

  /**
   Every message accepted ends in exactly one place: over a server lifetime, acknowledgements through wrong
   places included, what the two containers held plus what was accepted is, as a bag, what they hold at the end
   plus what was acknowledged.
   */
  lemma {:induction false} Conservation(c: Config, a: Ideal, ops: seq<Op>)
    requires Serving(c.store, a) && Lifetime(c, a, ops)
    ensures Serves(c, ops)
    ensures Held(c.store) + multiset(Accepted(c, ops)) == Held(After(c, ops).store) + multiset(Acknowledged(c, ops))
    ensures HeldOnce(c.store) && HeldOnce(After(c, ops).store)
    decreases |ops|
  {
    hide Held, Serving, HeldOnce;
    ServingOnce(c.store, a);
    if ops != [] {
      var op, rest, c', a' := ops[0], ops[1..], Step(c, ops[0]), IdealStep(a, ops[0]);
      StepConserves(c, a, op);
      StepServing(c, a, op);
      Conservation(c', a', rest);
      Chain(Held(c.store), multiset(AcceptedBy(c.store, op)), Held(c'.store), multiset(AckedBy(c.store, op)),
            multiset(Accepted(c', rest)), Held(After(c', rest).store), multiset(Acknowledged(c', rest)));
      assert Accepted(c, ops) == AcceptedBy(c.store, op) + Accepted(c', rest);
      assert Acknowledged(c, ops) == AckedBy(c.store, op) + Acknowledged(c', rest);
    }
  }

  lemma {:induction false} ServingOnce(s: Store, a: Ideal)
    requires Serving(s, a)
    ensures HeldOnce(s)
  {
    IndexedOnce(s, a);
  }

  /** Until the next restart a run is such a lifetime. */
  lemma {:induction false} LegalLifetime(c: Config, a: Ideal, ops: seq<Op>)
    requires Legal(c, a, ops) && NoRestart(ops)
    ensures Lifetime(c, a, ops) && Serves(c, ops) && After(c, ops) == Run(c, a, ops)
    decreases |ops|
  {
    if ops != [] {
      assert !ops[0].Restart?;
      NoRestartFirst(ops[0], ops[1..], ops);
      LegalLifetime(Step(c, ops[0]), IdealStep(a, ops[0]), ops[1..]);
    }
  }

  /** Every state that a run with restarts reaches is one to start such a lifetime from. */
  lemma {:induction false} ReachedCounted(recs: seq<Payload>, ops: seq<Op>)
    requires Startable(recs) && Legal(Opened(recs), Intended(recs), ops)
    ensures var s, a := Run(Opened(recs), Intended(recs), ops).store, IdealRun(Intended(recs), ops);
            Counted(s, a) && Serving(s, a)
  {
    RecoveryAgrees(Disk(Some(Layout(recs)), None), recs, Keep(Live, recs));
    DurableCount(Opened(recs).store, Intended(recs));
    var recs' := FileRun(Opened(recs), Intended(recs), Keep(Live, recs), ops);
  }

  // ---- What survives restarts, told by the operations alone ----

  predicate AckedIn(ops: seq<Op>, id: Str) {
    exists j :: 0 <= j < |ops| && ops[j] == Ack(id)
  }

  /** Those of `held` that no operation acknowledges. */
  function Unacked(held: seq<Payload>, ops: seq<Op>): seq<Payload> {
    if held == [] then []
    else (if AckedIn(ops, IdOf(held[0])) then [] else [held[0]]) + Unacked(held[1..], ops)
  }

  /** The durable messages inserted that no later operation acknowledges, in order of insertion. */
  function Outstanding(ops: seq<Op>): seq<Payload> {
    if ops == [] then [] else Unacked(DurableOf(InsertedBy(ops[0])), ops[1..]) + Outstanding(ops[1..])
  }

  function DurableOf(s: seq<Payload>): seq<Payload> {
    Keep(Durable, s)
  }

  lemma {:induction false} UnackedConcat(x: seq<Payload>, y: seq<Payload>, ops: seq<Op>)
    ensures Unacked(x + y, ops) == Unacked(x, ops) + Unacked(y, ops)
  {
    if x == [] {
      assert x + y == y;
    } else {
      assert (x + y)[1..] == x[1..] + y;
      UnackedConcat(x[1..], y, ops);
    }
  }

  lemma {:induction false} AckedFirst(op: Op, rest: seq<Op>, ops: seq<Op>, id: Str)
    requires ops == [op] + rest
    ensures AckedIn(ops, id) <==> op == Ack(id) || AckedIn(rest, id)
  {
    if AckedIn(rest, id) {
      var j :| 0 <= j < |rest| && rest[j] == Ack(id);
      assert ops[j + 1] == Ack(id);
    }
    if op == Ack(id) {
      assert ops[0] == Ack(id);
    }
  }

  /** An operation that acknowledges nothing changes nothing, and one that does takes its message out. */
  lemma {:induction false} UnackedFirst(held: seq<Payload>, op: Op, rest: seq<Op>, ops: seq<Op>)
    requires ops == [op] + rest
    ensures Unacked(held, ops) == Unacked(if op.Ack? then Keep(Except(op.id), held) else held, rest)
  {
    if held != [] {
      AckedFirst(op, rest, ops, IdOf(held[0]));
      UnackedFirst(held[1..], op, rest, ops);
      if op.Ack? && IdOf(held[0]) != op.id {
        var kept := Keep(Except(op.id), held);
        assert kept == [held[0]] + Keep(Except(op.id), held[1..]);
        assert kept[1..] == Keep(Except(op.id), held[1..]);
      } else if op.Ack? {
        assert Keep(Except(op.id), held) == Keep(Except(op.id), held[1..]);
      }
    }
  }

  lemma {:induction false} StepSurvivors(a: Ideal, op: Op)
    requires Distinct(All(a)) && (op.Ack? ==> op.id in Ids(a.waiting))
    ensures var live := Keep(Durable, All(a));
            Keep(Durable, All(IdealStep(a, op)))
            == (if op.Ack? then Keep(Except(op.id), live) else live) + DurableOf(InsertedBy(op))
  {
    match op
    case Insert(given, body, durableQueue, minted) =>
      var p := Built(given, body, durableQueue, minted);
      Assoc(a.waiting, a.pending, [p]);
      KeepConcat(Durable, All(a), [p]);
    case Front =>
      if a.pending != [] {
        FrontIdeal(a);
      }
    case Ack(id) =>
      AckIdeal(a, id);
    case Restart =>
      KeepTwice(Durable, All(a));
      assert [] + Keep(Durable, All(a)) == Keep(Durable, All(a));
  }

  lemma {:induction false} RunSurvivors(c: Config, a: Ideal, recs: seq<Payload>, ops: seq<Op>)
    requires Agrees(c, a, recs) && Legal(c, a, ops)
    ensures Keep(Durable, All(IdealRun(a, ops))) == Unacked(Keep(Durable, All(a)), ops) + Outstanding(ops)
    decreases |ops|
  {
    hide Agrees, Allowed, All, IdealStep, Step;
    var live := Keep(Durable, All(a));
    if ops == [] {
      NothingAcked(live);
    } else {
      var op, rest := ops[0], ops[1..];
      AgreedAck(c, a, recs, op);
      StepSurvivors(a, op);
      var recs' := StepKeeps(c, a, recs, op);
      RunSurvivors(Step(c, op), IdealStep(a, op), recs', rest);
      SurvivorsFirst(live, op, rest, ops);
    }
  }

  lemma {:induction false} AgreedAck(c: Config, a: Ideal, recs: seq<Payload>, op: Op)
    requires Agrees(c, a, recs) && Allowed(c, a, op)
    ensures Distinct(All(a)) && (op.Ack? ==> op.id in c.store.waitack && op.id in Ids(a.waiting))
  {
  }

  lemma {:induction false} SurvivorsFirst(live: seq<Payload>, op: Op, rest: seq<Op>, ops: seq<Op>)
    requires ops == [op] + rest
    ensures var left := if op.Ack? then Keep(Except(op.id), live) else live;
            Unacked(left + DurableOf(InsertedBy(op)), rest) + Outstanding(rest) == Unacked(live, ops) + Outstanding(ops)
  {
    var left := if op.Ack? then Keep(Except(op.id), live) else live;
    UnackedFirst(live, op, rest, ops);
    UnackedConcat(left, DurableOf(InsertedBy(op)), rest);
    Assoc(Unacked(left, rest), Unacked(DurableOf(InsertedBy(op)), rest), Outstanding(rest));
  }

  lemma {:induction false} NothingAcked(held: seq<Payload>)
    ensures Unacked(held, []) == held
  {
    if held != [] {
      NothingAcked(held[1..]);
      assert held == [held[0]] + held[1..];
    }
  }

  /**
   After any run, restarts included, the file loads to the messages it held at first and the durable ones
   inserted since, without those acknowledged later, in order of insertion; and a restart at that point makes
   them the queue.
   */
  lemma {:induction false} OutstandingSurvive(recs: seq<Payload>, ops: seq<Op>)
    requires Startable(recs) && Legal(Opened(recs), Intended(recs), ops)
    ensures var s := Run(Opened(recs), Intended(recs), ops).store;
            var survivors := Unacked(Keep(Live, recs), ops) + Outstanding(ops);
            && s.disk.data.Some? && Load(s.disk.data.value) == Loaded(true, survivors)
            && Payloads(Recovered(s.disk).pending) == survivors
  {
    var c, a := Run(Opened(recs), Intended(recs), ops), IdealRun(Intended(recs), ops);
    SurvivorsOf(recs, ops);
    var recs' := Reached(recs, ops);
    RecoveredSurvivors(c, a, recs', Unacked(Keep(Live, recs), ops) + Outstanding(ops));
  }

  lemma {:induction false} SurvivorsOf(recs: seq<Payload>, ops: seq<Op>)
    requires Startable(recs) && Legal(Opened(recs), Intended(recs), ops)
    ensures Keep(Durable, All(IdealRun(Intended(recs), ops))) == Unacked(Keep(Live, recs), ops) + Outstanding(ops)
  {
    var d, live := Disk(Some(Layout(recs)), None), Keep(Live, recs);
    RecoveryAgrees(d, recs, live);
    RecoveredStore(d, recs, live);
    RunSurvivors(Opened(recs), Intended(recs), live, ops);
    assert All(Intended(recs)) == live;
  }

  lemma {:induction false} RecoveredSurvivors(c: Config, a: Ideal, recs: seq<Payload>, survivors: seq<Payload>)
    requires Agrees(c, a, recs) && survivors == Keep(Durable, All(a))
    ensures c.store.disk.data.Some? && Load(c.store.disk.data.value) == Loaded(true, survivors)
    ensures Payloads(Recovered(c.store.disk).pending) == survivors
  {
    AgreedRecovery(c, a, recs);
    CarryPayloads(Recovered(c.store.disk).pending, survivors);
  }

  lemma {:induction false} CarryPayloads(ms: seq<Msg>, ps: seq<Payload>)
    requires Carry(ms, ps)
    ensures Payloads(ms) == ps
  {
  }
}
