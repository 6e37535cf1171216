/** Whole runs of the broker, restarts included: the messages of every queue against its simple queue. */
module BrokerRuns {
  import opened Bytes
  import opened PayloadCodec
  import opened MessageLog
  import opened QueueStore
  import opened QueueRuns
  import opened VirtualHost
  import opened HostRuns
  import B = Bindings
  import M = MessageStores

  datatype Event = Do(op: HostOp) | Reboot

  ghost predicate Happens(h: Host, e: Event, h': Host) {
    match e
    case Do(op) => Does(h, op, h')
    case Reboot => h' == Restarted(h)
  }

  /** The statements on the tables succeed. */
  predicate Smooth(e: Event) {
    match e
    case Do(op) => TablesWork(op)
    case Reboot => true
  }

  lemma {:induction false} EventRecoverable(h: Host, e: Event, h': Host)
    requires Recoverable(h) && Happens(h, e, h') && Smooth(e)
    ensures Recoverable(h')
  {
    match e
    case Do(op) => StepRecoverable(h, op, h');
    case Reboot => RestartRecoverable(h);
  }

  // ---- The ledger ----

  /**
   For each store the simple queue it stands for and the messages compaction has moved; for each name whose
   files no store has open, the messages in them.
   */
  datatype Ledger = Ledger(ideals: map<Str, Ideal>, stale: map<Str, set<Str>>, left: map<Str, seq<Payload>>)

  datatype Local = Local(queue: Str, op: Op)

  /** What an operation on the broker does to one queue's messages. */
  function LocalOp(h: Host, op: HostOp): Option<Local> {
    match op
    case Publish(q, given, body, minted) =>
      if q in h.queues.queues && q in h.messages.stores
      then Some(Local(q, QueueStore.Insert(given, body, h.queues.queues[q].durable, minted))) else None
    case Consume(q) => if q in h.messages.stores then Some(Local(q, QueueStore.Front)) else None
    case Ack(q, id) => if q in h.messages.stores then Some(Local(q, QueueStore.Ack(id))) else None
    case _ => None
  }

  predicate Tracks(h: Host, l: Ledger) {
    l.ideals.Keys == l.stale.Keys == h.messages.stores.Keys && l.left.Keys == h.messages.folder.Keys
  }

  function ConfigOf(h: Host, l: Ledger, q: Str): Config
    requires Tracks(h, l) && q in h.messages.stores
  {
    Config(h.messages.stores[q], l.stale[q])
  }

  ghost predicate Backed(c: Config, a: Ideal) {
    exists recs :: Agrees(c, a, recs)
  }

  /** Files that hold these messages. */
  ghost predicate Dormant(d: Disk, live: seq<Payload>) {
    Distinct(live) && exists recs :: Filed(d, recs, live)
  }

  ghost predicate AllBacked(h: Host, l: Ledger) {
    && Tracks(h, l)
    && (forall q :: q in h.messages.stores ==> Backed(ConfigOf(h, l, q), l.ideals[q]))
    && (forall q :: q in h.messages.folder ==> Dormant(h.messages.folder[q], l.left[q]))
  }

  /** The conditions of `Allowed`, for the queue concerned. */
  predicate Admitted(h: Host, l: Ledger, op: HostOp)
    requires Tracks(h, l)
  {
    match LocalOp(h, op)
    case None => true
    case Some(local) => Allowed(ConfigOf(h, l, local.queue), l.ideals[local.queue], local.op)
  }

  function LeftIn(l: Ledger, q: Str): seq<Payload> {
    if q in l.left then l.left[q] else []
  }

  /** What outlives the process of a name's messages. */
  function Survivors(l: Ledger, q: Str): seq<Payload> {
    if q in l.ideals then Keep(Durable, All(l.ideals[q])) else LeftIn(l, q)
  }

  function Noted(l: Ledger, q: Str, c: Config, a: Ideal): Ledger {
    Ledger(l.ideals[q := a], l.stale[q := c.stale], l.left)
  }

  function OpenedIn(l: Ledger, q: Str): Ledger {
    Ledger(l.ideals[q := Ideal([], LeftIn(l, q))], l.stale[q := {}], l.left - {q})
  }

  function DestroyedIn(l: Ledger, q: Str): Ledger {
    Ledger(l.ideals - {q}, l.stale - {q}, l.left)
  }

  function RebootedIn(l: Ledger, names: set<Str>): Ledger {
    Ledger(map q | q in names :: Ideal([], Survivors(l, q)), map q | q in names :: {},
           map q | q in l.ideals.Keys + l.left.Keys - names :: Survivors(l, q))
  }

  function LedgerStep(h: Host, l: Ledger, op: HostOp): Ledger
    requires Tracks(h, l) && Admitted(h, l, op)
  {
    if op.DeclareQueue? then (if op.queue.name in h.messages.stores then l else OpenedIn(l, op.queue.name))
    else if op.DeleteQueue? then DestroyedIn(l, op.name)
    else match LocalOp(h, op)
      case None => l
      case Some(local) =>
        var c, a := ConfigOf(h, l, local.queue), l.ideals[local.queue];
        Noted(l, local.queue, Step(c, local.op), IdealStep(a, local.op))
  }

  /** An operation on one queue's messages is that queue's own step, and no other store changes. */
  lemma {:induction false} LocalStep(h: Host, l: Ledger, op: HostOp, h': Host)
    requires Tracks(h, l) && Admitted(h, l, op) && Does(h, op, h') && LocalOp(h, op).Some?
    ensures var local := LocalOp(h, op).value;
            && h'.messages.folder == h.messages.folder
            && h'.messages.stores
               == h.messages.stores[local.queue := Step(ConfigOf(h, l, local.queue), local.op).store]
  {
    if op.Ack? {
      StepIsAck(ConfigOf(h, l, op.q), op.id);
    }
  }

  lemma {:induction false} BackedStep(c: Config, a: Ideal, op: Op)
    requires Backed(c, a) && Allowed(c, a, op)
    ensures Backed(Step(c, op), IdealStep(a, op))
  {
    var recs :| Agrees(c, a, recs);
    var recs' := StepKeeps(c, a, recs, op);
  }

  /** A store opened on files that hold `live`. */
  lemma {:induction false} OpenedBacked(d: Disk, live: seq<Payload>)
    requires Dormant(d, live)
    ensures Backed(Config(Recovered(d), {}), Ideal([], live))
  {
    var recs :| Filed(d, recs, live);
    RecoveryAgrees(d, recs, live);
    assert Agrees(Config(Recovered(d), {}), Ideal([], live), live);
  }

  /** Absent files are recovered like an empty data file. */
  lemma {:induction false} NoFiles(d: Disk)
    requires d == Disk(Some([]), None)
    ensures Recovered(Disk(None, None)) == Recovered(d) && Dormant(d, [])
  {
    var none: seq<Payload> := [];
    assert NewStore(Disk(None, None)) == NewStore(d);
    assert Filed(d, none, none);
  }

  lemma {:induction false} NewStoreBacked(h: Host, l: Ledger, q: Str) returns (c: Config)
    requires AllBacked(h, l)
    ensures c == Config(Recovered(M.DiskOf(h.messages.folder, q)), {}) && Backed(c, Ideal([], LeftIn(l, q)))
  {
    var d := if q in h.messages.folder then h.messages.folder[q] else Disk(Some([]), None);
    NoFiles(Disk(Some([]), None));
    OpenedBacked(d, LeftIn(l, q));
    c := Config(Recovered(d), {});
  }

  /** One store is new or changed, and maybe its files are no longer dormant. */
  lemma {:induction false} OneBacked(h: Host, l: Ledger, h': Host, l': Ledger, q: Str, c: Config, a: Ideal)
    requires AllBacked(h, l) && Backed(c, a)
    requires h'.messages.stores == h.messages.stores[q := c.store]
    requires l'.ideals == l.ideals[q := a] && l'.stale == l.stale[q := c.stale]
    requires (h'.messages.folder == h.messages.folder && l'.left == l.left)
             || (h'.messages.folder == h.messages.folder - {q} && l'.left == l.left - {q})
    ensures AllBacked(h', l')
  {
    OneTracked(h, l, h', l', q, c, a);
    forall r | r in h'.messages.stores ensures Backed(ConfigOf(h', l', r), l'.ideals[r]) {
      OtherTracked(h, l, h', l', q, c, a, r);
    }
  }

  lemma {:induction false} OneTracked(h: Host, l: Ledger, h': Host, l': Ledger, q: Str, c: Config, a: Ideal)
    requires Tracks(h, l)
    requires h'.messages.stores == h.messages.stores[q := c.store]
    requires l'.ideals == l.ideals[q := a] && l'.stale == l.stale[q := c.stale]
    requires (h'.messages.folder == h.messages.folder && l'.left == l.left)
             || (h'.messages.folder == h.messages.folder - {q} && l'.left == l.left - {q})
    ensures Tracks(h', l')
    ensures forall r :: r in h'.messages.folder ==>
              r in h.messages.folder && h'.messages.folder[r] == h.messages.folder[r] && l'.left[r] == l.left[r]
  {
  }

  lemma {:induction false} OtherTracked(h: Host, l: Ledger, h': Host, l': Ledger, q: Str, c: Config, a: Ideal, r: Str)
    requires Tracks(h, l) && h'.messages.stores == h.messages.stores[q := c.store]
    requires l'.ideals == l.ideals[q := a] && l'.stale == l.stale[q := c.stale]
    requires r in h'.messages.stores && Tracks(h', l')
    ensures ConfigOf(h', l', r) == if r == q then c else ConfigOf(h, l, r)
    ensures l'.ideals[r] == if r == q then a else l.ideals[r]
  {
  }

  lemma {:induction false} LocalBacked(h: Host, l: Ledger, op: HostOp, h': Host)
    requires AllBacked(h, l) && Admitted(h, l, op) && Does(h, op, h') && LocalOp(h, op).Some?
    requires !op.DeclareQueue? && !op.DeleteQueue?
    ensures AllBacked(h', LedgerStep(h, l, op))
  {
    hide Backed, Agrees;
    var local := LocalOp(h, op).value;
    LocalStep(h, l, op, h');
    var c, a := ConfigOf(h, l, local.queue), l.ideals[local.queue];
    BackedStep(c, a, local.op);
    OneBacked(h, l, h', LedgerStep(h, l, op), local.queue, Step(c, local.op), IdealStep(a, local.op));
  }

  lemma {:induction false} DeclareBacked(h: Host, l: Ledger, name: Str, h': Host)
    requires AllBacked(h, l) && name !in h.messages.stores && h'.messages == M.InitStep(h.messages, name)
    ensures AllBacked(h', OpenedIn(l, name))
  {
    var c := NewStoreBacked(h, l, name);
    OneBacked(h, l, h', OpenedIn(l, name), name, c, Ideal([], LeftIn(l, name)));
  }

  lemma {:induction false} OpenBacked(h: Host, l: Ledger, op: HostOp, h': Host)
    requires AllBacked(h, l) && op.DeclareQueue? && Does(h, op, h')
    ensures AllBacked(h', LedgerStep(h, l, op))
  {
    if op.queue.name in h.messages.stores {
      SameBacked(h, l, h');
    } else {
      DeclareBacked(h, l, op.queue.name, h');
    }
  }

  lemma {:induction false} DestroyBacked(h: Host, l: Ledger, name: Str, h': Host)
    requires AllBacked(h, l) && h'.messages == M.DestroyStep(h.messages, name)
    ensures AllBacked(h', DestroyedIn(l, name))
  {
    var l' := DestroyedIn(l, name);
    forall r | r in h'.messages.stores ensures Backed(ConfigOf(h', l', r), l'.ideals[r]) {
      assert ConfigOf(h', l', r) == ConfigOf(h, l, r);
    }
  }

  lemma {:induction false} StepBacked(h: Host, l: Ledger, op: HostOp, h': Host)
    requires AllBacked(h, l) && Admitted(h, l, op) && Does(h, op, h')
    ensures AllBacked(h', LedgerStep(h, l, op))
  {
    if op.DeclareQueue? {
      OpenBacked(h, l, op, h');
    } else if op.DeleteQueue? {
      DestroyBacked(h, l, op.name, h');
    } else if LocalOp(h, op).Some? {
      LocalBacked(h, l, op, h');
    } else {
      NoLocalStep(h, op, h');
      SameBacked(h, l, h');
    }
  }

  lemma {:induction false} NoLocalStep(h: Host, op: HostOp, h': Host)
    requires Does(h, op, h') && LocalOp(h, op) == None && !op.DeclareQueue? && !op.DeleteQueue?
    ensures h'.messages == h.messages
  {
  }

  lemma {:induction false} SameBacked(h: Host, l: Ledger, h': Host)
    requires AllBacked(h, l) && h'.messages == h.messages
    ensures AllBacked(h', l)
  {
    forall q | q in h'.messages.stores ensures Backed(ConfigOf(h', l, q), l.ideals[q]) {
      assert ConfigOf(h', l, q) == ConfigOf(h, l, q);
    }
  }

  // ---- Restart ----

  lemma {:induction false} BackedDormant(c: Config, a: Ideal)
    requires Backed(c, a)
    ensures Dormant(c.store.disk, Keep(Durable, All(a)))
  {
    var recs :| Agrees(c, a, recs);
    DistinctKeep(Durable, All(a));
  }

  lemma {:induction false} LeftDormant(h: Host, l: Ledger, q: Str)
    requires AllBacked(h, l) && q in M.LeftBehind(h.messages)
    ensures Dormant(M.LeftBehind(h.messages)[q], Survivors(l, q))
  {
    if q in h.messages.stores {
      BackedDormant(ConfigOf(h, l, q), l.ideals[q]);
    }
  }

  /** The store a restart opens for a name, whether or not there are files. */
  lemma {:induction false} ReopenedBacked(h: Host, l: Ledger, q: Str)
    requires AllBacked(h, l)
    ensures Backed(Config(Recovered(M.DiskOf(M.LeftBehind(h.messages), q)), {}), Ideal([], Survivors(l, q)))
  {
    hide Recovered;
    if q in M.LeftBehind(h.messages) {
      LeftDormant(h, l, q);
      OpenedBacked(M.LeftBehind(h.messages)[q], Survivors(l, q));
    } else {
      NoFiles(Disk(Some([]), None));
      OpenedBacked(Disk(Some([]), None), []);
    }
  }

  lemma {:induction false} RebootBacked(h: Host, l: Ledger)
    requires AllBacked(h, l)
    ensures AllBacked(Restarted(h), RebootedIn(l, h.queues.rows.Keys))
  {
    var names := h.queues.rows.Keys;
    var h', l' := Restarted(h), RebootedIn(l, names);
    RebootTracked(h, l);
    forall q | q in h'.messages.stores ensures Backed(ConfigOf(h', l', q), l'.ideals[q]) {
      ReopenedBacked(h, l, q);
    }
    forall q | q in h'.messages.folder ensures Dormant(h'.messages.folder[q], l'.left[q]) {
      LeftDormant(h, l, q);
    }
  }

  lemma {:induction false} RebootTracked(h: Host, l: Ledger)
    requires Tracks(h, l)
    ensures Tracks(Restarted(h), RebootedIn(l, h.queues.rows.Keys))
  {
    var h', l' := Restarted(h), RebootedIn(l, h.queues.rows.Keys);
    assert M.LeftBehind(h.messages).Keys == l.ideals.Keys + l.left.Keys;
    assert h'.messages.folder.Keys == l'.left.Keys;
  }

  // ---- Runs ----

  ghost predicate GoodStep(h: Host, l: Ledger, e: Event, h': Host, l': Ledger) {
    && Smooth(e) && Happens(h, e, h') && Tracks(h, l)
    && match e
       case Do(op) => Admitted(h, l, op) && l' == LedgerStep(h, l, op)
       case Reboot => l' == RebootedIn(l, h.queues.rows.Keys)
  }

  /** A run with working tables that meets every queue's conditions, with the ledger at each point. */
  ghost predicate Good(hs: seq<Host>, ls: seq<Ledger>, es: seq<Event>) {
    && |hs| == |ls| == |es| + 1
    && hs[0] == EMPTY_HOST && ls[0] == Ledger(map[], map[], map[])
    && forall i :: 0 <= i < |es| ==> GoodStep(hs[i], ls[i], es[i], hs[i + 1], ls[i + 1])
  }

  lemma {:induction false} EmptyGood()
    ensures Recoverable(EMPTY_HOST) && AllBacked(EMPTY_HOST, Ledger(map[], map[], map[]))
  {
    assert EMPTY_HOST.messages.stores == map[];
  }

  lemma {:induction false} GoodKeeps(h: Host, l: Ledger, e: Event, h': Host, l': Ledger)
    requires Recoverable(h) && AllBacked(h, l) && GoodStep(h, l, e, h', l')
    ensures Recoverable(h') && AllBacked(h', l')
  {
    EventRecoverable(h, e, h');
    match e
    case Do(op) => StepBacked(h, l, op, h');
    case Reboot => RebootBacked(h, l);
  }

  lemma {:induction false} GoodRun(hs: seq<Host>, ls: seq<Ledger>, es: seq<Event>, i: nat)
    requires Good(hs, ls, es) && i <= |es|
    ensures Recoverable(hs[i]) && AllBacked(hs[i], ls[i])
  {
    if i == 0 {
      EmptyGood();
    } else {
      GoodRun(hs, ls, es, i - 1);
      assert GoodStep(hs[i - 1], ls[i - 1], es[i - 1], hs[i], ls[i]);
      GoodKeeps(hs[i - 1], ls[i - 1], es[i - 1], hs[i], ls[i]);
    }
  }

  lemma {:induction false} BackedHolds(c: Config, a: Ideal)
    requires Backed(c, a)
    ensures Holds(c.store, a)
  {
    var recs :| Agrees(c, a, recs);
  }

  /** After any run, restarts included, each store holds the messages of its simple queue, in order. */
  lemma {:induction false} StoresAreQueues(hs: seq<Host>, ls: seq<Ledger>, es: seq<Event>, q: Str)
    requires Good(hs, ls, es) && q in hs[|es|].messages.stores
    ensures q in ls[|es|].ideals && Holds(hs[|es|].messages.stores[q], ls[|es|].ideals[q])
  {
    GoodRun(hs, ls, es, |es|);
    BackedHolds(ConfigOf(hs[|es|], ls[|es|], q), ls[|es|].ideals[q]);
  }

  lemma {:induction false} RestoredStore(h: Host, l: Ledger, q: Str)
    requires AllBacked(h, l) && q in h.messages.stores && q in h.queues.rows
    ensures Carry(Restarted(h).messages.stores[q].pending, Keep(Durable, All(l.ideals[q])))
    ensures Restarted(h).messages.stores[q].waitack == map[]
  {
    var d := M.DiskOf(M.LeftBehind(h.messages), q);
    ReopenedBacked(h, l, q);
    BackedHolds(Config(Recovered(d), {}), Ideal([], Survivors(l, q)));
  }

  /**
   From an empty broker, after any run of declarations, deletions, bindings, publications, deliveries,
   acknowledgements and earlier restarts with working tables, a restart brings back exactly the durable queues,
   exactly the durable bindings and, in each of those queues, exactly the durable messages published to it and
   not acknowledged, in the order of their publication and with none waiting for an acknowledgement.
   */
  lemma {:induction false} BrokerRestart(hs: seq<Host>, ls: seq<Ledger>, es: seq<Event>)
    requires Good(hs, ls, es)
    ensures var h, l := hs[|es|], ls[|es|];
            var r := Restarted(h);
            && (forall q :: q in r.queues.queues <==> q in h.queues.queues && h.queues.queues[q].durable)
            && (forall e, q :: B.Bound(r.bindings.bindings, e, q) <==> (e, q) in h.bindings.durable)
            && (forall e, q :: B.Bound(r.bindings.bindings, e, q) ==>
                  B.Bound(h.bindings.bindings, e, q)
                  && r.bindings.bindings[e][q] == h.bindings.bindings[e][q])
            && r.messages.stores.Keys == r.queues.queues.Keys
            && (forall q :: q in r.queues.queues ==>
                  && q in l.ideals
                  && Carry(r.messages.stores[q].pending, Keep(Durable, All(l.ideals[q])))
                  && r.messages.stores[q].waitack == map[])
  {
    var h, l := hs[|es|], ls[|es|];
    var r := Restarted(h);
    GoodRun(hs, ls, es, |es|);
    B.RestartRebuildsDurable(h.bindings);
    RestoredKeys(h.queues.rows);
    forall q | q in r.queues.queues
      ensures q in l.ideals && Carry(r.messages.stores[q].pending, Keep(Durable, All(l.ideals[q])))
              && r.messages.stores[q].waitack == map[]
    {
      RestoredStore(h, l, q);
    }
  }
}
