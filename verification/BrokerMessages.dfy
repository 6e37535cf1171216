/** Which messages a restart of the broker brings back, told by the events alone. */
module BrokerMessages {
  import opened Bytes
  import opened PayloadCodec
  import opened MessageLog
  import opened Splitting
  import opened Arguments
  import opened QueueStore
  import opened QueueCounts
  import opened VirtualHost
  import opened HostRuns
  import opened BrokerRuns
  import Q = Queues

  // ---- What the events say ----

  /** The queues declared after the next event, each with whether it is durable. */
  function DeclaredNext(before: map<Str, bool>, e: Event): map<Str, bool> {
    match e
    case Do(DeclareQueue(q, works)) => if q.name in before then before else before[q.name := q.durable]
    case Do(DeleteQueue(name, rowsWork, works)) => before - {name}
    case Do(_) => before
    case Reboot => map q | q in before && before[q] :: true
  }

  function Declared(es: seq<Event>): map<Str, bool> {
    if es == [] then map[] else DeclaredNext(Declared(es[..|es| - 1]), es[|es| - 1])
  }

  /** The durable message that event `e` publishes to `q`, if `q` is declared. */
  function PublishedBy(declared: map<Str, bool>, e: Event, q: Str): seq<Payload> {
    match e
    case Do(Publish(to, given, body, minted)) =>
      if to == q && q in declared then DurableOf([Built(given, body, declared[q], minted)]) else []
    case _ => []
  }

  /** The event acknowledges the message of this identifier, or deletes the queue. */
  predicate Ends(e: Event, q: Str, id: Str) {
    e == Do(HostOp.Ack(q, id)) || (e.Do? && e.op.DeleteQueue? && e.op.name == q)
  }

  predicate EndedAfter(es: seq<Event>, i: nat, q: Str, id: Str) {
    exists j :: i < j < |es| && Ends(es[j], q, id)
  }

  /** The durable message of event `i` for `q`, unless a later event acknowledges it or deletes the queue. */
  function OutstandingAt(es: seq<Event>, i: nat, q: Str): seq<Payload>
    requires i < |es|
  {
    var s := PublishedBy(Declared(es[..i]), es[i], q);
    if s != [] && EndedAfter(es, i, q, IdOf(s[0])) then [] else s
  }

  function OutstandingFrom(es: seq<Event>, i: nat, q: Str): seq<Payload>
    requires i <= |es|
    decreases |es| - i
  {
    if i == |es| then [] else OutstandingAt(es, i, q) + OutstandingFrom(es, i + 1, q)
  }

  /**
   The durable messages published to `q` while it was declared that are not acknowledged later and whose queue
   is not deleted later, in the order of their publication.
   */
  function OutstandingIn(es: seq<Event>, q: Str): seq<Payload> {
    OutstandingFrom(es, 0, q)
  }

  // ---- One more event ----

  /** Those of `s` that the event does not end. */
  function Remaining(s: seq<Payload>, e: Event, q: Str): seq<Payload> {
    match e
    case Do(Ack(to, id)) => if to == q then Keep(Except(id), s) else s
    case Do(DeleteQueue(name, rowsWork, works)) => if name == q then [] else s
    case _ => s
  }

  lemma {:induction false} RemainingConcat(s: seq<Payload>, t: seq<Payload>, e: Event, q: Str)
    ensures Remaining(s + t, e, q) == Remaining(s, e, q) + Remaining(t, e, q)
  {
    if e.Do? && e.op.Ack? {
      KeepConcat(Except(e.op.id), s, t);
    }
  }

  lemma {:induction false} EndedOneMore(es: seq<Event>, e: Event, i: nat, q: Str, id: Str)
    requires i < |es|
    ensures EndedAfter(es + [e], i, q, id) <==> EndedAfter(es, i, q, id) || Ends(e, q, id)
  {
    var more := es + [e];
    if EndedAfter(es, i, q, id) {
      var j :| i < j < |es| && Ends(es[j], q, id);
      assert more[j] == es[j];
    }
    if Ends(e, q, id) {
      assert more[|es|] == e;
    }
  }

  lemma {:induction false} PublishedOne(declared: map<Str, bool>, e: Event, q: Str)
    ensures |PublishedBy(declared, e, q)| <= 1
  {
  }

  lemma {:induction false} RemainingOne(p: Payload, e: Event, q: Str)
    ensures Remaining([p], e, q) == if Ends(e, q, IdOf(p)) then [] else [p]
  {
  }

  lemma {:induction false} OutstandingAtMore(es: seq<Event>, e: Event, i: nat, q: Str)
    requires i < |es|
    ensures OutstandingAt(es + [e], i, q) == Remaining(OutstandingAt(es, i, q), e, q)
  {
    hide PublishedBy, EndedAfter, Ends, Declared, Remaining;
    var s := PublishedBy(Declared(es[..i]), es[i], q);
    assert (es + [e])[..i] == es[..i] && (es + [e])[i] == es[i];
    PublishedOne(Declared(es[..i]), es[i], q);
    RemainingNone(e, q);
    if s != [] {
      assert s == [s[0]];
      EndedOneMore(es, e, i, q, IdOf(s[0]));
      RemainingOne(s[0], e, q);
    }
  }

  lemma {:induction false} RemainingNone(e: Event, q: Str)
    ensures Remaining([], e, q) == []
  {
  }

  lemma {:induction false} OutstandingMore(es: seq<Event>, e: Event, i: nat, q: Str)
    requires i <= |es|
    ensures OutstandingFrom(es + [e], i, q)
            == Remaining(OutstandingFrom(es, i, q), e, q) + PublishedBy(Declared(es), e, q)
    decreases |es| - i
  {
    hide PublishedBy, Declared, Remaining, OutstandingAt;
    var more := es + [e];
    RemainingNone(e, q);
    if i == |es| {
      OutstandingLast(es, e, q);
    } else {
      OutstandingMore(es, e, i + 1, q);
      OutstandingAtMore(es, e, i, q);
      RemainingConcat(OutstandingAt(es, i, q), OutstandingFrom(es, i + 1, q), e, q);
      Assoc(Remaining(OutstandingAt(es, i, q), e, q), Remaining(OutstandingFrom(es, i + 1, q), e, q),
            PublishedBy(Declared(es), e, q));
    }
  }

  lemma {:induction false} OutstandingLast(es: seq<Event>, e: Event, q: Str)
    ensures OutstandingFrom(es + [e], |es|, q) == PublishedBy(Declared(es), e, q)
  {
    var more := es + [e];
    assert more[..|es|] == es && more[|es|] == e;
    assert OutstandingFrom(more, |es| + 1, q) == [];
  }

  lemma {:induction false} OutstandingNext(es: seq<Event>, e: Event, q: Str)
    ensures OutstandingIn(es + [e], q) == Remaining(OutstandingIn(es, q), e, q) + PublishedBy(Declared(es), e, q)
  {
    OutstandingMore(es, e, 0, q);
  }

  lemma {:induction false} DeclaredMore(es: seq<Event>, e: Event)
    ensures Declared(es + [e]) == DeclaredNext(Declared(es), e)
  {
    assert (es + [e])[..|es|] == es;
  }

  // ---- The queues declared ----

  function DurableIn(queues: map<Str, Q.MsgQueue>): map<Str, bool> {
    map q | q in queues :: queues[q].durable
  }

  function Durabilities(h: Host): map<Str, bool> {
    DurableIn(h.queues.queues)
  }

  lemma {:induction false} QueueDeclaredNext(h: Host, op: HostOp, h': Host)
    requires Recoverable(h) && Does(h, op, h') && TablesWork(op) && op.DeclareQueue?
    ensures Durabilities(h') == DeclaredNext(Durabilities(h), Do(op))
  {
    hide B.Mirror, Q.IsRowOf, M.InitStep, Recovered;
  }

  lemma {:induction false} SameQueues(h: Host, op: HostOp, h': Host)
    requires Does(h, op, h') && !op.DeclareQueue? && !op.DeleteQueue?
    ensures Durabilities(h') == Durabilities(h)
  {
  }

  /** The rows of durable queues only, and restored as durable. */
  lemma {:induction false} RestoredQueues(s: Q.State)
    requires forall q :: q in s.rows <==> q in s.queues && s.queues[q].durable
    requires forall q :: q in s.rows ==> s.rows[q].durable
    ensures DurableIn(Q.RestoredAll(s.rows)) == DeclaredNext(DurableIn(s.queues), Reboot)
  {
    hide Stored, Words;
    var now, next := DurableIn(Q.RestoredAll(s.rows)), DeclaredNext(DurableIn(s.queues), Reboot);
    forall q ensures q in now <==> q in next {
    }
    forall q | q in now ensures now[q] == next[q] {
    }
  }

  lemma {:induction false} RestartedQueues(h: Host)
    requires Recoverable(h)
    ensures Durabilities(Restarted(h)) == DeclaredNext(Durabilities(h), Reboot)
  {
    hide DeclaredNext, DurableIn;
    RestoredQueues(h.queues);
  }

  lemma {:induction false} DeclaredStep(h: Host, e: Event, h': Host)
    requires Recoverable(h) && Happens(h, e, h') && Smooth(e)
    ensures Durabilities(h') == DeclaredNext(Durabilities(h), e)
  {
    hide Recoverable, Durabilities;
    match e
    case Do(op) =>
      if op.DeclareQueue? {
        QueueDeclaredNext(h, op, h');
      } else if op.DeleteQueue? {
        QueueDeletedNext(h, op, h');
      } else {
        SameQueues(h, op, h');
      }
    case Reboot => RestartedQueues(h);
  }

  lemma {:induction false} QueueDeletedNext(h: Host, op: HostOp, h': Host)
    requires Does(h, op, h') && TablesWork(op) && op.DeleteQueue?
    ensures Durabilities(h') == DeclaredNext(Durabilities(h), Do(op))
  {
  }

  // ---- The ledger says the same ----

  /** What outlives the process is what the events tell, and files that no store has open hold none of it. */
  ghost predicate Told(h: Host, l: Ledger, es: seq<Event>) {
    && Declared(es) == Durabilities(h)
    && (forall q :: Survivors(l, q) == OutstandingIn(es, q))
    && NothingLeft(h, l)
  }

  /** Only durable queues have messages to lose. */
  ghost predicate NothingLeft(h: Host, l: Ledger) {
    && (forall q :: LeftIn(l, q) == [])
    && (forall q :: q in h.queues.queues && !h.queues.queues[q].durable ==> Survivors(l, q) == [])
  }

  /** What an event does to the messages that would survive in `q`. */
  ghost predicate Moves(h: Host, l: Ledger, e: Event, l': Ledger, q: Str) {
    Survivors(l', q) == Remaining(Survivors(l, q), e, q) + PublishedBy(Durabilities(h), e, q)
  }

  lemma {:induction false} BackedSurvivors(c: Config, a: Ideal, op: Op)
    requires Backed(c, a) && Allowed(c, a, op)
    ensures var live := Keep(Durable, All(a));
            Keep(Durable, All(IdealStep(a, op)))
            == (if op.Ack? then Keep(Except(op.id), live) else live) + DurableOf(InsertedBy(op))
  {
    var recs :| Agrees(c, a, recs);
    AgreedAck(c, a, recs, op);
    StepSurvivors(a, op);
  }

  lemma {:induction false} LocalMoves(h: Host, l: Ledger, op: HostOp, q: Str)
    requires AllBacked(h, l) && Admitted(h, l, op) && LocalOp(h, op).Some?
    requires !op.DeclareQueue? && !op.DeleteQueue?
    ensures Moves(h, l, Do(op), LedgerStep(h, l, op), q)
  {
    hide Backed, Allowed;
    var local := LocalOp(h, op).value;
    if local.queue == q {
      BackedSurvivors(ConfigOf(h, l, q), l.ideals[q], local.op);
    }
  }

  lemma {:induction false} OtherMoves(h: Host, l: Ledger, op: HostOp, q: Str)
    requires Tracks(h, l) && Recoverable(h) && NothingLeft(h, l) && Admitted(h, l, op) && LocalOp(h, op) == None
    requires !op.DeclareQueue? && !op.DeleteQueue?
    ensures Moves(h, l, Do(op), LedgerStep(h, l, op), q)
  {
  }

  lemma {:induction false} OpenedMoves(h: Host, l: Ledger, op: HostOp, q: Str)
    requires Tracks(h, l) && NothingLeft(h, l) && Admitted(h, l, op) && op.DeclareQueue?
    ensures Moves(h, l, Do(op), LedgerStep(h, l, op), q)
  {
  }

  lemma {:induction false} DestroyedMoves(h: Host, l: Ledger, op: HostOp, q: Str)
    requires Tracks(h, l) && NothingLeft(h, l) && Admitted(h, l, op) && op.DeleteQueue?
    ensures Moves(h, l, Do(op), LedgerStep(h, l, op), q)
  {
    assert LeftIn(l, q) == [];
  }

  lemma {:induction false} RebootMoves(h: Host, l: Ledger, q: Str)
    requires Tracks(h, l) && Recoverable(h) && NothingLeft(h, l)
    ensures Moves(h, l, Reboot, RebootedIn(l, h.queues.rows.Keys), q)
  {
    if q in h.queues.rows {
      KeepTwice(Durable, All(l.ideals[q]));
      assert [] + Survivors(l, q) == Survivors(l, q);
    }
  }

  lemma {:induction false} EventMoves(h: Host, l: Ledger, e: Event, h': Host, l': Ledger, q: Str)
    requires Recoverable(h) && AllBacked(h, l) && NothingLeft(h, l) && GoodStep(h, l, e, h', l')
    ensures Moves(h, l, e, l', q)
  {
    hide Recoverable, Backed, NothingLeft, Moves, LedgerStep, RebootedIn;
    match e
    case Do(op) =>
      if op.DeclareQueue? {
        OpenedMoves(h, l, op, q);
      } else if op.DeleteQueue? {
        DestroyedMoves(h, l, op, q);
      } else if LocalOp(h, op).Some? {
        LocalMoves(h, l, op, q);
      } else {
        OtherMoves(h, l, op, q);
      }
    case Reboot => RebootMoves(h, l, q);
  }

  lemma {:induction false} LeftInStep(h: Host, l: Ledger, e: Event, h': Host, l': Ledger, q: Str)
    requires Recoverable(h) && Tracks(h, l) && NothingLeft(h, l) && GoodStep(h, l, e, h', l')
    ensures LeftIn(l', q) == []
  {
    assert LeftIn(l, q) == [];
    match e
    case Do(op) => LeftInKept(h, l, op, q);
    case Reboot =>
      if q in l'.left {
        assert Survivors(l, q) == [];
      }
  }

  lemma {:induction false} LeftInKept(h: Host, l: Ledger, op: HostOp, q: Str)
    requires Tracks(h, l) && Admitted(h, l, op)
    ensures LeftIn(l, q) == [] ==> LeftIn(LedgerStep(h, l, op), q) == []
  {
  }

  lemma {:induction false} NotDurable(declared: map<Str, bool>, e: Event, q: Str)
    requires q in declared ==> !declared[q]
    ensures PublishedBy(declared, e, q) == []
  {
  }

  lemma {:induction false} VolatileBefore(before: map<Str, bool>, e: Event, q: Str)
    requires q in DeclaredNext(before, e) && !DeclaredNext(before, e)[q]
    ensures q in before ==> !before[q]
  {
  }

  lemma {:induction false} NothingLeftStep(h: Host, l: Ledger, e: Event, h': Host, l': Ledger)
    requires Recoverable(h) && AllBacked(h, l) && NothingLeft(h, l) && GoodStep(h, l, e, h', l')
    ensures NothingLeft(h', l')
  {
    hide *;
    forall q ensures LeftIn(l', q) == [] {
      BackedTracks(h, l);
      LeftInStep(h, l, e, h', l', q);
    }
    forall q | q in h'.queues.queues && !h'.queues.queues[q].durable ensures Survivors(l', q) == [] {
      VolatileStep(h, l, e, h', l', q);
    }
    NothingLeftIs(h', l');
  }

  lemma {:induction false} BackedTracks(h: Host, l: Ledger)
    requires AllBacked(h, l)
    ensures Tracks(h, l)
  {
  }

  lemma {:induction false} NothingLeftIs(h: Host, l: Ledger)
    requires forall q :: LeftIn(l, q) == []
    requires forall q :: q in h.queues.queues && !h.queues.queues[q].durable ==> Survivors(l, q) == []
    ensures NothingLeft(h, l)
  {
  }

  lemma {:induction false} VolatileNow(h: Host, l: Ledger, q: Str)
    requires Recoverable(h) && Tracks(h, l) && NothingLeft(h, l) && (q in Durabilities(h) ==> !Durabilities(h)[q])
    ensures Survivors(l, q) == []
  {
    assert LeftIn(l, q) == [];
  }

  lemma {:induction false} VolatileStep(h: Host, l: Ledger, e: Event, h': Host, l': Ledger, q: Str)
    requires Recoverable(h) && AllBacked(h, l) && NothingLeft(h, l) && GoodStep(h, l, e, h', l')
    requires q in h'.queues.queues && !h'.queues.queues[q].durable
    ensures Survivors(l', q) == []
  {
    hide Recoverable, Backed, NothingLeft, DeclaredNext, PublishedBy, Remaining, LedgerStep, RebootedIn;
    hide Survivors, Does;
    DeclaredStep(h, e, h');
    assert q in Durabilities(h') && !Durabilities(h')[q];
    VolatileBefore(Durabilities(h), e, q);
    VolatileNow(h, l, q);
    NotDurable(Durabilities(h), e, q);
    EventMoves(h, l, e, h', l', q);
    RemainingNone(e, q);
  }

  lemma {:induction false} ToldStep(h: Host, l: Ledger, es: seq<Event>, e: Event, h': Host, l': Ledger)
    requires Recoverable(h) && AllBacked(h, l) && Told(h, l, es) && GoodStep(h, l, e, h', l')
    ensures Told(h', l', es + [e])
  {
    hide Recoverable, AllBacked, NothingLeft, Declared, DeclaredNext, PublishedBy, Remaining, Survivors, OutstandingIn;
    DeclaredMore(es, e);
    DeclaredStep(h, e, h');
    NothingLeftStep(h, l, e, h', l');
    forall q ensures Survivors(l', q) == OutstandingIn(es + [e], q) {
      OutstandingNext(es, e, q);
      EventMoves(h, l, e, h', l', q);
    }
  }

  lemma {:induction false} EmptyTold()
    ensures Told(EMPTY_HOST, Ledger(map[], map[], map[]), [])
  {
    assert Durabilities(EMPTY_HOST) == map[];
  }

  lemma {:induction false} RunTold(hs: seq<Host>, ls: seq<Ledger>, es: seq<Event>, i: nat)
    requires Good(hs, ls, es) && i <= |es|
    ensures Told(hs[i], ls[i], es[..i])
  {
    hide Told, GoodStep, Recoverable, AllBacked;
    if i == 0 {
      EmptyTold();
    } else {
      RunTold(hs, ls, es, i - 1);
      GoodRun(hs, ls, es, i - 1);
      assert GoodStep(hs[i - 1], ls[i - 1], es[i - 1], hs[i], ls[i]);
      ToldStep(hs[i - 1], ls[i - 1], es[..i - 1], es[i - 1], hs[i], ls[i]);
      assert es[..i - 1] + [es[i - 1]] == es[..i];
    }
  }

  /**
   From an empty broker, after any run of declarations, deletions, bindings, publications, deliveries,
   acknowledgements and earlier restarts with working tables, a restart brings back exactly the queues declared
   durable and, in each of them, exactly the durable messages published to it that were not acknowledged since,
   in the order of their publication and with none waiting for an acknowledgement.
   */
  lemma {:induction false} RestartBringsBack(hs: seq<Host>, ls: seq<Ledger>, es: seq<Event>)
    requires Good(hs, ls, es)
    ensures var r := Restarted(hs[|es|]);
            && (forall q :: q in r.queues.queues <==> q in Declared(es) && Declared(es)[q])
            && r.messages.stores.Keys == r.queues.queues.Keys
            && (forall q :: q in r.queues.queues ==>
                  && Carry(r.messages.stores[q].pending, OutstandingIn(es, q))
                  && r.messages.stores[q].waitack == map[])
  {
    hide Recoverable, AllBacked, Restarted, Carry, OutstandingIn, Declared, GoodStep;
    BrokerRestart(hs, ls, es);
    RunTold(hs, ls, es, |es|);
    assert es[..|es|] == es;
    forall q | q in Restarted(hs[|es|]).queues.queues
      ensures Carry(Restarted(hs[|es|]).messages.stores[q].pending, OutstandingIn(es, q))
    {
      assert Survivors(ls[|es|], q) == OutstandingIn(es, q);
    }
  }
}
