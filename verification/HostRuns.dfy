/** Whole runs of the broker's state: referential integrity, the tables, and what a restart makes of both. */
module HostRuns {
  import opened VirtualHost
  import opened Bytes
  import opened PayloadCodec
  import opened Arguments
  import opened Routing
  import X = Exchanges
  import Q = Queues
  import B = Bindings
  import M = MessageStores

  // ---- Runs ----

  ghost predicate Path(hs: seq<Host>, ops: seq<HostOp>) {
    |hs| == |ops| + 1 && forall i :: 0 <= i < |ops| ==> Does(hs[i], ops[i], hs[i + 1])
  }

  /** The deletion of a durable queue whose row cannot be deleted. */
  predicate LosesStore(h: Host, op: HostOp) {
    op.DeleteQueue? && Q.Undeletable(h.queues, op.name, op.works)
  }

  /** Bindings never dangle and every queue keeps its store in any run in which no deletion loses one. */
  lemma {:induction false} RunsKeepIntegrity(hs: seq<Host>, ops: seq<HostOp>)
    requires Path(hs, ops) && Integrity(hs[0])
    requires forall i :: 0 <= i < |ops| ==> !LosesStore(hs[i], ops[i])
    ensures Integrity(hs[|ops|])
    decreases |ops|
  {
    if ops != [] {
      IntegrityIff(hs[0], ops[0], hs[1]);
      RunsKeepIntegrity(hs[1..], ops[1..]);
    }
  }

  // ---- The tables ----

  predicate TablesWork(op: HostOp) {
    match op
    case DeclareExchange(x, works) => works
    case DeleteExchange(name, rowsWork, works) => rowsWork && works
    case DeclareQueue(q, works) => works
    case DeleteQueue(name, rowsWork, works) => rowsWork && works
    case Bind(b, works) => works
    case UnBind(e, q, works) => works
    case _ => true
  }

  /** Both tables mirror the maps, and only durable queues have durable bindings. */
  ghost predicate Mirrored(h: Host) {
    && Integrity(h) && B.Mirror(h.bindings) && Q.Mirror(h.queues)
    && (forall p :: p in h.bindings.durable ==> h.queues.queues[p.1].durable)
  }

  lemma {:induction false} PruneMirrored(h: Host, h': Host, f: B.Filter)
    requires Mirrored(h) && Integrity(h') && h'.bindings == B.PruneStep(h.bindings, f, true)
    requires Q.Mirror(h'.queues)
    requires forall e, q :: B.Bound(h.bindings.bindings, e, q) && !B.Hits(f, e, q) ==>
                              q in h'.queues.queues && h'.queues.queues[q] == h.queues.queues[q]
    ensures Mirrored(h')
  {
    B.PruneMirrorIff(h.bindings, f, true);
    forall p | p in h'.bindings.durable ensures h'.queues.queues[p.1].durable {
      assert B.Bound(h.bindings.bindings, p.0, p.1);
    }
  }

  lemma {:induction false} BindMirrored(h: Host, b: B.Binding)
    requires Mirrored(h) && Integrity(BindHost(h, b, true))
    ensures Mirrored(BindHost(h, b, true))
  {
    if b.exchange in h.exchanges.exchanges && b.queue in h.queues.queues {
      B.BindKeepsMirror(h.bindings, b, DurableBinding(h, b), true);
    }
  }

  lemma {:induction false} DeclareMirrored(h: Host, h': Host, q: Q.MsgQueue)
    requires Mirrored(h) && Integrity(h') && h'.bindings == h.bindings
    requires Q.DeclareStep(h.queues, q, true, h'.queues)
    ensures Mirrored(h')
  {
    Q.DeclareKeepsMirror(h.queues, q, true, h'.queues);
    forall p | p in h'.bindings.durable ensures h'.queues.queues[p.1].durable {
      assert B.Bound(h.bindings.bindings, p.0, p.1);
    }
  }

  lemma {:induction false} StepMirrored(h: Host, op: HostOp, h': Host)
    requires Mirrored(h) && Does(h, op, h') && TablesWork(op)
    ensures Mirrored(h')
  {
    IntegrityIff(h, op, h');
    match op
    case DeclareExchange(x, works) =>
    case DeleteExchange(name, rowsWork, works) => PruneMirrored(h, h', B.OfExchange(name));
    case DeclareQueue(q, works) => DeclareMirrored(h, h', q);
    case DeleteQueue(name, rowsWork, works) =>
      Q.DeleteKeepsMirror(h.queues, name, true);
      PruneMirrored(h, h', B.OfQueue(name));
    case Bind(b, works) => BindMirrored(h, b);
    case UnBind(e, q, works) => PruneMirrored(h, h', B.Both(e, q));
    case Publish(q, given, body, minted) =>
    case Consume(q) =>
    case Ack(q, id) =>
  }

  /**
   In every state reached with working tables, binding_table has one row per durable binding, queue_table one
   per durable queue, and neither has any other.
   */
  lemma {:induction false} RunsKeepMirrors(hs: seq<Host>, ops: seq<HostOp>)
    requires Path(hs, ops) && Mirrored(hs[0])
    requires forall i :: 0 <= i < |ops| ==> TablesWork(ops[i])
    ensures Mirrored(hs[|ops|])
    decreases |ops|
  {
    if ops != [] {
      StepMirrored(hs[0], ops[0], hs[1]);
      RunsKeepMirrors(hs[1..], ops[1..]);
    }
  }

  // ---- Restart ----

  /**
   After a restart bindings refer to what is declared exactly when each durable binding's exchange has a row,
   which is not so for an exchange of mode UNDURABLE: it makes a binding durable but is not itself stored.
   */
  lemma {:induction false} RestartIntegrityIff(h: Host)
    requires Mirrored(h)
    ensures Integrity(Restarted(h)) <==> forall p :: p in h.bindings.durable ==> p.0 in h.exchanges.rows
  {
    if Integrity(Restarted(h)) {
      RestartNeedsRows(h);
    }
    if forall p :: p in h.bindings.durable ==> p.0 in h.exchanges.rows {
      RowsSuffice(h);
    }
  }

  lemma {:induction false} RestartNeedsRows(h: Host)
    requires Mirrored(h) && Integrity(Restarted(h))
    ensures forall p :: p in h.bindings.durable ==> p.0 in h.exchanges.rows
  {
    B.RestartRebuildsDurable(h.bindings);
    forall p | p in h.bindings.durable ensures p.0 in h.exchanges.rows {
      assert B.Bound(Restarted(h).bindings.bindings, p.0, p.1);
    }
  }

  lemma {:induction false} RowsSuffice(h: Host)
    requires Mirrored(h) && forall p :: p in h.bindings.durable ==> p.0 in h.exchanges.rows
    ensures Integrity(Restarted(h))
  {
    var r := Restarted(h);
    B.RestartRebuildsDurable(h.bindings);
    forall e, q | B.Bound(r.bindings.bindings, e, q)
      ensures e in r.exchanges.exchanges && q in r.queues.queues
    {
      assert (e, q) in h.bindings.durable;
      assert B.Bound(h.bindings.bindings, e, q);
    }
  }

  const EMPTY_HOST := Started(map[], map[], [], map[])

  function Undurable(name: Str): X.Exchange {
    X.Exchange(name, Direct, UNDURABLE, false, map[])
  }

  function DurableQueue(name: Str): Q.MsgQueue {
    Q.MsgQueue(name, true, false, false, map[])
  }

  /** A new broker on which these have been declared, in this order. */
  function WithExchange(e: Str): Host {
    EMPTY_HOST.(exchanges := X.State(map[e := Undurable(e)], map[]))
  }

  function WithBoth(e: Str, q: Str): Host {
    var h := WithExchange(e);
    h.(messages := M.InitStep(h.messages, q),
       queues := Q.State(map[q := DurableQueue(q)], map[q := Q.Row(true, false, false, [])]))
  }

  lemma {:induction false} ExchangeDeclared(e: Str)
    ensures Does(EMPTY_HOST, DeclareExchange(Undurable(e), true), WithExchange(e))
  {
    var none: map<Str, X.Exchange> := map[];
    assert EMPTY_HOST.exchanges == X.State(none, map[]);
    assert none[e := Undurable(e)] == map[e := Undurable(e)];
  }

  lemma {:induction false} QueueDeclared(e: Str, q: Str)
    ensures Does(WithExchange(e), DeclareQueue(DurableQueue(q), true), WithBoth(e, q))
  {
    hide M.InitStep, X.DeclareStep;
    var none: map<Str, Q.MsgQueue> := map[];
    var row := Q.Row(true, false, false, []);
    var order: seq<Str> := [];
    assert WithExchange(e).queues == Q.State(none, map[]);
    assert Traversal(order, DurableQueue(q).args) && row.args == Written(order, DurableQueue(q).args);
    assert Q.IsRowOf(row, DurableQueue(q));
    assert none[q := DurableQueue(q)] == map[q := DurableQueue(q)];
  }

  lemma {:induction false} EmptyMirrored()
    ensures Mirrored(EMPTY_HOST)
  {
    assert EMPTY_HOST.bindings.bindings == map[] && EMPTY_HOST.queues.queues == map[];
  }

  /**
   The failing side is reached by three operations on an empty broker: declaring an exchange of mode UNDURABLE
   and a durable queue, and binding them.
   */
  lemma {:induction false} RestartLosesExchange(e: Str, q: Str, key: Str) returns (h: Host)
    ensures var ops := [DeclareExchange(Undurable(e), true), DeclareQueue(DurableQueue(q), true),
                        Bind(B.Binding(e, q, key), true)];
            Path([EMPTY_HOST, WithExchange(e), WithBoth(e, q), h], ops)
    ensures Mirrored(h) && !Integrity(Restarted(h))
  {
    hide Mirrored, Integrity, Restarted, Q.DeclareStep, X.DeclareStep;
    var h1, h2 := WithExchange(e), WithBoth(e, q);
    h := BindHost(h2, B.Binding(e, q, key), true);
    EmptyMirrored();
    ExchangeDeclared(e);
    QueueDeclared(e, q);
    StepMirrored(EMPTY_HOST, DeclareExchange(Undurable(e), true), h1);
    StepMirrored(h1, DeclareQueue(DurableQueue(q), true), h2);
    StepMirrored(h2, Bind(B.Binding(e, q, key), true), h);
    assert (e, q) in h.bindings.durable && e !in h.exchanges.rows;
    RestartIntegrityIff(h);
  }

  // ---- What restarts keep, whatever they lose ----

  /**
   The rows of the durable queues and bindings are there, and each queue has its store. Neither the exchanges
   of the bindings nor the arguments of the queues matter.
   */
  ghost predicate Recoverable(h: Host) {
    && B.Mirror(h.bindings)
    && h.messages.stores.Keys == h.queues.queues.Keys
    && (forall q :: q in h.queues.rows <==> q in h.queues.queues && h.queues.queues[q].durable)
    && (forall q :: q in h.queues.rows ==> h.queues.rows[q].durable)
    && (forall p :: p in h.bindings.durable ==> p.1 in h.queues.queues && h.queues.queues[p.1].durable)
  }

  lemma {:induction false} PruneRecoverable(h: Host, f: B.Filter)
    requires Recoverable(h)
    ensures Recoverable(h.(bindings := B.PruneStep(h.bindings, f, true)))
  {
    B.PruneMirrorIff(h.bindings, f, true);
  }

  lemma {:induction false} BindRecoverable(h: Host, b: B.Binding)
    requires Recoverable(h)
    ensures Recoverable(BindHost(h, b, true))
  {
    if b.exchange in h.exchanges.exchanges && b.queue in h.queues.queues {
      B.BindKeepsMirror(h.bindings, b, DurableBinding(h, b), true);
    }
  }

  lemma {:induction false} DeleteRecoverable(h: Host, name: Str)
    requires Recoverable(h)
    ensures Recoverable(DeleteQueueHost(h, name, true, true))
  {
    PruneRecoverable(h, B.OfQueue(name));
  }

  lemma {:induction false} DeclareRecoverable(h: Host, q: Q.MsgQueue, h': Host)
    requires Recoverable(h) && Does(h, DeclareQueue(q, true), h')
    ensures Recoverable(h') && q.name in h'.queues.queues
  {
  }

  lemma {:induction false} StepRecoverable(h: Host, op: HostOp, h': Host)
    requires Recoverable(h) && Does(h, op, h') && TablesWork(op)
    ensures Recoverable(h')
  {
    match op
    case DeclareExchange(x, works) =>
    case DeleteExchange(name, rowsWork, works) => PruneRecoverable(h, B.OfExchange(name));
    case DeclareQueue(q, works) => DeclareRecoverable(h, q, h');
    case DeleteQueue(name, rowsWork, works) => DeleteRecoverable(h, name);
    case Bind(b, works) => BindRecoverable(h, b);
    case UnBind(e, q, works) => PruneRecoverable(h, B.Both(e, q));
    case Publish(q, given, body, minted) =>
    case Consume(q) =>
    case Ack(q, id) =>
  }

  lemma {:induction false} RestartRecoverable(h: Host)
    requires Recoverable(h)
    ensures Recoverable(Restarted(h))
  {
    B.RestartRebuildsDurable(h.bindings);
    RestoredKeys(h.queues.rows);
  }
}
