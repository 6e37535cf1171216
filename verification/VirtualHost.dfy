/** `VirtualHost`: exchanges, queues, bindings and message stores, changed together in a fixed order. */
module VirtualHost {
  import opened Bytes
  import opened PayloadCodec
  import opened MessageLog
  import opened MessageMapper
  import opened QueueStore
  import opened Arguments
  import opened Routing
  import X = Exchanges
  import Q = Queues
  import B = Bindings
  import M = MessageStores

  datatype Host = Host(exchanges: X.State, queues: Q.State, bindings: B.State, messages: M.State)

  /** An operation with its arguments and, for each statement on a table, whether it succeeds. */
  datatype HostOp =
    | DeclareExchange(x: X.Exchange, works: bool)
    | DeleteExchange(name: Str, rowsWork: bool, works: bool)
    | DeclareQueue(queue: Q.MsgQueue, works: bool)
    | DeleteQueue(name: Str, rowsWork: bool, works: bool)
    | Bind(b: B.Binding, works: bool)
    | UnBind(e: Str, q: Str, works: bool)
    | Publish(q: Str, given: Option<Properties>, body: Str, minted: Str)
    | Consume(q: Str)
    | Ack(q: Str, id: Str)

  /** Durable only when both ends are; any mode but 0 counts as durable for the exchange. */
  predicate DurableBinding(h: Host, b: B.Binding)
    requires b.exchange in h.exchanges.exchanges && b.queue in h.queues.queues
  {
    h.exchanges.exchanges[b.exchange].mode != UNKNOWNMODE && h.queues.queues[b.queue].durable
  }

  function BindHost(h: Host, b: B.Binding, works: bool): Host {
    if b.exchange in h.exchanges.exchanges && b.queue in h.queues.queues then
      h.(bindings := B.BindStep(h.bindings, b, DurableBinding(h, b), works))
    else h
  }

  function DeleteExchangeHost(h: Host, name: Str, rowsWork: bool, works: bool): Host {
    h.(bindings := B.PruneStep(h.bindings, B.OfExchange(name), rowsWork),
       exchanges := X.DeleteStep(h.exchanges, name, works))
  }

  function DeleteQueueHost(h: Host, name: Str, rowsWork: bool, works: bool): Host {
    h.(bindings := B.PruneStep(h.bindings, B.OfQueue(name), rowsWork),
       messages := M.DestroyStep(h.messages, name),
       queues := Q.DeleteStep(h.queues, name, works))
  }

  function PublishHost(h: Host, q: Str, given: Option<Properties>, body: Str, minted: Str): Host {
    if q in h.queues.queues then
      h.(messages := M.InsertedInto(h.messages, q, Built(given, body, h.queues.queues[q].durable, minted)))
    else h
  }

  predicate NoneWaits(h: Host, q: Str) {
    q !in h.messages.stores || h.messages.stores[q].pending == []
  }

  /** `m` is the oldest message that waits for delivery. */
  predicate FirstWaits(h: Host, q: Str, m: Msg) {
    q in h.messages.stores && h.messages.stores[q].pending != [] && h.messages.stores[q].pending[0] == m
  }

  predicate Ackable(h: Host, q: Str, id: Str) {
    q in h.messages.stores ==> id in h.messages.stores[q].waitack
  }

  /** What each operation may do: the rows written depend on the order in which arguments are traversed. */
  ghost predicate Does(h: Host, op: HostOp, h': Host) {
    match op
    case DeclareExchange(x, works) =>
      X.DeclareStep(h.exchanges, x, works, h'.exchanges) && h' == h.(exchanges := h'.exchanges)
    case DeleteExchange(name, rowsWork, works) => h' == DeleteExchangeHost(h, name, rowsWork, works)
    case DeclareQueue(q, works) =>
      Q.DeclareStep(h.queues, q, works, h'.queues)
      && h' == h.(messages := M.InitStep(h.messages, q.name), queues := h'.queues)
    case DeleteQueue(name, rowsWork, works) => h' == DeleteQueueHost(h, name, rowsWork, works)
    case Bind(b, works) => h' == BindHost(h, b, works)
    case UnBind(e, q, works) => h' == h.(bindings := B.PruneStep(h.bindings, B.Both(e, q), works))
    case Publish(q, given, body, minted) => h' == PublishHost(h, q, given, body, minted)
    case Consume(q) => h' == h.(messages := M.FrontOf(h.messages, q))
    case Ack(q, id) => Ackable(h, q, id) && h' == h.(messages := M.Acked(h.messages, q, id))
  }

  /** A new process on these tables and files. */
  function Started(exchanges: map<Str, X.Row>, queues: map<Str, Q.Row>, bindings: seq<B.Binding>,
                   folder: map<Str, Disk>): Host
  {
    Host(X.State(X.RestoredAll(exchanges), exchanges), Q.State(Q.RestoredAll(queues), queues),
         B.Restarted(bindings), M.InitAll(folder, queues.Keys))
  }

  lemma {:induction false} RestoredKeys(rows: map<Str, Q.Row>)
    ensures Q.RestoredAll(rows).Keys == rows.Keys
  {
  }

  function Restarted(h: Host): Host {
    Started(h.exchanges.rows, h.queues.rows, h.bindings.rows, M.LeftBehind(h.messages))
  }

  class VirtualHost {
    const exchanges: X.ExchangeManager
    const queues: Q.MsgQueueManager
    const bindings: B.BindingManager
    const messages: M.MessageManager

    /** The objects that are not the stores'. */
    ghost function Tables(): set<object> {
      {exchanges, exchanges.mapper, queues, queues.mapper, bindings, bindings.mapper}
    }

    ghost predicate Valid()
      reads messages, messages.Repr
    {
      messages.Valid() && Tables() !! messages.Repr
    }

    ghost function View(): Host
      reads exchanges, exchanges.mapper, queues, queues.mapper, bindings, bindings.mapper, messages
    {
      Host(exchanges.View(), queues.View(), bindings.View(), messages.View())
    }

    constructor (xm: X.ExchangeMapper, qm: Q.MsgQueueMapper, bm: B.BindingMapper, folder: map<Str, Disk>)
      ensures exchanges.mapper == xm && queues.mapper == qm && bindings.mapper == bm
      ensures Valid() && fresh(messages.Repr) && fresh(exchanges) && fresh(queues) && fresh(bindings)
      ensures View() == Started(xm.rows, qm.rows, bm.rows, folder) && B.Sane(View().bindings)
    {
      exchanges := new X.ExchangeManager(xm);
      queues := new Q.MsgQueueManager(qm);
      bindings := new B.BindingManager(bm);
      messages := new M.MessageManager(folder);
      new;
      RestoredKeys(qm.rows);
      InitMessages(folder);
    }

    /** The loop over the recovered queues, in any order. */
    method InitMessages(folder: map<Str, Disk>)
      requires Valid() && messages.View() == M.State(folder, map[])
      modifies messages
      ensures Valid() && fresh(messages.Repr - old(messages.Repr))
      ensures messages.View() == M.InitAll(folder, queues.queues.Keys)
    {
      hide M.MessageManager.Valid, Recovered;
      var left, done := queues.queues.Keys, {};
      M.InitNone(folder);
      while left != {}
        invariant left !! done && left + done == queues.queues.Keys
        invariant Valid() && fresh(messages.Repr - old(messages.Repr))
        invariant messages.View() == M.InitAll(folder, done)
        decreases left
      {
        var q :| q in left;
        M.InitOneMore(folder, done, q);
        messages.InitQueueMessage(q);
        left, done := left - {q}, done + {q};
      }
    }

    method DeclareExchange(name: Str, kind: ExchangeType, mode: Mode, autoDelete: bool, args: Args, works: bool)
      returns (ok: bool)
      modifies exchanges, exchanges.mapper
      ensures var x := X.Exchange(name, kind, mode, autoDelete, args);
              && Does(old(View()), HostOp.DeclareExchange(x, works), View())
              && ok == !X.Refused(old(View()).exchanges, x, works)
    {
      ok := exchanges.DeclareExchange(name, kind, mode, autoDelete, args, works);
    }

    method DeleteExchange(name: Str, rowsWork: bool, works: bool) returns (ok: bool)
      requires B.Sane(View().bindings)
      modifies exchanges, exchanges.mapper, bindings, bindings.mapper
      ensures Does(old(View()), HostOp.DeleteExchange(name, rowsWork, works), View())
      ensures ok == !X.Undeletable(old(View()).exchanges, name, works)
    {
      bindings.RemoveExchangeBindings(name, rowsWork);
      ok := exchanges.DeleteExchange(name, works);
    }

    method DeclareQueue(name: Str, durable: bool, exclusive: bool, autoDelete: bool, args: Args, works: bool)
      returns (ok: bool)
      requires Valid()
      modifies queues, queues.mapper, messages
      ensures Valid() && fresh(messages.Repr - old(messages.Repr))
      ensures var q := Q.MsgQueue(name, durable, exclusive, autoDelete, args);
              Does(old(View()), HostOp.DeclareQueue(q, works), View()) && ok == !Q.Refused(old(View()).queues, q, works)
    {
      hide M.MessageManager.Valid, Recovered;
      messages.InitQueueMessage(name);
      ok := queues.DeclareQueue(name, durable, exclusive, autoDelete, args, works);
    }

    method DeleteQueue(name: Str, rowsWork: bool, works: bool) returns (ok: bool)
      requires Valid()
      modifies queues, queues.mapper, bindings, bindings.mapper, messages.Repr
      ensures Valid() && messages.Repr <= old(messages.Repr)
      ensures Does(old(View()), HostOp.DeleteQueue(name, rowsWork, works), View())
      ensures ok == !Q.Undeletable(old(View()).queues, name, works)
    {
      bindings.RemoveMsgQueueBindings(name, rowsWork);
      messages.DestroyQueueMessage(name);
      ok := queues.DeleteQueue(name, works);
    }

    method Bind(e: Str, q: Str, key: Str, works: bool) returns (ok: bool)
      modifies bindings, bindings.mapper
      ensures Does(old(View()), HostOp.Bind(B.Binding(e, q, key), works), View())
      ensures var h, b := old(View()), B.Binding(e, q, key);
              ok <==> && e in h.exchanges.exchanges && q in h.queues.queues
                      && !B.Refused(h.bindings, b, DurableBinding(h, b), works)
      ensures var h, rows := old(View()), old(View()).bindings.rows;
              ok && !B.Bound(h.bindings.bindings, e, q) ==>
                && B.Bound(View().bindings.bindings, e, q)
                && View().bindings.bindings[e][q] == B.Binding(e, q, key)
                && View().bindings.rows == if h.exchanges.exchanges[e].mode != 0 && h.queues.queues[q].durable
                                           then rows + [B.Binding(e, q, key)] else rows
    {
      var x := exchanges.SelectExchange(e);
      if x == None {
        return false;
      }
      var queue := queues.SelectQueue(q);
      if queue == None {
        return false;
      }
      ok := bindings.Bind(e, q, key, x.value.mode != UNKNOWNMODE && queue.value.durable, works);
    }

    method UnBind(e: Str, q: Str, works: bool)
      requires B.Sane(View().bindings)
      modifies bindings, bindings.mapper
      ensures Does(old(View()), HostOp.UnBind(e, q, works), View())
    {
      bindings.UnBind(e, q, works);
    }

    method BasicPublish(q: Str, given: Option<Properties>, body: Str, minted: Str) returns (ok: bool)
      requires Valid()
      modifies messages.Repr
      ensures Valid() && fresh(messages.Repr - old(messages.Repr))
      ensures Does(old(View()), Publish(q, given, body, minted), View())
      ensures var h := old(View());
              ok <==> && q in h.queues.queues && q in h.messages.stores
                      && (IsDurable(Built(given, body, h.queues.queues[q].durable, minted)) ==>
                            h.messages.stores[q].disk.data.Some?)
    {
      var queue := queues.SelectQueue(q);
      if queue == None {
        return false;
      }
      ok := messages.Insert(q, given, body, queue.value.durable, minted);
    }

    method BasicConsume(q: Str) returns (m: Message?)
      requires Valid()
      modifies messages.Repr
      ensures Valid() && messages.Repr == old(messages.Repr)
      ensures Does(old(View()), Consume(q), View())
      ensures m == null <==> NoneWaits(old(View()), q)
      ensures m != null ==> m in messages.Repr && FirstWaits(old(View()), q, m.View())
    {
      m := messages.Front(q);
    }

    method BasicAck(q: Str, id: Str)
      requires Valid() && Ackable(View(), q, id)
      modifies messages.Repr
      ensures Valid() && messages.Repr == old(messages.Repr)
      ensures Does(old(View()), HostOp.Ack(q, id), View())
    {
      messages.Ack(q, id);
    }
  }

  // ---- Referential integrity ----

  /** Every binding names a declared exchange and a declared queue, and every declared queue has a store. */
  ghost predicate Integrity(h: Host) {
    && (forall e, q :: B.Bound(h.bindings.bindings, e, q) ==> e in h.exchanges.exchanges && q in h.queues.queues)
    && (forall q :: q in h.queues.queues ==> q in h.messages.stores)
  }

  lemma {:induction false} PruneBound(s: B.State, f: B.Filter, works: bool)
    ensures forall e, q :: B.Bound(B.PruneStep(s, f, works).bindings, e, q) <==>
                             B.Bound(s.bindings, e, q) && !B.Hits(f, e, q)
  {
    forall e, q
      ensures B.Bound(B.PruneStep(s, f, works).bindings, e, q) <==> B.Bound(s.bindings, e, q) && !B.Hits(f, e, q)
    {
      B.PrunedBound(s.bindings, f, e, q);
    }
  }

  lemma {:induction false} DeleteQueueIntegrity(h: Host, name: Str, rowsWork: bool, works: bool)
    requires Integrity(h)
    ensures Integrity(DeleteQueueHost(h, name, rowsWork, works)) <==> !Q.Undeletable(h.queues, name, works)
  {
    var h' := DeleteQueueHost(h, name, rowsWork, works);
    PruneBound(h.bindings, B.OfQueue(name), rowsWork);
    if Q.Undeletable(h.queues, name, works) {
      assert name in h'.queues.queues && name !in h'.messages.stores;
    }
  }

  lemma {:induction false} DeleteExchangeIntegrity(h: Host, name: Str, rowsWork: bool, works: bool)
    requires Integrity(h)
    ensures Integrity(DeleteExchangeHost(h, name, rowsWork, works))
  {
    PruneBound(h.bindings, B.OfExchange(name), rowsWork);
  }

  lemma {:induction false} BindIntegrity(h: Host, b: B.Binding, works: bool)
    requires Integrity(h)
    ensures Integrity(BindHost(h, b, works))
  {
    forall e, q
      ensures B.Bound(B.Added(h.bindings.bindings, b), e, q) <==>
                B.Bound(h.bindings.bindings, e, q) || (e == b.exchange && q == b.queue)
    {
      B.AddedBound(h.bindings.bindings, b, e, q);
    }
  }

  lemma {:induction false} UnBindIntegrity(h: Host, f: B.Filter, works: bool)
    requires Integrity(h)
    ensures Integrity(h.(bindings := B.PruneStep(h.bindings, f, works)))
  {
    PruneBound(h.bindings, f, works);
  }

  /** More exchanges, queues or stores, with the same bindings. */
  lemma {:induction false} GrownIntegrity(h: Host, h': Host)
    requires Integrity(h) && h'.bindings == h.bindings
    requires h.exchanges.exchanges.Keys <= h'.exchanges.exchanges.Keys
    requires h.queues.queues.Keys <= h'.queues.queues.Keys
    requires h.messages.stores.Keys <= h'.messages.stores.Keys
    requires forall q :: q in h'.queues.queues && q !in h.queues.queues ==> q in h'.messages.stores
    ensures Integrity(h')
  {
  }

  /**
   What an operation does whether or not it succeeds: a declared queue's store is open, and a deletion has taken
   the bindings, the queue's store too, while every other store and every other binding stays.
   */
  lemma {:induction false} DoneAnyway(h: Host, op: HostOp, h': Host, x: Str, q: Str)
    requires Does(h, op, h')
    ensures op.DeclareQueue? ==>
              (q in h'.messages.stores <==> q in h.messages.stores || q == op.queue.name) && h'.bindings == h.bindings
    ensures op.DeleteQueue? ==>
              && (q in h'.messages.stores <==> q in h.messages.stores && q != op.name)
              && (B.Bound(h'.bindings.bindings, x, q) <==> B.Bound(h.bindings.bindings, x, q) && q != op.name)
    ensures op.DeleteExchange? ==>
              && (B.Bound(h'.bindings.bindings, x, q) <==> B.Bound(h.bindings.bindings, x, q) && x != op.name)
              && h'.messages == h.messages && h'.queues == h.queues
    ensures op.UnBind? ==>
              && (B.Bound(h'.bindings.bindings, x, q) <==>
                    B.Bound(h.bindings.bindings, x, q) && !(x == op.e && q == op.q))
              && h'.messages == h.messages && h'.queues == h.queues && h'.exchanges == h.exchanges
  {
    match op
    case DeleteExchange(name, rowsWork, works) => B.PrunedBound(h.bindings.bindings, B.OfExchange(name), x, q);
    case DeleteQueue(name, rowsWork, works) => B.PrunedBound(h.bindings.bindings, B.OfQueue(name), x, q);
    case UnBind(e, p, works) => B.PrunedBound(h.bindings.bindings, B.Both(e, p), x, q);
    case _ =>
  }

  /** An operation keeps the integrity unless it is the deletion of a durable queue whose row cannot be deleted. */
  lemma {:induction false} IntegrityIff(h: Host, op: HostOp, h': Host)
    requires Integrity(h) && Does(h, op, h')
    ensures Integrity(h') <==> !(op.DeleteQueue? && Q.Undeletable(h.queues, op.name, op.works))
  {
    match op
    case DeleteExchange(name, rowsWork, works) => DeleteExchangeIntegrity(h, name, rowsWork, works);
    case DeleteQueue(name, rowsWork, works) => DeleteQueueIntegrity(h, name, rowsWork, works);
    case Bind(b, works) => BindIntegrity(h, b, works);
    case UnBind(e, q, works) => UnBindIntegrity(h, B.Both(e, q), works);
    case _ => GrownIntegrity(h, h');
  }
}
