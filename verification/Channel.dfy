/** `Channel`: the publication of a message to every bound queue it is routed to, and the delivery of one message. */
module Channel {
  import opened Bytes
  import opened PayloadCodec
  import opened MessageLog
  import opened QueueStore
  import opened MessageMapper
  import opened Splitting
  import opened Routing
  import opened Consumers
  import opened HostRuns
  import opened VirtualHost
  import B = Bindings
  import M = MessageStores

  // ---- What a publication does ----

  /** The queues bound to an exchange whose binding key takes the routing key. */
  function Targets(h: Host, exchange: Str, routingKey: Str): (r: set<Str>)
    requires exchange in h.exchanges.exchanges
  {
    var m := h.bindings.bindings;
    if exchange !in m then {} else RoutedIn(m[exchange], h.exchanges.exchanges[exchange].kind, routingKey)
  }

  function RoutedIn(bound: B.QueueBindings, kind: ExchangeType, routingKey: Str): set<Str> {
    set q | q in bound && Routes(kind, bound[q].key, routingKey)
  }

  /** A topic binding key has at least one word: the code reads the first one. */
  ghost predicate KeysRoutable(h: Host, exchange: Str, routingKey: Str)
    requires exchange in h.exchanges.exchanges
  {
    forall q :: B.Bound(h.bindings.bindings, exchange, q) ==>
      Routable(h.exchanges.exchanges[exchange].kind, h.bindings.bindings[exchange][q].key, routingKey)
  }

  function KeyOf(given: Option<Properties>): Str {
    match given case None => [] case Some(p) => p.routingKey
  }

  /** The payload a queue's copy has; `minted` gives the identifier minted for it when there are no properties. */
  function CopyFor(h: Host, q: Str, given: Option<Properties>, body: Str, minted: Str -> Str): Payload
    requires q in h.queues.queues
  {
    Built(given, body, h.queues.queues[q].durable, minted(q))
  }

  /** Each declared queue of `targets` has received its copy. */
  function PublishedTo(h: Host, targets: set<Str>, given: Option<Properties>, body: Str, minted: Str -> Str): Host {
    h.(messages := h.messages.(stores := map q | q in h.messages.stores ::
      if q in targets && q in h.queues.queues then InsertStep(h.messages.stores[q], CopyFor(h, q, given, body, minted))
      else h.messages.stores[q]))
  }

  lemma {:induction false} PublishedToNone(h: Host, given: Option<Properties>, body: Str, minted: Str -> Str)
    ensures PublishedTo(h, {}, given, body, minted) == h
  {
    assert PublishedTo(h, {}, given, body, minted).messages.stores == h.messages.stores;
  }

  lemma {:induction false} Updated<K, V>(m: map<K, V>, f: map<K, V>, g: map<K, V>, k: K, v: V)
    requires f.Keys == m.Keys == g.Keys && k in m && g[k] == v
    requires forall j :: j in m && j != k ==> f[j] == g[j]
    ensures f[k := v] == g
  {
  }

  /** One more copy: whichever queue comes next, the result is the same. */
  lemma {:induction false} PublishedToOneMore(h: Host, targets: set<Str>, q: Str, given: Option<Properties>, body: Str,
                                              minted: Str -> Str)
    requires q !in targets
    ensures PublishHost(PublishedTo(h, targets, given, body, minted), q, given, body, minted(q))
            == PublishedTo(h, targets + {q}, given, body, minted)
  {
    var f := PublishedTo(h, targets, given, body, minted).messages.stores;
    var g := PublishedTo(h, targets + {q}, given, body, minted).messages.stores;
    if q in h.queues.queues && q in h.messages.stores {
      Updated(h.messages.stores, f, g, q, g[q]);
    } else {
      assert f == g;
    }
  }

  /** The publications to these queues, in this order. */
  function Publications(order: seq<Str>, given: Option<Properties>, body: Str, minted: Str -> Str): (ops: seq<HostOp>)
    ensures |ops| == |order|
    ensures forall i :: 0 <= i < |order| ==> ops[i] == Publish(order[i], given, body, minted(order[i]))
  {
    seq(|order|, i requires 0 <= i < |order| => Publish(order[i], given, body, minted(order[i])))
  }

  ghost predicate Permutes(order: seq<Str>, names: set<Str>) {
    && (forall i, j :: 0 <= i < j < |order| ==> order[i] != order[j])
    && (forall q :: q in order <==> q in names)
  }

  lemma {:induction false} AllServed(order: seq<Str>, bound: B.QueueBindings, kind: ExchangeType, routingKey: Str)
    requires forall i, j :: 0 <= i < j < |order| ==> order[i] != order[j]
    requires forall q :: q in order <==> q in bound && Routes(kind, bound[q].key, routingKey)
    ensures Permutes(order, RoutedIn(bound, kind, routingKey))
  {
  }

  /**
   Whom a publication reaches: with a fanout exchange every queue bound with a legal key, with a direct one
   those bound with the routing key, with a topic one those whose key's words match; nobody else.
   */
  ghost predicate ByKind(h: Host, exchange: Str, routingKey: Str, order: seq<Str>)
    requires exchange in h.exchanges.exchanges
  {
    var m, kind := h.bindings.bindings, h.exchanges.exchanges[exchange].kind;
    && (forall q :: q in order ==> B.Bound(m, exchange, q) && LegalRoutingKey(routingKey) && kind != UnknownType)
    && (LegalRoutingKey(routingKey) ==> forall q :: B.Bound(m, exchange, q) ==>
          var key := m[exchange][q].key;
          && (kind == Fanout ==> (q in order <==> LegalBindingKey(key)))
          && (kind == Direct ==> (q in order <==> key == routingKey))
          && (kind == Topic ==>
                (q in order <==> LegalBindingKey(key) && Matches(Words(key, [46]), Words(routingKey, [46])))))
  }

  lemma {:induction false} ServedByKind(h: Host, exchange: Str, routingKey: Str, order: seq<Str>)
    requires exchange in h.exchanges.exchanges && Permutes(order, Targets(h, exchange, routingKey))
    ensures ByKind(h, exchange, routingKey, order)
  {
    hide LegalRoutingKey, LegalBindingKey, Matches, Words;
    if LegalRoutingKey(routingKey) {
      RoutingKeysBind(routingKey);
    }
  }

  function Elements(order: seq<Str>): set<Str> {
    set q | q in order
  }

  /** These hosts are passed through when the copies are published in this order. */
  ghost predicate PublishedAlong(hs: seq<Host>, order: seq<Str>, given: Option<Properties>, body: Str,
                                 minted: Str -> Str) {
    Path(hs, Publications(order, given, body, minted))
  }

  lemma {:induction false} PublishedNone(h: Host, given: Option<Properties>, body: Str, minted: Str -> Str)
    ensures PublishedAlong([h], [], given, body, minted)
  {
  }

  lemma {:induction false} PublishedFurther(hs: seq<Host>, order: seq<Str>, given: Option<Properties>, body: Str,
                                            minted: Str -> Str, q: Str, h: Host)
    requires PublishedAlong(hs, order, given, body, minted)
    requires h == PublishHost(hs[|order|], q, given, body, minted(q))
    ensures PublishedAlong(hs + [h], order + [q], given, body, minted)
  {
    var ops, ops' := Publications(order, given, body, minted), Publications(order + [q], given, body, minted);
    forall i | 0 <= i < |ops'| ensures Does((hs + [h])[i], ops'[i], (hs + [h])[i + 1]) {
      if i < |order| {
        assert ops'[i] == ops[i];
      }
    }
  }

  /** The tail of a queue is the copy, and nothing else changed among the messages held. */
  ghost predicate GainedOne(s: Store, s': Store, p: Payload) {
    && |s'.pending| == |s.pending| + 1 && s'.pending[..|s.pending|] == s.pending
    && s'.pending[|s.pending|].payload == p
    && s'.waitack == s.waitack
  }

  lemma {:induction false} InsertGains(s: Store, p: Payload)
    requires s.disk.data.Some?
    ensures GainedOne(s, InsertStep(s, p), p)
  {
  }

  /** After `n` of the publications: only messages have changed, and only in the stores published to. */
  lemma {:induction false} PublishedPart(hs: seq<Host>, order: seq<Str>, given: Option<Properties>, body: Str,
                                         minted: Str -> Str, q: Str, n: nat)
    requires PublishedAlong(hs, order, given, body, minted) && n <= |order|
    requires forall i, j :: 0 <= i < j < |order| ==> order[i] != order[j]
    requires q in hs[0].messages.stores && hs[0].messages.stores[q].disk.data.Some?
    ensures hs[n] == hs[0].(messages := hs[n].messages)
    ensures hs[n].messages.stores.Keys == hs[0].messages.stores.Keys
    ensures var s, s' := hs[0].messages.stores[q], hs[n].messages.stores[q];
            if q in order[..n] && q in hs[0].queues.queues then GainedOne(s, s', CopyFor(hs[0], q, given, body, minted))
            else s' == s
  {
    if n > 0 {
      PublishedPart(hs, order, given, body, minted, q, n - 1);
      var op := Publications(order, given, body, minted)[n - 1];
      assert Does(hs[n - 1], op, hs[n]);
      assert order[..n] == order[..n - 1] + [order[n - 1]];
      if q == order[n - 1] && q in hs[0].queues.queues {
        InsertGains(hs[0].messages.stores[q], CopyFor(hs[0], q, given, body, minted));
      }
    }
  }

  /**
   Publishing, whatever the order in which the queues that are routed to are served, appends exactly one copy
   to the tail of each of them that is declared, which all are with referential integrity, and leaves every other
   store, and all but the stores, as it was.
   */
  lemma {:induction false} FanOut(hs: seq<Host>, exchange: Str, key: Str, order: seq<Str>, given: Option<Properties>,
                                  body: Str, minted: Str -> Str, q: Str)
    requires PublishedAlong(hs, order, given, body, minted)
    requires exchange in hs[0].exchanges.exchanges && Permutes(order, Targets(hs[0], exchange, key))
    requires q in hs[0].messages.stores && hs[0].messages.stores[q].disk.data.Some?
    ensures hs[|order|] == hs[0].(messages := hs[|order|].messages)
    ensures hs[|order|].messages.stores.Keys == hs[0].messages.stores.Keys
    ensures var s, s' := hs[0].messages.stores[q], hs[|order|].messages.stores[q];
            if q in Targets(hs[0], exchange, key) && q in hs[0].queues.queues then
              && GainedOne(s, s', CopyFor(hs[0], q, given, body, minted))
              && CopyOf(s'.pending[|s.pending|].payload, given, body, hs[0].queues.queues[q].durable, minted(q))
            else s' == s
    ensures Integrity(hs[0]) && q in Targets(hs[0], exchange, key) ==> q in hs[0].queues.queues
  {
    if q in hs[0].queues.queues {
      BuiltIsCopy(given, body, hs[0].queues.queues[q].durable, minted(q));
    }
    PublishedPart(hs, order, given, body, minted, q, |order|);
    assert order[..|order|] == order;
    if q in Targets(hs[0], exchange, key) {
      assert B.Bound(hs[0].bindings.bindings, exchange, q);
    }
  }

  lemma {:induction false} PublishedUpTo(hs: seq<Host>, order: seq<Str>, given: Option<Properties>, body: Str,
                                         minted: Str -> Str, n: nat)
    requires PublishedAlong(hs, order, given, body, minted) && n <= |order|
    requires forall i, j :: 0 <= i < j < |order| ==> order[i] != order[j]
    ensures hs[n] == PublishedTo(hs[0], Elements(order[..n]), given, body, minted)
  {
    var served := Elements(order[..n]);
    if n == 0 {
      PublishedToNone(hs[0], given, body, minted);
      assert served == {};
    } else {
      var before := Elements(order[..n - 1]);
      PublishedUpTo(hs, order, given, body, minted, n - 1);
      assert Does(hs[n - 1], Publications(order, given, body, minted)[n - 1], hs[n]);
      assert order[..n] == order[..n - 1] + [order[n - 1]];
      assert served == before + {order[n - 1]};
      PublishedToOneMore(hs[0], before, order[n - 1], given, body, minted);
    }
  }

  /** The order does not matter: two ways to serve the same queues end in the same state. */
  lemma {:induction false} AnyOrder(hs: seq<Host>, hs': seq<Host>, order: seq<Str>, order': seq<Str>, names: set<Str>,
                                    given: Option<Properties>, body: Str, minted: Str -> Str)
    requires PublishedAlong(hs, order, given, body, minted) && PublishedAlong(hs', order', given, body, minted)
    requires Permutes(order, names) && Permutes(order', names) && hs[0] == hs'[0]
    ensures hs[|order|] == hs'[|order'|]
  {
    PublishedUpTo(hs, order, given, body, minted, |order|);
    PublishedUpTo(hs', order', given, body, minted, |order'|);
    assert order[..|order|] == order && order'[..|order'|] == order';
    assert Elements(order) == names && Elements(order') == names;
  }

  // ---- What a delivery does ----

  /** What the subscriber's callback is given. */
  datatype Delivery = Delivery(tag: Str, properties: Properties, body: Str)

  function Delivered(tag: Str, p: Payload): Delivery {
    Delivery(tag, match p.properties case Some(q) => q case None => NO_PROPERTIES, p.body)
  }

  /** The oldest message leaves the queue; with automatic acknowledgement it is acknowledged at once. */
  function ConsumedFrom(h: Host, q: Str, acked: bool): Host {
    if q !in h.messages.stores || h.messages.stores[q].pending == [] then h
    else
      var m := h.messages.stores[q].pending[0];
      var fronted := h.(messages := M.FrontOf(h.messages, q));
      if acked then AckedIn(fronted, q, MsgId(m)) else fronted
  }

  /** A delivery from `q` moves its counter by exactly one, which wraps at 2^64, and no other counter. */
  predicate TurnTaken(before: map<Str, nat>, q: Str, delivered: bool, now: map<Str, nat>) {
    && now.Keys == before.Keys && (delivered ==> q in before)
    && forall p :: p in before ==>
         now[p] == if p == q && delivered then (before[p] + 1) % 0x1_0000_0000_0000_0000 else before[p]
  }

  /** The subscriber with this tag is handed the body and the properties of this message. */
  predicate Hands(d: Delivery, tag: Str, p: Payload) {
    d.tag == tag && d.body == p.body && (p.properties.Some? ==> d.properties == p.properties.value)
  }

  lemma {:induction false} HandsOut(h: Host, q: Str, next: Option<Consumer>, h': Host, d: Option<Delivery>)
    requires Handled(h, q, next, h', d) && next.Some?
    requires q in h.messages.stores && h.messages.stores[q].pending != []
    ensures d.Some? && Hands(d.value, next.value.tag, h.messages.stores[q].pending[0].payload)
    ensures q in h'.messages.stores && h'.messages.stores[q].pending == h.messages.stores[q].pending[1..]
    ensures !NoneWaits(h, q)
  {
    hide Clear, Collect;
  }

  /** Acknowledged at once exactly if the subscriber asked for that; otherwise the message waits. */
  lemma {:induction false} HandsOutAcked(h: Host, q: Str, next: Option<Consumer>, h': Host, d: Option<Delivery>)
    requires Handled(h, q, next, h', d)
    requires q in h.messages.stores && h.messages.stores[q].pending != []
    ensures q in h'.messages.stores
    ensures MsgId(h.messages.stores[q].pending[0]) in h'.messages.stores[q].waitack
            <==> !(next.Some? && next.value.autoAck)
  {
    hide Clear, Collect;
  }

  /** What was published is what is delivered. */
  lemma {:induction false} CopyDelivered(d: Delivery, tag: Str, p: Payload, given: Option<Properties>, body: Str,
                                         durableQueue: bool, minted: Str)
    requires CopyOf(p, given, body, durableQueue, minted) && Hands(d, tag, p)
    ensures d.tag == tag && d.body == body
    ensures d.properties.id == (match given case Some(q) => q.id case None => minted)
    ensures d.properties.routingKey == (match given case Some(q) => q.routingKey case None => [])
  {
  }

  lemma {:induction false} TakenOne(before: map<Str, nat>, q: Str, now: map<Str, nat>)
    requires TurnTaken(before, q, true, now)
    ensures q in now && q in before && now[q] == (before[q] + 1) % TWO64
  {
  }

  lemma {:induction false} NoTurn(counters: map<Str, nat>, q: Str)
    ensures TurnTaken(counters, q, false, counters)
  {
  }

  /** What consuming from `q` does, given the subscriber whose turn it is. */
  predicate Handled(h: Host, q: Str, next: Option<Consumer>, h': Host, d: Option<Delivery>) {
    var stores := h.messages.stores;
    if NoneWaits(h, q) then d == None && h' == h
    else
      && h' == ConsumedFrom(h, q, next.Some? && next.value.autoAck)
      && d == match next
              case None => None
              case Some(c) => Some(Delivered(c.tag, stores[q].pending[0].payload))
  }

  lemma {:induction false} AckableFront(h: Host, q: Str)
    requires q in h.messages.stores && h.messages.stores[q].pending != []
    ensures Ackable(h.(messages := M.FrontOf(h.messages, q)), q, MsgId(h.messages.stores[q].pending[0]))
  {
  }

  function AckedIn(h: Host, q: Str, id: Str): Host
    requires Ackable(h, q, id)
  {
    h.(messages := M.Acked(h.messages, q, id))
  }

  /** A delivery is one `Consume` of the broker's runs, and with automatic acknowledgement one `Ack` after it. */
  lemma {:induction false} DeliverySteps(h: Host, q: Str)
    requires q in h.messages.stores && h.messages.stores[q].pending != []
    ensures Does(h, HostOp.Consume(q), ConsumedFrom(h, q, false))
    ensures var id := MsgId(h.messages.stores[q].pending[0]);
            Does(ConsumedFrom(h, q, false), HostOp.Ack(q, id), ConsumedFrom(h, q, true))
  {
    AckableFront(h, q);
  }

  /**
   Delivery with automatic acknowledgement takes the first message out of its queue for good and leaves the
   other queues alone.
   */
  lemma {:induction false} AutoAckTakes(h: Host, q: Str, a: Ideal)
    requires q in h.messages.stores && Indexed(h.messages.stores[q], a) && a.pending != []
    ensures var s, s' := h.messages.stores[q], ConsumedFrom(h, q, true).messages.stores[q];
            && s.pending != [] && s'.pending == s.pending[1..] && s'.waitack == s.waitack
            && s'.durable == if IsDurable(s.pending[0].payload) then s.durable - {MsgId(s.pending[0])} else s.durable
    ensures ConsumedFrom(h, q, true)
            == h.(messages := h.messages.(stores :=
                 h.messages.stores[q := ConsumedFrom(h, q, true).messages.stores[q]]))
  {
    var s, p := h.messages.stores[q], a.pending[0];
    FrontWaits(s, a);
    AckTakes(FrontStep(s), s.pending[0]);
    assert FrontStep(s).waitack - {IdOf(p)} == s.waitack;
  }

  lemma {:induction false} AckTakes(s: Store, m: Msg)
    requires MsgId(m) in s.waitack && s.waitack[MsgId(m)] == m
    ensures AckStep(s, MsgId(m)).pending == s.pending && AckStep(s, MsgId(m)).waitack == s.waitack - {MsgId(m)}
    ensures AckStep(s, MsgId(m)).durable == if IsDurable(m.payload) then s.durable - {MsgId(m)} else s.durable
  {
    hide Clear, Collect;
    var cleared := ClearStep(s, MsgId(m));
    assert cleared.pending == s.pending && cleared.waitack == s.waitack - {MsgId(m)};
  }

  class Channel {
    const host: VirtualHost
    const consumers: ConsumerManager
    // The queues for which a delivery has been scheduled on the thread pool, in the order of the pushes.
    var tasks: seq<Str>

    /** The objects of this channel that are not the host's. */
    ghost predicate Valid()
      reads this, host.messages, host.messages.Repr, consumers, consumers.queues.Values
    {
      && host.Valid() && consumers.Valid()
      && {this, consumers} !! host.messages.Repr && consumers.queues.Values !! host.messages.Repr
    }

    constructor (host: VirtualHost, consumers: ConsumerManager)
      ensures this.host == host && this.consumers == consumers && tasks == []
    {
      this.host, this.consumers, tasks := host, consumers, [];
    }

    /** One round of the loop: a queue that is routed to gets its copy and a delivery is scheduled. */
    method PublishOne(kind: ExchangeType, key: Str, q: Str, given: Option<Properties>, body: Str, minted: Str -> Str)
      returns (routed: bool)
      requires Valid() && Routable(kind, key, KeyOf(given))
      modifies this`tasks, host.messages.Repr
      ensures Valid() && fresh(host.messages.Repr - old(host.messages.Repr))
      ensures routed == Routes(kind, key, KeyOf(given))
      ensures host.View()
              == if routed then PublishHost(old(host.View()), q, given, body, minted(q)) else old(host.View())
      ensures tasks == if routed then old(tasks) + [q] else old(tasks)
    {
      hide M.MessageManager.Valid, InsertStep, VirtualHost.Valid;
      hide Routes, LegalRoutingKey, LegalBindingKey, Matches, Words;
      routed := Route(kind, key, KeyOf(given));
      if routed {
        var _ := host.BasicPublish(q, given, body, minted(q));
        tasks := tasks + [q];
      }
    }

    /** The bindings are visited in any order, and for each queue served one delivery is scheduled, in that order. */
    method BasicPublish(exchange: Str, given: Option<Properties>, body: Str, minted: Str -> Str)
      returns (ok: bool, ghost order: seq<Str>, ghost hs: seq<Host>)
      requires Valid()
      requires var h := host.View();
               exchange in h.exchanges.exchanges ==> KeysRoutable(h, exchange, KeyOf(given))
      modifies this`tasks, host.messages.Repr
      ensures Valid() && fresh(host.messages.Repr - old(host.messages.Repr))
      ensures ok <==> exchange in old(host.View()).exchanges.exchanges
      ensures !ok ==> host.View() == old(host.View()) && tasks == old(tasks)
      ensures ok ==> && Permutes(order, Targets(old(host.View()), exchange,
                                                match given case None => [] case Some(p) => p.routingKey))
                     && PublishedAlong(hs, order, given, body, minted)
                     && hs[0] == old(host.View()) && hs[|order|] == host.View()
                     && tasks == old(tasks) + order
      ensures ok ==> ByKind(old(host.View()), exchange, match given case None => [] case Some(p) => p.routingKey, order)
    {
      hide M.MessageManager.Valid, InsertStep, PublishedAlong, Permutes, ByKind;
      ghost var h := host.View();
      order, hs := [], [];
      var x := host.exchanges.SelectExchange(exchange);
      if x == None {
        return false, [], [];
      }
      var bound := host.bindings.GetExchangeBindings(exchange);
      assert RoutedIn(bound, x.value.kind, KeyOf(given)) == Targets(h, exchange, KeyOf(given));
      order, hs := PublishAll(x.value.kind, bound, given, body, minted);
      ServedByKind(h, exchange, KeyOf(given), order);
      ok := true;
    }

    method PublishAll(kind: ExchangeType, bound: B.QueueBindings, given: Option<Properties>, body: Str,
                      minted: Str -> Str)
      returns (ghost order: seq<Str>, ghost hs: seq<Host>)
      requires Valid() && forall q :: q in bound ==> Routable(kind, bound[q].key, KeyOf(given))
      modifies this`tasks, host.messages.Repr
      ensures Valid() && fresh(host.messages.Repr - old(host.messages.Repr))
      ensures Permutes(order, RoutedIn(bound, kind, KeyOf(given)))
      ensures PublishedAlong(hs, order, given, body, minted)
      ensures hs[0] == old(host.View()) && hs[|order|] == host.View()
      ensures tasks == old(tasks) + order
    {
      hide *;
      order, hs := [], [host.View()];
      PublishedNone(host.View(), given, body, minted);
      var left := bound.Keys;
      while left != {}
        invariant Valid() && fresh(host.messages.Repr - old(host.messages.Repr))
        invariant left <= bound.Keys
        invariant forall q :: q in order <==> q in bound && q !in left && Routes(kind, bound[q].key, KeyOf(given))
        invariant forall i, j :: 0 <= i < j < |order| ==> order[i] != order[j]
        invariant |hs| == |order| + 1 && PublishedAlong(hs, order, given, body, minted)
        invariant hs[0] == old(host.View()) && hs[|order|] == host.View()
        invariant tasks == old(tasks) + order
        decreases left
      {
        var q :| q in left;
        var routed := PublishOne(kind, bound[q].key, q, given, body, minted);
        if routed {
          PublishedFurther(hs, order, given, body, minted, q, host.View());
          order, hs := order + [q], hs + [host.View()];
        }
        left := left - {q};
      }
      AllServed(order, bound, kind, KeyOf(given));
    }

    /** Runs on a worker of the thread pool. A message for which there is no consumer stays unacknowledged. */
    method Consume(q: Str) returns (d: Option<Delivery>)
      requires Valid()
      modifies host.messages.Repr, consumers.queues.Values
      ensures Valid() && consumers.queues == old(consumers.queues) && host.messages.Repr == old(host.messages.Repr)
      ensures Handled(old(host.View()), q, old(consumers.Next(q)), host.View(), d)
      ensures TurnTaken(old(Counters()), q, !NoneWaits(old(host.View()), q) && old(consumers.Next(q)).Some?, Counters())
      ensures Subscribers() == old(Subscribers())
    {
      hide M.MessageManager.Valid, AckStep, VirtualHost.Valid, VirtualHost.View;
      hide ConsumerManager.Valid, ConsumerManager.Next, TurnTaken;
      var m := host.BasicConsume(q);
      if m == null {
        NoTurn(Counters(), q);
        return None;
      }
      AckableFront(old(host.View()), q);
      d := Deliver(q, m);
    }

    /** The counters of the round robin, queue by queue. */
    ghost function Counters(): map<Str, nat>
      reads consumers, consumers.queues.Values
    {
      map p | p in consumers.queues :: consumers.queues[p].sequence
    }

    ghost function Subscribers(): map<Str, seq<Consumer>>
      reads consumers, consumers.queues.Values
    {
      map p | p in consumers.queues :: consumers.queues[p].consumers
    }

    /**
     `k` deliveries from a queue with subscribers and at least `k` messages: the messages go out in their order,
     each to the subscriber whose turn it is, and before the counter wraps nobody is served more than once more
     than another.
     */
    method ConsumeEach(q: Str, k: nat) returns (ds: seq<Delivery>, ghost served: seq<Consumer>)
      requires Valid() && q in Subscribers() && Subscribers()[q] != []
      requires q in host.View().messages.stores && k <= |host.View().messages.stores[q].pending|
      modifies host.messages.Repr, consumers.queues.Values
      ensures Valid() && Subscribers() == old(Subscribers()) && |ds| == |served| == k
      ensures q in host.View().messages.stores
              && host.View().messages.stores[q].pending == old(host.View()).messages.stores[q].pending[k..]
      ensures q in Counters() && Counters()[q] == (old(Counters())[q] + k) % TWO64
      ensures forall i :: 0 <= i < k ==>
                && served[i] == Subscribers()[q][Turn(old(Counters())[q], i, |Subscribers()[q]|)]
                && Hands(ds[i], served[i].tag, old(host.View()).messages.stores[q].pending[i].payload)
      ensures old(Counters())[q] + k <= TWO64 ==> Fair(Subscribers()[q], served)
    {
      hide *;
      ds, served := [], [];
      SubscribersValid(q);
      ghost var cs, start, msgs := Subscribers()[q], Counters()[q], host.View().messages.stores[q].pending;
      TurnStart(start);
      for j := 0 to k
        invariant Valid() && consumers.queues == old(consumers.queues)
        invariant host.messages.Repr == old(host.messages.Repr)
        invariant Subscribers() == old(Subscribers()) && |ds| == |served| == j
        invariant q in host.View().messages.stores && host.View().messages.stores[q].pending == msgs[j..]
        invariant q in Counters() && Counters()[q] == (start + j) % TWO64
        invariant forall i :: 0 <= i < j ==> served[i] == cs[Turn(start, i, |cs|)]
        invariant forall i :: 0 <= i < j ==> Hands(ds[i], served[i].tag, msgs[i].payload)
      {
        ghost var h, before := host.View(), Counters();
        TurnLater(start, j, |cs|);
        NextIs(q);
        ghost var next := consumers.Next(q);
        var d := Consume(q);
        HandsOut(h, q, next, host.View(), d);
        TakenOne(before, q, Counters());
        ds, served := ds + [d.value], served + [next.value];
      }
      if start + k <= TWO64 {
        ServedFairly(cs, start, served);
      }
    }

    lemma {:induction false} SubscribersValid(q: Str)
      requires Valid() && q in Subscribers()
      ensures DistinctTags(Subscribers()[q]) && q in Counters() && Counters()[q] < TWO64
    {
    }

    lemma {:induction false} NextIs(q: Str)
      requires Valid() && q in Subscribers() && Subscribers()[q] != []
      ensures q in Counters() && consumers.Valid()
      ensures consumers.Next(q) == Some(Subscribers()[q][Turn(Counters()[q], 0, |Subscribers()[q]|)])
    {
    }

    method NextSubscriber(q: Str) returns (c: Option<Consumer>)
      requires Valid()
      modifies consumers.queues.Values
      ensures Valid() && consumers.queues == old(consumers.queues) && c == old(consumers.Next(q))
      ensures TurnTaken(old(Counters()), q, c.Some?, Counters()) && Subscribers() == old(Subscribers())
    {
      hide M.MessageManager.Valid, VirtualHost.Valid, QueueConsumer.Valid, ConsumerManager.Next;
      NoSubscriber(q);
      c := consumers.Choose(q);
    }

    lemma {:induction false} NoSubscriber(q: Str)
      requires consumers.Valid()
      ensures consumers.Next(q).Some? ==> q in consumers.queues
    {
    }

    method Deliver(q: Str, m: Message) returns (d: Option<Delivery>)
      requires Valid() && m in host.messages.Repr && Ackable(host.View(), q, IdOf(m.payload))
      modifies host.messages.Repr, consumers.queues.Values
      ensures Valid() && consumers.queues == old(consumers.queues) && host.messages.Repr == old(host.messages.Repr)
      ensures match old(consumers.Next(q))
              case None => d == None && host.View() == old(host.View())
              case Some(c) =>
                && d == Some(Delivered(c.tag, old(m.payload)))
                && host.View() == if c.autoAck then AckedIn(old(host.View()), q, old(IdOf(m.payload)))
                                  else old(host.View())
      ensures TurnTaken(old(Counters()), q, old(consumers.Next(q)).Some?, Counters())
      ensures Subscribers() == old(Subscribers())
    {
      hide M.MessageManager.Valid, AckStep, VirtualHost.View, VirtualHost.Valid;
      hide QueueConsumer.Valid, ConsumerManager.Valid, ConsumerManager.Next, TurnTaken;
      var c := NextSubscriber(q);
      if c == None {
        return None;
      }
      d := Some(Delivered(c.value.tag, m.payload));
      if c.value.autoAck {
        host.BasicAck(q, IdOf(m.payload));
      }
    }
  }
}
