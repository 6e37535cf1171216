/** `MessageManager`: the message store of each queue, found by the queue's name. */
module MessageStores {
  import opened Bytes
  import opened PayloadCodec
  import opened MessageLog
  import opened QueueStore
  import opened MessageMapper
  import opened MessageQueue

  /** `folder` has the files of the names that have no store in memory. */
  datatype State = State(folder: map<Str, Disk>, stores: map<Str, Store>)

  function DiskOf(folder: map<Str, Disk>, q: Str): Disk {
    if q in folder then folder[q] else Disk(None, None)
  }

  /** A new store recovers whatever the files of its name hold. */
  function InitStep(s: State, q: Str): State {
    if q in s.stores then s
    else State(s.folder - {q}, s.stores[q := Recovered(DiskOf(s.folder, q))])
  }

  function Each<K, V>(keys: set<K>, f: K -> V): map<K, V> {
    map k | k in keys :: f(k)
  }

  function Opening(folder: map<Str, Disk>): Str -> Store {
    q => Recovered(DiskOf(folder, q))
  }

  /** All the stores a new process opens, in whatever order. */
  function InitAll(folder: map<Str, Disk>, names: set<Str>): State {
    State(folder - names, map q | q in names :: Recovered(DiskOf(folder, q)))
  }

  /** Destroying a store removes its files. */
  function DestroyStep(s: State, q: Str): State {
    s.(stores := s.stores - {q})
  }

  function InsertedInto(s: State, q: Str, p: Payload): State {
    if q in s.stores then s.(stores := s.stores[q := InsertStep(s.stores[q], p)]) else s
  }

  function FrontOf(s: State, q: Str): State {
    if q in s.stores then s.(stores := s.stores[q := FrontStep(s.stores[q])]) else s
  }

  function Acked(s: State, q: Str, id: Str): State
    requires q in s.stores ==> id in s.stores[q].waitack
  {
    if q in s.stores then s.(stores := s.stores[q := AckStep(s.stores[q], id)]) else s
  }

  /** The files a process that stops here leaves behind. */
  function LeftBehind(s: State): map<Str, Disk> {
    map q | q in s.folder.Keys + s.stores.Keys :: if q in s.stores then s.stores[q].disk else s.folder[q]
  }

  lemma {:induction false} InitNone(folder: map<Str, Disk>)
    ensures InitAll(folder, {}) == State(folder, map[])
  {
    assert folder - {} == folder;
  }

  lemma {:induction false} InitOneMore(folder: map<Str, Disk>, names: set<Str>, q: Str)
    requires q !in names
    ensures InitStep(InitAll(folder, names), q) == InitAll(folder, names + {q})
  {
    assert DiskOf(folder - names, q) == DiskOf(folder, q);
    assert folder - names - {q} == folder - (names + {q});
    InitEach(folder, names);
    InitEach(folder, names + {q});
    OneMore(names, Opening(folder), q);
  }

  lemma {:induction false} InitEach(folder: map<Str, Disk>, names: set<Str>)
    ensures InitAll(folder, names).stores == Each(names, Opening(folder))
  {
  }

  lemma {:induction false} OneMore<K, V>(keys: set<K>, f: K -> V, k: K)
    ensures Each(keys, f)[k := f(k)] == Each(keys + {k}, f)
  {
  }

  // ---- The stores as objects ----

  /** This store has this state and owns these objects. */
  ghost predicate Keeps(qm: QueueMessage, owned: set<object>, s: Store)
    reads owned
  {
    qm in owned && qm.Repr == owned && qm.Valid() && qm.State() == s
  }

  /** The stores, with the objects and the state of each; no object belongs to two of them. */
  ghost predicate Shelved<K(!new)>(queues: map<K, QueueMessage>, parts: map<K, set<object>>, stores: map<K, Store>,
                                   all: set<object>)
    reads all
  {
    && queues.Keys == parts.Keys == stores.Keys
    && (forall q :: q in parts ==> parts[q] <= all)
    && (forall q, r :: q in parts && r in parts && q != r ==> parts[q] !! parts[r])
    && (forall q :: q in queues ==> Keeps(queues[q], parts[q], stores[q]))
  }

  lemma {:induction false} OneOf<K(!new)>(queues: map<K, QueueMessage>, parts: map<K, set<object>>,
                                          stores: map<K, Store>, all: set<object>, q: K)
    requires Shelved(queues, parts, stores, all) && q in queues
    ensures parts[q] <= all && Keeps(queues[q], parts[q], stores[q])
    ensures queues[q] in parts[q] && queues[q].Repr == parts[q] && queues[q].Valid()
    ensures queues[q].State() == stores[q] && queues[q].waiting == stores[q].waitack
    ensures queues[q].pending == stores[q].pending && queues[q].mapper.data.content == stores[q].disk.data
  {
  }

  lemma {:induction false} Without<K(!new)>(queues: map<K, QueueMessage>, parts: map<K, set<object>>,
                                            stores: map<K, Store>, all: set<object>, q: K)
    requires Shelved(queues, parts, stores, all) && q in queues
    ensures Shelved(queues - {q}, parts - {q}, stores - {q}, all - parts[q])
  {
  }

  lemma {:induction false} With<K(!new)>(queues: map<K, QueueMessage>, parts: map<K, set<object>>,
                                         stores: map<K, Store>, all: set<object>, q: K, qm: QueueMessage,
                                         owned: set<object>, s: Store)
    requires Shelved(queues, parts, stores, all) && q !in queues && Keeps(qm, owned, s) && owned !! all
    ensures Shelved(queues[q := qm], parts[q := owned], stores[q := s], all + owned)
  {
    hide Keeps;
  }

  /** The store of `q` again, now in this state and with these objects. */
  lemma {:induction false} WithAgain<K(!new)>(queues: map<K, QueueMessage>, parts: map<K, set<object>>,
                                              stores: map<K, Store>, rest: set<object>, q: K,
                                              parts': map<K, set<object>>, stores': map<K, Store>, all: set<object>)
    requires Shelved(queues - {q}, parts - {q}, stores - {q}, rest) && q in queues
    requires q in parts' && parts' == parts[q := parts'[q]] && q in stores' && stores' == stores[q := stores'[q]]
    requires Keeps(queues[q], parts'[q], stores'[q]) && parts'[q] !! rest && all == rest + parts'[q]
    ensures Shelved(queues, parts', stores', all)
  {
    With(queues - {q}, parts - {q}, stores - {q}, rest, q, queues[q], parts'[q], stores'[q]);
    PutBack(queues, q, queues[q]);
    PutBack(parts, q, parts'[q]);
    PutBack(stores, q, stores'[q]);
  }

  lemma {:induction false} PutBack<K, V>(m: map<K, V>, k: K, v: V)
    ensures (m - {k})[k := v] == m[k := v]
    ensures k in m && v == m[k] ==> (m - {k})[k := v] == m
  {
  }

  lemma {:induction false} KeepsNow(qm: QueueMessage)
    requires qm.Valid() && qm in qm.Repr
    ensures Keeps(qm, qm.Repr, qm.State())
  {
  }

  method Open(disk: Disk) returns (qm: QueueMessage)
    ensures qm.Valid() && fresh(qm.Repr) && qm in qm.Repr && qm.State() == Recovered(disk)
  {
    hide QueueMessage.Valid;
    var data := new File(disk.data);
    var tmp := new File(disk.tmp);
    qm := new QueueMessage(data, tmp);
    qm.Recovery();
  }

  class MessageManager {
    var folder: map<Str, Disk>
    var queues: map<Str, QueueMessage>
    // The state of each store, the objects of each, and the objects of all.
    ghost var stores: map<Str, Store>
    ghost var parts: map<Str, set<object>>
    ghost var Repr: set<object>

    ghost predicate Valid()
      reads this, Repr
    {
      && this in Repr && queues.Keys == parts.Keys == stores.Keys
      && Shelved(queues, parts, stores, Repr - {this})
    }

    ghost function View(): State
      reads this
    {
      State(folder, stores)
    }

    constructor (folder: map<Str, Disk>)
      ensures Valid() && fresh(Repr) && View() == State(folder, map[])
    {
      this.folder, queues := folder, map[];
      stores, parts, Repr := map[], map[], {this};
    }

    /** The others, while the store of `q` changes. */
    ghost predicate Others(q: Str)
      requires q in parts
      reads this, Repr
    {
      && this in Repr && queues.Keys == parts.Keys == stores.Keys && parts[q] <= Repr - {this}
      && Shelved(queues - {q}, parts - {q}, stores - {q}, Repr - {this} - parts[q])
    }

    /** Takes over a store after it has changed. */
    ghost method Refresh(q: Str)
      requires q in queues && q in parts && Others(q)
      requires queues[q].Valid() && queues[q] in queues[q].Repr && this !in queues[q].Repr
      requires queues[q].Repr !! (Repr - {this} - parts[q])
      modifies this`stores, this`parts, this`Repr
      ensures Valid() && Repr == old(Repr) - {this} - old(parts)[q] + queues[q].Repr + {this}
      ensures stores == old(stores)[q := queues[q].State()]
    {
      hide QueueMessage.Valid, QueueMessage.State, Shelved, Keeps;
      ghost var owned, s, rest := queues[q].Repr, queues[q].State(), Repr - {this} - parts[q];
      WithAgain(queues, parts, stores, rest, q, parts[q := owned], stores[q := s], rest + owned);
      parts, stores, Repr := parts[q := owned], stores[q := s], rest + owned + {this};
      assert Repr - {this} == rest + owned;
    }

    /** Takes over a store opened for a name that had none. */
    ghost method Adopt(q: Str)
      requires this in Repr && q in queues && queues.Keys - {q} == parts.Keys == stores.Keys && q !in stores
      requires Shelved(queues - {q}, parts, stores, Repr - {this})
      requires queues[q].Valid() && queues[q] in queues[q].Repr && queues[q].Repr !! Repr
      modifies this`stores, this`parts, this`Repr
      ensures Valid() && Repr == old(Repr) + queues[q].Repr
      ensures stores == old(stores)[q := queues[q].State()]
    {
      hide QueueMessage.Valid, QueueMessage.State, Shelved, Keeps;
      KeepsNow(queues[q]);
      With(queues - {q}, parts, stores, Repr - {this}, q, queues[q], queues[q].Repr, queues[q].State());
      PutBack(queues, q, queues[q]);
      stores, parts, Repr := stores[q := queues[q].State()], parts[q := queues[q].Repr], Repr + queues[q].Repr;
      assert Repr - {this} == old(Repr) - {this} + queues[q].Repr;
    }

    method InitQueueMessage(q: Str)
      requires Valid()
      modifies this
      ensures Valid() && fresh(Repr - old(Repr))
      ensures View() == InitStep(old(View()), q)
    {
      hide QueueMessage.Valid, QueueMessage.State, Shelved, Recovered, DiskOf;
      if q in queues {
        return;
      }
      var qm := Open(DiskOf(folder, q));
      folder, queues := folder - {q}, queues[q := qm];
      assert queues - {q} == old(queues);
      Adopt(q);
    }

    method DestroyQueueMessage(q: Str)
      requires Valid()
      modifies Repr
      ensures Valid() && Repr <= old(Repr)
      ensures View() == DestroyStep(old(View()), q)
      ensures q !in queues && queues == old(queues) - {q}
      ensures q in old(queues) ==> old(queues)[q].mapper.data.content == None
      ensures q in old(queues) ==> old(queues)[q].mapper.tmp.content == None
    {
      hide QueueMessage.Valid, QueueMessage.State, Shelved, Keeps;
      if q !in queues {
        assert stores - {q} == stores;
        return;
      }
      var qm := queues[q];
      OneOf(queues, parts, stores, Repr - {this}, q);
      Without(queues, parts, stores, Repr - {this}, q);
      queues, stores, parts, Repr := queues - {q}, stores - {q}, parts - {q}, Repr - parts[q];
      assert Repr - {this} == old(Repr) - {this} - old(parts)[q];
      qm.Clear();
    }

    method Insert(q: Str, given: Option<Properties>, body: Str, durableQueue: bool, minted: Str) returns (ok: bool)
      requires Valid()
      modifies Repr
      ensures Valid() && fresh(Repr - old(Repr))
      ensures View() == InsertedInto(old(View()), q, Built(given, body, durableQueue, minted))
      ensures ok == (q in old(stores) && (!IsDurable(Built(given, body, durableQueue, minted))
                                          || old(stores)[q].disk.data.Some?))
    {
      hide QueueMessage.Valid, QueueMessage.State, Shelved, Keeps;
      if q !in queues {
        return false;
      }
      OneOf(queues, parts, stores, Repr - {this}, q);
      Without(queues, parts, stores, Repr - {this}, q);
      ok := queues[q].Insert(given, body, durableQueue, minted);
      Refresh(q);
    }

    method Front(q: Str) returns (m: Message?)
      requires Valid()
      modifies Repr
      ensures Valid() && Repr == old(Repr)
      ensures View() == FrontOf(old(View()), q)
      ensures m == null <==> q !in old(stores) || old(stores)[q].pending == []
      ensures m != null ==> m.View() == old(stores)[q].pending[0] && m in Repr
    {
      hide QueueMessage.Valid, QueueMessage.State, Shelved, Keeps;
      if q !in queues {
        return null;
      }
      OneOf(queues, parts, stores, Repr - {this}, q);
      Without(queues, parts, stores, Repr - {this}, q);
      m := queues[q].Front();
      Refresh(q);
    }

    method Ack(q: Str, id: Str)
      requires Valid() && (q in stores ==> id in stores[q].waitack)
      modifies Repr
      ensures Valid() && Repr == old(Repr)
      ensures View() == Acked(old(View()), q, id)
    {
      hide QueueMessage.Valid, QueueMessage.State, Shelved, Keeps, AckStep;
      if q !in queues {
        return;
      }
      OneOf(queues, parts, stores, Repr - {this}, q);
      Without(queues, parts, stores, Repr - {this}, q);
      queues[q].Remove(id);
      Refresh(q);
    }
  }
}
