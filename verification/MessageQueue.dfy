/** `QueueMessage`: one queue's messages, its counter and its data file, with every message one shared object. */
module MessageQueue {
  import opened Bytes
  import opened PayloadCodec
  import opened MessageLog
  import opened QueueStore
  import MM = MessageMapper
  import opened MessageMapper

  /** The objects of an index, under their identifiers, have these values. */
  ghost predicate Indexes(index: map<Str, Message>, values: map<Str, Msg>)
    reads index.Values
  {
    && index.Keys == values.Keys
    && forall id :: id in index ==> index[id].View() == values[id] && MsgId(values[id]) == id
  }

  ghost predicate Lists(ms: seq<Message>, values: seq<Msg>)
    reads ms
  {
    |ms| == |values| && forall i :: 0 <= i < |ms| ==> ms[i].View() == values[i]
  }

  function AddObject(index: map<Str, Message>, m: Message): map<Str, Message>
    reads m
  {
    if IdOf(m.payload) in index then index else index[IdOf(m.payload) := m]
  }

  lemma {:induction false} SameSize<K, V, W>(a: map<K, V>, b: map<K, W>)
    requires a.Keys == b.Keys
    ensures |a| == |b|
  {
    assert |a| == |a.Keys| && |b| == |b.Keys|;
  }

  class QueueMessage {
    const mapper: MM.MessageMapper
    var total: nat
    var msgs: seq<Message>
    var durable: map<Str, Message>
    var waitack: map<Str, Message>
    // The values of the three containers.
    ghost var pending: seq<Msg>
    ghost var indexed: map<Str, Msg>
    ghost var waiting: map<Str, Msg>
    ghost var Repr: set<object>

    ghost predicate Owned()
      reads this
    {
      && this in Repr && mapper.data in Repr && mapper.tmp in Repr && mapper.Valid()
      && (forall i :: 0 <= i < |msgs| ==> msgs[i] in Repr)
      && (forall id :: id in durable ==> durable[id] in Repr)
      && (forall id :: id in waitack ==> waitack[id] in Repr)
      && (forall id, i :: id in waitack && 0 <= i < |msgs| ==> waitack[id] != msgs[i])
      && MM.Distinct(msgs)
    }

    ghost predicate Valid()
      reads this, Repr
      ensures Valid() ==> this in Repr && mapper.data in Repr && mapper.tmp in Repr
      ensures Valid() ==> waitack.Keys == waiting.Keys
    {
      Owned() && Lists(msgs, pending) && Indexes(durable, indexed) && Indexes(waitack, waiting)
    }

    ghost function State(): Store
      reads this, mapper.data, mapper.tmp
    {
      Store(mapper.Files(), total, pending, indexed, waiting)
    }

    constructor (data: File, tmp: File)
      requires data != tmp
      modifies data
      ensures Valid() && fresh(Repr - {data, tmp})
      ensures State() == NewStore(old(Disk(data.content, tmp.content)))
    {
      mapper := new MM.MessageMapper(data, tmp);
      total, msgs, durable, waitack := 0, [], map[], map[];
      pending, indexed, waiting := [], map[], map[];
      Repr := {this, data, tmp};
    }

    /** Appends a new durable message to the file and indexes it. */
    method Persist(m: Message) returns (ok: bool)
      requires Valid() && m !in Repr
      modifies Repr, m
      ensures Valid() && m.payload == old(m.payload)
      ensures msgs == old(msgs) && pending == old(pending) && waitack == old(waitack) && waiting == old(waiting)
      ensures var r := Append(old(mapper.Files()), m.payload);
              && ok == r.ok && mapper.Files() == r.disk
              && m.View() == (if ok then r.msg else old(m.View()))
      ensures if ok then Repr == old(Repr) + {m} && total == old(total) + 1 && indexed == AddNew(old(indexed), m.View())
              else Repr == old(Repr) && total == old(total) && indexed == old(indexed)
    {
      hide Append;
      ok := mapper.Insert(m);
      if ok {
        Enter(m);
      }
    }

    method Enter(m: Message)
      requires Valid()
      modifies this`total, this`durable, this`indexed, this`Repr
      ensures Valid() && Repr == old(Repr) + {m}
      ensures total == old(total) + 1 && indexed == AddNew(old(indexed), m.View())
    {
      total := total + 1;
      Repr := Repr + {m};
      Index(m);
    }

    method Index(m: Message)
      requires Valid() && m in Repr
      modifies this`durable, this`indexed
      ensures Valid() && indexed == AddNew(old(indexed), m.View())
    {
      durable, indexed := AddObject(durable, m), AddNew(indexed, m.View());
    }

    method Push(m: Message)
      requires Valid() && (forall i :: 0 <= i < |msgs| ==> msgs[i] != m)
      requires forall id :: id in waitack ==> waitack[id] != m
      modifies this`msgs, this`pending, this`Repr
      ensures Valid() && Repr == old(Repr) + {m} && pending == old(pending) + [m.View()]
    {
      msgs := msgs + [m];
      pending := pending + [m.View()];
      Repr := Repr + {m};
    }

    method Insert(given: Option<Properties>, body: Str, durableQueue: bool, minted: Str) returns (ok: bool)
      requires Valid()
      modifies Repr
      ensures Valid() && fresh(Repr - old(Repr))
      ensures var p := Built(given, body, durableQueue, minted);
              && ok == (!IsDurable(p) || old(mapper.data.content).Some?)
              && State() == InsertStep(old(State()), p)
      ensures ok ==> && |pending| == |old(pending)| + 1 && pending[..|old(pending)|] == old(pending)
                     && CopyOf(pending[|old(pending)|].payload, given, body, durableQueue, minted)
    {
      BuiltIsCopy(given, body, durableQueue, minted);
      var m := new Message(Built(given, body, durableQueue, minted));
      if IsDurable(m.payload) {
        ok := Persist(m);
        if !ok {
          return false;
        }
      }
      Push(m);
      return true;
    }

    /** Hands out the oldest pending message, which from now on waits for its acknowledgement. */
    method Front() returns (m: Message?)
      requires Valid()
      modifies this
      ensures Valid() && Repr == old(Repr)
      ensures State() == FrontStep(old(State()))
      ensures m == null <==> old(pending) == []
      ensures m != null ==> m.View() == old(pending)[0] && m in Repr
    {
      if |msgs| == 0 {
        return null;
      }
      m := Pop();
      Await(m);
    }

    method Pop() returns (m: Message)
      requires Valid() && msgs != []
      modifies this`msgs, this`pending
      ensures Valid() && pending == old(pending)[1..] && m in Repr && m.View() == old(pending)[0]
      ensures forall i :: 0 <= i < |msgs| ==> msgs[i] != m
    {
      m := msgs[0];
      msgs, pending := msgs[1..], pending[1..];
    }

    method Await(m: Message)
      requires Valid() && m in Repr && forall i :: 0 <= i < |msgs| ==> msgs[i] != m
      modifies this`waitack, this`waiting
      ensures Valid() && waiting == AddNew(old(waiting), m.View())
    {
      waitack, waiting := AddObject(waitack, m), AddNew(waiting, m.View());
    }

    /** Flags a message no container holds any longer as invalid, in memory and over its record in the file. */
    method ClearRecordOf(m: Message)
      requires Valid() && m in Repr && Unlisted(m)
      modifies mapper.data, m
      ensures Valid() && mapper.Files() == MessageLog.Clear(old(mapper.Files()), old(m.View()))
    {
      hide MessageLog.Clear;
      var _ := mapper.Remove(m);
    }

    ghost predicate Unlisted(m: Message)
      reads this
    {
      && (forall i :: 0 <= i < |msgs| ==> msgs[i] != m)
      && (forall id :: id in durable ==> durable[id] != m)
      && (forall id :: id in waitack ==> waitack[id] != m)
    }

    method EraseIndex(id: Str)
      requires Valid()
      modifies this`durable, this`indexed
      ensures Valid() && indexed == old(indexed) - {id}
    {
      durable, indexed := durable - {id}, indexed - {id};
    }

    method Compact()
      requires Valid()
      modifies mapper.data, mapper.tmp, this`total
      ensures Valid() && mapper.Files() == Collect(old(mapper.Files())).disk && total == |indexed|
    {
      hide Collect;
      var _ := mapper.Gc();
      Recount();
    }

    method CompactIfWasteful()
      requires Valid()
      modifies mapper.data, mapper.tmp, this`total
      ensures Valid()
      ensures if Wasteful(|indexed|, old(total))
              then mapper.Files() == Collect(old(mapper.Files())).disk && total == |indexed|
              else mapper.Files() == old(mapper.Files()) && total == old(total)
    {
      hide Collect;
      SameSize(durable, indexed);
      if total > 2000 && |durable| * 10 / total < 5 {
        Compact();
      }
    }

    method Settle(id: Str)
      requires Valid()
      modifies this`waitack, this`waiting
      ensures Valid() && waiting == old(waiting) - {id}
    {
      waitack, waiting := waitack - {id}, waiting - {id};
    }

    method Release(id: Str) returns (m: Message)
      requires Valid() && id in waitack
      modifies this`durable, this`indexed, this`waitack, this`waiting
      ensures Valid() && m == old(waitack)[id] && m in Repr && Unlisted(m) && m.View() == old(waiting)[id]
      ensures indexed == old(indexed) - {id} && waiting == old(waiting) - {id}
    {
      m := waitack[id];
      EraseIndex(id);
      Settle(id);
    }

    method ClearDurable(id: Str)
      requires Valid() && id in waitack
      modifies mapper.data, waitack[id], this`durable, this`indexed, this`waitack, this`waiting
      ensures Valid()
      ensures indexed == old(indexed) - {id} && waiting == old(waiting) - {id}
      ensures mapper.Files() == MessageLog.Clear(old(mapper.Files()), old(waiting)[id])
    {
      hide MessageLog.Clear;
      var m := Release(id);
      ClearRecordOf(m);
    }

    lemma {:induction false} Owns(id: Str)
      requires Valid() && id in waitack
      ensures waitack[id] in Repr
    {
    }

    /** The source clears the record before it erases the entries; under the queue's lock the order is not seen. */
    method RemoveDurable(id: Str)
      requires Valid() && id in waitack
      modifies Repr
      ensures Valid() && Repr == old(Repr) && pending == old(pending)
      ensures indexed == old(indexed) - {id} && waiting == old(waiting) - {id}
      ensures var disk := MessageLog.Clear(old(mapper.Files()), old(waiting)[id]);
              if Wasteful(|indexed|, old(total))
              then mapper.Files() == Collect(disk).disk && total == |indexed|
              else mapper.Files() == disk && total == old(total)
    {
      hide MessageLog.Clear, Collect, Wasteful, QueueMessage.Valid;
      Owns(id);
      ClearDurable(id);
      CompactIfWasteful();
    }

    /** The caller acknowledges a message that was delivered: the source dereferences the entry it looks up. */
    method Remove(id: Str)
      requires Valid() && id in waiting
      modifies Repr
      ensures Valid() && Repr == old(Repr)
      ensures State() == AckStep(old(State()), id)
    {
      if IsDurable(waitack[id].payload) {
        RemoveDurable(id);
      } else {
        Settle(id);
      }
    }

    method Fetch()
      requires Valid()
      modifies Repr
      ensures Valid() && fresh(Repr - old(Repr))
      ensures var c := Collect(old(mapper.Files()));
              mapper.Files() == c.disk && pending == c.msgs
      ensures total == old(total) && indexed == old(indexed) && waiting == old(waiting)
    {
      hide Collect;
      var fetched := mapper.Gc();
      Install(fetched);
    }

    method Install(ms: seq<Message>)
      requires Valid() && MM.Distinct(ms) && forall i :: 0 <= i < |ms| ==> ms[i] !in Repr
      modifies this`msgs, this`pending, this`Repr
      ensures Valid() && pending == Views(ms) && Repr == old(Repr) + set m | m in ms
    {
      msgs := ms;
      pending := Views(ms);
      Repr := Repr + set m | m in ms;
    }

    /** The loop of `recovery`: each message enters the index unless its identifier is already there. */
    method IndexAll()
      requires Valid()
      modifies this`durable, this`indexed
      ensures Valid() && indexed == AddAll(old(indexed), pending)
    {
      assert pending[0..] == pending;
      for i := 0 to |msgs|
        invariant Valid()
        invariant AddAll(indexed, pending[i..]) == AddAll(old(indexed), pending)
      {
        assert pending[i..][1..] == pending[i + 1..];
        Index(msgs[i]);
      }
      assert pending[|msgs|..] == [];
    }

    method Recovery()
      requires Valid()
      modifies Repr
      ensures Valid() && fresh(Repr - old(Repr))
      ensures State() == RecoverStep(old(State()))
    {
      hide Collect, AddAll;
      Fetch();
      IndexAll();
      Recount();
    }

    method Recount()
      requires Valid()
      modifies this`total
      ensures Valid() && total == |indexed|
    {
      total := |durable|;
      SameSize(durable, indexed);
    }

    method Clear()
      requires Valid()
      modifies Repr
      ensures Valid() && Repr == old(Repr)
      ensures State() == ClearedStore(old(State()))
      ensures mapper.data.content == None && mapper.tmp.content == None
      ensures pending == [] && indexed == map[] && waiting == map[] && total == old(total)
    {
      var _ := mapper.data.Remove();
      var _ := mapper.tmp.Remove();
      msgs, durable, waitack := [], map[], map[];
      pending, indexed, waiting := [], map[], map[];
    }
  }
}
