/** `MsgQueueManager`: the declared queues and the rows of `queue_table`, whose key is the name. */
module Queues {
  import opened Bytes
  import opened Splitting
  import opened Arguments

  datatype MsgQueue = MsgQueue(name: Str, durable: bool, exclusive: bool, autoDelete: bool, args: Args)

  /** A row, with the arguments in their text form; the name is the key of the table. */
  datatype Row = Row(durable: bool, exclusive: bool, autoDelete: bool, args: Str)

  /** The row of a queue, whose arguments are written in some order. */
  ghost predicate IsRowOf(row: Row, q: MsgQueue) {
    && row.durable == q.durable && row.exclusive == q.exclusive && row.autoDelete == q.autoDelete
    && exists order: seq<Str> :: Traversal(order, q.args) && row.args == Written(order, q.args)
  }

  function Restored(name: Str, row: Row): MsgQueue {
    MsgQueue(name, row.durable, row.exclusive, row.autoDelete, Stored(map[], Words(row.args, AMP)))
  }

  function RestoredAll(rows: map<Str, Row>): map<Str, MsgQueue> {
    map name | name in rows :: Restored(name, rows[name])
  }

  // ---- The operations; `works` says whether the statement on the table succeeds ----

  datatype State = State(queues: map<Str, MsgQueue>, rows: map<Str, Row>)

  predicate Refused(s: State, q: MsgQueue, works: bool) {
    q.name !in s.queues && q.durable && (q.name in s.rows || !works)
  }

  /** Declaring a queue that exists changes nothing, whatever the other arguments. */
  ghost predicate DeclareStep(s: State, q: MsgQueue, works: bool, s': State) {
    if q.name in s.queues || Refused(s, q, works) then s' == s
    else
      && s'.queues == s.queues[q.name := q]
      && if q.durable then
           exists row :: IsRowOf(row, q) && s'.rows == s.rows[q.name := row]
         else s'.rows == s.rows
  }

  predicate Undeletable(s: State, name: Str, works: bool) {
    name in s.queues && s.queues[name].durable && !works
  }

  function DeleteStep(s: State, name: Str, works: bool): State {
    if name !in s.queues || Undeletable(s, name, works) then s
    else State(s.queues - {name}, if s.queues[name].durable then s.rows - {name} else s.rows)
  }

  class MsgQueueMapper {
    var rows: map<Str, Row>

    constructor (rows: map<Str, Row>)
      ensures this.rows == rows
    {
      this.rows := rows;
    }

    /** Fails when the name is already in the table. */
    method Insert(q: MsgQueue, works: bool) returns (ok: bool)
      modifies this
      ensures ok == (works && q.name !in old(rows))
      ensures if ok then exists row :: IsRowOf(row, q) && rows == old(rows)[q.name := row] else rows == old(rows)
    {
      var text := GetArgs(q.args);
      var row := Row(q.durable, q.exclusive, q.autoDelete, text);
      ok := works && q.name !in rows;
      if ok {
        rows := rows[q.name := row];
        assert IsRowOf(row, q);
      }
    }

    method Remove(name: Str, works: bool) returns (ok: bool)
      modifies this
      ensures ok == works && rows == if works then old(rows) - {name} else old(rows)
    {
      if works {
        rows := rows - {name};
      }
      ok := works;
    }

    /** The callback of the `select`, row by row, in any order. */
    method Recovery() returns (m: map<Str, MsgQueue>)
      ensures m == RestoredAll(rows)
    {
      m := map[];
      var left := rows.Keys;
      while left != {}
        invariant left <= rows.Keys
        invariant m.Keys == rows.Keys - left
        invariant forall name :: name in m ==> m[name] == Restored(name, rows[name])
        decreases left
      {
        var name :| name in left;
        var row := rows[name];
        var args := SetArgs(map[], row.args);
        m := m[name := MsgQueue(name, row.durable, row.exclusive, row.autoDelete, args)];
        left := left - {name};
      }
    }
  }

  class MsgQueueManager {
    const mapper: MsgQueueMapper
    var queues: map<Str, MsgQueue>

    function View(): State
      reads this, mapper
    {
      State(queues, mapper.rows)
    }

    constructor (mapper: MsgQueueMapper)
      ensures this.mapper == mapper && View() == State(RestoredAll(mapper.rows), mapper.rows)
    {
      this.mapper := mapper;
      queues := map[];
      new;
      queues := mapper.Recovery();
    }

    method DeclareQueue(name: Str, durable: bool, exclusive: bool, autoDelete: bool, args: Args, works: bool)
      returns (ok: bool)
      modifies this, mapper
      ensures var q := MsgQueue(name, durable, exclusive, autoDelete, args);
              && DeclareStep(old(View()), q, works, View())
              && ok == !Refused(old(View()), q, works)
      ensures ok <==> name in queues
      ensures queues == if ok && name !in old(queues)
                        then old(queues)[name := MsgQueue(name, durable, exclusive, autoDelete, args)] else old(queues)
      ensures name in old(queues) || !durable ==> ok && mapper.rows == old(mapper.rows)
    {
      if name in queues {
        return true;
      }
      var q := MsgQueue(name, durable, exclusive, autoDelete, args);
      if durable {
        ok := mapper.Insert(q, works);
        if !ok {
          return false;
        }
      }
      queues := queues[name := q];
      return true;
    }

    method DeleteQueue(name: Str, works: bool) returns (ok: bool)
      modifies this, mapper
      ensures View() == DeleteStep(old(View()), name, works)
      ensures ok == !Undeletable(old(View()), name, works)
      ensures ok <==> name !in queues
      ensures queues == if ok then old(queues) - {name} else old(queues)
      ensures !ok ==> !works && old(queues)[name].durable && mapper.rows == old(mapper.rows)
    {
      if name !in queues {
        return true;
      }
      if queues[name].durable {
        ok := mapper.Remove(name, works);
        if !ok {
          return false;
        }
      }
      queues := queues - {name};
      return true;
    }

    method SelectQueue(name: Str) returns (q: Option<MsgQueue>)
      ensures q == if name in queues then Some(queues[name]) else None
    {
      if name !in queues {
        return None;
      }
      return Some(queues[name]);
    }

    method Exists(name: Str) returns (r: bool)
      ensures r <==> name in queues
    {
      r := name in queues;
    }
  }

  // ---- The table mirrors the durable queues ----

  ghost predicate Mirror(s: State) {
    && (forall name :: name in s.queues ==> s.queues[name].name == name)
    && (forall name :: name in s.rows <==> name in s.queues && s.queues[name].durable)
    && (forall name :: name in s.rows ==> IsRowOf(s.rows[name], s.queues[name]))
  }

  /** With the mirror the key of the table never rejects a declaration. */
  lemma {:induction false} DeclareKeepsMirror(s: State, q: MsgQueue, works: bool, s': State)
    requires Mirror(s) && DeclareStep(s, q, works, s')
    ensures Mirror(s') && (works ==> !Refused(s, q, works) && q.name in s'.queues)
  {
  }

  lemma {:induction false} DeleteKeepsMirror(s: State, name: Str, works: bool)
    requires Mirror(s)
    ensures Mirror(DeleteStep(s, name, works)) && (works ==> name !in DeleteStep(s, name, works).queues)
  {
  }

  /**
   A restart rebuilds the durable queues and no others, with their flags; each one equals the queue declared
   exactly when its arguments survive their text form.
   */
  lemma {:induction false} RestartRebuildsDurable(s: State, name: Str)
    requires Mirror(s) && name in s.queues
    ensures var r := RestoredAll(s.rows);
            && (name in r <==> s.queues[name].durable)
            && (name in r ==> r[name].(args := s.queues[name].args) == s.queues[name])
            && (name in r ==> (r[name] == s.queues[name] <==> Plain(s.queues[name].args)))
  {
    if s.queues[name].durable {
      var row, args := s.rows[name], s.queues[name].args;
      var order :| Traversal(order, args) && row.args == Written(order, args);
      ArgumentsRoundTrip(order, args);
    }
  }
}
