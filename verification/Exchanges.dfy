/** `ExchangeManager`: the declared exchanges and the rows of `exchange_table`, whose key is the name. */
module Exchanges {
  import opened Bytes
  import opened PayloadCodec
  import opened Splitting
  import opened Arguments
  import opened Routing

  datatype Exchange = Exchange(name: Str, kind: ExchangeType, mode: Mode, autoDelete: bool, args: Args)

  datatype Row = Row(kind: ExchangeType, mode: Mode, autoDelete: bool, args: Str)

  ghost predicate IsRowOf(row: Row, x: Exchange) {
    && row.kind == x.kind && row.mode == x.mode && row.autoDelete == x.autoDelete
    && exists order: seq<Str> :: Traversal(order, x.args) && row.args == Written(order, x.args)
  }

  function Restored(name: Str, row: Row): Exchange {
    Exchange(name, row.kind, row.mode, row.autoDelete, Stored(map[], Words(row.args, AMP)))
  }

  function RestoredAll(rows: map<Str, Row>): map<Str, Exchange> {
    map name | name in rows :: Restored(name, rows[name])
  }

  // ---- The operations; `works` says whether the statement on the table succeeds ----

  datatype State = State(exchanges: map<Str, Exchange>, rows: map<Str, Row>)

  predicate Refused(s: State, x: Exchange, works: bool) {
    x.name !in s.exchanges && x.mode == DURABLE && (x.name in s.rows || !works)
  }

  ghost predicate DeclareStep(s: State, x: Exchange, works: bool, s': State) {
    if x.name in s.exchanges || Refused(s, x, works) then s' == s
    else
      && s'.exchanges == s.exchanges[x.name := x]
      && if x.mode == DURABLE then
           exists row :: IsRowOf(row, x) && s'.rows == s.rows[x.name := row]
         else s'.rows == s.rows
  }

  /** The code compares the mode with `true`, that is with 1, which is the mode of exchanges that have no row. */
  const TRUE: Mode := 1

  predicate Undeletable(s: State, name: Str, works: bool) {
    name in s.exchanges && s.exchanges[name].mode == TRUE && !works
  }

  function DeleteStep(s: State, name: Str, works: bool): State {
    if name !in s.exchanges || Undeletable(s, name, works) then s
    else State(s.exchanges - {name}, if s.exchanges[name].mode == TRUE then s.rows - {name} else s.rows)
  }

  class ExchangeMapper {
    var rows: map<Str, Row>

    constructor (rows: map<Str, Row>)
      ensures this.rows == rows
    {
      this.rows := rows;
    }

    method Insert(x: Exchange, works: bool) returns (ok: bool)
      modifies this
      ensures ok == (works && x.name !in old(rows))
      ensures if ok then exists row :: IsRowOf(row, x) && rows == old(rows)[x.name := row] else rows == old(rows)
    {
      var text := GetArgs(x.args);
      var row := Row(x.kind, x.mode, x.autoDelete, text);
      ok := works && x.name !in rows;
      if ok {
        rows := rows[x.name := row];
        assert IsRowOf(row, x);
      }
    }

    method Remove(name: Str, works: bool) returns (ok: bool)
      modifies this
      ensures ok == works && rows == if works then old(rows) - {name} else old(rows)
    {
      if works {
        rows := rows - {name};
      }
      ok := works;
    }

    method Recovery() returns (m: map<Str, Exchange>)
      ensures m == RestoredAll(rows)
    {
      m := map[];
      var left := rows.Keys;
      while left != {}
        invariant left <= rows.Keys
        invariant m.Keys == rows.Keys - left
        invariant forall name :: name in m ==> m[name] == Restored(name, rows[name])
        decreases left
      {
        var name :| name in left;
        var row := rows[name];
        var args := SetArgs(map[], row.args);
        m := m[name := Exchange(name, row.kind, row.mode, row.autoDelete, args)];
        left := left - {name};
      }
    }
  }

  class ExchangeManager {
    const mapper: ExchangeMapper
    var exchanges: map<Str, Exchange>

    function View(): State
      reads this, mapper
    {
      State(exchanges, mapper.rows)
    }

    constructor (mapper: ExchangeMapper)
      ensures this.mapper == mapper && View() == State(RestoredAll(mapper.rows), mapper.rows)
    {
      this.mapper := mapper;
      exchanges := map[];
      new;
      exchanges := mapper.Recovery();
    }

    method DeclareExchange(name: Str, kind: ExchangeType, mode: Mode, autoDelete: bool, args: Args, works: bool)
      returns (ok: bool)
      modifies this, mapper
      ensures var x := Exchange(name, kind, mode, autoDelete, args);
              && DeclareStep(old(View()), x, works, View())
              && ok == !Refused(old(View()), x, works)
      ensures ok <==> name in exchanges
      ensures !ok ==> mode == 2 && exchanges == old(exchanges)
      ensures exchanges == if ok && name !in old(exchanges)
                           then old(exchanges)[name := Exchange(name, kind, mode, autoDelete, args)] else old(exchanges)
      ensures name in old(exchanges) || mode != 2 ==> ok && mapper.rows == old(mapper.rows)
    {
      if name in exchanges {
        return true;
      }
      var x := Exchange(name, kind, mode, autoDelete, args);
      if mode == DURABLE {
        ok := mapper.Insert(x, works);
        if !ok {
          return false;
        }
      }
      exchanges := exchanges[name := x];
      return true;
    }

    method DeleteExchange(name: Str, works: bool) returns (ok: bool)
      modifies this, mapper
      ensures View() == DeleteStep(old(View()), name, works)
      ensures ok == !Undeletable(old(View()), name, works)
      ensures ok <==> name !in exchanges
      ensures !ok ==> !works && old(exchanges)[name].mode == 1 && exchanges == old(exchanges)
      ensures ok ==> exchanges == old(exchanges) - {name}
    {
      if name !in exchanges {
        return true;
      }
      if exchanges[name].mode == TRUE {
        ok := mapper.Remove(name, works);
        if !ok {
          return false;
        }
      }
      exchanges := exchanges - {name};
      return true;
    }

    method SelectExchange(name: Str) returns (x: Option<Exchange>)
      ensures x == if name in exchanges then Some(exchanges[name]) else None
    {
      if name !in exchanges {
        return None;
      }
      return Some(exchanges[name]);
    }

    method Exists(name: Str) returns (r: bool)
      ensures r <==> name in exchanges
    {
      r := name in exchanges;
    }
  }

  // ---- Whether the table mirrors the durable exchanges ----

  ghost predicate Mirror(s: State) {
    && (forall name :: name in s.exchanges ==> s.exchanges[name].name == name)
    && (forall name :: name in s.rows <==> name in s.exchanges && s.exchanges[name].mode == DURABLE)
    && (forall name :: name in s.rows ==> IsRowOf(s.rows[name], s.exchanges[name]))
  }

  lemma {:induction false} DeclareKeepsMirror(s: State, x: Exchange, works: bool, s': State)
    requires Mirror(s) && DeclareStep(s, x, works, s')
    ensures Mirror(s') && (works ==> !Refused(s, x, works) && x.name in s'.exchanges)
  {
  }

  /** Deleting an exchange keeps the mirror exactly when the exchange was not durable: its row is never deleted. */
  lemma {:induction false} DeleteMirrorIff(s: State, name: Str, works: bool)
    requires Mirror(s)
    ensures Mirror(DeleteStep(s, name, works)) <==> !(name in s.exchanges && s.exchanges[name].mode == DURABLE)
  {
    if name in s.exchanges && s.exchanges[name].mode == DURABLE {
      assert name in DeleteStep(s, name, works).rows;
    }
  }

  /**
   A durable exchange that was deleted comes back with the next restart, and until then it cannot be declared
   durable again.
   */
  lemma {:induction false} DeletedDurableReturns(s: State, name: Str, works: bool, again: Exchange)
    requires Mirror(s) && name in s.exchanges && s.exchanges[name].mode == DURABLE
    requires again.name == name && again.mode == DURABLE
    ensures var s' := DeleteStep(s, name, works);
            && name !in s'.exchanges
            && name in RestoredAll(s'.rows)
            && Refused(s', again, true)
  {
    assert name in s.rows;
  }

  /** Exchanges and durable ones rebuilt by a restart of a mirrored state. */
  lemma {:induction false} RestartRebuildsDurable(s: State, name: Str)
    requires Mirror(s) && name in s.exchanges
    ensures var r := RestoredAll(s.rows);
            && (name in r <==> s.exchanges[name].mode == DURABLE)
            && (name in r ==> (r[name] == s.exchanges[name] <==> Plain(s.exchanges[name].args)))
  {
    if name in s.rows {
      var row, args := s.rows[name], s.exchanges[name].args;
      var order :| Traversal(order, args) && row.args == Written(order, args);
      ArgumentsRoundTrip(order, args);
    }
  }
}
