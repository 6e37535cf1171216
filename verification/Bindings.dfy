/** `BindingManager`: the two-level map of bindings and the rows of `binding_table`, which has no key. */
module Bindings {
  import opened Bytes

  datatype Binding = Binding(exchange: Str, queue: Str, key: Str)

  type QueueBindings = map<Str, Binding>
  type BindingMap = map<Str, QueueBindings>
  type Pair = (Str, Str)

  predicate Bound(m: BindingMap, e: Str, q: Str) {
    e in m && q in m[e]
  }

  function Added(m: BindingMap, b: Binding): BindingMap {
    m[b.exchange := (if b.exchange in m then m[b.exchange] else map[])[b.queue := b]]
  }

  /** What a deletion is for: one pair, one exchange or one queue. */
  datatype Filter = Both(e: Str, q: Str) | OfExchange(e: Str) | OfQueue(q: Str)

  predicate Hits(f: Filter, e: Str, q: Str) {
    match f
    case Both(e', q') => e == e' && q == q'
    case OfExchange(e') => e == e'
    case OfQueue(q') => q == q'
  }

  function Pruned(m: BindingMap, f: Filter): BindingMap {
    match f
    case Both(e, q) => if e in m then m[e := m[e] - {q}] else m
    case OfExchange(e) => m - {e}
    case OfQueue(q) => map e | e in m :: m[e] - {q}
  }

  /** `delete from binding_table where ...`. */
  function Delete(rows: seq<Binding>, f: Filter): seq<Binding> {
    if rows == [] then []
    else (if Hits(f, rows[0].exchange, rows[0].queue) then [] else [rows[0]]) + Delete(rows[1..], f)
  }

  /** Unbinding a pair or an exchange that is not there returns before the table is touched. */
  predicate Executes(m: BindingMap, f: Filter) {
    match f
    case Both(e, q) => Bound(m, e, q)
    case OfExchange(e) => e in m
    case OfQueue(q) => true
  }

  /** `recovery`: the first row of a pair counts. */
  function Rebuilt(rows: seq<Binding>): BindingMap {
    if rows == [] then map[]
    else
      var m, b := Rebuilt(rows[..|rows| - 1]), rows[|rows| - 1];
      if Bound(m, b.exchange, b.queue) then m else Added(m, b)
  }

  // ---- The operations; `works` says whether the statement on the table succeeds ----

  /** `durable` remembers which bindings of the map were made durable. */
  datatype State = State(bindings: BindingMap, rows: seq<Binding>, durable: set<Pair>)

  predicate Refused(s: State, b: Binding, isDurable: bool, works: bool) {
    !Bound(s.bindings, b.exchange, b.queue) && isDurable && !works
  }

  function BindStep(s: State, b: Binding, isDurable: bool, works: bool): State {
    if Bound(s.bindings, b.exchange, b.queue) || Refused(s, b, isDurable, works) then s
    else State(Added(s.bindings, b),
               if isDurable then s.rows + [b] else s.rows,
               if isDurable then s.durable + {(b.exchange, b.queue)} else s.durable)
  }

  function Spared(durable: set<Pair>, f: Filter): set<Pair> {
    set p | p in durable && !Hits(f, p.0, p.1)
  }

  function PruneStep(s: State, f: Filter, works: bool): State {
    State(Pruned(s.bindings, f),
          if works && Executes(s.bindings, f) then Delete(s.rows, f) else s.rows,
          Spared(s.durable, f))
  }

  class BindingMapper {
    var rows: seq<Binding>

    constructor (rows: seq<Binding>)
      ensures this.rows == rows
    {
      this.rows := rows;
    }

    method Insert(b: Binding, works: bool) returns (ok: bool)
      modifies this
      ensures ok == works && rows == if works then old(rows) + [b] else old(rows)
    {
      if works {
        rows := rows + [b];
      }
      ok := works;
    }

    method Remove(f: Filter, works: bool)
      modifies this
      ensures rows == if works then Delete(old(rows), f) else old(rows)
    {
      if works {
        rows := Delete(rows, f);
      }
    }

    /** The callback of the `select`, row by row. */
    method Recovery() returns (m: BindingMap)
      ensures m == Rebuilt(rows)
    {
      m := map[];
      for i := 0 to |rows|
        invariant m == Rebuilt(rows[..i])
      {
        var b := rows[i];
        assert rows[..i + 1][..i] == rows[..i];
        var qmap := if b.exchange in m then m[b.exchange] else map[];
        if b.queue !in qmap {
          qmap := qmap[b.queue := b];
        }
        m := m[b.exchange := qmap];
      }
      assert rows[..|rows|] == rows;
    }
  }

  class BindingManager {
    const mapper: BindingMapper
    var bindings: BindingMap
    ghost var durable: set<Pair>

    ghost function View(): State
      reads this, mapper
    {
      State(bindings, mapper.rows, durable)
    }

    constructor (mapper: BindingMapper)
      ensures this.mapper == mapper
      ensures View() == Restarted(mapper.rows) && Sane(View())
    {
      this.mapper := mapper;
      bindings := map[];
      durable := Pairs(mapper.rows);
      new;
      RestartedSane(mapper.rows);
      bindings := mapper.Recovery();
    }

    method Bind(e: Str, q: Str, key: Str, isDurable: bool, works: bool) returns (ok: bool)
      modifies this, mapper
      ensures View() == BindStep(old(View()), Binding(e, q, key), isDurable, works)
      ensures ok == !Refused(old(View()), Binding(e, q, key), isDurable, works)
      ensures ok <==> e in bindings && q in bindings[e]
      ensures !ok ==> isDurable && !works && bindings == old(bindings)
      ensures old(e in bindings && q in bindings[e]) ==> bindings == old(bindings) && mapper.rows == old(mapper.rows)
      ensures ok && !old(e in bindings && q in bindings[e]) ==>
                && bindings[e][q] == Binding(e, q, key)
                && mapper.rows == if isDurable then old(mapper.rows) + [Binding(e, q, key)] else old(mapper.rows)
    {
      if e in bindings && q in bindings[e] {
        return true;
      }
      var b := Binding(e, q, key);
      if isDurable {
        ok := mapper.Insert(b, works);
        if !ok {
          return false;
        }
        durable := durable + {(e, q)};
      }
      bindings := Added(bindings, b);
      return true;
    }

    method UnBind(e: Str, q: Str, works: bool)
      requires Sane(View())
      modifies this, mapper
      ensures View() == PruneStep(old(View()), Both(e, q), works)
    {
      if e !in bindings || q !in bindings[e] {
        NothingPruned(View(), Both(e, q));
        return;
      }
      mapper.Remove(Both(e, q), works);
      bindings := bindings[e := bindings[e] - {q}];
      durable := Spared(durable, Both(e, q));
    }

    method RemoveExchangeBindings(e: Str, works: bool)
      requires Sane(View())
      modifies this, mapper
      ensures View() == PruneStep(old(View()), OfExchange(e), works)
    {
      if e !in bindings {
        NothingPruned(View(), OfExchange(e));
        return;
      }
      mapper.Remove(OfExchange(e), works);
      bindings := bindings - {e};
      durable := Spared(durable, OfExchange(e));
    }

    /** The loop visits the exchanges in any order. */
    method RemoveMsgQueueBindings(q: Str, works: bool)
      modifies this, mapper
      ensures View() == PruneStep(old(View()), OfQueue(q), works)
    {
      var left := bindings.Keys;
      while left != {}
        invariant left <= bindings.Keys == old(bindings).Keys
        invariant forall e :: e in bindings ==>
                    bindings[e] == if e in left then old(bindings)[e] else old(bindings)[e] - {q}
        invariant mapper.rows == old(mapper.rows) && durable == old(durable)
        decreases left
      {
        var e :| e in left;
        bindings := bindings[e := bindings[e] - {q}];
        left := left - {e};
      }
      assert bindings == Pruned(old(bindings), OfQueue(q));
      mapper.Remove(OfQueue(q), works);
      durable := Spared(durable, OfQueue(q));
    }

    method GetExchangeBindings(e: Str) returns (r: QueueBindings)
      ensures forall q :: q in r <==> Bound(bindings, e, q)
      ensures forall q :: Bound(bindings, e, q) ==> r[q] == bindings[e][q]
    {
      if e !in bindings {
        return map[];
      }
      return bindings[e];
    }

    method Exists(e: Str, q: Str) returns (r: bool)
      ensures r == Bound(bindings, e, q)
    {
      if e !in bindings {
        return false;
      }
      return q in bindings[e];
    }
  }

  // ---- The table mirrors the durable bindings ----

  /** The durable bindings are in the map, every binding under its own names. */
  ghost predicate Sane(s: State) {
    && (forall p :: p in s.durable ==> Bound(s.bindings, p.0, p.1))
    && (forall e, q :: Bound(s.bindings, e, q) ==> s.bindings[e][q].exchange == e && s.bindings[e][q].queue == q)
  }

  function Place(b: Binding): Pair {
    (b.exchange, b.queue)
  }

  function Pairs(rows: seq<Binding>): set<Pair> {
    set b | b in rows :: Place(b)
  }

  ghost predicate NoTwice(rows: seq<Binding>) {
    forall i, j :: 0 <= i < j < |rows| ==> Place(rows[i]) != Place(rows[j])
  }

  /** One row for each durable binding of the map, the same as in the map, and no other row. */
  ghost predicate Mirror(s: State) {
    && Sane(s)
    && NoTwice(s.rows)
    && Pairs(s.rows) == s.durable
    && (forall b :: b in s.rows ==> Bound(s.bindings, b.exchange, b.queue) && s.bindings[b.exchange][b.queue] == b)
  }

  function Restarted(rows: seq<Binding>): State {
    State(Rebuilt(rows), rows, Pairs(rows))
  }

  lemma {:induction false} AddedBound(m: BindingMap, b: Binding, e: Str, q: Str)
    ensures Bound(Added(m, b), e, q) <==> Bound(m, e, q) || (e == b.exchange && q == b.queue)
  {
  }

  lemma {:induction false} PrunedBound(m: BindingMap, f: Filter, e: Str, q: Str)
    ensures Bound(Pruned(m, f), e, q) <==> Bound(m, e, q) && !Hits(f, e, q)
    ensures Bound(Pruned(m, f), e, q) ==> Pruned(m, f)[e][q] == m[e][q]
  {
  }

  lemma {:induction false} NothingPruned(s: State, f: Filter)
    requires Sane(s) && !Executes(s.bindings, f)
    ensures Pruned(s.bindings, f) == s.bindings && Spared(s.durable, f) == s.durable
  {
    forall p | p in s.durable ensures !Hits(f, p.0, p.1) {
    }
    match f
    case Both(e, q) => if e in s.bindings { assert s.bindings[e] - {q} == s.bindings[e]; }
    case OfExchange(e) =>
    case OfQueue(q) =>
  }

  /** Of rows for the same pair the first one counts, and each pair of the table is bound. */
  lemma {:induction false} FirstRowCounts(rows: seq<Binding>, i: nat)
    requires i < |rows| && forall j :: 0 <= j < i ==> Place(rows[j]) != Place(rows[i])
    ensures Bound(Rebuilt(rows), rows[i].exchange, rows[i].queue)
    ensures Rebuilt(rows)[rows[i].exchange][rows[i].queue] == rows[i]
    decreases |rows|
  {
    var front, b := rows[..|rows| - 1], rows[|rows| - 1];
    if i < |front| {
      FirstRowCounts(front, i);
      assert front[i] == rows[i];
    } else {
      NotAmong(front, b.exchange, b.queue);
    }
  }

  lemma {:induction false} NotAmong(rows: seq<Binding>, e: Str, q: Str)
    requires forall j :: 0 <= j < |rows| ==> Place(rows[j]) != (e, q)
    ensures !Bound(Rebuilt(rows), e, q)
    decreases |rows|
  {
    if rows != [] {
      NotAmong(rows[..|rows| - 1], e, q);
    }
  }

  lemma {:induction false} AddedMember(rows: seq<Binding>, b: Binding)
    ensures Pairs(rows + [b]) == Pairs(rows) + {Place(b)}
  {
    var more := rows + [b];
    assert more[|rows|] == b;
    forall p ensures p in Pairs(more) <==> p in Pairs(rows) || p == Place(b) {
      if p in Pairs(rows) {
        var c :| c in rows && Place(c) == p;
        assert c in more;
      }
    }
  }

  /** Whatever rows the table has, the map rebuilt from them has every binding under its own two names. */
  lemma {:induction false} RestartedSane(rows: seq<Binding>)
    ensures Sane(Restarted(rows))
    decreases |rows|
  {
    if rows != [] {
      var front, b := rows[..|rows| - 1], rows[|rows| - 1];
      RestartedSane(front);
      assert rows == front + [b];
      AddedMember(front, b);
    }
  }

  lemma {:induction false} DeleteMember(rows: seq<Binding>, f: Filter, b: Binding)
    ensures b in Delete(rows, f) <==> b in rows && !Hits(f, b.exchange, b.queue)
  {
    if rows != [] {
      DeleteMember(rows[1..], f, b);
    }
  }

  lemma {:induction false} DeleteNoTwice(rows: seq<Binding>, f: Filter)
    requires NoTwice(rows)
    ensures NoTwice(Delete(rows, f))
  {
    if rows != [] {
      var rest := Delete(rows[1..], f);
      DeleteNoTwice(rows[1..], f);
      forall i | 0 <= i < |rest| ensures Place(rest[i]) != Place(rows[0]) {
        DeleteMember(rows[1..], f, rest[i]);
      }
    }
  }

  lemma {:induction false} BindKeepsSane(s: State, b: Binding, isDurable: bool, works: bool)
    requires Sane(s)
    ensures Sane(BindStep(s, b, isDurable, works))
  {
  }

  lemma {:induction false} BindKeepsMirror(s: State, b: Binding, isDurable: bool, works: bool)
    requires Mirror(s)
    ensures Mirror(BindStep(s, b, isDurable, works))
  {
    var s' := BindStep(s, b, isDurable, works);
    if s' != s {
      assert Place(b) !in s.durable;
      assert forall c :: c in s.rows ==> Place(c) in Pairs(s.rows);
      if isDurable {
        forall p ensures p in Pairs(s'.rows) <==> p in s'.durable {
          if p in s'.durable {
            if p == Place(b) {
              assert b in s'.rows;
            } else {
              var c :| c in s.rows && Place(c) == p;
              assert c in s'.rows;
            }
          }
        }
      }
    }
  }

  lemma {:induction false} PruneKeepsSane(s: State, f: Filter, works: bool)
    requires Sane(s)
    ensures Sane(PruneStep(s, f, works))
  {
    forall e, q ensures Bound(Pruned(s.bindings, f), e, q) <==> Bound(s.bindings, e, q) && !Hits(f, e, q)
      ensures Bound(Pruned(s.bindings, f), e, q) ==> Pruned(s.bindings, f)[e][q] == s.bindings[e][q]
    {
      PrunedBound(s.bindings, f, e, q);
    }
  }

  lemma {:induction false} PairsDeleted(rows: seq<Binding>, f: Filter)
    ensures Pairs(Delete(rows, f)) == Spared(Pairs(rows), f)
  {
    forall p ensures p in Pairs(Delete(rows, f)) <==> p in Spared(Pairs(rows), f) {
      if p in Pairs(Delete(rows, f)) {
        var b :| b in Delete(rows, f) && Place(b) == p;
        DeleteMember(rows, f, b);
      }
      if p in Spared(Pairs(rows), f) {
        var b :| b in rows && Place(b) == p;
        DeleteMember(rows, f, b);
      }
    }
  }

  lemma {:induction false} DeletedMirror(s: State, f: Filter)
    requires Mirror(s)
    ensures Mirror(State(Pruned(s.bindings, f), Delete(s.rows, f), Spared(s.durable, f)))
  {
    PruneKeepsSane(s, f, true);
    DeleteNoTwice(s.rows, f);
    PairsDeleted(s.rows, f);
    forall b | b in Delete(s.rows, f)
      ensures Bound(Pruned(s.bindings, f), b.exchange, b.queue)
              && Pruned(s.bindings, f)[b.exchange][b.queue] == b
    {
      DeleteMember(s.rows, f, b);
      PrunedBound(s.bindings, f, b.exchange, b.queue);
    }
  }

  /**
   Removing bindings keeps the mirror exactly when the statement on the table succeeds or none of the
   bindings removed was durable: its result is ignored.
   */
  lemma {:induction false} PruneMirrorIff(s: State, f: Filter, works: bool)
    requires Mirror(s)
    ensures Mirror(PruneStep(s, f, works)) <==> works || forall p :: p in s.durable ==> !Hits(f, p.0, p.1)
  {
    var s' := PruneStep(s, f, works);
    DeletedMirror(s, f);
    if !Executes(s.bindings, f) {
      NothingPruned(s, f);
      assert s' == s;
    } else if !works {
      if forall p :: p in s.durable ==> !Hits(f, p.0, p.1) {
        assert Spared(s.durable, f) == s.durable;
        NothingDeleted(s.rows, f);
      } else {
        var p :| p in s.durable && Hits(f, p.0, p.1);
        assert p !in s'.durable && p in Pairs(s'.rows);
      }
    }
  }

  lemma {:induction false} NothingDeleted(rows: seq<Binding>, f: Filter)
    requires forall p :: p in Pairs(rows) ==> !Hits(f, p.0, p.1)
    ensures Delete(rows, f) == rows
  {
    if rows != [] {
      assert Place(rows[0]) in Pairs(rows);
      assert forall b :: b in rows[1..] ==> b in rows && Place(b) in Pairs(rows);
      NothingDeleted(rows[1..], f);
    }
  }

  lemma {:induction false} LastIsNew(front: seq<Binding>, b: Binding)
    requires NoTwice(front + [b])
    ensures NoTwice(front) && Place(b) !in Pairs(front)
  {
    var rows := front + [b];
    assert rows[|front|] == b;
    forall i | 0 <= i < |front| ensures Place(front[i]) != Place(b) {
      assert rows[i] == front[i];
    }
    forall i, j | 0 <= i < j < |front| ensures Place(front[i]) != Place(front[j]) {
      assert rows[i] == front[i] && rows[j] == front[j];
    }
  }

  lemma {:induction false} AddedOthers(m: BindingMap, b: Binding, c: Binding)
    requires Bound(m, c.exchange, c.queue) && m[c.exchange][c.queue] == c && Place(c) != Place(b)
    ensures Bound(Added(m, b), c.exchange, c.queue) && Added(m, b)[c.exchange][c.queue] == c
  {
  }

  lemma {:induction false} RebuiltBound(rows: seq<Binding>)
    requires NoTwice(rows)
    ensures forall e, q :: Bound(Rebuilt(rows), e, q) <==> (e, q) in Pairs(rows)
    ensures forall b :: b in rows ==>
              Bound(Rebuilt(rows), b.exchange, b.queue) && Rebuilt(rows)[b.exchange][b.queue] == b
    ensures forall e :: e in Rebuilt(rows) ==> Rebuilt(rows)[e] != map[]
    decreases |rows|
  {
    hide NoTwice, Pairs;
    if rows == [] {
      NoPairs();
    } else {
      var front, b := rows[..|rows| - 1], rows[|rows| - 1];
      assert rows == front + [b];
      LastIsNew(front, b);
      RebuiltBound(front);
      AddedMember(front, b);
      forall e, q ensures Bound(Rebuilt(rows), e, q) <==> (e, q) in Pairs(rows) {
        AddedBound(Rebuilt(front), b, e, q);
      }
      forall c | c in rows
        ensures Bound(Rebuilt(rows), c.exchange, c.queue) && Rebuilt(rows)[c.exchange][c.queue] == c
      {
        if c in front {
          InPairs(front, c);
          AddedOthers(Rebuilt(front), b, c);
        }
      }
    }
  }

  lemma {:induction false} NoPairs()
    ensures Pairs([]) == {}
  {
  }

  lemma {:induction false} InPairs(rows: seq<Binding>, b: Binding)
    requires b in rows
    ensures Place(b) in Pairs(rows)
  {
  }

  /** A restart rebuilds exactly the durable bindings of the map, and the table still mirrors them. */
  lemma {:induction false} RestartRebuildsDurable(s: State)
    requires Mirror(s)
    ensures var r := Restarted(s.rows);
            && Mirror(r) && r.durable == s.durable
            && (forall e, q :: Bound(r.bindings, e, q) <==> (e, q) in s.durable)
            && (forall e, q :: Bound(r.bindings, e, q) ==> r.bindings[e][q] == s.bindings[e][q])
  {
    var r := Restarted(s.rows);
    RebuiltBound(s.rows);
    forall e, q | Bound(r.bindings, e, q) ensures r.bindings[e][q] == s.bindings[e][q] {
      var b :| b in s.rows && Place(b) == (e, q);
    }
    assert Sane(r) by {
      forall e, q | Bound(r.bindings, e, q)
        ensures r.bindings[e][q].exchange == e && r.bindings[e][q].queue == q
      {
        var b :| b in s.rows && Place(b) == (e, q);
      }
    }
  }
}
