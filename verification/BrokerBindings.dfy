/** Which bindings a restart of the broker brings back, told by the events alone. */
module BrokerBindings {
  import opened Bytes
  import opened PayloadCodec
  import opened VirtualHost
  import opened HostRuns
  import opened BrokerRuns
  import opened BrokerMessages
  import X = Exchanges
  import B = Bindings

  // ---- What the events say ----

  /**
   The exchanges declared, each with its mode, and those that are stored: a row is written for mode DURABLE and
   deleted, with the exchange, for mode UNDURABLE; a stored name cannot be declared durable again.
   */
  datatype Told = Told(declared: map<Str, Mode>, stored: map<Str, Mode>)

  function ExchangesNext(t: Told, e: Event): Told {
    match e
    case Do(DeclareExchange(x, works)) =>
      if x.name in t.declared || (x.mode == 2 && x.name in t.stored) then t
      else Told(t.declared[x.name := x.mode], if x.mode == 2 then t.stored[x.name := 2] else t.stored)
    case Do(DeleteExchange(name, rowsWork, works)) =>
      if name !in t.declared then t
      else Told(t.declared - {name}, if t.declared[name] == 1 then t.stored - {name} else t.stored)
    case Do(_) => t
    case Reboot => Told(t.stored, t.stored)
  }

  function ExchangesTold(es: seq<Event>): Told {
    if es == [] then Told(map[], map[]) else ExchangesNext(ExchangesTold(es[..|es| - 1]), es[|es| - 1])
  }

  /** A bound pair: its key, and whether a restart keeps it. */
  datatype Tie = Tie(key: Str, durable: bool)

  /** The event unbinds the pair or deletes one of its ends. */
  predicate Unties(e: Event, x: Str, q: Str) {
    match e
    case Do(UnBind(x', q', works)) => x == x' && q == q'
    case Do(DeleteExchange(name, rowsWork, works)) => x == name
    case Do(DeleteQueue(name, rowsWork, works)) => q == name
    case _ => false
  }

  function TieNext(t: Told, declared: map<Str, bool>, tie: Option<Tie>, e: Event, x: Str, q: Str): Option<Tie> {
    if Unties(e, x, q) then None
    else match e
      case Do(Bind(b, works)) =>
        if b.exchange == x && b.queue == q && tie == None && x in t.declared && q in declared
        then Some(Tie(b.key, t.declared[x] != 0 && declared[q])) else tie
      case Reboot => if tie.Some? && tie.value.durable then tie else None
      case _ => tie
  }

  /** Whether and how the pair is bound after these events. */
  function TieOf(es: seq<Event>, x: Str, q: Str): Option<Tie> {
    if es == [] then None
    else
      var front := es[..|es| - 1];
      TieNext(ExchangesTold(front), Declared(front), TieOf(front, x, q), es[|es| - 1], x, q)
  }

  /**
   Event `j` binds the pair for good: it finds the exchange declared with a mode other than 0, the queue
   declared durable, and the pair unbound.
   */
  predicate BindsDurably(es: seq<Event>, j: nat, x: Str, q: Str, key: Str)
    requires j < |es|
  {
    var before := es[..j];
    && es[j].Do? && es[j].op.Bind? && es[j].op.b == B.Binding(x, q, key)
    && x in ExchangesTold(before).declared && ExchangesTold(before).declared[x] != 0
    && q in Declared(before) && Declared(before)[q]
    && TieOf(before, x, q) == None
  }

  predicate UntiedAfter(es: seq<Event>, j: nat, x: Str, q: Str) {
    exists i :: j < i < |es| && Unties(es[i], x, q)
  }

  /** Some event has bound the pair durably with this key, and none has hit it since. */
  ghost predicate BoundForGood(es: seq<Event>, x: Str, q: Str, key: Str) {
    exists j :: 0 <= j < |es| && BindsDurably(es, j, x, q, key) && !UntiedAfter(es, j, x, q)
  }

  // ---- The two ways to say it agree ----

  lemma {:induction false} TieMore(es: seq<Event>, e: Event, x: Str, q: Str)
    ensures TieOf(es + [e], x, q) == TieNext(ExchangesTold(es), Declared(es), TieOf(es, x, q), e, x, q)
  {
    assert (es + [e])[..|es|] == es;
  }

  lemma {:induction false} BindsMore(es: seq<Event>, e: Event, j: nat, x: Str, q: Str, key: Str)
    requires j < |es|
    ensures BindsDurably(es + [e], j, x, q, key) <==> BindsDurably(es, j, x, q, key)
  {
    assert (es + [e])[..j] == es[..j] && (es + [e])[j] == es[j];
  }

  lemma {:induction false} UntiedMore(es: seq<Event>, e: Event, j: nat, x: Str, q: Str)
    requires j < |es|
    ensures UntiedAfter(es + [e], j, x, q) <==> UntiedAfter(es, j, x, q) || Unties(e, x, q)
  {
    var more := es + [e];
    if UntiedAfter(es, j, x, q) {
      var i :| j < i < |es| && Unties(es[i], x, q);
      assert more[i] == es[i];
    }
    if Unties(e, x, q) {
      assert more[|es|] == e;
    }
  }

  lemma {:induction false} LastBinds(es: seq<Event>, e: Event, x: Str, q: Str, key: Str)
    ensures BindsDurably(es + [e], |es|, x, q, key)
            <==> !Unties(e, x, q) && TieOf(es, x, q) == None
                 && TieNext(ExchangesTold(es), Declared(es), TieOf(es, x, q), e, x, q) == Some(Tie(key, true))
    ensures !UntiedAfter(es + [e], |es|, x, q)
  {
    assert (es + [e])[..|es|] == es && (es + [e])[|es|] == e;
  }

  lemma {:induction false} BoundMore(es: seq<Event>, e: Event, x: Str, q: Str, key: Str)
    ensures BoundForGood(es + [e], x, q, key)
            <==> (BoundForGood(es, x, q, key) && !Unties(e, x, q)) || BindsDurably(es + [e], |es|, x, q, key)
  {
    hide BindsDurably, UntiedAfter, Unties;
    var more := es + [e];
    if BoundForGood(es, x, q, key) && !Unties(e, x, q) {
      var j :| 0 <= j < |es| && BindsDurably(es, j, x, q, key) && !UntiedAfter(es, j, x, q);
      BindsMore(es, e, j, x, q, key);
      UntiedMore(es, e, j, x, q);
      assert BindsDurably(more, j, x, q, key) && !UntiedAfter(more, j, x, q);
    }
    LastBinds(es, e, x, q, key);
    if BindsDurably(more, |es|, x, q, key) {
      assert BoundForGood(more, x, q, key);
    }
    if BoundForGood(more, x, q, key) {
      var j :| 0 <= j < |more| && BindsDurably(more, j, x, q, key) && !UntiedAfter(more, j, x, q);
      if j < |es| {
        BindsMore(es, e, j, x, q, key);
        UntiedMore(es, e, j, x, q);
      }
    }
  }

  lemma {:induction false} TieStep(t: Told, declared: map<Str, bool>, tie: Option<Tie>, e: Event, x: Str, q: Str,
                                   key: Str)
    ensures tie != None ==>
              (TieNext(t, declared, tie, e, x, q) == Some(Tie(key, true)) <==>
                 tie == Some(Tie(key, true)) && !Unties(e, x, q))
    ensures Unties(e, x, q) ==> TieNext(t, declared, tie, e, x, q) == None
  {
  }

  lemma {:induction false} BoundIsTie(es: seq<Event>, x: Str, q: Str, key: Str)
    ensures BoundForGood(es, x, q, key) <==> TieOf(es, x, q) == Some(Tie(key, true))
    decreases |es|
  {
    hide BoundForGood, BindsDurably, TieNext, Unties, ExchangesTold, Declared;
    if es == [] {
      NothingBound(x, q, key);
    } else {
      var front, e := es[..|es| - 1], es[|es| - 1];
      assert es == front + [e];
      BoundIsTie(front, x, q, key);
      BoundMore(front, e, x, q, key);
      TieMore(front, e, x, q);
      LastBinds(front, e, x, q, key);
      TieStep(ExchangesTold(front), Declared(front), TieOf(front, x, q), e, x, q, key);
    }
  }

  lemma {:induction false} NothingBound(x: Str, q: Str, key: Str)
    ensures !BoundForGood([], x, q, key)
  {
  }

  // ---- The broker says the same ----

  /** The modes of the exchanges, declared and stored. */
  function Modes(s: X.State): Told {
    Told(ModesOf(s.exchanges), ModesIn(s.rows))
  }

  function ModesOf(m: map<Str, X.Exchange>): map<Str, Mode> {
    map x | x in m :: m[x].mode
  }

  function ModesIn(m: map<Str, X.Row>): map<Str, Mode> {
    map x | x in m :: m[x].mode
  }

  function TieIn(s: B.State, x: Str, q: Str): Option<Tie> {
    if B.Bound(s.bindings, x, q) then Some(Tie(s.bindings[x][q].key, (x, q) in s.durable)) else None
  }

  lemma {:induction false} ExchangesMore(es: seq<Event>, e: Event)
    ensures ExchangesTold(es + [e]) == ExchangesNext(ExchangesTold(es), e)
  {
    assert (es + [e])[..|es|] == es;
  }

  lemma {:induction false} OneDeclared(m: map<Str, X.Exchange>, x: X.Exchange)
    ensures ModesOf(m[x.name := x]) == ModesOf(m)[x.name := x.mode]
  {
  }

  lemma {:induction false} OneStored(m: map<Str, X.Row>, name: Str, row: X.Row)
    ensures ModesIn(m[name := row]) == ModesIn(m)[name := row.mode]
  {
  }

  lemma {:induction false} DeclareModes(s: X.State, x: X.Exchange, s': X.State)
    requires X.DeclareStep(s, x, true, s')
    ensures Modes(s') == ExchangesNext(Modes(s), Do(DeclareExchange(x, true)))
  {
    hide X.IsRowOf, ModesOf, ModesIn;
    SameKeys(s);
    OneDeclared(s.exchanges, x);
    if x.name !in s.exchanges && !X.Refused(s, x, true) && x.mode == DURABLE {
      var row :| X.IsRowOf(row, x) && s'.rows == s.rows[x.name := row];
      RowMode(row, x);
      OneStored(s.rows, x.name, row);
    }
  }

  lemma {:induction false} SameKeys(s: X.State)
    ensures ModesOf(s.exchanges).Keys == s.exchanges.Keys && ModesIn(s.rows).Keys == s.rows.Keys
  {
  }

  lemma {:induction false} RowMode(row: X.Row, x: X.Exchange)
    requires X.IsRowOf(row, x)
    ensures row.mode == x.mode
  {
  }

  lemma {:induction false} DeleteModes(s: X.State, name: Str)
    ensures Modes(X.DeleteStep(s, name, true)) == ExchangesNext(Modes(s), Do(DeleteExchange(name, true, true)))
  {
  }

  lemma {:induction false} RestoredModes(s: X.State)
    ensures Modes(X.State(X.RestoredAll(s.rows), s.rows)) == ExchangesNext(Modes(s), Reboot)
  {
  }

  lemma {:induction false} ModesStep(h: Host, e: Event, h': Host)
    requires Happens(h, e, h') && Smooth(e)
    ensures Modes(h'.exchanges) == ExchangesNext(Modes(h.exchanges), e)
  {
    hide Modes, X.DeclareStep, X.DeleteStep;
    match e
    case Do(DeclareExchange(x, works)) => DeclareModes(h.exchanges, x, h'.exchanges);
    case Do(DeleteExchange(name, rowsWork, works)) => DeleteModes(h.exchanges, name);
    case Do(_) =>
    case Reboot => RestoredModes(h.exchanges);
  }

  lemma {:induction false} PruneTie(s: B.State, f: B.Filter, x: Str, q: Str)
    ensures TieIn(B.PruneStep(s, f, true), x, q) == if B.Hits(f, x, q) then None else TieIn(s, x, q)
  {
    B.PrunedBound(s.bindings, f, x, q);
  }

  lemma {:induction false} BindTie(h: Host, b: B.Binding, x: Str, q: Str)
    requires B.Sane(h.bindings)
    ensures TieIn(BindHost(h, b, true).bindings, x, q)
            == TieNext(Modes(h.exchanges), Durabilities(h), TieIn(h.bindings, x, q), Do(HostOp.Bind(b, true)), x, q)
  {
    B.AddedBound(h.bindings.bindings, b, x, q);
  }

  lemma {:induction false} RestartTie(s: B.State, x: Str, q: Str)
    requires B.Mirror(s)
    ensures TieIn(B.Restarted(s.rows), x, q)
            == if TieIn(s, x, q).Some? && TieIn(s, x, q).value.durable then TieIn(s, x, q) else None
  {
    hide B.Mirror, B.Restarted;
    B.RestartRebuildsDurable(s);
    MirrorSane(s);
  }

  lemma {:induction false} MirrorSane(s: B.State)
    requires B.Mirror(s)
    ensures B.Sane(s)
  {
  }

  lemma {:induction false} TieKept(h: Host, e: Event, h': Host, x: Str, q: Str)
    requires Recoverable(h) && Happens(h, e, h') && Smooth(e)
    ensures TieIn(h'.bindings, x, q)
            == TieNext(Modes(h.exchanges), Durabilities(h), TieIn(h.bindings, x, q), e, x, q)
  {
    hide B.Mirror, B.Sane, Modes, Durabilities, TieIn, B.PruneStep, B.BindStep, X.DeclareStep;
    MirrorSane(h.bindings);
    match e
    case Do(DeleteExchange(name, rowsWork, works)) => PruneTie(h.bindings, B.OfExchange(name), x, q);
    case Do(DeleteQueue(name, rowsWork, works)) => PruneTie(h.bindings, B.OfQueue(name), x, q);
    case Do(UnBind(x', q', works)) => PruneTie(h.bindings, B.Both(x', q'), x, q);
    case Do(Bind(b, works)) => BindTie(h, b, x, q);
    case Do(_) => OtherTie(h, e, h');
    case Reboot => RestartTie(h.bindings, x, q);
  }

  lemma {:induction false} OtherTie(h: Host, e: Event, h': Host)
    requires e.Do? && Does(h, e.op, h')
    requires !e.op.DeleteExchange? && !e.op.DeleteQueue? && !e.op.UnBind? && !e.op.Bind?
    ensures h'.bindings == h.bindings
  {
  }

  // ---- Whole runs ----

  /** A run of the whole broker from an empty one, with working tables. */
  ghost predicate Runs(hs: seq<Host>, es: seq<Event>) {
    && |hs| == |es| + 1 && hs[0] == EMPTY_HOST
    && forall i :: 0 <= i < |es| ==> Smooth(es[i]) && Happens(hs[i], es[i], hs[i + 1])
  }

  ghost predicate AsTold(h: Host, es: seq<Event>) {
    && Recoverable(h) && Modes(h.exchanges) == ExchangesTold(es) && Durabilities(h) == Declared(es)
    && forall x, q :: TieIn(h.bindings, x, q) == TieOf(es, x, q)
  }

  lemma {:induction false} AsToldStep(h: Host, es: seq<Event>, e: Event, h': Host)
    requires AsTold(h, es) && Happens(h, e, h') && Smooth(e)
    ensures AsTold(h', es + [e])
  {
    hide Recoverable, Modes, Durabilities, TieIn, TieOf, ExchangesTold, Declared, ExchangesNext, DeclaredNext, TieNext;
    hide Does, Happens;
    EventRecoverable(h, e, h');
    ModesStep(h, e, h');
    ExchangesMore(es, e);
    DeclaredStep(h, e, h');
    DeclaredMore(es, e);
    forall x, q ensures TieIn(h'.bindings, x, q) == TieOf(es + [e], x, q) {
      TieKept(h, e, h', x, q);
      TieMore(es, e, x, q);
    }
  }

  lemma {:induction false} EmptyAsTold()
    ensures AsTold(EMPTY_HOST, [])
  {
    EmptyGood();
    assert Modes(EMPTY_HOST.exchanges) == Told(map[], map[]);
    assert Durabilities(EMPTY_HOST) == map[];
  }

  lemma {:induction false} RunAsTold(hs: seq<Host>, es: seq<Event>, i: nat)
    requires Runs(hs, es) && i <= |es|
    ensures AsTold(hs[i], es[..i])
  {
    hide AsTold, Happens, Smooth;
    if i == 0 {
      EmptyAsTold();
    } else {
      RunAsTold(hs, es, i - 1);
      AsToldStep(hs[i - 1], es[..i - 1], es[i - 1], hs[i]);
      assert es[..i - 1] + [es[i - 1]] == es[..i];
    }
  }

  /**
   After any run of the broker with working tables, earlier restarts included, a restart binds a queue to an
   exchange with a key exactly when some event bound the pair with that key while the exchange was declared with
   a mode other than 0, the queue declared durable and the pair unbound, and no event since has unbound the pair
   or deleted one of its ends.
   */
  lemma {:induction false} RestartBindsAgain(hs: seq<Host>, es: seq<Event>, x: Str, q: Str, key: Str)
    requires Runs(hs, es)
    ensures var m := Restarted(hs[|es|]).bindings.bindings;
            (B.Bound(m, x, q) && m[x][q] == B.Binding(x, q, key)) <==> BoundForGood(es, x, q, key)
  {
    hide AsTold, BoundForGood, TieOf, Recoverable, Restarted;
    RunAsTold(hs, es, |es|);
    assert es[..|es|] == es;
    BoundIsTie(es, x, q, key);
    RestartedTie(hs[|es|], es, x, q, key);
  }

  /** The exchanges a restart brings back are those that the events leave stored, with their modes. */
  lemma {:induction false} RestartBringsExchanges(hs: seq<Host>, es: seq<Event>)
    requires Runs(hs, es)
    ensures var r, stored := Restarted(hs[|es|]).exchanges.exchanges, ExchangesTold(es).stored;
            r.Keys == stored.Keys && forall x :: x in r ==> r[x].mode == stored[x]
  {
    hide ExchangesTold;
    RunAsTold(hs, es, |es|);
    assert es[..|es|] == es;
    RestoredModes(hs[|es|].exchanges);
    assert Modes(hs[|es|].exchanges) == ExchangesTold(es);
    assert Modes(Restarted(hs[|es|]).exchanges).declared == ExchangesTold(es).stored;
  }

  lemma {:induction false} RestartedTie(h: Host, es: seq<Event>, x: Str, q: Str, key: Str)
    requires AsTold(h, es)
    ensures var m := Restarted(h).bindings.bindings;
            (B.Bound(m, x, q) && m[x][q] == B.Binding(x, q, key)) <==> TieOf(es, x, q) == Some(Tie(key, true))
  {
    hide TieOf, ExchangesTold, Declared, Modes, Durabilities;
    B.RestartRebuildsDurable(h.bindings);
    RestartTie(h.bindings, x, q);
    assert TieIn(h.bindings, x, q) == TieOf(es, x, q);
  }

  lemma {:induction false} GoodRuns(hs: seq<Host>, ls: seq<Ledger>, es: seq<Event>)
    requires Good(hs, ls, es)
    ensures Runs(hs, es)
  {
    forall i | 0 <= i < |es| ensures Smooth(es[i]) && Happens(hs[i], es[i], hs[i + 1]) {
      assert GoodStep(hs[i], ls[i], es[i], hs[i + 1], ls[i + 1]);
    }
  }
}
