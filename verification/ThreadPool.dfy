/**
 `Threadpool`: tasks pushed under a lock, workers that swap out the whole pool and run what they got. Every
 interleaving of the atomic steps of pushers, workers and `stop` is a run. A task is the number of its push.
 */
module ThreadPool {
  /** Where a worker is in `entry`: at the test of the flag, in the wait, in the loop over its batch, or gone. */
  datatype Worker =
    | Testing
    | Waiting
    | Running(batch: seq<nat>, done: nat)
    | Exited

  datatype Pool = Pool(stop: bool, taskpool: seq<nat>, workers: seq<Worker>, count: nat)

  datatype Event =
    | Push
    | Stop
    | Test(w: nat)
    | Take(w: nat)
    | Execute(w: nat)
    | Again(w: nat)

  predicate Enabled(p: Pool, e: Event) {
    match e
    case Push => true
    case Stop => true
    case Test(w) => w < |p.workers| && p.workers[w] == Testing
    case Take(w) => w < |p.workers| && p.workers[w] == Waiting && (p.stop || p.taskpool != [])
    case Execute(w) =>
      w < |p.workers| && p.workers[w].Running? && p.workers[w].done < |p.workers[w].batch|
    case Again(w) =>
      w < |p.workers| && p.workers[w].Running? && p.workers[w].done >= |p.workers[w].batch|
  }

  function Move(p: Pool, e: Event): Pool
    requires Enabled(p, e)
  {
    match e
    case Push => p.(taskpool := p.taskpool + [p.count], count := p.count + 1)
    case Stop => p.(stop := true)
    case Test(w) => p.(workers := p.workers[w := if p.stop then Exited else Waiting])
    case Take(w) => p.(workers := p.workers[w := Running(p.taskpool, 0)], taskpool := [])
    case Execute(w) => p.(workers := p.workers[w := p.workers[w].(done := p.workers[w].done + 1)])
    case Again(w) => p.(workers := p.workers[w := Testing])
  }

  /** The pool's fields; each method is one atomic step. */
  class Threadpool {
    var stop: bool
    var taskpool: seq<nat>
    var workers: seq<Worker>
    var count: nat

    function State(): Pool
      reads this
    {
      Pool(stop, taskpool, workers, count)
    }

    constructor (threads: nat)
      ensures State() == Fresh(threads)
    {
      stop, taskpool, workers, count := false, [], seq(threads, _ => Testing), 0;
    }

    method Push() returns (task: nat)
      modifies this`taskpool, this`count
      ensures State() == Move(old(State()), Event.Push) && taskpool == old(taskpool) + [task]
    {
      task := count;
      taskpool := taskpool + [task];
      count := count + 1;
    }

    method Stop()
      modifies this`stop
      ensures State() == Move(old(State()), Event.Stop)
    {
      stop := true;
    }

    method TestFlag(w: nat)
      requires Enabled(State(), Test(w))
      modifies this`workers
      ensures State() == Move(old(State()), Test(w))
      ensures workers == old(workers)[w := if stop then Exited else Waiting]
    {
      workers := workers[w := if stop then Exited else Waiting];
    }

    /** The critical section of `entry`, once the condition of the wait holds. */
    method TakeAll(w: nat)
      requires Enabled(State(), Take(w))
      modifies this`workers, this`taskpool
      ensures State() == Move(old(State()), Take(w))
      ensures workers == old(workers)[w := Running(old(taskpool), 0)] && taskpool == []
    {
      var batch := taskpool;
      taskpool := [];
      workers := workers[w := Running(batch, 0)];
    }

    method RunNext(w: nat) returns (task: nat)
      requires Enabled(State(), Execute(w))
      modifies this`workers
      ensures State() == Move(old(State()), Execute(w))
      ensures task == old(workers)[w].batch[old(workers)[w].done]
    {
      task := workers[w].batch[workers[w].done];
      workers := workers[w := workers[w].(done := workers[w].done + 1)];
    }

    method Loop(w: nat)
      requires Enabled(State(), Again(w))
      modifies this`workers
      ensures State() == Move(old(State()), Again(w))
    {
      workers := workers[w := Testing];
    }
  }

  function Fresh(threads: nat): Pool {
    Pool(false, [], seq(threads, _ => Testing), 0)
  }

  // ---- What happened: the batches in the order of the swaps, the tasks in the order of their execution ----

  datatype History = History(batches: seq<seq<nat>>, log: seq<nat>)

  function Note(p: Pool, h: History, e: Event): History
    requires Enabled(p, e)
  {
    match e
    case Take(w) => h.(batches := h.batches + [p.taskpool])
    case Execute(w) => h.(log := h.log + [p.workers[w].batch[p.workers[w].done]])
    case _ => h
  }

  function Flat(bs: seq<seq<nat>>): seq<nat> {
    if bs == [] then [] else bs[0] + Flat(bs[1..])
  }

  function Upto(n: nat): (s: seq<nat>)
    ensures |s| == n && forall i :: 0 <= i < n ==> s[i] == i
  {
    seq(n, i => i)
  }

  /** The elements of `log` that are in `b`, in the order of `log`. */
  function Only(log: seq<nat>, b: seq<nat>): seq<nat> {
    if log == [] then []
    else (if log[0] in b then [log[0]] else []) + Only(log[1..], b)
  }

  // ---- The invariant ----

  ghost predicate Unheld(p: Pool, b: seq<nat>) {
    forall w :: 0 <= w < |p.workers| && p.workers[w].Running? ==> p.workers[w].batch != b
  }

  ghost predicate Whole(p: Pool, h: History) {
    && Flat(h.batches) + p.taskpool == Upto(p.count)
    && (forall t :: t in h.log ==> t in Flat(h.batches))
  }

  /** Each worker has run the first tasks of its batch, which no other worker has, and a batch let go is done. */
  ghost predicate Kept(p: Pool, h: History) {
    && (forall w :: 0 <= w < |p.workers| && p.workers[w].Running? ==>
          && p.workers[w].batch in h.batches
          && p.workers[w].done <= |p.workers[w].batch|
          && Only(h.log, p.workers[w].batch) == p.workers[w].batch[..p.workers[w].done])
    && (forall v, w :: 0 <= v < w < |p.workers| && p.workers[v].Running? && p.workers[w].Running? ==>
          p.workers[v].batch != p.workers[w].batch || p.workers[v].batch == [])
    && (forall b :: b in h.batches && Unheld(p, b) ==> Only(h.log, b) == b)
  }

  ghost predicate Inv(p: Pool, h: History) {
    Whole(p, h) && Kept(p, h)
  }

  // ---- Sequences ----

  lemma {:induction false} FlatAppend(bs: seq<seq<nat>>, b: seq<nat>)
    ensures Flat(bs + [b]) == Flat(bs) + b
  {
    if bs == [] {
      assert [b][1..] == [];
    } else {
      assert (bs + [b])[1..] == bs[1..] + [b];
      FlatAppend(bs[1..], b);
    }
  }

  lemma {:induction false} InFlat(bs: seq<seq<nat>>, b: seq<nat>, t: nat)
    requires b in bs && t in b
    ensures t in Flat(bs)
  {
    if bs[0] != b {
      InFlat(bs[1..], b, t);
    }
  }

  lemma {:induction false} FlatIn(bs: seq<seq<nat>>, t: nat) returns (b: seq<nat>)
    requires t in Flat(bs)
    ensures b in bs && t in b
  {
    if t in bs[0] {
      b := bs[0];
    } else {
      b := FlatIn(bs[1..], t);
    }
  }

  ghost predicate Increasing(s: seq<nat>) {
    forall i, j :: 0 <= i < j < |s| ==> s[i] < s[j]
  }

  lemma {:induction false} IncreasingParts(a: seq<nat>, b: seq<nat>)
    requires Increasing(a + b)
    ensures Increasing(a) && Increasing(b)
    ensures forall t :: t in a ==> t !in b
  {
    var s := a + b;
    forall i, j | 0 <= i < |a| && 0 <= j < |b| ensures a[i] < b[j] {
      assert s[i] == a[i] && s[|a| + j] == b[j];
    }
    forall i, j | 0 <= i < j < |a| ensures a[i] < a[j] {
      assert s[i] == a[i] && s[j] == a[j];
    }
    forall i, j | 0 <= i < j < |b| ensures b[i] < b[j] {
      assert s[|a| + i] == b[i] && s[|a| + j] == b[j];
    }
  }

  /** No task is in two batches, and each batch is in push order. */
  lemma {:induction false} OneBatch(bs: seq<seq<nat>>, a: seq<nat>, b: seq<nat>, t: nat)
    requires Increasing(Flat(bs)) && a in bs && b in bs && t in a
    ensures Increasing(a) && (t in b ==> a == b)
  {
    IncreasingParts(bs[0], Flat(bs[1..]));
    if a == bs[0] {
      if b != a && t in b {
        InFlat(bs[1..], b, t);
      }
    } else if b == bs[0] {
      InFlat(bs[1..], a, t);
      OneBatch(bs[1..], a, a, t);
    } else {
      OneBatch(bs[1..], a, b, t);
    }
  }

  lemma {:induction false} OnlyAppend(log: seq<nat>, t: nat, b: seq<nat>)
    ensures Only(log + [t], b) == Only(log, b) + (if t in b then [t] else [])
  {
    if log == [] {
      assert [t][1..] == [];
    } else {
      OnlyAppend(log[1..], t, b);
      OnlyFirst(log[0], log[1..], b);
      OnlyFirst(log[0], log[1..] + [t], b);
      assert [log[0]] + log[1..] == log && [log[0]] + (log[1..] + [t]) == log + [t];
    }
  }

  lemma {:induction false} OnlyFirst(t: nat, log: seq<nat>, b: seq<nat>)
    ensures Only([t] + log, b) == (if t in b then [t] else []) + Only(log, b)
  {
    assert ([t] + log)[1..] == log;
  }

  lemma {:induction false} OnlyNone(log: seq<nat>, b: seq<nat>)
    requires forall t :: t in log ==> t !in b
    ensures Only(log, b) == []
  {
    if log != [] {
      OnlyNone(log[1..], b);
    }
  }

  lemma {:induction false} OnlyCount(log: seq<nat>, b: seq<nat>, t: nat)
    requires t in b
    ensures multiset(Only(log, b))[t] == multiset(log)[t]
  {
    if log != [] {
      OnlyCount(log[1..], b, t);
      assert log == [log[0]] + log[1..];
    }
  }

  lemma {:induction false} CountIncreasing(s: seq<nat>, t: nat)
    requires Increasing(s)
    ensures multiset(s)[t] == if t in s then 1 else 0
  {
    if s != [] {
      assert s == [s[0]] + s[1..];
      CountIncreasing(s[1..], t);
    }
  }

  // ---- Each step keeps the invariant ----

  lemma {:induction false} PushKeeps(p: Pool, h: History)
    requires Inv(p, h)
    ensures Inv(Move(p, Push), h)
  {
    var p' := Move(p, Push);
    assert Flat(h.batches) + p'.taskpool == (Flat(h.batches) + p.taskpool) + [p.count];
    assert Upto(p.count) + [p.count] == Upto(p'.count);
    forall b | b in h.batches && Unheld(p', b) ensures Unheld(p, b) {
    }
  }

  lemma {:induction false} TakeKeeps(p: Pool, h: History, w: nat)
    requires Inv(p, h) && Enabled(p, Take(w))
    ensures Inv(Move(p, Take(w)), Note(p, h, Take(w)))
  {
    var p', h', b := Move(p, Take(w)), Note(p, h, Take(w)), p.taskpool;
    FlatAppend(h.batches, b);
    assert Flat(h'.batches) + [] == Flat(h'.batches);
    IncreasingParts(Flat(h.batches), b);
    OnlyNone(h.log, b);
    forall v | 0 <= v < |p.workers| && p.workers[v].Running? && p.workers[v].batch == b ensures b == [] {
      if b != [] {
        InFlat(h.batches, b, b[0]);
      }
    }
    forall c | c in h'.batches && Unheld(p', c) ensures Only(h.log, c) == c {
      assert p'.workers[w].batch == b;
      assert Unheld(p, c) by {
        forall v | 0 <= v < |p.workers| && p.workers[v].Running? ensures p.workers[v].batch != c {
          assert p'.workers[v] == p.workers[v];
        }
      }
    }
  }

  lemma {:induction false} ExecuteKeeps(p: Pool, h: History, w: nat)
    requires Inv(p, h) && Enabled(p, Execute(w))
    ensures Inv(Move(p, Execute(w)), Note(p, h, Execute(w)))
  {
    var p', h' := Move(p, Execute(w)), Note(p, h, Execute(w));
    var b, d := p.workers[w].batch, p.workers[w].done;
    var t := b[d];
    IncreasingParts(Flat(h.batches), p.taskpool);
    InFlat(h.batches, b, t);
    forall c | c in h.batches ensures Only(h'.log, c) == Only(h.log, c) + (if c == b then [t] else []) {
      OnlyAppend(h.log, t, c);
      OneBatch(h.batches, b, c, t);
    }
    assert b[..d] + [t] == b[..d + 1];
    forall v | 0 <= v < |p.workers| && v != w && p.workers[v].Running?
      ensures p.workers[v].batch != b
    {
    }
    forall c | c in h.batches && Unheld(p', c) ensures c != b && Unheld(p, c) {
      assert p'.workers[w].batch == b;
      forall v | 0 <= v < |p.workers| && p.workers[v].Running? ensures p.workers[v].batch != c {
        assert p'.workers[v].Running? && p'.workers[v].batch == p.workers[v].batch;
      }
    }
  }

  /** A worker only leaves a batch it has finished. */
  lemma {:induction false} LeaveKeeps(p: Pool, h: History, w: nat, next: Worker)
    requires Inv(p, h) && w < |p.workers| && !next.Running?
    requires p.workers[w].Running? ==> p.workers[w].done >= |p.workers[w].batch|
    ensures Inv(p.(workers := p.workers[w := next]), h)
  {
    var p' := p.(workers := p.workers[w := next]);
    forall c | c in h.batches && Unheld(p', c) ensures Only(h.log, c) == c {
      if p.workers[w].Running? && p.workers[w].batch == c {
        assert c[..|c|] == c;
      } else {
        forall v | 0 <= v < |p.workers| && p.workers[v].Running? ensures p.workers[v].batch != c {
          assert v != w ==> p'.workers[v] == p.workers[v];
        }
      }
    }
  }

  lemma {:induction false} StopKeeps(p: Pool, h: History)
    requires Inv(p, h)
    ensures Inv(p.(stop := true), h)
  {
    forall b | b in h.batches && Unheld(p.(stop := true), b) ensures Unheld(p, b) {
    }
  }

  lemma {:induction false} MoveKeeps(p: Pool, h: History, e: Event)
    requires Inv(p, h) && Enabled(p, e)
    ensures Inv(Move(p, e), Note(p, h, e))
  {
    match e
    case Push => PushKeeps(p, h);
    case Stop => StopKeeps(p, h);
    case Test(w) => LeaveKeeps(p, h, w, if p.stop then Exited else Waiting);
    case Take(w) => TakeKeeps(p, h, w);
    case Execute(w) => ExecuteKeeps(p, h, w);
    case Again(w) => LeaveKeeps(p, h, w, Testing);
  }

  // ---- All interleavings ----

  predicate Possible(p: Pool, es: seq<Event>)
    decreases |es|
  {
    es == [] || (Enabled(p, es[0]) && Possible(Move(p, es[0]), es[1..]))
  }

  function After(p: Pool, es: seq<Event>): Pool
    requires Possible(p, es)
    decreases |es|
  {
    if es == [] then p else After(Move(p, es[0]), es[1..])
  }

  function Noted(p: Pool, h: History, es: seq<Event>): History
    requires Possible(p, es)
    decreases |es|
  {
    if es == [] then h else Noted(Move(p, es[0]), Note(p, h, es[0]), es[1..])
  }

  lemma {:induction false} RunKeeps(p: Pool, h: History, es: seq<Event>)
    requires Inv(p, h) && Possible(p, es)
    ensures Inv(After(p, es), Noted(p, h, es))
    decreases |es|
  {
    if es != [] {
      MoveKeeps(p, h, es[0]);
      RunKeeps(Move(p, es[0]), Note(p, h, es[0]), es[1..]);
    }
  }

  lemma {:induction false} RunFromFresh(threads: nat, es: seq<Event>)
    requires Possible(Fresh(threads), es)
    ensures Inv(After(Fresh(threads), es), Noted(Fresh(threads), History([], []), es))
  {
    assert Upto(0) == [];
    RunKeeps(Fresh(threads), History([], []), es);
  }

  lemma {:induction false} BatchStarted(p: Pool, h: History, b: seq<nat>)
    requires Inv(p, h) && b in h.batches
    ensures Only(h.log, b) <= b
  {
    if !Unheld(p, b) {
      var w :| 0 <= w < |p.workers| && p.workers[w].Running? && p.workers[w].batch == b;
    }
  }

  lemma {:induction false} RanAtMostOnce(p: Pool, h: History, t: nat)
    requires Inv(p, h)
    ensures multiset(h.log)[t] <= 1
  {
    if t in h.log {
      var b := FlatIn(h.batches, t);
      IncreasingParts(Flat(h.batches), p.taskpool);
      OneBatch(h.batches, b, b, t);
      BatchStarted(p, h, b);
      OnlyCount(h.log, b, t);
      var ran := Only(h.log, b);
      assert ran == b[..|ran|];
      CountIncreasing(ran, t);
    }
  }

  /**
   After any interleaving the batches in the order of the swaps, followed by the tasks still in the pool, are
   the tasks pushed in the order of the pushes; of each batch the tasks run so far are a first part, in push
   order; and no task has run twice.
   */
  lemma {:induction false} TasksConserved(threads: nat, es: seq<Event>)
    requires Possible(Fresh(threads), es)
    ensures var p, h := After(Fresh(threads), es), Noted(Fresh(threads), History([], []), es);
            && Flat(h.batches) + p.taskpool == Upto(p.count)
            && (forall b :: b in h.batches ==> Only(h.log, b) <= b)
            && (forall t :: multiset(h.log)[t] <= 1)
            && (forall t :: t in h.log ==> t in Flat(h.batches))
  {
    var p, h := After(Fresh(threads), es), Noted(Fresh(threads), History([], []), es);
    RunFromFresh(threads, es);
    forall b | b in h.batches ensures Only(h.log, b) <= b {
      BatchStarted(p, h, b);
    }
    forall t ensures multiset(h.log)[t] <= 1 {
      RanAtMostOnce(p, h, t);
    }
  }

  // ---- Who leaves, and when ----

  lemma {:induction false} FlagSet(p: Pool, es: seq<Event>)
    requires Possible(p, es)
    ensures After(p, es).stop <==> p.stop || Stop in es
    ensures |After(p, es).workers| == |p.workers|
    decreases |es|
  {
    if es != [] {
      FlagSet(Move(p, es[0]), es[1..]);
    }
  }

  /** Workers that have not left, as long as the flag is not set. */
  ghost predicate Staying(p: Pool) {
    !p.stop ==> forall w :: 0 <= w < |p.workers| ==> p.workers[w] != Exited
  }

  lemma {:induction false} StayingRun(p: Pool, es: seq<Event>)
    requires Possible(p, es) && Staying(p)
    ensures Staying(After(p, es))
    decreases |es|
  {
    if es != [] {
      StayingRun(Move(p, es[0]), es[1..]);
    }
  }

  /** In any interleaving the flag is set exactly if `stop` was called, and no worker has left unless it was. */
  lemma {:induction false} ExitNeedsStop(threads: nat, es: seq<Event>)
    requires Possible(Fresh(threads), es)
    ensures var p := After(Fresh(threads), es);
            && |p.workers| == threads && (p.stop <==> Stop in es)
            && forall w :: 0 <= w < threads && p.workers[w] == Exited ==> Stop in es
  {
    FlagSet(Fresh(threads), es);
    StayingRun(Fresh(threads), es);
  }

  lemma {:induction false} AfterSplit(p: Pool, a: seq<Event>, b: seq<Event>)
    requires Possible(p, a + b)
    ensures Possible(p, a) && Possible(After(p, a), b) && After(p, a + b) == After(After(p, a), b)
    decreases |a|
  {
    if a == [] {
      assert a + b == b;
    } else {
      assert (a + b)[0] == a[0] && (a + b)[1..] == a[1..] + b;
      AfterSplit(Move(p, a[0]), a[1..], b);
    }
  }

  predicate OfWorker(e: Event, w: nat) {
    e == Test(w) || e == Take(w) || e == Execute(w) || e == Again(w)
  }

  /** A worker that has left takes no further step. */
  lemma {:induction false} GoneForGood(p: Pool, es: seq<Event>, w: nat, j: nat)
    requires Possible(p, es) && w < |p.workers| && p.workers[w] == Exited && j < |es|
    ensures !OfWorker(es[j], w)
    decreases |es|
  {
    if j > 0 {
      GoneForGood(Move(p, es[0]), es[1..], w, j - 1);
    }
  }

  /** Once `stop` has been called, a worker that tests the flag takes no further batch and runs no further task. */
  lemma {:induction false} StoppedLeaves(threads: nat, es: seq<Event>, i: nat, w: nat, j: nat)
    requires Possible(Fresh(threads), es) && i < j < |es| && es[i] == Test(w) && Stop in es[..i]
    ensures es[j] != Take(w) && es[j] != Execute(w)
  {
    var front, rest := es[..i], es[i..];
    assert es == front + rest;
    AfterSplit(Fresh(threads), front, rest);
    FlagSet(Fresh(threads), front);
    GoneForGood(Move(After(Fresh(threads), front), rest[0]), rest[1..], w, j - i - 1);
    assert rest[1..][j - i - 1] == es[j];
  }

  /** While `stop` has not been called, a worker that tests the flag waits, and takes no batch that is empty. */
  lemma {:induction false} RunningStays(threads: nat, es: seq<Event>, i: nat, w: nat)
    requires Possible(Fresh(threads), es) && i < |es| && Stop !in es[..i]
    ensures Possible(Fresh(threads), es[..i])
    ensures var p := After(Fresh(threads), es[..i]);
            && (es[i] == Test(w) ==> w < threads && Enabled(p, es[i]) && Move(p, es[i]).workers[w] == Waiting)
            && (es[i] == Take(w) ==> p.taskpool != [])
  {
    var front, rest := es[..i], es[i..];
    assert es == front + rest;
    AfterSplit(Fresh(threads), front, rest);
    FlagSet(Fresh(threads), front);
  }

  lemma {:induction false} OnlySub(log: seq<nat>, b: seq<nat>, t: nat)
    requires t in Only(log, b)
    ensures t in log
  {
    if log[0] != t {
      OnlySub(log[1..], b, t);
    }
  }

  /**
   Once every worker has exited, a pushed task was never run exactly if it is still in the pool; and `stop` has
   been called.
   */
  lemma {:induction false} NeverRunAreInPool(threads: nat, es: seq<Event>, t: nat)
    requires Possible(Fresh(threads), es)
    requires var p := After(Fresh(threads), es);
             t < p.count && forall w :: 0 <= w < |p.workers| ==> p.workers[w] == Exited
    ensures var p, h := After(Fresh(threads), es), Noted(Fresh(threads), History([], []), es);
            t !in h.log <==> t in p.taskpool
    ensures threads > 0 ==> Stop in es
  {
    ExitNeedsStop(threads, es);
    assert threads > 0 ==> After(Fresh(threads), es).workers[0] == Exited;
    var p, h := After(Fresh(threads), es), Noted(Fresh(threads), History([], []), es);
    RunFromFresh(threads, es);
    IncreasingParts(Flat(h.batches), p.taskpool);
    assert Upto(p.count)[t] == t;
    if t in Flat(h.batches) {
      var b := FlatIn(h.batches, t);
      assert Only(h.log, b) == b;
      OnlySub(h.log, b, t);
    }
  }
}
