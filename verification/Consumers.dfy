/** `QueueConsumer`: the subscribers of one queue and the round robin among them. */
module Consumers {
  import opened Bytes

  datatype Consumer = Consumer(tag: Str, queue: Str, autoAck: bool)

  ghost predicate DistinctTags(cs: seq<Consumer>) {
    forall i, j :: 0 <= i < j < |cs| ==> cs[i].tag != cs[j].tag
  }

  ghost predicate HasTag(cs: seq<Consumer>, tag: Str) {
    exists i :: 0 <= i < |cs| && cs[i].tag == tag
  }

  class QueueConsumer {
    var consumers: seq<Consumer>
    var sequence: nat

    ghost predicate Valid()
      reads this
    {
      DistinctTags(consumers) && sequence < TWO64
    }

    constructor ()
      ensures Valid() && consumers == [] && sequence == 0
    {
      consumers, sequence := [], 0;
    }

    /** A tag already subscribed yields nothing; otherwise the new consumer comes last. */
    method Create(tag: Str, queue: Str, autoAck: bool) returns (r: Option<Consumer>)
      requires Valid()
      modifies this`consumers
      ensures Valid()
      ensures r == if HasTag(old(consumers), tag) then None else Some(Consumer(tag, queue, autoAck))
      ensures consumers == if r == None then old(consumers) else old(consumers) + [r.value]
    {
      for i := 0 to |consumers|
        invariant forall j :: 0 <= j < i ==> consumers[j].tag != tag
        invariant consumers == old(consumers)
      {
        if consumers[i].tag == tag {
          return None;
        }
      }
      r := Some(Consumer(tag, queue, autoAck));
      consumers := consumers + [r.value];
    }

    /** The one consumer with the tag leaves; the others keep their order. */
    method Remove(tag: Str)
      requires Valid()
      modifies this`consumers
      ensures Valid() && !HasTag(consumers, tag)
      ensures !HasTag(old(consumers), tag) ==> consumers == old(consumers)
      ensures HasTag(old(consumers), tag) ==>
                exists i :: 0 <= i < |old(consumers)| && old(consumers)[i].tag == tag
                            && consumers == old(consumers)[..i] + old(consumers)[i + 1..]
    {
      for i := 0 to |consumers|
        invariant forall j :: 0 <= j < i ==> consumers[j].tag != tag
        invariant consumers == old(consumers)
      {
        if consumers[i].tag == tag {
          consumers := consumers[..i] + consumers[i + 1..];
          return;
        }
      }
    }

    /** The consumer whose turn it is; the 64-bit counter wraps around. */
    method Choose() returns (r: Option<Consumer>)
      requires Valid()
      modifies this`sequence
      ensures Valid()
      ensures consumers == [] ==> r == None && sequence == old(sequence)
      ensures consumers != [] ==> r == Some(consumers[old(sequence) % |consumers|])
                                  && r == Some(consumers[Turn(old(sequence), 0, |consumers|)])
                                  && sequence == (old(sequence) + 1) % TWO64
    {
      if |consumers| == 0 {
        return None;
      }
      var index := sequence % |consumers|;
      sequence := (sequence + 1) % TWO64;
      return Some(consumers[index]);
    }

    /** `k` calls of `Choose`, with no consumer coming or going: call `i` serves the consumer of turn `i`. */
    method ChooseEach(k: nat) returns (served: seq<Consumer>)
      requires Valid() && consumers != []
      modifies this`sequence
      ensures Valid() && |served| == k && sequence == (old(sequence) + k) % TWO64
      ensures forall i :: 0 <= i < k ==> served[i] == consumers[Turn(old(sequence), i, |consumers|)]
      ensures old(sequence) + k <= TWO64 ==> Fair(consumers, served)
    {
      hide Turn, Times, Fair;
      served := [];
      TurnStart(sequence);
      for j := 0 to k
        invariant |served| == j && sequence == (old(sequence) + j) % TWO64
        invariant forall i :: 0 <= i < j ==> served[i] == consumers[Turn(old(sequence), i, |consumers|)]
      {
        TurnLater(old(sequence), j, |consumers|);
        var r := Choose();
        served := served + [r.value];
      }
      if old(sequence) + k <= TWO64 {
        ServedFairly(consumers, old(sequence), served);
      }
    }

    method Clear()
      modifies this
      ensures Valid() && consumers == [] && sequence == 0
    {
      consumers, sequence := [], 0;
    }
  }

  /** `ConsumerManager`: the subscribers of each queue, found by the queue's name. */
  class ConsumerManager {
    var queues: map<Str, QueueConsumer>

    ghost predicate Valid()
      reads this, queues.Values
    {
      && (forall q :: q in queues ==> queues[q].Valid())
      && (forall q, r :: q in queues && r in queues && q != r ==> queues[q] != queues[r])
    }

    /** The subscriber whose turn it is. */
    ghost function Next(q: Str): Option<Consumer>
      requires Valid()
      reads this, queues.Values
    {
      if q !in queues || queues[q].consumers == [] then None
      else Some(queues[q].consumers[Turn(queues[q].sequence, 0, |queues[q].consumers|)])
    }

    constructor ()
      ensures Valid() && queues == map[]
    {
      queues := map[];
    }

    method InitQueueConsumer(q: Str)
      requires Valid()
      modifies this
      ensures Valid() && queues.Keys == old(queues).Keys + {q}
      ensures forall r :: r in old(queues) ==> queues[r] == old(queues)[r]
      ensures q !in old(queues) ==> fresh(queues[q]) && queues[q].consumers == [] && queues[q].sequence == 0
    {
      if q in queues {
        return;
      }
      var qc := new QueueConsumer();
      queues := queues[q := qc];
    }

    method DestroyQueueConsumer(q: Str)
      requires Valid()
      modifies this
      ensures Valid() && queues == old(queues) - {q}
    {
      queues := queues - {q};
    }

    /** A queue without an entry yields no consumer, like one without subscribers. */
    method Choose(q: Str) returns (r: Option<Consumer>)
      requires Valid()
      modifies queues.Values
      ensures Valid() && queues == old(queues) && r == old(Next(q))
      ensures forall p :: p in queues ==> queues[p].consumers == old(queues[p].consumers)
      ensures forall p :: p in queues ==>
                queues[p].sequence == if p == q && r != None then (old(queues[p].sequence) + 1) % TWO64
                                      else old(queues[p].sequence)
    {
      if q !in queues {
        return None;
      }
      r := queues[q].Choose();
    }
  }

  // ---- Fairness among `n` consumers ----

  /** The index chosen by call `i` from a counter at `start`, with no consumer coming or going. */
  function Turn(start: nat, i: nat, n: nat): (t: nat)
    requires n > 0
    ensures t < n
  {
    ((start + i) % TWO64) % n
  }

  lemma {:induction false} TurnStart(start: nat)
    requires start < TWO64
    ensures start == (start + 0) % TWO64
  {
  }

  /** Where the counter stands after `i` calls, a call takes turn `i`, and the counter moves on by one. */
  lemma {:induction false} TurnLater(start: nat, i: nat, n: nat)
    requires n > 0
    ensures Turn((start + i) % TWO64, 0, n) == Turn(start, i, n)
    ensures ((start + i) % TWO64 + 1) % TWO64 == (start + (i + 1)) % TWO64
  {
  }

  /** How often a consumer occurs among those served. */
  function Times(served: seq<Consumer>, who: Consumer): nat {
    if served == [] then 0
    else Times(served[..|served| - 1], who) + (if served[|served| - 1] == who then 1 else 0)
  }

  /** With distinct tags, the calls that serve a consumer are those whose turn is its own. */
  lemma {:induction false} TimesAreTurns(cs: seq<Consumer>, start: nat, served: seq<Consumer>, c: nat)
    requires DistinctTags(cs) && c < |cs|
    requires forall i :: 0 <= i < |served| ==> served[i] == cs[Turn(start, i, |cs|)]
    ensures Times(served, cs[c]) == Turns(start, |served|, |cs|, c)
  {
    if served != [] {
      TimesAreTurns(cs, start, served[..|served| - 1], c);
    }
  }

  /** Any consumer's number of turns among the first `k` calls. */
  function Turns(start: nat, k: nat, n: nat, c: nat): nat
    requires n > 0
  {
    if k == 0 then 0
    else Turns(start, k - 1, n, c) + (if Turn(start, k - 1, n) == c then 1 else 0)
  }

  /** Within a window of `n` calls no consumer has two turns, hence each has exactly one. */
  ghost predicate FairWindow(start: nat, n: nat)
    requires n > 0
  {
    forall i, j :: 0 <= i < j < n ==> Turn(start, i, n) != Turn(start, j, n)
  }

  lemma {:induction false} ModUnique(a: int, n: nat, q: int, r: int)
    requires n > 0 && a == q * n + r && 0 <= r < n
    ensures a % n == r
  {
    var d := a / n - q;
    assert a == (a / n) * n + a % n;
    assert d * n == r - a % n;
    if d >= 1 {
      MulAtLeast(d, 1, n);
      assert false;
    } else if d <= -1 {
      MulAtLeast(-1, d, n);
      assert false;
    }
  }

  lemma {:induction false} MulAtLeast(d: int, e: int, n: nat)
    requires d >= e
    ensures d * n >= e * n
  {
    assert (d - e) * n >= 0;
  }

  lemma {:induction false} NextTurn(x: nat, n: nat)
    requires n > 0
    ensures (x + 1) % n == if x % n + 1 == n then 0 else x % n + 1
  {
    if x % n + 1 == n {
      ModUnique(x + 1, n, x / n + 1, 0);
    } else {
      ModUnique(x + 1, n, x / n, x % n + 1);
    }
  }

  lemma {:induction false} ModAdd(x: nat, i: nat, n: nat)
    requires i < n
    ensures (x + i) % n == if x % n + i < n then x % n + i else x % n + i - n
  {
    if x % n + i < n {
      ModUnique(x + i, n, x / n, x % n + i);
    } else {
      ModUnique(x + i, n, x / n + 1, x % n + i - n);
    }
  }

  lemma {:induction false} ModDistinct(x: nat, i: nat, j: nat, n: nat)
    requires i < j < n
    ensures (x + i) % n != (x + j) % n
  {
    ModAdd(x, i, n);
    ModAdd(x, j, n);
  }

  lemma {:induction false} NoWrap(start: nat, i: nat, n: nat)
    requires n > 0 && start + i < TWO64
    ensures Turn(start, i, n) == (start + i) % n
  {
  }

  lemma {:induction false} TurnsStep(start: nat, k: nat, n: nat, c: nat)
    requires n > 0 && k > 0
    ensures Turns(start, k, n, c) * n == Turns(start, k - 1, n, c) * n + (if Turn(start, k - 1, n) == c then n else 0)
  {
    var t := Turns(start, k - 1, n, c);
    assert (t + 1) * n == t * n + n;
  }

  lemma {:induction false} LagStep(here: nat, c: nat, n: nat)
    requires here < n && c < n
    ensures var next := if here + 1 == n then 0 else here + 1;
            Lag(next, c, n) == Lag(here, c, n) + 1 - (if here == c then n else 0)
  {
  }

  /** Turn counts after `k` calls, in closed form: the calls go round from consumer `start % n`. */
  lemma {:induction false} TurnsCount(start: nat, k: nat, n: nat, c: nat)
    requires n > 0 && c < n && start + k <= TWO64
    ensures Turns(start, k, n, c) * n == k + Lag(start % n, c, n) - Lag((start + k) % n, c, n)
  {
    if k > 0 {
      TurnsCount(start, k - 1, n, c);
      TurnsStep(start, k, n, c);
      NoWrap(start, k - 1, n);
      NextTurn(start + (k - 1), n);
      LagStep((start + (k - 1)) % n, c, n);
      assert start + (k - 1) + 1 == start + k;
    }
  }

  /** How far consumer `c` stands behind the next in turn: 0 for the consumer just served. */
  function Lag(next: nat, c: nat, n: nat): (d: nat)
    requires next < n && c < n
    ensures d < n
  {
    if c < next then next - 1 - c else next + n - 1 - c
  }

  /** However many calls are made before the counter wraps, no two consumers differ by more than one turn. */
  lemma {:induction false} RoundRobinFair(start: nat, k: nat, n: nat, c: nat, d: nat)
    requires n > 0 && c < n && d < n && start + k <= TWO64
    ensures Turns(start, k, n, c) <= Turns(start, k, n, d) + 1
  {
    var a, b := Turns(start, k, n, c), Turns(start, k, n, d);
    TurnsCount(start, k, n, c);
    TurnsCount(start, k, n, d);
    if a >= b + 2 {
      MulAtLeast(a, b + 2, n);
      TwoMore(b, n);
      assert false;
    }
  }

  /** No consumer was served more than once more than another. */
  ghost predicate Fair(cs: seq<Consumer>, served: seq<Consumer>) {
    forall c, d :: 0 <= c < |cs| && 0 <= d < |cs| ==> Times(served, cs[c]) <= Times(served, cs[d]) + 1
  }

  lemma {:induction false} ServedFairly(cs: seq<Consumer>, start: nat, served: seq<Consumer>)
    requires DistinctTags(cs) && cs != [] && start + |served| <= TWO64
    requires forall i :: 0 <= i < |served| ==> served[i] == cs[Turn(start, i, |cs|)]
    ensures Fair(cs, served)
  {
    forall c, d | 0 <= c < |cs| && 0 <= d < |cs| ensures Times(served, cs[c]) <= Times(served, cs[d]) + 1 {
      TimesAreTurns(cs, start, served, c);
      TimesAreTurns(cs, start, served, d);
      RoundRobinFair(start, |served|, |cs|, c, d);
    }
  }

  /** Each window of `n` calls before the wrap gives every consumer exactly one turn. */
  lemma {:induction false} OneTurnEach(start: nat, n: nat, c: nat)
    requires n > 0 && c < n && start + n <= TWO64
    ensures Turns(start, n, n, c) == 1
  {
    TurnsCount(start, n, n, c);
    ModShift(start, n);
    OneOnly(Turns(start, n, n, c), n);
  }

  lemma {:induction false} ModShift(x: nat, n: nat)
    requires n > 0
    ensures (x + n) % n == x % n
  {
    var q := x / n;
    assert (q + 1) * n == q * n + n;
    ModUnique(x + n, n, q + 1, x % n);
  }

  lemma {:induction false} OneOnly(t: nat, n: nat)
    requires n > 0 && t * n == n
    ensures t == 1
  {
    if t >= 2 {
      MulAtLeast(t, 2, n);
      assert false;
    }
  }

  lemma {:induction false} TwoMore(b: nat, n: nat)
    ensures (b + 2) * n == b * n + 2 * n
  {
  }

  /**
   With the wrap: a window of calls is fair exactly when it does not straddle the wrap or the number of
   consumers divides 2^64.
   */
  lemma {:induction false} WindowFairIff(start: nat, n: nat)
    requires 0 < n <= TWO64 && start < TWO64
    ensures FairWindow(start, n) <==> start + n <= TWO64 || TWO64 % n == 0
  {
    if start + n <= TWO64 {
      FairBeforeWrap(start, n);
    } else if TWO64 % n == 0 {
      FairAcrossWrap(start, n);
    } else {
      UnfairAcrossWrap(start, n);
    }
  }

  lemma {:induction false} FairBeforeWrap(start: nat, n: nat)
    requires n > 0 && start + n <= TWO64
    ensures FairWindow(start, n)
  {
    hide Turn;
    forall i, j | 0 <= i < j < n ensures Turn(start, i, n) != Turn(start, j, n) {
      NoWrap(start, i, n);
      NoWrap(start, j, n);
      ModDistinct(start, i, j, n);
    }
  }

  /** Past the wrap the calls start again at consumer 0. */
  lemma {:induction false} AfterWrap(start: nat, i: nat, n: nat)
    requires 0 < n <= TWO64 && start < TWO64 <= start + i && i < n
    ensures Turn(start, i, n) == start + i - TWO64
  {
    assert (start + i) % TWO64 == start + i - TWO64;
    ModUnique(start + i - TWO64, n, 0, start + i - TWO64);
  }

  lemma {:induction false} FairAcrossWrap(start: nat, n: nat)
    requires 0 < n <= TWO64 && start < TWO64 && TWO64 % n == 0
    ensures FairWindow(start, n)
  {
    forall i, j | 0 <= i < j < n ensures Turn(start, i, n) != Turn(start, j, n) {
      SameAsUnwrapped(start, i, n);
      SameAsUnwrapped(start, j, n);
      ModAdd(start, i, n);
      ModAdd(start, j, n);
    }
  }

  lemma {:induction false} SameAsUnwrapped(start: nat, i: nat, n: nat)
    requires 0 < n <= TWO64 && start < TWO64 && TWO64 % n == 0 && i < n
    ensures Turn(start, i, n) == (start + i) % n
  {
    if start + i < TWO64 {
      NoWrap(start, i, n);
    } else {
      AfterWrap(start, i, n);
      var rest := start + i - TWO64;
      assert TWO64 == (TWO64 / n) * n;
      ModUnique(start + i, n, TWO64 / n, rest);
    }
  }

  /** A window that straddles the wrap serves somebody twice when `n` does not divide 2^64. */
  lemma {:induction false} UnfairAcrossWrap(start: nat, n: nat)
    requires 0 < n <= TWO64 && start < TWO64 < start + n && TWO64 % n != 0
    ensures !FairWindow(start, n)
  {
    var m := TWO64 - start;
    var c := TWO64 % n;
    if c <= n - m {
      // The last call before the wrap and call `m + c - 1` both serve consumer `c - 1`.
      BeforeWrap(n, 1);
      AfterWrap(start, m + c - 1, n);
      NoWrap(start, m - 1, n);
      assert Turn(start, m - 1, n) == Turn(start, m + c - 1, n);
    } else {
      // The last call of the window serves consumer `n - m - 1`, who was served before the wrap too.
      var back := c - (n - m - 1);
      BeforeWrap(n, back);
      AfterWrap(start, n - 1, n);
      NoWrap(start, m - back, n);
      assert Turn(start, m - back, n) == Turn(start, n - 1, n);
    }
  }

  /** Who is served `back` calls before the wrap, when that is still in the last round. */
  lemma {:induction false} BeforeWrap(n: nat, back: nat)
    requires 0 < n <= TWO64 && 0 < back <= TWO64 % n
    ensures (TWO64 - back) % n == TWO64 % n - back
  {
    ModUnique(TWO64 - back, n, TWO64 / n, TWO64 % n - back);
  }
}
