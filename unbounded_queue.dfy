/** The sequential state machine behind the unbounded `AyncPool<T>`: each public
    operation, taken as one atomic step on (items, open). The mutex and the
    condition variable only serialise these steps; a blocking wait becomes the
    predicate on the state in which the wait loop exits. */
module UnboundedQueue {
  import opened Int32

  /** The deque's contents, front first, and the `m_open` flag. */
  datatype Queue<T> = Queue(items: seq<T>, open: bool)

  /** A pool as its constructor leaves it: empty and open. */
  function Init<T>(): Queue<T>
  {
    Queue([], true)
  }

  /** `push_back` (copy and move overloads) and `emplace_back`: append at the
      tail and report the new size, or report -1 and drop the element when
      the pool is closed. */
  function PushBack<T>(q: Queue<T>, elem: T): (Queue<T>, int)
  {
    if q.open then (q.(items := q.items + [elem]), ToInt32(|q.items| + 1))
    else (q, -1)
  }

  /** The states in which the wait loop of a blocking `fetch` exits. */
  predicate FetchReady<T>(q: Queue<T>)
  {
    |q.items| > 0 || !q.open
  }

  /** The pool after a fetch: its head removed, if it has one. */
  function PopFront<T>(q: Queue<T>): Queue<T>
  {
    if |q.items| > 0 then q.(items := q.items[1..]) else q
  }

  /** `fetch()` once its wait has ended, and `fetchNoWait()`: the head, or
      `zero` (the value `T()`) when there is nothing to take. */
  function Fetch<T>(q: Queue<T>, zero: T): (Queue<T>, T)
  {
    (PopFront(q), if |q.items| > 0 then q.items[0] else zero)
  }

  /** `fetch(T&)` once its wait has ended, and `fetchNoWait(T&)`: whether an
      element was taken, and the value the out-parameter holds afterwards
      (`elem` is its value before the call). */
  function FetchInto<T>(q: Queue<T>, elem: T): (Queue<T>, bool, T)
  {
    (PopFront(q), |q.items| > 0, if |q.items| > 0 then q.items[0] else elem)
  }

  /** `close`: the pool stops accepting elements and keeps its backlog. */
  function Close<T>(q: Queue<T>): (r: Queue<T>)
    ensures !r.open && r.items == q.items
  {
    q.(open := false)
  }

  // ---------------------------------------------------------------------
  // Runs of operations

  /** One step of a run, as far as the pool's state is concerned. `FetchOp`
      stands for every fetch form; `wait` says whether it is a blocking one. */
  datatype Op<T> = PushOp(elem: T) | FetchOp(wait: bool) | CloseOp

  /** An operation can complete in this state: a blocking fetch needs its
      wait to have exited; every other operation never waits. */
  predicate Enabled<T>(q: Queue<T>, op: Op<T>)
  {
    op.FetchOp? && op.wait ==> FetchReady(q)
  }

  function Apply<T>(q: Queue<T>, op: Op<T>): Queue<T>
  {
    match op
    case PushOp(e) => PushBack(q, e).0
    case FetchOp(_) => PopFront(q)
    case CloseOp => Close(q)
  }

  function Run<T>(q: Queue<T>, ops: seq<Op<T>>): Queue<T>
    decreases |ops|
  {
    if ops == [] then q else Run(Apply(q, ops[0]), ops[1..])
  }

  /** Every operation of the run can complete in the state it meets. */
  predicate Admissible<T>(q: Queue<T>, ops: seq<Op<T>>)
    decreases |ops|
  {
    ops == [] || (Enabled(q, ops[0]) && Admissible(Apply(q, ops[0]), ops[1..]))
  }

  /** Pushes `es` one after another, collecting what each call returns. */
  function PushAll<T>(q: Queue<T>, es: seq<T>): (Queue<T>, seq<int>)
    decreases |es|
  {
    if es == [] then (q, [])
    else
      var first := PushBack(q, es[0]);
      var rest := PushAll(first.0, es[1..]);
      (rest.0, [first.1] + rest.1)
  }

  /** Fetches `n` times, collecting what each call returns. */
  function FetchN<T>(q: Queue<T>, zero: T, n: nat): (Queue<T>, seq<T>)
    decreases n
  {
    if n == 0 then (q, [])
    else
      var first := Fetch(q, zero);
      var rest := FetchN(first.0, zero, n - 1);
      (rest.0, [first.1] + rest.1)
  }

  // ---------------------------------------------------------------------
  // Properties

  /** On an open pool, pushing `es` appends them in order, and the i-th push
      reports the size the pool has just reached. */
  lemma {:induction false} PushAllAppends<T>(q: Queue<T>, es: seq<T>)
    requires q.open
    ensures PushAll(q, es).0 == q.(items := q.items + es)
    ensures |PushAll(q, es).1| == |es|
    ensures forall i :: 0 <= i < |es| ==> PushAll(q, es).1[i] == ToInt32(|q.items| + i + 1)
    decreases |es|
  {
    if es != [] {
      var first := PushBack(q, es[0]);
      PushAllAppends(first.0, es[1..]);
      assert first.0.items + es[1..] == q.items + es;
    }
  }

  /** On a closed pool every push reports -1 and nothing changes. */
  lemma {:induction false} PushAllClosed<T>(q: Queue<T>, es: seq<T>)
    requires !q.open
    ensures PushAll(q, es).0 == q
    ensures forall i :: 0 <= i < |PushAll(q, es).1| ==> PushAll(q, es).1[i] == -1
    ensures |PushAll(q, es).1| == |es|
    decreases |es|
  {
    if es != [] {
      PushAllClosed(q, es[1..]);
    }
  }

  /** `n` fetches from a pool holding at least `n` elements return its first
      `n` elements in order and leave exactly the rest. */
  lemma {:induction false} FetchNTakesPrefix<T>(q: Queue<T>, zero: T, n: nat)
    requires n <= |q.items|
    ensures FetchN(q, zero, n) == (q.(items := q.items[n..]), q.items[..n])
    decreases n
  {
    if n > 0 {
      var first := Fetch(q, zero);
      FetchNTakesPrefix(first.0, zero, n - 1);
      assert first.0.items[n - 1..] == q.items[n..];
      assert [q.items[0]] + first.0.items[..n - 1] == q.items[..n];
    }
  }

  /** FIFO: pushing e1..en into a fresh pool and then fetching n times yields
      e1..en, and leaves the pool as it was created. */
  lemma Fifo<T>(es: seq<T>, zero: T)
    ensures FetchN(PushAll(Init(), es).0, zero, |es|) == (Init(), es)
  {
    var full := PushAll(Init<T>(), es).0;
    PushAllAppends(Init<T>(), es);
    assert full == Queue(es, true) by {
      assert [] + es == es;
    }
    FetchNTakesPrefix(full, zero, |es|);
    assert es[|es|..] == [] && es[..|es|] == es;
  }

  /** Once closed, a pool stays closed and only drains: whatever it holds
      later is a suffix of what it held when closed. */
  lemma {:induction false} ClosedOnlyDrains<T>(q: Queue<T>, ops: seq<Op<T>>)
    requires !q.open
    ensures !Run(q, ops).open
    ensures |Run(q, ops).items| <= |q.items|
    ensures Run(q, ops).items == q.items[|q.items| - |Run(q, ops).items|..]
    decreases |ops|
  {
    if ops != [] {
      var next := Apply(q, ops[0]);
      assert next.items == q.items[|q.items| - |next.items|..];
      ClosedOnlyDrains(next, ops[1..]);
    }
  }

  /** Nothing reopens a pool: a run that contains a `close` ends closed. */
  lemma {:induction false} CloseIsFinal<T>(q: Queue<T>, ops: seq<Op<T>>)
    requires CloseOp in ops
    ensures !Run(q, ops).open
    decreases |ops|
  {
    if ops[0] == CloseOp {
      ClosedOnlyDrains(Close(q), ops[1..]);
    } else {
      assert CloseOp in ops[1..];
      CloseIsFinal(Apply(q, ops[0]), ops[1..]);
    }
  }

  /** A blocking fetch on an open, empty pool must wait; a close releases
      it, and it then returns `zero` (the value `T()`) and leaves the closed
      pool as it is. */
  lemma CloseReleasesFetch<T>(q: Queue<T>, zero: T, elem: T)
    requires q.open && q.items == []
    ensures !Enabled(q, FetchOp(true))
    ensures Enabled(Close(q), FetchOp(true))
    ensures Fetch(Close(q), zero) == (Close(q), zero)
    ensures FetchInto(Close(q), elem) == (Close(q), false, elem)
  {
  }

  /** A push that succeeds is never mistaken for the closed sentinel: as long
      as the new size fits in an `int`, it returns exactly that size. */
  lemma SuccessfulPushIsNotSentinel<T>(q: Queue<T>, elem: T)
    requires q.open && |q.items| < INT_MAX
    ensures PushBack(q, elem).1 == |q.items| + 1
    ensures PushBack(q, elem).1 != -1
  {
  }
}
