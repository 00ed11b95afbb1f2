/** The sequential state machine behind the bounded `AyncPool<std::shared_ptr<T>>`:
    each public operation taken as one atomic step on (items, open, max). A
    blocking wait becomes the predicate on the state in which its loop exits. */
module BoundedQueue {
  import opened Int32

  /** A `std::shared_ptr<E>` taken as an opaque value: the empty pointer
      `Type()`, or a pointer to an `E`. */
  datatype Handle<E> = Null | Shared(obj: E)

  /** The deque's contents, front first, the `m_open` flag and the bound `m_max`. */
  datatype Pool<E> = Pool(items: seq<Handle<E>>, open: bool, max: nat)

  /** The constructor's default bound. */
  const DEFAULT_MAX: nat := 10000

  /** The bound the constructor keeps for a requested one: a request of 0 is
      raised to 1, any other request is kept. */
  function InitialMax(requested: nat): (m: nat)
    ensures m >= 1
    ensures requested == 0 ==> m == 1
    ensures requested != 0 ==> m == requested
  {
    if requested == 0 then 1 else requested
  }

  /** A freshly constructed pool: empty, open, with the coerced bound. */
  function Init<E>(requested: nat): (p: Pool<E>)
    ensures p.items == [] && p.open
    ensures requested == 0 ==> p.max == 1
    ensures requested != 0 ==> p.max == requested
  {
    Pool([], true, InitialMax(requested))
  }

  /** The states in which the wait loops of `push_back` (single and batch)
      exit. They do not look at `m_open`. */
  predicate PushReady<E>(p: Pool<E>)
  {
    |p.items| < p.max
  }

  /** The states in which the wait loop of `emplace_back` exits. */
  predicate EmplaceReady<E>(p: Pool<E>)
  {
    |p.items| < p.max || !p.open
  }

  /** The states in which the wait loops of the blocking fetches exit. */
  predicate FetchReady<E>(p: Pool<E>)
  {
    |p.items| > 0 || !p.open
  }

  /** `push_back(Type const&)`, once its wait (entered only on an open pool)
      has exited. */
  function PushBack<E>(p: Pool<E>, elem: Handle<E>): (Pool<E>, int)
  {
    if p.open then (p.(items := p.items + [elem]), ToInt32(|p.items| + 1))
    else (p, -1)
  }

  /** `push_with_high_priority`: insert at the front, never waiting. */
  function PushWithHighPriority<E>(p: Pool<E>, elem: Handle<E>): (Pool<E>, int)
  {
    if p.open then (p.(items := [elem] + p.items), ToInt32(|p.items| + 1))
    else (p, -1)
  }

  /** `push_back(std::vector<Type> const&)`, once its wait has exited: the
      whole batch goes in at once. */
  function PushBackBatch<E>(p: Pool<E>, elems: seq<Handle<E>>): (Pool<E>, int)
  {
    if p.open then (p.(items := p.items + elems), ToInt32(|p.items| + |elems|))
    else (p, -1)
  }

  /** `emplace_back`, with `obj` the object built from its arguments: it
      appends a new handle to it whether or not the pool is open. */
  function EmplaceBack<E>(p: Pool<E>, obj: E): (Pool<E>, int)
  {
    (p.(items := p.items + [Shared(obj)]), ToInt32(|p.items| + 1))
  }

  /** The pool after a single fetch: its head removed, if it has one. */
  function PopFront<E>(p: Pool<E>): Pool<E>
  {
    if |p.items| > 0 then p.(items := p.items[1..]) else p
  }

  /** `fetch()` once its wait has ended, and `fetchNoWait()`: the head, or the
      empty handle when there is nothing to take. */
  function Fetch<E>(p: Pool<E>): (Pool<E>, Handle<E>)
  {
    (PopFront(p), if |p.items| > 0 then p.items[0] else Null)
  }

  /** `fetch(Type&)` once its wait has ended, and `fetchNoWait(Type&)`;
      `elem` is the out-parameter's value on entry. */
  function FetchInto<E>(p: Pool<E>, elem: Handle<E>): (Pool<E>, bool, Handle<E>)
  {
    (PopFront(p), |p.items| > 0, if |p.items| > 0 then p.items[0] else elem)
  }

  /** `fetch(size_t counts)` once its wait has ended: the first
      `min(counts, size)` elements, in order, leaving exactly the rest; a
      request for 0 takes nothing. */
  function FetchCount<E>(p: Pool<E>, counts: nat): (r: (Pool<E>, seq<Handle<E>>))
    ensures r.1 + r.0.items == p.items
    ensures |r.1| == if counts < |p.items| then counts else |p.items|
    ensures r.0.open == p.open && r.0.max == p.max
  {
    if |p.items| > 0 && counts > 0 then
      var c := if counts < |p.items| then counts else |p.items|;
      (p.(items := p.items[c..]), p.items[..c])
    else
      (p, [])
  }

  /** `close`: the pool is marked closed and keeps its backlog and its bound. */
  function Close<E>(p: Pool<E>): (r: Pool<E>)
    ensures !r.open && r.items == p.items && r.max == p.max
  {
    p.(open := false)
  }

  // ---------------------------------------------------------------------
  // Runs of operations

  /** One step of a run, as far as the pool's state is concerned. `FetchOp`
      stands for all single-element fetch forms; `wait` marks a blocking one. */
  datatype Op<E> =
    | PushOp(elem: Handle<E>)
    | PriorityOp(elem: Handle<E>)
    | BatchOp(elems: seq<Handle<E>>)
    | EmplaceOp(obj: E)
    | FetchOp(wait: bool)
    | FetchCountOp(counts: nat)
    | CloseOp

  /** An operation can complete in this state: a push on an open pool needs
      room, an emplace needs room or a closed pool, a blocking fetch needs an
      element or a closed pool. */
  predicate Enabled<E>(p: Pool<E>, op: Op<E>)
  {
    match op
    case PushOp(_) => p.open ==> PushReady(p)
    case BatchOp(_) => p.open ==> PushReady(p)
    case EmplaceOp(_) => EmplaceReady(p)
    case FetchOp(wait) => wait ==> FetchReady(p)
    case FetchCountOp(_) => FetchReady(p)
    case _ => true
  }

  function Apply<E>(p: Pool<E>, op: Op<E>): Pool<E>
  {
    match op
    case PushOp(e) => PushBack(p, e).0
    case PriorityOp(e) => PushWithHighPriority(p, e).0
    case BatchOp(es) => PushBackBatch(p, es).0
    case EmplaceOp(x) => EmplaceBack(p, x).0
    case FetchOp(_) => PopFront(p)
    case FetchCountOp(c) => FetchCount(p, c).0
    case CloseOp => Close(p)
  }

  function Run<E>(p: Pool<E>, ops: seq<Op<E>>): Pool<E>
    decreases |ops|
  {
    if ops == [] then p else Run(Apply(p, ops[0]), ops[1..])
  }

  predicate Admissible<E>(p: Pool<E>, ops: seq<Op<E>>)
    decreases |ops|
  {
    ops == [] || (Enabled(p, ops[0]) && Admissible(Apply(p, ops[0]), ops[1..]))
  }

  /** The steps that never take the size past `max` from within the bound:
      everything except a priority or batch push on an open pool and an
      emplace on a closed one. */
  predicate RespectsBound<E>(p: Pool<E>, op: Op<E>)
  {
    match op
    case PriorityOp(_) => !p.open
    case BatchOp(_) => !p.open
    case EmplaceOp(_) => p.open
    case _ => true
  }

  /** Every step of the run is enabled and respects the bound in the state it meets. */
  predicate BoundedRun<E>(p: Pool<E>, ops: seq<Op<E>>)
    decreases |ops|
  {
    ops == [] ||
    (Enabled(p, ops[0]) && RespectsBound(p, ops[0]) && BoundedRun(Apply(p, ops[0]), ops[1..]))
  }

  /** The ordinary pushes of `es`, one after another. */
  function PushOps<E>(es: seq<Handle<E>>): (ops: seq<Op<E>>)
    ensures |ops| == |es|
    ensures forall i :: 0 <= i < |es| ==> ops[i] == PushOp(es[i])
    decreases |es|
  {
    if es == [] then [] else [PushOp(es[0])] + PushOps(es[1..])
  }

  /** Fetches `n` times, collecting what each call returns. */
  function FetchN<E>(p: Pool<E>, n: nat): (Pool<E>, seq<Handle<E>>)
    decreases n
  {
    if n == 0 then (p, [])
    else
      var first := Fetch(p);
      var rest := FetchN(first.0, n - 1);
      (rest.0, [first.1] + rest.1)
  }

  // ---------------------------------------------------------------------
  // Properties

  /** Every step keeps `max`. */
  lemma {:induction false} RunKeepsMax<E>(p: Pool<E>, ops: seq<Op<E>>)
    ensures Run(p, ops).max == p.max
    decreases |ops|
  {
    if ops != [] {
      RunKeepsMax(Apply(p, ops[0]), ops[1..]);
    }
  }

  /** The bound invariant: a run of bound-respecting steps that starts within
      the bound never leaves it. */
  lemma {:induction false} BoundKept<E>(p: Pool<E>, ops: seq<Op<E>>)
    requires |p.items| <= p.max
    requires BoundedRun(p, ops)
    ensures |Run(p, ops).items| <= p.max
    decreases |ops|
  {
    if ops != [] {
      var next := Apply(p, ops[0]);
      assert next.max == p.max && |next.items| <= p.max;
      BoundKept(next, ops[1..]);
    }
  }

  /** A single enabled `push_back` keeps the bound, and actually needs room
      when the pool is open. */
  lemma PushBackKeepsBound<E>(p: Pool<E>, elem: Handle<E>)
    requires |p.items| <= p.max
    requires Enabled(p, PushOp(elem))
    ensures |PushBack(p, elem).0.items| <= p.max
  {
  }

  /** The three ways past the bound. On a full open pool an ordinary push
      must wait, while a priority push completes at once and reaches
      `max + 1`; once the pool is closed, an emplace completes and does the
      same. A batch push on a pool with room for only one more completes
      and goes past `max` by the batch's excess. */
  lemma Overshoots<E>(p: Pool<E>, h: Handle<E>, hs: seq<Handle<E>>, x: E)
    requires p.open && p.max >= 1 && |p.items| == p.max
    ensures !Enabled(p, PushOp(h))
    ensures Enabled(p, PriorityOp(h)) && |Apply(p, PriorityOp(h)).items| == p.max + 1
    ensures Enabled(Close(p), EmplaceOp(x)) && |Apply(Close(p), EmplaceOp(x)).items| == p.max + 1
    ensures var roomForOne := p.(items := p.items[1..]);
      Enabled(roomForOne, BatchOp(hs)) &&
      |Apply(roomForOne, BatchOp(hs)).items| == p.max - 1 + |hs|
  {
  }

  /** On a closed pool, push, priority push and batch push report -1 and
      change nothing; `emplace_back` still appends and reports the new size. */
  lemma ClosedRejectsPushes<E>(p: Pool<E>, h: Handle<E>, hs: seq<Handle<E>>, x: E)
    requires !p.open
    ensures PushBack(p, h) == (p, -1)
    ensures PushWithHighPriority(p, h) == (p, -1)
    ensures PushBackBatch(p, hs) == (p, -1)
    ensures EmplaceBack(p, x).0.items == p.items + [Shared(x)]
  {
  }

  /** Priority insertion: the element just inserted is the next one fetched,
      and fetching it gives back the pool as it was. */
  lemma PriorityIsFetchedFirst<E>(p: Pool<E>, elem: Handle<E>)
    requires p.open
    ensures Fetch(PushWithHighPriority(p, elem).0) == (p, elem)
  {
  }

  /** `n` single fetches from a pool holding at least `n` elements return its
      first `n` elements and leave the rest. */
  lemma {:induction false} FetchNTakesPrefix<E>(p: Pool<E>, n: nat)
    requires n <= |p.items|
    ensures FetchN(p, n) == (p.(items := p.items[n..]), p.items[..n])
    decreases n
  {
    if n > 0 {
      var first := Fetch(p);
      FetchNTakesPrefix(first.0, n - 1);
      assert first.0.items[n - 1..] == p.items[n..];
      assert [p.items[0]] + first.0.items[..n - 1] == p.items[..n];
    }
  }

  /** A batch fetch of `counts` is the same as that many single fetches, when
      the pool holds enough elements. */
  lemma FetchCountIsRepeatedFetch<E>(p: Pool<E>, counts: nat)
    requires counts <= |p.items|
    ensures FetchCount(p, counts) == FetchN(p, counts)
  {
    FetchNTakesPrefix(p, counts);
  }

  /** Pushing `es` ordinarily onto an open pool with room for all of them: each
      push is enabled, they are appended in order, and the pool stays open. */
  lemma {:induction false} PushesWithRoom<E>(p: Pool<E>, es: seq<Handle<E>>)
    requires p.open && |p.items| + |es| <= p.max
    ensures Admissible(p, PushOps(es))
    ensures Run(p, PushOps(es)) == p.(items := p.items + es)
    decreases |es|
  {
    if es != [] {
      var next := Apply(p, PushOp(es[0]));
      assert PushOps(es)[1..] == PushOps(es[1..]);
      PushesWithRoom(next, es[1..]);
      assert next.items + es[1..] == p.items + es;
    }
  }

  /** Backpressure: a fresh pool takes `max` ordinary pushes without waiting;
      the next one must wait; after one fetch it completes and the size is
      `max` again. */
  lemma Backpressure<E>(requested: nat, es: seq<Handle<E>>, x: Handle<E>)
    requires |es| == InitialMax(requested)
    ensures Admissible(Init(requested), PushOps(es))
    ensures var full := Run(Init(requested), PushOps(es));
      full.items == es &&
      !Enabled(full, PushOp(x)) &&
      Enabled(Fetch(full).0, PushOp(x)) &&
      PushBack(Fetch(full).0, x).0.items == es[1..] + [x]
  {
    var p := Init<E>(requested);
    PushesWithRoom(p, es);
    assert [] + es == es;
  }

  /** FIFO with a priority insertion: e1 and e2 pushed, then p1 pushed with
      priority; three fetches give p1, e1, e2. */
  lemma PriorityExample<E>(requested: nat, e1: Handle<E>, e2: Handle<E>, p1: Handle<E>)
    requires InitialMax(requested) >= 2
    ensures var p := Run(Init(requested), [PushOp(e1), PushOp(e2), PriorityOp(p1)]);
      Admissible(Init(requested), [PushOp(e1), PushOp(e2)]) &&
      FetchN(p, 3).1 == [p1, e1, e2]
  {
    var ops := [PushOp(e1), PushOp(e2), PriorityOp(p1)];
    var s0 := Init<E>(requested);
    var s1 := Apply(s0, ops[0]);
    var s2 := Apply(s1, ops[1]);
    var s3 := Apply(s2, ops[2]);
    assert Run(s0, ops) == s3 by {
      assert ops[1..] == [ops[1], ops[2]] && ops[1..][1..] == [ops[2]];
      assert Run(s2, [ops[2]]) == Run(s3, []);
      assert Run(s1, ops[1..]) == Run(s2, [ops[2]]);
    }
    assert s3.items == [p1, e1, e2];
    FetchNTakesPrefix(s3, 3);
  }

  /** FIFO: ordinary pushes of e1..en into a fresh pool whose bound admits
      them all, followed by n fetches, yield e1..en and leave the pool empty. */
  lemma Fifo<E>(requested: nat, es: seq<Handle<E>>)
    requires |es| <= InitialMax(requested)
    ensures Admissible(Init(requested), PushOps(es))
    ensures FetchN(Run(Init(requested), PushOps(es)), |es|) == (Init(requested), es)
  {
    var p := Init<E>(requested);
    PushesWithRoom(p, es);
    assert [] + es == es;
    FetchNTakesPrefix(Run(p, PushOps(es)), |es|);
    assert es[|es|..] == [] && es[..|es|] == es;
  }

  /** Priority pushes come out last in, first out: each one goes in front of
      the previous one, so p2 pushed after p1 is fetched before it. */
  lemma PriorityLifo<E>(p: Pool<E>, p1: Handle<E>, p2: Handle<E>)
    requires p.open
    ensures var q := PushWithHighPriority(PushWithHighPriority(p, p1).0, p2).0;
      q.items == [p2, p1] + p.items &&
      FetchN(q, 2) == (p, [p2, p1])
  {
    var q := PushWithHighPriority(PushWithHighPriority(p, p1).0, p2).0;
    assert q.items == [p2, p1] + p.items;
    FetchNTakesPrefix(q, 2);
    assert q.items[2..] == p.items;
  }

  /** A blocking fetch, single or batch, on an open empty pool must wait; a
      close releases it, and it then returns the empty handle, or an empty
      batch, and leaves the closed pool as it is. */
  lemma CloseReleasesFetch<E>(p: Pool<E>, counts: nat)
    requires p.open && p.items == []
    ensures !Enabled(p, FetchOp(true)) && !Enabled(p, FetchCountOp(counts))
    ensures Enabled(Close(p), FetchOp(true)) && Enabled(Close(p), FetchCountOp(counts))
    ensures Fetch(Close(p)) == (Close(p), Null)
    ensures FetchCount(Close(p), counts) == (Close(p), [])
  {
  }

  /** A closed pool stays closed, and without `emplace_back` it only drains:
      what it holds later is a suffix of what it held when closed. */
  lemma {:induction false} ClosedOnlyDrains<E>(p: Pool<E>, ops: seq<Op<E>>)
    requires !p.open
    requires forall i :: 0 <= i < |ops| ==> !ops[i].EmplaceOp?
    ensures !Run(p, ops).open
    ensures |Run(p, ops).items| <= |p.items|
    ensures Run(p, ops).items == p.items[|p.items| - |Run(p, ops).items|..]
    decreases |ops|
  {
    if ops != [] {
      var next := Apply(p, ops[0]);
      assert next.items == p.items[|p.items| - |next.items|..];
      ClosedOnlyDrains(next, ops[1..]);
    }
  }

  /** Nothing reopens a pool: a run that contains a `close` ends closed. */
  lemma {:induction false} CloseIsFinal<E>(p: Pool<E>, ops: seq<Op<E>>)
    requires CloseOp in ops
    ensures !Run(p, ops).open
    decreases |ops|
  {
    if ops[0] == CloseOp {
      StaysClosed(Close(p), ops[1..]);
    } else {
      assert CloseOp in ops[1..];
      CloseIsFinal(Apply(p, ops[0]), ops[1..]);
    }
  }

  /** No step sets `open` back to true. */
  lemma {:induction false} StaysClosed<E>(p: Pool<E>, ops: seq<Op<E>>)
    requires !p.open
    ensures !Run(p, ops).open
    decreases |ops|
  {
    if ops != [] {
      StaysClosed(Apply(p, ops[0]), ops[1..]);
    }
  }
}
