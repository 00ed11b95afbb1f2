# Verified model of `AyncPool` (pool.h)

This project models the two producer–consumer pools in `pool.h`. Both are a
deque guarded by one mutex, with an `open` flag:

- `AyncPool<T>` is unbounded. It appends at the tail, pops the head with or
  without waiting, and is closed once and for all by `close()`.
- `AyncPool<std::shared_ptr<T>>` adds a bound `m_max`, raised to 1 when 0 is
  requested (default 10000). It also adds front insertion
  (`push_with_high_priority`), batch append, and batch fetch of
  `min(counts, size)` elements.

The mutex and condition variables only serialise the operations. Behind them is
a sequential state machine on (items, open, max). The model has two layers per
pool:

- `UnboundedQueue` and `BoundedQueue` hold the state as a datatype. Each public
  operation is one function from the old state to the new state and its result.
  Runs of operations (`Op`, `Apply`, `Run`, `Admissible`) carry the lemmas that
  relate several calls: FIFO order, the bound invariant, close being final,
  close releasing a waiting fetch, batch fetch versus single fetches, and
  backpressure.
- `UnboundedPool.AsyncPool` and `BoundedPool.AsyncPool` are classes. Their
  fields are `items: seq<…>`, `open: bool` and (bounded) `max: nat`. Every
  state-changing method is a `modifies this` method. It states the new state
  and the result directly, and also as the matching function of the datatype
  layer. `Size`, `Empty` and `IsOpened` only read the fields.

A blocking wait loop becomes a `requires` on the state in which the loop exits:

- the bounded `push_back` (single and batch) on an open pool needs
  `|items| < max`;
- the bounded `emplace_back` needs `|items| < max || !open`;
- every blocking fetch needs `items != [] || !open`.

Decisions the model makes explicit:

- `counts = m_pool.size()` stores a `size_t` into an `int`. `Int32.ToInt32`
  writes out that 32-bit two's-complement conversion. A returned size equals
  the real size whenever that size is at most 2^31 - 1.
- `T()` for the unbounded pool is the constructor argument `zero`, because
  Dafny has no default constructor. A `shared_ptr` is the value
  `Handle<E> = Null | Shared(obj)`, and `Type()` is `Null`.
- `fetch(T&)` and `fetchNoWait(T&)` take the out-parameter's entry value and
  return its exit value. A failed fetch leaves that value as it was.
- The bounded `emplace_back` does not check `m_open` on entry. It appends and
  reports the new size even on a closed pool
  (`BoundedQueue.ClosedRejectsPushes`).
- Priority push and batch push can take the size past `max`
  (`BoundedQueue.Overshoots`). So can an emplace on a closed pool.
- Priority pushes come out last in, first out among themselves, because each
  one goes to the front (`BoundedQueue.PriorityLifo`).
- `fetch(0)` removes nothing.

Two behaviours of the code that callers may not expect:

- The bounded `push_back` wait loops (pool.h:151, pool.h:180) do not re-check
  `m_open`. Closing the pool does not release a waiting push; only a fetch
  does. The model does not capture this (see "## Left out").
- The bounded `emplace_back` is not rejected on a closed pool. The model keeps
  this exactly.

## Model

| member | source | states |
|---|---|---|
| `Int32.ToInt32` | pool.h:147-157 | the `int` result of a stored size lies in the 32-bit range, equals the size whenever it fits, and agrees with it modulo 2^32 |
| `UnboundedQueue.Close` | pool.h:114-118 | close leaves the pool closed with its backlog unchanged |
| `UnboundedQueue.PushAllAppends` | pool.h:19-39 | on an open pool, successive pushes append in order, and the i-th push returns the size it reached |
| `UnboundedQueue.PushAllClosed` | pool.h:19-52 | on a closed pool every push and emplace returns -1 and changes nothing |
| `UnboundedQueue.FetchNTakesPrefix` | pool.h:79-87 | n fetches from a pool holding at least n elements return its first n elements in order and leave exactly the suffix |
| `UnboundedQueue.Fifo` | pool.h:19-87 | pushing e1..en into a fresh pool and fetching n times yields e1..en and leaves a fresh pool |
| `UnboundedQueue.ClosedOnlyDrains` | pool.h:19-118 | after close, every run keeps the pool closed, and what it holds is always a suffix of the backlog at close time |
| `UnboundedQueue.CloseIsFinal` | pool.h:114-118 | any run that contains a close ends closed: nothing reopens the pool |
| `UnboundedQueue.CloseReleasesFetch` | pool.h:64-118 | a blocking fetch on an open empty pool must wait; after close it completes, returning `T()` (or false with the out-parameter untouched) and changing nothing |
| `UnboundedQueue.SuccessfulPushIsNotSentinel` | pool.h:19-28 | a push on an open pool whose new size fits in an `int` returns exactly that size, never -1 |
| `UnboundedPool.AsyncPool.constructor` | pool.h:16 | a new pool is empty and open |
| `UnboundedPool.AsyncPool.PushBack` | pool.h:19-39 | open: appends at the tail and returns the new size; closed: returns -1 and leaves the pool unchanged |
| `UnboundedPool.AsyncPool.EmplaceBack` | pool.h:41-52 | the same as push: appends the built element when open, returns -1 and drops it when closed |
| `UnboundedPool.AsyncPool.Size` | pool.h:54-57 | returns the number of queued elements |
| `UnboundedPool.AsyncPool.Empty` | pool.h:59-62 | true whenever the pool is closed, whatever the backlog; on an open pool, whether it has no elements |
| `UnboundedPool.AsyncPool.FetchNoWait` | pool.h:79-87 | removes and returns the head; on an empty pool returns `T()` and changes nothing |
| `UnboundedPool.AsyncPool.Fetch` | pool.h:64-77 | once an element exists or the pool is closed: removes and returns the head, or returns `T()` from a closed, drained pool |
| `UnboundedPool.AsyncPool.FetchNoWaitInto` | pool.h:104-112 | returns true and the head, removing it, iff the pool is non-empty; otherwise false with the out-parameter and the pool untouched |
| `UnboundedPool.AsyncPool.FetchInto` | pool.h:89-102 | as the non-blocking form, after the wait; false only on a closed, drained pool |
| `UnboundedPool.AsyncPool.Close` | pool.h:114-118 | sets the pool closed and keeps every queued element |
| `UnboundedPool.AsyncPool.IsOpened` | pool.h:120-122 | returns the open flag |
| `UnboundedPool.FifoClient` | pool.h:19-77 | a client that pushes e1..en into a fresh pool and then fetches n times gets e1..en |
| `BoundedQueue.InitialMax` | pool.h:144 | the bound is 1 for a request of 0 and the request itself otherwise |
| `BoundedQueue.Init` | pool.h:144 | a new bounded pool is empty and open, with bound 1 for a request of 0 and the request itself otherwise |
| `BoundedQueue.FetchCount` | pool.h:251-271 | the batch and the remaining elements concatenate to the old contents; the batch holds min(counts, size) elements, so none when counts is 0; open and max are unchanged |
| `BoundedQueue.Close` | pool.h:303-308 | close leaves the pool closed with its backlog and bound unchanged |
| `BoundedQueue.RunKeepsMax` | pool.h:144-308 | no operation changes the bound |
| `BoundedQueue.BoundKept` | pool.h:147-207 | a run of enabled steps, none of them a priority or batch push on an open pool or an emplace on a closed one, keeps the size within max |
| `BoundedQueue.PushBackKeepsBound` | pool.h:147-162 | a single push_back that can complete keeps a pool within its bound |
| `BoundedQueue.Overshoots` | pool.h:147-207 | on any full open pool an ordinary push must wait, while a priority push completes and reaches max + 1, and so does an emplace after close; with room for one, a batch push completes and goes past max by its excess |
| `BoundedQueue.ClosedRejectsPushes` | pool.h:147-207 | on a closed pool, push_back, priority push and batch push return -1 and change nothing, while emplace_back still appends |
| `BoundedQueue.PriorityIsFetchedFirst` | pool.h:164-174 | after a priority push on an open pool, the next fetch returns that element and restores the previous contents |
| `BoundedQueue.FetchNTakesPrefix` | pool.h:240-249 | n single fetches from a pool holding at least n elements return its first n elements and leave the suffix |
| `BoundedQueue.FetchCountIsRepeatedFetch` | pool.h:251-271 | a batch fetch of counts <= size gives the same batch and state as counts single fetches |
| `BoundedQueue.PushesWithRoom` | pool.h:147-162 | with room for all of them, ordinary pushes never wait and append in order |
| `BoundedQueue.Backpressure` | pool.h:147-249 | a fresh pool takes max pushes without waiting; the next push must wait; after one fetch it completes and the size is max again |
| `BoundedQueue.PriorityExample` | pool.h:147-174 | pushing e1 and e2, then p1 with priority, and fetching three times yields p1, e1, e2 |
| `BoundedQueue.Fifo` | pool.h:147-249 | ordinary pushes of e1..en into a fresh pool whose bound admits them all, then n fetches, yield e1..en and leave a fresh pool |
| `BoundedQueue.PriorityLifo` | pool.h:164-174 | two priority pushes p1 then p2 put p2 before p1 at the front; two fetches return p2, p1 and restore the previous contents |
| `BoundedQueue.CloseReleasesFetch` | pool.h:221-308 | a blocking single or batch fetch on an open empty pool must wait; after close both complete, returning the empty handle or an empty batch and changing nothing |
| `BoundedQueue.ClosedOnlyDrains` | pool.h:147-308 | after close, a run without emplace keeps the pool closed, and what it holds is always a suffix of the backlog at close time |
| `BoundedQueue.CloseIsFinal` | pool.h:303-308 | any run that contains a close ends closed |
| `BoundedQueue.StaysClosed` | pool.h:303-308 | no operation sets the open flag back to true |
| `BoundedPool.AsyncPool.constructor` | pool.h:144 | a new pool is empty and open, with max equal to the request, or 1 if the request is 0; the request defaults to 10000 |
| `BoundedPool.AsyncPool.PushBack` | pool.h:147-162 | open: completes only with room, appends at the tail, returns the new size and keeps size <= max; closed: returns -1 and changes nothing |
| `BoundedPool.AsyncPool.PushWithHighPriority` | pool.h:164-174 | open: inserts at the front without waiting and returns the new size; closed: returns -1 and changes nothing |
| `BoundedPool.AsyncPool.PushBackBatch` | pool.h:176-191 | open: once any room exists, appends the whole batch in order and returns the new size; closed: returns -1 and changes nothing |
| `BoundedPool.AsyncPool.EmplaceBack` | pool.h:193-208 | once there is room or the pool is closed, appends a new handle and returns the new size, with no open check |
| `BoundedPool.AsyncPool.Empty` | pool.h:211-214 | true whenever the pool is closed; on an open pool, whether it has no elements |
| `BoundedPool.AsyncPool.Size` | pool.h:216-219 | returns the number of queued elements |
| `BoundedPool.AsyncPool.Fetch` | pool.h:221-238 | once an element exists or the pool is closed: removes and returns the head, or the empty handle from a closed, drained pool |
| `BoundedPool.AsyncPool.FetchNoWait` | pool.h:240-249 | removes and returns the head; on an empty pool returns the empty handle and changes nothing |
| `BoundedPool.AsyncPool.FetchCount` | pool.h:251-271 | after the wait, returns the first min(counts, size) elements in order and leaves exactly the remaining suffix |
| `BoundedPool.AsyncPool.FetchInto` | pool.h:273-290 | true with the head, removing it, iff the pool is non-empty; false only on a closed, drained pool, with the out-parameter untouched |
| `BoundedPool.AsyncPool.FetchNoWaitInto` | pool.h:292-301 | true with the head, removing it, iff the pool is non-empty; otherwise false with the out-parameter and the pool untouched |
| `BoundedPool.AsyncPool.Close` | pool.h:303-308 | sets the pool closed and keeps its elements and bound |
| `BoundedPool.AsyncPool.IsOpened` | pool.h:314-316 | returns the open flag |
| `BoundedPool.PriorityClient` | pool.h:147-238 | a client on a pool of bound 2 that pushes e1 and e2, then p1 with priority, and fetches three times gets p1, e1, e2 |

## Left out

- The mutex, both condition variables and every `notify_*`/`wait` call. They only serialise the steps; each blocking loop is the `requires` on its exit state.
- Interleavings inside one call. Every push reads `m_open` before taking the lock (pool.h:21, pool.h:149). A close that lands between that read and the append still lets the element in; the model takes each call as atomic at its entry.
- A bounded producer blocked at close time (pool.h:151, pool.h:180). Its wait loop does not re-check `m_open`, so it stays blocked after close, and it appends to the closed pool once a fetch makes room. In the model a push is one step at entry: on a closed pool it is always enabled and returns -1, so a producer that entered before the close and finishes after it cannot be represented.
- Which waiting thread a notification wakes, and any fairness among waiters. This cannot be expressed without threads.
- The `m_waiting_fetch` counter and `waitingFetchThreads()`. The counter only counts threads parked in a fetch wait, and each completed call leaves it unchanged.
- The destructors' implicit `close()` (pool.h:17, pool.h:145). Destruction is outside the model.
- `volatile`, `shared_ptr` reference counting and pointer identity. A handle is an opaque value, so two handles to equal objects are not told apart.
- `std::make_shared` inside `emplace_back`. The model appends `Shared(obj)` for the object the arguments build. The unbounded `emplace_back` takes the built element.
- The compile-time return-type constraint `traits_emplace_back_return_type` (pool.h:11-12, pool.h:137-138).
- The copy and move overloads of the unbounded `push_back`. They have the same effect, so `UnboundedPool.AsyncPool.PushBack` stands for both.
- `size()` is a `size_t`. The model returns the length as a `nat` and assumes it never reaches 2^64.
- runner.h (`ThreadRunner`). It is a thread wrapper whose behaviour is concurrency alone, so it is not part of this model.
