/** The bounded `AyncPool<std::shared_ptr<T>>` as an object: the deque is a
    `seq` field that each method reassigns, `m_open` a `bool` field and `m_max`
    a `nat` field. Each method is one atomic step; a blocking wait is the
    `requires` on the state in which its loop exits. Each contract gives the
    new state and the result directly and as the matching step of
    `BoundedQueue`, so the lemmas there apply to it. */
module BoundedPool {
  import opened Int32
  import Q = BoundedQueue

  class AsyncPool<E> {
    var items: seq<Q.Handle<E>>
    var open: bool
    var max: nat

    /** The constructor's coercion makes the bound at least 1. */
    ghost predicate Valid()
      reads this
    {
      max >= 1
    }

    /** The abstract state of the pool. */
    function Model(): Q.Pool<E>
      reads this
    {
      Q.Pool(items, open, max)
    }

    constructor (requested: nat := Q.DEFAULT_MAX)
      ensures Valid() && Model() == Q.Init(requested)
      ensures items == [] && open
      ensures max == if requested == 0 then 1 else requested
    {
      items := [];
      open := true;
      max := if requested == 0 then 1 else requested;
    }

    /** `push_back(Type const&)`. On an open pool it completes once there is
        room, so a pool within its bound stays within it. */
    method PushBack(elem: Q.Handle<E>) returns (r: int)
      requires Valid()
      requires open ==> |items| < max
      modifies this
      ensures Valid()
      ensures (Model(), r) == Q.PushBack(old(Model()), elem)
      ensures old(open) ==> items == old(items) + [elem] && r == ToInt32(|items|)
      ensures !old(open) ==> items == old(items) && r == -1
      ensures open == old(open) && max == old(max)
      ensures old(|items|) <= max ==> |items| <= max
    {
      r := -1;
      if open {
        items := items + [elem];
        r := ToInt32(|items|);
      }
    }

    /** `push_with_high_priority`: front insertion, never waiting, so it may
        take the size past `max`. */
    method PushWithHighPriority(elem: Q.Handle<E>) returns (r: int)
      requires Valid()
      modifies this
      ensures Valid()
      ensures (Model(), r) == Q.PushWithHighPriority(old(Model()), elem)
      ensures old(open) ==> items == [elem] + old(items) && r == ToInt32(|items|)
      ensures !old(open) ==> items == old(items) && r == -1
      ensures open == old(open) && max == old(max)
    {
      r := -1;
      if open {
        items := [elem] + items;
        r := ToInt32(|items|);
      }
    }

    /** `push_back(std::vector<Type> const&)`: waits only for some room, then
        appends the whole batch in order, so it may take the size past `max`. */
    method PushBackBatch(elems: seq<Q.Handle<E>>) returns (r: int)
      requires Valid()
      requires open ==> |items| < max
      modifies this
      ensures Valid()
      ensures (Model(), r) == Q.PushBackBatch(old(Model()), elems)
      ensures old(open) ==> items == old(items) + elems && r == ToInt32(|items|)
      ensures !old(open) ==> items == old(items) && r == -1
      ensures open == old(open) && max == old(max)
    {
      r := -1;
      if open {
        items := items + elems;
        r := ToInt32(|items|);
      }
    }

    /** `emplace_back`, with `obj` the object built from its arguments. There
        is no check of `m_open` on entry: it appends a new handle and reports
        the new size even on a closed pool, never -1 for a size that fits. */
    method EmplaceBack(obj: E) returns (r: int)
      requires Valid()
      requires |items| < max || !open
      modifies this
      ensures Valid()
      ensures (Model(), r) == Q.EmplaceBack(old(Model()), obj)
      ensures items == old(items) + [Q.Shared(obj)] && r == ToInt32(|items|)
      ensures open == old(open) && max == old(max)
      ensures old(open) && old(|items|) <= max ==> |items| <= max
    {
      items := items + [Q.Shared(obj)];
      r := ToInt32(|items|);
    }

    /** A closed pool reports empty whatever its backlog. */
    method Empty() returns (r: bool)
      ensures !open ==> r
      ensures open ==> (r <==> items == [])
    {
      r := if open then items == [] else true;
    }

    method Size() returns (n: nat)
      ensures n == |items|
    {
      n := |items|;
    }

    /** `fetchNoWait()`: the head, or the empty handle with no change. */
    method FetchNoWait() returns (r: Q.Handle<E>)
      requires Valid()
      modifies this
      ensures Valid()
      ensures (Model(), r) == Q.Fetch(old(Model()))
      ensures old(items) != [] ==> r == old(items)[0] && items == old(items)[1..]
      ensures old(items) == [] ==> r == Q.Null && items == []
      ensures open == old(open) && max == old(max)
    {
      if |items| > 0 {
        r := items[0];
        items := items[1..];
      } else {
        r := Q.Null;
      }
    }

    /** Blocking `fetch()`, taken when its wait loop exits: there is an
        element, or the pool has been closed. */
    method Fetch() returns (r: Q.Handle<E>)
      requires Valid()
      requires items != [] || !open
      modifies this
      ensures Valid()
      ensures (Model(), r) == Q.Fetch(old(Model()))
      ensures old(items) != [] ==> r == old(items)[0] && items == old(items)[1..]
      ensures old(items) == [] ==> !open && r == Q.Null && items == []
      ensures open == old(open) && max == old(max)
    {
      r := FetchNoWait();
    }

    /** Blocking `fetch(size_t counts)`: waits for at least one element (or a
        close), then takes the first `min(counts, size)` elements in order. */
    method FetchCount(counts: nat) returns (batch: seq<Q.Handle<E>>)
      requires Valid()
      requires items != [] || !open
      modifies this
      ensures Valid()
      ensures (Model(), batch) == Q.FetchCount(old(Model()), counts)
      ensures |batch| == if counts < |old(items)| then counts else |old(items)|
      ensures batch == old(items)[..|batch|] && items == old(items)[|batch|..]
      ensures open == old(open) && max == old(max)
    {
      batch := [];
      if |items| > 0 && counts > 0 {
        var c := if counts < |items| then counts else |items|;
        batch := items[..c];
        items := items[c..];
      }
    }

    /** `fetchNoWait(Type&)`: `elem` is the out-parameter's value on entry,
        `got` its value on return; it is left alone when `ok` is false. */
    method FetchNoWaitInto(elem: Q.Handle<E>) returns (ok: bool, got: Q.Handle<E>)
      requires Valid()
      modifies this
      ensures Valid()
      ensures (Model(), ok, got) == Q.FetchInto(old(Model()), elem)
      ensures ok <==> old(items) != []
      ensures ok ==> got == old(items)[0] && items == old(items)[1..]
      ensures !ok ==> got == elem && items == old(items)
      ensures open == old(open) && max == old(max)
    {
      if |items| > 0 {
        ok, got := true, items[0];
        items := items[1..];
      } else {
        ok, got := false, elem;
      }
    }

    /** Blocking `fetch(Type&)`, taken when its wait loop exits; false only on
        a closed, drained pool. */
    method FetchInto(elem: Q.Handle<E>) returns (ok: bool, got: Q.Handle<E>)
      requires Valid()
      requires items != [] || !open
      modifies this
      ensures Valid()
      ensures (Model(), ok, got) == Q.FetchInto(old(Model()), elem)
      ensures ok <==> old(items) != []
      ensures ok ==> got == old(items)[0] && items == old(items)[1..]
      ensures !ok ==> !open && got == elem && items == old(items)
      ensures open == old(open) && max == old(max)
    {
      ok, got := FetchNoWaitInto(elem);
    }

    method Close()
      requires Valid()
      modifies this
      ensures Valid()
      ensures Model() == Q.Close(old(Model()))
      ensures !open && items == old(items) && max == old(max)
    {
      open := false;
    }

    method IsOpened() returns (r: bool)
      ensures r == open
    {
      r := open;
    }
  }

  /** A client run of the bounded pool with bound 2: e1 and e2 pushed, then p1
      pushed with priority past the bound; three fetches give p1, e1, e2. */
  method PriorityClient<E>(e1: Q.Handle<E>, e2: Q.Handle<E>, p1: Q.Handle<E>)
    returns (got: seq<Q.Handle<E>>)
    ensures got == [p1, e1, e2]
  {
    var pool := new AsyncPool<E>(2);
    var n := pool.PushBack(e1);
    n := pool.PushBack(e2);
    n := pool.PushWithHighPriority(p1);
    assert n == 3;
    var a := pool.Fetch();
    var b := pool.Fetch();
    var c := pool.Fetch();
    got := [a, b, c];
  }
}
