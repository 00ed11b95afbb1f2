/** The unbounded `AyncPool<T>` as an object: the deque is a `seq` field that
    each method reassigns, `m_open` a `bool` field. Each method is one atomic
    step; its contract gives the new state and the result both directly and as
    the matching step of `UnboundedQueue`, so the lemmas there apply to it. */
module UnboundedPool {
  import opened Int32
  import Q = UnboundedQueue

  class AsyncPool<T> {
    var items: seq<T>
    var open: bool
    /** The value `T()` that a fetch returns when there is nothing to take. */
    const zero: T

    /** The abstract state of the pool. */
    function Model(): Q.Queue<T>
      reads this
    {
      Q.Queue(items, open)
    }

    constructor (zero: T)
      ensures Model() == Q.Init()
      ensures items == [] && open && this.zero == zero
    {
      items := [];
      open := true;
      this.zero := zero;
    }

    /** `push_back`, both the copy and the move overload. */
    method PushBack(elem: T) returns (r: int)
      modifies this
      ensures (Model(), r) == Q.PushBack(old(Model()), elem)
      ensures old(open) ==> items == old(items) + [elem] && r == ToInt32(|items|)
      ensures !old(open) ==> items == old(items) && r == -1
      ensures open == old(open)
    {
      r := -1;
      if open {
        items := items + [elem];
        r := ToInt32(|items|);
      }
    }

    /** `emplace_back`, with `elem` the element built from its arguments: the
        same step as `PushBack`, including the -1 on a closed pool. */
    method EmplaceBack(elem: T) returns (r: int)
      modifies this
      ensures (Model(), r) == Q.PushBack(old(Model()), elem)
      ensures old(open) ==> items == old(items) + [elem] && r == ToInt32(|items|)
      ensures !old(open) ==> items == old(items) && r == -1
      ensures open == old(open)
    {
      r := PushBack(elem);
    }

    method Size() returns (n: nat)
      ensures n == |items|
    {
      n := |items|;
    }

    /** A closed pool reports empty whatever its backlog. */
    method Empty() returns (r: bool)
      ensures !open ==> r
      ensures open ==> (r <==> items == [])
    {
      r := if open then items == [] else true;
    }

    /** Non-blocking fetch: the head, or `zero` with no change. */
    method FetchNoWait() returns (r: T)
      modifies this
      ensures (Model(), r) == Q.Fetch(old(Model()), zero)
      ensures old(items) != [] ==> r == old(items)[0] && items == old(items)[1..]
      ensures old(items) == [] ==> r == zero && items == []
      ensures open == old(open)
    {
      if |items| > 0 {
        r := items[0];
        items := items[1..];
      } else {
        r := zero;
      }
    }

    /** Blocking fetch, taken at the moment its wait loop exits: there is an
        element, or the pool has been closed. */
    method Fetch() returns (r: T)
      requires items != [] || !open
      modifies this
      ensures (Model(), r) == Q.Fetch(old(Model()), zero)
      ensures old(items) != [] ==> r == old(items)[0] && items == old(items)[1..]
      ensures old(items) == [] ==> !open && r == zero && items == []
      ensures open == old(open)
    {
      r := FetchNoWait();
    }

    /** Non-blocking `fetchNoWait(T&)`: `elem` is the out-parameter's value on
        entry, `got` its value on return; it is left alone when `ok` is false. */
    method FetchNoWaitInto(elem: T) returns (ok: bool, got: T)
      modifies this
      ensures (Model(), ok, got) == Q.FetchInto(old(Model()), elem)
      ensures ok <==> old(items) != []
      ensures ok ==> got == old(items)[0] && items == old(items)[1..]
      ensures !ok ==> got == elem && items == old(items)
      ensures open == old(open)
    {
      if |items| > 0 {
        ok, got := true, items[0];
        items := items[1..];
      } else {
        ok, got := false, elem;
      }
    }

    /** Blocking `fetch(T&)`, taken when its wait loop exits; false only on a
        closed, drained pool. */
    method FetchInto(elem: T) returns (ok: bool, got: T)
      requires items != [] || !open
      modifies this
      ensures (Model(), ok, got) == Q.FetchInto(old(Model()), elem)
      ensures ok <==> old(items) != []
      ensures ok ==> got == old(items)[0] && items == old(items)[1..]
      ensures !ok ==> !open && got == elem && items == old(items)
      ensures open == old(open)
    {
      ok, got := FetchNoWaitInto(elem);
    }

    method Close()
      modifies this
      ensures Model() == Q.Close(old(Model()))
      ensures !open && items == old(items)
    {
      open := false;
    }

    method IsOpened() returns (r: bool)
      ensures r == open
    {
      r := open;
    }
  }

  /** A client run: e1..en pushed into a fresh pool, then n blocking fetches,
      give back e1..en in order. */
  method FifoClient<T>(es: seq<T>, zero: T) returns (got: seq<T>)
    ensures got == es
  {
    var pool := new AsyncPool<T>(zero);
    var i := 0;
    while i < |es|
      invariant 0 <= i <= |es|
      invariant pool.items == es[..i] && pool.open
    {
      var n := pool.PushBack(es[i]);
      assert es[..i + 1] == es[..i] + [es[i]];
      i := i + 1;
    }
    got := [];
    while |got| < |es|
      invariant |got| <= |es|
      invariant got == es[..|got|] && pool.items == es[|got|..] && pool.open
    {
      var e := pool.Fetch();
      got := got + [e];
    }
  }
}
