/** `LiminitedConcurrentQueue<T>`: a FIFO queue that, once it holds `limit`
    items, drops the oldest one before appending a new one. */
module BoundedQueue {
  import opened Numerics

  /** The limit a queue gets when none is given. */
  const DEFAULT_LIMIT: int32 := 100

  /** The most items a queue with this limit ever holds. `Enqueue` always
      appends, so a limit of zero or below still leaves room for one item. */
  function Capacity(limit: int32): (r: nat)
  {
    if limit < 1 then 1 else limit as nat
  }

  /** The last `n` items of `s`, in their order in `s` (all of `s` if it is
      shorter). */
  function Last<T>(s: seq<T>, n: nat): (r: seq<T>)
  {
    if |s| <= n then s else s[|s| - n..]
  }

  /** The queue's contents after `Enqueue(x)`: when the count has reached
      the limit, one `TryDequeue` takes the head (and does nothing on an
      empty queue); then `x` is appended at the tail. */
  function Enqueued<T>(s: seq<T>, limit: int32, x: T): (r: seq<T>)
  {
    var kept := if |s| >= limit as int && |s| > 0 then s[1..] else s;
    kept + [x]
  }

  /** The queue's contents after enqueueing every item of `xs`, left to right. */
  function EnqueuedAll<T>(s: seq<T>, limit: int32, xs: seq<T>): (r: seq<T>)
    decreases |xs|
  {
    if xs == [] then s else EnqueuedAll(Enqueued(s, limit, xs[0]), limit, xs[1..])
  }

  /** On a queue within its capacity, one enqueue keeps exactly the last
      `Capacity(limit)` items of the old contents followed by `x`: the new item
      is at the tail, at most the single oldest item is evicted, and the
      survivors keep their order. */
  lemma EnqueueKeepsLast<T>(s: seq<T>, limit: int32, x: T)
    requires |s| <= Capacity(limit)
    ensures Enqueued(s, limit, x) == Last(s + [x], Capacity(limit))
    ensures |Enqueued(s, limit, x)| <= Capacity(limit)
  {
    var n := Capacity(limit);
    if |s| >= limit as int && |s| > 0 {
      assert |s| == n;
      assert (s + [x])[|s + [x]| - n..] == s[1..] + [x];
    } else {
      assert |s + [x]| <= n;
    }
  }

  /** Taking the last `n` items twice loses nothing more than taking them once. */
  lemma LastOfLast<T>(a: seq<T>, b: seq<T>, n: nat)
    ensures Last(Last(a, n) + b, n) == Last(a + b, n)
  {
    if |a| > n {
      var c := a[|a| - n..];
      assert a + b == a[..|a| - n] + (c + b);
      if |c + b| > n {
        assert (a + b)[|a + b| - n..] == (c + b)[|c + b| - n..];
      }
    }
  }

  /** After any run of enqueues on a queue within its capacity, the queue
      holds the last `Capacity(limit)` of all items ever enqueued, oldest
      first. */
  lemma {:induction false} EnqueueAllKeepsLast<T>(s: seq<T>, limit: int32, xs: seq<T>)
    requires |s| <= Capacity(limit)
    ensures EnqueuedAll(s, limit, xs) == Last(s + xs, Capacity(limit))
    decreases |xs|
  {
    var n := Capacity(limit);
    if xs != [] {
      var t := Enqueued(s, limit, xs[0]);
      EnqueueKeepsLast(s, limit, xs[0]);
      EnqueueAllKeepsLast(t, limit, xs[1..]);
      LastOfLast(s + [xs[0]], xs[1..], n);
      assert s + [xs[0]] + xs[1..] == s + xs;
    } else {
      assert s + xs == s;
    }
  }

  /** Starting from an empty queue, `n` enqueues leave the last
      `min(n, Capacity(limit))` items in insertion order. */
  lemma FromEmptyKeepsLast<T>(limit: int32, xs: seq<T>)
    ensures var r := EnqueuedAll([], limit, xs);
      |r| == (if |xs| <= Capacity(limit) then |xs| else Capacity(limit)) &&
      forall i :: 0 <= i < |r| ==> r[i] == xs[|xs| - |r| + i]
  {
    EnqueueAllKeepsLast([], limit, xs);
    assert [] + xs == xs;
  }

  /** The queue object: `items` is the queue's contents, head first. */
  class LimitedConcurrentQueue<T> {
    const limit: int32
    var items: seq<T>

    ghost predicate Valid()
      reads this
    {
      |items| <= Capacity(limit)
    }

    constructor (limit: int32 := DEFAULT_LIMIT)
      ensures Valid()
      ensures this.limit == limit && items == []
    {
      this.limit := limit;
      items := [];
    }

    /** The number of items currently queued. */
    function Count(): (n: nat)
      reads this
      requires Valid()
      ensures n <= Capacity(limit)
    {
      |items|
    }

    method Enqueue(x: T)
      requires Valid()
      modifies this
      ensures Valid()
      ensures items == Enqueued(old(items), limit, x)
      ensures items == Last(old(items) + [x], Capacity(limit))
    {
      if Count() >= limit as int {
        if |items| > 0 {
          items := items[1..];
        }
      }
      items := items + [x];
      EnqueueKeepsLast(old(items), limit, x);
    }
  }
}
