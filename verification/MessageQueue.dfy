/**
  The per-service ring queue and the global list of runnable queues (skynet_mq.c).

  `Mq` is what a queue is once its ring is forgotten; the functions on it are the
  lock-protected sections that the scheduler's state machine is built from. The two classes
  are the ring and the linked list themselves; every method is proved against those functions.
*/
module MessageQueues {
  import opened Common

  const DEFAULT_QUEUE_SIZE := 64
  const MQ_OVERLOAD := 1024

  datatype Mq<T> = Mq(handle: int, pending: seq<T>, inGlobal: bool, release: bool)

  /** A queue is born marked as being in the global list, so that no sender publishes it early. */
  function Created<T>(handle: int): Mq<T> {
    Mq(handle, [], true, false)
  }

  /** The queue after `skynet_mq_push`, and whether the section also puts it in the global list. */
  function Pushed<T>(q: Mq<T>, m: T): (Mq<T>, bool) {
    (q.(pending := q.pending + [m], inGlobal := true), !q.inGlobal)
  }

  /** The queue after `skynet_mq_pop`, and the message popped. An empty pop gives up the wake-up flag. */
  function Popped<T>(q: Mq<T>): (Mq<T>, Option<T>) {
    if q.pending == [] then (q.(inGlobal := false), None)
    else (q.(pending := q.pending[1..]), Some(q.pending[0]))
  }

  /** The queue after `skynet_mq_mark_release`, and whether the section also puts it in the global list. */
  function Marked<T>(q: Mq<T>): (Mq<T>, bool) {
    (q.(release := true), !q.inGlobal)
  }

  /** What a ring of words holds, read from `head` up to but not including `tail`. */
  function Ring<T>(a: seq<T>, head: nat, tail: nat): (s: seq<T>)
    requires head < |a| && tail < |a|
    ensures |s| == if head <= tail then tail - head else tail + |a| - head
    ensures forall k :: 0 <= k < |s| ==> s[k] == a[if head + k < |a| then head + k else head + k - |a|]
  {
    if head <= tail then a[head..tail] else a[head..] + a[..tail]
  }

  lemma DoubleAgain(n: int, k: nat)
    ensures n * Pow(2, k) * 2 == n * Pow(2, k + 1)
  {
  }

  lemma RingPop<T>(a: seq<T>, head: nat, tail: nat)
    requires head < |a| && tail < |a| && head != tail
    ensures Ring(a, head, tail) == [a[head]] + Ring(a, if head + 1 < |a| then head + 1 else 0, tail)
  {
  }

  /** Storing at `tail` appends, unless that makes the ring full: then all of it, from `head`, is the queue. */
  lemma RingPush<T>(a: seq<T>, head: nat, tail: nat, m: T)
    requires head < |a| && tail < |a|
    ensures var a', tail' := a[tail := m], if tail + 1 < |a| then tail + 1 else 0;
            Ring(a, head, tail) + [m] == if head == tail' then a'[head..] + a'[..head] else Ring(a', head, tail')
  {
    var a', tail' := a[tail := m], if tail + 1 < |a| then tail + 1 else 0;
    var s, s' := Ring(a, head, tail) + [m], if head == tail' then a'[head..] + a'[..head] else Ring(a', head, tail');
    assert |s| == |s'|;
    forall k | 0 <= k < |s| ensures s[k] == s'[k] {
    }
  }

  lemma WrapIndex(head: nat, i: nat, n: nat)
    requires head < n && i < n
    ensures (head + i) % n == if head + i < n then head + i else head + i - n
  {
    if head + i >= n {
      assert head + i == n + (head + i - n);
    }
  }

  class MessageQueue<T(0)> {
    const handle: int
    var cap: nat
    var head: nat
    var tail: nat
    var release: bool
    var inGlobal: bool
    var overload: nat
    var overloadThreshold: nat
    var queue: array<T>
    var next: MessageQueue?<T>

    ghost predicate Valid()
      reads this
    {
      && queue.Length == cap
      && head < cap && tail < cap
      && overloadThreshold > 0
    }

    ghost function Pending(): (s: seq<T>)
      requires Valid()
      reads this, queue
      ensures |s| == if head <= tail then tail - head else tail + cap - head
    {
      Ring(queue[..], head, tail)
    }

    ghost function Abs(): (q: Mq<T>)
      requires Valid()
      reads this, queue
    {
      Mq(handle, Pending(), inGlobal, release)
    }

    constructor (h: int)
      ensures Valid() && fresh(queue)
      ensures Abs() == Created(h)
      ensures next == null && cap == DEFAULT_QUEUE_SIZE && overload == 0 && overloadThreshold == MQ_OVERLOAD
    {
      handle := h;
      cap, head, tail := DEFAULT_QUEUE_SIZE, 0, 0;
      inGlobal, release := true, false;
      overload, overloadThreshold := 0, MQ_OVERLOAD;
      queue := new T[DEFAULT_QUEUE_SIZE];
      next := null;
    }

    method Length() returns (n: nat)
      requires Valid()
      ensures n == |Pending()|
    {
      if head <= tail {
        return tail - head;
      }
      return tail + cap - head;
    }

    /** Reads the overload mark once and clears it. */
    method Overload() returns (n: nat)
      modifies this`overload
      ensures n == old(overload) && overload == 0
    {
      n := overload;
      if overload != 0 {
        overload := 0;
      }
    }

    /** The end of a pop: a length above the threshold is noted, and the threshold doubled until it is not below. */
    method MarkOverload(length: nat)
      requires overloadThreshold > 0
      modifies this`overload, this`overloadThreshold
      ensures length <= overloadThreshold && exists k :: k >= 0 && overloadThreshold == old(overloadThreshold) * Pow(2, k)
      ensures overloadThreshold == old(overloadThreshold) || overloadThreshold < 2 * length
      ensures overload == if length > old(overloadThreshold) then length else old(overload)
    {
      ghost var k: nat := 0;
      while length > overloadThreshold
        invariant 0 < old(overloadThreshold) <= overloadThreshold == old(overloadThreshold) * Pow(2, k)
        invariant overloadThreshold == old(overloadThreshold) || overloadThreshold < 2 * length
        invariant overload == if overloadThreshold > old(overloadThreshold) then length else old(overload)
        invariant overloadThreshold > old(overloadThreshold) ==> length > old(overloadThreshold)
        decreases length - overloadThreshold
      {
        overload := length;
        overloadThreshold := overloadThreshold * 2;
        DoubleAgain(old(overloadThreshold), k);
        k := k + 1;
      }
    }

    method Pop() returns (m: Option<T>)
      requires Valid()
      modifies this`head, this`overload, this`overloadThreshold, this`inGlobal
      ensures Valid()
      ensures (Abs(), m) == Popped(old(Abs()))
      ensures m.None? ==> overloadThreshold == MQ_OVERLOAD && overload == old(overload)
      // the threshold is doubled until the queue is below it, and no further
      ensures m.Some? ==> |Pending()| <= overloadThreshold && exists k :: k >= 0 && overloadThreshold == old(overloadThreshold) * Pow(2, k)
      ensures m.Some? ==> overloadThreshold == old(overloadThreshold) || overloadThreshold < 2 * |Pending()|
      ensures m.Some? ==> overload == if |Pending()| > old(overloadThreshold) then |Pending()| else old(overload)
    {
      if head != tail {
        RingPop(queue[..], head, tail);
        m := Some(queue[head]);
        head := head + 1;
        if head >= cap {
          head := 0;
        }
        assert Pending() == old(Pending())[1..];
        var length := tail - head;
        if length < 0 {
          length := length + cap;
        }
        MarkOverload(length);
      } else {
        overloadThreshold := MQ_OVERLOAD;
        m := None;
        inGlobal := false;
      }
    }

    /** Doubles a ring that `head == tail` has just filled; read from `head`, nothing moves. */
    method Expand()
      requires queue.Length == cap && cap > 0 && head == tail < cap
      modifies this`queue, this`head, this`tail, this`cap
      ensures queue.Length == cap == 2 * old(cap) && fresh(queue) && head == 0 && tail == old(cap)
      ensures queue[..tail] == old(queue[head..] + queue[..head])
    {
      var newQueue := Unrolled(queue, head);
      head := 0;
      tail := cap;
      cap := cap * 2;
      queue := newQueue;
    }

    static method Unrolled(a: array<T>, head: nat) returns (b: array<T>)
      requires head < a.Length
      ensures fresh(b) && b.Length == 2 * a.Length
      ensures b[..a.Length] == a[head..] + a[..head]
    {
      b := new T[a.Length * 2];
      ghost var ring := a[head..] + a[..head];
      for i := 0 to a.Length
        invariant b[..i] == ring[..i]
      {
        WrapIndex(head, i, a.Length);
        assert ring[i] == a[if head + i < a.Length then head + i else head + i - a.Length];
        b[i] := a[(head + i) % a.Length];
        assert b[..i + 1] == b[..i] + [b[i]];
      }
    }

    method Push(m: T, g: GlobalQueue<T>)
      requires Valid() && g.Valid()
      requires !inGlobal ==> this !in g.list && next == null
      modifies this`queue, this`head, this`tail, this`cap, this`inGlobal, queue
      modifies g, g.list`next
      ensures Valid() && g.Valid() && (queue == old(queue) || fresh(queue))
      ensures Abs() == Pushed(old(Abs()), m).0
      ensures g.list == old(g.list) + if Pushed(old(Abs()), m).1 then [this] else []
      ensures cap == if |old(Pending())| == old(cap) - 1 then 2 * old(cap) else old(cap)
    {
      Append(m);
      if !inGlobal {
        inGlobal := true;
        g.Push(this);
      }
    }

    /** The part of a push that touches the ring only. */
    method Append(m: T)
      requires Valid()
      modifies this`queue, this`head, this`tail, this`cap, queue
      ensures Valid() && (queue == old(queue) || fresh(queue))
      ensures Pending() == old(Pending()) + [m]
      ensures cap == if |old(Pending())| == old(cap) - 1 then 2 * old(cap) else old(cap)
    {
      RingPush(queue[..], head, tail, m);
      queue[tail] := m;
      assert queue[..] == old(queue[..])[old(tail) := m];
      tail := tail + 1;
      if tail >= cap {
        tail := 0;
      }
      if head == tail {
        Expand();
        assert Pending() == queue[..tail];
      }
    }

    method MarkRelease(g: GlobalQueue<T>)
      requires Valid() && g.Valid()
      requires !release
      requires !inGlobal ==> this !in g.list && next == null
      modifies this`release, g, g.list`next
      ensures Valid() && g.Valid()
      ensures Abs() == Marked(old(Abs())).0
      ensures g.list == old(g.list) + if Marked(old(Abs())).1 then [this] else []
    {
      assert !release;
      release := true;
      if !inGlobal {
        g.Push(this);
      }
    }

    /** Hands every message left to the drop function, in order, before the queue is freed. */
    method Drop() returns (dropped: seq<T>)
      requires Valid()
      modifies this`head, this`overload, this`overloadThreshold, this`inGlobal
      ensures Valid() && dropped == old(Pending())
      ensures Abs() == old(Abs()).(pending := [], inGlobal := false)
    {
      hide Ring;
      dropped := [];
      var m := Pop();
      while m.Some?
        invariant Valid()
        invariant m.Some? ==> dropped + [m.value] + Pending() == old(Pending())
        invariant m.None? ==> dropped == old(Pending()) && Pending() == [] && !inGlobal
        decreases |Pending()|, m.Some?
      {
        dropped := dropped + [m.value];
        ghost var rest := Pending();
        m := Pop();
        if m.Some? {
          assert rest == [m.value] + Pending();
          Assoc(dropped, [m.value], Pending());
        }
      }
    }

    /** Frees a released queue, or puts an unreleased one back for another look. */
    method Release(g: GlobalQueue<T>) returns (freed: bool, dropped: seq<T>)
      requires Valid() && g.Valid()
      requires this !in g.list && next == null
      modifies this`head, this`overload, this`overloadThreshold, this`inGlobal, g, g.list`next
      ensures Valid() && g.Valid()
      ensures freed == old(release)
      ensures freed ==> dropped == old(Pending()) && Pending() == [] && next == null && g.list == old(g.list)
      ensures !freed ==> dropped == [] && Abs() == old(Abs()) && g.list == old(g.list) + [this]
    {
      freed, dropped := release, [];
      if release {
        dropped := Drop();
        assert next == null;
      } else {
        g.Push(this);
      }
    }
  }

  function Successor<T(0)>(list: seq<MessageQueue<T>>, i: nat): MessageQueue?<T> {
    if i + 1 < |list| then list[i + 1] else null
  }

  /** The global list, a singly linked queue through `next`. */
  class GlobalQueue<T(0)> {
    var head: MessageQueue?<T>
    var tail: MessageQueue?<T>
    ghost var list: seq<MessageQueue<T>>

    ghost predicate Valid()
      reads this, list`next
    {
      && Distinct(list)
      && (list == [] ==> head == null && tail == null)
      && (list != [] ==> head == list[0] && tail == list[|list| - 1])
      && forall i :: 0 <= i < |list| ==> list[i].next == Successor(list, i)
    }

    constructor ()
      ensures Valid() && list == []
    {
      head, tail, list := null, null, [];
    }

    method Push(q: MessageQueue<T>)
      requires Valid() && q !in list && q.next == null
      modifies this, list`next
      ensures Valid() && list == old(list) + [q]
    {
      assert q.next == null;
      if tail != null {
        tail.next := q;
        tail := q;
      } else {
        head := q;
        tail := q;
      }
      list := list + [q];
    }

    method Pop() returns (q: MessageQueue?<T>)
      requires Valid()
      modifies this, list`next
      ensures Valid()
      ensures old(list) == [] ==> q == null && list == []
      ensures old(list) != [] ==> q == old(list)[0] && q.next == null && list == old(list)[1..]
    {
      q := head;
      if q != null {
        assert list != [];
        assert 0 < |list|;
        assert list[0].next == Successor(list, 0);
        head := q.next;
        if head == null {
          assert q == tail;
          tail := null;
        }
        q.next := null;
        ghost var all := list;
        list := list[1..];
        assert forall i :: 0 <= i < |list| ==> list[i] == all[i + 1];
      }
    }
  }
}
