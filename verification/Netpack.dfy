/**
  lua-netpack.c: two-byte framing for many sockets at once. What a chunk leaves unfinished is kept
  in a chain of its socket's hash slot; packets beyond the first go through a ring queue.
 */
module Netpack {
  import opened Common
  import opened Framing
  import opened MessageQueues

  const QUEUESIZE := 1024
  const HASHSIZE := 4096

  datatype Pack = Pack(id: int, buffer: Bytes)

  /** `data` is what pack.buffer holds so far; read is -1 while half a header is kept in `header`. */
  datatype Uncomplete = Uncomplete(id: int, size: int, data: Bytes, read: int, header: int)

  datatype Filtered = Nothing | Data(fd: int, packet: Bytes) | More

  function HashFd(fd: int): (h: int)
    ensures 0 <= h < HASHSIZE
  {
    (fd / 0x100_0000 + fd / 0x1000 + fd) % 0x1_0000_0000 % HASHSIZE
  }

  predicate Sane(u: Uncomplete) {
    if u.read < 0 then u.read == -1 && 0 <= u.header < 256
    else u.read == |u.data| < u.size < 0x1_0000
  }

  /** The bytes of its socket's stream that an unfinished packet holds. */
  function Held(u: Uncomplete): Bytes
    requires Sane(u)
  {
    if u.read < 0 then [u.header] else Encoded(2, u.size) + u.data
  }

  ghost predicate SaneChain(c: seq<Uncomplete>, h: int) {
    (forall i :: 0 <= i < |c| ==> Sane(c[i]) && HashFd(c[i].id) == h) && forall i, j :: 0 <= i < j < |c| ==> c[i].id != c[j].id
  }

  /** What a chain holds for a socket. */
  function Of(c: seq<Uncomplete>, fd: int): Bytes
    requires forall i :: 0 <= i < |c| ==> Sane(c[i])
  {
    if c == [] then [] else if c[0].id == fd then Held(c[0]) else Of(c[1..], fd)
  }

  lemma {:induction false} OfNone(c: seq<Uncomplete>, fd: int)
    requires forall i :: 0 <= i < |c| ==> Sane(c[i]) && c[i].id != fd
    ensures Of(c, fd) == []
  {
    if c != [] {
      OfNone(c[1..], fd);
    }
  }

  lemma {:induction false} OfAt(c: seq<Uncomplete>, h: int, i: nat)
    requires SaneChain(c, h) && i < |c|
    ensures Of(c, c[i].id) == Held(c[i])
  {
    if i > 0 {
      OfAt(c[1..], h, i - 1);
    }
  }

  /** Taking one out of the middle of a chain. */
  lemma {:induction false} OfWithout(c: seq<Uncomplete>, h: int, i: nat, g: int)
    requires SaneChain(c, h) && i < |c|
    ensures SaneChain(c[..i] + c[i + 1..], h)
    ensures Of(c[..i] + c[i + 1..], g) == if g == c[i].id then [] else Of(c, g)
  {
    var d := c[..i] + c[i + 1..];
    if i == 0 {
      assert d == c[1..];
      if g == c[0].id {
        OfNone(d, g);
      }
    } else {
      OfWithout(c[1..], h, i - 1, g);
      assert d[1..] == c[1..][..i - 1] + c[1..][i..];
      assert d[0] == c[0];
    }
  }

  function Tagged(fd: int, ps: seq<Bytes>): (t: seq<Pack>)
    ensures |t| == |ps| && forall i :: 0 <= i < |ps| ==> t[i] == Pack(fd, ps[i])
  {
    seq(|ps|, i requires 0 <= i < |ps| => Pack(fd, ps[i]))
  }

  class Queue {
    var cap: int
    var head: int
    var tail: int
    var queue: array<Pack>
    const hash: array<seq<Uncomplete>>

    ghost predicate RingValid()
      reads this
    {
      queue.Length == cap && 0 <= head < cap && 0 <= tail < cap
    }

    ghost predicate ChainsValid()
      reads this, hash
    {
      hash.Length == HASHSIZE && forall h :: 0 <= h < HASHSIZE ==> SaneChain(hash[h], h)
    }

    ghost predicate Valid()
      reads this, queue, hash
    {
      RingValid() && ChainsValid()
    }

    /** The packets waiting to be popped. */
    ghost function Items(): seq<Pack>
      reads this, queue
      requires RingValid()
    {
      Ring(queue[..], head, tail)
    }

    /** The unfinished bytes of a socket's stream. */
    ghost function Pending(fd: int): Bytes
      reads this, hash
      requires ChainsValid()
    {
      Of(hash[HashFd(fd)], fd)
    }

    /** get_queue, the first time. */
    constructor ()
      ensures Valid() && Items() == [] && fresh(queue) && fresh(hash) && forall fd :: Pending(fd) == []
    {
      cap, head, tail := QUEUESIZE, 0, 0;
      queue := new Pack[QUEUESIZE](_ => Pack(0, []));
      hash := new seq<Uncomplete>[HASHSIZE](_ => []);
    }

    /** find_uncomplete: takes what a socket left unfinished out of its chain. */
    method FindUncomplete(fd: int) returns (uc: Option<Uncomplete>)
      requires ChainsValid()
      modifies hash
      ensures ChainsValid() && Pending(fd) == [] && forall g :: g != fd ==> Pending(g) == old(Pending(g))
      ensures uc.None? ==> old(Pending(fd)) == []
      ensures uc.Some? ==> Sane(uc.value) && uc.value.id == fd && old(Pending(fd)) == Held(uc.value)
    {
      var h := HashFd(fd);
      var c := hash[h];
      var i := 0;
      while i < |c|
        invariant 0 <= i <= |c| && forall j :: 0 <= j < i ==> c[j].id != fd
      {
        if c[i].id == fd {
          OfAt(c, h, i);
          forall g { OfWithout(c, h, i, g); }
          hash[h] := c[..i] + c[i + 1..];
          return Some(c[i]);
        }
        i := i + 1;
      }
      OfNone(c, fd);
      uc := None;
    }

    /** save_uncomplete, filled in. */
    method Save(u: Uncomplete)
      requires ChainsValid() && Sane(u) && Pending(u.id) == []
      modifies hash
      ensures ChainsValid() && Pending(u.id) == Held(u) && forall g :: g != u.id ==> Pending(g) == old(Pending(g))
    {
      var h := HashFd(u.id);
      var c := hash[h];
      NotThere(c, h, u.id);
      assert ([u] + c)[1..] == c;
      hash[h] := [u] + c;
    }

    /** expand_queue: the ring is full, and is copied in order to the front of a longer one. */
    method ExpandQueue()
      requires queue.Length == cap && 0 <= head == tail < cap
      modifies this`queue, this`cap, this`head, this`tail
      ensures RingValid() && fresh(queue) && cap == old(cap) + QUEUESIZE && Items() == old(queue[head..] + queue[..head])
    {
      var nq := new Pack[cap + QUEUESIZE](_ => Pack(0, []));
      ghost var ring := queue[head..] + queue[..head];
      var i := 0;
      while i < cap
        invariant 0 <= i <= cap && nq[..i] == ring[..i]
        modifies nq
      {
        WrapIndex(head, i, cap);
        var idx := (head + i) % cap;
        assert ring[i] == queue[idx];
        nq[i] := queue[idx];
        i := i + 1;
        assert nq[..i] == nq[..i - 1] + [nq[i - 1]];
      }
      queue := nq;
      head, tail, cap := 0, cap, cap + QUEUESIZE;
    }

    /** push_data. */
    method PushData(fd: int, buffer: Bytes)
      requires RingValid()
      modifies this`queue, this`cap, this`head, this`tail, queue
      ensures RingValid() && (queue == old(queue) || fresh(queue)) && Items() == old(Items()) + [Pack(fd, buffer)]
    {
      RingPush(queue[..], head, tail, Pack(fd, buffer));
      ghost var a := queue[..];
      queue[tail] := Pack(fd, buffer);
      assert queue[..] == a[old(tail) := Pack(fd, buffer)];
      tail := tail + 1;
      if tail >= cap {
        tail := tail - cap;
      }
      if head == tail {
        ExpandQueue();
      }
    }

    /** lpop. */
    method Pop() returns (p: Option<Pack>)
      requires RingValid()
      modifies this`head
      ensures RingValid()
      ensures p.None? ==> old(Items()) == [] && Items() == []
      ensures p.Some? ==> old(Items()) == [p.value] + Items()
    {
      if head == tail {
        return None;
      }
      RingPop(queue[..], head, tail);
      p := Some(queue[head]);
      head := head + 1;
      if head >= cap {
        head := 0;
      }
    }

    /** push_more: the frames of the rest of a chunk go to the queue, and what is left to the chain. */
    method PushMore(fd: int, buffer: Bytes)
      requires Valid() && buffer != [] && Pending(fd) == []
      modifies this`queue, this`cap, this`head, this`tail, queue, hash
      ensures Valid() && (queue == old(queue) || fresh(queue))
      ensures Items() == old(Items()) + Tagged(fd, Packets(2, buffer))
      ensures Pending(fd) == Rest(2, buffer) && forall g :: g != fd ==> Pending(g) == old(Pending(g))
      decreases |buffer|
    {
      if |buffer| == 1 {
        Save(Uncomplete(fd, 0, [], -1, buffer[0]));
        return;
      }
      var packSize := (buffer[0] as int) * 0x100 + buffer[1] as int;
      HeaderNumber(buffer[..2]);
      var rest := buffer[2..];
      if |rest| < packSize {
        KeptIs(buffer, packSize);
        Save(Uncomplete(fd, packSize, rest, |rest|, 0));
        return;
      }
      assert Frame(2, buffer) == rest[..packSize] && Behind(2, buffer) == rest[packSize..];
      OneAndRest(buffer, fd);
      Assoc(Items(), [Pack(fd, rest[..packSize])], Tagged(fd, Packets(2, rest[packSize..])));
      PushData(fd, rest[..packSize]);
      if |rest| - packSize > 0 {
        PushMore(fd, rest[packSize..]);
      } else {
        NothingInNothing(2);
      }
    }

    /**
      filter_data_: a chunk completes no packet, just one, or more; one goes straight to the caller,
      more go to the queue in order, and what is left is kept for the socket.
     */
    method FilterData(fd: int, buffer: Bytes) returns (r: Filtered)
      requires Valid() && buffer != []
      modifies this`queue, this`cap, this`head, this`tail, queue, hash
      ensures Valid() && (queue == old(queue) || fresh(queue))
      ensures Pending(fd) == Rest(2, old(Pending(fd)) + buffer) && forall g :: g != fd ==> Pending(g) == old(Pending(g))
      ensures Items() == old(Items()) + if r == More then Tagged(fd, Packets(2, old(Pending(fd)) + buffer)) else []
      ensures r == Nothing ==> Packets(2, old(Pending(fd)) + buffer) == []
      ensures r.Data? ==> r.fd == fd && Packets(2, old(Pending(fd)) + buffer) == [r.packet]
      ensures r == More ==> Packets(2, old(Pending(fd)) + buffer) != []
    {
      var uc := FindUncomplete(fd);
      if uc.Some? {
        r := Fill(uc.value, buffer);
      } else {
        assert [] + buffer == buffer;
        r := Begin(fd, buffer);
      }
    }

    /** The branch for a socket that left something unfinished: first the other half of the header, if that is missing. */
    method Fill(uc0: Uncomplete, buffer0: Bytes) returns (r: Filtered)
      requires Valid() && buffer0 != [] && Sane(uc0) && Pending(uc0.id) == []
      modifies this`queue, this`cap, this`head, this`tail, queue, hash
      ensures Valid() && (queue == old(queue) || fresh(queue))
      ensures Took(uc0.id, Held(uc0) + buffer0, r, old(Items()), Items(), Pending(uc0.id))
      ensures forall g :: g != uc0.id ==> Pending(g) == old(Pending(g))
    {
      var uc, buffer := uc0, buffer0;
      ghost var s := Held(uc0) + buffer0;
      if uc.read < 0 {
        var packSize := uc.header * 0x100 + buffer[0] as int;
        HeaderNumber(s[..2]);
        NumberIs(s[..2]);
        buffer := buffer[1..];
        uc := uc.(size := packSize, read := 0, data := []);
      }
      assert s[..2] == Encoded(2, uc.size) && s[2..] == uc.data + buffer;
      r := FillData(uc, buffer, s);
    }

    /** Then its data. */
    method FillData(uc: Uncomplete, buffer: Bytes, ghost s: Bytes) returns (r: Filtered)
      requires Valid() && Pending(uc.id) == [] && 0 <= uc.read == |uc.data| <= uc.size < 0x1_0000
      requires |s| >= 2 && s[..2] == Encoded(2, uc.size) && s[2..] == uc.data + buffer
      modifies this`queue, this`cap, this`head, this`tail, queue, hash
      ensures Valid() && (queue == old(queue) || fresh(queue))
      ensures Took(uc.id, s, r, old(Items()), Items(), Pending(uc.id))
      ensures forall g :: g != uc.id ==> Pending(g) == old(Pending(g))
    {
      EncodedIs(2, uc.size);
      var need := uc.size - uc.read;
      if |buffer| < need {
        var u := uc.(data := uc.data + buffer, read := uc.read + |buffer|);
        assert Held(u) == s;
        Save(u);
        return Nothing;
      }
      var whole := uc.data + buffer[..need];
      FilledIs(s, uc.size, uc.data, buffer, need);
      r := Finish(uc.id, whole, buffer[need..], s);
    }

    /** A packet is whole: alone it is returned, and with more behind it everything is queued. */
    method Finish(fd: int, whole: Bytes, more: Bytes, ghost s: Bytes) returns (r: Filtered)
      requires Valid() && Pending(fd) == [] && Complete(2, s) && Frame(2, s) == whole && Behind(2, s) == more
      modifies this`queue, this`cap, this`head, this`tail, queue, hash
      ensures Valid() && (queue == old(queue) || fresh(queue))
      ensures Took(fd, s, r, old(Items()), Items(), Pending(fd))
      ensures forall g :: g != fd ==> Pending(g) == old(Pending(g))
    {
      OneAndRest(s, fd);
      if more == [] {
        NothingInNothing(2);
        return Data(fd, whole);
      }
      PushData(fd, whole);
      PushMore(fd, more);
      r := More;
    }

    /** The branch for a socket with nothing unfinished. */
    method Begin(fd: int, buffer0: Bytes) returns (r: Filtered)
      requires Valid() && buffer0 != [] && Pending(fd) == []
      modifies this`queue, this`cap, this`head, this`tail, queue, hash
      ensures Valid() && (queue == old(queue) || fresh(queue))
      ensures Took(fd, buffer0, r, old(Items()), Items(), Pending(fd))
      ensures forall g :: g != fd ==> Pending(g) == old(Pending(g))
    {
      if |buffer0| == 1 {
        Save(Uncomplete(fd, 0, [], -1, buffer0[0]));
        return Nothing;
      }
      var packSize := (buffer0[0] as int) * 0x100 + buffer0[1] as int;
      HeaderNumber(buffer0[..2]);
      var buffer := buffer0[2..];
      if |buffer| < packSize {
        KeptIs(buffer0, packSize);
        Save(Uncomplete(fd, packSize, buffer, |buffer|, 0));
        return Nothing;
      }
      assert Frame(2, buffer0) == buffer[..packSize] && Behind(2, buffer0) == buffer[packSize..];
      r := Finish(fd, buffer[..packSize], buffer[packSize..], buffer0);
    }
  }

  /** lpack: what FilterData at the other end takes apart again; refused if the length does not fit the header. */
  method LPack(p: Bytes) returns (r: Option<Bytes>)
    ensures r == if |p| < 0x1_0000 then Some(Framed(2, p)) else None
    ensures r.Some? ==> Packets(2, r.value) == [p] && Rest(2, r.value) == []
  {
    if |p| >= 0x1_0000 {
      return None;
    }
    var n: nat := |p|;
    var header: Bytes := [n / 0x100 % 0x100, n % 0x100];
    assert Encoded(0, n / 256 / 256) == [] && Encoded(1, n / 256) == [] + [n / 256 % 256];
    assert Encoded(2, n) == header;
    assert Pow(256, 2) == 0x1_0000;
    OneFrame(2, p);
    r := Some(header + p);
  }

  // ---------------------------------------------------------------- many sockets

  datatype Event = Event(fd: int, chunk: Bytes)

  /** All that has arrived from a socket. */
  function Stream(events: seq<Event>, fd: int): Bytes {
    if events == [] then []
    else Stream(events[..|events| - 1], fd) + if events[|events| - 1].fd == fd then events[|events| - 1].chunk else []
  }

  /** The packets of one socket among those delivered. */
  function Only(out: seq<Pack>, fd: int): seq<Pack> {
    if out == [] then [] else (if out[0].id == fd then [out[0]] else []) + Only(out[1..], fd)
  }

  lemma {:induction false} OnlySum(a: seq<Pack>, b: seq<Pack>, fd: int)
    ensures Only(a + b, fd) == Only(a, fd) + Only(b, fd)
  {
    if a == [] {
      assert a + b == b;
    } else {
      OnlySum(a[1..], b, fd);
      assert (a + b)[1..] == a[1..] + b;
    }
  }

  lemma {:induction false} OnlyTagged(ps: seq<Bytes>, fd: int, g: int)
    ensures Only(Tagged(fd, ps), g) == if g == fd then Tagged(fd, ps) else []
  {
    if ps != [] {
      OnlyTagged(ps[1..], fd, g);
      assert Tagged(fd, ps)[1..] == Tagged(fd, ps[1..]);
    }
  }

  /** Pops until the queue is empty. */
  method Drain(q: Queue) returns (out: seq<Pack>)
    requires q.RingValid()
    modifies q`head
    ensures q.RingValid() && q.Items() == [] && out == old(q.Items())
  {
    hide Ring;
    out := [];
    var p := q.Pop();
    while p.Some?
      invariant q.RingValid() && (p.None? ==> q.Items() == [])
      invariant out + (if p.Some? then [p.value] else []) + q.Items() == old(q.Items())
      decreases |q.Items()|, p.Some?
    {
      out := out + [p.value];
      p := q.Pop();
      if p.Some? {
        Assoc(out, [p.value], q.Items());
      }
    }
  }

  /** One chunk: the packet it completes goes to the handler, and several go through the queue, which is emptied. */
  method Deliver(q: Queue, e: Event) returns (out: seq<Pack>)
    requires q.Valid() && q.Items() == [] && e.chunk != []
    modifies q, q.queue, q.hash
    ensures q.Valid() && q.Items() == [] && (q.queue == old(q.queue) || fresh(q.queue))
    ensures out == Tagged(e.fd, Packets(2, old(q.Pending(e.fd)) + e.chunk))
    ensures q.Pending(e.fd) == Rest(2, old(q.Pending(e.fd)) + e.chunk) && forall g :: g != e.fd ==> q.Pending(g) == old(q.Pending(g))
  {
    ghost var all := Tagged(e.fd, Packets(2, q.Pending(e.fd) + e.chunk));
    var r := q.FilterData(e.fd, e.chunk);
    match r
    case Nothing => out := [];
    case Data(fd, packet) => out := [Pack(fd, packet)];
    case More => out := Drain(q);
  }

  lemma StreamsNext(events: seq<Event>, i: nat, fd: int, before: seq<Pack>, more: seq<Pack>)
    requires i < |events|
    requires Only(before, fd) == Tagged(fd, Packets(2, Stream(events[..i], fd)))
    requires more == Tagged(events[i].fd, Packets(2, Rest(2, Stream(events[..i], events[i].fd)) + events[i].chunk))
    ensures Only(before + more, fd) == Tagged(fd, Packets(2, Stream(events[..i + 1], fd)))
    ensures Rest(2, Stream(events[..i + 1], fd)) ==
      if fd == events[i].fd then Rest(2, Rest(2, Stream(events[..i], fd)) + events[i].chunk) else Rest(2, Stream(events[..i], fd))
  {
    hide Packets, Rest, Only;
    var e, was := events[i], Stream(events[..i], fd);
    assert events[..i + 1][..i] == events[..i];
    OnlySum(before, more, fd);
    OnlyTagged(Packets(2, Rest(2, Stream(events[..i], e.fd)) + e.chunk), e.fd, fd);
    if fd == e.fd {
      Resume(2, was, e.chunk);
      assert Tagged(fd, Packets(2, was + e.chunk)) == Tagged(fd, Packets(2, was)) + Tagged(fd, Packets(2, Rest(2, was) + e.chunk));
    } else {
      assert Stream(events[..i + 1], fd) == was + [] == was;
    }
  }

  /**
    However the streams of any number of sockets are cut into chunks, and however the chunks of one
    come between those of another, each socket's packets are those of its own stream, in order.
   */
  method DeliverAll(events: seq<Event>) returns (out: seq<Pack>)
    requires forall i :: 0 <= i < |events| ==> events[i].chunk != []
    ensures forall fd :: Only(out, fd) == Tagged(fd, Packets(2, Stream(events, fd)))
  {
    var q := new Queue();
    out := [];
    var i := 0;
    while i < |events|
      invariant 0 <= i <= |events| && fresh(q) && fresh(q.queue) && fresh(q.hash) && q.Valid() && q.Items() == []
      invariant forall fd :: Only(out, fd) == Tagged(fd, Packets(2, Stream(events[..i], fd)))
      invariant forall fd :: q.Pending(fd) == Rest(2, Stream(events[..i], fd))
    {
      ghost var before := out;
      var more := Deliver(q, events[i]);
      out := out + more;
      forall fd
        ensures Only(out, fd) == Tagged(fd, Packets(2, Stream(events[..i + 1], fd)))
        ensures q.Pending(fd) == Rest(2, Stream(events[..i + 1], fd))
      {
        StreamsNext(events, i, fd, before, more);
      }
      i := i + 1;
    }
    assert events[..|events|] == events;
  }

  /** What a chunk does to a stream that stood at s with it, and to the queue. */
  ghost predicate Took(fd: int, s: Bytes, r: Filtered, before: seq<Pack>, after: seq<Pack>, left: Bytes) {
    && left == Rest(2, s)
    && match r
       case Nothing => Packets(2, s) == [] && after == before
       case Data(f, p) => f == fd && Packets(2, s) == [p] && after == before
       case More => Packets(2, s) != [] && after == before + Tagged(fd, Packets(2, s))
  }

  lemma OneAndRest(s: Bytes, fd: int)
    requires Complete(2, s)
    ensures Packets(2, s) == [Frame(2, s)] + Packets(2, Behind(2, s)) && Rest(2, s) == Rest(2, Behind(2, s))
    ensures Tagged(fd, Packets(2, s)) == [Pack(fd, Frame(2, s))] + Tagged(fd, Packets(2, Behind(2, s)))
  {
  }

  lemma FilledIs(s: Bytes, n: int, data: Bytes, buffer: Bytes, need: int)
    requires |s| >= 2 && Number(s[..2]) == n && s[2..] == data + buffer && need == n - |data| && 0 <= need <= |buffer|
    ensures Complete(2, s) && Frame(2, s) == data + buffer[..need] && Behind(2, s) == buffer[need..]
  {
    assert s[2..2 + n] == s[2..][..n] && s[2 + n..] == s[2..][n..];
  }

  /** A socket without unfinished bytes is not in the chain. */
  lemma NotThere(c: seq<Uncomplete>, h: int, fd: int)
    requires SaneChain(c, h) && Of(c, fd) == []
    ensures forall i :: 0 <= i < |c| ==> c[i].id != fd
  {
    forall i | 0 <= i < |c| ensures c[i].id != fd {
      OfAt(c, h, i);
    }
  }

  /** What is kept of an unfinished packet stands for the bytes it came from. */
  lemma KeptIs(s: Bytes, n: int)
    requires |s| >= 2 && n == Number(s[..2]) && 0 <= n < 0x1_0000
    ensures Encoded(2, n) + s[2..] == s
  {
    NumberIs(s[..2]);
    assert s == s[..2] + s[2..];
  }
}
