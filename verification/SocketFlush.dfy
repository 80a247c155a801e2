/**
  What a flush of the socket thread gets onto the wire (send_buffer in socket_server.c), said of the
  results of write() and of the bytes that were waiting only. A flush offers the waiting buffers one
  after another, and goes on exactly as long as write() takes all it is offered.
 */
module SocketFlush {
  import opened Common
  import opened SocketSend

  /** The calls of write() that were not interrupted by a signal; an interrupted one is made again. */
  function Calls(w: seq<Write>): seq<Write> {
    if w == [] then []
    else if w[0].Interrupted? then Calls(w[1..])
    else [w[0]] + Calls(w[1..])
  }

  /** The buffers that wait, in the order they are offered. */
  function Waiting(s: Sock): seq<Buf> {
    Opt(s.dw) + s.high + s.low
  }

  predicate Sizes(l: seq<Buf>) {
    forall i :: 0 <= i < |l| ==> l[i].sent <= |l[i].key.bytes|
  }

  /** The bytes of these buffers that are not on the wire yet. */
  function Unsent(l: seq<Buf>): seq<Mark>
    requires Sizes(l)
  {
    if l == [] then [] else Piece(l[0].key, l[0].sent, |l[0].key.bytes|) + Unsent(l[1..])
  }

  /** This call takes all of what it is offered. */
  predicate TakesAll(c: Write, b: Buf) {
    c.Wrote? && c.n >= Left(b)
  }

  /** The first j buffers are taken in full, and that is where it ends: with the buffers, with the calls, or at a call that takes less. */
  ghost predicate Takes(c: seq<Write>, q: seq<Buf>, j: nat) {
    && j <= |q| && j <= |c|
    && (forall i :: 0 <= i < j ==> TakesAll(c[i], q[i]))
    && (j < |q| && j < |c| ==> !TakesAll(c[j], q[j]))
  }

  /** What the call that takes less than it is offered still writes. */
  function Short(c: seq<Write>, q: seq<Buf>, j: nat): seq<Mark>
    requires Sizes(q)
  {
    if j < |q| && j < |c| && c[j].Wrote? && c[j].n < Left(q[j]) then Piece(q[j].key, q[j].sent, q[j].sent + c[j].n) else []
  }

  lemma {:induction false} UnsentAppend(a: seq<Buf>, b: seq<Buf>)
    requires Sizes(a) && Sizes(b)
    ensures Sizes(a + b) && Unsent(a + b) == Unsent(a) + Unsent(b)
  {
    if a == [] {
      assert a + b == b;
    } else {
      hide Piece;
      UnsentAppend(a[1..], b);
      assert (a + b)[1..] == a[1..] + b;
      Assoc(Piece(a[0].key, a[0].sent, |a[0].key.bytes|), Unsent(a[1..]), Unsent(b));
    }
  }

  lemma UnsentOne(b: Buf)
    requires b.sent <= |b.key.bytes|
    ensures Unsent([b]) == Piece(b.key, b.sent, |b.key.bytes|)
  {
    assert Unsent([b]) == Piece(b.key, b.sent, |b.key.bytes|) + Unsent([b][1..]);
  }

  /** What sending one list comes to. */
  ghost predicate ListSent(x: Sending, w: seq<Write>, j: nat)
    requires Sizes(x.list)
  {
    && Takes(Calls(w), x.list, j)
    && var r := SendList(x, w);
    && r.state.wire == x.wire + Unsent(x.list[..j]) + Short(Calls(w), x.list, j)
    && Keys(r.state.list) == Keys(x.list[j..])
    && (r.broken <==> j < |x.list| && j < |Calls(w)| && Calls(w)[j].Broken?)
    && (j == |x.list| ==> Calls(r.rest) == Calls(w)[j..])
  }

  lemma ListStops(x: Sending, w: seq<Write>)
    requires Sizes(x.list)
    requires x.list == [] || w == [] || !(w[0].Interrupted? || TakesAll(w[0], x.list[0]))
    ensures ListSent(x, w, 0)
  {
    assert x.wire + Unsent(x.list[..0]) == x.wire;
    assert x.list[0..] == x.list;
    if x.list != [] && w != [] && w[0].Wrote? {
      var b, k := x.list[0], w[0].n;
      assert Calls(w)[0] == w[0];
      assert Keys([b.(sent := b.sent + k)] + x.list[1..]) == Keys(x.list);
    }
  }

  lemma TakesOneMore(w: seq<Write>, q: seq<Buf>, j: nat)
    requires q != [] && w != [] && TakesAll(w[0], q[0]) && Takes(Calls(w[1..]), q[1..], j) && Sizes(q)
    ensures Takes(Calls(w), q, j + 1) && Calls(w)[j + 1..] == Calls(w[1..])[j..]
    ensures Short(Calls(w), q, j + 1) == Short(Calls(w[1..]), q[1..], j)
  {
    var c := Calls(w[1..]);
    assert Calls(w) == [w[0]] + c;
    forall i | 0 <= i < j + 1 ensures TakesAll(Calls(w)[i], q[i]) {
      assert i > 0 ==> TakesAll(c[i - 1], q[1..][i - 1]);
    }
  }

  lemma SendListOn(x: Sending, w: seq<Write>)
    requires Sizes(x.list) && x.list != [] && w != [] && TakesAll(w[0], x.list[0])
    ensures Sizes(Advance(x, Left(x.list[0])).list) && SendList(x, w) == SendList(Advance(x, Left(x.list[0])), w[1..])
  {
  }

  lemma ListGoesOn(x: Sending, w: seq<Write>, j: nat)
    requires Sizes(x.list) && x.list != [] && w != [] && TakesAll(w[0], x.list[0])
    requires Sizes(Advance(x, Left(x.list[0])).list) && ListSent(Advance(x, Left(x.list[0])), w[1..], j)
    ensures ListSent(x, w, j + 1)
  {
    var b, l := x.list[0], x.list[1..];
    TakesOneMore(w, x.list, j);
    SendListOn(x, w);
    hide Takes, Short, Calls, Piece, SendList;
    assert x.list[j + 1..] == l[j..] && x.list[..j + 1] == [b] + l[..j];
    UnsentOne(b);
    UnsentAppend([b], l[..j]);
    Assoc(x.wire, Unsent([b]), Unsent(l[..j]));
  }

  lemma {:induction false} ListSends(x: Sending, w: seq<Write>) returns (j: nat)
    requires Sizes(x.list)
    ensures ListSent(x, w, j)
    decreases |w|
  {
    if x.list != [] && w != [] && w[0].Interrupted? {
      j := ListSends(x, w[1..]);
    } else if x.list != [] && w != [] && TakesAll(w[0], x.list[0]) {
      j := ListSends(Advance(x, Left(x.list[0])), w[1..]);
      ListGoesOn(x, w, j);
      j := j + 1;
    } else {
      j := 0;
      ListStops(x, w);
    }
  }

  /** One list after the other is the one list of both. */
  lemma TakesBoth(c: seq<Write>, a: seq<Buf>, b: seq<Buf>, j: nat)
    requires Sizes(a) && Sizes(b) && Takes(c, a, |a|) && Takes(c[|a|..], b, j)
    ensures Sizes(a + b) && Takes(c, a + b, |a| + j) && Short(c, a + b, |a| + j) == Short(c[|a|..], b, j)
    ensures (a + b)[|a| + j..] == b[j..]
  {
    hide Piece, TakesAll;
    forall i | 0 <= i < |a| + j ensures TakesAll(c[i], (a + b)[i]) {
      if i >= |a| {
        assert c[i] == c[|a|..][i - |a|];
      }
    }
  }

  lemma UnsentBoth(a: seq<Buf>, b: seq<Buf>, j: nat)
    requires Sizes(a) && Sizes(b) && j <= |b|
    ensures Sizes(a + b) && Unsent((a + b)[..|a| + j]) == Unsent(a) + Unsent(b[..j])
  {
    hide Unsent;
    assert (a + b)[..|a| + j] == a + b[..j];
    UnsentAppend(a, b[..j]);
  }

  lemma TakesFirst(c: seq<Write>, a: seq<Buf>, b: seq<Buf>, j: nat)
    requires Sizes(a) && Sizes(b) && Takes(c, a, j) && j < |a|
    ensures Sizes(a + b) && Takes(c, a + b, j) && Short(c, a + b, j) == Short(c, a, j)
    ensures (a + b)[..j] == a[..j] && (a + b)[j..] == a[j..] + b
  {
  }

  /** Why a flush of j of the waiting buffers closes the socket. */
  ghost predicate Closes(s: Sock, c: seq<Write>, j: nat) {
    if j < |Waiting(s)| then j < |c| && c[j].Broken? else s.kind == HalfClose
  }

  /** A flush that took j of the waiting buffers in full. */
  ghost predicate Flushed(s: Sock, w: seq<Write>, j: nat, s': Sock) {
    && Sizes(Waiting(s)) && Takes(Calls(w), Waiting(s), j)
    && Written(s, Calls(w), j, s')
    && (s'.kind == Invalid <==> Closes(s, Calls(w), j))
    && (s'.kind != Invalid ==> StillWaits(s, j, s'))
  }

  /** What has reached the wire. */
  ghost predicate Written(s: Sock, c: seq<Write>, j: nat, s': Sock)
    requires Sizes(Waiting(s)) && j <= |Waiting(s)|
  {
    s'.wire == s.wire + Unsent(Waiting(s)[..j]) + Short(c, Waiting(s), j)
  }

  /** What is left, on a socket that is not closed. */
  ghost predicate StillWaits(s: Sock, j: nat, s': Sock)
    requires j <= |Waiting(s)|
  {
    && s'.kind == s.kind && s'.dw.None? && Keys(s'.high + s'.low) == Keys(Waiting(s)[j..])
    && (j == |Waiting(s)| ==> s'.warnSize == 0)
  }

  lemma WaitingSizes(s: Sock)
    requires SockInv(s)
    ensures Sizes(Waiting(s)) && Sizes(s.high) && Sizes(s.low)
  {
    assert s.high != [] ==> forall i :: 0 < i < |s.high| ==> s.high[i] == s.high[1..][i - 1];
  }

  /** The low list, the high list being empty. */
  lemma LowSends(s: Sock, w: seq<Write>) returns (j: nat)
    requires SockInv(s) && InUse(s.kind) && s.dw.None? && s.high == []
    ensures Sizes(s.low) && Waiting(s) == s.low && Flushed(s, w, j, SendLow(s, w))
  {
    WaitingSizes(s);
    var x := Sending(s.low, s.wbSize, s.wire, s.done);
    j := ListSends(x, w);
    assert Waiting(s) == s.low;
    var r := SendList(x, w);
    assert |r.state.list| == |s.low| - j;
    assert [] + r.state.list == r.state.list;
    if r.state.list != [] {
      assert [r.state.list[0]] + r.state.list[1..] == r.state.list;
    }
  }

  /**
    However the writes come back, exactly the buffers they take in full reach the wire, in the order they
    waited, and of the next one what a short write takes. What is left stays in that order. The socket is
    closed exactly by a broken write, or when it was to be closed behind its last byte.
   */
  lemma FlushSends(s: Sock, w: seq<Write>) returns (j: nat)
    requires SockInv(s) && InUse(s.kind)
    ensures Flushed(s, w, j, SendBuffer(s, w))
  {
    AdoptKeeps(s);
    AdoptOnce(s, w);
    AdoptWaits(s);
    hide Adopt, SockInv, SendBuffer, Calls;
    j := AdoptedSends(Adopt(s), w);
  }

  lemma AdoptWaits(s: Sock)
    ensures Waiting(Adopt(s)) == Waiting(s) && Adopt(s).kind == s.kind
  {
    assert Waiting(Adopt(s)) == Adopt(s).high + s.low;
  }

  /** The flush ends in the high list. */
  lemma HighStops(s: Sock, w: seq<Write>, x: Sending, j: nat)
    requires s.dw.None? && InUse(s.kind) && Sizes(s.high) && Sizes(s.low) && x == Sending(s.high, s.wbSize, s.wire, s.done)
    requires ListSent(x, w, j) && j < |s.high|
    ensures var r, s1 := SendList(x, w), WithHigh(s, SendList(x, w).state);
      r.state.list != [] && Flushed(s, w, j, if r.broken then Closed(s1) else s1)
  {
    var r := SendList(x, w);
    assert Waiting(s) == s.high + s.low;
    TakesFirst(Calls(w), s.high, s.low, j);
    assert |r.state.list| == |s.high| - j;
    hide Takes, Calls, Unsent, SendList, Sizes;
    KeysAppend(r.state.list, s.low);
    KeysAppend(s.high[j..], s.low);
  }

  /** The high list is sent in full. */
  lemma HighDone(s: Sock, w: seq<Write>, x: Sending, j: nat)
    requires Sizes(s.high) && x == Sending(s.high, s.wbSize, s.wire, s.done) && ListSent(x, w, j) && j >= |s.high|
    ensures j == |s.high| && Takes(Calls(w), s.high, j)
    ensures var r := SendList(x, w);
      !r.broken && r.state.list == [] && r.state.wire == s.wire + Unsent(s.high) && Calls(r.rest) == Calls(w)[|s.high|..]
  {
    hide SendList, Unsent, Calls;
    assert |SendList(x, w).state.list| == 0;
    assert s.high[..j] == s.high;
    assert s.wire + Unsent(s.high) + [] == s.wire + Unsent(s.high);
  }

  lemma WaitingLists(s: Sock)
    requires s.dw.None?
    ensures Waiting(s) == s.high + s.low && (s.high == [] ==> Waiting(s) == s.low)
  {
  }

  lemma AdoptedSends(s: Sock, w: seq<Write>) returns (j: nat)
    requires SockInv(s) && InUse(s.kind) && s.dw.None? && Framed(s)
    ensures Flushed(s, w, j, SendBuffer(s, w))
  {
    hide *;
    WaitingSizes(s);
    SendBufferIs(s, w);
    var x := Sending(s.high, s.wbSize, s.wire, s.done);
    j := ListSends(x, w);
    if j < |s.high| {
      HighStops(s, w, x, j);
    } else {
      HighDone(s, w, x, j);
      var r := SendList(x, w);
      WithHighIs(s, r.state);
      var s1 := WithHigh(s, r.state);
      var i := LowSends(s1, r.rest);
      BothSent(s, w, i, r.rest, s1, SendLow(s1, r.rest));
      j := j + i;
    }
  }

  lemma WithHighIs(s: Sock, x: Sending)
    ensures WithHigh(s, x) == s.(high := x.list, wbSize := x.wbSize, wire := x.wire, done := x.done)
  {
  }

  lemma BothSent(s: Sock, w: seq<Write>, i: nat, w1: seq<Write>, s1: Sock, s': Sock)
    requires s.dw.None? && s1.dw.None? && Sizes(s.high) && Sizes(s.low) && s1.high == [] && s1.low == s.low && s1.kind == s.kind
    requires Takes(Calls(w), s.high, |s.high|) && Calls(w1) == Calls(w)[|s.high|..]
    requires s1.wire == s.wire + Unsent(s.high) && Flushed(s1, w1, i, s')
    ensures Flushed(s, w, |s.high| + i, s')
  {
    hide Written, Calls, Unsent, Keys, Waiting, Sizes, Short, TakesAll;
    WaitingLists(s);
    WaitingLists(s1);
    TakesBoth(Calls(w), s.high, s.low, i);
    BothWritten(s, w, i, w1, s1, s');
  }

  lemma BothWritten(s: Sock, w: seq<Write>, i: nat, w1: seq<Write>, s1: Sock, s': Sock)
    requires Waiting(s) == s.high + s.low && Waiting(s1) == s.low && Sizes(s.high) && Sizes(s.low)
    requires Takes(Calls(w), s.high, |s.high|) && Calls(w1) == Calls(w)[|s.high|..] && Takes(Calls(w1), s.low, i)
    requires s1.wire == s.wire + Unsent(s.high) && Written(s1, Calls(w1), i, s')
    ensures Sizes(Waiting(s)) && Written(s, Calls(w), |s.high| + i, s')
  {
    hide Short, Calls, Unsent, Waiting, TakesAll;
    TakesBoth(Calls(w), s.high, s.low, i);
    UnsentBoth(s.high, s.low, i);
    Assoc(s.wire, Unsent(s.high), Unsent(s.low[..i]));
  }

  /** If every write takes what it is offered, a flush leaves nothing: all that waited is on the wire, in order. */
  lemma FlushSendsAll(s: Sock, w: seq<Write>)
    requires SockInv(s) && InUse(s.kind) && |Calls(w)| >= |Waiting(s)|
    requires forall i :: 0 <= i < |Waiting(s)| ==> TakesAll(Calls(w)[i], Waiting(s)[i])
    ensures Sizes(Waiting(s)) && SendBuffer(s, w).wire == s.wire + Unsent(Waiting(s))
    ensures Empty(SendBuffer(s, w)) && SendBuffer(s, w).dw.None? && (SendBuffer(s, w).kind == Invalid <==> s.kind == HalfClose)
  {
    var j := FlushSends(s, w);
    SendBufferKeeps(s, w);
    assert Waiting(s)[..j] == Waiting(s);
    hide SendBuffer;
    assert SendBuffer(s, w).kind != Invalid ==> |SendBuffer(s, w).high + SendBuffer(s, w).low| == 0;
  }

  /** Bytes are still waiting after a flush only if a write took less than it was offered, was refused or failed, or the calls ran out. */
  lemma LeftMeansStopped(s: Sock, w: seq<Write>)
    requires SockInv(s) && InUse(s.kind) && Sizes(Waiting(s)) && SendBuffer(s, w).wire != s.wire + Unsent(Waiting(s))
    ensures exists j :: 0 <= j < |Waiting(s)| && j <= |Calls(w)| && (j == |Calls(w)| || !TakesAll(Calls(w)[j], Waiting(s)[j]))
  {
    hide SockInv, SendBuffer, Unsent, TakesAll, Waiting, Calls;
    var j := FlushSends(s, w);
    assert Waiting(s)[..|Waiting(s)|] == Waiting(s);
    assert s.wire + Unsent(Waiting(s)) + [] == s.wire + Unsent(Waiting(s));
    assert j < |Waiting(s)|;
  }

  /** A direct write puts n bytes on the wire, and what it leaves waits as the first thing to be sent. */
  lemma DirectWriteSends(s: Sock, b: Buf, n: nat)
    requires n <= |b.key.bytes| && s.dw.None? && b.sent == 0
    ensures var s' := DirectWrite(s, b, n); var left := Opt(s'.dw);
      && |s'.wire| == |s.wire| + n && Sizes(left) && s'.wire + Unsent(left) == s.wire + Unsent([b])
      && (left == [] <==> n == |b.key.bytes|) && Waiting(s') == left + Waiting(s)
  {
    var s' := DirectWrite(s, b, n);
    UnsentOne(b);
    if n != |b.key.bytes| {
      UnsentOne(b.(sent := n));
      Assoc(s.wire, Piece(b.key, 0, n), Piece(b.key, n, |b.key.bytes|));
      PieceSplit(b.key, n);
    }
  }

  lemma PieceSplit(x: Request, n: nat)
    requires n <= |x.bytes|
    ensures Piece(x, 0, n) + Piece(x, n, |x.bytes|) == Piece(x, 0, |x.bytes|)
  {
  }
}
