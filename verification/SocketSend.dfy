/**
  The write side of one TCP socket (socket_server.c): two lists of buffers, a buffer left over
  by a direct write, and the bytes that have reached the wire.

  `Sock` is the socket as a value. The functions on it are what each routine of the socket
  thread does; the class below runs the loops and is proved against them.
*/
module SocketSend {
  import opened Common

  const WARNING_SIZE := 1024 * 1024

  datatype Priority = High | Low

  /**
    One send request: which call made it, at which priority, when it took its turn, its bytes, and, if
    it was written directly, the calls whose requests were still waiting at that moment.
   */
  datatype Request = Request(call: int, prio: Priority, ticket: int, passed: set<int>, bytes: Bytes)

  /** A write buffer. `sent` is `ptr - buffer`: how much of it is on the wire. */
  datatype Buf = Buf(key: Request, sent: nat)

  /** A byte on the wire: byte number `at` of a request. */
  datatype Mark = Mark(of: Request, at: nat)

  datatype Kind = Reserved | Accepted | Connecting | Connected | HalfClose | Invalid

  /** The slot has a socket in it. */
  predicate InUse(k: Kind) {
    k != Reserved && k != Invalid
  }

  /** What one call of write() does. */
  datatype Write = Wrote(n: nat) | Again | Interrupted | Broken

  /**
    `wire` is every byte written. `done` are the buffers on the wire that are done with: written in full,
    or given up when part of them had been written. `dropped` are those given up of which nothing had.
   */
  datatype Sock = Sock(
    kind: Kind,
    high: seq<Buf>,
    low: seq<Buf>,
    wbSize: int,
    warnSize: nat,
    dw: Option<Buf>,
    wire: seq<Mark>,
    done: seq<Buf>,
    dropped: seq<Buf>)

  function Left(b: Buf): int {
    |b.key.bytes| - b.sent
  }

  function LeftAll(l: seq<Buf>): int {
    if l == [] then 0 else Left(l[0]) + LeftAll(l[1..])
  }

  /** Bytes lo to hi of a request. */
  function Piece(x: Request, lo: nat, hi: nat): (p: seq<Mark>)
    requires lo <= hi
    ensures |p| == hi - lo && forall i :: 0 <= i < hi - lo ==> p[i] == Mark(x, lo + i)
  {
    seq(hi - lo, i requires 0 <= i < hi - lo => Mark(x, lo + i))
  }

  /** What buffers have on the wire, one behind the other. */
  function Flat(l: seq<Buf>): seq<Mark> {
    if l == [] then [] else Piece(l[0].key, 0, l[0].sent) + Flat(l[1..])
  }

  function Keys(l: seq<Buf>): (k: seq<Request>)
    ensures |k| == |l|
    ensures forall i :: 0 <= i < |l| ==> k[i] == l[i].key
  {
    seq(|l|, i requires 0 <= i < |l| => l[i].key)
  }

  function Opt(b: Option<Buf>): seq<Buf> {
    if b.Some? then [b.value] else []
  }

  function Empty(s: Sock): bool {
    s.high == [] && s.low == []
  }

  // ---------------------------------------------------------------- the routines

  /** What a list is while it is being sent. */
  datatype Sending = Sending(list: seq<Buf>, wbSize: int, wire: seq<Mark>, done: seq<Buf>)

  datatype Sent = Sent(state: Sending, broken: bool, rest: seq<Write>)

  /** One successful write of k bytes of the first buffer. */
  function Advance(x: Sending, k: nat): Sending
    requires x.list != [] && x.list[0].sent + k <= |x.list[0].key.bytes|
  {
    var b := x.list[0];
    var wire := x.wire + Piece(b.key, b.sent, b.sent + k);
    if k == Left(b) then Sending(x.list[1..], x.wbSize - k, wire, x.done + [b.(sent := |b.key.bytes|)])
    else Sending([b.(sent := b.sent + k)] + x.list[1..], x.wbSize - k, wire, x.done)
  }

  function Min(a: int, b: int): int {
    if a < b then a else b
  }

  /** send_list_tcp: write until the list is empty or a write comes back short. */
  function SendList(x: Sending, w: seq<Write>): Sent
    requires forall b :: b in x.list ==> b.sent <= |b.key.bytes|
    decreases |w|
  {
    if x.list == [] || w == [] then Sent(x, false, w)
    else
      match w[0]
      case Interrupted => SendList(x, w[1..])
      case Again => Sent(x, false, w[1..])
      case Broken => Sent(x, true, w[1..])
      case Wrote(n) =>
        var k := Min(n, Left(x.list[0]));
        var x' := Advance(x, k);
        if k != Left(x.list[0]) then Sent(x', false, w[1..]) else SendList(x', w[1..])
  }

  /** Buffers are freed. The first of them may have been written in part. */
  function GiveUp(s: Sock, q: seq<Buf>): Sock {
    if q != [] && q[0].sent > 0 then s.(done := s.done + [q[0]], dropped := q[1..] + s.dropped)
    else s.(dropped := q + s.dropped)
  }

  /** The first half of force_close, which needs no lock: both lists are freed. */
  function FreeLists(s: Sock): Sock {
    GiveUp(s, s.high + s.low).(high := [], low := [])
  }

  /** The second half, under the lock. */
  function Finish(s: Sock): Sock {
    GiveUp(s, Opt(s.dw)).(kind := Invalid, dw := None)
  }

  /** force_close by a thread that has the lock. */
  function Closed(s: Sock): Sock {
    if s.kind == Invalid then s else Finish(FreeLists(s))
  }

  /** The buffer that is being written. */
  function Partial(s: Sock): Option<Buf> {
    if s.dw.Some? then s.dw
    else if s.high != [] then Some(s.high[0])
    else if s.low != [] && s.low[0].sent != 0 then Some(s.low[0])
    else None
  }

  function WithHigh(s: Sock, x: Sending): Sock {
    s.(high := x.list, wbSize := x.wbSize, wire := x.wire, done := x.done)
  }

  function WithLow(s: Sock, x: Sending): Sock {
    s.(low := x.list, wbSize := x.wbSize, wire := x.wire, done := x.done)
  }

  /** The start of send_buffer: what a direct write left goes before everything else. */
  function Adopt(s: Sock): Sock {
    if s.dw.None? then s
    else s.(high := [s.dw.value] + s.high, wbSize := s.wbSize + Left(s.dw.value), dw := None)
  }

  function Raise(s: Sock): Sock
    requires s.low != []
  {
    s.(high := [s.low[0]], low := s.low[1..])
  }

  /** new_fd. */
  function Opened(s: Sock): Sock {
    s.(wbSize := 0, warnSize := 0, dw := None)
  }

  /** send_buffer once it has the lock. */
  function SendBuffer(s: Sock, w: seq<Write>): Sock
    requires Framed(s)
  {
    var s0 := Adopt(s);
    var r := SendList(Sending(s0.high, s0.wbSize, s0.wire, s0.done), w);
    var s1 := WithHigh(s0, r.state);
    if r.broken then Closed(s1)
    else if s1.high != [] then s1
    else SendLow(s1, r.rest)
  }

  /** Steps 2 to 4 of send_buffer_: the high list is empty. */
  function SendLow(s: Sock, w: seq<Write>): Sock
    requires forall b :: b in s.low ==> b.sent <= |b.key.bytes|
  {
    var r := SendList(Sending(s.low, s.wbSize, s.wire, s.done), w);
    var s2 := WithLow(s, r.state);
    if r.broken then Closed(s2)
    else if s2.low != [] && s2.low[0].sent != 0 then Raise(s2)
    else if s2.low != [] then s2
    else if s2.kind == HalfClose then Closed(s2)
    else s2.(warnSize := 0)
  }

  function AppendHigh(s: Sock, b: Buf): Sock {
    s.(high := s.high + [b], wbSize := s.wbSize + Left(b))
  }

  function AppendLow(s: Sock, b: Buf): Sock {
    s.(low := s.low + [b], wbSize := s.wbSize + Left(b))
  }

  /** Raises the warning level when the backlog has grown past it. */
  function Warned(s: Sock): Sock {
    if s.wbSize >= WARNING_SIZE && s.wbSize >= s.warnSize
    then s.(warnSize := if s.warnSize == 0 then WARNING_SIZE * 2 else s.warnSize * 2)
    else s
  }

  /** send_socket for a TCP socket: append by priority, or refuse. */
  function SendSocket(s: Sock, b: Buf): Sock {
    if s.kind == Accepted then s
    else if s.kind == Invalid || s.kind == HalfClose then s.(dropped := s.dropped + [b])
    else if (Empty(s) && s.kind == Connected) || b.key.prio == High then Warned(AppendHigh(s, b))
    else Warned(AppendLow(s, b))
  }

  /** A direct write of n bytes of a new buffer. */
  function DirectWrite(s: Sock, b: Buf, n: nat): Sock
    requires n <= |b.key.bytes|
  {
    var s' := s.(wire := s.wire + Piece(b.key, 0, n));
    if n == |b.key.bytes| then s'.(done := s.done + [b.(sent := n)]) else s'.(dw := Some(b.(sent := n)))
  }

  // ---------------------------------------------------------------- what always holds

  ghost predicate Fresh(l: seq<Buf>) {
    forall i :: 0 <= i < |l| ==> l[i].sent == 0
  }

  /** If a buffer is begun, it is not written in full. */
  ghost predicate InPart(b: Buf) {
    b.sent == 0 || b.sent < |b.key.bytes|
  }

  /** Only the first buffer in line may be on the wire in part. */
  ghost predicate Framed(s: Sock) {
    && Fresh(s.low)
    && (s.dw.Some? ==> Fresh(s.high) && InPart(s.dw.value))
    && (s.high != [] ==> Fresh(s.high[1..]) && InPart(s.high[0]))
  }

  ghost predicate Accounted(s: Sock) {
    InUse(s.kind) ==> s.wbSize == LeftAll(s.high) + LeftAll(s.low)
  }

  function Begun(b: Option<Buf>): seq<Mark> {
    if b.Some? then Piece(b.value.key, 0, b.value.sent) else []
  }

  /** The wire carries what is done with, one buffer after another, and then the beginning of one more. */
  ghost predicate Whole(s: Sock) {
    s.wire == Flat(s.done) + Begun(Partial(s))
  }

  ghost predicate Full(b: Buf) {
    b.sent == |b.key.bytes|
  }

  /** Given up when part of it had been written. */
  ghost predicate Stump(b: Buf) {
    0 < b.sent < |b.key.bytes|
  }

  ghost predicate AllFull(l: seq<Buf>) {
    forall i :: 0 <= i < |l| ==> Full(l[i])
  }

  ghost predicate Tidy(l: seq<Buf>) {
    forall i :: 0 <= i < |l| - 1 ==> Full(l[i])
  }

  ghost predicate Ended(l: seq<Buf>) {
    forall i :: 0 <= i < |l| ==> Full(l[i]) || Stump(l[i])
  }

  ghost predicate SockInv(s: Sock) {
    && Framed(s) && Accounted(s) && Whole(s) && Ended(s.done)
    && (s.kind == Invalid ==> Empty(s) && s.dw.None?)
    && (s.kind != Invalid ==> AllFull(s.done))
    && (s.kind == Reserved || s.kind == Accepted ==> Empty(s) && s.dw.None?)
    && (forall b :: b in s.low ==> b.key.prio == Low)
    && (s.dropped != [] ==> s.kind == Invalid || s.kind == HalfClose)
  }

  /** Between the two halves of a close. */
  ghost predicate ClosingInv(s: Sock) {
    && InUse(s.kind) && Empty(s) && (s.dw.Some? ==> InPart(s.dw.value)) && Whole(s) && Ended(s.done)
    && (s.kind == Accepted ==> s.dw.None?)
  }

  /** Every request the socket has been given, in the order it serves them. */
  ghost function Line(s: Sock): seq<Request> {
    Keys(s.done) + Keys(Opt(s.dw)) + Keys(s.high) + Keys(s.low) + Keys(s.dropped)
  }

  // ---------------------------------------------------------------- lists

  lemma KeysAppend(a: seq<Buf>, b: seq<Buf>)
    ensures Keys(a + b) == Keys(a) + Keys(b)
  {
  }

  lemma {:induction false} FlatAppend(a: seq<Buf>, b: seq<Buf>)
    ensures Flat(a + b) == Flat(a) + Flat(b)
  {
    if a == [] {
      assert a + b == b;
    } else {
      hide Piece;
      FlatAppend(a[1..], b);
      assert (a + b)[1..] == a[1..] + b;
      Assoc(Piece(a[0].key, 0, a[0].sent), Flat(a[1..]), Flat(b));
    }
  }

  lemma {:induction false} LeftAppend(a: seq<Buf>, b: seq<Buf>)
    ensures LeftAll(a + b) == LeftAll(a) + LeftAll(b)
  {
    if a == [] {
      assert a + b == b;
    } else {
      LeftAppend(a[1..], b);
      assert (a + b)[1..] == a[1..] + b;
    }
  }

  // ---------------------------------------------------------------- sending a list

  ghost predicate SendingInv(x: Sending, others: int) {
    && (x.list != [] ==> Fresh(x.list[1..]) && InPart(x.list[0])) && AllFull(x.done)
    && x.wbSize == LeftAll(x.list) + others
    && x.wire == Flat(x.done) + (if x.list == [] then [] else Begun(Some(x.list[0])))
  }

  lemma PieceSum(x: Request, m: nat, n: nat)
    requires m <= n
    ensures Piece(x, 0, m) + Piece(x, m, n) == Piece(x, 0, n)
  {
  }

  lemma AdvanceBytes(x: Sending, k: nat)
    requires x.list != [] && x.list[0].sent <= |x.list[0].key.bytes| && k <= Left(x.list[0])
    requires x.list[1..] == [] || x.list[1].sent == 0
    requires x.wire == Flat(x.done) + Begun(Some(x.list[0]))
    ensures var x' := Advance(x, k);
            x'.wire == Flat(x'.done) + if x'.list == [] then [] else Begun(Some(x'.list[0]))
  {
    var b, x' := x.list[0], Advance(x, k);
    var p, q := Piece(b.key, 0, b.sent), Piece(b.key, b.sent, b.sent + k);
    Assoc(Flat(x.done), p, q);
    PieceSum(b.key, b.sent, b.sent + k);
    assert x'.wire == Flat(x.done) + Piece(b.key, 0, b.sent + k);
    if k == Left(b) {
      FlatDone(x.done, b.(sent := |b.key.bytes|));
      assert x'.wire == Flat(x'.done);
    }
  }

  lemma FlatDone(done: seq<Buf>, b: Buf)
    ensures Flat(done + [b]) == Flat(done) + Piece(b.key, 0, b.sent)
  {
    FlatAppend(done, [b]);
    assert Flat([b]) == Piece(b.key, 0, b.sent) + Flat([b][1..]);
  }

  lemma AdvanceKeys(x: Sending, k: nat)
    requires x.list != [] && x.list[0].sent + k <= |x.list[0].key.bytes|
    ensures Keys(Advance(x, k).done) + Keys(Advance(x, k).list) == Keys(x.done) + Keys(x.list)
  {
    var b, rest := x.list[0], x.list[1..];
    assert x.list == [b] + rest;
    KeysAppend([b], rest);
    if k == Left(b) {
      var full := b.(sent := |b.key.bytes|);
      KeysAppend(x.done, [full]);
      assert Keys([full]) == Keys([b]);
      Assoc(Keys(x.done), Keys([b]), Keys(rest));
    } else {
      KeysAppend([b.(sent := b.sent + k)], rest);
      assert Keys([b.(sent := b.sent + k)]) == Keys([b]);
    }
  }

  lemma AdvanceKeeps(x: Sending, k: nat, others: int)
    requires SendingInv(x, others) && x.list != [] && k <= Left(x.list[0])
    ensures SendingInv(Advance(x, k), others)
    ensures Keys(Advance(x, k).done) + Keys(Advance(x, k).list) == Keys(x.done) + Keys(x.list)
    ensures x.wire <= Advance(x, k).wire
  {
    if x.list[1..] != [] {
      assert x.list[1] == x.list[1..][0];
    }
    AdvanceBytes(x, k);
    AdvanceKeys(x, k);
    if k != Left(x.list[0]) {
      assert Advance(x, k).list[1..] == x.list[1..];
    }
  }

  /** However the writes come back, the list is sent from the front, and byte and size accounts stay exact. */
  lemma {:induction false} SendListKeeps(x: Sending, w: seq<Write>, others: int)
    requires SendingInv(x, others)
    requires forall b :: b in x.list ==> b.sent <= |b.key.bytes|
    ensures SendingInv(SendList(x, w).state, others)
    ensures Keys(SendList(x, w).state.done) + Keys(SendList(x, w).state.list) == Keys(x.done) + Keys(x.list)
    ensures x.wire <= SendList(x, w).state.wire
    ensures forall b :: b in SendList(x, w).state.list && b.sent == 0 ==> b in x.list
    decreases |w|
  {
    if x.list != [] && w != [] {
      match w[0]
      case Interrupted => SendListKeeps(x, w[1..], others);
      case Again =>
      case Broken =>
      case Wrote(n) =>
        var k := Min(n, Left(x.list[0]));
        AdvanceKeeps(x, k, others);
        if k == Left(x.list[0]) {
          SendListKeeps(Advance(x, k), w[1..], others);
        }
    }
  }

  // ---------------------------------------------------------------- every routine keeps the invariant

  lemma AdoptKeeps(s: Sock)
    requires SockInv(s)
    ensures SockInv(Adopt(s)) && Line(Adopt(s)) == Line(s) && Adopt(s).dw.None? && Adopt(s).wire == s.wire
  {
    if s.dw.Some? {
      var b := s.dw.value;
      assert ([b] + s.high)[1..] == s.high;
      KeysAppend([b], s.high);
      Assoc(Keys(s.done), Keys([b]), Keys(s.high));
      LineParts(Adopt(s));
      assert Line(s) == (Keys(s.done) + Keys([b] + s.high)) + Keys(s.low) + Keys(s.dropped);
      Assoc(Keys(s.done) + Keys([b] + s.high), Keys(s.low), Keys(s.dropped));
    }
  }

  /** Buffers in line that are given up keep their place in it. */
  lemma GiveUpKeys(s: Sock, q: seq<Buf>)
    ensures Keys(GiveUp(s, q).done) + Keys(GiveUp(s, q).dropped) == Keys(s.done) + (Keys(q) + Keys(s.dropped))
  {
    if q != [] && q[0].sent > 0 {
      var r := q[1..];
      assert q == [q[0]] + r;
      KeysAppend([q[0]], r);
      KeysAppend(s.done, [q[0]]);
      KeysAppend(r, s.dropped);
      Assoc(Keys([q[0]]), Keys(r), Keys(s.dropped));
      Assoc(Keys(s.done), Keys([q[0]]), Keys(r) + Keys(s.dropped));
    } else {
      KeysAppend(q, s.dropped);
    }
  }

  lemma GiveUpWhole(s: Sock, q: seq<Buf>)
    requires Ended(s.done) && (q != [] ==> InPart(q[0]))
    requires s.wire == Flat(s.done) + if q == [] then [] else Begun(Some(q[0]))
    ensures GiveUp(s, q).wire == Flat(GiveUp(s, q).done) && Ended(GiveUp(s, q).done)
    ensures GiveUp(s, q).done == s.done || (q != [] && Stump(q[0]) && GiveUp(s, q).done == s.done + [q[0]])
  {
    if q != [] && q[0].sent > 0 {
      FlatDone(s.done, q[0]);
    }
  }

  lemma FreeListsKeeps(s: Sock)
    requires SockInv(s) && InUse(s.kind)
    ensures ClosingInv(FreeLists(s)) && FreeLists(s).wire == s.wire && FreeLists(s).dw == s.dw && FreeLists(s).kind == s.kind
    ensures FreeLists(s).done == s.done || (s.dw.None? && s.high != [] && Stump(s.high[0]) && FreeLists(s).done == s.done + [s.high[0]])
  {
    var q := s.high + s.low;
    if s.dw.None? {
      assert q != [] ==> InPart(q[0]) && (q[0].sent > 0 ==> s.high != [] && q[0] == s.high[0]);
      GiveUpWhole(s, q);
    } else {
      assert q != [] ==> q[0].sent == 0;
    }
  }

  lemma FinishKeeps(s: Sock)
    requires ClosingInv(s)
    ensures SockInv(Finish(s)) && Finish(s).wire == s.wire
    ensures Finish(s).done == s.done || (s.dw.Some? && Stump(s.dw.value) && Finish(s).done == s.done + [s.dw.value])
  {
    GiveUpWhole(s, Opt(s.dw));
  }

  lemma FreeListsLine(s: Sock)
    requires s.dw.Some? ==> Fresh(s.high + s.low)
    ensures Line(FreeLists(s)) == Line(s)
  {
    var q := s.high + s.low;
    GiveUpKeys(s, q);
    KeysAppend(s.high, s.low);
    var k, d, h, l, x := Keys(s.done), Keys(Opt(s.dw)), Keys(s.high), Keys(s.low), Keys(s.dropped);
    if s.dw.Some? {
      Assoc(k + d, h, l);
      Assoc(k + d, h + l, x);
      KeysAppend(q, s.dropped);
      assert k + d + [] + [] == k + d;
    } else {
      assert k + d == k;
      Assoc(k, h, l);
      Assoc(k, h + l, x);
      var k' := Keys(FreeLists(s).done);
      assert k' + [] + [] + [] == k';
    }
  }

  lemma FinishLine(s: Sock)
    requires Empty(s)
    ensures Line(Finish(s)) == Line(s)
  {
    GiveUpKeys(s, Opt(s.dw));
    var k, d, x, k' := Keys(s.done), Keys(Opt(s.dw)), Keys(s.dropped), Keys(Finish(s).done);
    Assoc(k, d, x);
    assert k + d + [] + [] == k + d && k' + [] + [] + [] == k';
  }

  /** The list that is being sent may have been begun, the low one too. */
  ghost predicate Breaking(s: Sock) {
    && InUse(s.kind) && Whole(s) && AllFull(s.done)
    && (s.dw.Some? ==> Fresh(s.high + s.low) && InPart(s.dw.value))
    && (s.dw.None? && s.high + s.low != [] ==> InPart((s.high + s.low)[0]))
    && (s.high != [] ==> Fresh(s.low))
    && (s.kind == Accepted ==> s.dw.None?)
  }

  lemma BreakingFreed(s: Sock)
    requires Breaking(s)
    ensures ClosingInv(FreeLists(s)) && FreeLists(s).wire == s.wire && FreeLists(s).dw == s.dw
    ensures Tidy(FreeLists(s).done) && (s.dw.Some? ==> FreeLists(s).done == s.done)
  {
    var q := s.high + s.low;
    if s.dw.None? {
      assert q != [] ==> q[0] == if s.high != [] then s.high[0] else s.low[0];
      assert q != [] && s.high == [] && q[0].sent == 0 ==> Begun(Some(q[0])) == [];
      GiveUpWhole(s, q);
    }
  }

  /** A close with the lock held the whole time. */
  lemma ClosedKeeps(s: Sock)
    requires Breaking(s)
    ensures SockInv(Closed(s)) && Line(Closed(s)) == Line(s) && Closed(s).wire == s.wire
    ensures Tidy(Closed(s).done)
  {
    BreakingFreed(s);
    FreeListsLine(s);
    var c := FreeLists(s);
    FinishLine(c);
    FinishKeeps(c);
    FinishTidy(s);
    hide *;
    ClosedIs(s);
  }

  lemma ClosedIs(s: Sock)
    requires s.kind != Invalid
    ensures Closed(s) == Finish(FreeLists(s))
  {
  }

  lemma FinishTidy(s: Sock)
    requires Breaking(s)
    ensures Tidy(Finish(FreeLists(s)).done)
  {
    BreakingFreed(s);
    if s.dw.None? {
      assert Opt(FreeLists(s).dw) == [];
    }
  }

  lemma RaiseLine(s: Sock)
    requires s.high == [] && s.low != []
    ensures Line(Raise(s)) == Line(s)
  {
    assert s.low == [s.low[0]] + s.low[1..];
    KeysAppend([s.low[0]], s.low[1..]);
  }

  /** With nothing left over from a direct write, the line is these four parts. */
  lemma LineParts(s: Sock)
    requires s.dw.None?
    ensures Line(s) == (Keys(s.done) + Keys(s.high)) + (Keys(s.low) + Keys(s.dropped))
    ensures s.high == [] ==> Line(s) == (Keys(s.done) + Keys(s.low)) + Keys(s.dropped)
  {
    assert Keys(s.done) + Keys(Opt(s.dw)) == Keys(s.done);
    Assoc(Keys(s.done) + Keys(s.high), Keys(s.low), Keys(s.dropped));
    if s.high == [] {
      assert Keys(s.done) + Keys(s.high) == Keys(s.done);
    }
  }

  /** Low-priority buffers are sent only behind an empty high list; one begun moves there to be finished. */
  lemma SendLowKeeps(s: Sock, w: seq<Write>)
    requires SockInv(s) && InUse(s.kind) && s.dw.None? && s.high == []
    ensures SockInv(SendLow(s, w)) && Line(SendLow(s, w)) == Line(s) && s.wire <= SendLow(s, w).wire && Tidy(SendLow(s, w).done)
  {
    var r := SendList(Sending(s.low, s.wbSize, s.wire, s.done), w);
    var s2 := WithLow(s, r.state);
    SendLowList(s, w);
    if r.broken {
      ClosedKeeps(s2);
    } else if s2.low != [] && s2.low[0].sent != 0 {
      RaiseLine(s2);
      assert s2.low == [s2.low[0]] + s2.low[1..];
    } else if s2.low == [] && s2.kind == HalfClose {
      ClosedKeeps(s2);
    }
  }

  /** The low list while it is being sent: like a socket's, but its first buffer may be begun. */
  lemma SendLowList(s: Sock, w: seq<Write>)
    requires SockInv(s) && InUse(s.kind) && s.dw.None? && s.high == []
    ensures var s2 := WithLow(s, SendList(Sending(s.low, s.wbSize, s.wire, s.done), w).state);
            && Line(s2) == Line(s) && s.wire <= s2.wire && Whole(s2) && Accounted(s2)
            && (s2.low != [] ==> Fresh(s2.low[1..]) && InPart(s2.low[0])) && AllFull(s2.done)
            && (forall b :: b in s2.low ==> b.key.prio == Low)
  {
    var x := Sending(s.low, s.wbSize, s.wire, s.done);
    assert s.low != [] ==> s.low[0].sent == 0;
    SendListKeeps(x, w, 0);
    SendLowPrio(x, w);
    LineParts(s);
    LineParts(WithLow(s, SendList(x, w).state));
  }

  lemma {:induction false} SendLowPrio(x: Sending, w: seq<Write>)
    requires forall b :: b in x.list ==> b.sent <= |b.key.bytes|
    requires forall b :: b in x.list ==> b.key.prio == Low
    ensures forall b :: b in SendList(x, w).state.list ==> b.key.prio == Low
    decreases |w|
  {
    if x.list != [] && w != [] {
      match w[0]
      case Interrupted => SendLowPrio(x, w[1..]);
      case Again =>
      case Broken =>
      case Wrote(n) =>
        var x' := Advance(x, Min(n, Left(x.list[0])));
        if n >= Left(x.list[0]) {
          SendLowPrio(x', w[1..]);
        }
    }
  }

  /** However the writes come back: no byte lost, none repeated, and the order of the requests is kept. */
  lemma SendBufferKeeps(s: Sock, w: seq<Write>)
    requires SockInv(s) && InUse(s.kind)
    ensures SockInv(SendBuffer(s, w)) && Line(SendBuffer(s, w)) == Line(s) && s.wire <= SendBuffer(s, w).wire
    ensures Tidy(SendBuffer(s, w).done)
  {
    AdoptKeeps(s);
    var s0 := Adopt(s);
    var x := Sending(s0.high, s0.wbSize, s0.wire, s0.done);
    var r := SendList(x, w);
    var s1 := WithHigh(s0, r.state);
    SendHighKeeps(s0, w);
    if r.broken {
      ClosedKeeps(s1);
    } else if s1.high == [] {
      SendLowKeeps(s1, r.rest);
    }
  }

  lemma SendHighKeeps(s: Sock, w: seq<Write>)
    requires SockInv(s) && InUse(s.kind) && s.dw.None?
    ensures var s' := WithHigh(s, SendList(Sending(s.high, s.wbSize, s.wire, s.done), w).state);
            SockInv(s') && Line(s') == Line(s) && s.wire <= s'.wire
  {
    var x := Sending(s.high, s.wbSize, s.wire, s.done);
    SendListKeeps(x, w, LeftAll(s.low));
    LineParts(s);
    LineParts(WithHigh(s, SendList(x, w).state));
  }

  /** Both lists empty after sending means nothing is left to count: the assertion at step 4. */
  lemma EmptyMeansZero(s: Sock)
    requires SockInv(s) && InUse(s.kind) && Empty(s)
    ensures s.wbSize == 0
  {
  }

  /** A request joins the end of its class: it overtakes low-priority requests at most. */
  lemma SendSocketLine(s: Sock, b: Buf)
    requires SockInv(s) && s.kind != Reserved && s.kind != Accepted
    ensures (s.kind == Connecting || s.kind == Connected) && b.key.prio == High ==>
      Line(SendSocket(s, b)) ==
        Keys(s.done) + Keys(Opt(s.dw)) + Keys(s.high) + [b.key] + Keys(s.low) + Keys(s.dropped)
    ensures !((s.kind == Connecting || s.kind == Connected) && b.key.prio == High) ==>
      Line(SendSocket(s, b)) == Line(s) + [b.key]
  {
    var front := Keys(s.done) + Keys(Opt(s.dw));
    assert Keys([b]) == [b.key];
    if s.kind == Invalid || s.kind == HalfClose {
      KeysAppend(s.dropped, [b]);
      Assoc(front + Keys(s.high) + Keys(s.low), Keys(s.dropped), [b.key]);
    } else if b.key.prio == High {
      KeysAppend(s.high, [b]);
      Assoc(front, Keys(s.high), [b.key]);
    } else if Empty(s) && s.kind == Connected {
      assert s.high + [b] == [b];
      assert front + [] == front;
      assert front + [b.key] + [] == front + [b.key];
    } else {
      KeysAppend(s.low, [b]);
      Assoc(front + Keys(s.high), Keys(s.low), [b.key]);
      assert s.dropped == [];
      assert front + Keys(s.high) + Keys(s.low) + [] == front + Keys(s.high) + Keys(s.low);
    }
  }

  lemma AppendHighKeeps(s: Sock, b: Buf)
    requires SockInv(s) && InUse(s.kind) && s.kind != Accepted && b.sent == 0
    ensures SockInv(AppendHigh(s, b))
  {
    LeftAppend(s.high, [b]);
    assert LeftAll([b]) == Left(b) + LeftAll([b][1..]);
    var s' := AppendHigh(s, b);
    if s.high == [] {
      assert s'.high == [b];
    } else {
      assert s'.high[0] == s.high[0] && s'.high[1..] == s.high[1..] + [b];
    }
    assert Begun(Partial(s')) == Begun(Partial(s));
  }

  lemma AppendLowKeeps(s: Sock, b: Buf)
    requires SockInv(s) && InUse(s.kind) && s.kind != Accepted && b.sent == 0 && b.key.prio == Low
    ensures SockInv(AppendLow(s, b))
  {
    LeftAppend(s.low, [b]);
    assert LeftAll([b]) == Left(b) + LeftAll([b][1..]);
  }

  /** new_fd leaves the slot in order, and its assertions that both lists are empty hold. */
  lemma OpenedKeeps(s: Sock)
    requires SockInv(s) && s.kind == Reserved
    ensures SockInv(Opened(s)) && Opened(s).wbSize == 0 && Line(Opened(s)) == Line(s)
    ensures s.high == [] && s.low == [] && s.dw.None?
  {
    assert Partial(Opened(s)) == Partial(s);
  }

  lemma TypedKeeps(s: Sock, kind: Kind)
    requires SockInv(s) && s.kind == Reserved && s.wbSize == 0 && InUse(kind)
    ensures SockInv(s.(kind := kind))
  {
    assert Partial(s.(kind := kind)) == Partial(s);
    assert LeftAll([]) == 0;
  }

  lemma FailedKeeps(s: Sock)
    requires SockInv(s) && s.kind == Reserved
    ensures SockInv(s.(kind := Invalid))
  {
    assert Partial(s.(kind := Invalid)) == Partial(s);
    assert AllFull(s.done) ==> Ended(s.done);
  }

  lemma WarnedKeeps(s: Sock)
    requires SockInv(s)
    ensures SockInv(Warned(s)) && Warned(s).wire == s.wire && Warned(s).done == s.done && Warned(s).dw == s.dw
  {
    assert Partial(Warned(s)) == Partial(s);
  }

  lemma RefusedKeeps(s: Sock, b: Buf)
    requires SockInv(s) && (s.kind == Invalid || s.kind == HalfClose)
    ensures SockInv(s.(dropped := s.dropped + [b]))
  {
    assert Partial(s.(dropped := s.dropped + [b])) == Partial(s);
  }

  lemma SendSocketKeeps(s: Sock, b: Buf)
    requires SockInv(s) && s.kind != Reserved && b.sent == 0
    ensures SockInv(SendSocket(s, b)) && SendSocket(s, b).wire == s.wire && SendSocket(s, b).done == s.done
    ensures SendSocket(s, b).dw == s.dw
  {
    hide SockInv, Warned;
    if s.kind == Connecting || s.kind == Connected {
      AppendHighKeeps(s, b);
      WarnedKeeps(AppendHigh(s, b));
      if b.key.prio == Low {
        AppendLowKeeps(s, b);
        WarnedKeeps(AppendLow(s, b));
      }
    } else if s.kind != Accepted {
      RefusedKeeps(s, b);
    }
  }

  /** A direct write finds nothing begun before it, so what it leaves unsent is the first thing to send. */
  lemma DirectWriteKeeps(s: Sock, b: Buf, n: nat)
    requires SockInv(s) && InUse(s.kind) && s.kind != Accepted && n <= |b.key.bytes|
    requires s.dw.None? && Fresh(s.high)
    ensures SockInv(DirectWrite(s, b, n)) && s.wire <= DirectWrite(s, b, n).wire
  {
    DirectWriteWhole(s, b, n);
  }

  lemma DirectWriteWhole(s: Sock, b: Buf, n: nat)
    requires Whole(s) && Ended(s.done) && n <= |b.key.bytes| && s.dw.None? && Fresh(s.high) && Fresh(s.low)
    ensures Whole(DirectWrite(s, b, n)) && Ended(DirectWrite(s, b, n).done)
  {
    assert s.high != [] ==> s.high[0].sent == 0;
    assert s.low != [] ==> s.low[0].sent == 0;
    assert Begun(Partial(s)) == [];
    FlatDone(s.done, b.(sent := n));
  }

  /** The same between the two halves of a close. */
  lemma DirectWriteClosing(s: Sock, b: Buf, n: nat)
    requires ClosingInv(s) && s.kind != Accepted && n <= |b.key.bytes| && s.dw.None?
    ensures ClosingInv(DirectWrite(s, b, n))
  {
    DirectWriteWhole(s, b, n);
  }

  lemma DirectWriteLine(s: Sock, b: Buf, n: nat)
    requires s.dw.None? && n <= |b.key.bytes|
    ensures Line(DirectWrite(s, b, n)) == Keys(s.done) + [b.key] + Keys(s.high) + Keys(s.low) + Keys(s.dropped)
  {
    var b' := b.(sent := n);
    KeysAppend(s.done, [b']);
    assert Keys([b']) == [b.key];
    assert Keys(s.done + [b']) + [] == Keys(s.done) + [b.key];
  }

  // ---------------------------------------------------------------- the loops themselves

  /** A new socket is in order. */
  lemma EmptyInv(s: Sock)
    requires s.kind != Invalid && Empty(s) && s.dw.None? && (s.kind == Reserved || s.wbSize == 0)
    requires s.wire == [] && s.done == [] && s.dropped == []
    ensures SockInv(s)
  {
    assert LeftAll(s.high) == 0 && LeftAll(s.low) == 0;
    assert Partial(s) == None && Flat(s.done) == [];
    assert Whole(s);
  }

  /** The fields of `struct socket` that the socket thread's send path uses. */
  class Socket {
    var kind: Kind
    var high: seq<Buf>
    var low: seq<Buf>
    var wbSize: int
    var warnSize: nat
    var dw: Option<Buf>
    ghost var wire: seq<Mark>
    ghost var done: seq<Buf>
    ghost var dropped: seq<Buf>

    ghost function Abs(): Sock
      reads this
    {
      Sock(kind, high, low, wbSize, warnSize, dw, wire, done, dropped)
    }

    /** reserve_id, on a slot where `size` and `warn` are left from the socket that was in it before. */
    constructor (size: int, warn: nat)
      ensures Abs() == Sock(Reserved, [], [], size, warn, None, [], [], []) && SockInv(Abs())
    {
      kind, high, low, wbSize, warnSize, dw := Reserved, [], [], size, warn, None;
      wire, done, dropped := [], [], [];
      new;
      EmptyInv(Abs());
    }

    /** new_fd: its assertions that both lists are empty hold. */
    method NewFd()
      requires SockInv(Abs()) && kind == Reserved
      modifies this
      ensures Abs() == Opened(old(Abs()))
    {
      wbSize, warnSize := 0, 0;
      assert high == [] && low == [];
      dw := None;
    }

    /** send_list_tcp on either list; the results of write() come in as `w`. */
    method SendListTcp(list: seq<Buf>, w: seq<Write>) returns (rest: seq<Buf>, broken: bool, w': seq<Write>)
      requires forall b :: b in list ==> b.sent <= |b.key.bytes|
      modifies this`wbSize, this`wire, this`done
      ensures SendList(Sending(list, old(wbSize), old(wire), old(done)), w) == Sent(Sending(rest, wbSize, wire, done), broken, w')
    {
      rest, w' := list, w;
      while rest != []
        invariant forall b :: b in rest ==> b.sent <= |b.key.bytes|
        invariant SendList(Sending(list, old(wbSize), old(wire), old(done)), w) == SendList(Sending(rest, wbSize, wire, done), w')
        decreases |w'|, |rest|
      {
        ghost var left := |w'|;
        while w' != [] && w'[0].Interrupted?
          modifies {}
          invariant SendList(Sending(list, old(wbSize), old(wire), old(done)), w) == SendList(Sending(rest, wbSize, wire, done), w')
          invariant |w'| <= left
          decreases |w'|
        {
          w' := w'[1..];
        }
        if w' == [] || w'[0].Again? {
          return rest, false, if w' == [] then [] else w'[1..];
        }
        if w'[0].Broken? {
          return rest, true, w'[1..];
        }
        var b := rest[0];
        var k := Min(w'[0].n, |b.key.bytes| - b.sent);
        wire := wire + Piece(b.key, b.sent, b.sent + k);
        wbSize := wbSize - k;
        w' := w'[1..];
        if k != |b.key.bytes| - b.sent {
          rest := [b.(sent := b.sent + k)] + rest[1..];
          return rest, false, w';
        }
        done := done + [b.(sent := |b.key.bytes|)];
        rest := rest[1..];
      }
      broken := false;
    }

    /** What is freed: a buffer that is on the wire in part ends there. */
    ghost method Lose(q: seq<Buf>)
      modifies this`done, this`dropped
      ensures Abs() == GiveUp(old(Abs()), q)
    {
      if q != [] && q[0].sent > 0 {
        done, dropped := done + [q[0]], q[1..] + dropped;
      } else {
        dropped := q + dropped;
      }
    }

    /** free_wb_list on both lists. */
    method FreeWriteLists()
      modifies this
      ensures Abs() == FreeLists(old(Abs()))
    {
      Lose(high + low);
      high, low := [], [];
    }

    /** The part of force_close under the lock. */
    method FinishClose()
      modifies this
      ensures Abs() == Finish(old(Abs()))
    {
      Lose(Opt(dw));
      kind := Invalid;
      if dw.Some? {
        dw := None;
      }
    }

    method ForceClose()
      modifies this
      ensures Abs() == Closed(old(Abs()))
    {
      if kind == Invalid {
        return;
      }
      FreeWriteLists();
      FinishClose();
    }

    /** Moves the head of the low list, sent in part, to the empty high list. */
    method RaiseUncomplete()
      requires low != [] && high == []
      modifies this`high, this`low
      ensures Abs() == Raise(old(Abs()))
    {
      var tmp := low[0];
      low := low[1..];
      assert high == [];
      high := [tmp];
    }

    /** send_buffer_: its assertions hold, and it does what SendBuffer says once dw_buffer is adopted. */
    method SendBoth(w: seq<Write>)
      requires SockInv(Abs()) && InUse(kind) && dw.None?
      modifies this
      ensures Abs() == SendBuffer(old(Abs()), w)
    {
      assert !(low != [] && low[0].sent != 0);
      SendBufferIs(Abs(), w);
      hide SockInv, SendList, SendLow, SendBuffer, Closed, Framed;
      var h, broken, w1 := SendListTcp(high, w);
      high := h;
      assert Abs() == WithHigh(old(Abs()), Sending(high, wbSize, wire, done));
      if broken {
        ForceClose();
      } else if high == [] {
        SendRest(w1);
      }
    }

    method SendRest(w: seq<Write>)
      requires SockInv(Abs()) && InUse(kind) && dw.None? && high == []
      modifies this
      ensures Abs() == SendLow(old(Abs()), w)
    {
      SendLowSizes(Abs(), w);
      if low != [] {
        var l, broken, w' := SendListTcp(low, w);
        low := l;
        if broken {
          ForceClose();
          return;
        }
        if low != [] && low[0].sent != 0 {
          RaiseUncomplete();
          return;
        }
        if low != [] {
          return;
        }
      }
      assert high == [] && low == [] && wbSize == 0;
      if kind == HalfClose {
        ForceClose();
        return;
      }
      if warnSize > 0 {
        warnSize := 0;
      }
    }

    /** send_buffer, once it has taken the lock. */
    method Flush(w: seq<Write>)
      requires SockInv(Abs()) && InUse(kind)
      modifies this
      ensures Abs() == SendBuffer(old(Abs()), w) && SockInv(Abs())
    {
      ghost var s := Abs();
      SendBufferKeeps(s, w);
      AdoptKeeps(s);
      AdoptOnce(s, w);
      if dw.Some? {
        wbSize := wbSize + Left(dw.value);
        high := [dw.value] + high;
        dw := None;
      }
      assert Abs() == Adopt(s);
      SendBoth(w);
    }

    /** send_socket, up to the pipe's side: the request is refused, or appended by priority. */
    method Accept(req: Request)
      modifies this
      ensures Abs() == SendSocket(old(Abs()), Buf(req, 0))
    {
      if kind == Accepted {
        return;
      }
      var b := Buf(req, 0);
      if kind == Invalid || kind == HalfClose {
        dropped := dropped + [b];
        return;
      }
      if high == [] && low == [] && kind == Connected {
        high := high + [b];
      } else if req.prio == Low {
        low := low + [b];
      } else {
        high := high + [b];
      }
      wbSize := wbSize + |req.bytes|;
      if wbSize >= WARNING_SIZE && wbSize >= warnSize {
        warnSize := if warnSize == 0 then WARNING_SIZE * 2 else warnSize * 2;
      }
    }
  }

  lemma AdoptOnce(s: Sock, w: seq<Write>)
    requires SockInv(s)
    ensures Framed(Adopt(s)) && SendBuffer(Adopt(s), w) == SendBuffer(s, w)
  {
    AdoptKeeps(s);
  }

  lemma SendBufferIs(s: Sock, w: seq<Write>)
    requires SockInv(s) && InUse(s.kind) && s.dw.None?
    ensures Framed(s) && forall b :: b in s.high ==> b.sent <= |b.key.bytes|
    ensures var r := SendList(Sending(s.high, s.wbSize, s.wire, s.done), w);
            var s1 := WithHigh(s, r.state);
            && SockInv(s1) && Framed(s1)
            && SendBuffer(s, w) == if r.broken then Closed(s1) else if r.state.list != [] then s1 else SendLow(s1, r.rest)
  {
    SendHighKeeps(s, w);
  }

  lemma SendLowSizes(s: Sock, w: seq<Write>)
    requires SockInv(s) && InUse(s.kind) && s.dw.None? && s.high == []
    ensures var r := SendList(Sending(s.low, s.wbSize, s.wire, s.done), w); r.state.list == [] ==> r.state.wbSize == 0
  {
    assert s.low != [] ==> s.low[0].sent == 0;
    SendListKeeps(Sending(s.low, s.wbSize, s.wire, s.done), w, 0);
  }
}
