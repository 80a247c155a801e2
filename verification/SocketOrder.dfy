/**
  Any number of threads sending on one TCP socket while the socket thread serves the command
  pipe and the write lists, and may close the socket (socket_server.c). One step is one read or
  atomic update, one section under `dw_lock`, or one message through the pipe.

  `can_direct_write` is five reads, made twice: without the lock, and again with it. A close that
  does not begin under the lock frees the lists first and takes the lock then.

  A run begins when the slot is reserved. Callers know the id once the request to open the socket is
  in the pipe, so they may send before it has been served; until new_fd sets the protocol nothing
  is counted in `sending`.
 */
module SocketOrder {
  import opened Common
  import opened SocketSend

  datatype Pc =
    | Begin                                   // about to look whether the socket is open
    | Peeking(k: int)                         // k reads of the first check have passed
    | Trying                                  // about to try dw_lock
    | Looking(k: int)                         // has dw_lock; k reads of the second check have passed
    | Direct(ticket: int, passed: set<int>)   // the second check passed: about to write
    | Unlocking                               // the second check failed
    | Queueing                                // about to count itself in `sending`
    | Posting                                 // through inc_sending_ref: about to write to the pipe

  /** One call of socket_server_send or socket_server_send_lowpriority; `ret` is when it returned. */
  datatype Call = Call(bytes: Bytes, prio: Priority, start: int, ticket: Option<int>, passed: set<int>, ret: Option<int>)

  datatype Net = Net(
    sock: Sock,
    pipe: seq<Buf>,
    tcp: bool,                // the protocol has been set
    sending: int,             // s->sending & 0xffff
    lock: Option<int>,        // who holds dw_lock, if it is a caller
    pcs: map<int, Pc>,
    serving: bool,            // the socket thread is between send_socket and dec_sending_ref
    closing: bool,            // it has freed the lists in force_close and has not got dw_lock yet
    refused: set<int>,        // calls whose requests came to a socket that had not been started
    uncounted: set<int>,      // calls that passed inc_sending_ref before the protocol was set
    aborted: bool,            // the assertion in dec_sending_ref has failed
    calls: map<int, Call>,
    now: int)

  datatype Step =
    | Start(t: int, bytes: Bytes, prio: Priority)
    | Refuse(t: int)
    | Enter(t: int)
    | Peek(t: int)
    | TryLock(t: int)
    | Skip(t: int)
    | Look(t: int)
    | Write(t: int, n: nat)
    | Unlock(t: int)
    | Inc(t: int)
    | Post(t: int)
    | Serve
    | Dec
    | Flush(w: seq<SocketSend.Write>)
    | NewFd
    | Type(kind: Kind)
    | Fail
    | Open
    | Connect
    | Shut
    | Free
    | Close

  const MAX_SENDING := 0xffff

  /** The reads of can_direct_write. */
  const READS := 5

  function RequestOf(n: Net, t: int, ticket: int, passed: set<int>): Request
    requires t in n.calls
  {
    Request(t, n.calls[t].prio, ticket, passed, n.calls[t].bytes)
  }

  /** What read number k of can_direct_write has to find: both lists, dw_buffer, sending, type. */
  predicate Sees(n: Net, k: int) {
    match k
    case 0 => n.sock.high == []
    case 1 => n.sock.low == []
    case 2 => n.sock.dw.None?
    case 3 => n.sending == 0
    case _ => n.sock.kind == Connected
  }

  /** All of can_direct_write at one moment. */
  predicate CanDirect(n: Net) {
    forall k :: 0 <= k < READS ==> Sees(n, k)
  }

  ghost predicate At(n: Net, t: int, pc: Pc) {
    t in n.pcs && t in n.calls && n.pcs[t] == pc
  }

  ghost predicate Enabled(n: Net, step: Step) {
    && !n.aborted
    && match step
       case Start(t, bytes, prio) => t !in n.calls && t !in n.pcs
       case Refuse(t) => At(n, t, Begin) && n.sock.kind == Invalid
       case Enter(t) => At(n, t, Begin) && n.sock.kind != Invalid
       case Peek(t) => t in n.pcs && n.pcs[t].Peeking? && t in n.calls
       case TryLock(t) => At(n, t, Trying) && n.lock == None
       case Skip(t) => At(n, t, Trying)
       case Look(t) => t in n.pcs && n.pcs[t].Looking? && t in n.calls
       case Write(t, k) => t in n.pcs && n.pcs[t].Direct? && t in n.calls && k <= |n.calls[t].bytes|
       case Unlock(t) => At(n, t, Unlocking)
       case Inc(t) => At(n, t, Queueing) && (n.tcp ==> n.sending < MAX_SENDING)
       case Post(t) => At(n, t, Posting)
       case Serve => n.pipe != [] && Idle(n) && n.sock.kind != Reserved
       case Dec => n.serving
       case Flush(w) => Idle(n) && n.lock == None && InUse(n.sock.kind) && Framed(n.sock)
       case NewFd => n.sock.kind == Reserved && !n.tcp
       case Type(k) => n.sock.kind == Reserved && n.tcp && (k == Accepted || k == Connecting || k == Connected)
       case Fail => n.sock.kind == Reserved && !n.tcp
       case Open => Idle(n) && n.sock.kind == Accepted
       case Connect => Idle(n) && n.sock.kind == Connecting
       case Shut => Idle(n) && InUse(n.sock.kind) && n.sock.kind != HalfClose
       case Free => Idle(n) && InUse(n.sock.kind)
       case Close => n.closing && n.lock == None
  }

  /** The socket thread is not in the middle of something. */
  predicate Idle(n: Net) {
    !n.serving && !n.closing
  }

  /** A call is over: it returned at this moment. */
  function Returned(n: Net, t: int, ticket: Option<int>): Net
    requires t in n.calls
  {
    n.(pcs := n.pcs - {t}, calls := n.calls[t := n.calls[t].(ticket := ticket, ret := Some(n.now))])
  }

  /** A caller goes on to another place. */
  function Goto(n: Net, t: int, pc: Pc): Net {
    n.(pcs := n.pcs[t := pc])
  }

  ghost function CallsIn(r: seq<Request>): set<int> {
    set x | x in r :: x.call
  }

  /** Calls whose messages are on the wire in part and will never be there in full. */
  ghost function Stumps(l: seq<Buf>): set<int> {
    set b | b in l && Stump(b) :: b.key.call
  }

  /** What waits for the socket thread, or was given up. */
  ghost function Waiting(n: Net): set<int> {
    CallsIn(Back(n.sock) + Keys(n.pipe)) + Stumps(n.sock.done)
  }

  /** The second check has passed: the call takes its turn. */
  ghost function Granted(n: Net, t: int): Net
    requires t in n.calls
  {
    Goto(n.(calls := n.calls[t := n.calls[t].(ticket := Some(n.now), passed := Waiting(n))]), t, Direct(n.now, Waiting(n)))
  }

  ghost function Act(n: Net, step: Step): Net
    requires Enabled(n, step)
  {
    match step
    case Start(t, bytes, prio) => Goto(n.(calls := n.calls[t := Call(bytes, prio, n.now, None, {}, None)]), t, Begin)
    case Refuse(t) => Returned(n, t, None)
    case Enter(t) => Goto(n, t, if n.calls[t].prio == High then Peeking(0) else Queueing)
    case Peek(t) =>
      var k := n.pcs[t].k;
      Goto(n, t, if !Sees(n, k) then Queueing else if k + 1 < READS then Peeking(k + 1) else Trying)
    case TryLock(t) => Goto(n.(lock := Some(t)), t, Looking(0))
    case Skip(t) => Goto(n, t, Queueing)
    case Look(t) =>
      var k := n.pcs[t].k;
      if !Sees(n, k) then Goto(n, t, Unlocking) else if k + 1 < READS then Goto(n, t, Looking(k + 1)) else Granted(n, t)
    case Write(t, k) =>
      var x := RequestOf(n, t, n.pcs[t].ticket, n.pcs[t].passed);
      Returned(n.(sock := DirectWrite(n.sock, Buf(x, 0), k), lock := None), t, Some(n.pcs[t].ticket))
    case Unlock(t) => Goto(n.(lock := None), t, Queueing)
    case Inc(t) => Goto(Through(n, t), t, Posting)
    case Post(t) => Returned(n.(pipe := n.pipe + [Buf(RequestOf(n, t, n.now, {}), 0)]), t, Some(n.now))
    case Serve => Served(n)
    case Dec => Done(n)
    case Flush(w) => n.(sock := SendBuffer(n.sock, w))
    case NewFd => n.(sock := Opened(n.sock), tcp := true, sending := 0)
    case Type(k) => n.(sock := n.sock.(kind := k))
    case Fail => n.(sock := n.sock.(kind := Invalid))
    case Open => n.(sock := n.sock.(kind := Connected))
    case Connect => n.(sock := n.sock.(kind := Connected))
    case Shut => n.(sock := n.sock.(kind := HalfClose))
    case Free => n.(sock := FreeLists(n.sock), closing := true)
    case Close => n.(sock := Finish(n.sock), closing := false)
  }

  /** inc_sending_ref. */
  function Through(n: Net, t: int): Net {
    if n.tcp then n.(sending := n.sending + 1) else n.(uncounted := n.uncounted + {t})
  }

  /** dec_sending_ref. */
  function Done(n: Net): Net {
    if !n.tcp then n.(serving := false)
    else if n.sending == 0 then n.(aborted := true)
    else n.(sending := n.sending - 1, serving := false)
  }

  /** A request out of the pipe: to a list, or refused. */
  ghost function Served(n: Net): Net
    requires n.pipe != []
  {
    n.(sock := SendSocket(n.sock, n.pipe[0]), pipe := n.pipe[1..], serving := true,
       refused := if n.sock.kind == Accepted then n.refused + {n.pipe[0].key.call} else n.refused)
  }

  /** Every step takes a moment. */
  ghost function Apply(n: Net, step: Step): Net
    requires Enabled(n, step)
  {
    Act(n, step).(now := n.now + 1)
  }

  /** A slot that has just been reserved; the counter and the sizes are left from the socket before. */
  ghost predicate Init(n: Net) {
    && n.sock == Sock(Reserved, [], [], n.sock.wbSize, n.sock.warnSize, None, [], [], [])
    && n.pipe == [] && !n.tcp && n.sending >= 0 && n.lock == None && n.pcs == map[]
    && !n.serving && !n.closing && n.refused == {} && n.uncounted == {} && !n.aborted && n.calls == map[]
  }

  ghost predicate Follows(tr: seq<Net>, steps: seq<Step>, i: nat)
    requires i < |steps| < |tr|
  {
    Enabled(tr[i], steps[i]) && tr[i + 1] == Apply(tr[i], steps[i])
  }

  ghost predicate Run(tr: seq<Net>, steps: seq<Step>) {
    && |tr| == |steps| + 1
    && Init(tr[0])
    && forall i :: 0 <= i < |steps| ==> Follows(tr, steps, i)
  }

  // ---------------------------------------------------------------- the order

  /** What has left the socket thread's hands, or will as soon as it takes the lock. */
  ghost function Front(s: Sock): seq<Request> {
    Keys(s.done) + Keys(Opt(s.dw))
  }

  ghost function Back(s: Sock): seq<Request> {
    Keys(s.high) + Keys(s.low) + Keys(s.dropped)
  }

  /** The caller that is about to write directly. */
  ghost function Writer(n: Net): seq<Request> {
    if n.lock.Some? && n.lock.value in n.pcs && n.pcs[n.lock.value].Direct? && n.lock.value in n.calls
    then [RequestOf(n, n.lock.value, n.pcs[n.lock.value].ticket, n.pcs[n.lock.value].passed)] else []
  }

  /** Every request that has taken its turn, in the order the wire will see them. */
  ghost function Row(n: Net): seq<Request> {
    Front(n.sock) + Writer(n) + Back(n.sock) + Keys(n.pipe)
  }

  ghost function Lead(n: Net): nat {
    |Front(n.sock)| + |Writer(n)|
  }

  /** Only a high-priority request may pass, and only low-priority ones. */
  predicate MayPass(x: Request, y: Request) {
    x.prio == High && y.prio == Low
  }

  /**
    Two requests in a row that begins with the buffers `done` and of which the first m are written,
    or will be before anything else. One stands before an earlier one only if it may, or went past
    it when it was granted; and what stands before one that went past it is a stump.
   */
  ghost predicate PairOK(r: seq<Request>, done: seq<Buf>, m: int, i: int, j: int) {
    0 <= i < j < |r| ==>
      && r[i].call != r[j].call
      && (MayPass(r[i], r[j]) || r[i].ticket < r[j].ticket || r[j].call in r[i].passed)
      && (r[i].call in r[j].passed ==> i < |done| && Stump(done[i]))
      && (i < |done| && Stump(done[i]) && j < m ==> r[i].call in r[j].passed)
  }

  ghost predicate RowInv(r: seq<Request>, done: seq<Buf>, m: int) {
    forall i, j {:trigger PairOK(r, done, m, i, j)} :: PairOK(r, done, m, i, j)
  }

  ghost predicate Before(r: seq<Request>, now: int) {
    forall i :: 0 <= i < |r| ==> r[i].ticket < now
  }

  /** The request of a call that has taken its turn. */
  ghost function Made(calls: map<int, Call>, t: int): Request
    requires t in calls && calls[t].ticket.Some?
  {
    Request(t, calls[t].prio, calls[t].ticket.value, calls[t].passed, calls[t].bytes)
  }

  ghost predicate Known(calls: map<int, Call>, x: Request) {
    && x.call in calls && calls[x.call].ticket.Some? && x == Made(calls, x.call)
    && (forall c :: c in x.passed ==> c in calls && calls[c].ticket.Some?)
    && (x.prio == Low ==> x.passed == {})
  }

  /** The requests in the row are those of the calls that have a ticket, but for the refused. */
  ghost predicate Matches(calls: map<int, Call>, refused: set<int>, r: seq<Request>) {
    && (forall t :: t in calls && calls[t].ticket.Some? && t !in refused ==> Made(calls, t) in r)
    && (forall i :: 0 <= i < |r| ==> Known(calls, r[i]) && r[i].call !in refused)
    && (forall c :: c in refused ==> c in calls && calls[c].ticket.Some?)
  }

  ghost predicate Ordered(n: Net) {
    RowInv(Row(n), n.sock.done, Lead(n)) && Before(Row(n), n.now) && Matches(n.calls, n.refused, Row(n))
  }

  ghost function PostingSet(pcs: map<int, Pc>): set<int> {
    set t | t in pcs && pcs[t] == Posting
  }

  ghost predicate UnderLock(pc: Pc) {
    pc.Looking? || pc.Direct? || pc.Unlocking?
  }

  ghost predicate CallsInv(n: Net) {
    && (forall t :: t in n.pcs ==> t in n.calls && n.calls[t].ret == None)
    && (forall t :: t in n.calls && t !in n.pcs ==> n.calls[t].ret.Some?)
    && (forall t :: t in n.pcs && n.pcs[t].Direct? ==>
          n.calls[t].ticket == Some(n.pcs[t].ticket) && n.calls[t].passed == n.pcs[t].passed)
    && (forall t :: t in n.pcs && !n.pcs[t].Direct? ==> n.calls[t].ticket == None && n.calls[t].passed == {})
    && (forall t :: t in n.pcs && ForHigh(n.pcs[t]) ==> n.calls[t].prio == High)
    && (forall t :: t in n.pcs && UnderLock(n.pcs[t]) ==> n.lock == Some(t))
    && (n.lock.Some? ==> n.lock.value in n.pcs && UnderLock(n.pcs[n.lock.value]))
    && (forall t :: t in n.calls ==> CallTimes(n.calls[t], n.now))
    && (forall t :: t in n.uncounted ==> t in n.calls && (t in n.pcs ==> n.pcs[t] == Posting))
  }

  /** Only a high-priority call looks whether it can write directly. */
  ghost predicate ForHigh(pc: Pc) {
    pc.Peeking? || pc.Trying? || UnderLock(pc)
  }

  ghost predicate CallTimes(c: Call, now: int) {
    && c.start < now
    && (c.ticket.Some? ==> c.start < c.ticket.value < now)
    && (c.ret.Some? ==> c.start < c.ret.value < now && (c.ticket.Some? ==> c.ticket.value <= c.ret.value))
  }

  /** Requests in the pipe, about to enter it, or just out of it. */
  ghost function Underway(n: Net): nat {
    |n.pipe| + |PostingSet(n.pcs)| + Bit(n.serving)
  }

  /**
    `sending` is what is underway, but for one for every call that was not counted, whether its own
    request is still underway or not: those that have been served took the reference of another.
   */
  ghost predicate CountInv(n: Net) {
    && n.sending >= 0
    && (n.tcp ==> n.sending + |n.uncounted| == Underway(n))
    && (!n.tcp ==> Underway(n) <= |n.uncounted|)
    && (!n.tcp && n.sock.kind == Reserved ==> Underway(n) == |n.uncounted|)
  }

  ghost predicate SideInv(n: Net) {
    && (if n.closing then ClosingInv(n.sock) else SockInv(n.sock))
    && (forall b :: b in n.pipe ==> b.sent == 0)
    && (n.closing ==> !n.serving)
    && (n.sock.kind == Reserved ==> Idle(n) && (n.tcp ==> n.sock.wbSize == 0))
    && (InUse(n.sock.kind) ==> n.tcp)
  }

  /** One call was over when the other began. */
  ghost predicate EndsBefore(c: Call, d: Call) {
    c.ret.Some? && c.ret.value < d.start
  }

  /** If every call has been counted, none of these requests is of a call that was over when t began. */
  ghost predicate Recent(n: Net, t: int, l: seq<Buf>)
    requires t in n.calls
  {
    n.uncounted == {} ==> forall b :: b in l ==> b.key.call in n.calls && !EndsBefore(n.calls[b.key.call], n.calls[t])
  }

  /** What a caller can rely on behind the reads it has made. */
  ghost predicate Seen(n: Net, t: int, pc: Pc)
    requires t in n.calls
  {
    && ((pc.Peeking? && pc.k >= 4) || pc.Trying? || pc.Looking? ==> Recent(n, t, n.pipe))
    && (pc.Peeking? ==> 0 <= pc.k < READS)
    && (pc.Looking? ==>
          && 0 <= pc.k < READS
          && (pc.k >= 1 ==> Fresh(n.sock.high) && Recent(n, t, n.sock.high))
          && (pc.k >= 2 ==> Recent(n, t, n.sock.low))
          && (pc.k >= 3 ==> n.sock.dw.None?))
    && (pc.Direct? ==> Fresh(n.sock.high) && n.sock.dw.None? && InUse(n.sock.kind) && n.sock.kind != Accepted)
  }

  ghost predicate SeenInv(n: Net) {
    forall t :: t in n.pcs && t in n.calls ==> Seen(n, t, n.pcs[t])
  }

  ghost predicate Inv(n: Net) {
    SideInv(n) && CountInv(n) && CallsInv(n) && SeenInv(n) && Ordered(n)
  }

  // ---------------------------------------------------------------- rows

  lemma RowLine(n: Net)
    requires Writer(n) == []
    ensures Row(n) == Line(n.sock) + Keys(n.pipe)
  {
    var a, h, l, x := Front(n.sock), Keys(n.sock.high), Keys(n.sock.low), Keys(n.sock.dropped);
    assert a + [] == a;
    Assoc(a, h, l);
    Assoc(a, h + l, x);
  }

  /** The row stays and the buffers that are done with become others. */
  lemma RowDone(r: seq<Request>, done: seq<Buf>, m: int, done': seq<Buf>, m': int)
    requires RowInv(r, done, m)
    requires forall i :: 0 <= i < |done| && Stump(done[i]) ==> i < |done'| && Stump(done'[i])
    requires forall i :: 0 <= i < |done'| && Stump(done'[i]) && i + 1 < m' ==> i < |done| && Stump(done[i]) && m' <= m
    ensures RowInv(r, done', m')
  {
    forall i, j ensures PairOK(r, done', m', i, j) {
      assert PairOK(r, done, m, i, j);
    }
  }

  /** Taking a turn in the pipe: a new request joins the end of the row. */
  lemma JoinEnd(r: seq<Request>, done: seq<Buf>, m: int, x: Request, now: int, calls: map<int, Call>, refused: set<int>)
    requires RowInv(r, done, m) && Before(r, now) && Matches(calls, refused, r) && m <= |r|
    requires x.ticket == now && x.passed == {} && x.call in calls && calls[x.call].ticket == None
    ensures RowInv(r + [x], done, m) && Before(r + [x], now + 1)
  {
    var r' := r + [x];
    forall i, j ensures PairOK(r', done, m, i, j) {
      assert PairOK(r, done, m, i, j);
      assert 0 <= i < |r| ==> Known(calls, r[i]);
    }
  }

  lemma JoinMatches(r: seq<Request>, x: Request, calls: map<int, Call>, refused: set<int>, t: int, c: Call)
    requires Matches(calls, refused, r) && t in calls && calls[t].ticket == None
    requires c.ticket == Some(x.ticket) && c.passed == x.passed && c.prio == x.prio && c.bytes == x.bytes && x.call == t
    requires forall d :: d in x.passed ==> d in calls && calls[d].ticket.Some?
    requires x.prio == Low ==> x.passed == {}
    ensures forall y :: y in r ==> Known(calls[t := c], y)
    ensures Known(calls[t := c], x)
    ensures forall s :: s in calls && s != t && calls[s].ticket.Some? && s !in refused ==> Made(calls[t := c], s) in r
    ensures Made(calls[t := c], t) == x && t !in refused && forall y :: y in r ==> y.call !in refused
    ensures forall d :: d in refused ==> d in calls[t := c] && calls[t := c][d].ticket.Some?
  {
    forall y | y in r ensures Known(calls[t := c], y) && y.call !in refused {
      var i :| 0 <= i < |r| && r[i] == y;
      assert Known(calls, r[i]);
    }
    forall s | s in calls && s != t && calls[s].ticket.Some? && s !in refused ensures Made(calls[t := c], s) in r {
      assert Made(calls, s) in r && Made(calls[t := c], s) == Made(calls, s);
    }
  }

  /** A high-priority request may pass low-priority ones: nothing in the order of either class changes. */
  lemma Hoist(a: seq<Request>, l: seq<Request>, x: Request, p: seq<Request>, done: seq<Buf>, m: int)
    requires RowInv(a + l + [x] + p, done, m) && m <= |a| && |done| <= |a|
    requires forall y :: y in l ==> MayPass(x, y) && y.passed == {}
    ensures RowInv(a + [x] + l + p, done, m)
  {
    var r, r' := a + l + [x] + p, a + [x] + l + p;
    forall i, j ensures PairOK(r', done, m, i, j) {
      if 0 <= i < j < |r'| {
        var i0, j0 := Origin(a, l, x, p, i), Origin(a, l, x, p, j);
        assert r[i0] == r'[i] && r[j0] == r'[j];
        assert PairOK(r, done, m, i0, j0) && PairOK(r, done, m, j0, i0);
        if j0 <= i0 {
          assert r'[j] == l[j - |a| - 1];
        }
      }
    }
  }

  lemma HoistSame(a: seq<Request>, l: seq<Request>, x: Request, p: seq<Request>, calls: map<int, Call>, refused: set<int>, now: int)
    requires Before(a + l + [x] + p, now) && Matches(calls, refused, a + l + [x] + p)
    ensures Before(a + [x] + l + p, now) && Matches(calls, refused, a + [x] + l + p)
  {
    var r, r' := a + l + [x] + p, a + [x] + l + p;
    forall i | 0 <= i < |r'| ensures r'[i] in r {
      assert r[Origin(a, l, x, p, i)] == r'[i];
    }
    forall y | y in r ensures y in r' {
    }
  }

  /** Where an element of the new row was in the old one. */
  function Origin(a: seq<Request>, l: seq<Request>, x: Request, p: seq<Request>, i: nat): (o: nat)
    requires i < |a| + |l| + 1 + |p|
    ensures o < |a| + |l| + 1 + |p| && (a + l + [x] + p)[o] == (a + [x] + l + p)[i]
  {
    if i < |a| then i else if i == |a| then |a| + |l| else if i <= |a| + |l| then i - 1 else i
  }

  /** A request leaves the row. */
  lemma Leave(a: seq<Request>, x: Request, p: seq<Request>, done: seq<Buf>, m: int)
    requires RowInv(a + [x] + p, done, m) && m <= |a| && |done| <= |a|
    ensures RowInv(a + p, done, m)
  {
    var r, r' := a + [x] + p, a + p;
    forall i, j ensures PairOK(r', done, m, i, j) {
      if 0 <= i < j < |r'| {
        var i0, j0 := if i < |a| then i else i + 1, if j < |a| then j else j + 1;
        assert r[i0] == r'[i] && r[j0] == r'[j];
        assert PairOK(r, done, m, i0, j0);
      }
    }
  }

  lemma LeaveSame(a: seq<Request>, x: Request, p: seq<Request>, calls: map<int, Call>, refused: set<int>, now: int, done: seq<Buf>, m: int)
    requires Before(a + [x] + p, now) && Matches(calls, refused, a + [x] + p) && RowInv(a + [x] + p, done, m)
    ensures Before(a + p, now) && Matches(calls, refused + {x.call}, a + p)
  {
    var r, r' := a + [x] + p, a + p;
    assert r[|a|] == x && Known(calls, r[|a|]);
    forall i | 0 <= i < |r'| ensures r'[i] in r && r'[i].call != x.call {
      var i0 := if i < |a| then i else i + 1;
      assert r'[i] == r[i0];
      assert PairOK(r, done, m, i0, |a|) && PairOK(r, done, m, |a|, i0);
    }
    forall y | y in r && y != x ensures y in r' {
    }
  }

  /** A granted call takes its place behind what is on the wire, and goes past whatever is not. */
  lemma Insert(a: seq<Request>, y: Request, q: seq<Request>, done: seq<Buf>, m: int, m': int, calls: map<int, Call>, refused: set<int>, now: int)
    requires RowInv(a + q, done, m) && m == |a| && m' == m + 1
    requires Before(a + q, now) && Matches(calls, refused, a + q) && a == Keys(done)
    requires y.ticket == now && y.passed == CallsIn(q) + Stumps(done) && y.call in calls && calls[y.call].ticket == None
    ensures RowInv(a + [y] + q, done, m')
  {
    var r, r' := a + q, a + [y] + q;
    forall i, j ensures PairOK(r', done, m', i, j) {
      if 0 <= i < j < |r'| {
        var i0, j0 := if i < |a| then i else i - 1, if j < |a| then j else j - 1;
        assert PairOK(r, done, m, i0, j0);
        assert i != |a| ==> r'[i] == r[i0] && Known(calls, r[i0]);
        assert j != |a| ==> r'[j] == r[j0] && Known(calls, r[j0]);
        if i == |a| {
          assert r'[j] in q;
        } else if j == |a| {
          InsertPassed(a, q, done, m, i);
        }
      }
    }
  }

  lemma InsertBefore(a: seq<Request>, y: Request, q: seq<Request>, now: int)
    requires Before(a + q, now) && y.ticket == now
    ensures Before(a + [y] + q, now + 1)
  {
    var r, r' := a + q, a + [y] + q;
    forall i | 0 <= i < |r'| ensures r'[i].ticket < now + 1 {
      assert i != |a| ==> r'[i] == r[if i < |a| then i else i - 1];
    }
  }

  lemma OtherCall(a: seq<Request>, q: seq<Request>, done: seq<Buf>, m: int, i: nat, x: Request)
    requires RowInv(a + q, done, m) && i < |a| && x in q
    ensures x.call != a[i].call
  {
    var j :| 0 <= j < |q| && q[j] == x;
    assert PairOK(a + q, done, m, i, |a| + j);
    assert (a + q)[|a| + j] == x && (a + q)[i] == a[i];
  }

  /** Of what stands before the place, a granted call goes past the stumps only. */
  lemma InsertPassed(a: seq<Request>, q: seq<Request>, done: seq<Buf>, m: int, i: nat)
    requires RowInv(a + q, done, m) && a == Keys(done) && i < |a|
    ensures a[i].call in CallsIn(q) + Stumps(done) <==> Stump(done[i])
  {
    var r := a + q;
    forall x | x in q ensures x.call != a[i].call {
      OtherCall(a, q, done, m, i, x);
    }
    if a[i].call in Stumps(done) {
      var b :| b in done && Stump(b) && b.key.call == a[i].call;
      var j :| 0 <= j < |done| && done[j] == b;
      assert PairOK(r, done, m, i, j) && PairOK(r, done, m, j, i);
      assert r[j] == b.key && r[i] == a[i];
    }
    if Stump(done[i]) {
      assert done[i] in done && done[i].key == a[i];
    }
  }

  // ---------------------------------------------------------------- what a step leaves as it is

  /** Nobody takes a turn, and the row stays. */
  lemma QuietRow(n: Net, n': Net)
    requires Ordered(n) && Row(n') == Row(n) && RowInv(Row(n), n'.sock.done, Lead(n'))
    requires n'.now == n.now + 1 && n'.refused == n.refused
    requires forall t :: t in n.calls ==> t in n'.calls && SameRequest(n.calls[t], n'.calls[t])
    requires forall t :: t in n'.calls && t !in n.calls ==> n'.calls[t].ticket == None
    ensures Ordered(n')
  {
    hide RowInv, Lead, Row;
    forall i | 0 <= i < |Row(n)| ensures Known(n'.calls, Row(n)[i]) {
      assert Known(n.calls, Row(n)[i]);
    }
    forall t | t in n'.calls && n'.calls[t].ticket.Some? && t !in n.refused ensures Made(n'.calls, t) in Row(n) {
      assert t in n.calls && Made(n.calls, t) in Row(n);
    }
  }

  /** A step on calls alone: the socket and the pipe stay as well. */
  lemma QuietOrder(n: Net, n': Net)
    requires Ordered(n) && Row(n') == Row(n) && n'.sock.done == n.sock.done && Lead(n') <= Lead(n)
    requires n'.now == n.now + 1 && n'.refused == n.refused
    requires forall t :: t in n.calls ==> t in n'.calls && SameRequest(n.calls[t], n'.calls[t])
    requires forall t :: t in n'.calls && t !in n.calls ==> n'.calls[t].ticket == None
    ensures Ordered(n')
  {
    hide RowInv, Lead, Row, Matches;
    RowDone(Row(n), n.sock.done, Lead(n), n.sock.done, Lead(n'));
    QuietRow(n, n');
  }

  ghost predicate SameRequest(c: Call, d: Call) {
    d.ticket == c.ticket && d.passed == c.passed && d.prio == c.prio && d.bytes == c.bytes
  }

  /** Calls go on; one may return at this moment. */
  ghost predicate Later(n: Net, n': Net) {
    forall c :: c in n.calls ==>
      c in n'.calls && n'.calls[c].start == n.calls[c].start && (n'.calls[c].ret == n.calls[c].ret || n'.calls[c].ret == Some(n.now))
  }

  ghost predicate FromPipe(n: Net, n': Net) {
    forall b :: b in n'.pipe ==> b in n.pipe || (b.key.call in n'.calls && n'.calls[b.key.call].ret == Some(n.now))
  }

  /** What the socket thread does to the lists while a caller has the lock. */
  ghost predicate LockedChange(n: Net, n': Net) {
    && (forall b :: b in n'.sock.high ==> b in n.sock.high || b in n.pipe)
    && (forall b :: b in n'.sock.low ==> b in n.sock.low || b in n.pipe)
    && (Fresh(n.sock.high) ==> Fresh(n'.sock.high))
    && (n.sock.dw.None? ==> n'.sock.dw.None?)
    && (InUse(n.sock.kind) && n.sock.kind != Accepted ==> InUse(n'.sock.kind) && n'.sock.kind != Accepted)
  }

  lemma SeenStays(n: Net, n': Net, t: int, pc: Pc)
    requires n.uncounted <= n'.uncounted
    requires t in n.calls && t in n'.calls && Seen(n, t, pc) && Later(n, n') && FromPipe(n, n') && n.calls[t].start < n.now
    requires UnderLock(pc) ==> LockedChange(n, n')
    ensures Seen(n', t, pc)
  {
    assert n'.calls[t].start == n.calls[t].start;
    assert Recent(n, t, n.pipe) ==> Recent(n', t, n'.pipe);
    if pc.Looking? {
      assert Recent(n, t, n.sock.high) ==> Recent(n', t, n'.sock.high);
      assert Recent(n, t, n.sock.low) ==> Recent(n', t, n'.sock.low);
    }
  }

  /** A step that moves at most one caller. */
  lemma SeenRest(n: Net, n': Net, t: int)
    requires CallsInv(n) && SeenInv(n) && Later(n, n') && FromPipe(n, n') && (n.lock == None || LockedChange(n, n'))
    requires n.uncounted <= n'.uncounted
    requires forall u :: u in n'.pcs && u != t ==> u in n.pcs && n'.pcs[u] == n.pcs[u]
    ensures forall u :: u in n'.pcs && u in n'.calls && u != t ==> Seen(n', u, n'.pcs[u])
  {
    forall u | u in n'.pcs && u in n'.calls && u != t ensures Seen(n', u, n'.pcs[u]) {
      SeenStays(n, n', u, n.pcs[u]);
    }
  }

  lemma InvIs(n: Net)
    requires SideInv(n) && CountInv(n) && CallsInv(n) && SeenInv(n) && Ordered(n)
    ensures Inv(n)
  {
  }

  lemma PostingPut(pcs: map<int, Pc>, t: int, pc: Pc)
    ensures |PostingSet(pcs[t := pc])| == |PostingSet(pcs)| + Bit(pc == Posting) - Bit(t in pcs && pcs[t] == Posting)
  {
    var a, b := PostingSet(pcs), PostingSet(pcs[t := pc]);
    assert b - {t} == a - {t};
    assert |a| == |a - {t}| + Bit(t in a);
    assert |b| == |b - {t}| + Bit(t in b);
  }

  lemma PostingGone(pcs: map<int, Pc>, t: int)
    ensures |PostingSet(pcs - {t})| == |PostingSet(pcs)| - Bit(t in pcs && pcs[t] == Posting)
  {
    var a, b := PostingSet(pcs), PostingSet(pcs - {t});
    assert b == a - {t};
    assert |a| == |a - {t}| + Bit(t in a);
  }

  // ---------------------------------------------------------------- callers

  function Started(n: Net, t: int, c: Call): Net {
    n.(calls := n.calls[t := c], pcs := n.pcs[t := Begin], now := n.now + 1)
  }

  lemma StartedOrder(n: Net, t: int, c: Call)
    requires CallsInv(n) && Ordered(n) && t !in n.calls && t !in n.pcs && c.ticket == None
    ensures Ordered(Started(n, t, c))
  {
    var n' := Started(n, t, c);
    assert Writer(n') == Writer(n);
    QuietOrder(n, n');
  }

  lemma StartedCalls(n: Net, t: int, c: Call)
    requires CallsInv(n) && CountInv(n) && t !in n.calls && t !in n.pcs
    requires c.start == n.now && c.ticket == None && c.passed == {} && c.ret == None
    ensures CallsInv(Started(n, t, c)) && CountInv(Started(n, t, c))
  {
    PostingPut(n.pcs, t, Begin);
  }

  lemma StartKeeps(n: Net, t: int, bytes: Bytes, prio: Priority)
    requires Inv(n) && Enabled(n, Start(t, bytes, prio))
    ensures Inv(Apply(n, Start(t, bytes, prio)))
  {
    hide SockInv, ClosingInv, CallsInv, CountInv, Ordered;
    var c := Call(bytes, prio, n.now, None, {}, None);
    var n' := Started(n, t, c);
    assert Apply(n, Start(t, bytes, prio)) == n';
    StartedOrder(n, t, c);
    StartedCalls(n, t, c);
    SeenRest(n, n', t);
  }

  function Gone(n: Net, t: int): Net
    requires t in n.calls
  {
    Returned(n, t, None).(now := n.now + 1)
  }

  lemma GoneOrder(n: Net, t: int)
    requires CallsInv(n) && Ordered(n) && At(n, t, Begin)
    ensures Ordered(Gone(n, t))
  {
    assert Writer(Gone(n, t)) == Writer(n);
    QuietOrder(n, Gone(n, t));
  }

  lemma GoneCalls(n: Net, t: int)
    requires CallsInv(n) && CountInv(n) && At(n, t, Begin)
    ensures CallsInv(Gone(n, t)) && CountInv(Gone(n, t))
  {
    PostingGone(n.pcs, t);
  }

  lemma RefuseKeeps(n: Net, t: int)
    requires Inv(n) && Enabled(n, Refuse(t))
    ensures Inv(Apply(n, Refuse(t)))
  {
    hide SockInv, ClosingInv, CallsInv, CountInv, Ordered;
    GoneOrder(n, t);
    GoneCalls(n, t);
    SeenRest(n, Gone(n, t), t);
  }

  /** A caller goes on to another place, perhaps with the lock. */
  function Moved(n: Net, t: int, pc: Pc, lock: Option<int>): Net
    requires t in n.pcs
  {
    n.(pcs := n.pcs[t := pc], lock := lock, now := n.now + 1)
  }

  ghost predicate MayMove(n: Net, t: int, pc: Pc, lock: Option<int>) {
    && t in n.pcs && t in n.calls && !n.pcs[t].Direct? && !pc.Direct? && n.pcs[t] != Posting && pc != Posting
    && (ForHigh(pc) ==> n.calls[t].prio == High)
    && (UnderLock(pc) ==> lock == Some(t) && (n.lock == None || n.lock == Some(t)))
    && (!UnderLock(pc) ==> lock == if UnderLock(n.pcs[t]) then None else n.lock)
    && Seen(n, t, pc)
  }

  lemma MovedOrder(n: Net, t: int, pc: Pc, lock: Option<int>)
    requires Inv(n) && MayMove(n, t, pc, lock)
    ensures Ordered(Moved(n, t, pc, lock))
  {
    var n' := Moved(n, t, pc, lock);
    assert Writer(n') == Writer(n);
    QuietOrder(n, n');
  }

  lemma MovedCalls(n: Net, t: int, pc: Pc, lock: Option<int>)
    requires CallsInv(n) && CountInv(n) && MayMove(n, t, pc, lock)
    ensures CallsInv(Moved(n, t, pc, lock)) && CountInv(Moved(n, t, pc, lock))
  {
    PostingPut(n.pcs, t, pc);
  }

  lemma MovedKeeps(n: Net, t: int, pc: Pc, lock: Option<int>)
    requires Inv(n) && MayMove(n, t, pc, lock)
    ensures Inv(Moved(n, t, pc, lock))
  {
    var n' := Moved(n, t, pc, lock);
    MovedOrder(n, t, pc, lock);
    MovedCalls(n, t, pc, lock);
    hide SockInv, ClosingInv, CallsInv, CountInv, Ordered;
    SeenRest(n, n', t);
    SeenStays(n, n', t, pc);
  }

  lemma EnterKeeps(n: Net, t: int)
    requires Inv(n) && Enabled(n, Enter(t))
    ensures Inv(Apply(n, Enter(t)))
  {
    hide SockInv, ClosingInv, SideInv, Ordered;
    var pc := if n.calls[t].prio == High then Peeking(0) else Queueing;
    assert Apply(n, Enter(t)) == Moved(n, t, pc, n.lock);
    MovedKeeps(n, t, pc, n.lock);
  }

  /** If every call has been counted, nothing counted in means nothing in the pipe. */
  lemma NothingSent(n: Net)
    requires CountInv(n) && n.sending == 0 && n.uncounted == {}
    ensures n.pipe == [] && !n.serving && PostingSet(n.pcs) == {}
  {
  }

  lemma PeekKeeps(n: Net, t: int)
    requires Inv(n) && Enabled(n, Peek(t))
    ensures Inv(Apply(n, Peek(t)))
  {
    hide SockInv, ClosingInv, SideInv, Ordered;
    var k := n.pcs[t].k;
    var pc := if !Sees(n, k) then Queueing else if k + 1 < READS then Peeking(k + 1) else Trying;
    assert Seen(n, t, n.pcs[t]);
    if n.sending == 0 && n.uncounted == {} { NothingSent(n); }
    assert Apply(n, Peek(t)) == Moved(n, t, pc, n.lock);
    MovedKeeps(n, t, pc, n.lock);
  }

  lemma TryLockKeeps(n: Net, t: int)
    requires Inv(n) && Enabled(n, TryLock(t))
    ensures Inv(Apply(n, TryLock(t)))
  {
    hide SockInv, ClosingInv, SideInv, Ordered;
    assert Seen(n, t, n.pcs[t]);
    assert Apply(n, TryLock(t)) == Moved(n, t, Looking(0), Some(t));
    MovedKeeps(n, t, Looking(0), Some(t));
  }

  lemma SkipKeeps(n: Net, t: int)
    requires Inv(n) && Enabled(n, Skip(t))
    ensures Inv(Apply(n, Skip(t)))
  {
    hide SockInv, ClosingInv, SideInv, Ordered;
    assert Apply(n, Skip(t)) == Moved(n, t, Queueing, n.lock);
    MovedKeeps(n, t, Queueing, n.lock);
  }

  lemma UnlockKeeps(n: Net, t: int)
    requires Inv(n) && Enabled(n, Unlock(t))
    ensures Inv(Apply(n, Unlock(t)))
  {
    hide SockInv, ClosingInv, SideInv, Ordered;
    assert Apply(n, Unlock(t)) == Moved(n, t, Queueing, None);
    MovedKeeps(n, t, Queueing, None);
  }

  function AfterInc(n: Net, t: int): Net {
    Goto(Through(n, t), t, Posting).(now := n.now + 1)
  }

  lemma IncOrder(n: Net, t: int)
    requires CallsInv(n) && Ordered(n) && At(n, t, Queueing)
    ensures Ordered(AfterInc(n, t))
  {
    assert Writer(AfterInc(n, t)) == Writer(n);
    QuietOrder(n, AfterInc(n, t));
  }

  lemma PostingCalls(n: Net, n': Net, t: int)
    requires CallsInv(n) && At(n, t, Queueing)
    requires n'.calls == n.calls && n'.pcs == n.pcs[t := Posting] && n'.lock == n.lock && n'.now == n.now + 1
    requires forall u :: u in n'.uncounted ==> u in n.uncounted || u == t
    ensures CallsInv(n')
  {
  }

  lemma IncCalls(n: Net, t: int)
    requires CallsInv(n) && At(n, t, Queueing)
    ensures CallsInv(AfterInc(n, t)) && t !in n.uncounted
  {
    PostingCalls(n, AfterInc(n, t), t);
  }

  lemma IncCount(n: Net, t: int)
    requires CountInv(n) && At(n, t, Queueing) && t !in n.uncounted
    ensures CountInv(AfterInc(n, t))
  {
    PostingPut(n.pcs, t, Posting);
    assert |n.uncounted + {t}| == |n.uncounted| + 1;
  }

  lemma IncKeeps(n: Net, t: int)
    requires Inv(n) && Enabled(n, Inc(t))
    ensures Inv(Apply(n, Inc(t)))
  {
    hide SockInv, ClosingInv, CallsInv, CountInv, Ordered;
    IncOrder(n, t);
    IncCalls(n, t);
    IncCount(n, t);
    SeenRest(n, AfterInc(n, t), t);
  }

  lemma LookOn(n: Net, t: int)
    requires Inv(n) && Enabled(n, Look(t)) && !(Sees(n, n.pcs[t].k) && n.pcs[t].k + 1 == READS)
    ensures Inv(Apply(n, Look(t)))
  {
    hide SockInv, ClosingInv, SideInv, Ordered;
    var k := n.pcs[t].k;
    var pc := if Sees(n, k) then Looking(k + 1) else Unlocking;
    assert Seen(n, t, n.pcs[t]);
    assert Apply(n, Look(t)) == Moved(n, t, pc, n.lock);
    MovedKeeps(n, t, pc, n.lock);
  }

  /** A caller about to see its second check pass finds nothing begun before it. */
  lemma GrantRow(n: Net, t: int)
    requires Inv(n) && At(n, t, Looking(READS - 1))
    ensures n.lock == Some(t) && n.sock.dw.None? && Writer(n) == [] && Lead(n) == |n.sock.done|
    ensures Row(n) == Keys(n.sock.done) + (Back(n.sock) + Keys(n.pipe))
  {
    assert Seen(n, t, n.pcs[t]);
    var a := Keys(n.sock.done);
    assert a + [] + [] == a;
    Assoc(a, Back(n.sock), Keys(n.pipe));
  }

  lemma GrantedOrder(n: Net, t: int)
    requires Inv(n) && At(n, t, Looking(READS - 1))
    ensures Ordered(Granted(n, t).(now := n.now + 1))
  {
    var n', y := Granted(n, t).(now := n.now + 1), RequestOf(n, t, n.now, Waiting(n));
    var a, q := Keys(n.sock.done), Back(n.sock) + Keys(n.pipe);
    GrantRow(n, t);
    GrantedRow(n, t, y);
    Insert(a, y, q, n.sock.done, Lead(n), Lead(n'), n.calls, n.refused, n.now);
    InsertBefore(a, y, q, n.now);
    WaitingKnown(n, t);
    JoinMatches(Row(n), y, n.calls, n.refused, t, n'.calls[t]);
    InsertMatches(a, y, q, n'.calls, n.refused);
  }

  lemma GrantedRow(n: Net, t: int, y: Request)
    requires Inv(n) && At(n, t, Looking(READS - 1)) && y == RequestOf(n, t, n.now, Waiting(n))
    ensures var n' := Granted(n, t).(now := n.now + 1);
            Row(n') == Keys(n.sock.done) + [y] + (Back(n.sock) + Keys(n.pipe)) && Lead(n') == Lead(n) + 1
  {
    GrantRow(n, t);
    var n' := Granted(n, t).(now := n.now + 1);
    assert Writer(n') == [y];
    var a := Keys(n.sock.done);
    assert a + [] == a;
    Assoc(a + [y], Back(n.sock), Keys(n.pipe));
  }

  lemma WaitingKnown(n: Net, t: int)
    requires Inv(n) && At(n, t, Looking(READS - 1))
    ensures n.calls[t].ticket == None && n.calls[t].prio == High
    ensures forall c :: c in Waiting(n) ==> c in n.calls && n.calls[c].ticket.Some?
  {
    GrantRow(n, t);
    var a, q := Keys(n.sock.done), Back(n.sock) + Keys(n.pipe);
    forall x | x in q ensures x.call in n.calls && n.calls[x.call].ticket.Some? {
      assert x in Row(n);
    }
    forall b | b in n.sock.done ensures b.key.call in n.calls && n.calls[b.key.call].ticket.Some? {
      var j :| 0 <= j < |n.sock.done| && n.sock.done[j] == b;
      assert a[j] == b.key && Row(n)[j] == a[j];
    }
  }

  lemma InsertMatches(a: seq<Request>, y: Request, q: seq<Request>, calls: map<int, Call>, refused: set<int>)
    requires forall x :: x in a + q ==> Known(calls, x) && x.call !in refused
    requires Known(calls, y) && y.call !in refused && forall d :: d in refused ==> d in calls && calls[d].ticket.Some?
    requires forall s :: s in calls && s != y.call && calls[s].ticket.Some? && s !in refused ==> Made(calls, s) in a + q
    ensures Matches(calls, refused, a + [y] + q)
  {
    var r := a + [y] + q;
    forall i | 0 <= i < |r| ensures Known(calls, r[i]) && r[i].call !in refused {
      if i != |a| {
        assert r[i] == (a + q)[if i < |a| then i else i - 1];
      }
    }
    forall x | x in a + q ensures x in r {
    }
  }

  lemma GrantedCalls(n: Net, t: int)
    requires Inv(n) && At(n, t, Looking(READS - 1))
    ensures CallsInv(Granted(n, t).(now := n.now + 1)) && CountInv(Granted(n, t).(now := n.now + 1))
  {
    hide SideInv, Ordered, SeenInv, Waiting;
    PostingPut(n.pcs, t, Direct(n.now, Waiting(n)));
    assert UnderLock(n.pcs[t]) && n.lock == Some(t) && n.calls[t].start < n.now;
  }

  lemma GrantedSeen(n: Net, t: int)
    requires CallsInv(n) && SeenInv(n) && At(n, t, Looking(READS - 1)) && Sees(n, READS - 1)
    ensures SeenInv(Granted(n, t).(now := n.now + 1))
  {
    assert Seen(n, t, n.pcs[t]);
    SeenRest(n, Granted(n, t).(now := n.now + 1), t);
  }

  lemma GrantedKeeps(n: Net, t: int)
    requires Inv(n) && At(n, t, Looking(READS - 1)) && Sees(n, READS - 1)
    ensures Inv(Granted(n, t).(now := n.now + 1))
  {
    GrantedOrder(n, t);
    GrantedCalls(n, t);
    GrantedSeen(n, t);
    assert SideInv(Granted(n, t).(now := n.now + 1)) by { hide *; GrantedSide(n, t); }
    hide *;
    InvIs(Granted(n, t).(now := n.now + 1));
  }

  lemma GrantedSide(n: Net, t: int)
    requires SideInv(n) && t in n.calls
    ensures SideInv(Granted(n, t).(now := n.now + 1))
  {
  }

  lemma LookGrants(n: Net, t: int)
    requires Enabled(n, Look(t)) && Sees(n, n.pcs[t].k) && n.pcs[t].k + 1 == READS
    ensures Apply(n, Look(t)) == Granted(n, t).(now := n.now + 1) && At(n, t, Looking(READS - 1)) && Sees(n, READS - 1)
  {
  }

  lemma LookKeeps(n: Net, t: int)
    requires Inv(n) && Enabled(n, Look(t))
    ensures Inv(Apply(n, Look(t)))
  {
    hide Inv, Granted, Apply;
    if Sees(n, n.pcs[t].k) && n.pcs[t].k + 1 == READS {
      LookGrants(n, t);
      GrantedKeeps(n, t);
    } else {
      LookOn(n, t);
    }
  }

  function AfterWrite(n: Net, t: int, s': Sock): Net
    requires t in n.calls
  {
    n.(sock := s', lock := None, pcs := n.pcs - {t}, calls := n.calls[t := n.calls[t].(ret := Some(n.now))], now := n.now + 1)
  }

  lemma WriteCalls(n: Net, t: int, s': Sock)
    requires CallsInv(n) && CountInv(n) && t in n.pcs && t in n.calls && n.pcs[t].Direct? && s'.kind == n.sock.kind
    ensures CallsInv(AfterWrite(n, t, s')) && CountInv(AfterWrite(n, t, s'))
  {
    PostingGone(n.pcs, t);
  }

  lemma WriteSide(n: Net, t: int, b: Buf, k: nat)
    requires SideInv(n) && k <= |b.key.bytes| && t in n.calls && Seen(n, t, Direct(0, {}))
    ensures SideInv(AfterWrite(n, t, DirectWrite(n.sock, b, k)))
  {
    if n.closing {
      DirectWriteClosing(n.sock, b, k);
    } else {
      DirectWriteKeeps(n.sock, b, k);
    }
  }

  lemma WriteRow(n: Net, t: int, x: Request, k: nat)
    requires Inv(n) && t in n.pcs && t in n.calls && n.pcs[t].Direct? && k <= |x.bytes|
    requires x == RequestOf(n, t, n.pcs[t].ticket, n.pcs[t].passed)
    ensures var n' := AfterWrite(n, t, DirectWrite(n.sock, Buf(x, 0), k)); Row(n') == Row(n) && Lead(n') == Lead(n)
  {
    var s, s' := n.sock, DirectWrite(n.sock, Buf(x, 0), k);
    assert Seen(n, t, n.pcs[t]);
    assert n.lock == Some(t) && Writer(n) == [x];
    DirectWriteLine(s, Buf(x, 0), k);
    RowLine(AfterWrite(n, t, s'));
    var a := Keys(s.done) + [x];
    assert Front(s) == Keys(s.done);
    Assoc(a, Keys(s.high), Keys(s.low));
    Assoc(a, Keys(s.high) + Keys(s.low), Keys(s.dropped));
  }

  lemma WriteDone(n: Net, t: int, x: Request, k: nat)
    requires Inv(n) && t in n.pcs && t in n.calls && n.pcs[t].Direct? && k <= |x.bytes|
    requires x == RequestOf(n, t, n.pcs[t].ticket, n.pcs[t].passed)
    ensures RowInv(Row(n), DirectWrite(n.sock, Buf(x, 0), k).done, Lead(n))
  {
    hide RowInv, Row, SideInv, SeenInv, Lead, CallsInv, CountInv, Matches;
    RowDone(Row(n), n.sock.done, Lead(n), DirectWrite(n.sock, Buf(x, 0), k).done, Lead(n));
  }

  lemma WriteOrder(n: Net, t: int, x: Request, k: nat)
    requires Inv(n) && t in n.pcs && t in n.calls && n.pcs[t].Direct? && k <= |x.bytes|
    requires x == RequestOf(n, t, n.pcs[t].ticket, n.pcs[t].passed)
    ensures Ordered(AfterWrite(n, t, DirectWrite(n.sock, Buf(x, 0), k)))
  {
    WriteRow(n, t, x, k);
    WriteDone(n, t, x, k);
    hide RowInv, Row, SideInv, SeenInv, CallsInv, CountInv, Lead, DirectWrite;
    QuietRow(n, AfterWrite(n, t, DirectWrite(n.sock, Buf(x, 0), k)));
  }

  /** The writer was the one under the lock. */
  lemma WriteSeen(n: Net, n': Net, t: int)
    requires CallsInv(n) && SeenInv(n) && t in n.pcs && t in n.calls && n.pcs[t].Direct? && n' == AfterWrite(n, t, n'.sock)
    ensures SeenInv(n')
  {
    forall u | u in n'.pcs && u in n'.calls ensures Seen(n', u, n'.pcs[u]) {
      SeenStays(n, n', u, n.pcs[u]);
    }
  }

  lemma WriteKeeps(n: Net, t: int, k: nat)
    requires Inv(n) && Enabled(n, Step.Write(t, k))
    ensures Inv(Apply(n, Step.Write(t, k)))
  {
    var x := RequestOf(n, t, n.pcs[t].ticket, n.pcs[t].passed);
    var n' := AfterWrite(n, t, DirectWrite(n.sock, Buf(x, 0), k));
    assert Seen(n, t, n.pcs[t]) && n.lock == Some(t);
    assert n.calls[t].(ticket := Some(n.pcs[t].ticket), ret := Some(n.now)) == n.calls[t].(ret := Some(n.now));
    assert Apply(n, Step.Write(t, k)) == n';
    WriteSide(n, t, Buf(x, 0), k);
    WriteOrder(n, t, x, k);
    WriteCalls(n, t, n'.sock);
    WriteSeen(n, n', t);
    hide *;
    InvIs(n');
  }

  function AfterPost(n: Net, t: int, x: Request): Net
    requires t in n.calls
  {
    n.(pipe := n.pipe + [Buf(x, 0)], pcs := n.pcs - {t}, now := n.now + 1,
       calls := n.calls[t := n.calls[t].(ticket := Some(n.now), ret := Some(n.now))])
  }

  lemma PostRow(n: Net, t: int, x: Request)
    requires Inv(n) && At(n, t, Posting)
    ensures Row(AfterPost(n, t, x)) == Row(n) + [x] && Lead(AfterPost(n, t, x)) == Lead(n)
  {
    var n' := AfterPost(n, t, x);
    KeysAppend(n.pipe, [Buf(x, 0)]);
    assert Keys([Buf(x, 0)]) == [x];
    Assoc(Front(n.sock) + Writer(n) + Back(n.sock), Keys(n.pipe), [x]);
    assert Writer(n') == Writer(n);
  }

  lemma PostOrder(n: Net, t: int, x: Request)
    requires Inv(n) && At(n, t, Posting) && x == RequestOf(n, t, n.now, {})
    ensures Ordered(AfterPost(n, t, x))
  {
    var n' := AfterPost(n, t, x);
    PostRow(n, t, x);
    assert n.calls[t].ticket == None && n.calls[t].passed == {};
    JoinEnd(Row(n), n.sock.done, Lead(n), x, n.now, n.calls, n.refused);
    JoinMatches(Row(n), x, n.calls, n.refused, t, n'.calls[t]);
    assert Row(n) + [x] + [] == Row(n) + [x] && Row(n) + [] == Row(n);
    InsertMatches(Row(n), x, [], n'.calls, n.refused);
  }

  lemma PostCalls(n: Net, t: int, x: Request)
    requires CallsInv(n) && CountInv(n) && At(n, t, Posting)
    ensures CallsInv(AfterPost(n, t, x)) && CountInv(AfterPost(n, t, x))
  {
    PostingGone(n.pcs, t);
  }

  lemma PostSeen(n: Net, t: int, x: Request)
    requires CallsInv(n) && SeenInv(n) && At(n, t, Posting) && x.call == t
    ensures SeenInv(AfterPost(n, t, x))
  {
    SeenRest(n, AfterPost(n, t, x), t);
  }

  lemma PostKeeps(n: Net, t: int)
    requires Inv(n) && Enabled(n, Post(t))
    ensures Inv(Apply(n, Post(t)))
  {
    hide SockInv, ClosingInv, Ordered;
    var x := RequestOf(n, t, n.now, {});
    var n' := AfterPost(n, t, x);
    assert Apply(n, Post(t)) == n';
    PostOrder(n, t, x);
    PostCalls(n, t, x);
    PostSeen(n, t, x);
    hide SockInv, ClosingInv, CountInv, CallsInv, SeenInv, Ordered;
    InvIs(n');
  }

  // ---------------------------------------------------------------- the socket thread

  lemma SeenAll(n: Net, n': Net)
    requires CallsInv(n) && SeenInv(n) && n'.calls == n.calls && n'.pcs == n.pcs && n'.uncounted == n.uncounted && FromPipe(n, n')
    requires n.lock == None || LockedChange(n, n')
    ensures SeenInv(n')
  {
    forall u | u in n'.pcs && u in n'.calls ensures Seen(n', u, n'.pcs[u]) {
      SeenStays(n, n', u, n.pcs[u]);
    }
  }

  lemma DecOrder(n: Net)
    requires Ordered(n)
    ensures Ordered(Done(n).(now := n.now + 1))
  {
    hide Keys, Front, Back, RowInv, Matches;
    assert Writer(Done(n).(now := n.now + 1)) == Writer(n);
    QuietOrder(n, Done(n).(now := n.now + 1));
  }

  lemma DecCount(n: Net)
    requires CallsInv(n) && CountInv(n) && n.serving && !n.aborted && n.sock.kind != Reserved
    ensures CallsInv(Done(n).(now := n.now + 1)) && CountInv(Done(n).(now := n.now + 1))
    ensures Done(n).aborted ==> n.uncounted != {}
  {
  }

  lemma DecKeeps(n: Net)
    requires Inv(n) && Enabled(n, Dec)
    ensures Inv(Apply(n, Dec)) && (Apply(n, Dec).aborted ==> n.uncounted != {})
  {
    hide SockInv, ClosingInv, Ordered, SeenInv, CallsInv, CountInv;
    assert n.sock.kind != Reserved;
    DecOrder(n);
    DecCount(n);
    SeenAll(n, Done(n).(now := n.now + 1));
  }

  function WithSock(n: Net, s': Sock, closing: bool): Net {
    n.(sock := s', closing := closing, now := n.now + 1)
  }

  /** The socket thread works on the lists alone, keeping the line. */
  lemma SockKeeps(n: Net, s': Sock, closing: bool)
    requires Inv(n) && !n.serving && (if closing then ClosingInv(s') else SockInv(s'))
    requires s'.kind != Reserved && (InUse(s'.kind) ==> n.tcp)
    requires Row(WithSock(n, s', closing)) == Row(n)
    requires RowInv(Row(n), s'.done, Lead(WithSock(n, s', closing)))
    requires n.lock.Some? ==> LockedChange(n, WithSock(n, s', closing))
    ensures Inv(WithSock(n, s', closing))
  {
    hide SockInv, ClosingInv, RowInv, Row, Matches, LockedChange, SeenInv;
    SeenAll(n, WithSock(n, s', closing));
  }

  /** With nobody writing, the same line is the same row. */
  lemma SameLine(n: Net, s': Sock, closing: bool)
    requires Writer(n) == [] && Line(s') == Line(n.sock)
    ensures Row(WithSock(n, s', closing)) == Row(n)
    ensures Lead(WithSock(n, s', closing)) == |Front(s')| && Lead(n) == |Front(n.sock)|
  {
    RowLine(n);
    RowLine(WithSock(n, s', closing));
  }

  lemma NoWriter(n: Net)
    requires CallsInv(n) && n.lock == None
    ensures Writer(n) == []
  {
  }

  lemma FlushIs(n: Net, w: seq<SocketSend.Write>)
    requires Enabled(n, Step.Flush(w))
    ensures Apply(n, Step.Flush(w)) == WithSock(n, SendBuffer(n.sock, w), false)
    ensures !n.serving && n.lock == None && !n.closing && InUse(n.sock.kind) && Framed(n.sock)
  {
  }

  lemma FlushKind(s: Sock, w: seq<SocketSend.Write>)
    requires Framed(s) && InUse(s.kind)
    ensures SendBuffer(s, w).kind != Reserved
  {
  }

  lemma FlushOrder(n: Net, w: seq<SocketSend.Write>)
    requires CallsInv(n) && Ordered(n) && SockInv(n.sock) && n.lock == None && InUse(n.sock.kind)
    ensures var n' := WithSock(n, SendBuffer(n.sock, w), false);
            Row(n') == Row(n) && RowInv(Row(n), n'.sock.done, Lead(n')) && SockInv(n'.sock)
  {
    var s' := SendBuffer(n.sock, w);
    NoWriter(n);
    SendBufferKeeps(n.sock, w);
    SameLine(n, s', false);
    FlushFront(n.sock, w);
    hide RowInv, Row, SockInv, Line, SendBuffer, Keys, Front;
    FlushRow(Row(n), n.sock.done, Lead(n), s'.done, |s'.done|);
  }

  lemma FlushKeeps(n: Net, w: seq<SocketSend.Write>)
    requires Inv(n) && Enabled(n, Step.Flush(w))
    ensures Inv(Apply(n, Step.Flush(w)))
  {
    hide SockInv, ClosingInv, CallsInv, CountInv, SeenInv, Ordered, Enabled, Apply, SendBuffer, Row, RowInv;
    hide Framed;
    FlushIs(n, w);
    FlushOrder(n, w);
    FlushKind(n.sock, w);
    SockKeeps(n, SendBuffer(n.sock, w), false);
  }

  /** After a flush nothing is left over from a direct write. */
  lemma FlushFront(s: Sock, w: seq<SocketSend.Write>)
    requires SockInv(s) && InUse(s.kind)
    ensures |Front(SendBuffer(s, w))| == |SendBuffer(s, w).done| && AllFull(s.done)
  {
    SendBufferKeeps(s, w);
    FlushAdopts(s, w);
  }

  lemma FlushAdopts(s: Sock, w: seq<SocketSend.Write>)
    requires Framed(s)
    ensures SendBuffer(s, w).dw.None?
  {
  }

  lemma FlushRow(r: seq<Request>, done: seq<Buf>, m: int, done': seq<Buf>, m': int)
    requires RowInv(r, done, m) && AllFull(done) && Tidy(done') && m' == |done'|
    ensures RowInv(r, done', m')
  {
    RowDone(r, done, m, done', m');
  }

  /** While a caller is about to write, nothing in the lists has been begun. */
  lemma WriterSees(n: Net)
    requires CallsInv(n) && SeenInv(n) && Writer(n) != []
    ensures Fresh(n.sock.high) && n.sock.dw.None? && InUse(n.sock.kind)
  {
    assert Seen(n, n.lock.value, n.pcs[n.lock.value]);
  }

  lemma FreeChange(n: Net)
    requires Enabled(n, Free)
    ensures LockedChange(n, WithSock(n, FreeLists(n.sock), true)) && Apply(n, Free) == WithSock(n, FreeLists(n.sock), true)
  {
  }

  lemma FreeOrder(n: Net)
    requires Inv(n) && Enabled(n, Free)
    ensures var n' := WithSock(n, FreeLists(n.sock), true); RowInv(Row(n), n'.sock.done, Lead(n'))
  {
    FreeListsKeeps(n.sock);
    FreeRow(n);
    hide RowInv, Row, Matches, CallsInv, SeenInv, Whole, Lead;
    RowDone(Row(n), n.sock.done, Lead(n), FreeLists(n.sock).done, Lead(WithSock(n, FreeLists(n.sock), true)));
  }

  /** The lists are freed, whoever has the lock. */
  lemma FreeKeeps(n: Net)
    requires Inv(n) && Enabled(n, Free)
    ensures Inv(Apply(n, Free))
  {
    FreeListsKeeps(n.sock);
    FreeRow(n);
    FreeOrder(n);
    FreeChange(n);
    hide Inv, RowInv, Row, Apply, ClosingInv, SockInv, LockedChange, FreeLists;
    SockKeeps(n, FreeLists(n.sock), true);
  }

  lemma FreeRow(n: Net)
    requires Inv(n) && Enabled(n, Free)
    ensures var n' := WithSock(n, FreeLists(n.sock), true);
            Row(n') == Row(n) && Lead(n') <= |n'.sock.done| + (Lead(n) - |n.sock.done|)
    ensures FreeLists(n.sock).done != n.sock.done ==> Lead(n) == |n.sock.done|
  {
    var s, s' := n.sock, FreeLists(n.sock);
    FreeListsKeeps(s);
    if Writer(n) != [] { WriterSees(n); }
    if s'.done == s.done {
      FreeBack(s);
      assert Writer(WithSock(n, s', true)) == Writer(n);
    } else {
      assert Writer(n) == [];
      FreeListsLine(s);
      SameLine(n, s', true);
    }
  }

  lemma FreeBack(s: Sock)
    requires SockInv(s) && FreeLists(s).done == s.done
    ensures Back(FreeLists(s)) == Back(s) && Front(FreeLists(s)) == Front(s)
  {
    KeysAppend(s.high, s.low);
    KeysAppend(s.high + s.low, s.dropped);
    var k := Keys(FreeLists(s).dropped);
    assert [] + [] + k == k;
  }

  lemma CloseKeeps(n: Net)
    requires Inv(n) && Enabled(n, Close)
    ensures Inv(Apply(n, Close))
  {
    var s' := Finish(n.sock);
    NoWriter(n);
    FinishKeeps(n.sock);
    FinishLine(n.sock);
    SameLine(n, s', false);
    RowDone(Row(n), n.sock.done, Lead(n), s'.done, Lead(WithSock(n, s', false)));
    SockKeeps(n, s', false);
    assert Apply(n, Close) == WithSock(n, s', false);
  }

  lemma KindSock(s: Sock, kind: Kind)
    requires SockInv(s) && InUse(s.kind) && InUse(kind) && kind != Accepted && (s.dropped != [] ==> kind == HalfClose)
    ensures SockInv(s.(kind := kind))
  {
    assert Partial(s.(kind := kind)) == Partial(s);
  }

  lemma KindRow(n: Net, kind: Kind)
    requires Ordered(n)
    ensures var n' := WithSock(n, n.sock.(kind := kind), false); Row(n') == Row(n) && RowInv(Row(n), n.sock.done, Lead(n'))
  {
    var n' := WithSock(n, n.sock.(kind := kind), false);
    assert Writer(n') == Writer(n) && Front(n'.sock) == Front(n.sock) && Back(n'.sock) == Back(n.sock);
  }

  lemma KindKeeps(n: Net, kind: Kind)
    requires Inv(n) && Idle(n) && InUse(n.sock.kind) && InUse(kind) && kind != Accepted
    requires n.sock.dropped != [] ==> kind == HalfClose
    ensures Inv(WithSock(n, n.sock.(kind := kind), false))
  {
    hide SockInv, Ordered, RowInv, Row, CallsInv, CountInv, SeenInv, Lead;
    KindSock(n.sock, kind);
    KindRow(n, kind);
    SockKeeps(n, n.sock.(kind := kind), false);
  }

  /** A request leaves the pipe, goes past low-priority ones, or stays where it is. */
  lemma ServedOrder(a: seq<Request>, l: seq<Request>, x: Request, p: seq<Request>, n: Net, n': Net)
    requires Ordered(n) && Row(n) == a + l + [x] + p && Lead(n) <= |a| && |n.sock.done| <= |a|
    requires Lead(n') == Lead(n) && n'.sock.done == n.sock.done && n'.calls == n.calls && n'.now == n.now + 1
    requires n'.refused == n.refused && (forall y :: y in l ==> MayPass(x, y) && y.passed == {}) && Row(n') == a + [x] + l + p
    ensures Ordered(n')
  {
    hide RowInv, Row, Matches, Lead;
    Hoist(a, l, x, p, n.sock.done, Lead(n));
    HoistSame(a, l, x, p, n.calls, n.refused, n.now);
  }

  lemma ServedRefused(a: seq<Request>, x: Request, p: seq<Request>, n: Net, n': Net)
    requires Ordered(n) && Row(n) == a + [x] + p && Lead(n) <= |a| && |n.sock.done| <= |a|
    requires Lead(n') == Lead(n) && n'.sock.done == n.sock.done && n'.calls == n.calls && n'.now == n.now + 1
    requires n'.refused == n.refused + {x.call} && Row(n') == a + p
    ensures Ordered(n')
  {
    hide RowInv, Row, Matches, Lead;
    Leave(a, x, p, n.sock.done, Lead(n));
    LeaveSame(a, x, p, n.calls, n.refused, n.now, n.sock.done, Lead(n));
  }

  /** Out of the pipe and into a list, or refused. */
  lemma ServeOrder(n: Net)
    requires SideInv(n) && Ordered(n) && n.pipe != [] && Idle(n) && n.sock.kind != Reserved
    ensures Ordered(Served(n).(now := n.now + 1))
  {
    hide Row, Front, Back, Keys, SideInv, RowInv, Matches, Lead, Writer, SendSocket;
    var n', s, x, p := Served(n).(now := n.now + 1), n.sock, n.pipe[0].key, Keys(n.pipe[1..]);
    var a, h, l, d := Front(s) + Writer(n), Keys(s.high), Keys(s.low), Keys(s.dropped);
    ServeParts(n);
    ServeRow(n);
    LowPlain(n);
    hide Ordered;
    if s.kind == Accepted {
      ServedRefused(a + h + l + d, x, p, n, n');
    } else if x.prio == High && (s.kind == Connecting || s.kind == Connected) {
      ServedOrder(a + h, l, x, p, n, n');
    } else {
      assert a + h + l + d + [] == a + h + l + d && a + h + l + d + [x] + [] == a + h + l + d + [x];
      ServedOrder(a + h + l + d, [], x, p, n, n');
    }
  }

  lemma LowPlain(n: Net)
    requires SideInv(n) && Idle(n) && Matches(n.calls, n.refused, Row(n))
    ensures forall y :: y in Keys(n.sock.low) ==> y.prio == Low && y.passed == {}
  {
    forall y | y in Keys(n.sock.low) ensures y.prio == Low && y.passed == {} {
      assert y in Row(n);
      var i :| 0 <= i < |n.sock.low| && Keys(n.sock.low)[i] == y;
      assert n.sock.low[i] in n.sock.low;
    }
  }

  lemma ServeParts(n: Net)
    requires SideInv(n) && n.pipe != [] && Idle(n) && n.sock.kind != Reserved
    ensures var s, x, p := n.sock, n.pipe[0].key, Keys(n.pipe[1..]);
            var a, h, l, d := Front(s) + Writer(n), Keys(s.high), Keys(s.low), Keys(s.dropped);
            && Row(n) == a + h + l + d + [x] + p && |s.done| <= |a| && Lead(n) == |a|
            && (s.kind == Connecting || s.kind == Connected ==> a + h + l + d == a + h + l)
  {
    var s, b, p := n.sock, n.pipe[0], Keys(n.pipe[1..]);
    assert n.pipe == [b] + n.pipe[1..];
    KeysAppend([b], n.pipe[1..]);
    assert Keys([b]) == [b.key];
    var a, h, l, d := Front(s) + Writer(n), Keys(s.high), Keys(s.low), Keys(s.dropped);
    Assoc(a, h, l);
    Assoc(a, h + l, d);
    Assoc(a + h + l + d, [b.key], p);
  }

  lemma ServeRow(n: Net)
    requires SideInv(n) && n.pipe != [] && Idle(n) && n.sock.kind != Reserved
    ensures var s, x, p, n' := n.sock, n.pipe[0].key, Keys(n.pipe[1..]), Served(n).(now := n.now + 1);
            var a, h, l, d := Front(s) + Writer(n), Keys(s.high), Keys(s.low), Keys(s.dropped);
            && Lead(n') == Lead(n) && n'.sock.done == s.done
            && Row(n') ==
                 if s.kind == Accepted then a + h + l + d + p
                 else if x.prio == High && (s.kind == Connecting || s.kind == Connected) then a + h + [x] + l + p
                 else a + h + l + d + [x] + p
  {
    var n', a := Served(n).(now := n.now + 1), Front(n.sock) + Writer(n);
    ServeBack(n.sock, n.pipe[0], a);
    ServeFront(n);
    hide SockInv, ClosingInv, Keys, Back, Front, Writer, SendSocket;
    assert Row(n') == a + Back(SendSocket(n.sock, n.pipe[0])) + Keys(n.pipe[1..]);
  }

  lemma ServeFront(n: Net)
    requires n.pipe != []
    ensures var n' := Served(n).(now := n.now + 1);
            Writer(n') == Writer(n) && Front(n'.sock) == Front(n.sock) && n'.sock.done == n.sock.done
  {
  }

  lemma ServeBack(s: Sock, b: Buf, a: seq<Request>)
    requires s.kind != Reserved && (s.dropped != [] ==> s.kind == Invalid || s.kind == HalfClose)
    ensures var h, l, d := Keys(s.high), Keys(s.low), Keys(s.dropped);
            a + Back(SendSocket(s, b)) ==
              if s.kind == Accepted then a + h + l + d
              else if b.key.prio == High && (s.kind == Connecting || s.kind == Connected) then a + h + [b.key] + l
              else a + h + l + d + [b.key]
  {
    var h, l, d := Keys(s.high), Keys(s.low), Keys(s.dropped);
    assert Keys([b]) == [b.key];
    if s.kind == Accepted {
      Parts(a, h, l, d);
    } else if s.kind == Invalid || s.kind == HalfClose {
      KeysAppend(s.dropped, [b]);
      Parts(a, h, l, d + [b.key]);
      Assoc(a + h + l, d, [b.key]);
    } else if b.key.prio == High {
      KeysAppend(s.high, [b]);
      Parts(a, h + [b.key], l, d);
      Assoc(a, h, [b.key]);
    } else if Empty(s) && s.kind == Connected {
      KeysAppend(s.high, [b]);
      assert Back(SendSocket(s, b)) == [b.key];
      assert a + h + l + d == a;
    } else {
      KeysAppend(s.low, [b]);
      Parts(a, h, l + [b.key], d);
      Assoc(a + h, l, [b.key]);
      assert a + h + l + d == a + h + l;
    }
  }

  lemma Parts(a: seq<Request>, h: seq<Request>, l: seq<Request>, d: seq<Request>)
    ensures a + (h + l + d) == a + h + l + d
    ensures d == [] ==> a + (h + l) == a + h + l
  {
  }

  /** What the socket thread appends has not been begun. */
  lemma ServeChange(n: Net)
    requires n.pipe != [] && n.pipe[0].sent == 0
    ensures LockedChange(n, Served(n).(now := n.now + 1))
  {
  }

  lemma ServeSeen(n: Net)
    requires CallsInv(n) && SeenInv(n) && n.pipe != [] && (n.lock == None || LockedChange(n, Served(n).(now := n.now + 1)))
    ensures SeenInv(Served(n).(now := n.now + 1))
  {
    hide LockedChange, SeenInv, CallsInv;
    assert n.pipe == [n.pipe[0]] + n.pipe[1..];
    SeenAll(n, Served(n).(now := n.now + 1));
  }

  lemma ServeCalls(n: Net)
    requires CallsInv(n) && CountInv(n) && n.pipe != [] && Idle(n)
    ensures CallsInv(Served(n).(now := n.now + 1)) && CountInv(Served(n).(now := n.now + 1))
  {
  }

  lemma ServeSide(n: Net)
    requires SideInv(n) && n.pipe != [] && Idle(n) && n.sock.kind != Reserved
    ensures SideInv(Served(n).(now := n.now + 1))
  {
    SendSocketKeeps(n.sock, n.pipe[0]);
  }

  lemma ServeKeeps(n: Net)
    requires Inv(n) && Enabled(n, Serve)
    ensures Inv(Apply(n, Serve))
  {
    hide SockInv, ClosingInv, CallsInv, CountInv, SeenInv, Ordered;
    assert n.pipe[0] in n.pipe;
    ServeChange(n);
    hide SideInv;
    var n' := Served(n).(now := n.now + 1);
    ServeOrder(n);
    ServeSide(n);
    ServeCalls(n);
    ServeSeen(n);
    InvIs(n');
  }

  // ---------------------------------------------------------------- every step

  predicate ByCaller(step: Step) {
    step.Start? || step.Refuse? || step.Enter? || step.Peek? || step.TryLock? || step.Skip? || step.Look?
    || step.Write? || step.Unlock? || step.Inc? || step.Post?
  }

  lemma CallerKeeps(n: Net, step: Step)
    requires Inv(n) && Enabled(n, step) && ByCaller(step)
    ensures Inv(Apply(n, step))
  {
    hide Inv, Enabled, Apply;
    match step
    case Start(t, bytes, prio) => StartKeeps(n, t, bytes, prio);
    case Refuse(t) => RefuseKeeps(n, t);
    case Enter(t) => EnterKeeps(n, t);
    case Peek(t) => PeekKeeps(n, t);
    case TryLock(t) => TryLockKeeps(n, t);
    case Skip(t) => SkipKeeps(n, t);
    case Look(t) => LookKeeps(n, t);
    case Write(t, k) => WriteKeeps(n, t, k);
    case Unlock(t) => UnlockKeeps(n, t);
    case Inc(t) => IncKeeps(n, t);
    case Post(t) => PostKeeps(n, t);
  }

  function AfterNewFd(n: Net): Net {
    n.(sock := Opened(n.sock), tcp := true, sending := 0, now := n.now + 1)
  }

  lemma NewFdOrder(n: Net)
    requires Ordered(n)
    ensures Ordered(AfterNewFd(n)) || n.sock.dw.Some?
  {
    if n.sock.dw.None? {
      var n' := AfterNewFd(n);
      assert Writer(n') == Writer(n) && Front(n'.sock) == Front(n.sock) && Back(n'.sock) == Back(n.sock);
      QuietOrder(n, n');
    }
  }

  lemma NewFdSide(n: Net)
    requires SideInv(n) && n.sock.kind == Reserved && !n.tcp
    ensures SideInv(AfterNewFd(n)) && n.sock.dw.None?
  {
    OpenedKeeps(n.sock);
  }

  lemma NewFdCalls(n: Net)
    requires CallsInv(n)
    ensures CallsInv(AfterNewFd(n))
  {
  }

  lemma NewFdKeeps(n: Net)
    requires Inv(n) && Enabled(n, NewFd)
    ensures Inv(Apply(n, NewFd))
  {
    hide SockInv, ClosingInv, Ordered, SeenInv, SideInv, CallsInv;
    NewFdSide(n);
    NewFdOrder(n);
    NewFdCalls(n);
    SeenAll(n, AfterNewFd(n));
  }

  lemma TypeKeeps(n: Net, kind: Kind)
    requires Inv(n) && Enabled(n, Type(kind))
    ensures Inv(Apply(n, Type(kind)))
  {
    TypedKeeps(n.sock, kind);
    KindRow(n, kind);
    hide SockInv, Ordered, RowInv, Row, CallsInv, SeenInv, Lead;
    SockKeeps(n, n.sock.(kind := kind), false);
  }

  lemma FailKeeps(n: Net)
    requires Inv(n) && Enabled(n, Fail)
    ensures Inv(Apply(n, Fail))
  {
    FailedKeeps(n.sock);
    KindRow(n, Invalid);
    hide SockInv, Ordered, RowInv, Row, CallsInv, Lead;
    var s' := n.sock.(kind := Invalid);
    SockKeeps(n, s', false);
  }

  lemma OpenKeeps(n: Net, step: Step)
    requires Inv(n) && Enabled(n, step) && (step == Open || step == Connect || step == Shut)
    ensures Inv(Apply(n, step))
  {
    KindKeeps(n, if step == Shut then HalfClose else Connected);
  }

  /** Only the assertion in dec_sending_ref ends a run. */
  lemma AbortsAt(n: Net, step: Step)
    requires Enabled(n, step) && Apply(n, step).aborted
    ensures step == Dec
  {
    hide Waiting, DirectWrite, SendSocket, SendBuffer, FreeLists, Finish, Sees, Framed;
  }

  lemma SocketKeeps(n: Net, step: Step)
    requires Inv(n) && Enabled(n, step) && !ByCaller(step)
    ensures Inv(Apply(n, step))
    ensures step == Dec && Apply(n, step).aborted ==> n.uncounted != {}
  {
    hide Inv, Enabled, Apply;
    match step
    case Serve => ServeKeeps(n);
    case Dec => DecKeeps(n);
    case Flush(w) => FlushKeeps(n, w);
    case NewFd => NewFdKeeps(n);
    case Type(k) => TypeKeeps(n, k);
    case Fail => FailKeeps(n);
    case Open => OpenKeeps(n, Open);
    case Connect => OpenKeeps(n, Connect);
    case Shut => OpenKeeps(n, Shut);
    case Free => FreeKeeps(n);
    case Close => CloseKeeps(n);
  }

  /** Every step keeps the invariant, and the assertion in dec_sending_ref fails only if a call was not counted. */
  lemma StepKeeps(n: Net, step: Step)
    requires Inv(n) && Enabled(n, step)
    ensures Inv(Apply(n, step))
    ensures Apply(n, step).aborted ==> n.uncounted != {}
  {
    hide Inv, Enabled, Apply;
    if ByCaller(step) {
      CallerKeeps(n, step);
    } else {
      SocketKeeps(n, step);
    }
    if Apply(n, step).aborted { AbortsAt(n, step); }
  }

  // ---------------------------------------------------------------- over whole runs

  lemma InitOrder(n: Net)
    requires Init(n)
    ensures Row(n) == [] && Ordered(n)
  {
  }

  lemma InitCalls(n: Net)
    requires Init(n)
    ensures CallsInv(n) && CountInv(n) && SeenInv(n)
  {
    assert PostingSet(n.pcs) == {};
  }

  lemma InitInv(n: Net)
    requires Init(n)
    ensures Inv(n)
  {
    InitOrder(n);
    InitCalls(n);
    EmptyInv(n.sock);
    hide Ordered, CallsInv, CountInv, SeenInv, SockInv;
  }

  lemma {:induction false} RunInv(tr: seq<Net>, steps: seq<Step>, i: nat)
    requires Run(tr, steps) && i < |tr|
    ensures Inv(tr[i])
  {
    if i == 0 {
      InitInv(tr[0]);
    } else {
      RunInv(tr, steps, i - 1);
      assert Follows(tr, steps, i - 1);
      StepKeeps(tr[i - 1], steps[i - 1]);
    }
  }
}
