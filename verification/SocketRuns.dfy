/**
  What callers and peer see of any run of sends on one TCP socket. Nobody is overtaken and no message is
  torn, but by a direct write between the two halves of a close, or past requests that are underway when
  some call has not been counted because the socket had not been opened; and then exactly by that.
 */
module SocketRuns {
  import opened Common
  import opened SocketSend
  import opened SocketWire
  import opened SocketOrder

  /** The request of this call took its turn, and was not refused for coming to a socket not started. */
  ghost predicate TookTurn(n: Net, a: int) {
    a in n.calls && n.calls[a].ticket.Some? && a !in n.refused
  }

  /** A byte of this call is on the wire. */
  ghost predicate HasByte(s: Sock, b: int) {
    exists j :: 0 <= j < |s.wire| && s.wire[j].of.call == b
  }

  /** A byte of b stands on the wire where not all bytes of a stand before it. */
  ghost predicate Overtaken(n: Net, a: int, b: int)
    requires a in n.calls && n.calls[a].ticket.Some?
  {
    exists j :: 0 <= j < |n.sock.wire| && n.sock.wire[j].of.call == b && !WhollyBefore(n.sock.wire, Made(n.calls, a), j)
  }

  /** What a close has freed, all of it or the rest of it. */
  ghost function GivenUp(s: Sock): set<int> {
    CallsIn(Keys(s.dropped)) + Stumps(s.done)
  }

  /** The last read of the second check passes. */
  ghost predicate Grants(n: Net, step: Step, t: int) {
    step == Look(t) && Enabled(n, step) && n.pcs[t].k == READS - 1 && Sees(n, READS - 1)
  }

  /** What is in the pipe or in a list. */
  ghost function InTransit(n: Net): set<int> {
    CallsIn(Keys(n.sock.high) + Keys(n.sock.low) + Keys(n.pipe))
  }

  /**
    The check of b passes between the halves of a close that has freed the request of a, or while that is
    in the pipe or in a list and some call has not been counted.
   */
  ghost predicate GoesPast(n: Net, step: Step, a: int, b: int) {
    Grants(n, step, b) && ((n.closing && a in GivenUp(n.sock)) || (n.uncounted != {} && a in InTransit(n)))
  }

  /** A call goes through inc_sending_ref before the protocol has been set. */
  ghost predicate Uncounts(n: Net, step: Step) {
    step.Inc? && !n.tcp
  }

  /** A direct write puts a byte behind a message that was given up when part of it had been written. */
  ghost predicate Tears(n: Net, step: Step) {
    step.Write? && step.n > 0 && Stumps(n.sock.done) != {}
  }

  // ---------------------------------------------------------------- the row and the wire

  lemma OnWireEnded(n: Net)
    requires Inv(n)
    ensures n.sock.wire == Flat(OnWire(n.sock)) && Ended(OnWire(n.sock))
  {
    WireIs(n.sock);
  }

  /** The buffer being written is the next in the row behind those that are done with. */
  lemma PartialNext(n: Net)
    requires Inv(n) && |OnWire(n.sock)| > |n.sock.done|
    ensures |Row(n)| > |n.sock.done| && Row(n)[|n.sock.done|] == OnWire(n.sock)[|n.sock.done|].key
    ensures n.sock.dw.Some? ==> Lead(n) > |n.sock.done|
    ensures n.sock.kind != Invalid
  {
    var s := n.sock;
    if s.dw.None? {
      assert s.high != [] && s.high[0].sent > 0 && !Fresh(s.high);
      NotWriting(n);
      assert Back(s)[0] == s.high[0].key;
    }
  }

  lemma NotWriting(n: Net)
    requires CallsInv(n) && SeenInv(n) && !Fresh(n.sock.high)
    ensures Writer(n) == []
  {
    if Writer(n) != [] { WriterSees(n); }
  }

  lemma OnWireInRow(n: Net, k: nat)
    requires Inv(n) && k < |OnWire(n.sock)|
    ensures k < |Row(n)| && Row(n)[k] == OnWire(n.sock)[k].key
    ensures k < |n.sock.done| ==> OnWire(n.sock)[k] == n.sock.done[k]
  {
    if k < |n.sock.done| {
      assert Row(n)[k] == Keys(n.sock.done)[k];
    } else {
      PartialNext(n);
    }
  }

  /** No call is in the row twice. */
  lemma OnceEach(n: Net, i: int, j: int)
    requires Inv(n) && 0 <= i < |Row(n)| && 0 <= j < |Row(n)| && Row(n)[i].call == Row(n)[j].call
    ensures i == j
  {
    assert PairOK(Row(n), n.sock.done, Lead(n), i, j) && PairOK(Row(n), n.sock.done, Lead(n), j, i);
  }

  lemma PlaceInRow(n: Net, a: int) returns (i: nat)
    requires Inv(n) && TookTurn(n, a)
    ensures i < |Row(n)| && Row(n)[i] == Made(n.calls, a)
  {
    var x := Made(n.calls, a);
    assert x in Row(n);
    i :| 0 <= i < |Row(n)| && Row(n)[i] == x;
  }

  /** Where the byte at place j is from, in the row. */
  lemma ByteInRow(n: Net, j: int) returns (k: nat)
    requires Inv(n) && 0 <= j < |n.sock.wire|
    ensures k < |OnWire(n.sock)| && k < |Row(n)| && n.sock.wire[j].of == Row(n)[k] == OnWire(n.sock)[k].key && Known(n.calls, Row(n)[k])
    ensures Place(OnWire(n.sock), k) <= j < End(OnWire(n.sock), k) && n.sock.wire[j].at == j - Place(OnWire(n.sock), k)
  {
    OnWireEnded(n);
    k := Locate(OnWire(n.sock), j);
    OnWireInRow(n, k);
  }

  /** Only what is done with in full is wholly on the wire, and before what is behind it. */
  lemma OnlyFull(n: Net, i: nat, k: nat, j: int)
    requires Inv(n) && i < |Row(n)| && Row(n)[i].bytes != []
    requires k < |OnWire(n.sock)| && Place(OnWire(n.sock), k) <= j < End(OnWire(n.sock), k) && i != k
    requires WhollyBefore(n.sock.wire, Row(n)[i], j)
    ensures i < k && i < |n.sock.done| && Full(n.sock.done[i])
  {
    var w, x, l := n.sock.wire, Row(n)[i], OnWire(n.sock);
    var p :| StandsAt(w, x, j, p);
    var q := p + |x.bytes| - 1;
    LastMark(w, x, j, p);
    var m := ByteInRow(n, q);
    OnceEach(n, m, i);
    if k < m { Apart(l, k, m); }
    OnWireEnded(n);
    OnWireInRow(n, m);
  }

  lemma FullBefore(n: Net, i: nat, k: nat, j: int)
    requires Inv(n) && i < k < |OnWire(n.sock)| && i < |n.sock.done| && Full(n.sock.done[i])
    requires Place(OnWire(n.sock), k) <= j <= |n.sock.wire|
    ensures i < |Row(n)| && WhollyBefore(n.sock.wire, Row(n)[i], j)
  {
    OnWireEnded(n);
    OnWireInRow(n, i);
    Segment(OnWire(n.sock), i);
    Apart(OnWire(n.sock), i, k);
    assert StandsAt(n.sock.wire, Row(n)[i], j, Place(OnWire(n.sock), i));
  }

  /** A stump before what is on the wire stands among what is written before anything else. */
  lemma StumpLeads(n: Net, i: nat, k: nat)
    requires Inv(n) && i < |n.sock.done| && Stump(n.sock.done[i]) && k < |OnWire(n.sock)|
    ensures k < Lead(n)
  {
    if k >= |n.sock.done| {
      PartialNext(n);
    }
  }

  /** For one byte of b: all of a stands before it, unless b went past a. */
  lemma ByteAfter(n: Net, a: int, b: int, j: int)
    requires Inv(n) && TookTurn(n, a) && b in n.calls && EndsBefore(n.calls[a], n.calls[b])
    requires n.calls[a].prio == High || n.calls[b].prio == Low
    requires 0 <= j < |n.sock.wire| && n.sock.wire[j].of.call == b
    ensures WhollyBefore(n.sock.wire, Made(n.calls, a), j) <==> n.calls[a].bytes == [] || a !in n.calls[b].passed
  {
    var r, done, m := Row(n), n.sock.done, Lead(n);
    var i := PlaceInRow(n, a);
    var k := ByteInRow(n, j);
    assert CallTimes(n.calls[a], n.now) && CallTimes(n.calls[b], n.now);
    assert r[i].call == a && r[k].call == b && i != k;
    assert PairOK(r, done, m, i, k) && PairOK(r, done, m, k, i);
    if r[i].bytes == [] {
      assert StandsAt(n.sock.wire, r[i], j, 0);
    } else if i < k && Full(done[i]) {
      FullBefore(n, i, k, j);
    } else {
      if i < k { StumpLeads(n, i, k); }
      if WhollyBefore(n.sock.wire, r[i], j) { OnlyFull(n, i, k, j); }
    }
  }

  lemma OvertakenIs(n: Net, a: int, b: int)
    requires Inv(n) && TookTurn(n, a) && b in n.calls && EndsBefore(n.calls[a], n.calls[b])
    requires n.calls[a].prio == High || n.calls[b].prio == Low
    ensures Overtaken(n, a, b) <==> n.calls[a].bytes != [] && HasByte(n.sock, b) && a in n.calls[b].passed
  {
    forall j | 0 <= j < |n.sock.wire| && n.sock.wire[j].of.call == b
      ensures WhollyBefore(n.sock.wire, Made(n.calls, a), j) <==> n.calls[a].bytes == [] || a !in n.calls[b].passed
    {
      ByteAfter(n, a, b, j);
    }
  }

  // ---------------------------------------------------------------- what stays

  /** The later call: begun at the same moment with the same bytes; what is settled stays. */
  ghost predicate Settled(c: Call, d: Call) {
    && d.start == c.start && d.prio == c.prio && d.bytes == c.bytes
    && (c.ticket.Some? ==> d.ticket == c.ticket && d.passed == c.passed)
    && (c.ret.Some? ==> d == c)
  }

  /** The call that takes a step. */
  function Who(step: Step): int
    requires ByCaller(step)
  {
    step.t
  }

  lemma ThreadSettled(n: Net, step: Step)
    requires Enabled(n, step) && !ByCaller(step)
    ensures Apply(n, step).calls == n.calls
  {
    hide SendSocket, SendBuffer, FreeLists, Finish, Opened, Framed;
  }

  /** Most steps of a caller only move it. */
  predicate Moves(step: Step) {
    step.Enter? || step.Peek? || step.TryLock? || step.Skip? || step.Unlock? || step.Inc?
  }

  lemma MovesSettled(n: Net, step: Step)
    requires Enabled(n, step) && Moves(step)
    ensures Apply(n, step).calls == n.calls
  {
  }

  lemma OthersSettled(n: Net, step: Step, t: int)
    requires Enabled(n, step) && ByCaller(step) && t != Who(step) && t in n.calls
    ensures t in Apply(n, step).calls && Apply(n, step).calls[t] == n.calls[t]
  {
    if Moves(step) {
      hide Apply;
      MovesSettled(n, step);
    } else {
      OthersTurn(n, step, t);
    }
  }

  lemma OthersTurn(n: Net, step: Step, t: int)
    requires Enabled(n, step) && ByCaller(step) && !Moves(step) && t != Who(step) && t in n.calls
    ensures t in Apply(n, step).calls && Apply(n, step).calls[t] == n.calls[t]
  {
    hide Waiting, DirectWrite, Sees;
  }

  lemma CallerSettled(n: Net, step: Step)
    requires CallsInv(n) && Enabled(n, step) && ByCaller(step) && Who(step) in n.calls
    ensures Who(step) in Apply(n, step).calls && Settled(n.calls[Who(step)], Apply(n, step).calls[Who(step)])
  {
    if Moves(step) {
      hide Apply, CallsInv;
      MovesSettled(n, step);
    } else {
      TurnSettled(n, step);
    }
  }

  lemma TurnSettled(n: Net, step: Step)
    requires CallsInv(n) && Enabled(n, step) && ByCaller(step) && !Moves(step) && Who(step) in n.calls
    ensures Who(step) in Apply(n, step).calls && Settled(n.calls[Who(step)], Apply(n, step).calls[Who(step)])
  {
    hide Waiting, DirectWrite, Sees;
  }

  lemma StepSettled(n: Net, step: Step, t: int)
    requires CallsInv(n) && Enabled(n, step) && t in n.calls
    ensures t in Apply(n, step).calls && Settled(n.calls[t], Apply(n, step).calls[t])
  {
    hide Apply, Enabled, CallsInv, ByCaller;
    if !ByCaller(step) {
      ThreadSettled(n, step);
    } else if t != Who(step) {
      OthersSettled(n, step, t);
    } else {
      CallerSettled(n, step);
    }
  }

  lemma {:induction false} CallStays(tr: seq<Net>, steps: seq<Step>, m: nat, i: nat, t: int)
    requires Run(tr, steps) && m <= i < |tr| && t in tr[m].calls
    ensures t in tr[i].calls && Settled(tr[m].calls[t], tr[i].calls[t])
    decreases i
  {
    if m < i {
      CallStays(tr, steps, m, i - 1, t);
      RunInv(tr, steps, i - 1);
      assert Follows(tr, steps, i - 1);
      StepSettled(tr[i - 1], steps[i - 1], t);
    }
  }

  /** A call goes past others at the moment its second check passes, and at no other. */
  lemma PassedStep(n: Net, step: Step, b: int)
    requires CallsInv(n) && SeenInv(n) && Enabled(n, step)
    requires b in Apply(n, step).calls && Apply(n, step).calls[b].passed != {}
    ensures (b in n.calls && n.calls[b].passed != {}) || Grants(n, step, b)
  {
    if !ByCaller(step) {
      hide Apply, CallsInv, SeenInv;
      ThreadSettled(n, step);
    } else if Moves(step) {
      hide Apply, CallsInv, SeenInv;
      MovesSettled(n, step);
    } else {
      PassedByCaller(n, step, b);
    }
  }

  lemma PassedByCaller(n: Net, step: Step, b: int)
    requires CallsInv(n) && SeenInv(n) && Enabled(n, step) && ByCaller(step) && !Moves(step)
    requires b in Apply(n, step).calls && Apply(n, step).calls[b].passed != {}
    ensures (b in n.calls && n.calls[b].passed != {}) || Grants(n, step, b)
  {
    hide Waiting, DirectWrite, Recent, Fresh;
    if step.Look? {
      assert Seen(n, step.t, n.pcs[step.t]);
    } else {
      hide SeenInv;
    }
  }

  lemma {:induction false} PassedFrom(tr: seq<Net>, steps: seq<Step>, i: nat, b: int) returns (m: nat)
    requires Run(tr, steps) && i < |tr| && b in tr[i].calls && tr[i].calls[b].passed != {}
    ensures m < i && Grants(tr[m], steps[m], b)
  {
    assert i > 0 && Follows(tr, steps, i - 1);
    RunInv(tr, steps, i - 1);
    PassedStep(tr[i - 1], steps[i - 1], b);
    if Grants(tr[i - 1], steps[i - 1], b) {
      m := i - 1;
    } else {
      m := PassedFrom(tr, steps, i - 1, b);
    }
  }

  lemma GrantIs(n: Net, step: Step, b: int)
    requires Grants(n, step, b)
    ensures b in n.calls && At(n, b, Looking(READS - 1)) && n.sock.kind == Connected
    ensures b in Apply(n, step).calls && Apply(n, step).calls[b].passed == Waiting(n) && Apply(n, step).calls[b].ticket.Some?
  {
  }

  lemma GrantPassed(tr: seq<Net>, steps: seq<Step>, m: nat, i: nat, b: int)
    requires Run(tr, steps) && m < i < |tr| && Grants(tr[m], steps[m], b)
    ensures b in tr[m].calls && b in tr[i].calls && tr[i].calls[b].passed == Waiting(tr[m])
    ensures Settled(tr[m].calls[b], tr[i].calls[b])
  {
    GrantIs(tr[m], steps[m], b);
    assert Follows(tr, steps, m);
    CallStays(tr, steps, m + 1, i, b);
    CallStays(tr, steps, m, i, b);
  }

  /** What waits is in transit, or has been given up. */
  lemma WaitingIs(n: Net)
    ensures Waiting(n) == InTransit(n) + GivenUp(n.sock)
  {
    var h, l, d, p := Keys(n.sock.high), Keys(n.sock.low), Keys(n.sock.dropped), Keys(n.pipe);
    forall x ensures x in Back(n.sock) + p <==> x in h + l + p || x in d {
    }
    hide Keys;
    assert CallsIn(Back(n.sock) + p) == CallsIn(h + l + p) + CallsIn(d);
  }

  /** When the last read of the check passes and every call has been counted, nothing that was over before is in transit. */
  lemma NoneInTransit(n: Net, b: int, a: int)
    requires Inv(n) && At(n, b, Looking(READS - 1)) && n.uncounted == {}
    requires a in n.calls && EndsBefore(n.calls[a], n.calls[b])
    ensures a !in InTransit(n)
  {
    assert Seen(n, b, n.pcs[b]);
    forall x | x in Keys(n.sock.high) + Keys(n.sock.low) + Keys(n.pipe) ensures x.call != a {
      if x.call == a {
        NotRecent(n, b, n.sock.high, x);
        NotRecent(n, b, n.sock.low, x);
        NotRecent(n, b, n.pipe, x);
      }
    }
  }

  /** Of what was over before the call began, this waits when the last read of the check passes. */
  lemma GrantWaiting(n: Net, b: int, a: int)
    requires Inv(n) && At(n, b, Looking(READS - 1)) && n.sock.kind == Connected
    requires a in n.calls && EndsBefore(n.calls[a], n.calls[b])
    ensures a in Waiting(n) <==> a in GivenUp(n.sock) || a in InTransit(n)
    ensures a in GivenUp(n.sock) ==> n.closing
    ensures a in InTransit(n) ==> n.uncounted != {}
  {
    WaitingIs(n);
    if n.uncounted == {} { NoneInTransit(n, b, a); }
    if !n.closing { NoneGivenUp(n); }
  }

  lemma NotRecent(n: Net, b: int, l: seq<Buf>, x: Request)
    requires b in n.calls && Recent(n, b, l) && n.uncounted == {} && x.call in n.calls && EndsBefore(n.calls[x.call], n.calls[b])
    ensures x !in Keys(l)
  {
    forall i | 0 <= i < |l| ensures Keys(l)[i] != x {
      assert l[i] in l;
    }
  }

  /** On an open socket only a close that is under way has given anything up. */
  lemma NoneGivenUp(n: Net)
    requires SideInv(n) && n.sock.kind == Connected && !n.closing
    ensures GivenUp(n.sock) == {} && n.sock.dropped == [] && Keys(n.sock.dropped) == [] && AllFull(n.sock.done)
  {
  }

  // ---------------------------------------------------------------- order

  lemma OverAtGrant(n: Net, b: int, a: int)
    requires Inv(n) && At(n, b, Looking(READS - 1)) && a in Waiting(n)
    ensures a in n.calls && n.calls[a].ret.Some?
  {
    WaitingKnown(n, b);
    assert UnderLock(n.pcs[b]) && n.lock == Some(b);
  }

  lemma WentPast(tr: seq<Net>, steps: seq<Step>, i: nat, a: int, b: int)
    requires Run(tr, steps) && i < |tr| && a in tr[i].calls && b in tr[i].calls && EndsBefore(tr[i].calls[a], tr[i].calls[b])
    ensures a in tr[i].calls[b].passed <==> exists m :: 0 <= m < i && GoesPast(tr[m], steps[m], a, b)
  {
    if a in tr[i].calls[b].passed {
      var m := PassedFrom(tr, steps, i, b);
      PastAt(tr, steps, m, i, a, b);
    }
    forall m | 0 <= m < i && GoesPast(tr[m], steps[m], a, b) ensures a in tr[i].calls[b].passed {
      GrantPassed(tr, steps, m, i, b);
      WaitingIs(tr[m]);
    }
  }

  lemma PastAt(tr: seq<Net>, steps: seq<Step>, m: nat, i: nat, a: int, b: int)
    requires Run(tr, steps) && m < i < |tr| && Grants(tr[m], steps[m], b)
    requires a in tr[i].calls && b in tr[i].calls && EndsBefore(tr[i].calls[a], tr[i].calls[b]) && a in tr[i].calls[b].passed
    ensures GoesPast(tr[m], steps[m], a, b)
  {
    RunInv(tr, steps, m);
    GrantPassed(tr, steps, m, i, b);
    GrantIs(tr[m], steps[m], b);
    OverAtGrant(tr[m], b, a);
    CallStays(tr, steps, m, i, a);
    GrantWaiting(tr[m], b, a);
  }

  /**
    In every state of every run, for a call a that returned before b started, unless b is high-priority
    and a is not: a byte of b stands before the end of a exactly if b has a byte on the wire and its
    check went past a, which takes a close under way or a call that was not counted.
   */
  lemma NoOvertaking(tr: seq<Net>, steps: seq<Step>, i: nat, a: int, b: int)
    requires Run(tr, steps) && i < |tr|
    requires TookTurn(tr[i], a) && b in tr[i].calls && EndsBefore(tr[i].calls[a], tr[i].calls[b])
    requires tr[i].calls[a].prio == High || tr[i].calls[b].prio == Low
    ensures Overtaken(tr[i], a, b) <==>
              && tr[i].calls[a].bytes != [] && HasByte(tr[i].sock, b)
              && exists m :: 0 <= m < i && GoesPast(tr[m], steps[m], a, b)
  {
    RunInv(tr, steps, i);
    OvertakenIs(tr[i], a, b);
    WentPast(tr, steps, i, a, b);
  }

  // ---------------------------------------------------------------- wholeness

  lemma WholeIs(n: Net)
    requires Inv(n)
    ensures WholeMessages(n.sock.wire) <==> !TornFollowed(n.sock)
  {
    var s, l := n.sock, OnWire(n.sock);
    OnWireEnded(n);
    WholeIff(l);
    forall k | 0 <= k < |s.done| ensures l[k] == s.done[k] && End(l, k) == End(s.done, k) {
      assert l[..k] == s.done[..k];
    }
    forall k | |s.done| <= k < |l| ensures !StumpInside(l, k) {
      assert k == |l| - 1 && l[..k + 1] == l;
      PlaceNext(l, k);
    }
    forall k ensures StumpInside(l, k) <==> TornAt(s, k) {
    }
  }

  /** Something stands behind a stump. */
  ghost predicate TornAt(s: Sock, k: int) {
    0 <= k < |s.done| && Stump(s.done[k]) && End(s.done, k) < |s.wire|
  }

  ghost predicate TornFollowed(s: Sock) {
    exists k :: TornAt(s, k)
  }

  /** Buffers that are done with stay, and one may join them. */
  lemma JoinDone(s: Sock, s': Sock)
    requires s'.wire == s.wire && s.done <= s'.done && |s'.done| <= |s.done| + 1
    requires s'.done != s.done ==> !Stump(s'.done[|s.done|]) || End(s'.done, |s.done|) >= |s.wire|
    ensures TornFollowed(s') <==> TornFollowed(s)
  {
    forall k | 0 <= k < |s.done| ensures TornAt(s, k) <==> TornAt(s', k) {
      assert s.done[..k] == s'.done[..k];
    }
    forall k | k < 0 || k >= |s.done| ensures !TornAt(s, k) && !TornAt(s', k) {
    }
  }

  /** With nothing left over, the last buffer done with ends the wire. */
  lemma LastEnds(s: Sock, k: nat)
    requires s.wire == Flat(s.done) && k == |s.done| - 1
    ensures End(s.done, k) == |s.wire|
  {
    PlaceNext(s.done, k);
    assert s.done[..k + 1] == s.done;
  }

  /** One more buffer written in full, or none, and n bytes more. */
  lemma WriteStumps(s: Sock, s': Sock, n: nat)
    requires s.done <= s'.done && |s'.done| <= |s.done| + 1 && (s'.done != s.done ==> !Stump(s'.done[|s.done|]))
    requires |s'.wire| == |s.wire| + n && |Flat(s.done)| <= |s.wire|
    ensures TornFollowed(s') <==> TornFollowed(s) || (n > 0 && Stumps(s.done) != {})
  {
    forall i | 0 <= i < |s.done| ensures s'.done[i] == s.done[i] && End(s'.done, i) == End(s.done, i) <= |s.wire| {
      assert s'.done[..i] == s.done[..i];
      Ends(s.done, i);
    }
    forall i | 0 <= i < |s.done| ensures TornAt(s', i) <==> TornAt(s, i) || (n > 0 && Stump(s.done[i])) {
    }
    forall i | i < 0 || i >= |s.done| ensures !TornAt(s, i) && !TornAt(s', i) {
    }
    StumpsOf(s.done);
  }

  lemma WriteTears(n: Net, t: int, k: nat)
    requires Inv(n) && Enabled(n, Step.Write(t, k))
    ensures TornFollowed(Apply(n, Step.Write(t, k)).sock) <==> TornFollowed(n.sock) || Tears(n, Step.Write(t, k))
  {
    hide TornFollowed, Ordered, CallsInv, SeenInv, CountInv;
    WriteStumps(n.sock, Apply(n, Step.Write(t, k)).sock, k);
  }

  lemma StumpsOf(l: seq<Buf>)
    ensures Stumps(l) != {} <==> exists k :: 0 <= k < |l| && Stump(l[k])
  {
    forall k | 0 <= k < |l| && Stump(l[k]) ensures l[k].key.call in Stumps(l) {
      assert l[k] in l;
    }
  }

  lemma FlushTears(n: Net, w: seq<SocketSend.Write>)
    requires Inv(n) && Enabled(n, Step.Flush(w))
    ensures !TornFollowed(n.sock) && !TornFollowed(SendBuffer(n.sock, w))
  {
    SendBufferKeeps(n.sock, w);
    var s' := SendBuffer(n.sock, w);
    if s'.kind == Invalid && s'.done != [] {
      assert s'.wire == Flat(s'.done);
      LastEnds(s', |s'.done| - 1);
    }
  }

  lemma FreeTears(n: Net)
    requires Inv(n) && Enabled(n, Free)
    ensures TornFollowed(FreeLists(n.sock)) <==> TornFollowed(n.sock)
  {
    var s' := FreeLists(n.sock);
    FreeListsKeeps(n.sock);
    if s'.done != n.sock.done { LastEnds(s', |n.sock.done|); }
    JoinDone(n.sock, s');
  }

  lemma CloseTears(n: Net)
    requires Inv(n) && Enabled(n, Close)
    ensures TornFollowed(Finish(n.sock)) <==> TornFollowed(n.sock)
  {
    var s' := Finish(n.sock);
    FinishKeeps(n.sock);
    if s'.done != n.sock.done { LastEnds(s', |n.sock.done|); }
    JoinDone(n.sock, s');
  }

  lemma ServeTears(n: Net)
    requires Inv(n) && Enabled(n, Serve)
    ensures TornFollowed(Apply(n, Serve).sock) <==> TornFollowed(n.sock)
  {
    SendSocketKeeps(n.sock, n.pipe[0]);
    JoinDone(n.sock, Apply(n, Serve).sock);
  }

  lemma OtherTears(n: Net, step: Step)
    requires Enabled(n, step) && !(step.Write? || step.Flush? || step.Free? || step.Close? || step.Serve?)
    ensures TornFollowed(Apply(n, step).sock) <==> TornFollowed(n.sock)
  {
    JoinDone(n.sock, Apply(n, step).sock);
  }

  lemma StepTears(n: Net, step: Step)
    requires Inv(n) && Enabled(n, step)
    ensures TornFollowed(Apply(n, step).sock) <==> TornFollowed(n.sock) || Tears(n, step)
  {
    hide Inv, TornFollowed;
    match step
    case Write(t, k) => WriteTears(n, t, k);
    case Flush(w) => FlushTears(n, w);
    case Free => FreeTears(n);
    case Close => CloseTears(n);
    case Serve => ServeTears(n);
    case _ => OtherTears(n, step);
  }

  lemma TornStep(tr: seq<Net>, steps: seq<Step>, i: nat)
    requires Run(tr, steps) && i < |steps|
    ensures TornFollowed(tr[i + 1].sock) <==> TornFollowed(tr[i].sock) || Tears(tr[i], steps[i])
  {
    hide Inv, Enabled, Apply, TornFollowed, Tears, Init;
    RunInv(tr, steps, i);
    assert Follows(tr, steps, i);
    StepTears(tr[i], steps[i]);
  }

  lemma {:induction false} TornSince(tr: seq<Net>, steps: seq<Step>, i: nat)
    requires Run(tr, steps) && i < |tr|
    ensures TornFollowed(tr[i].sock) <==> exists m :: 0 <= m < i && Tears(tr[m], steps[m])
  {
    if i > 0 {
      TornSince(tr, steps, i - 1);
      TornStep(tr, steps, i - 1);
      hide Tears, TornFollowed, Init, Follows;
    } else {
      assert Init(tr[0]);
    }
  }

  /** In every state of every run the wire is whole messages and one beginning, unless and only unless one has been torn. */
  lemma WireIsWhole(tr: seq<Net>, steps: seq<Step>, i: nat)
    requires Run(tr, steps) && i < |tr|
    ensures WholeMessages(tr[i].sock.wire) <==> forall m :: 0 <= m < i ==> !Tears(tr[m], steps[m])
  {
    RunInv(tr, steps, i);
    WholeIs(tr[i]);
    TornSince(tr, steps, i);
  }

  /** A message is torn only between the halves of a close. */
  lemma TornInClose(tr: seq<Net>, steps: seq<Step>, i: nat)
    requires Run(tr, steps) && i < |steps| && Tears(tr[i], steps[i])
    ensures tr[i].closing
  {
    RunInv(tr, steps, i);
    assert Follows(tr, steps, i);
    StumpsOf(tr[i].sock.done);
    assert Seen(tr[i], steps[i].t, tr[i].pcs[steps[i].t]);
  }

  /** Whatever happens, the bytes on the wire are bytes of the calls, and none is there twice. */
  lemma BytesOnce(tr: seq<Net>, steps: seq<Step>, i: nat, j: int, k: int)
    requires Run(tr, steps) && i < |tr| && 0 <= j < |tr[i].sock.wire| && 0 <= k < |tr[i].sock.wire|
    ensures var m := tr[i].sock.wire[j];
            && TookTurn(tr[i], m.of.call) && m.of == Made(tr[i].calls, m.of.call) && m.at < |m.of.bytes|
    ensures tr[i].sock.wire[j] == tr[i].sock.wire[k] ==> j == k
  {
    RunInv(tr, steps, i);
    var n := tr[i];
    var p := ByteInRow(n, j);
    var q := ByteInRow(n, k);
    OnWireEnded(n);
    assert Row(n)[p].call !in n.refused;
    if n.sock.wire[j] == n.sock.wire[k] { OnceEach(n, p, q); }
  }

  // ---------------------------------------------------------------- direct writes

  /**
    All five reads at one moment, outside of a close: nothing waits in the lists and everything written is
    there in full; and as many requests are underway as calls have not been counted.
   */
  lemma DirectMeansAlone(n: Net)
    requires Inv(n) && CanDirect(n)
    ensures Underway(n) == |n.uncounted|
    ensures n.pipe == [] && !n.serving && PostingSet(n.pcs) == {} <==> n.uncounted == {}
    ensures Back(n.sock) == Keys(n.sock.dropped) && Front(n.sock) == Keys(n.sock.done)
    ensures !n.closing ==> Back(n.sock) == [] && AllFull(n.sock.done)
  {
    assert Sees(n, 0) && Sees(n, 1) && Sees(n, 2) && Sees(n, 3) && Sees(n, 4);
    assert Keys(n.sock.high) == [] && Keys(n.sock.low) == [];
    assert n.uncounted != {} ==> |n.uncounted| > 0;
  }

  lemma DoneOrWaiting(n: Net, a: int)
    requires Inv(n) && TookTurn(n, a) && Writer(n) == [] && n.sock.dw.None?
    ensures (exists k :: 0 <= k < |n.sock.done| && n.sock.done[k].key.call == a && Full(n.sock.done[k])) <==> a !in Waiting(n)
  {
    var done, q := n.sock.done, Back(n.sock) + Keys(n.pipe);
    var r := Keys(done) + q;
    Assoc(Keys(done), Back(n.sock), Keys(n.pipe));
    assert Keys(done) + [] + [] == Keys(done);
    assert Row(n) == r;
    var i := PlaceInRow(n, a);
    if i < |done| {
      InsertPassed(Keys(done), q, done, Lead(n), i);
      assert Ended(done);
      forall k | 0 <= k < |done| && done[k].key.call == a ensures k == i {
        assert Row(n)[k] == done[k].key;
        OnceEach(n, i, k);
      }
    } else {
      assert r[i] in q;
      forall k | 0 <= k < |done| ensures done[k].key.call != a {
        OtherCall(Keys(done), q, done, Lead(n), k, r[i]);
      }
    }
  }

  /**
    When a check passes, every request of a call that was over when this one began is wholly on the wire,
    unless a close under way has given it up, or it is in transit and some call has not been counted.
   */
  lemma DirectIsAlone(tr: seq<Net>, steps: seq<Step>, i: nat, t: int, a: int)
    requires Run(tr, steps) && i < |steps| && Grants(tr[i], steps[i], t)
    requires TookTurn(tr[i], a) && t in tr[i].calls && EndsBefore(tr[i].calls[a], tr[i].calls[t])
    ensures var s := tr[i].sock;
            (exists k :: 0 <= k < |s.done| && s.done[k].key.call == a && Full(s.done[k])) <==> a !in GivenUp(s) && a !in InTransit(tr[i])
    ensures a in GivenUp(tr[i].sock) ==> tr[i].closing
    ensures a in InTransit(tr[i]) ==> tr[i].uncounted != {}
  {
    RunInv(tr, steps, i);
    GrantIs(tr[i], steps[i], t);
    GrantRow(tr[i], t);
    GrantWaiting(tr[i], t, a);
    DoneOrWaiting(tr[i], a);
  }

  // ---------------------------------------------------------------- the counter

  /** A call is not counted by one step, inc_sending_ref before the protocol has been set, and by no other. */
  lemma UncountsStep(n: Net, step: Step)
    requires Enabled(n, step)
    ensures Apply(n, step).uncounted != {} <==> n.uncounted != {} || Uncounts(n, step)
  {
    hide Waiting, DirectWrite, SendSocket, SendBuffer, FreeLists, Finish, Opened, Sees, Framed;
    if step.Inc? && !n.tcp {
      assert step.t in Apply(n, step).uncounted;
    }
  }

  lemma {:induction false} UncountedSince(tr: seq<Net>, steps: seq<Step>, i: nat)
    requires Run(tr, steps) && i < |tr|
    ensures tr[i].uncounted != {} <==> exists m :: 0 <= m < i && Uncounts(tr[m], steps[m])
  {
    if i > 0 {
      UncountedSince(tr, steps, i - 1);
      assert Follows(tr, steps, i - 1);
      UncountsStep(tr[i - 1], steps[i - 1]);
      hide Uncounts, Init, Follows;
    } else {
      assert Init(tr[0]);
    }
  }

  lemma AbortStep(n: Net, step: Step)
    requires Inv(n) && Enabled(n, step) && Apply(n, step).aborted
    ensures Apply(n, step).tcp && Apply(n, step).uncounted != {}
  {
    StepKeeps(n, step);
    AbortsAt(n, step);
    hide Inv;
  }

  lemma {:induction false} AbortedFrom(tr: seq<Net>, steps: seq<Step>, i: nat)
    requires Run(tr, steps) && i < |tr| && tr[i].aborted
    ensures tr[i].tcp && tr[i].uncounted != {}
  {
    hide Inv, Enabled, Apply;
    assert i > 0;
    assert Follows(tr, steps, i - 1);
    RunInv(tr, steps, i - 1);
    AbortStep(tr[i - 1], steps[i - 1]);
  }

  /** Whatever was posted has been served. */
  ghost predicate AllServed(n: Net) {
    n.pipe == [] && PostingSet(n.pcs) == {} && !n.serving
  }

  /**
    The assertion in dec_sending_ref. A run that goes on until all that was posted has been served, or until
    the assertion fails, on a socket that has been opened: it fails exactly if some call went through
    inc_sending_ref before the socket was opened.
   */
  lemma AssertionHolds(tr: seq<Net>, steps: seq<Step>)
    requires Run(tr, steps)
    requires var n := tr[|steps|]; n.tcp && (AllServed(n) || n.aborted)
    ensures !tr[|steps|].aborted <==> forall m :: 0 <= m < |steps| ==> !Uncounts(tr[m], steps[m])
  {
    var n := tr[|steps|];
    RunInv(tr, steps, |steps|);
    UncountedSince(tr, steps, |steps|);
    if n.aborted {
      AbortedFrom(tr, steps, |steps|);
    } else {
      assert n.sending + |n.uncounted| == 0;
    }
  }

  /** In any run, so long as every call has been counted, the reference of a request that is served is there to be given back. */
  lemma DecFindsReference(tr: seq<Net>, steps: seq<Step>, i: nat)
    requires Run(tr, steps) && i < |steps| && steps[i] == Dec && tr[i].tcp
    requires forall m :: 0 <= m < i ==> !Uncounts(tr[m], steps[m])
    ensures tr[i].sending != 0
  {
    RunInv(tr, steps, i);
    UncountedSince(tr, steps, i);
    assert Follows(tr, steps, i);
  }

  /** In any state of any run it fails exactly if as many requests are underway as calls have not been counted. */
  lemma AbortsExactly(tr: seq<Net>, steps: seq<Step>, i: nat)
    requires Run(tr, steps) && i < |steps| && steps[i] == Dec
    ensures tr[i + 1].aborted <==> tr[i].tcp && Underway(tr[i]) == |tr[i].uncounted|
  {
    RunInv(tr, steps, i);
    assert Follows(tr, steps, i);
  }

  // ---------------------------------------------------------------- a socket that is open

  /** When nothing waits, every request that took its turn is on the wire, wholly, or given up by a close under way. */
  lemma QuietMeansSent(tr: seq<Net>, steps: seq<Step>, i: nat, a: int)
    requires Run(tr, steps) && i < |tr| && TookTurn(tr[i], a)
    requires tr[i].pipe == [] && Empty(tr[i].sock) && tr[i].sock.dw.None? && tr[i].sock.kind == Connected && tr[i].lock == None
    ensures var s := tr[i].sock;
            (exists k :: 0 <= k < |s.done| && s.done[k].key.call == a && Full(s.done[k])) <==> a !in GivenUp(s)
    ensures a in GivenUp(tr[i].sock) ==> tr[i].closing
  {
    RunInv(tr, steps, i);
    var n := tr[i];
    NoWriter(n);
    DoneOrWaiting(n, a);
    hide Ordered, CallsInv, SeenInv, Run, Row, Writer;
    assert Back(n.sock) + Keys(n.pipe) == Keys(n.sock.dropped);
    if !n.closing { NoneGivenUp(n); }
  }

  // ---------------------------------------------------------------- a run in which both happen

  ghost predicate Reaches(tr: seq<Net>, steps: seq<Step>, n: Net) {
    Run(tr, steps) && tr[|tr| - 1] == n
  }

  /** A run goes on. */
  lemma Extend(tr: seq<Net>, steps: seq<Step>, n: Net, step: Step)
    requires Reaches(tr, steps, n) && Enabled(n, step)
    ensures Reaches(tr + [Apply(n, step)], steps + [step], Apply(n, step))
  {
    var tr', steps' := tr + [Apply(n, step)], steps + [step];
    forall i | 0 <= i < |steps'| ensures Follows(tr', steps', i) {
      if i < |steps| { assert Follows(tr, steps, i); }
    }
  }

  /** All reads of the first check, one after another. */
  lemma {:induction false} Peeks(tr: seq<Net>, steps: seq<Step>, n: Net, t: int) returns (tr': seq<Net>, steps': seq<Step>)
    requires Reaches(tr, steps, n) && !n.aborted && t in n.pcs && t in n.calls && n.pcs[t].Peeking? && 0 <= n.pcs[t].k < READS && CanDirect(n)
    ensures Reaches(tr', steps', n.(pcs := n.pcs[t := Trying], now := n.now + READS - n.pcs[t].k))
    decreases READS - n.pcs[t].k
  {
    var k, n' := n.pcs[t].k, Apply(n, Peek(t));
    Extend(tr, steps, n, Peek(t));
    assert Sees(n, k);
    if k + 1 < READS {
      forall i | 0 <= i < READS ensures Sees(n', i) { assert Sees(n, i); }
      tr', steps' := Peeks(tr + [n'], steps + [Peek(t)], n', t);
      assert n'.pcs[t := Trying] == n.pcs[t := Trying];
    } else {
      tr', steps' := tr + [n'], steps + [Peek(t)];
    }
  }

  /** The reads of the second check, up to the last. */
  lemma {:induction false} Looks(tr: seq<Net>, steps: seq<Step>, n: Net, t: int) returns (tr': seq<Net>, steps': seq<Step>)
    requires Reaches(tr, steps, n) && !n.aborted && t in n.pcs && t in n.calls && n.pcs[t].Looking? && 0 <= n.pcs[t].k < READS && CanDirect(n)
    ensures Reaches(tr', steps', n.(pcs := n.pcs[t := Looking(READS - 1)], now := n.now + READS - 1 - n.pcs[t].k))
    decreases READS - n.pcs[t].k
  {
    var k, n' := n.pcs[t].k, Apply(n, Look(t));
    assert Sees(n, k);
    if k + 1 < READS {
      Extend(tr, steps, n, Look(t));
      forall i | 0 <= i < READS ensures Sees(n', i) { assert Sees(n, i); }
      tr', steps' := Looks(tr + [n'], steps + [Look(t)], n', t);
      assert n'.pcs[t := Looking(READS - 1)] == n.pcs[t := Looking(READS - 1)];
    } else {
      tr', steps' := tr, steps;
      assert n.pcs[t := Looking(READS - 1)] == n.pcs;
    }
  }

  ghost function Sent(n: Net, t: int, bytes: Bytes, k: nat): Net
    requires k <= |bytes|
  {
    var x := Request(t, High, n.now + 12, Waiting(n), bytes);
    n.(sock := DirectWrite(n.sock, Buf(x, 0), k), now := n.now + 14,
       calls := n.calls[t := Call(bytes, High, n.now, Some(n.now + 12), Waiting(n), Some(n.now + 13))])
  }

  /** A call from its start until the first check has passed. */
  lemma PeekRun(tr: seq<Net>, steps: seq<Step>, n: Net, t: int, bytes: Bytes) returns (tr': seq<Net>, steps': seq<Step>)
    requires Reaches(tr, steps, n) && CanDirect(n) && n.lock == None && n.pcs == map[] && t !in n.calls && !n.aborted
    ensures Reaches(tr', steps', n.(pcs := map[t := Trying], now := n.now + 7, calls := n.calls[t := Call(bytes, High, n.now, None, {}, None)]))
  {
    hide Run;
    var step := Start(t, bytes, High);
    var n1 := Apply(n, step);
    Extend(tr, steps, n, step);
    assert Sees(n, 4) && n1.sock.kind == Connected;
    var n2 := Apply(n1, Enter(t));
    Extend(tr + [n1], steps + [step], n1, Enter(t));
    SameReads(n, n2);
    tr', steps' := Peeks(tr + [n1] + [n2], steps + [step] + [Enter(t)], n2, t);
    assert n2.pcs[t := Trying] == map[t := Trying];
  }

  /** A call that writes k bytes directly, from its start to its return. */
  lemma DirectRun(tr: seq<Net>, steps: seq<Step>, n: Net, t: int, bytes: Bytes, k: nat) returns (tr': seq<Net>, steps': seq<Step>)
    requires Reaches(tr, steps, n) && CanDirect(n) && n.lock == None && n.pcs == map[] && t !in n.calls && k <= |bytes| && !n.aborted
    ensures Reaches(tr', steps', Sent(n, t, bytes, k))
  {
    hide Run, CanDirect;
    var n3 := n.(pcs := map[t := Trying], now := n.now + 7, calls := n.calls[t := Call(bytes, High, n.now, None, {}, None)]);
    tr', steps' := PeekRun(tr, steps, n, t, bytes);
    var n4 := Apply(n3, TryLock(t));
    Extend(tr', steps', n3, TryLock(t));
    SameReads(n, n4);
    tr', steps' := Looks(tr' + [n4], steps' + [TryLock(t)], n4, t);
    var n5 := n4.(pcs := n4.pcs[t := Looking(READS - 1)], now := n4.now + READS - 1);
    SameReads(n, n5);
    tr', steps' := GrantAndWrite(tr', steps', n5, t, k);
    assert n5.pcs - {t} == map[] && Waiting(n5) == Waiting(n);
  }

  lemma SameReads(n: Net, n': Net)
    requires CanDirect(n) && n'.sock == n.sock && n'.sending == n.sending
    ensures CanDirect(n')
  {
    forall i | 0 <= i < READS ensures Sees(n', i) { assert Sees(n, i); }
  }

  lemma GrantAndWrite(tr: seq<Net>, steps: seq<Step>, n: Net, t: int, k: nat) returns (tr': seq<Net>, steps': seq<Step>)
    requires Reaches(tr, steps, n) && !n.aborted && At(n, t, Looking(READS - 1)) && CanDirect(n) && k <= |n.calls[t].bytes|
    ensures var c := n.calls[t].(ticket := Some(n.now), passed := Waiting(n), ret := Some(n.now + 1));
            var x := Request(t, c.prio, n.now, Waiting(n), c.bytes);
            Reaches(tr', steps', n.(sock := DirectWrite(n.sock, Buf(x, 0), k), lock := None, pcs := n.pcs - {t},
                                    calls := n.calls[t := c], now := n.now + 2))
  {
    assert Sees(n, READS - 1);
    var n1 := Apply(n, Look(t));
    Extend(tr, steps, n, Look(t));
    var n2 := Apply(n1, Step.Write(t, k));
    Extend(tr + [n1], steps + [Look(t)], n1, Step.Write(t, k));
    tr', steps' := tr + [n1] + [n2], steps + [Look(t)] + [Step.Write(t, k)];
    assert n1.pcs - {t} == n.pcs - {t};
  }

  /** A slot that has been reserved for the first time. */
  function NewNet(): Net {
    Net(Sock(Reserved, [], [], 0, 0, None, [], [], []), [], false, 0, None, map[], false, false, {}, {}, false, map[], 0)
  }

  /** A request of three bytes, of which one has been written. */
  function Early(): Request {
    Request(1, High, 14, {}, [1, 2, 3])
  }

  function WithSend(s: Sock, closing: bool, now: int): Net {
    Net(s, [], true, 0, None, map[], false, closing, {}, {}, false, map[1 := Call([1, 2, 3], High, 2, Some(14), {}, Some(15))], now)
  }

  function LeftOver(): Net {
    WithSend(Sock(Connected, [], [], 0, 0, Some(Buf(Early(), 1)), [Mark(Early(), 0)], [], []), false, 16)
  }

  function InList(): Net {
    WithSend(Sock(Connected, [Buf(Early(), 1)], [], 2, 0, None, [Mark(Early(), 0)], [], []), false, 17)
  }

  function Freed(): Net {
    WithSend(Sock(Connected, [], [], 2, 0, None, [Mark(Early(), 0)], [Buf(Early(), 1)], []), true, 18)
  }

  /** The socket is opened and connects at once. */
  lemma OpenRun(tr: seq<Net>, steps: seq<Step>, n: Net) returns (tr': seq<Net>, steps': seq<Step>)
    requires Reaches(tr, steps, n) && n.sock.kind == Reserved && !n.tcp && !n.aborted
    ensures Reaches(tr', steps', n.(sock := Opened(n.sock).(kind := Connected), tcp := true, sending := 0, now := n.now + 2))
  {
    hide Run;
    var n1 := Apply(n, NewFd);
    Extend(tr, steps, n, NewFd);
    Extend(tr + [n1], steps + [NewFd], n1, Type(Connected));
    tr', steps' := tr + [n1] + [Apply(n1, Type(Connected))], steps + [NewFd] + [Type(Connected)];
  }

  lemma WriteRun() returns (tr: seq<Net>, steps: seq<Step>)
    ensures Reaches(tr, steps, LeftOver())
  {
    var n0 := NewNet();
    assert Reaches([n0], [], n0);
    tr, steps := OpenRun([n0], [], n0);
    var n1 := n0.(sock := n0.sock.(kind := Connected), tcp := true, now := 2);
    assert CanDirect(n1) && Waiting(n1) == {};
    hide Run;
    tr, steps := DirectRun(tr, steps, n1, 1, [1, 2, 3], 1);
    assert Piece(Early(), 0, 1) == [Mark(Early(), 0)];
  }

  lemma FlushIs()
    ensures var w := [Again]; Enabled(LeftOver(), Step.Flush(w)) && Apply(LeftOver(), Step.Flush(w)) == InList()
  {
  }

  lemma FreeIs()
    ensures Enabled(InList(), Free) && Apply(InList(), Free) == Freed()
  {
  }

  lemma FreeRun() returns (tr: seq<Net>, steps: seq<Step>)
    ensures Reaches(tr, steps, Freed())
  {
    hide *;
    tr, steps := WriteRun();
    FlushIs();
    Extend(tr, steps, LeftOver(), Step.Flush([Again]));
    FreeIs();
    Extend(tr + [InList()], steps + [Step.Flush([Again])], InList(), Free);
    tr, steps := tr + [InList()] + [Freed()], steps + [Step.Flush([Again])] + [Free];
  }

  /** A run of two sends: the first is torn, and the second, which began after the first returned, overtakes it. */
  lemma TornRun() returns (tr: seq<Net>, steps: seq<Step>)
    ensures Run(tr, steps)
    ensures var n := tr[|tr| - 1];
            && !WholeMessages(n.sock.wire)
            && TookTurn(n, 1) && 2 in n.calls && EndsBefore(n.calls[1], n.calls[2]) && n.calls[1].prio == High
            && Overtaken(n, 1, 2)
  {
    tr, steps := FreeRun();
    var n := Freed();
    assert CanDirect(n);
    tr, steps := DirectRun(tr, steps, n, 2, [9], 1);
    var n' := Sent(n, 2, [9], 1);
    var w := n'.sock.wire;
    assert |w| == 2 && !Next(w[0], w[1]);
    assert !WhollyBefore(w, Made(n'.calls, 1), 1);
  }

  // ---------------------------------------------------------------- runs that send too early

  /** A request of one byte, posted while the slot was only reserved. */
  function TooEarly(): Request {
    Request(1, High, 8, {}, [5])
  }

  function TooEarlyCall(ticket: Option<int>): Call {
    Call([5], High, 0, ticket, {}, ticket)
  }

  function OnReserved(pipe: seq<Buf>, uncounted: set<int>, pcs: map<int, Pc>, call: Call, now: int): Net {
    NewNet().(pipe := pipe, uncounted := uncounted, pcs := pcs, calls := map[1 := call], now := now)
  }

  /** The first check, on a slot that is only reserved, fails at its last read. */
  lemma {:induction false} PeeksReserved(tr: seq<Net>, steps: seq<Step>, k: nat) returns (tr': seq<Net>, steps': seq<Step>)
    requires k < READS && Reaches(tr, steps, OnReserved([], {}, map[1 := Peeking(k)], TooEarlyCall(None), 2 + k))
    ensures Reaches(tr', steps', OnReserved([], {}, map[1 := Queueing], TooEarlyCall(None), 7))
    decreases READS - k
  {
    hide Run;
    var n := OnReserved([], {}, map[1 := Peeking(k)], TooEarlyCall(None), 2 + k);
    var n' := Apply(n, Peek(1));
    Extend(tr, steps, n, Peek(1));
    tr', steps' := tr + [n'], steps + [Peek(1)];
    if k + 1 < READS {
      assert n' == OnReserved([], {}, map[1 := Peeking(k + 1)], TooEarlyCall(None), 2 + (k + 1));
      tr', steps' := PeeksReserved(tr', steps', k + 1);
    }
  }

  /** The call begins, and its first check fails. */
  lemma EarlyStart() returns (tr: seq<Net>, steps: seq<Step>)
    ensures Reaches(tr, steps, OnReserved([], {}, map[1 := Queueing], TooEarlyCall(None), 7))
  {
    var n0 := NewNet();
    assert Reaches([n0], [], n0);
    hide Run;
    var step := Start(1, [5], High);
    var n1 := Apply(n0, step);
    Extend([n0], [], n0, step);
    var n2 := Apply(n1, Enter(1));
    Extend([n0] + [n1], [] + [step], n1, Enter(1));
    assert n2 == OnReserved([], {}, map[1 := Peeking(0)], TooEarlyCall(None), 2);
    tr, steps := PeeksReserved([n0] + [n1] + [n2], [] + [step] + [Enter(1)], 0);
  }

  lemma EarlyIs()
    ensures var n := OnReserved([], {}, map[1 := Queueing], TooEarlyCall(None), 7);
            var n' := OnReserved([], {1}, map[1 := Posting], TooEarlyCall(None), 8);
            Enabled(n, Inc(1)) && Apply(n, Inc(1)) == n' && Uncounts(n, Inc(1))
            && Enabled(n', Post(1)) && Apply(n', Post(1)) == OnReserved([Buf(TooEarly(), 0)], {1}, map[], TooEarlyCall(Some(8)), 9)
  {
  }

  /** The request is in the pipe, not counted, and the socket is open. */
  function OpenedLate(): Net {
    OnReserved([Buf(TooEarly(), 0)], {1}, map[], TooEarlyCall(Some(8)), 11)
      .(sock := Sock(Connected, [], [], 0, 0, None, [], [], []), tcp := true)
  }

  lemma EarlyRun() returns (tr: seq<Net>, steps: seq<Step>)
    ensures Reaches(tr, steps, OpenedLate())
  {
    hide Run, Enabled, Apply;
    tr, steps := EarlyStart();
    EarlyIs();
    var n0 := OnReserved([], {}, map[1 := Queueing], TooEarlyCall(None), 7);
    var n1 := OnReserved([], {1}, map[1 := Posting], TooEarlyCall(None), 8);
    var n2 := OnReserved([Buf(TooEarly(), 0)], {1}, map[], TooEarlyCall(Some(8)), 9);
    Extend(tr, steps, n0, Inc(1));
    Extend(tr + [n1], steps + [Inc(1)], n1, Post(1));
    tr, steps := OpenRun(tr + [n1] + [n2], steps + [Inc(1)] + [Post(1)], n2);
  }

  /** A send right behind a connect: the assertion in dec_sending_ref fails. */
  lemma EarlyAborts() returns (tr: seq<Net>, steps: seq<Step>)
    ensures Run(tr, steps) && tr[|tr| - 1].aborted
  {
    tr, steps := EarlyRun();
    hide Run;
    var n0 := OpenedLate();
    var n1 := Apply(n0, Serve);
    Extend(tr, steps, n0, Serve);
    Extend(tr + [n1], steps + [Serve], n1, Dec);
    tr, steps := tr + [n1] + [Apply(n1, Dec)], steps + [Serve] + [Dec];
  }

  /** And a second one that begins after it returned overtakes it, with no close. */
  lemma EarlyOvertaken() returns (tr: seq<Net>, steps: seq<Step>)
    ensures Run(tr, steps)
    ensures var n := tr[|tr| - 1];
            && !n.closing && TookTurn(n, 1) && 2 in n.calls && EndsBefore(n.calls[1], n.calls[2]) && n.calls[1].prio == High
            && Overtaken(n, 1, 2)
  {
    tr, steps := EarlyRun();
    var n := OpenedLate();
    assert CanDirect(n);
    tr, steps := DirectRun(tr, steps, n, 2, [9], 1);
    var n' := Sent(n, 2, [9], 1);
    assert |n'.sock.wire| == 1 && n'.sock.wire[0].of.call == 2;
    assert !WhollyBefore(n'.sock.wire, Made(n'.calls, 1), 0);
  }
}
