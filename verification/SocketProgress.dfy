/**
  What can still happen from every state of every run of sends on one TCP socket: a flush and a direct
  write put on the wire what write() takes, a call that is left alone comes to its end within a fixed number
  of its own steps, and what an open socket has been given can all be sent.
 */
module SocketProgress {
  import opened Common
  import opened SocketSend
  import opened SocketFlush
  import opened SocketOrder
  import opened SocketRuns

  // ---------------------------------------------------------------- single steps of a run

  /** In every run a flush moves exactly what its writes take, and closes the socket exactly as it should. */
  lemma FlushInRun(tr: seq<Net>, steps: seq<Step>, i: nat, w: seq<SocketSend.Write>) returns (j: nat)
    requires Run(tr, steps) && i < |steps| && steps[i] == Flush(w)
    ensures Flushed(tr[i].sock, w, j, tr[i + 1].sock)
  {
    RunInv(tr, steps, i);
    assert Follows(tr, steps, i);
    hide Flushed, SendBuffer, SockInv, Run;
    j := FlushSends(tr[i].sock, w);
  }

  /** In every run a direct write of k bytes puts the first k bytes of the message on the wire, and the rest waits in front. */
  lemma WriteInRun(tr: seq<Net>, steps: seq<Step>, i: nat, t: int, k: nat)
    requires Run(tr, steps) && i < |steps| && steps[i] == SocketOrder.Write(t, k)
    ensures t in tr[i + 1].calls && tr[i + 1].calls[t].ticket.Some? && tr[i + 1].calls[t].ret == Some(tr[i].now)
    ensures var x, s, s' := Made(tr[i + 1].calls, t), tr[i].sock, tr[i + 1].sock;
      && k <= |x.bytes| && s'.wire == s.wire + Piece(x, 0, k)
      && (if k == |x.bytes| then s'.dw.None? else s'.dw == Some(Buf(x, k)))
  {
    RunInv(tr, steps, i);
    assert Follows(tr, steps, i);
    assert Seen(tr[i], t, tr[i].pcs[t]);
  }

  // ---------------------------------------------------------------- a call comes to its end

  /** A step of this call. */
  predicate Of(step: Step, t: int) {
    match step
    case Start(u, _, _) => u == t
    case Refuse(u) => u == t
    case Enter(u) => u == t
    case Peek(u) => u == t
    case TryLock(u) => u == t
    case Skip(u) => u == t
    case Look(u) => u == t
    case Write(u, _) => u == t
    case Unlock(u) => u == t
    case Inc(u) => u == t
    case Post(u) => u == t
    case _ => false
  }

  /** How many steps of its own a call still has before it at most. */
  function StepsLeft(pc: Pc): (n: nat)
    ensures 1 <= n <= 15
  {
    match pc
    case Begin => 15
    case Peeking(k) => if 0 <= k < READS then 14 - k else 14
    case Trying => 9
    case Looking(k) => if 0 <= k < READS then 8 - k else 8
    case Unlocking => 3
    case Queueing => 2
    case Direct(_, _) => 1
    case Posting => 1
  }

  /** Every step of a call brings it nearer to its end, whatever its reads find. */
  lemma StepsNearer(n: Net, step: Step, t: int)
    requires InCall(n, t) && Enabled(n, step) && Of(step, t)
    ensures var n' := Apply(n, step); t in n'.pcs ==> StepsLeft(n'.pcs[t]) < StepsLeft(n.pcs[t])
    ensures var n' := Apply(n, step); t !in n'.pcs ==> t in n'.calls && n'.calls[t].ret == Some(n.now)
  {
    hide Sees, DirectWrite, RequestOf, SocketOrder.Waiting, Framed, InUse;
    assert step.t == t;
  }

  /** The call has not returned, and has not made more reads than there are. */
  ghost predicate InCall(n: Net, t: int) {
    t in n.pcs && t in n.calls && (n.pcs[t].Peeking? || n.pcs[t].Looking? ==> 0 <= n.pcs[t].k < READS)
  }

  lemma InCallIs(n: Net, t: int)
    requires Inv(n) && t in n.pcs
    ensures InCall(n, t)
  {
    assert t in n.calls;
    assert Seen(n, t, n.pcs[t]);
  }

  /** What a call can do next; only a full counter holds it up. */
  function OwnStep(n: Net, t: int): Step
    requires t in n.pcs && t in n.calls
  {
    match n.pcs[t]
    case Begin => if n.sock.kind == Invalid then Refuse(t) else Enter(t)
    case Peeking(_) => Peek(t)
    case Trying => if n.lock.None? then TryLock(t) else Skip(t)
    case Looking(_) => Look(t)
    case Direct(_, _) => SocketOrder.Write(t, |n.calls[t].bytes|)
    case Unlocking => Unlock(t)
    case Queueing => Inc(t)
    case Posting => Post(t)
  }

  ghost predicate HasRoom(n: Net) {
    !n.aborted && (n.tcp ==> n.sending < MAX_SENDING)
  }

  lemma OwnStepGoes(n: Net, t: int)
    requires InCall(n, t) && !n.aborted && (n.pcs[t] == Posting || HasRoom(n))
    ensures Enabled(n, OwnStep(n, t)) && Of(OwnStep(n, t), t)
    ensures var n' := Apply(n, OwnStep(n, t)); !n'.aborted && (t in n'.pcs ==> n'.pcs[t] == Posting || HasRoom(n'))
  {
    hide Sees, DirectWrite, RequestOf, SocketOrder.Waiting, Framed, InUse;
  }

  /** A run goes on by steps of this call alone. */
  ghost predicate GoesAlone(tr: seq<Net>, steps: seq<Step>, tr': seq<Net>, steps': seq<Step>, t: int) {
    && Run(tr, steps) && Run(tr', steps') && |steps| <= |steps'| && tr'[..|tr|] == tr && steps'[..|steps|] == steps
    && forall k :: |steps| <= k < |steps'| ==> Of(steps'[k], t)
  }

  lemma OneMore(tr: seq<Net>, steps: seq<Step>, step: Step) returns (tr': seq<Net>, steps': seq<Step>)
    requires Run(tr, steps) && Enabled(tr[|steps|], step)
    ensures Run(tr', steps') && |steps'| == |steps| + 1 && tr'[..|tr|] == tr && steps'[..|steps|] == steps && steps'[|steps|] == step
    ensures tr'[|steps'|] == Apply(tr[|steps|], step) && Inv(tr'[|steps'|])
  {
    Extend(tr, steps, tr[|steps|], step);
    tr', steps' := tr + [Apply(tr[|steps|], step)], steps + [step];
    RunInv(tr', steps', |steps'|);
  }

  lemma AloneOnce(tr: seq<Net>, steps: seq<Step>, tr': seq<Net>, steps': seq<Step>, t: int)
    requires Run(tr, steps) && Run(tr', steps') && |steps'| == |steps| + 1 && tr'[..|tr|] == tr && steps'[..|steps|] == steps
    requires Of(steps'[|steps|], t)
    ensures GoesAlone(tr, steps, tr', steps', t)
  {
  }

  lemma AloneOn(tr: seq<Net>, steps: seq<Step>, tr1: seq<Net>, steps1: seq<Step>, tr2: seq<Net>, steps2: seq<Step>, t: int)
    requires GoesAlone(tr, steps, tr1, steps1, t) && GoesAlone(tr1, steps1, tr2, steps2, t)
    ensures GoesAlone(tr, steps, tr2, steps2, t)
  {
    assert tr2[..|tr|] == tr1[..|tr|] && steps2[..|steps|] == steps1[..|steps|];
    forall k | |steps| <= k < |steps2| ensures Of(steps2[k], t) {
      assert k < |steps1| ==> steps2[k] == steps1[k];
    }
  }

  /**
    From every state of every run, a call that is left alone returns within fifteen steps at most, whoever has the lock
    and whatever waits, unless the counter of references is full.
   */
  lemma {:induction false} CallEnds(tr: seq<Net>, steps: seq<Step>, t: int) returns (tr': seq<Net>, steps': seq<Step>)
    requires Run(tr, steps) && t in tr[|steps|].pcs && !tr[|steps|].aborted
    requires tr[|steps|].pcs[t] == Posting || HasRoom(tr[|steps|])
    ensures GoesAlone(tr, steps, tr', steps', t) && |steps'| <= |steps| + StepsLeft(tr[|steps|].pcs[t])
    ensures var n := tr'[|steps'|]; t !in n.pcs && t in n.calls && n.calls[t].ret.Some?
    decreases StepsLeft(tr[|steps|].pcs[t])
  {
    assert |tr| == |steps| + 1;
    hide Run, Inv, Enabled, Apply, OwnStep, HasRoom, Of, GoesAlone, StepsLeft, InCall;
    var n := tr[|steps|];
    RunInv(tr, steps, |steps|);
    InCallIs(n, t);
    OwnStepGoes(n, t);
    StepsNearer(n, OwnStep(n, t), t);
    tr', steps' := OneMore(tr, steps, OwnStep(n, t));
    AloneOnce(tr, steps, tr', steps', t);
    if t in tr'[|steps'|].pcs {
      var tr1, steps1 := tr', steps';
      tr', steps' := CallEnds(tr1, steps1, t);
      AloneOn(tr, steps, tr1, steps1, tr', steps', t);
    }
  }

  // ---------------------------------------------------------------- everything can be sent

  /** The socket is open, nobody is in the middle of anything, and every call has been counted. */
  ghost predicate Quiet(n: Net) {
    n.sock.kind == Connected && Idle(n) && n.lock == None && !n.aborted && n.uncounted == {}
  }

  /** A run goes on in the socket thread alone, and no call is affected. */
  ghost predicate Drains(tr: seq<Net>, steps: seq<Step>, tr': seq<Net>, steps': seq<Step>) {
    && Run(tr, steps) && Run(tr', steps') && |steps| <= |steps'| && tr'[..|tr|] == tr && steps'[..|steps|] == steps
    && (forall k :: |steps| <= k < |steps'| ==> steps'[k].Serve? || steps'[k].Dec? || steps'[k].Flush?)
    && tr'[|steps'|].calls == tr[|steps|].calls && tr'[|steps'|].refused == tr[|steps|].refused
  }

  lemma DrainsOnce(tr: seq<Net>, steps: seq<Step>, tr': seq<Net>, steps': seq<Step>)
    requires Run(tr, steps) && Run(tr', steps') && |steps'| == |steps| + 1 && tr'[..|tr|] == tr && steps'[..|steps|] == steps
    requires steps'[|steps|].Serve? || steps'[|steps|].Dec? || steps'[|steps|].Flush?
    requires tr'[|steps'|].calls == tr[|steps|].calls && tr'[|steps'|].refused == tr[|steps|].refused
    ensures Drains(tr, steps, tr', steps')
  {
  }

  lemma DrainsOn(tr: seq<Net>, steps: seq<Step>, tr1: seq<Net>, steps1: seq<Step>, tr2: seq<Net>, steps2: seq<Step>)
    requires Drains(tr, steps, tr1, steps1) && Drains(tr1, steps1, tr2, steps2)
    ensures Drains(tr, steps, tr2, steps2)
  {
    assert tr2[..|tr|] == tr1[..|tr|] && steps2[..|steps|] == steps1[..|steps|];
    forall k | |steps| <= k < |steps2| ensures steps2[k].Serve? || steps2[k].Dec? || steps2[k].Flush? {
      assert k < |steps1| ==> steps2[k] == steps1[k];
    }
  }

  lemma ServeGoes(n: Net)
    requires Inv(n) && Quiet(n) && n.pipe != []
    ensures Enabled(n, Serve)
    ensures var n' := Apply(n, Serve);
      && n'.serving && !n'.closing && n'.tcp && n'.sock.kind == Connected && n'.lock == None && !n'.aborted && n'.uncounted == {}
      && n'.pipe == n.pipe[1..] && n'.calls == n.calls && n'.refused == n.refused
  {
  }

  lemma DecGoes(n: Net)
    requires Inv(n) && n.serving && !n.closing && n.tcp && n.sock.kind == Connected && n.lock == None && !n.aborted && n.uncounted == {}
    ensures Enabled(n, Dec) && Quiet(Apply(n, Dec))
    ensures Apply(n, Dec).pipe == n.pipe && Apply(n, Dec).calls == n.calls && Apply(n, Dec).refused == n.refused
  {
    assert n.sending + |n.uncounted| == Underway(n);
  }

  /** Writes that take all they are offered. */
  ghost function AllTaken(q: seq<Buf>): (w: seq<SocketSend.Write>)
    requires Sizes(q)
    ensures |w| == |q| && forall i :: 0 <= i < |q| ==> w[i].Wrote? && w[i].n == Left(q[i])
  {
    seq(|q|, i requires 0 <= i < |q| => Wrote(Left(q[i])))
  }

  lemma {:induction false} CallsAll(w: seq<SocketSend.Write>)
    requires forall i :: 0 <= i < |w| ==> w[i].Wrote?
    ensures Calls(w) == w
  {
    if w != [] {
      CallsAll(w[1..]);
    }
  }

  lemma FlushGoes(n: Net) returns (w: seq<SocketSend.Write>)
    requires Inv(n) && Quiet(n)
    ensures Enabled(n, Flush(w))
    ensures var n' := Apply(n, Flush(w));
      && Empty(n'.sock) && n'.sock.dw.None? && n'.sock.kind == Connected && n'.lock == None
      && n'.pipe == n.pipe && n'.calls == n.calls && n'.refused == n.refused && !n'.closing
  {
    assert SockInv(n.sock) && Framed(n.sock);
    hide SendBuffer, SockInv, Framed, SocketFlush.Waiting, Sizes, CallsInv, Ordered, SeenInv, CountInv;
    WaitingSizes(n.sock);
    w := AllTaken(SocketFlush.Waiting(n.sock));
    CallsAll(w);
    FlushAllTaken(n.sock, w);
  }

  lemma FlushAllTaken(s: Sock, w: seq<SocketSend.Write>)
    requires SockInv(s) && InUse(s.kind) && s.kind != HalfClose && Sizes(SocketFlush.Waiting(s)) && w == AllTaken(SocketFlush.Waiting(s)) && Calls(w) == w
    ensures Empty(SendBuffer(s, w)) && SendBuffer(s, w).dw.None? && SendBuffer(s, w).kind == s.kind
  {
    hide SendBuffer, SockInv;
    FlushSendsAll(s, w);
    var j := FlushSends(s, w);
  }

  /** This call's message is on the wire in full. */
  ghost predicate OnWire(s: Sock, a: int) {
    exists k :: 0 <= k < |s.done| && s.done[k].key.call == a && Full(s.done[k])
  }

  /**
    From every state of every run in which the socket is open, the socket thread alone can send everything that it
    has been given: every message whose call took its turn is then on the wire in full.
   */
  lemma {:induction false} CanDrain(tr: seq<Net>, steps: seq<Step>) returns (tr': seq<Net>, steps': seq<Step>)
    requires Run(tr, steps) && Quiet(tr[|steps|])
    ensures Drains(tr, steps, tr', steps')
    ensures var n := tr'[|steps'|]; n.pipe == [] && Empty(n.sock) && n.sock.dw.None? && n.sock.kind == Connected
    ensures forall a :: TookTurn(tr[|steps|], a) ==> OnWire(tr'[|steps'|].sock, a)
    decreases |tr[|steps|].pipe|
  {
    assert |tr| == |steps| + 1;
    var n := tr[|steps|];
    RunInv(tr, steps, |steps|);
    hide Run, Inv, Enabled, Apply, Drains, Quiet, Empty;
    if n.pipe != [] {
      ServeGoes(n);
      var tr1, steps1 := OneMore(tr, steps, Serve);
      DrainsOnce(tr, steps, tr1, steps1);
      DecGoes(tr1[|steps1|]);
      var tr2, steps2 := OneMore(tr1, steps1, Dec);
      DrainsOnce(tr1, steps1, tr2, steps2);
      DrainsOn(tr, steps, tr1, steps1, tr2, steps2);
      tr', steps' := CanDrain(tr2, steps2);
      DrainsOn(tr, steps, tr2, steps2, tr', steps');
    } else {
      var w := FlushGoes(n);
      tr', steps' := OneMore(tr, steps, Flush(w));
      DrainsOnce(tr, steps, tr', steps');
      AllOnWire(tr', steps');
    }
  }

  lemma AllOnWire(tr: seq<Net>, steps: seq<Step>)
    requires Run(tr, steps)
    requires var n := tr[|steps|]; n.pipe == [] && Empty(n.sock) && n.sock.dw.None? && n.sock.kind == Connected && n.lock == None && !n.closing
    ensures forall a :: TookTurn(tr[|steps|], a) ==> OnWire(tr[|steps|].sock, a)
  {
    forall a | TookTurn(tr[|steps|], a) ensures OnWire(tr[|steps|].sock, a) {
      QuietMeansSent(tr, steps, |steps|, a);
    }
  }
}
