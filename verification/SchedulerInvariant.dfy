/** One inductive invariant of the scheduler, and what it gives over every run. */
module SchedulerInvariant {
  import opened Common
  import opened MessageQueues
  import opened Scheduler

  ghost function Refs(frames: map<Tid, Frame>, c: Cid): set<Tid> {
    set t | t in frames && frames[t].ctx == c
  }

  ghost predicate InSlot(s: State, c: Cid) {
    c in s.ctxs && s.ctxs[c].handle in s.slots && s.slots[s.ctxs[c].handle] == c
  }

  /** Where a queue is: in the global list, taken by one frame, or nowhere. */
  datatype Place = Nowhere | Global | By(t: Tid)

  type Places = map<Qid, Place>

  // ---------------------------------------------------------------- the invariant

  /** Every reference is to a live context, and the count is exactly the references there are. */
  ghost predicate RefInv(s: State) {
    && (forall t :: t in s.frames && s.frames[t].ctx != NULL ==> s.frames[t].ctx in s.ctxs)
    && (forall h :: h in s.slots ==> s.slots[h] in s.ctxs && s.ctxs[s.slots[h]].handle == h)
    && (forall c :: c in s.ctxs ==> s.ctxs[c].ref == |Refs(s.frames, c)| + Bit(InSlot(s, c)))
    && (forall c :: c in s.ctxs ==> c != NULL && c !in s.dead)
  }

  /** The places are what the list and the frames say they are, so each queue has one. */
  ghost predicate PlaceInv(s: State, p: Places) {
    && p.Keys == s.queues.Keys && NULL !in p
    && Distinct(s.global)
    && (forall q :: q in s.global ==> q in p && p[q] == Global)
    && (forall q :: q in p && p[q] == Global ==> q in s.global)
    && (forall t :: t in s.frames ==> FramePlace(p, t, s.frames[t]))
    && (forall q :: q in p && p[q].By? ==>
          p[q].t in s.frames && (s.frames[p[q].t].q == q || s.frames[p[q].t].next == q))
  }

  ghost predicate FramePlace(p: Places, t: Tid, f: Frame) {
    && (f.q != NULL ==> f.q in p && p[f.q] == By(t))
    && (f.next != NULL ==> f.next in p && p[f.next] == By(t) && f.next != f.q)
  }

  /**
    What holds of one queue. In no place it is idle: empty, unreleased, and marked so that the next
    push publishes it. It is released exactly when its context has died. Whatever was pushed was,
    in that order, dispatched, then dropped, or is still pending.
   */
  ghost predicate QueueInv(s: State, p: Places, q: Qid)
    requires q in s.queues && q in p
  {
    var x := s.queues[q];
    && (p[q].Nowhere? ==> !x.mq.inGlobal && x.mq.pending == [] && !x.mq.release)
    && (!x.mq.inGlobal && !x.mq.release ==> p[q].Nowhere?)
    && (x.mq.release <==> x.ctx !in s.ctxs)
    && (x.ctx in s.ctxs ==> s.ctxs[x.ctx].queue == q)
    && (x.ctx !in s.ctxs ==> x.ctx in s.dead)
    && InOrder(x)
    && (!x.mq.release ==> x.dropped == [])
  }

  /** What holds of one context. It can be found by its handle while not ready only if still under construction. */
  ghost predicate CtxInv(s: State, p: Places, c: Cid)
    requires c in s.ctxs
  {
    var q := s.ctxs[c].queue;
    && q in s.queues && q in p
    && s.queues[q].ctx == c && s.queues[q].mq.handle == s.ctxs[c].handle
    && (InSlot(s, c) && !s.ctxs[c].init ==> p[q].By? && p[q].t in s.frames && Building(s.frames[p[q].t].pc))
  }

  predicate Building(pc: Pc) {
    pc.Initing? || pc.Failing?
  }

  ghost predicate ServiceInv(s: State, p: Places) {
    && p.Keys == s.queues.Keys
    && (forall q :: q in s.queues ==> QueueInv(s, p, q))
    && (forall c :: c in s.ctxs ==> CtxInv(s, p, c))
    && (forall q, r :: q in s.queues && r in s.queues && s.queues[q].mq.handle == s.queues[r].mq.handle ==> q == r)
  }

  /** A freed queue is gone for good, its context died before it, and all its messages are accounted for. */
  ghost predicate FreedInv(s: State) {
    forall q :: q in s.freed ==>
      && q !in s.queues && s.freed[q].ctx in s.dead && s.freed[q].ctx !in s.ctxs
      && s.freed[q].pushed == s.freed[q].dispatched + s.freed[q].dropped
  }

  predicate Serving(pc: Pc) {
    pc.Ready? || pc.Measuring? || pc.Calling? || pc.Turning? || pc.Swapping?
  }

  predicate HoldsQueue(pc: Pc) {
    !(pc.Sending? || pc.Holding? || pc.Idle? || pc.Leaving?)
  }

  predicate HoldsCtx(pc: Pc) {
    pc.Sending? || pc.Holding? || Serving(pc) || pc.Leaving? || pc.Initing? || pc.Failed?
  }

  /** Which local variables are in use at which point, and what is known of them. */
  ghost predicate FrameInv(s: State, t: Tid, f: Frame) {
    && (HoldsQueue(f.pc) <==> f.q != NULL)
    && (HoldsCtx(f.pc) <==> f.ctx != NULL)
    && (f.next != NULL ==> f.pc.Swapping? || f.pc.Leaving?)
    && (f.pc.Swapping? ==> f.next != NULL)
    && (Serving(f.pc) || f.pc.Idle? || f.pc.Took? || f.pc.Leaving? ==> t in s.weights)
    && (f.pc.Sending? || f.pc.Holding? || f.pc.Publishing? || f.pc.Initing? || f.pc.Failing? || f.pc.Failed? ==> t !in s.weights)
    && (Serving(f.pc) ==> f.ctx in s.ctxs && s.ctxs[f.ctx].queue == f.q && s.ctxs[f.ctx].init)
    && (f.pc.Initing? ==> f.ctx in s.ctxs && s.ctxs[f.ctx].queue == f.q && !s.ctxs[f.ctx].init)
    && (f.pc.Failing? ==> f.q in s.queues && s.queues[f.q].mq.handle == f.pc.h)
    && (f.pc.Failed? ==> f.ctx in s.ctxs && s.ctxs[f.ctx].queue == f.q && !InSlot(s, f.ctx))
    && (f.pc.Dismissing? ==> f.q in s.queues && !InSlot(s, s.queues[f.q].ctx))
    && (f.pc.Dropping? || f.pc.Freeing? ==> f.q in s.queues && s.queues[f.q].mq.release)
    && (f.pc.Freeing? ==> s.queues[f.q].mq.pending == [])
  }

  ghost predicate FramesInv(s: State) {
    && s.weights.Keys <= s.frames.Keys
    && forall t :: t in s.frames ==> FrameInv(s, t, s.frames[t])
  }

  ghost predicate Inv(s: State, p: Places) {
    RefInv(s) && PlaceInv(s, p) && ServiceInv(s, p) && FreedInv(s) && FramesInv(s)
  }

  // ---------------------------------------------------------------- generic moves

  ghost function CtxAt(s: State, t: Tid): Cid {
    if t in s.frames then s.frames[t].ctx else NULL
  }

  ghost predicate OnlyFrame(s: State, s': State, t: Tid) {
    forall u :: u != t ==> (u in s.frames <==> u in s'.frames) && (u in s.frames ==> s'.frames[u] == s.frames[u])
  }

  /** Counting references: one frame changes, and each count moves by what the frame and the slot say. */
  lemma RefMove(s: State, s': State, t: Tid)
    requires RefInv(s) && OnlyFrame(s, s', t)
    requires s'.ctxs.Keys == s.ctxs.Keys && s'.dead == s.dead
    requires forall c :: c in s.ctxs ==> s'.ctxs[c].handle == s.ctxs[c].handle
    requires forall h :: h in s'.slots ==> h in s.slots && s'.slots[h] == s.slots[h]
    requires CtxAt(s', t) != NULL ==> CtxAt(s', t) in s.ctxs
    requires forall c :: c in s.ctxs ==>
      s'.ctxs[c].ref == s.ctxs[c].ref + Bit(CtxAt(s', t) == c) - Bit(CtxAt(s, t) == c)
                        + Bit(InSlot(s', c)) - Bit(InSlot(s, c))
    ensures RefInv(s')
  {
    forall c | c in s.ctxs ensures s'.ctxs[c].ref == |Refs(s'.frames, c)| + Bit(InSlot(s', c)) {
      var before, after := Refs(s.frames, c), Refs(s'.frames, c);
      forall u ensures u in after - {t} <==> u in before - {t} {
        assert u != t ==> (u in s.frames <==> u in s'.frames) && (u in s.frames ==> s'.frames[u] == s.frames[u]);
      }
      assert after - {t} == before - {t};
      assert t in after <==> CtxAt(s', t) == c;
      assert t in before <==> CtxAt(s, t) == c;
      assert |after| == |after - {t}| + Bit(t in after);
      assert |before| == |before - {t}| + Bit(t in before);
    }
  }

  ghost function QueueAt(s: State, t: Tid): Qid {
    if t in s.frames then s.frames[t].q else NULL
  }

  ghost function NextAt(s: State, t: Tid): Qid {
    if t in s.frames then s.frames[t].next else NULL
  }

  /** A step on references: the queues and their places stay, one frame keeps what it owns. */
  ghost predicate Quiet(s: State, s': State, t: Tid) {
    && OnlyFrame(s, s', t)
    && s'.weights == s.weights && s'.queues == s.queues && s'.global == s.global
    && s'.freed == s.freed && s'.dead == s.dead
    && s'.ctxs.Keys == s.ctxs.Keys
    && (forall c :: c in s.ctxs ==>
          && s'.ctxs[c].handle == s.ctxs[c].handle && s'.ctxs[c].queue == s.ctxs[c].queue
          && (s.ctxs[c].init ==> s'.ctxs[c].init))
    && (forall h :: h in s'.slots ==> h in s.slots && s'.slots[h] == s.slots[h])
    && ((QueueAt(s', t) == QueueAt(s, t) && NextAt(s', t) == NextAt(s, t)) ||
        (QueueAt(s', t) == NextAt(s, t) && NextAt(s', t) == QueueAt(s, t)))
  }

  lemma QuietPlaces(s: State, p: Places, s': State, t: Tid)
    requires PlaceInv(s, p) && Quiet(s, s', t)
    ensures PlaceInv(s', p)
  {
    forall u | u in s'.frames ensures FramePlace(p, u, s'.frames[u]) {
      assert u in s.frames ==> FramePlace(p, u, s.frames[u]);
    }
    forall q | q in p && p[q].By?
      ensures p[q].t in s'.frames && (s'.frames[p[q].t].q == q || s'.frames[p[q].t].next == q)
    {
      assert p[q].t in s.frames && (s.frames[p[q].t].q == q || s.frames[p[q].t].next == q);
    }
  }

  lemma QuietServices(s: State, p: Places, s': State, t: Tid)
    requires PlaceInv(s, p) && ServiceInv(s, p) && FreedInv(s) && Quiet(s, s', t)
    requires t in s.frames && Building(s.frames[t].pc) && !(t in s'.frames && Building(s'.frames[t].pc)) ==>
      forall c :: c in s.ctxs && s.ctxs[c].queue == s.frames[t].q ==> !InSlot(s', c) || s'.ctxs[c].init
    requires t in s.frames && s.frames[t].next != NULL ==> !Building(s.frames[t].pc)
    ensures ServiceInv(s', p) && FreedInv(s')
  {
    forall c | c in s'.ctxs ensures CtxInv(s', p, c) {
      assert CtxInv(s, p, c);
    }
    forall q | q in s'.queues ensures QueueInv(s', p, q) {
      assert QueueInv(s, p, q);
    }
  }

  lemma QuietFrames(s: State, s': State, t: Tid)
    requires RefInv(s) && FramesInv(s) && Quiet(s, s', t)
    requires t in s'.frames ==> FrameInv(s', t, s'.frames[t])
    requires t in s.weights ==> t in s'.frames
    requires forall u :: u in s.frames && u != t && s.frames[u].pc.Initing? && s.frames[u].ctx in s.ctxs ==> !s'.ctxs[s.frames[u].ctx].init
    ensures FramesInv(s')
  {
    forall u | u in s'.weights ensures u in s'.frames {
      assert u in s.frames;
    }
    forall u | u in s'.frames ensures FrameInv(s', u, s'.frames[u]) {
      if u != t {
        assert FrameInv(s, u, s.frames[u]);
      }
    }
  }

  /** A step on one queue: the contexts and the handles stay. */
  ghost predicate OneQueue(s: State, p: Places, s': State, p': Places, t: Tid, q: Qid) {
    && OnlyFrame(s, s', t)
    && s'.weights == s.weights && s'.ctxs == s.ctxs && s'.slots == s.slots
    && s'.freed == s.freed && s'.dead == s.dead
    && q in s.queues && q in p && p.Keys == s.queues.Keys
    && s'.queues.Keys == s.queues.Keys && p'.Keys == p.Keys
    && (forall x :: x in s.queues && x != q ==> s'.queues[x] == s.queues[x] && p'[x] == p[x])
    && s'.queues[q].ctx == s.queues[q].ctx
    && s'.queues[q].mq.handle == s.queues[q].mq.handle
    && s'.queues[q].mq.release == s.queues[q].mq.release
    && CtxAt(s', t) == CtxAt(s, t)
  }

  lemma OneQueuePlaces(s: State, p: Places, s': State, p': Places, t: Tid, q: Qid)
    requires PlaceInv(s, p) && OneQueue(s, p, s', p', t, q)
    requires Distinct(s'.global)
    requires forall x :: x in s'.global ==> x in p' && p'[x] == Global
    requires forall x :: x in p' && p'[x] == Global ==> x in s'.global
    requires p'[q] == p[q] || (!p'[q].By? && p[q] == By(t)) || (p'[q] == By(t) && !p[q].By?) || (!p'[q].By? && !p[q].By?)
    requires t in s'.frames ==> FramePlace(p', t, s'.frames[t])
    requires forall x :: x in p' && p'[x] == By(t) ==> t in s'.frames && (s'.frames[t].q == x || s'.frames[t].next == x)
    ensures PlaceInv(s', p')
  {
    forall u | u in s'.frames ensures FramePlace(p', u, s'.frames[u]) {
      if u != t {
        assert FramePlace(p, u, s.frames[u]);
      }
    }
  }

  lemma OneQueueServices(s: State, p: Places, s': State, p': Places, t: Tid, q: Qid)
    requires PlaceInv(s, p) && ServiceInv(s, p) && FreedInv(s) && OneQueue(s, p, s', p', t, q)
    requires QueueInv(s', p', q)
    requires s.queues[q].ctx in s.ctxs ==> CtxInv(s', p', s.queues[q].ctx)
    requires t in s.frames ==> !Building(s.frames[t].pc)
    ensures ServiceInv(s', p') && FreedInv(s')
  {
    forall c | c in s'.ctxs ensures CtxInv(s', p', c) {
      assert CtxInv(s, p, c);
    }
    forall x | x in s'.queues ensures QueueInv(s', p', x) {
      assert QueueInv(s, p, x);
    }
  }

  lemma OneQueueFrames(s: State, p: Places, s': State, p': Places, t: Tid, q: Qid)
    requires RefInv(s) && PlaceInv(s, p) && FramesInv(s) && OneQueue(s, p, s', p', t, q)
    requires t in s'.frames ==> FrameInv(s', t, s'.frames[t])
    requires t in s.weights ==> t in s'.frames
    requires s.queues[q].mq.release ==> s'.queues[q].mq.pending == s.queues[q].mq.pending || p[q] == By(t)
    ensures RefInv(s') && FramesInv(s')
  {
    RefMove(s, s', t);
    forall u | u in s.weights ensures u in s'.frames {
      assert u in s.frames;
    }
    forall u | u in s'.frames ensures FrameInv(s', u, s'.frames[u]) {
      if u != t {
        assert FrameInv(s, u, s.frames[u]) && FramePlace(p, u, s.frames[u]);
      }
    }
  }

  // ---------------------------------------------------------------- every step keeps the invariant

  lemma QuietKeeps(s: State, p: Places, s': State, t: Tid)
    requires Inv(s, p) && Quiet(s, s', t)
    requires t in s.frames && Building(s.frames[t].pc) && !(t in s'.frames && Building(s'.frames[t].pc)) ==>
      forall c :: c in s.ctxs && s.ctxs[c].queue == s.frames[t].q ==> !InSlot(s', c) || s'.ctxs[c].init
    requires t in s'.frames ==> FrameInv(s', t, s'.frames[t])
    requires t in s.weights ==> t in s'.frames
    requires forall u :: u in s.frames && u != t && s.frames[u].pc.Initing? && s.frames[u].ctx in s.ctxs ==> !s'.ctxs[s.frames[u].ctx].init
    requires CtxAt(s', t) != NULL ==> CtxAt(s', t) in s.ctxs
    requires forall c :: c in s.ctxs ==>
      s'.ctxs[c].ref == s.ctxs[c].ref + Bit(CtxAt(s', t) == c) - Bit(CtxAt(s, t) == c)
                        + Bit(InSlot(s', c)) - Bit(InSlot(s, c))
    ensures Inv(s', p)
  {
    RefMove(s, s', t);
    QuietPlaces(s, p, s', t);
    assert t in s.frames ==> FrameInv(s, t, s.frames[t]);
    QuietServices(s, p, s', t);
    QuietFrames(s, s', t);
  }

  lemma GrabKeeps(s: State, p: Places, t: Tid, h: Handle, m: Option<Message>)
    requires Inv(s, p) && CanStart(s, t)
    ensures Inv(ApplyGrab(s, t, h, m), p)
  {
    if h in s.slots {
      QuietKeeps(s, p, ApplyGrab(s, t, h, m), t);
    }
  }

  lemma RetireKeeps(s: State, p: Places, t: Tid, h: Handle)
    requires Inv(s, p) && CanStart(s, t)
    ensures Inv(ApplyRetire(s, t, h), p)
  {
    if h in s.slots {
      QuietKeeps(s, p, ApplyRetire(s, t, h), t);
    }
  }

  lemma DropKeeps(s: State, p: Places, t: Tid)
    requires Inv(s, p) && CanDrop(s, t)
    ensures Inv(Gone(Count(s, s.frames[t].ctx, -1), t), p)
  {
    assert FrameInv(s, t, s.frames[t]);
    QuietKeeps(s, p, Gone(Count(s, s.frames[t].ctx, -1), t), t);
  }

  /** Two frames cannot be creating the same context. */
  lemma OneCreator(s: State, p: Places, t: Tid, u: Tid)
    requires Inv(s, p)
    requires t in s.frames && u in s.frames && s.frames[t].pc.Initing? && s.frames[u].pc.Initing?
    requires s.frames[t].ctx == s.frames[u].ctx
    ensures t == u
  {
    assert FrameInv(s, t, s.frames[t]) && FrameInv(s, u, s.frames[u]);
    assert FramePlace(p, t, s.frames[t]) && FramePlace(p, u, s.frames[u]);
  }

  lemma InitOkKeeps(s: State, p: Places, t: Tid)
    requires Inv(s, p) && CanInitOk(s, t)
    ensures Inv(ApplyInitOk(s, t), p)
  {
    var s' := ApplyInitOk(s, t);
    var c := s.frames[t].ctx;
    assert FrameInv(s, t, s.frames[t]) && CtxInv(s, p, c);
    forall u | u in s.frames && u != t && s.frames[u].pc.Initing? && s.frames[u].ctx in s.ctxs
      ensures !s'.ctxs[s.frames[u].ctx].init
    {
      if s.frames[u].ctx == c { OneCreator(s, p, t, u); }
      assert FrameInv(s, u, s.frames[u]);
    }
    forall x | x in s.ctxs && s.ctxs[x].queue == s.frames[t].q ensures !InSlot(s', x) || s'.ctxs[x].init {
      assert CtxInv(s, p, x);
      assert t in Refs(s.frames, c);
      assert |Refs(s.frames, c)| >= 1;
    }
    QuietKeeps(s, p, s', t);
  }

  lemma InitFailKeeps(s: State, p: Places, t: Tid)
    requires Inv(s, p) && CanInitFail(s, t)
    ensures Inv(ApplyInitFail(s, t), p)
  {
    var c := s.frames[t].ctx;
    assert FrameInv(s, t, s.frames[t]) && CtxInv(s, p, c);
    QuietInits(s, t);
    QuietKeeps(s, p, ApplyInitFail(s, t), t);
  }

  lemma QuietInits(s: State, t: Tid)
    requires FramesInv(s)
    ensures forall u :: u in s.frames && u != t && s.frames[u].pc.Initing? && s.frames[u].ctx in s.ctxs ==> !s.ctxs[s.frames[u].ctx].init
  {
    forall u | u in s.frames && u != t && s.frames[u].pc.Initing? && s.frames[u].ctx in s.ctxs
      ensures !s.ctxs[s.frames[u].ctx].init
    {
      assert FrameInv(s, u, s.frames[u]);
    }
  }

  /** After the retirement no context of the failed service is in a slot. */
  lemma FailedIsOut(s: State, p: Places, t: Tid)
    requires Inv(s, p) && CanFailRetire(s, t)
    ensures forall x :: x in s.ctxs && s.ctxs[x].queue == s.frames[t].q ==> !InSlot(ApplyFailRetire(s, t), x)
    ensures s.frames[t].pc.h in s.slots ==> s.slots[s.frames[t].pc.h] in s.ctxs
  {
    var s' := ApplyFailRetire(s, t);
    var q, h := s.frames[t].q, s.frames[t].pc.h;
    assert FrameInv(s, t, s.frames[t]) && QueueInv(s, p, q);
    assert h in s.slots ==> CtxInv(s, p, s.slots[h]);
    forall x | x in s.ctxs && s.ctxs[x].queue == q ensures !InSlot(s', x) {
      assert CtxInv(s, p, x);
    }
  }

  /** It costs the context the slot's reference, unless it was out already. */
  lemma FailRetireCounts(s: State, p: Places, t: Tid)
    requires Inv(s, p) && CanFailRetire(s, t)
    ensures var s' := ApplyFailRetire(s, t);
            Quiet(s, s', t) && forall c :: c in s.ctxs ==>
              s'.ctxs[c].ref == s.ctxs[c].ref + Bit(CtxAt(s', t) == c) - Bit(CtxAt(s, t) == c)
                                + Bit(InSlot(s', c)) - Bit(InSlot(s, c))
  {
    var h := s.frames[t].pc.h;
    assert FrameInv(s, t, s.frames[t]);
    forall c | c in s.ctxs ensures InSlot(s, c) ==> s.ctxs[c].handle in s.slots {
      assert CtxInv(s, p, c);
    }
    if h in s.slots {
      assert CtxInv(s, p, s.slots[h]);
    }
  }

  lemma FailRetireKeeps(s: State, p: Places, t: Tid)
    requires Inv(s, p) && CanFailRetire(s, t)
    ensures Inv(ApplyFailRetire(s, t), p)
  {
    assert FrameInv(s, t, s.frames[t]) && QueueInv(s, p, s.frames[t].q);
    FailedIsOut(s, p, t);
    FailRetireCounts(s, p, t);
    QuietInits(s, t);
    hide Quiet, Inv;
    QuietKeeps(s, p, ApplyFailRetire(s, t), t);
  }

  lemma FailDropKeeps(s: State, p: Places, t: Tid)
    requires Inv(s, p) && CanFailDrop(s, t)
    ensures Inv(Put(Count(s, s.frames[t].ctx, -1), t, s.frames[t].(pc := Dismissing, ctx := NULL)), p)
  {
    assert FrameInv(s, t, s.frames[t]) && CtxInv(s, p, s.frames[t].ctx);
    QuietInits(s, t);
    QuietKeeps(s, p, Put(Count(s, s.frames[t].ctx, -1), t, s.frames[t].(pc := Dismissing, ctx := NULL)), t);
  }

  lemma LookupKeeps(s: State, p: Places, t: Tid)
    requires Inv(s, p) && CanLookup(s, t)
    ensures Inv(ApplyLookup(s, t), p)
  {
    var s' := ApplyLookup(s, t);
    var q := s.frames[t].q;
    var h := s.queues[q].mq.handle;
    assert FrameInv(s, t, s.frames[t]) && QueueInv(s, p, q) && FramePlace(p, t, s.frames[t]);
    QuietInits(s, t);
    if h in s.slots {
      assert CtxInv(s, p, s.slots[h]);
      assert s.ctxs[s.slots[h]].queue == q;
    } else {
      assert s.queues[q].ctx in s.ctxs ==> CtxInv(s, p, s.queues[q].ctx);
    }
    QuietKeeps(s, p, s', t);
  }

  lemma MeasureKeeps(s: State, p: Places, t: Tid)
    requires Inv(s, p) && CanMeasure(s, t)
    ensures Inv(ApplyMeasure(s, t), p)
  {
    assert FrameInv(s, t, s.frames[t]);
    QuietInits(s, t);
    QuietKeeps(s, p, ApplyMeasure(s, t), t);
  }

  lemma ReturnKeeps(s: State, p: Places, t: Tid)
    requires Inv(s, p) && CanReturn(s, t)
    ensures AssertInit(s, t) && Inv(ApplyReturn(s, t), p)
  {
    assert FrameInv(s, t, s.frames[t]);
    QuietInits(s, t);
    QuietKeeps(s, p, ApplyReturn(s, t), t);
  }

  lemma LeaveKeeps(s: State, p: Places, t: Tid)
    requires Inv(s, p) && CanLeave(s, t)
    ensures Inv(ApplyLeave(s, t), p)
  {
    assert FrameInv(s, t, s.frames[t]);
    QuietInits(s, t);
    QuietKeeps(s, p, ApplyLeave(s, t), t);
  }

  /** Appending to the global list a queue that was elsewhere. */
  lemma ListedPlaces(g: seq<Qid>, p: Places, q: Qid)
    requires Distinct(g) && q in p && p[q] != Global
    requires forall x :: x in g ==> x in p && p[x] == Global
    requires forall x :: x in p && p[x] == Global ==> x in g
    ensures Distinct(g + [q])
    ensures forall x :: x in g + [q] ==> x in p[q := Global] && p[q := Global][x] == Global
    ensures forall x :: x in p[q := Global] && p[q := Global][x] == Global ==> x in g + [q]
  {
    assert q !in g;
  }

  /** Taking the first queue off the global list. */
  lemma UnlistedPlaces(g: seq<Qid>, p: Places, t: Tid)
    requires Distinct(g) && g != []
    requires forall x :: x in g ==> x in p && p[x] == Global
    requires forall x :: x in p && p[x] == Global ==> x in g
    ensures Distinct(g[1..])
    ensures forall x :: x in g[1..] ==> x in p[g[0] := By(t)] && p[g[0] := By(t)][x] == Global
    ensures forall x :: x in p[g[0] := By(t)] && p[g[0] := By(t)][x] == Global ==> x in g[1..]
  {
    assert g == [g[0]] + g[1..];
  }

  lemma OneQueueKeeps(s: State, p: Places, s': State, p': Places, t: Tid, q: Qid)
    requires Inv(s, p) && OneQueue(s, p, s', p', t, q)
    requires Distinct(s'.global)
    requires forall x :: x in s'.global ==> x in p' && p'[x] == Global
    requires forall x :: x in p' && p'[x] == Global ==> x in s'.global
    requires p'[q] == p[q] || (!p'[q].By? && p[q] == By(t)) || (p'[q] == By(t) && !p[q].By?) || (!p'[q].By? && !p[q].By?)
    requires t in s'.frames ==> FramePlace(p', t, s'.frames[t])
    requires forall x :: x in p' && p'[x] == By(t) ==> t in s'.frames && (s'.frames[t].q == x || s'.frames[t].next == x)
    requires QueueInv(s', p', q)
    requires s.queues[q].ctx in s.ctxs ==> CtxInv(s', p', s.queues[q].ctx)
    requires t in s.frames ==> !Building(s.frames[t].pc)
    requires t in s'.frames ==> FrameInv(s', t, s'.frames[t])
    requires t in s.weights ==> t in s'.frames
    requires s.queues[q].mq.release ==> s'.queues[q].mq.pending == s.queues[q].mq.pending || p[q] == By(t)
    ensures Inv(s', p')
  {
    OneQueuePlaces(s, p, s', p', t, q);
    OneQueueServices(s, p, s', p', t, q);
    OneQueueFrames(s, p, s', p', t, q);
  }

  // The history of a queue: a push, a dispatch and a drop each keep it in order.

  ghost predicate InOrder(x: Service) {
    x.pushed == x.dispatched + x.dropped + x.mq.pending
  }

  lemma PushLog(x: Service, m: Message)
    requires InOrder(x)
    ensures InOrder(x.(mq := Pushed(x.mq, m).0, pushed := x.pushed + [m]))
  {
    assert x.pushed + [m] == x.dispatched + x.dropped + (x.mq.pending + [m]);
  }

  lemma PopLog(x: Service)
    requires InOrder(x) && x.mq.pending != [] && x.dropped == []
    ensures InOrder(x.(mq := Popped(x.mq).0, dispatched := x.dispatched + [x.mq.pending[0]]))
  {
    assert x.mq.pending == [x.mq.pending[0]] + x.mq.pending[1..];
  }

  lemma DropLog(x: Service)
    requires InOrder(x) && x.mq.pending != []
    ensures InOrder(x.(mq := Popped(x.mq).0, dropped := x.dropped + [x.mq.pending[0]]))
  {
    assert x.mq.pending == [x.mq.pending[0]] + x.mq.pending[1..];
  }

  lemma PushQuietKeeps(s: State, p: Places, t: Tid)
    requires Inv(s, p) && CanPush(s, t)
    requires s.queues[s.ctxs[s.frames[t].ctx].queue].mq.inGlobal
    ensures Inv(ApplyPush(s, t), p)
  {
    var q := s.ctxs[s.frames[t].ctx].queue;
    assert FrameInv(s, t, s.frames[t]) && CtxInv(s, p, s.frames[t].ctx) && QueueInv(s, p, q);
    PushLog(s.queues[q], s.frames[t].pc.m);
    OneQueueKeeps(s, p, ApplyPush(s, t), p, t, q);
  }

  lemma PushIsOneQueue(s: State, p: Places, t: Tid, place: Place)
    requires CanPush(s, t) && p.Keys == s.queues.Keys
    ensures var q := s.ctxs[s.frames[t].ctx].queue;
            OneQueue(s, p, ApplyPush(s, t), p[q := place], t, q)
  {
  }

  lemma PushWakeKeeps(s: State, p: Places, t: Tid)
    requires Inv(s, p) && CanPush(s, t)
    requires !s.queues[s.ctxs[s.frames[t].ctx].queue].mq.inGlobal
    ensures AssertPush(s, t)
    ensures Inv(ApplyPush(s, t), p[s.ctxs[s.frames[t].ctx].queue := Global])
  {
    var q := s.ctxs[s.frames[t].ctx].queue;
    assert FrameInv(s, t, s.frames[t]) && CtxInv(s, p, s.frames[t].ctx) && QueueInv(s, p, q);
    PushLog(s.queues[q], s.frames[t].pc.m);
    ListedPlaces(s.global, p, q);
    var s', p' := ApplyPush(s, t), p[q := Global];
    PushIsOneQueue(s, p, t, Global);
    assert p[q] == Nowhere && s'.global == s.global + [q];
    OneQueueKeeps(s, p, s', p', t, q);
  }

  lemma PushKeeps(s: State, p: Places, t: Tid) returns (p': Places)
    requires Inv(s, p) && CanPush(s, t)
    ensures AssertPush(s, t) && Inv(ApplyPush(s, t), p')
  {
    var q := s.ctxs[s.frames[t].ctx].queue;
    if s.queues[q].mq.inGlobal {
      p' := p;
      PushQuietKeeps(s, p, t);
    } else {
      p' := p[q := Global];
      PushWakeKeeps(s, p, t);
    }
  }

  lemma PublishKeeps(s: State, p: Places, t: Tid) returns (p': Places)
    requires Inv(s, p) && CanPublish(s, t)
    ensures s.frames[t].q !in s.global && Inv(Gone(Listed(s, s.frames[t].q), t), p')
  {
    var q := s.frames[t].q;
    assert FrameInv(s, t, s.frames[t]) && FramePlace(p, t, s.frames[t]) && QueueInv(s, p, q);
    assert s.queues[q].ctx in s.ctxs ==> CtxInv(s, p, s.queues[q].ctx);
    p' := p[q := Global];
    ListedPlaces(s.global, p, q);
    OneQueueKeeps(s, p, Gone(Listed(s, q), t), p', t, q);
  }

  lemma TakeKeeps(s: State, p: Places, t: Tid) returns (p': Places)
    requires Inv(s, p) && CanTake(s, t)
    ensures Inv(ApplyTake(s, t), p')
  {
    p' := p;
    if s.global != [] {
      p' := p[s.global[0] := By(t)];
      TakeQueueKeeps(s, p, t);
    }
  }

  lemma TakeQueueKeeps(s: State, p: Places, t: Tid)
    requires Inv(s, p) && CanTake(s, t) && s.global != []
    ensures Inv(ApplyTake(s, t), p[s.global[0] := By(t)])
  {
    var q := s.global[0];
    assert FrameInv(s, t, s.frames[t]) && QueueInv(s, p, q);
    assert s.queues[q].ctx in s.ctxs ==> CtxInv(s, p, s.queues[q].ctx);
    UnlistedPlaces(s.global, p, t);
    TakeIsOne(s, p, t);
    hide OneQueue, RefInv, ServiceInv, FreedInv;
    OneQueueKeeps(s, p, ApplyTake(s, t), p[q := By(t)], t, q);
  }

  lemma TakeIsOne(s: State, p: Places, t: Tid)
    requires Inv(s, p) && CanTake(s, t) && s.global != []
    ensures OneQueue(s, p, ApplyTake(s, t), p[s.global[0] := By(t)], t, s.global[0])
  {
    assert FrameInv(s, t, s.frames[t]) && QueueInv(s, p, s.global[0]);
  }

  lemma PopEmptyKeeps(s: State, p: Places, t: Tid)
    requires Inv(s, p) && CanPop(s, t) && s.queues[s.frames[t].q].mq.pending == []
    ensures Inv(ApplyPop(s, t), p[s.frames[t].q := Nowhere])
  {
    var q := s.frames[t].q;
    assert FrameInv(s, t, s.frames[t]) && FramePlace(p, t, s.frames[t]) && QueueInv(s, p, q) && CtxInv(s, p, s.frames[t].ctx);
    OneQueueKeeps(s, p, ApplyPop(s, t), p[q := Nowhere], t, q);
  }

  lemma PopMessageKeeps(s: State, p: Places, t: Tid)
    requires Inv(s, p) && CanPop(s, t) && s.queues[s.frames[t].q].mq.pending != []
    ensures Inv(ApplyPop(s, t), p)
  {
    var q := s.frames[t].q;
    assert FrameInv(s, t, s.frames[t]) && FramePlace(p, t, s.frames[t]) && QueueInv(s, p, q) && CtxInv(s, p, s.frames[t].ctx);
    PopLog(s.queues[q]);
    OneQueueKeeps(s, p, ApplyPop(s, t), p, t, q);
  }

  lemma PopKeeps(s: State, p: Places, t: Tid) returns (p': Places)
    requires Inv(s, p) && CanPop(s, t)
    ensures AssertInit(s, t) && Inv(ApplyPop(s, t), p')
  {
    assert FrameInv(s, t, s.frames[t]);
    if s.queues[s.frames[t].q].mq.pending == [] {
      p' := p[s.frames[t].q := Nowhere];
      PopEmptyKeeps(s, p, t);
    } else {
      p' := p;
      PopMessageKeeps(s, p, t);
    }
  }

  lemma TurnTakesKeeps(s: State, p: Places, t: Tid)
    requires Inv(s, p) && CanTurn(s, t) && s.global != []
    ensures Inv(ApplyTurn(s, t), p[s.global[0] := By(t)])
  {
    var q := s.global[0];
    assert FrameInv(s, t, s.frames[t]) && FramePlace(p, t, s.frames[t]) && QueueInv(s, p, q);
    assert s.queues[q].ctx in s.ctxs ==> CtxInv(s, p, s.queues[q].ctx);
    UnlistedPlaces(s.global, p, t);
    OneQueueKeeps(s, p, ApplyTurn(s, t), p[q := By(t)], t, q);
  }

  lemma TurnLeavesKeeps(s: State, p: Places, t: Tid)
    requires Inv(s, p) && CanTurn(s, t) && s.global == []
    ensures Inv(ApplyTurn(s, t), p)
  {
    assert FrameInv(s, t, s.frames[t]) && FramePlace(p, t, s.frames[t]);
    QuietInits(s, t);
    QuietKeeps(s, p, ApplyTurn(s, t), t);
  }

  lemma TurnKeeps(s: State, p: Places, t: Tid) returns (p': Places)
    requires Inv(s, p) && CanTurn(s, t)
    ensures AssertSame(s, t) && Inv(ApplyTurn(s, t), p')
  {
    assert FrameInv(s, t, s.frames[t]);
    if s.global == [] {
      p' := p;
      TurnLeavesKeeps(s, p, t);
    } else {
      p' := p[s.global[0] := By(t)];
      TurnTakesKeeps(s, p, t);
    }
  }

  lemma PutBackKeeps(s: State, p: Places, t: Tid) returns (p': Places)
    requires Inv(s, p) && CanPutBack(s, t)
    ensures s.frames[t].q !in s.global && Inv(ApplyPutBack(s, t), p')
  {
    var q := s.frames[t].q;
    assert FrameInv(s, t, s.frames[t]) && FramePlace(p, t, s.frames[t]) && QueueInv(s, p, q) && CtxInv(s, p, s.frames[t].ctx);
    p' := p[q := Global];
    ListedPlaces(s.global, p, q);
    OneQueueKeeps(s, p, ApplyPutBack(s, t), p', t, q);
  }

  lemma DismissReleasedKeeps(s: State, p: Places, t: Tid)
    requires Inv(s, p) && CanDismiss(s, t) && s.queues[s.frames[t].q].mq.release
    ensures Inv(ApplyDismiss(s, t), p)
  {
    var q := s.frames[t].q;
    assert FrameInv(s, t, s.frames[t]) && QueueInv(s, p, q);
    QuietInits(s, t);
    QuietKeeps(s, p, ApplyDismiss(s, t), t);
  }

  lemma DismissIsOne(s: State, p: Places, t: Tid)
    requires Inv(s, p) && CanDismiss(s, t) && !s.queues[s.frames[t].q].mq.release
    ensures var q := s.frames[t].q; OneQueue(s, p, ApplyDismiss(s, t), p[q := Global], t, q)
  {
    var q := s.frames[t].q;
    assert FrameInv(s, t, s.frames[t]) && FramePlace(p, t, s.frames[t]) && QueueInv(s, p, q);
  }

  lemma DismissPendingKeeps(s: State, p: Places, t: Tid)
    requires Inv(s, p) && CanDismiss(s, t) && !s.queues[s.frames[t].q].mq.release
    ensures s.frames[t].q !in s.global
    ensures Inv(ApplyDismiss(s, t), p[s.frames[t].q := Global])
  {
    var q := s.frames[t].q;
    assert FrameInv(s, t, s.frames[t]) && FramePlace(p, t, s.frames[t]) && QueueInv(s, p, q);
    assert CtxInv(s, p, s.queues[q].ctx);
    ListedPlaces(s.global, p, q);
    DismissIsOne(s, p, t);
    hide OneQueue, RefInv, ServiceInv, FreedInv;
    OneQueueKeeps(s, p, ApplyDismiss(s, t), p[q := Global], t, q);
  }

  lemma DismissKeeps(s: State, p: Places, t: Tid) returns (p': Places)
    requires Inv(s, p) && CanDismiss(s, t)
    ensures s.frames[t].q !in s.global && Inv(ApplyDismiss(s, t), p')
  {
    assert FramePlace(p, t, s.frames[t]) && FrameInv(s, t, s.frames[t]);
    if s.queues[s.frames[t].q].mq.release {
      p' := p;
      DismissReleasedKeeps(s, p, t);
    } else {
      p' := p[s.frames[t].q := Global];
      DismissPendingKeeps(s, p, t);
    }
  }

  lemma DropMessageKeeps(s: State, p: Places, t: Tid)
    requires Inv(s, p) && CanDropPop(s, t) && s.queues[s.frames[t].q].mq.pending != []
    ensures Inv(ApplyDropPop(s, t), p)
  {
    var q := s.frames[t].q;
    assert FrameInv(s, t, s.frames[t]) && FramePlace(p, t, s.frames[t]) && QueueInv(s, p, q);
    DropLog(s.queues[q]);
    OneQueueKeeps(s, p, ApplyDropPop(s, t), p, t, q);
  }

  lemma DropEmptyKeeps(s: State, p: Places, t: Tid)
    requires Inv(s, p) && CanDropPop(s, t) && s.queues[s.frames[t].q].mq.pending == []
    ensures Inv(ApplyDropPop(s, t), p)
  {
    var q := s.frames[t].q;
    assert FrameInv(s, t, s.frames[t]) && FramePlace(p, t, s.frames[t]) && QueueInv(s, p, q);
    OneQueueKeeps(s, p, ApplyDropPop(s, t), p, t, q);
  }

  /** A context is deleted while nothing refers to it; an idle queue is then listed once more, to be freed. */
  lemma DeletePlaces(s: State, p: Places, c: Cid) returns (p': Places)
    requires Inv(s, p) && CanDelete(s, c)
    ensures AssertDelete(s, c)
    ensures p' == if s.queues[s.ctxs[c].queue].mq.inGlobal then p else p[s.ctxs[c].queue := Global]
    ensures PlaceInv(ApplyDelete(s, c), p')
  {
    var s' := ApplyDelete(s, c);
    var q := s.ctxs[c].queue;
    assert CtxInv(s, p, c) && QueueInv(s, p, q);
    p' := if s.queues[q].mq.inGlobal then p else p[q := Global];
    if !s.queues[q].mq.inGlobal {
      ListedPlaces(s.global, p, q);
    }
    forall u | u in s'.frames ensures FramePlace(p', u, s'.frames[u]) {
      assert FramePlace(p, u, s.frames[u]);
    }
  }

  lemma DeleteRefs(s: State, p: Places, c: Cid)
    requires RefInv(s) && CanDelete(s, c)
    ensures RefInv(ApplyDelete(s, c))
    ensures !InSlot(s, c) && forall t :: t in s.frames ==> s.frames[t].ctx != c
  {
    var s' := ApplyDelete(s, c);
    assert |Refs(s.frames, c)| == 0 && !InSlot(s, c);
    forall t | t in s.frames ensures s.frames[t].ctx != c {
      assert t in Refs(s.frames, c) <==> s.frames[t].ctx == c;
    }
    forall x | x in s'.ctxs ensures InSlot(s', x) == InSlot(s, x) { }
  }

  lemma DeleteServices(s: State, p: Places, c: Cid, p': Places)
    requires Inv(s, p) && CanDelete(s, c) && !InSlot(s, c)
    requires p' == if s.queues[s.ctxs[c].queue].mq.inGlobal then p else p[s.ctxs[c].queue := Global]
    ensures ServiceInv(ApplyDelete(s, c), p') && FreedInv(ApplyDelete(s, c))
  {
    var s' := ApplyDelete(s, c);
    var q := s.ctxs[c].queue;
    assert CtxInv(s, p, c);
    forall x | x in s'.ctxs ensures CtxInv(s', p', x) {
      assert CtxInv(s, p, x);
    }
    forall x | x in s'.queues ensures QueueInv(s', p', x) {
      assert QueueInv(s, p, x);
    }
  }

  lemma DeleteFrames(s: State, p: Places, c: Cid)
    requires Inv(s, p) && CanDelete(s, c) && forall t :: t in s.frames ==> s.frames[t].ctx != c
    ensures FramesInv(ApplyDelete(s, c))
  {
    var s' := ApplyDelete(s, c);
    assert CtxInv(s, p, c) && QueueInv(s, p, s.ctxs[c].queue);
    forall u | u in s'.frames ensures FrameInv(s', u, s'.frames[u]) {
      assert FrameInv(s, u, s.frames[u]);
    }
  }

  lemma DeleteKeeps(s: State, p: Places, c: Cid) returns (p': Places)
    requires Inv(s, p) && CanDelete(s, c)
    ensures AssertDelete(s, c) && Inv(ApplyDelete(s, c), p')
  {
    DeleteRefs(s, p, c);
    p' := DeletePlaces(s, p, c);
    DeleteServices(s, p, c, p');
    DeleteFrames(s, p, c);
  }

  lemma CreateRefs(s: State, p: Places, t: Tid, c: Cid, q: Qid, h: Handle)
    requires Inv(s, p) && CanCreate(s, t, c, q, h)
    ensures RefInv(ApplyCreate(s, t, c, q, h)) && FreedInv(ApplyCreate(s, t, c, q, h))
  {
    var s' := ApplyCreate(s, t, c, q, h);
    forall x | x in s'.ctxs ensures s'.ctxs[x].ref == |Refs(s'.frames, x)| + Bit(InSlot(s', x)) {
      if x == c {
        forall u ensures u in Refs(s'.frames, c) <==> u == t {
          assert u in s.frames && s.frames[u].ctx != NULL ==> s.frames[u].ctx in s.ctxs;
        }
        assert Refs(s'.frames, c) == {t};
      } else {
        assert Refs(s'.frames, x) == Refs(s.frames, x);
        assert InSlot(s', x) == InSlot(s, x);
      }
    }
  }

  lemma CreatePlaces(s: State, p: Places, t: Tid, c: Cid, q: Qid, h: Handle)
    requires PlaceInv(s, p) && CanCreate(s, t, c, q, h)
    ensures PlaceInv(ApplyCreate(s, t, c, q, h), p[q := By(t)])
  {
    var s', p' := ApplyCreate(s, t, c, q, h), p[q := By(t)];
    forall u | u in s'.frames ensures FramePlace(p', u, s'.frames[u]) {
      assert u != t ==> FramePlace(p, u, s.frames[u]);
    }
  }

  lemma CreateServices(s: State, p: Places, t: Tid, c: Cid, q: Qid, h: Handle)
    requires Inv(s, p) && CanCreate(s, t, c, q, h)
    ensures ServiceInv(ApplyCreate(s, t, c, q, h), p[q := By(t)])
  {
    var s', p' := ApplyCreate(s, t, c, q, h), p[q := By(t)];
    forall x | x in s'.ctxs ensures CtxInv(s', p', x) {
      assert x != c ==> CtxInv(s, p, x) && InSlot(s', x) == InSlot(s, x);
    }
    forall x | x in s'.queues ensures QueueInv(s', p', x) {
      assert x != q ==> QueueInv(s, p, x);
    }
  }

  lemma CreateFrames(s: State, p: Places, t: Tid, c: Cid, q: Qid, h: Handle)
    requires Inv(s, p) && CanCreate(s, t, c, q, h)
    ensures FramesInv(ApplyCreate(s, t, c, q, h))
  {
    var s' := ApplyCreate(s, t, c, q, h);
    forall u | u in s'.frames ensures FrameInv(s', u, s'.frames[u]) {
      if u != t {
        assert FrameInv(s, u, s.frames[u]);
        if s.frames[u].pc.Dismissing? {
          assert QueueInv(s, p, s.frames[u].q);
        }
      }
    }
  }

  lemma CreateKeeps(s: State, p: Places, t: Tid, c: Cid, q: Qid, h: Handle)
    requires Inv(s, p) && CanCreate(s, t, c, q, h)
    ensures Inv(ApplyCreate(s, t, c, q, h), p[q := By(t)])
  {
    CreateRefs(s, p, t, c, q, h);
    CreatePlaces(s, p, t, c, q, h);
    CreateServices(s, p, t, c, q, h);
    CreateFrames(s, p, t, c, q, h);
  }

  lemma FreeRefs(s: State, p: Places, t: Tid)
    requires Inv(s, p) && CanFree(s, t)
    ensures RefInv(ApplyFree(s, t))
    ensures s.frames[t].q !in s.global && PlaceInv(ApplyFree(s, t), p - {s.frames[t].q})
  {
    var s', p' := ApplyFree(s, t), p - {s.frames[t].q};
    assert FrameInv(s, t, s.frames[t]) && FramePlace(p, t, s.frames[t]);
    RefMove(s, s', t);
    forall u | u in s'.frames ensures FramePlace(p', u, s'.frames[u]) {
      assert u in s.frames ==> FramePlace(p, u, s.frames[u]);
    }
  }

  lemma FreeServices(s: State, p: Places, t: Tid)
    requires Inv(s, p) && CanFree(s, t)
    ensures ServiceInv(ApplyFree(s, t), p - {s.frames[t].q}) && FreedInv(ApplyFree(s, t))
  {
    var s', p', q := ApplyFree(s, t), p - {s.frames[t].q}, s.frames[t].q;
    assert FrameInv(s, t, s.frames[t]) && FramePlace(p, t, s.frames[t]) && QueueInv(s, p, q);
    forall x | x in s'.ctxs ensures CtxInv(s', p', x) {
      assert CtxInv(s, p, x);
    }
    forall x | x in s'.queues ensures QueueInv(s', p', x) {
      assert QueueInv(s, p, x);
    }
    assert s'.freed[q].pushed == s'.freed[q].dispatched + s'.freed[q].dropped;
  }

  lemma FreeFrames(s: State, p: Places, t: Tid)
    requires Inv(s, p) && CanFree(s, t)
    ensures FramesInv(ApplyFree(s, t))
  {
    var s' := ApplyFree(s, t);
    assert FramePlace(p, t, s.frames[t]) && FrameInv(s, t, s.frames[t]);
    forall u | u in s.weights ensures u in s'.frames {
      assert u in s.frames;
    }
    forall u | u in s'.frames ensures FrameInv(s', u, s'.frames[u]) {
      if u != t {
        assert FrameInv(s, u, s.frames[u]) && FramePlace(p, u, s.frames[u]);
      }
    }
  }

  lemma FreeKeeps(s: State, p: Places, t: Tid)
    requires Inv(s, p) && CanFree(s, t)
    ensures s.frames[t].q !in s.global && Inv(ApplyFree(s, t), p - {s.frames[t].q})
  {
    FreeRefs(s, p, t);
    FreeServices(s, p, t);
    FreeFrames(s, p, t);
  }

  predicate OnQueues(step: Step) {
    step.Push? || step.Delete? || step.Create? || step.Pop? || step.DropPop? || step.Free?
  }

  predicate OnReferences(step: Step) {
    || step.Grab? || step.Drop? || step.Retire? || step.InitOk? || step.InitFail? || step.Publish?
    || step.FailRetire? || step.FailDrop?
  }

  lemma QueueStepKeeps(s: State, p: Places, step: Step) returns (p': Places)
    requires Inv(s, p) && Enabled(s, step) && OnQueues(step)
    ensures Asserts(s, step) && Inv(Apply(s, step), p')
  {
    hide Inv;
    p' := p;
    match step {
      case Push(t) => p' := PushKeeps(s, p, t);
      case Delete(c) => p' := DeleteKeeps(s, p, c);
      case Create(t, c, q, h) => CreateKeeps(s, p, t, c, q, h); p' := p[q := By(t)];
      case Pop(t) => p' := PopKeeps(s, p, t);
      case DropPop(t) =>
        if s.queues[s.frames[t].q].mq.pending == [] { DropEmptyKeeps(s, p, t); } else { DropMessageKeeps(s, p, t); }
      case Free(t) => FreeKeeps(s, p, t); p' := p - {s.frames[t].q};
    }
  }

  lemma ReferenceStepKeeps(s: State, p: Places, step: Step) returns (p': Places)
    requires Inv(s, p) && Enabled(s, step) && OnReferences(step)
    ensures Asserts(s, step) && Inv(Apply(s, step), p')
  {
    hide Inv;
    p' := p;
    match step {
      case Grab(t, h, m) => GrabKeeps(s, p, t, h, m);
      case Drop(t) => DropKeeps(s, p, t);
      case Retire(t, h) => RetireKeeps(s, p, t, h);
      case InitOk(t) => InitOkKeeps(s, p, t);
      case InitFail(t) => InitFailKeeps(s, p, t);
      case Publish(t) => p' := PublishKeeps(s, p, t);
      case FailRetire(t) => FailRetireKeeps(s, p, t);
      case FailDrop(t) => FailDropKeeps(s, p, t);
    }
  }

  lemma WorkerStepKeeps(s: State, p: Places, step: Step) returns (p': Places)
    requires Inv(s, p) && Enabled(s, step) && !OnQueues(step) && !OnReferences(step)
    ensures Asserts(s, step) && Inv(Apply(s, step), p')
  {
    hide Inv;
    p' := p;
    match step {
      case Take(t) => p' := TakeKeeps(s, p, t);
      case Lookup(t) => LookupKeeps(s, p, t);
      case Measure(t) => MeasureKeeps(s, p, t);
      case Return(t) => ReturnKeeps(s, p, t);
      case Turn(t) => p' := TurnKeeps(s, p, t);
      case PutBack(t) => p' := PutBackKeeps(s, p, t);
      case Leave(t) => LeaveKeeps(s, p, t);
      case Dismiss(t) => p' := DismissKeeps(s, p, t);
    }
  }

  lemma StepKeeps(s: State, p: Places, step: Step) returns (p': Places)
    requires Inv(s, p) && Enabled(s, step)
    ensures Asserts(s, step) && Inv(Apply(s, step), p')
  {
    hide Inv, Enabled, Asserts, Apply;
    if OnQueues(step) {
      p' := QueueStepKeeps(s, p, step);
    } else if OnReferences(step) {
      p' := ReferenceStepKeeps(s, p, step);
    } else {
      p' := WorkerStepKeeps(s, p, step);
    }
  }

  lemma {:induction false} RunInv(tr: seq<State>, steps: seq<Step>, i: nat) returns (p: Places)
    requires Run(tr, steps) && i < |tr|
    ensures Inv(tr[i], p)
  {
    if i == 0 {
      p := map[];
    } else {
      var before := RunInv(tr, steps, i - 1);
      assert Follows(tr, steps, i - 1);
      p := StepKeeps(tr[i - 1], before, steps[i - 1]);
    }
  }

  // ---------------------------------------------------------------- what it gives

  /** In the code of a service: its callback, or the init that its creator calls. */
  predicate Inside(pc: Pc) {
    pc.Calling? || pc.Initing?
  }

  /** An actor is never entered twice: no two frames are in the code of one service, init included. */
  ghost predicate Exclusive(s: State) {
    forall t, u ::
      (t in s.frames && u in s.frames && Inside(s.frames[t].pc) && Inside(s.frames[u].pc) &&
       s.frames[t].ctx == s.frames[u].ctx) ==> t == u
  }

  ghost predicate Owns(s: State, t: Tid, q: Qid) {
    t in s.frames && q != NULL && (s.frames[t].q == q || s.frames[t].next == q)
  }

  /** Listed once and owned by nobody, or owned by one frame and not listed, or idle: empty and waiting for a push. */
  ghost predicate OnePlace(s: State, q: Qid)
    requires q in s.queues
  {
    var mq := s.queues[q].mq;
    || (q in s.global && forall t :: !Owns(s, t, q))
    || (q !in s.global && exists t :: Owns(s, t, q) && forall u :: Owns(s, u, q) ==> u == t)
    || (q !in s.global && (forall t :: !Owns(s, t, q)) && mq.pending == [] && !mq.inGlobal && !mq.release)
  }

  /** A queue with a message to dispatch, or with nothing left but to be freed, is on its way to a worker. */
  ghost predicate NoLostWakeup(s: State, q: Qid)
    requires q in s.queues
  {
    s.queues[q].mq.pending != [] || s.queues[q].mq.release ==> q in s.global || exists t :: Owns(s, t, q)
  }

  /** The count of a context is one for its handle slot and one for each frame that points to it. */
  ghost predicate ExactCount(s: State, c: Cid)
    requires c in s.ctxs
  {
    s.ctxs[c].ref == |set t | t in s.frames && s.frames[t].ctx == c| + if InSlot(s, c) then 1 else 0
  }

  /** No pointer anywhere to a context or a queue that has been freed. */
  ghost predicate NoDangling(s: State) {
    && (forall t :: t in s.frames ==> s.frames[t].ctx == NULL || s.frames[t].ctx in s.ctxs)
    && (forall t, q :: Owns(s, t, q) ==> q in s.queues)
    && (forall q :: q in s.global ==> q in s.queues)
    && (forall h :: h in s.slots ==> s.slots[h] in s.ctxs)
    && (forall c :: c in s.ctxs ==> s.ctxs[c].queue in s.queues)
  }

  /** Messages are dispatched in the order they were pushed; none is lost and none is made up. */
  ghost predicate Fifo(s: State) {
    && (forall q :: q in s.queues ==> InOrder(s.queues[q]) && (s.queues[q].ctx in s.ctxs ==> s.queues[q].dropped == []))
    && (forall q :: q in s.freed ==> s.freed[q].pushed == s.freed[q].dispatched + s.freed[q].dropped)
  }

  ghost predicate Safe(s: State) {
    && Exclusive(s)
    && Distinct(s.global)
    && (forall q :: q in s.queues ==> OnePlace(s, q) && NoLostWakeup(s, q))
    && (forall c :: c in s.ctxs ==> ExactCount(s, c))
    && NoDangling(s)
    && Fifo(s)
    && (forall q :: q in s.freed ==> q !in s.queues && s.freed[q].ctx !in s.ctxs)
  }

  lemma InvPlaces(s: State, p: Places, q: Qid)
    requires PlaceInv(s, p) && ServiceInv(s, p) && q in s.queues
    ensures OnePlace(s, q) && NoLostWakeup(s, q)
    ensures forall t :: Owns(s, t, q) ==> p[q] == By(t)
  {
    assert QueueInv(s, p, q);
    forall t | Owns(s, t, q) ensures p[q] == By(t) {
      assert FramePlace(p, t, s.frames[t]);
    }
    if p[q].By? {
      assert Owns(s, p[q].t, q);
    }
  }

  lemma InvExclusive(s: State, p: Places)
    requires PlaceInv(s, p) && FramesInv(s)
    ensures Exclusive(s)
  {
    forall t, u | t in s.frames && u in s.frames && Inside(s.frames[t].pc) && Inside(s.frames[u].pc)
                  && s.frames[t].ctx == s.frames[u].ctx
      ensures t == u
    {
      assert FrameInv(s, t, s.frames[t]) && FrameInv(s, u, s.frames[u]);
      assert FramePlace(p, t, s.frames[t]) && FramePlace(p, u, s.frames[u]);
    }
  }

  lemma InvSafe(s: State, p: Places)
    requires Inv(s, p)
    ensures Safe(s)
  {
    InvExclusive(s, p);
    forall q | q in s.queues
      ensures OnePlace(s, q) && NoLostWakeup(s, q)
      ensures InOrder(s.queues[q]) && (s.queues[q].ctx in s.ctxs ==> s.queues[q].dropped == [])
    {
      InvPlaces(s, p, q);
      assert QueueInv(s, p, q);
    }
    forall t, q | Owns(s, t, q) ensures q in s.queues {
      assert FramePlace(p, t, s.frames[t]);
    }
    forall c | c in s.ctxs ensures ExactCount(s, c) && s.ctxs[c].queue in s.queues {
      assert CtxInv(s, p, c);
      assert Refs(s.frames, c) == set t | t in s.frames && s.frames[t].ctx == c;
    }
  }

  /** Over every run of any number of threads: every state is safe, and no assertion of the source fails. */
  lemma EveryRunIsSafe(tr: seq<State>, steps: seq<Step>)
    requires Run(tr, steps)
    ensures forall i :: 0 <= i < |tr| ==> Safe(tr[i])
    ensures forall i :: 0 <= i < |steps| ==> Follows(tr, steps, i) && Asserts(tr[i], steps[i])
  {
    forall i | 0 <= i < |tr| ensures Safe(tr[i]) {
      var p := RunInv(tr, steps, i);
      InvSafe(tr[i], p);
    }
    forall i | 0 <= i < |steps| ensures Follows(tr, steps, i) && Asserts(tr[i], steps[i]) {
      var p := RunInv(tr, steps, i);
      assert Follows(tr, steps, i);
      var p' := StepKeeps(tr[i], p, steps[i]);
    }
  }

  /** The step a frame takes next. */
  function NextStep(t: Tid, pc: Pc, ok: bool): Step {
    match pc
    case Sending(_) => Push(t)
    case Holding => Drop(t)
    case Idle => Take(t)
    case Took => Lookup(t)
    case Ready(_, _) => Pop(t)
    case Measuring(_) => Measure(t)
    case Calling(_, _, _) => Return(t)
    case Turning => Turn(t)
    case Swapping => PutBack(t)
    case Leaving => Leave(t)
    case Dismissing => Dismiss(t)
    case Dropping => DropPop(t)
    case Freeing => Free(t)
    case Initing => if ok then InitOk(t) else InitFail(t)
    case Publishing => Publish(t)
    case Failing(_) => FailRetire(t)
    case Failed => FailDrop(t)
  }

  /** No frame is ever stuck on a pointer it may not follow: its next step can be taken, whatever init returned. */
  lemma NeverStuck(tr: seq<State>, steps: seq<Step>, i: nat, t: Tid, ok: bool)
    requires Run(tr, steps) && i < |tr| && t in tr[i].frames
    ensures Enabled(tr[i], NextStep(t, tr[i].frames[t].pc, ok))
  {
    var s := tr[i];
    var p := RunInv(tr, steps, i);
    assert FrameInv(s, t, s.frames[t]) && FramePlace(p, t, s.frames[t]);
    if s.frames[t].pc.Sending? {
      assert CtxInv(s, p, s.frames[t].ctx);
    }
  }

  /** A context whose count has reached zero can be deleted, and nothing points to it any more. */
  lemma ZeroMeansUnreachable(tr: seq<State>, steps: seq<Step>, i: nat, c: Cid)
    requires Run(tr, steps) && i < |tr| && c in tr[i].ctxs && tr[i].ctxs[c].ref == 0
    ensures Enabled(tr[i], Delete(c))
    ensures !InSlot(tr[i], c) && forall t :: t in tr[i].frames ==> tr[i].frames[t].ctx != c
  {
    var p := RunInv(tr, steps, i);
    assert CtxInv(tr[i], p, c);
    DeleteRefs(tr[i], p, c);
  }

  // ---------------------------------------------------------------- histories only grow

  ghost predicate Grows(s: State, s': State) {
    && (forall q :: q in s.freed ==> q in s'.freed && s'.freed[q] == s.freed[q])
    && s.dead <= s'.dead
    && (forall q :: q in s.queues ==> q in s'.queues || q in s'.freed)
    && (forall q :: q in s.queues && q in s'.queues ==> Longer(s.queues[q], s'.queues[q]))
    && (forall q :: q in s.queues && q !in s'.queues ==> q in s'.freed && Longer(s.queues[q], s'.freed[q]))
  }

  ghost predicate Longer(x: Service, y: Service) {
    x.ctx == y.ctx && x.pushed <= y.pushed && x.dispatched <= y.dispatched && x.dropped <= y.dropped
  }

  lemma ServiceGrows(s: State, s': State, q: Qid, y: Service)
    requires s'.freed == s.freed && s.dead <= s'.dead && q in s.queues
    requires s'.queues == s.queues[q := y] && Longer(s.queues[q], y)
    ensures Grows(s, s')
  {
  }

  /** A step that touches no queue. */
  lemma OthersGrow(s: State, s': State)
    requires s'.queues == s.queues && s'.freed == s.freed && s'.dead == s.dead
    ensures Grows(s, s')
  {
  }

  lemma StepGrows(s: State, step: Step)
    requires FreedInv(s) && Enabled(s, step)
    ensures Grows(s, Apply(s, step))
  {
    if OnQueues(step) {
      QueueStepGrows(s, step);
    } else if OnReferences(step) {
      ReferenceStepGrows(s, step);
    } else {
      WorkerStepGrows(s, step);
    }
  }

  lemma QueueStepGrows(s: State, step: Step)
    requires FreedInv(s) && Enabled(s, step) && OnQueues(step)
    ensures Grows(s, Apply(s, step))
  {
    match step {
      case Push(t) => PushGrows(s, t);
      case Delete(c) => DeleteGrows(s, c);
      case Create(t, c, q, h) => CreateGrows(s, t, c, q, h);
      case Pop(t) => PopGrows(s, t);
      case DropPop(t) => DropPopGrows(s, t);
      case Free(t) => FreeGrows(s, t);
    }
  }

  lemma ReferenceStepGrows(s: State, step: Step)
    requires Enabled(s, step) && OnReferences(step)
    ensures Grows(s, Apply(s, step))
  {
    match step {
      case Grab(t, h, m) => OthersGrow(s, ApplyGrab(s, t, h, m));
      case Drop(t) => OthersGrow(s, Gone(Count(s, s.frames[t].ctx, -1), t));
      case Retire(t, h) => OthersGrow(s, ApplyRetire(s, t, h));
      case InitOk(t) => OthersGrow(s, ApplyInitOk(s, t));
      case InitFail(t) => OthersGrow(s, ApplyInitFail(s, t));
      case Publish(t) => OthersGrow(s, Gone(Listed(s, s.frames[t].q), t));
      case FailRetire(t) => OthersGrow(s, ApplyFailRetire(s, t));
      case FailDrop(t) => OthersGrow(s, Apply(s, step));
    }
  }

  lemma WorkerStepGrows(s: State, step: Step)
    requires Enabled(s, step) && !OnQueues(step) && !OnReferences(step)
    ensures Grows(s, Apply(s, step))
  {
    hide Grows;
    match step {
      case Take(t) => OthersGrow(s, ApplyTake(s, t));
      case Lookup(t) => OthersGrow(s, ApplyLookup(s, t));
      case Measure(t) => OthersGrow(s, ApplyMeasure(s, t));
      case Return(t) => OthersGrow(s, ApplyReturn(s, t));
      case Turn(t) => OthersGrow(s, ApplyTurn(s, t));
      case PutBack(t) => OthersGrow(s, ApplyPutBack(s, t));
      case Leave(t) => OthersGrow(s, ApplyLeave(s, t));
      case Dismiss(t) => OthersGrow(s, ApplyDismiss(s, t));
    }
  }

  lemma PushGrows(s: State, t: Tid)
    requires CanPush(s, t)
    ensures Grows(s, ApplyPush(s, t))
  {
    var q := s.ctxs[s.frames[t].ctx].queue;
    ServiceGrows(s, ApplyPush(s, t), q, ApplyPush(s, t).queues[q]);
  }

  lemma DeleteGrows(s: State, c: Cid)
    requires CanDelete(s, c)
    ensures Grows(s, ApplyDelete(s, c))
  {
    var q := s.ctxs[c].queue;
    ServiceGrows(s, ApplyDelete(s, c), q, ApplyDelete(s, c).queues[q]);
  }

  lemma PopGrows(s: State, t: Tid)
    requires CanPop(s, t)
    ensures Grows(s, ApplyPop(s, t))
  {
    ServiceGrows(s, ApplyPop(s, t), s.frames[t].q, ApplyPop(s, t).queues[s.frames[t].q]);
  }

  lemma DropPopGrows(s: State, t: Tid)
    requires CanDropPop(s, t)
    ensures Grows(s, ApplyDropPop(s, t))
  {
    ServiceGrows(s, ApplyDropPop(s, t), s.frames[t].q, ApplyDropPop(s, t).queues[s.frames[t].q]);
  }

  lemma CreateGrows(s: State, t: Tid, c: Cid, q: Qid, h: Handle)
    requires CanCreate(s, t, c, q, h)
    ensures Grows(s, ApplyCreate(s, t, c, q, h))
  {
  }

  lemma FreeGrows(s: State, t: Tid)
    requires FreedInv(s) && CanFree(s, t)
    ensures Grows(s, ApplyFree(s, t))
  {
  }

  /** What a queue has dispatched is never taken back, and a queue once freed is never seen again. */
  lemma {:induction false} HistoryGrows(tr: seq<State>, steps: seq<Step>, i: nat, j: nat)
    requires Run(tr, steps) && i <= j < |tr|
    ensures Grows(tr[i], tr[j])
    decreases j - i
  {
    if i < j {
      HistoryGrows(tr, steps, i, j - 1);
      var p := RunInv(tr, steps, j - 1);
      assert Follows(tr, steps, j - 1);
      StepGrows(tr[j - 1], steps[j - 1]);
      var p' := RunInv(tr, steps, j);
      GrowsTransitive(tr[i], tr[j - 1], tr[j]);
    }
  }

  lemma GrowsTransitive(a: State, b: State, c: State)
    requires Grows(a, b) && Grows(b, c) && FreedInv(c)
    ensures Grows(a, c)
  {
  }

  /** Freed exactly once: after that the queue is in no state's live queues, list or frames. */
  lemma FreedOnce(tr: seq<State>, steps: seq<Step>, i: nat, j: nat, q: Qid)
    requires Run(tr, steps) && i <= j < |tr| && q in tr[i].freed
    ensures q in tr[j].freed && tr[j].freed[q] == tr[i].freed[q]
    ensures q !in tr[j].queues && q !in tr[j].global && forall t :: !Owns(tr[j], t, q)
  {
    HistoryGrows(tr, steps, i, j);
    var p := RunInv(tr, steps, j);
    forall t ensures !Owns(tr[j], t, q) {
      assert t in tr[j].frames ==> FramePlace(p, t, tr[j].frames[t]);
    }
  }
}
