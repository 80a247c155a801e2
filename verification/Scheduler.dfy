/**
  The service scheduler as a state machine: message queues, the global list, reference-counted
  contexts, the handle table and any number of threads (skynet_mq.c, skynet_server.c,
  skynet_handle.c). One step is one lock-protected section or one atomic operation.

  A frame is one activation of a runtime function. What a service callback does (send, launch,
  retire) happens in frames of its own, so every nesting and every interleaving is a run here.
*/
module Scheduler {
  import opened Common
  import opened MessageQueues

  type Tid = int     // a frame; a worker thread keeps its own for ever
  type Cid = int     // the address of a context
  type Qid = int     // the address of a queue
  type Handle = int

  const NULL := 0

  datatype Message = Message(source: Handle, session: int, sz: nat)

  datatype Ctx = Ctx(handle: Handle, queue: Qid, ref: int, init: bool)

  /** A queue with the history of what went through it. */
  datatype Service = Service(mq: Mq<Message>, ctx: Cid,
                             pushed: seq<Message>, dispatched: seq<Message>, dropped: seq<Message>)

  /** Where in its code a frame is. */
  datatype Pc =
    // a reference to a context, with or without a message to push, about to be given back
    | Sending(m: Message)
    | Holding
    // skynet_context_message_dispatch
    | Idle
    | Took
    | Ready(i: int, n: int)
    | Measuring(m: Message)
    | Calling(m: Message, i: int, n: int)
    | Turning
    | Swapping
    | Leaving
    // skynet_mq_release, also reached from a failed launch
    | Dismissing
    | Dropping
    | Freeing
    // skynet_context_new
    | Initing
    | Publishing
    | Failing(h: Handle)
    | Failed

  /** A frame and the pointers in its local variables; NULL where there is none. */
  datatype Frame = Frame(pc: Pc, q: Qid, ctx: Cid, next: Qid)

  datatype State = State(
    weights: map<Tid, int>,
    frames: map<Tid, Frame>,
    ctxs: map<Cid, Ctx>,
    slots: map<Handle, Cid>,
    queues: map<Qid, Service>,
    global: seq<Qid>,
    freed: map<Qid, Service>,
    dead: set<Cid>)

  datatype Step =
    | Grab(t: Tid, h: Handle, m: Option<Message>)
    | Push(t: Tid)
    | Drop(t: Tid)
    | Retire(t: Tid, h: Handle)
    | Delete(c: Cid)
    | Create(t: Tid, c: Cid, q: Qid, h: Handle)
    | InitOk(t: Tid)
    | InitFail(t: Tid)
    | Publish(t: Tid)
    | FailRetire(t: Tid)
    | FailDrop(t: Tid)
    | Take(t: Tid)
    | Lookup(t: Tid)
    | Pop(t: Tid)
    | Measure(t: Tid)
    | Return(t: Tid)
    | Turn(t: Tid)
    | PutBack(t: Tid)
    | Leave(t: Tid)
    | Dismiss(t: Tid)
    | DropPop(t: Tid)
    | Free(t: Tid)

  // ---------------------------------------------------------------- the steps

  function Put(s: State, t: Tid, f: Frame): State {
    s.(frames := s.frames[t := f])
  }

  /** The end of a frame: a worker goes back to its loop, anything else is gone. */
  function End(s: State, t: Tid): State {
    if t in s.weights then Put(s, t, Frame(Idle, NULL, NULL, NULL)) else Gone(s, t)
  }

  function Gone(s: State, t: Tid): State {
    s.(frames := s.frames - {t})
  }

  function Count(s: State, c: Cid, d: int): State {
    if c in s.ctxs then s.(ctxs := s.ctxs[c := s.ctxs[c].(ref := s.ctxs[c].ref + d)]) else s
  }

  function Listed(s: State, q: Qid): State {
    s.(global := s.global + [q])
  }

  function SetService(s: State, q: Qid, x: Service): State {
    s.(queues := s.queues[q := x])
  }

  // When a step may be taken: the frame is at that point of its code, new names are new.

  predicate At(s: State, t: Tid) {
    t in s.frames
  }

  predicate HasCtx(s: State, t: Tid)
    requires At(s, t)
  {
    s.frames[t].ctx in s.ctxs
  }

  predicate HasQueue(s: State, t: Tid)
    requires At(s, t)
  {
    s.frames[t].q in s.queues
  }

  /** A new frame; a worker has its frame from the start. */
  predicate CanStart(s: State, t: Tid) {
    t !in s.frames && t !in s.weights
  }

  predicate CanDelete(s: State, c: Cid) {
    c in s.ctxs && s.ctxs[c].ref == 0 && s.ctxs[c].queue in s.queues
  }

  ghost predicate CanCreate(s: State, t: Tid, c: Cid, q: Qid, h: Handle) {
    && CanStart(s, t)
    && c != NULL && c !in s.ctxs && c !in s.dead
    && q != NULL && q !in s.queues && q !in s.freed
    // a handle is not reissued while its old queue still exists
    && h != 0 && h !in s.slots && forall x :: x in s.queues ==> s.queues[x].mq.handle != h
  }

  predicate CanPush(s: State, t: Tid) {
    At(s, t) && s.frames[t].pc.Sending? && HasCtx(s, t) && s.ctxs[s.frames[t].ctx].queue in s.queues
  }

  predicate CanDrop(s: State, t: Tid) {
    At(s, t) && s.frames[t].pc.Holding? && HasCtx(s, t)
  }

  predicate CanInitOk(s: State, t: Tid) {
    At(s, t) && s.frames[t].pc.Initing? && HasCtx(s, t)
  }

  predicate CanInitFail(s: State, t: Tid) {
    At(s, t) && s.frames[t].pc.Initing? && HasCtx(s, t)
  }

  predicate CanPublish(s: State, t: Tid) {
    At(s, t) && s.frames[t].pc.Publishing?
  }

  predicate CanFailRetire(s: State, t: Tid) {
    At(s, t) && s.frames[t].pc.Failing?
  }

  predicate CanFailDrop(s: State, t: Tid) {
    At(s, t) && s.frames[t].pc.Failed? && HasCtx(s, t)
  }

  predicate CanTake(s: State, t: Tid) {
    At(s, t) && s.frames[t].pc.Idle?
  }

  predicate CanLookup(s: State, t: Tid) {
    At(s, t) && s.frames[t].pc.Took? && HasQueue(s, t)
  }

  predicate CanPop(s: State, t: Tid) {
    At(s, t) && s.frames[t].pc.Ready? && HasQueue(s, t) && t in s.weights
  }

  predicate CanMeasure(s: State, t: Tid) {
    At(s, t) && s.frames[t].pc.Measuring? && HasQueue(s, t) && t in s.weights
  }

  predicate CanReturn(s: State, t: Tid) {
    At(s, t) && s.frames[t].pc.Calling?
  }

  predicate CanTurn(s: State, t: Tid) {
    At(s, t) && s.frames[t].pc.Turning?
  }

  predicate CanPutBack(s: State, t: Tid) {
    At(s, t) && s.frames[t].pc.Swapping?
  }

  predicate CanLeave(s: State, t: Tid) {
    At(s, t) && s.frames[t].pc.Leaving? && HasCtx(s, t)
  }

  predicate CanDismiss(s: State, t: Tid) {
    At(s, t) && s.frames[t].pc.Dismissing? && HasQueue(s, t)
  }

  predicate CanDropPop(s: State, t: Tid) {
    At(s, t) && s.frames[t].pc.Dropping? && HasQueue(s, t)
  }

  predicate CanFree(s: State, t: Tid) {
    At(s, t) && s.frames[t].pc.Freeing? && HasQueue(s, t)
  }

  /** skynet_handle_grab, with the push that follows still to come when there is a message. */
  function ApplyGrab(s: State, t: Tid, h: Handle, m: Option<Message>): State {
    if h !in s.slots then s
    else
      var c := s.slots[h];
      Put(Count(s, c, 1), t, Frame(if m.Some? then Sending(m.value) else Holding, NULL, c, NULL))
  }

  /** skynet_mq_push. */
  function ApplyPush(s: State, t: Tid): State
    requires CanPush(s, t)
  {
    var f := s.frames[t];
    var q := s.ctxs[f.ctx].queue;
    var x := s.queues[q];
    var (mq, wake) := Pushed(x.mq, f.pc.m);
    var s1 := SetService(s, q, x.(mq := mq, pushed := x.pushed + [f.pc.m]));
    Put(if wake then Listed(s1, q) else s1, t, f.(pc := Holding))
  }

  /** skynet_handle_retire up to its unlock; the slot's reference moves to the frame. */
  function ApplyRetire(s: State, t: Tid, h: Handle): State {
    if h !in s.slots then s
    else Put(s.(slots := s.slots - {h}), t, Frame(Holding, NULL, s.slots[h], NULL))
  }

  /** delete_context: mark the queue, then free the context. */
  function ApplyDelete(s: State, c: Cid): State
    requires CanDelete(s, c)
  {
    var q := s.ctxs[c].queue;
    var x := s.queues[q];
    var (mq, wake) := Marked(x.mq);
    var s1 := SetService(s, q, x.(mq := mq));
    (if wake then Listed(s1, q) else s1).(ctxs := s.ctxs - {c}, dead := s.dead + {c})
  }

  /** skynet_context_new up to the service's init function: registered, with a queue, two references. */
  function ApplyCreate(s: State, t: Tid, c: Cid, q: Qid, h: Handle): State {
    Put(s.(ctxs := s.ctxs[c := Ctx(h, q, 2, false)],
           slots := s.slots[h := c],
           queues := s.queues[q := Service(Created(h), c, [], [], [])]), t, Frame(Initing, q, c, NULL))
  }

  /** The init function succeeded: give the creator's reference back, and mark what is left as ready. */
  function ApplyInitOk(s: State, t: Tid): State
    requires CanInitOk(s, t)
  {
    var f := s.frames[t];
    var x := s.ctxs[f.ctx];
    Put(s.(ctxs := s.ctxs[f.ctx := x.(ref := x.ref - 1, init := x.ref - 1 != 0)]), t, f.(pc := Publishing, ctx := NULL))
  }

  function ApplyInitFail(s: State, t: Tid): State
    requires CanInitFail(s, t)
  {
    var f := s.frames[t];
    Put(Count(s, f.ctx, -1), t, f.(pc := Failing(s.ctxs[f.ctx].handle), ctx := NULL))
  }

  function ApplyFailRetire(s: State, t: Tid): State
    requires CanFailRetire(s, t)
  {
    var f := s.frames[t];
    if f.pc.h in s.slots then Put(s.(slots := s.slots - {f.pc.h}), t, f.(pc := Failed, ctx := s.slots[f.pc.h]))
    else Put(s, t, f.(pc := Dismissing))
  }

  /** skynet_globalmq_pop by an idle worker. */
  function ApplyTake(s: State, t: Tid): State {
    if s.global == [] then s else Put(s.(global := s.global[1..]), t, Frame(Took, s.global[0], NULL, NULL))
  }

  /** skynet_handle_grab by a worker on the handle of the queue it took. */
  function ApplyLookup(s: State, t: Tid): State
    requires CanLookup(s, t)
  {
    var f := s.frames[t];
    var h := s.queues[f.q].mq.handle;
    if h in s.slots then Put(Count(s, s.slots[h], 1), t, f.(pc := Ready(0, 1), ctx := s.slots[h]))
    else Put(s, t, f.(pc := Dismissing))
  }

  /** skynet_mq_pop by a worker; the first message of a round also decides how long the round is. */
  function ApplyPop(s: State, t: Tid): State
    requires CanPop(s, t)
  {
    var f := s.frames[t];
    var x := s.queues[f.q];
    var (mq, got) := Popped(x.mq);
    match got
    case None => Put(SetService(s, f.q, x.(mq := mq)), t, f.(pc := Leaving, q := NULL))
    case Some(m) =>
      Put(SetService(s, f.q, x.(mq := mq, dispatched := x.dispatched + [m])), t,
          f.(pc := if f.pc.i == 0 && s.weights[t] >= 0 then Measuring(m) else Calling(m, f.pc.i, f.pc.n)))
  }

  /** n >> weight */
  function Shifted(n: nat, weight: nat): nat {
    if weight == 0 then n else Shifted(n / 2, weight - 1)
  }

  function ApplyMeasure(s: State, t: Tid): State
    requires CanMeasure(s, t)
  {
    var f := s.frames[t];
    var w := s.weights[t];
    Put(s, t, f.(pc := Calling(f.pc.m, 0, Shifted(|s.queues[f.q].mq.pending|, if w < 0 then 0 else w))))
  }

  function ApplyReturn(s: State, t: Tid): State
    requires CanReturn(s, t)
  {
    var f := s.frames[t];
    Put(s, t, f.(pc := if f.pc.i + 1 < f.pc.n then Ready(f.pc.i + 1, f.pc.n) else Turning))
  }

  function ApplyTurn(s: State, t: Tid): State
    requires CanTurn(s, t)
  {
    var f := s.frames[t];
    if s.global == [] then Put(s, t, f.(pc := Leaving, q := NULL, next := f.q))
    else Put(s.(global := s.global[1..]), t, f.(pc := Swapping, next := s.global[0]))
  }

  function ApplyPutBack(s: State, t: Tid): State
    requires CanPutBack(s, t)
  {
    var f := s.frames[t];
    Put(Listed(s, f.q), t, f.(pc := Leaving, q := NULL))
  }

  function ApplyLeave(s: State, t: Tid): State
    requires CanLeave(s, t)
  {
    var f := s.frames[t];
    Put(Count(s, f.ctx, -1), t, Frame(if f.next != NULL then Took else Idle, f.next, NULL, NULL))
  }

  function ApplyDismiss(s: State, t: Tid): State
    requires CanDismiss(s, t)
  {
    var f := s.frames[t];
    if s.queues[f.q].mq.release then Put(s, t, f.(pc := Dropping)) else End(Listed(s, f.q), t)
  }

  function ApplyDropPop(s: State, t: Tid): State
    requires CanDropPop(s, t)
  {
    var f := s.frames[t];
    var x := s.queues[f.q];
    var (mq, got) := Popped(x.mq);
    match got
    case None => Put(SetService(s, f.q, x.(mq := mq)), t, f.(pc := Freeing))
    case Some(m) => SetService(s, f.q, x.(mq := mq, dropped := x.dropped + [m]))
  }

  function ApplyFree(s: State, t: Tid): State
    requires CanFree(s, t)
  {
    var q := s.frames[t].q;
    End(s.(queues := s.queues - {q}, freed := s.freed[q := s.queues[q]]), t)
  }

  ghost predicate Enabled(s: State, step: Step) {
    match step
    case Grab(t, h, m) => CanStart(s, t)
    case Retire(t, h) => CanStart(s, t)
    case Delete(c) => CanDelete(s, c)
    case Create(t, c, q, h) => CanCreate(s, t, c, q, h)
    case Push(t) => CanPush(s, t)
    case Drop(t) => CanDrop(s, t)
    case InitOk(t) => CanInitOk(s, t)
    case InitFail(t) => CanInitFail(s, t)
    case Publish(t) => CanPublish(s, t)
    case FailRetire(t) => CanFailRetire(s, t)
    case FailDrop(t) => CanFailDrop(s, t)
    case Take(t) => CanTake(s, t)
    case Lookup(t) => CanLookup(s, t)
    case Pop(t) => CanPop(s, t)
    case Measure(t) => CanMeasure(s, t)
    case Return(t) => CanReturn(s, t)
    case Turn(t) => CanTurn(s, t)
    case PutBack(t) => CanPutBack(s, t)
    case Leave(t) => CanLeave(s, t)
    case Dismiss(t) => CanDismiss(s, t)
    case DropPop(t) => CanDropPop(s, t)
    case Free(t) => CanFree(s, t)
  }

  function Apply(s: State, step: Step): State
    requires Enabled(s, step)
  {
    match step
    case Grab(t, h, m) => ApplyGrab(s, t, h, m)
    case Push(t) => ApplyPush(s, t)
    case Drop(t) => Gone(Count(s, s.frames[t].ctx, -1), t)
    case Retire(t, h) => ApplyRetire(s, t, h)
    case Delete(c) => ApplyDelete(s, c)
    case Create(t, c, q, h) => ApplyCreate(s, t, c, q, h)
    case InitOk(t) => ApplyInitOk(s, t)
    case InitFail(t) => ApplyInitFail(s, t)
    case Publish(t) => Gone(Listed(s, s.frames[t].q), t)
    case FailRetire(t) => ApplyFailRetire(s, t)
    case FailDrop(t) => Put(Count(s, s.frames[t].ctx, -1), t, s.frames[t].(pc := Dismissing, ctx := NULL))
    case Take(t) => ApplyTake(s, t)
    case Lookup(t) => ApplyLookup(s, t)
    case Pop(t) => ApplyPop(s, t)
    case Measure(t) => ApplyMeasure(s, t)
    case Return(t) => ApplyReturn(s, t)
    case Turn(t) => ApplyTurn(s, t)
    case PutBack(t) => ApplyPutBack(s, t)
    case Leave(t) => ApplyLeave(s, t)
    case Dismiss(t) => ApplyDismiss(s, t)
    case DropPop(t) => ApplyDropPop(s, t)
    case Free(t) => ApplyFree(s, t)
  }

  // What the source asserts, or relies on without asserting.

  /** assert(queue->next == NULL) in skynet_globalmq_push, for a queue the list does not end with either. */
  predicate AssertPush(s: State, t: Tid)
    requires CanPush(s, t)
  {
    var q := s.ctxs[s.frames[t].ctx].queue;
    !s.queues[q].mq.inGlobal ==> q !in s.global
  }

  /** assert(q->release == 0) in skynet_mq_mark_release, and the push that follows. */
  predicate AssertDelete(s: State, c: Cid)
    requires CanDelete(s, c)
  {
    var q := s.ctxs[c].queue;
    !s.queues[q].mq.release && (!s.queues[q].mq.inGlobal ==> q !in s.global)
  }

  /** assert(ctx->init) in dispatch_message. */
  predicate AssertInit(s: State, t: Tid)
    requires At(s, t)
  {
    HasCtx(s, t) && s.ctxs[s.frames[t].ctx].init
  }

  /** assert(q == ctx->queue) at the end of a round. */
  predicate AssertSame(s: State, t: Tid)
    requires At(s, t)
  {
    HasCtx(s, t) && s.ctxs[s.frames[t].ctx].queue == s.frames[t].q
  }

  ghost predicate Asserts(s: State, step: Step)
    requires Enabled(s, step)
  {
    match step
    case Push(t) => AssertPush(s, t)
    case Delete(c) => AssertDelete(s, c)
    case Publish(t) => s.frames[t].q !in s.global
    case PutBack(t) => s.frames[t].q !in s.global
    case Dismiss(t) => s.frames[t].q !in s.global
    // assert(q->next == NULL) in _release
    case Free(t) => s.frames[t].q !in s.global
    case Pop(t) => AssertInit(s, t)
    case Return(t) => AssertInit(s, t)
    case Turn(t) => AssertSame(s, t)
    case _ => true
  }

  /** No service yet; the worker threads are at the top of their loop. */
  ghost predicate Start(s: State) {
    && s.frames.Keys == s.weights.Keys
    && (forall t :: t in s.frames ==> s.frames[t] == Frame(Idle, NULL, NULL, NULL))
    && s.ctxs == map[] && s.slots == map[] && s.queues == map[] && s.global == []
    && s.freed == map[] && s.dead == {}
  }

  ghost predicate Run(tr: seq<State>, steps: seq<Step>) {
    && |tr| == |steps| + 1
    && Start(tr[0])
    && forall i :: 0 <= i < |steps| ==> Follows(tr, steps, i)
  }

  ghost predicate Follows(tr: seq<State>, steps: seq<Step>, i: nat)
    requires i < |steps| < |tr|
  {
    Enabled(tr[i], steps[i]) && tr[i + 1] == Apply(tr[i], steps[i])
  }
}
