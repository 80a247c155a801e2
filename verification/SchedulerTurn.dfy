/**
  What one turn of a worker amounts to, over every run (skynet_context_message_dispatch in
  skynet_server.c): how many messages it dispatches before it gives its queue up, which queue it serves
  next, and so how long a queue in the global list waits. Nothing here says how a step is computed.
*/
module SchedulerTurn {
  import opened Common
  import opened MessageQueues
  import opened Scheduler
  import opened SchedulerInvariant

  // ---------------------------------------------------------------- what the others leave alone

  /** A step of this frame. */
  predicate Of(step: Step, t: Tid) {
    !step.Delete? && step.t == t
  }

  lemma OwnStep(s: State, step: Step, t: Tid)
    requires Enabled(s, step) && Of(step, t) && t in s.frames && t in s.weights
    ensures step == NextStep(t, s.frames[t].pc, true) || step == NextStep(t, s.frames[t].pc, false)
  {
  }

  /** What a step of frame u leaves another frame. */
  ghost predicate Keeps(s: State, s': State, t: Tid) {
    s'.weights == s.weights && t in s.frames && t in s'.frames && s'.frames[t] == s.frames[t]
  }

  lemma FrameStays(s: State, step: Step, t: Tid)
    requires Enabled(s, step) && t in s.frames && !Of(step, t)
    ensures Keeps(s, Apply(s, step), t)
  {
    hide Keeps;
    if OnReferences(step) {
      ReferenceFrameStays(s, step, t);
    } else if Delists(step) {
      DelistingFrameStays(s, step, t);
    } else if OnQueues(step) {
      QueueFrameStays(s, step, t);
    } else {
      WorkerFrameStays(s, step, t);
    }
  }

  predicate Delists(step: Step) {
    step.Take? || step.Turn? || step.Pop? || step.DropPop? || step.Free?
  }

  lemma DelistingFrameStays(s: State, step: Step, t: Tid)
    requires Enabled(s, step) && t in s.frames && !Of(step, t) && Delists(step)
    ensures Keeps(s, Apply(s, step), t)
  {
    hide Popped, ApplyTake, ApplyTurn, ApplyPop, ApplyDropPop, ApplyFree, Keeps;
    match step {
      case Take(u) => TakeLeaves(s, u, t);
      case Turn(u) => TurnLeaves(s, u, t);
      case Pop(u) => PopLeaves(s, u, t);
      case DropPop(u) => DropPopLeaves(s, u, t);
      case Free(u) => FreeLeaves(s, u, t);
    }
  }

  lemma TakeLeaves(s: State, u: Tid, t: Tid)
    requires t in s.frames && t != u
    ensures Keeps(s, ApplyTake(s, u), t)
  {
  }

  lemma TurnLeaves(s: State, u: Tid, t: Tid)
    requires t in s.frames && t != u && CanTurn(s, u)
    ensures Keeps(s, ApplyTurn(s, u), t)
  {
  }

  lemma PopLeaves(s: State, u: Tid, t: Tid)
    requires t in s.frames && t != u && CanPop(s, u)
    ensures Keeps(s, ApplyPop(s, u), t)
  {
    hide Popped;
  }

  lemma DropPopLeaves(s: State, u: Tid, t: Tid)
    requires t in s.frames && t != u && CanDropPop(s, u)
    ensures Keeps(s, ApplyDropPop(s, u), t)
  {
    hide Popped;
  }

  lemma FreeLeaves(s: State, u: Tid, t: Tid)
    requires t in s.frames && t != u && CanFree(s, u)
    ensures Keeps(s, ApplyFree(s, u), t)
  {
  }

  lemma QueueFrameStays(s: State, step: Step, t: Tid)
    requires Enabled(s, step) && t in s.frames && !Of(step, t) && OnQueues(step) && !Delists(step)
    ensures Keeps(s, Apply(s, step), t)
  {
    hide Popped, Pushed, Marked;
  }

  lemma ReferenceFrameStays(s: State, step: Step, t: Tid)
    requires Enabled(s, step) && t in s.frames && !Of(step, t) && OnReferences(step)
    ensures Keeps(s, Apply(s, step), t)
  {
  }

  lemma WorkerFrameStays(s: State, step: Step, t: Tid)
    requires Enabled(s, step) && t in s.frames && !Of(step, t) && !OnQueues(step) && !OnReferences(step) && !Delists(step)
    ensures Keeps(s, Apply(s, step), t)
  {
    hide Shifted;
  }

  lemma DispatchedStays(s: State, p: Places, step: Step, t: Tid)
    requires Inv(s, p) && Enabled(s, step) && t in s.frames && !Of(step, t) && s.frames[t].q != NULL
    ensures var q := s.frames[t].q;
      q in s.queues && q in Apply(s, step).queues && Apply(s, step).queues[q].dispatched == s.queues[q].dispatched
  {
    assert FramePlace(p, t, s.frames[t]);
    if !step.Delete? && step.t in s.frames {
      assert FramePlace(p, step.t, s.frames[step.t]);
    }
    StepQueues(s, step, s.frames[t].q);
  }

  /** Only a pop takes a message out to dispatch it, and only a freed queue is gone. */
  lemma StepQueues(s: State, step: Step, q: Qid)
    requires Enabled(s, step) && q in s.queues
    ensures (step.Free? && s.frames[step.t].q == q) || q in Apply(s, step).queues
    ensures q in Apply(s, step).queues && Apply(s, step).queues[q].dispatched != s.queues[q].dispatched ==>
      step.Pop? && s.frames[step.t].q == q
  {
    if OnQueues(step) {
      if Delists(step) {
        PoppingStepQueues(s, step, q);
      } else {
        QueueStepQueues(s, step, q);
      }
    } else if OnReferences(step) {
      ReferenceStepQueues(s, step);
    } else {
      WorkerStepQueues(s, step);
    }
  }

  lemma QueueStepQueues(s: State, step: Step, q: Qid)
    requires Enabled(s, step) && q in s.queues && OnQueues(step) && !Delists(step)
    ensures q in Apply(s, step).queues && Apply(s, step).queues[q].dispatched == s.queues[q].dispatched
  {
    hide ApplyPush, ApplyDelete;
    match step {
      case Push(t) => PushQueues(s, t, q);
      case Delete(c) => DeleteQueues(s, c, q);
      case Create(t, c, q', h) =>
    }
  }

  lemma PushQueues(s: State, t: Tid, q: Qid)
    requires CanPush(s, t) && q in s.queues
    ensures q in ApplyPush(s, t).queues && ApplyPush(s, t).queues[q].dispatched == s.queues[q].dispatched
  {
  }

  lemma DeleteQueues(s: State, c: Cid, q: Qid)
    requires CanDelete(s, c) && q in s.queues
    ensures q in ApplyDelete(s, c).queues && ApplyDelete(s, c).queues[q].dispatched == s.queues[q].dispatched
  {
  }

  lemma PoppingStepQueues(s: State, step: Step, q: Qid)
    requires Enabled(s, step) && q in s.queues && OnQueues(step) && Delists(step)
    ensures (step.Free? && s.frames[step.t].q == q) || q in Apply(s, step).queues
    ensures q in Apply(s, step).queues && Apply(s, step).queues[q].dispatched != s.queues[q].dispatched ==>
      step.Pop? && s.frames[step.t].q == q
  {
    hide Popped;
  }

  lemma ReferenceStepQueues(s: State, step: Step)
    requires Enabled(s, step) && OnReferences(step)
    ensures Apply(s, step).queues == s.queues
  {
  }

  lemma WorkerStepQueues(s: State, step: Step)
    requires Enabled(s, step) && !OnQueues(step) && !OnReferences(step)
    ensures Apply(s, step).queues == s.queues
  {
    hide ApplyTake, ApplyLookup, ApplyMeasure, ApplyReturn, ApplyTurn, ApplyPutBack, ApplyLeave, ApplyDismiss;
    match step {
      case Take(t) => WorkerQueues(s, t);
      case Lookup(t) => WorkerQueues(s, t);
      case Measure(t) => WorkerQueues(s, t);
      case Return(t) => WorkerQueues(s, t);
      case Turn(t) => LeavingQueues(s, t);
      case PutBack(t) => LeavingQueues(s, t);
      case Leave(t) => LeavingQueues(s, t);
      case Dismiss(t) => LeavingQueues(s, t);
    }
  }

  lemma WorkerQueues(s: State, t: Tid)
    ensures ApplyTake(s, t).queues == s.queues
    ensures CanLookup(s, t) ==> ApplyLookup(s, t).queues == s.queues
    ensures CanMeasure(s, t) ==> ApplyMeasure(s, t).queues == s.queues
    ensures CanReturn(s, t) ==> ApplyReturn(s, t).queues == s.queues
  {
  }

  lemma LeavingQueues(s: State, t: Tid)
    ensures CanTurn(s, t) ==> ApplyTurn(s, t).queues == s.queues
    ensures CanPutBack(s, t) ==> ApplyPutBack(s, t).queues == s.queues
    ensures CanLeave(s, t) ==> ApplyLeave(s, t).queues == s.queues
    ensures CanDismiss(s, t) ==> ApplyDismiss(s, t).queues == s.queues
  {
  }

  // ---------------------------------------------------------------- how long a turn is

  /** How many messages of a queue have been dispatched so far. */
  ghost function Done(s: State, q: Qid): int {
    if q in s.queues then |s.queues[q].dispatched| else 0
  }

  /** The frame takes no other queue's context between these steps. */
  ghost predicate NoLookup(steps: seq<Step>, i: nat, k: nat, t: Tid)
    requires k <= |steps|
  {
    forall x :: i <= x < k ==> steps[x] != Lookup(t)
  }

  /** After the first message of the turn that began at i, the queue was this long, shifted by the weight. */
  ghost predicate MeasuredAt(tr: seq<State>, steps: seq<Step>, i: nat, m: nat, t: Tid, n: int)
    requires i < m < |steps| < |tr| && t in tr[i].frames && t in tr[i].weights
  {
    var q := tr[i].frames[t].q;
    && steps[m] == Measure(t) && q in tr[m].queues && Done(tr[m], q) == Done(tr[i], q) + 1
    && tr[i].weights[t] >= 0 && Pow(2, tr[i].weights[t]) > 0
    && n == |tr[m].queues[q].mq.pending| / Pow(2, tr[i].weights[t])
  }

  ghost predicate Measured(tr: seq<State>, steps: seq<Step>, i: nat, k: nat, t: Tid, n: int)
    requires i < k <= |steps| < |tr| && t in tr[i].frames && t in tr[i].weights
  {
    exists m :: i < m < k && MeasuredAt(tr, steps, i, m, t, n)
  }

  /** How far the turn is that began with the lookup at i: as many messages as its loop counter says. */
  ghost predicate Underway(tr: seq<State>, steps: seq<Step>, i: nat, k: nat, t: Tid)
    requires i < k <= |steps| < |tr| && t in tr[i].frames && t in tr[i].weights && t in tr[k].frames
  {
    var f, q, w := tr[k].frames[t], tr[i].frames[t].q, tr[i].weights[t];
    var d := Done(tr[k], q) - Done(tr[i], q);
    match f.pc
    case Ready(a, n) => f.q == q && d == a && if a == 0 then n == 1 else w >= 0 && 0 < a < n && Measured(tr, steps, i, k, t, n)
    case Measuring(_) => f.q == q && d == 1 && w >= 0
    case Calling(_, a, n) =>
      f.q == q && d == a + 1 && if w < 0 then n == 1 && a == 0 else (a == 0 || 0 < a < n) && Measured(tr, steps, i, k, t, n)
    case Turning => f.q == q && Completed(tr, steps, i, k, t, d)
    case _ => true
  }

  /** One message for a worker without a share; else the share of the queue that its weight gives it, and at least one. */
  ghost predicate Completed(tr: seq<State>, steps: seq<Step>, i: nat, k: nat, t: Tid, d: int)
    requires i < k <= |steps| < |tr| && t in tr[i].frames && t in tr[i].weights
  {
    if tr[i].weights[t] < 0 then d == 1
    else exists n :: Measured(tr, steps, i, k, t, n) && d == if n < 1 then 1 else n
  }

  lemma {:induction false} ShiftedIs(n: nat, w: nat)
    ensures Pow(2, w) > 0 && Shifted(n, w) == n / Pow(2, w)
  {
    if w != 0 {
      ShiftedIs(n / 2, w - 1);
      Halves(n, Pow(2, w - 1));
    }
  }

  lemma Halves(n: int, p: int)
    requires p > 0 && n >= 0
    ensures n / 2 / p == n / (2 * p)
  {
    var q, r := n / 2 / p, n / 2 % p;
    assert n == 2 * (p * q + r) + n % 2;
    assert n == (2 * p) * q + (2 * r + n % 2);
    DivMod(n, 2 * p, q, 2 * r + n % 2);
  }

  lemma MeasuredLater(tr: seq<State>, steps: seq<Step>, i: nat, k: nat, t: Tid, n: int)
    requires i < k < |steps| < |tr| && t in tr[i].frames && t in tr[i].weights && Measured(tr, steps, i, k, t, n)
    ensures Measured(tr, steps, i, k + 1, t, n)
  {
    var m :| i < m < k && MeasuredAt(tr, steps, i, m, t, n);
    assert MeasuredAt(tr, steps, i, m, t, n);
  }

  /** A step of another frame. */
  lemma OthersPass(tr: seq<State>, steps: seq<Step>, i: nat, k: nat, t: Tid)
    requires Run(tr, steps) && i < k < |steps| && t in tr[i].frames && t in tr[i].weights && t in tr[k].frames && t in tr[k + 1].frames
    requires !Of(steps[k], t) && Underway(tr, steps, i, k, t)
    ensures Underway(tr, steps, i, k + 1, t)
  {
    var p := RunInv(tr, steps, k);
    assert Follows(tr, steps, k);
    var s := tr[k];
    FrameStays(s, steps[k], t);
    assert FrameInv(s, t, s.frames[t]);
    if s.frames[t].q != NULL {
      DispatchedStays(s, p, steps[k], t);
    }
    hide MeasuredAt, Apply, Run, Inv, Measured;
    forall n | Measured(tr, steps, i, k, t, n) ensures Measured(tr, steps, i, k + 1, t, n) {
      MeasuredLater(tr, steps, i, k, t, n);
    }
  }

  lemma PopPasses(tr: seq<State>, steps: seq<Step>, i: nat, k: nat, t: Tid)
    requires Run(tr, steps) && i < k < |steps| && t in tr[i].frames && t in tr[i].weights && t in tr[k].frames && t in tr[k + 1].frames
    requires steps[k] == Pop(t) && tr[k].weights == tr[i].weights && Underway(tr, steps, i, k, t)
    ensures Underway(tr, steps, i, k + 1, t)
  {
    assert Follows(tr, steps, k);
    var a, n := tr[k].frames[t].pc.i, tr[k].frames[t].pc.n;
    if a != 0 {
      MeasuredLater(tr, steps, i, k, t, n);
    }
    hide Measured, Run, Popped;
  }

  lemma MeasurePasses(tr: seq<State>, steps: seq<Step>, i: nat, k: nat, t: Tid)
    requires Run(tr, steps) && i < k < |steps| && t in tr[i].frames && t in tr[i].weights && t in tr[k].frames && t in tr[k + 1].frames
    requires steps[k] == Measure(t) && tr[k].weights == tr[i].weights && Underway(tr, steps, i, k, t)
    ensures Underway(tr, steps, i, k + 1, t)
  {
    assert Follows(tr, steps, k);
    var n, w := |tr[k].queues[tr[k].frames[t].q].mq.pending|, tr[i].weights[t];
    ShiftedIs(n, w);
    assert MeasuredAt(tr, steps, i, k, t, n / Pow(2, w));
    hide Run;
  }

  lemma ReturnPasses(tr: seq<State>, steps: seq<Step>, i: nat, k: nat, t: Tid)
    requires Run(tr, steps) && i < k < |steps| && t in tr[i].frames && t in tr[i].weights && t in tr[k].frames && t in tr[k + 1].frames
    requires steps[k] == Return(t) && tr[k].weights == tr[i].weights && Underway(tr, steps, i, k, t)
    ensures Underway(tr, steps, i, k + 1, t)
  {
    assert Follows(tr, steps, k);
    var a, n := tr[k].frames[t].pc.i, tr[k].frames[t].pc.n;
    if tr[i].weights[t] >= 0 {
      MeasuredLater(tr, steps, i, k, t, n);
    }
    hide Measured, Run;
    var d := Done(tr[k + 1], tr[i].frames[t].q) - Done(tr[i], tr[i].frames[t].q);
    assert a + 1 >= n ==> Completed(tr, steps, i, k + 1, t, d);
  }

  /** Everything else a worker does takes it no further into a turn. */
  lemma RestPasses(tr: seq<State>, steps: seq<Step>, i: nat, k: nat, t: Tid)
    requires Run(tr, steps) && i < k < |steps| && t in tr[i].frames && t in tr[i].weights && t in tr[k].frames && t in tr[k + 1].frames
    requires Of(steps[k], t) && !steps[k].Pop? && !steps[k].Measure? && !steps[k].Return? && steps[k] != Lookup(t)
    requires tr[k].weights == tr[i].weights
    ensures Underway(tr, steps, i, k + 1, t)
  {
    assert Follows(tr, steps, k);
    OwnStep(tr[k], steps[k], t);
    RestIsQuiet(tr[k], steps[k], t);
  }

  /** A worker with a message or about to get one. */
  ghost predicate InRound(s: State, t: Tid) {
    t in s.frames && var pc := s.frames[t].pc; pc.Ready? || pc.Measuring? || pc.Calling? || pc.Turning?
  }

  lemma RestIsQuiet(s: State, step: Step, t: Tid)
    requires Enabled(s, step) && t in s.frames && t in s.weights && Of(step, t)
    requires step == NextStep(t, s.frames[t].pc, true) || step == NextStep(t, s.frames[t].pc, false)
    requires !step.Pop? && !step.Measure? && !step.Return? && !step.Lookup?
    ensures !InRound(Apply(s, step), t)
  {
    if Delists(step) {
      DelistingIsQuiet(s, step, t);
    } else if OnReferences(step) || OnQueues(step) {
      ServingIsQuiet(s, step, t);
    } else {
      LeavingIsQuiet(s, step, t);
    }
  }

  lemma DelistingIsQuiet(s: State, step: Step, t: Tid)
    requires Enabled(s, step) && t in s.frames && t in s.weights && Of(step, t) && Delists(step) && !step.Pop?
    ensures !InRound(Apply(s, step), t)
  {
    hide Popped;
  }

  lemma ServingIsQuiet(s: State, step: Step, t: Tid)
    requires Enabled(s, step) && t in s.frames && Of(step, t) && !Delists(step) && (OnReferences(step) || OnQueues(step))
    ensures !InRound(Apply(s, step), t)
  {
    hide Pushed, Marked;
  }

  lemma LeavingIsQuiet(s: State, step: Step, t: Tid)
    requires Enabled(s, step) && t in s.frames && t in s.weights && Of(step, t) && (step.PutBack? || step.Leave? || step.Dismiss?)
    ensures !InRound(Apply(s, step), t)
  {
  }

  lemma StepWeights(s: State, step: Step)
    requires Enabled(s, step)
    ensures Apply(s, step).weights == s.weights
  {
    if Delists(step) {
      DelistingWeights(s, step);
    } else if OnReferences(step) {
      ReferenceWeights(s, step);
    } else if OnQueues(step) {
      QueueWeights(s, step);
    }
  }

  lemma DelistingWeights(s: State, step: Step)
    requires Enabled(s, step) && Delists(step)
    ensures Apply(s, step).weights == s.weights
  {
    hide Popped, ApplyPop, ApplyDropPop, ApplyFree, ApplyTake, ApplyTurn;
    match step {
      case Pop(t) => PopWeights(s, t);
      case DropPop(t) => PopWeights(s, t);
      case Free(t) => ListWeights(s, t);
      case Take(t) => ListWeights(s, t);
      case Turn(t) => ListWeights(s, t);
    }
  }

  lemma PopWeights(s: State, t: Tid)
    ensures CanPop(s, t) ==> ApplyPop(s, t).weights == s.weights
    ensures CanDropPop(s, t) ==> ApplyDropPop(s, t).weights == s.weights
  {
    hide Popped;
  }

  lemma ListWeights(s: State, t: Tid)
    ensures ApplyTake(s, t).weights == s.weights
    ensures CanTurn(s, t) ==> ApplyTurn(s, t).weights == s.weights
    ensures CanFree(s, t) ==> ApplyFree(s, t).weights == s.weights
  {
  }

  lemma ReferenceWeights(s: State, step: Step)
    requires Enabled(s, step) && OnReferences(step)
    ensures Apply(s, step).weights == s.weights
  {
  }

  lemma QueueWeights(s: State, step: Step)
    requires Enabled(s, step) && !Delists(step) && OnQueues(step)
    ensures Apply(s, step).weights == s.weights
  {
    hide Pushed, Marked;
  }

  lemma {:induction false} WeightsStay(tr: seq<State>, steps: seq<Step>, i: nat, k: nat)
    requires Run(tr, steps) && i <= k < |tr|
    ensures tr[k].weights == tr[i].weights
    decreases k - i
  {
    if i < k {
      WeightsStay(tr, steps, i, k - 1);
      assert Follows(tr, steps, k - 1);
      StepWeights(tr[k - 1], steps[k - 1]);
      hide Run, Apply, Enabled;
    }
  }

  lemma LookupBegins(tr: seq<State>, steps: seq<Step>, i: nat, t: Tid)
    requires Run(tr, steps) && i < |steps| && steps[i] == Lookup(t)
    ensures t in tr[i].frames && t in tr[i].weights && t in tr[i + 1].frames && Underway(tr, steps, i, i + 1, t)
  {
    var p := RunInv(tr, steps, i);
    assert Follows(tr, steps, i);
    assert FrameInv(tr[i], t, tr[i].frames[t]);
  }

  lemma {:induction false} TurnInv(tr: seq<State>, steps: seq<Step>, i: nat, k: nat, t: Tid)
    requires Run(tr, steps) && i < k <= |steps| && steps[i] == Lookup(t) && NoLookup(steps, i + 1, k, t)
    ensures t in tr[i].frames && t in tr[i].weights && t in tr[k].frames && Underway(tr, steps, i, k, t)
    decreases k - i
  {
    LookupBegins(tr, steps, i, t);
    if i + 1 < k {
      TurnInv(tr, steps, i, k - 1, t);
      WeightsStay(tr, steps, i, k - 1);
      WeightsStay(tr, steps, i, k);
      var p := RunInv(tr, steps, k);
      assert t in tr[k].frames;
      hide Underway, Run, Follows, Apply, Inv;
      if !Of(steps[k - 1], t) {
        OthersPass(tr, steps, i, k - 1, t);
      } else if steps[k - 1] == Pop(t) {
        PopPasses(tr, steps, i, k - 1, t);
      } else if steps[k - 1] == Measure(t) {
        MeasurePasses(tr, steps, i, k - 1, t);
      } else if steps[k - 1] == Return(t) {
        ReturnPasses(tr, steps, i, k - 1, t);
      } else {
        RestPasses(tr, steps, i, k - 1, t);
      }
    }
  }

  // ---------------------------------------------------------------- the turns

  /**
    The worker gives its queue up after exactly this many messages: one if its weight is negative, and otherwise
    as many as the queue was long after the first of them, shifted by the weight, but at least one.
   */
  lemma TurnLength(tr: seq<State>, steps: seq<Step>, i: nat, j: nat, t: Tid) returns (d: int)
    requires Run(tr, steps) && i < j < |steps| && steps[i] == Lookup(t) && steps[j] == Turn(t) && NoLookup(steps, i + 1, j, t)
    ensures t in tr[i].frames && t in tr[i].weights && t in tr[j].frames && tr[j].frames[t].q == tr[i].frames[t].q
    ensures tr[i].frames[t].q in tr[i].queues && tr[i].frames[t].q in tr[j].queues
    ensures |tr[j].queues[tr[i].frames[t].q].dispatched| == |tr[i].queues[tr[i].frames[t].q].dispatched| + d
    ensures tr[i].weights[t] < 0 ==> d == 1
    ensures tr[i].weights[t] >= 0 ==> exists n :: Measured(tr, steps, i, j, t, n) && d == if n < 1 then 1 else n
  {
    TurnInv(tr, steps, i, j, t);
    assert Follows(tr, steps, i) && Follows(tr, steps, j);
    var p := RunInv(tr, steps, j);
    assert FrameInv(tr[j], t, tr[j].frames[t]);
    d := Done(tr[j], tr[i].frames[t].q) - Done(tr[i], tr[i].frames[t].q);
  }

  /** A turn that ends because the queue is empty is shorter than that. */
  lemma TurnCut(tr: seq<State>, steps: seq<Step>, i: nat, j: nat, t: Tid) returns (d: int)
    requires Run(tr, steps) && i < j < |steps| && steps[i] == Lookup(t) && steps[j] == Pop(t) && NoLookup(steps, i + 1, j, t)
    requires t in tr[j].frames && tr[j].frames[t].q in tr[j].queues && tr[j].queues[tr[j].frames[t].q].mq.pending == []
    ensures t in tr[i].frames && t in tr[i].weights && tr[j].frames[t].q == tr[i].frames[t].q && tr[j].frames[t].q in tr[i].queues
    ensures |tr[j].queues[tr[j].frames[t].q].dispatched| == |tr[i].queues[tr[j].frames[t].q].dispatched| + d
    ensures d == 0 || (tr[i].weights[t] >= 0 && exists n :: Measured(tr, steps, i, j, t, n) && 0 < d < n)
  {
    TurnInv(tr, steps, i, j, t);
    assert Follows(tr, steps, i) && Follows(tr, steps, j);
    d := Done(tr[j], tr[i].frames[t].q) - Done(tr[i], tr[i].frames[t].q);
  }

  // ---------------------------------------------------------------- which queue is next

  ghost predicate NoPutBack(steps: seq<Step>, j: nat, k: nat, t: Tid)
    requires k <= |steps|
  {
    forall x :: j < x < k ==> steps[x] != PutBack(t)
  }

  /** The queue went to the end of the list. */
  ghost predicate PutsBack(tr: seq<State>, steps: seq<Step>, j: nat, k: nat, t: Tid, q: Qid)
    requires k <= |steps| < |tr|
  {
    exists m :: j < m < k && PutsBackAt(tr, steps, m, t, q)
  }

  ghost predicate PutsBackAt(tr: seq<State>, steps: seq<Step>, m: nat, t: Tid, q: Qid)
    requires m < |steps| < |tr|
  {
    steps[m] == PutBack(t) && tr[m + 1].global == tr[m].global + [q]
  }

  /** Where a worker is that gave up the queue q at j, when the list was g. */
  ghost predicate Swaps(tr: seq<State>, steps: seq<Step>, j: nat, k: nat, t: Tid, q: Qid, g: seq<Qid>)
    requires j < k <= |steps| < |tr| && t in tr[k].frames
  {
    var f := tr[k].frames[t];
    var next := if g == [] then q else g[0];
    && q != NULL && next != NULL
    && match f.pc
       case Swapping => g != [] && f.q == q && f.next == next
       case Leaving => f.next == next && if g == [] then NoPutBack(steps, j, k, t) else PutsBack(tr, steps, j, k, t, q)
       case Took => f.q == next && if g == [] then NoPutBack(steps, j, k, t) else PutsBack(tr, steps, j, k, t, q)
       case _ => false
  }

  lemma PutsBackLater(tr: seq<State>, steps: seq<Step>, j: nat, k: nat, t: Tid, q: Qid)
    requires j < k < |steps| < |tr| && PutsBack(tr, steps, j, k, t, q)
    ensures PutsBack(tr, steps, j, k + 1, t, q)
  {
    var m :| j < m < k && PutsBackAt(tr, steps, m, t, q);
    assert PutsBackAt(tr, steps, m, t, q);
  }

  lemma SwapsBegins(tr: seq<State>, steps: seq<Step>, j: nat, t: Tid)
    requires Run(tr, steps) && j < |steps| && steps[j] == Turn(t)
    ensures t in tr[j].frames && t in tr[j + 1].frames
    ensures Swaps(tr, steps, j, j + 1, t, tr[j].frames[t].q, tr[j].global)
  {
    var p := RunInv(tr, steps, j);
    assert Follows(tr, steps, j);
    assert FrameInv(tr[j], t, tr[j].frames[t]);
  }

  lemma SwapsStep(tr: seq<State>, steps: seq<Step>, j: nat, k: nat, t: Tid, q: Qid, g: seq<Qid>)
    requires Run(tr, steps) && j < k < |steps| && t in tr[k].frames && t in tr[k].weights && Swaps(tr, steps, j, k, t, q, g)
    requires steps[k] != Lookup(t)
    ensures t in tr[k + 1].frames && Swaps(tr, steps, j, k + 1, t, q, g)
  {
    assert Follows(tr, steps, k);
    if PutsBack(tr, steps, j, k, t, q) {
      PutsBackLater(tr, steps, j, k, t, q);
    }
    if !Of(steps[k], t) {
      FrameStays(tr[k], steps[k], t);
      hide Run, Apply, Enabled, PutsBack;
      assert steps[k] != PutBack(t);
    } else {
      OwnStep(tr[k], steps[k], t);
      SwapsOwn(tr, steps, j, k, t, q, g);
    }
  }

  lemma SwapsOwn(tr: seq<State>, steps: seq<Step>, j: nat, k: nat, t: Tid, q: Qid, g: seq<Qid>)
    requires j < k < |steps| < |tr| && Follows(tr, steps, k) && t in tr[k].frames && Swaps(tr, steps, j, k, t, q, g)
    requires PutsBack(tr, steps, j, k, t, q) ==> PutsBack(tr, steps, j, k + 1, t, q)
    requires steps[k] == PutBack(t) || steps[k] == Leave(t)
    ensures t in tr[k + 1].frames && Swaps(tr, steps, j, k + 1, t, q, g)
  {
    if steps[k] == PutBack(t) {
      assert PutsBackAt(tr, steps, k, t, q);
    }
  }

  lemma {:induction false} SwapsInv(tr: seq<State>, steps: seq<Step>, j: nat, k: nat, t: Tid)
    requires Run(tr, steps) && j < k <= |steps| && steps[j] == Turn(t) && NoLookup(steps, j, k, t)
    ensures t in tr[j].frames && t in tr[k].frames && Swaps(tr, steps, j, k, t, tr[j].frames[t].q, tr[j].global)
    decreases k - j
  {
    SwapsBegins(tr, steps, j, t);
    if j + 1 < k {
      SwapsInv(tr, steps, j, k - 1, t);
      var p := RunInv(tr, steps, k - 1);
      assert FrameInv(tr[k - 1], t, tr[k - 1].frames[t]);
      SwapsStep(tr, steps, j, k - 1, t, tr[j].frames[t].q, tr[j].global);
    }
  }

  /**
    After a full turn: with another queue in the list, the worker puts its own at the end and serves the one that
    was the first; with none it goes on with its own.
   */
  lemma NextQueue(tr: seq<State>, steps: seq<Step>, j: nat, k: nat, t: Tid)
    requires Run(tr, steps) && j < k < |steps| && steps[j] == Turn(t) && steps[k] == Lookup(t) && NoLookup(steps, j, k, t)
    ensures t in tr[j].frames && t in tr[k].frames
    ensures tr[j].global != [] ==>
      tr[k].frames[t].q == tr[j].global[0] && PutsBack(tr, steps, j, k, t, tr[j].frames[t].q)
    ensures tr[j].global == [] ==> tr[k].frames[t].q == tr[j].frames[t].q && NoPutBack(steps, j, k, t)
  {
    SwapsInv(tr, steps, j, k, t);
    assert Follows(tr, steps, k);
  }

  /** The worker took the first of the list. */
  ghost predicate TakesFirst(tr: seq<State>, steps: seq<Step>, j: nat, k: nat, t: Tid, q: Qid)
    requires k <= |steps| < |tr|
  {
    exists m :: j < m < k && TakesFirstAt(tr, steps, m, t, q)
  }

  ghost predicate TakesFirstAt(tr: seq<State>, steps: seq<Step>, m: nat, t: Tid, q: Qid)
    requires m < |steps| < |tr|
  {
    steps[m] == Take(t) && tr[m].global != [] && tr[m].global[0] == q
  }

  ghost predicate Goes(tr: seq<State>, steps: seq<Step>, j: nat, k: nat, t: Tid)
    requires j < k <= |steps| < |tr| && t in tr[k].frames
  {
    var f := tr[k].frames[t];
    match f.pc
    case Leaving => f.next == NULL
    case Idle => true
    case Took => TakesFirst(tr, steps, j, k, t, f.q)
    case _ => false
  }

  lemma GoesStep(tr: seq<State>, steps: seq<Step>, j: nat, k: nat, t: Tid)
    requires Run(tr, steps) && j < k < |steps| && t in tr[k].frames && t in tr[k].weights && Goes(tr, steps, j, k, t)
    requires steps[k] != Lookup(t)
    ensures t in tr[k + 1].frames && Goes(tr, steps, j, k + 1, t)
  {
    assert Follows(tr, steps, k);
    var q := tr[k].frames[t].q;
    if TakesFirst(tr, steps, j, k, t, q) {
      var m :| j < m < k && TakesFirstAt(tr, steps, m, t, q);
      assert TakesFirst(tr, steps, j, k + 1, t, q);
    }
    if !Of(steps[k], t) {
      FrameStays(tr[k], steps[k], t);
      hide Run, Apply, Enabled, TakesFirst;
    } else {
      OwnStep(tr[k], steps[k], t);
      GoesOwn(tr, steps, j, k, t);
    }
  }

  lemma GoesOwn(tr: seq<State>, steps: seq<Step>, j: nat, k: nat, t: Tid)
    requires j < k < |steps| < |tr| && Follows(tr, steps, k) && t in tr[k].frames && Goes(tr, steps, j, k, t)
    requires steps[k] == Take(t) || steps[k] == Leave(t)
    ensures t in tr[k + 1].frames && Goes(tr, steps, j, k + 1, t)
  {
    if steps[k] == Take(t) && tr[k].global != [] {
      assert TakesFirstAt(tr, steps, k, t, tr[k].global[0]);
    }
  }

  lemma {:induction false} GoesInv(tr: seq<State>, steps: seq<Step>, j: nat, k: nat, t: Tid)
    requires Run(tr, steps) && j < k <= |steps| && steps[j] == Pop(t) && NoLookup(steps, j, k, t)
    requires t in tr[j].frames && tr[j].frames[t].q in tr[j].queues && tr[j].queues[tr[j].frames[t].q].mq.pending == []
    ensures t in tr[k].frames && Goes(tr, steps, j, k, t)
    decreases k - j
  {
    if j + 1 < k {
      GoesInv(tr, steps, j, k - 1, t);
      var p := RunInv(tr, steps, k - 1);
      assert FrameInv(tr[k - 1], t, tr[k - 1].frames[t]);
      GoesStep(tr, steps, j, k - 1, t);
    } else {
      var p := RunInv(tr, steps, j);
      assert Follows(tr, steps, j);
      assert FrameInv(tr[j], t, tr[j].frames[t]);
    }
  }

  /** After a turn that found its queue empty, the worker serves whatever queue is the first when it comes to take one. */
  lemma NextAfterEmpty(tr: seq<State>, steps: seq<Step>, j: nat, k: nat, t: Tid)
    requires Run(tr, steps) && j < k < |steps| && steps[j] == Pop(t) && steps[k] == Lookup(t) && NoLookup(steps, j, k, t)
    requires t in tr[j].frames && tr[j].frames[t].q in tr[j].queues && tr[j].queues[tr[j].frames[t].q].mq.pending == []
    ensures t in tr[k].frames && TakesFirst(tr, steps, j, k, t, tr[k].frames[t].q)
  {
    GoesInv(tr, steps, j, k, t);
    assert Follows(tr, steps, k);
  }

  // ---------------------------------------------------------------- how long a queue waits

  /** A worker comes for a queue, and there is one. */
  predicate Serves(s: State, step: Step) {
    (step.Take? || step.Turn?) && s.global != []
  }

  lemma StepList(s: State, step: Step)
    requires Enabled(s, step)
    ensures Serves(s, step) ==> Apply(s, step).global == s.global[1..]
    ensures !Serves(s, step) ==> s.global <= Apply(s, step).global
  {
    if Delists(step) {
      DelistingList(s, step);
    } else if OnReferences(step) {
      ReferenceList(s, step);
    } else if OnQueues(step) {
      QueueList(s, step);
    }
  }

  lemma DelistingList(s: State, step: Step)
    requires Enabled(s, step) && Delists(step)
    ensures Apply(s, step).global == if Serves(s, step) then s.global[1..] else s.global
  {
    hide Popped, ApplyPop, ApplyDropPop, ApplyFree;
    match step {
      case Pop(t) => PopList(s, t);
      case DropPop(t) => PopList(s, t);
      case Free(t) => PopList(s, t);
      case _ =>
    }
  }

  lemma PopList(s: State, t: Tid)
    ensures CanPop(s, t) ==> ApplyPop(s, t).global == s.global
    ensures CanDropPop(s, t) ==> ApplyDropPop(s, t).global == s.global
    ensures CanFree(s, t) ==> ApplyFree(s, t).global == s.global
  {
    hide Popped;
  }

  lemma ReferenceList(s: State, step: Step)
    requires Enabled(s, step) && OnReferences(step)
    ensures s.global <= Apply(s, step).global
  {
  }

  lemma QueueList(s: State, step: Step)
    requires Enabled(s, step) && OnQueues(step) && !Delists(step)
    ensures s.global <= Apply(s, step).global
  {
    hide Pushed, Marked;
  }

  /** How often a worker came for a queue and got one, from step i on. */
  ghost function Served(tr: seq<State>, steps: seq<Step>, i: nat, j: nat): nat
    requires i <= j <= |steps| < |tr|
    decreases j
  {
    if i == j then 0 else Served(tr, steps, i, j - 1) + Bit(Serves(tr[j - 1], steps[j - 1]))
  }

  /** The list is served in order: a queue moves up by one whenever a worker is served, and at no other time. */
  lemma {:induction false} MovesUp(tr: seq<State>, steps: seq<Step>, i: nat, j: nat, n: nat)
    requires Run(tr, steps) && i <= j <= |steps| && n < |tr[i].global| && Served(tr, steps, i, j) <= n
    ensures n - Served(tr, steps, i, j) < |tr[j].global| && tr[j].global[n - Served(tr, steps, i, j)] == tr[i].global[n]
    decreases j
  {
    if i < j {
      MovesUp(tr, steps, i, j - 1, n);
      assert Follows(tr, steps, j - 1);
      StepList(tr[j - 1], steps[j - 1]);
      hide Run, Enabled, Apply, Serves;
    }
  }

  /** The queue with n others before it is the one that the next worker takes after n have been served. */
  lemma WaitsItsTurn(tr: seq<State>, steps: seq<Step>, i: nat, j: nat, n: nat)
    requires Run(tr, steps) && i <= j < |steps| && n < |tr[i].global|
    requires Served(tr, steps, i, j) == n && Serves(tr[j], steps[j])
    ensures Owns(tr[j + 1], steps[j].t, tr[i].global[n])
  {
    MovesUp(tr, steps, i, j, n);
    var p := RunInv(tr, steps, j);
    assert Follows(tr, steps, j);
  }

  // ---------------------------------------------------------------- what a frame does next

  /** The frame takes no step between these two. */
  ghost predicate Rests(steps: seq<Step>, i: nat, j: nat, t: Tid)
    requires j <= |steps|
  {
    forall x :: i <= x < j ==> !Of(steps[x], t)
  }

  lemma {:induction false} FrameRests(tr: seq<State>, steps: seq<Step>, i: nat, j: nat, t: Tid)
    requires Run(tr, steps) && i <= j <= |steps| && t in tr[i].frames && Rests(steps, i, j, t)
    ensures t in tr[j].frames && tr[j].frames[t] == tr[i].frames[t]
    decreases j - i
  {
    if i < j {
      FrameRests(tr, steps, i, j - 1, t);
      assert Follows(tr, steps, j - 1);
      FrameStays(tr[j - 1], steps[j - 1], t);
      hide Run, Apply, Enabled;
    }
  }

  /** A worker that took a queue goes on to its messages exactly if the queue's handle still has its context. */
  lemma LookupDecides(tr: seq<State>, steps: seq<Step>, i: nat, j: nat, t: Tid)
    requires Run(tr, steps) && i < j < |steps| && steps[i] == Lookup(t) && Of(steps[j], t) && Rests(steps, i + 1, j, t)
    ensures t in tr[i].frames && tr[i].frames[t].q in tr[i].queues
    ensures steps[j] == if tr[i].queues[tr[i].frames[t].q].mq.handle in tr[i].slots then Pop(t) else Dismiss(t)
  {
    assert Follows(tr, steps, i) && Follows(tr, steps, j);
    var p := RunInv(tr, steps, i);
    assert FrameInv(tr[i], t, tr[i].frames[t]);
    WeightsStay(tr, steps, i, j);
    FrameRests(tr, steps, i + 1, j, t);
    OwnStep(tr[j], steps[j], t);
  }

  lemma PoppedIs(mq: Mq<Message>)
    ensures mq.pending == [] ==> Popped(mq).1.None?
    ensures mq.pending != [] ==> Popped(mq).1 == Some(mq.pending[0]) && Popped(mq).0.pending == mq.pending[1..]
  {
  }

  /** A pop with a message there dispatches the first one, and no other. */
  lemma PopDispatches(tr: seq<State>, steps: seq<Step>, i: nat, t: Tid)
    requires Run(tr, steps) && i < |steps| && steps[i] == Pop(t)
    ensures t in tr[i].frames && tr[i].frames[t].q in tr[i].queues && tr[i].frames[t].q in tr[i + 1].queues
    ensures var x, y := tr[i].queues[tr[i].frames[t].q], tr[i + 1].queues[tr[i].frames[t].q];
      if x.mq.pending == [] then y.dispatched == x.dispatched
      else y.dispatched == x.dispatched + [x.mq.pending[0]] && y.mq.pending == x.mq.pending[1..]
  {
    assert Follows(tr, steps, i);
    hide Run, Popped;
    PoppedIs(tr[i].queues[tr[i].frames[t].q].mq);
  }

  /** A queue that is dismissed is drained if its context is dead, and otherwise listed again. */
  lemma DismissDecides(tr: seq<State>, steps: seq<Step>, i: nat, j: nat, t: Tid)
    requires Run(tr, steps) && i < j < |steps| && steps[i] == Dismiss(t) && Of(steps[j], t) && Rests(steps, i + 1, j, t)
    requires t in tr[i].weights
    ensures t in tr[i].frames && tr[i].frames[t].q in tr[i].queues
    ensures var q := tr[i].frames[t].q;
      if tr[i].queues[q].ctx in tr[i].ctxs then tr[i + 1].global == tr[i].global + [q] && steps[j] == Take(t)
      else steps[j] == DropPop(t) && t in tr[j].frames && tr[j].frames[t].q == q
  {
    assert Follows(tr, steps, i) && Follows(tr, steps, j);
    var p := RunInv(tr, steps, i);
    assert QueueInv(tr[i], p, tr[i].frames[t].q);
    WeightsStay(tr, steps, i, j);
    FrameRests(tr, steps, i + 1, j, t);
    OwnStep(tr[j], steps[j], t);
  }

  /** Draining goes on until the queue is empty, and then the queue is freed. */
  lemma DrainEnds(tr: seq<State>, steps: seq<Step>, i: nat, j: nat, t: Tid)
    requires Run(tr, steps) && i < j < |steps| && steps[i] == DropPop(t) && Of(steps[j], t) && Rests(steps, i + 1, j, t)
    requires t in tr[i].weights
    ensures t in tr[i].frames && tr[i].frames[t].q in tr[i].queues && tr[i].frames[t].q in tr[i + 1].queues
    ensures var x, y := tr[i].queues[tr[i].frames[t].q], tr[i + 1].queues[tr[i].frames[t].q];
      if x.mq.pending == [] then steps[j] == Free(t) && tr[i].frames[t].q in tr[j + 1].freed
      else steps[j] == DropPop(t) && y.dropped == x.dropped + [x.mq.pending[0]] && y.mq.pending == x.mq.pending[1..]
  {
    assert Follows(tr, steps, i) && Follows(tr, steps, j);
    WeightsStay(tr, steps, i, j);
    FrameRests(tr, steps, i + 1, j, t);
    OwnStep(tr[j], steps[j], t);
  }

  // ---------------------------------------------------------------- where a message goes

  /** A context that is still there is the context of the same handle and the same queue. */
  ghost predicate SameCtx(s: State, s': State, c: Cid) {
    c in s.ctxs && c in s'.ctxs && s'.ctxs[c].handle == s.ctxs[c].handle && s'.ctxs[c].queue == s.ctxs[c].queue
  }

  lemma StepCtx(s: State, step: Step, c: Cid)
    requires Enabled(s, step) && c in s.ctxs && c in Apply(s, step).ctxs
    ensures SameCtx(s, Apply(s, step), c)
  {
    if Delists(step) {
      DelistingCtx(s, step);
    } else if OnReferences(step) {
      ReferenceCtx(s, step, c);
    } else if OnQueues(step) {
      QueueCtx(s, step, c);
    } else {
      WorkerCtx(s, step, c);
    }
  }

  lemma DelistingCtx(s: State, step: Step)
    requires Enabled(s, step) && Delists(step)
    ensures Apply(s, step).ctxs == s.ctxs
  {
    hide Popped, ApplyPop, ApplyDropPop, ApplyFree, ApplyTake, ApplyTurn;
    match step {
      case Pop(t) => PopCtx(s, t);
      case DropPop(t) => PopCtx(s, t);
      case Free(t) => PopCtx(s, t);
      case Take(t) => TakeCtx(s, t);
      case Turn(t) => TakeCtx(s, t);
    }
  }

  lemma TakeCtx(s: State, t: Tid)
    ensures ApplyTake(s, t).ctxs == s.ctxs
    ensures CanTurn(s, t) ==> ApplyTurn(s, t).ctxs == s.ctxs
  {
  }

  lemma PopCtx(s: State, t: Tid)
    ensures CanPop(s, t) ==> ApplyPop(s, t).ctxs == s.ctxs
    ensures CanDropPop(s, t) ==> ApplyDropPop(s, t).ctxs == s.ctxs
    ensures CanFree(s, t) ==> ApplyFree(s, t).ctxs == s.ctxs
  {
    hide Popped;
  }

  lemma ReferenceCtx(s: State, step: Step, c: Cid)
    requires Enabled(s, step) && OnReferences(step) && c in s.ctxs && c in Apply(s, step).ctxs
    ensures SameCtx(s, Apply(s, step), c)
  {
  }

  lemma QueueCtx(s: State, step: Step, c: Cid)
    requires Enabled(s, step) && OnQueues(step) && !Delists(step) && c in s.ctxs && c in Apply(s, step).ctxs
    ensures SameCtx(s, Apply(s, step), c)
  {
    hide Pushed, Marked;
  }

  lemma WorkerCtx(s: State, step: Step, c: Cid)
    requires Enabled(s, step) && !OnReferences(step) && !OnQueues(step) && !Delists(step) && c in s.ctxs
    ensures SameCtx(s, Apply(s, step), c)
  {
    hide Shifted;
  }

  /** While a frame holds a context, it stays the context of its handle and of its queue. */
  lemma {:induction false} HeldCtx(tr: seq<State>, steps: seq<Step>, i: nat, j: nat, t: Tid)
    requires Run(tr, steps) && i <= j <= |steps| && t in tr[i].frames && tr[i].frames[t].ctx != NULL && Rests(steps, i, j, t)
    ensures SameCtx(tr[i], tr[j], tr[i].frames[t].ctx)
    decreases j - i
  {
    assert i < j ==> Follows(tr, steps, j - 1);
    hide Run, Apply, Enabled, Inv;
    FrameRests(tr, steps, i, j, t);
    var p := RunInv(tr, steps, j);
    HeldIsThere(tr[j], p, t);
    if i < j {
      HeldCtx(tr, steps, i, j - 1, t);
      StepCtx(tr[j - 1], steps[j - 1], tr[i].frames[t].ctx);
    }
  }

  lemma HeldIsThere(s: State, p: Places, t: Tid)
    requires Inv(s, p) && t in s.frames && s.frames[t].ctx != NULL
    ensures s.frames[t].ctx in s.ctxs && s.ctxs[s.frames[t].ctx].queue in s.queues
    ensures s.queues[s.ctxs[s.frames[t].ctx].queue].ctx == s.frames[t].ctx
    ensures s.queues[s.ctxs[s.frames[t].ctx].queue].mq.handle == s.ctxs[s.frames[t].ctx].handle
  {
    assert CtxInv(s, p, s.frames[t].ctx);
  }

  lemma GrabHolds(s: State, p: Places, t: Tid, h: Handle, m: Message)
    requires Inv(s, p) && CanStart(s, t) && h in s.slots
    ensures var s' := ApplyGrab(s, t, h, Some(m));
      t in s'.frames && s'.frames[t] == Frame(Sending(m), NULL, s.slots[h], NULL)
      && s.slots[h] in s'.ctxs && s'.ctxs[s.slots[h]].handle == h && s.slots[h] != NULL
  {
  }

  lemma SendingPushes(s: State, step: Step, t: Tid)
    requires Enabled(s, step) && Of(step, t) && t in s.frames && s.frames[t].pc.Sending?
    ensures step == Push(t) && CanPush(s, t)
  {
  }

  lemma PushAppends(s: State, t: Tid)
    requires CanPush(s, t)
    ensures var q, s' := s.ctxs[s.frames[t].ctx].queue, ApplyPush(s, t);
      q in s'.queues && s'.queues[q].mq.pending == s.queues[q].mq.pending + [s.frames[t].pc.m]
      && s'.queues[q].pushed == s.queues[q].pushed + [s.frames[t].pc.m]
  {
  }

  /** A message sent to a handle that has a context is pushed to the queue of that handle, behind what is there. */
  lemma SentIsPushed(tr: seq<State>, steps: seq<Step>, i: nat, j: nat, t: Tid, h: Handle, m: Message) returns (q: Qid)
    requires Run(tr, steps) && i < j < |steps| && steps[i] == Grab(t, h, Some(m)) && h in tr[i].slots
    requires Of(steps[j], t) && Rests(steps, i + 1, j, t)
    ensures steps[j] == Push(t) && q in tr[j].queues && q in tr[j + 1].queues
    ensures tr[j].queues[q].mq.handle == h && tr[j].queues[q].ctx == tr[i].slots[h]
    ensures tr[j + 1].queues[q].mq.pending == tr[j].queues[q].mq.pending + [m]
    ensures tr[j + 1].queues[q].pushed == tr[j].queues[q].pushed + [m]
  {
    assert Follows(tr, steps, i) && Follows(tr, steps, j);
    hide Inv, Run, ApplyGrab, ApplyPush;
    var p := RunInv(tr, steps, i);
    var p' := RunInv(tr, steps, j);
    GrabHolds(tr[i], p, t, h, m);
    FrameRests(tr, steps, i + 1, j, t);
    HeldCtx(tr, steps, i + 1, j, t);
    HeldIsThere(tr[j], p', t);
    SendingPushes(tr[j], steps[j], t);
    PushAppends(tr[j], t);
    q := tr[j].ctxs[tr[i].slots[h]].queue;
  }

  /** Once retired, a handle finds no context; no other handle is touched, and the retiring frame has the slot's reference. */
  lemma RetireRemoves(tr: seq<State>, steps: seq<Step>, i: nat, t: Tid, h: Handle)
    requires Run(tr, steps) && i < |steps| && steps[i] == Retire(t, h)
    ensures tr[i + 1].slots == tr[i].slots - {h}
    ensures h in tr[i].slots ==> t in tr[i + 1].frames && tr[i + 1].frames[t].ctx == tr[i].slots[h]
  {
    assert Follows(tr, steps, i);
    assert h !in tr[i].slots ==> tr[i].slots - {h} == tr[i].slots;
  }
}
