/**
  The spin readers-writer lock (rwlock.h), one step per read of a field or atomic operation, for
  any number of threads.
 */
module RwLock {
  import opened Common

  datatype Pc =
    | ReadWait   // in rlock, spinning on `write`
    | ReadCount  // has counted itself in `read`, about to look at `write` again
    | ReadBack   // saw a writer, about to uncount itself
    | ReadIn     // holds the lock for reading
    | WriteTry   // in wlock, spinning on test-and-set
    | WriteWait  // has set `write`, spinning on `read`
    | WriteIn    // holds the lock for writing

  datatype Lock = Lock(write: int, read: int, pcs: map<int, Pc>)

  datatype Step =
    | ReadLock(t: int) | WriteLock(t: int)  // a call begins
    | Go(t: int)                            // the next read or atomic operation of a call
    | ReadUnlock(t: int) | WriteUnlock(t: int)

  predicate Waiting(pc: Pc) {
    pc != ReadIn && pc != WriteIn
  }

  predicate Enabled(l: Lock, s: Step) {
    match s
    case ReadLock(t) => t !in l.pcs
    case WriteLock(t) => t !in l.pcs
    case Go(t) => t in l.pcs && Waiting(l.pcs[t])
    case ReadUnlock(t) => t in l.pcs && l.pcs[t] == ReadIn
    case WriteUnlock(t) => t in l.pcs && l.pcs[t] == WriteIn
  }

  function At(l: Lock, t: int, pc: Pc): Lock {
    l.(pcs := l.pcs[t := pc])
  }

  function Next(l: Lock, t: int): Lock
    requires t in l.pcs && Waiting(l.pcs[t])
  {
    match l.pcs[t]
    case ReadWait => if l.write != 0 then l else At(l.(read := l.read + 1), t, ReadCount)
    case ReadCount => At(l, t, if l.write != 0 then ReadBack else ReadIn)
    case ReadBack => At(l.(read := l.read - 1), t, ReadWait)
    case WriteTry => if l.write != 0 then l else At(l.(write := 1), t, WriteWait)
    case WriteWait => if l.read != 0 then l else At(l, t, WriteIn)
  }

  function Apply(l: Lock, s: Step): Lock
    requires Enabled(l, s)
  {
    match s
    case ReadLock(t) => At(l, t, ReadWait)
    case WriteLock(t) => At(l, t, WriteTry)
    case Go(t) => Next(l, t)
    case ReadUnlock(t) => l.(read := l.read - 1, pcs := l.pcs - {t})
    case WriteUnlock(t) => l.(write := 0, pcs := l.pcs - {t})
  }

  ghost predicate Run(tr: seq<Lock>, steps: seq<Step>) {
    && |tr| == |steps| + 1 && tr[0] == Lock(0, 0, map[])
    && forall i :: 0 <= i < |steps| ==> Follows(tr, steps, i)
  }

  ghost predicate Follows(tr: seq<Lock>, steps: seq<Step>, i: nat)
    requires i < |steps| < |tr|
  {
    Enabled(tr[i], steps[i]) && tr[i + 1] == Apply(tr[i], steps[i])
  }

  predicate Reads(pc: Pc) {
    pc == ReadCount || pc == ReadBack || pc == ReadIn
  }

  predicate Writes(pc: Pc) {
    pc == WriteWait || pc == WriteIn
  }

  /** Threads counted in `read`: those inside, and those about to find out or to back off. */
  ghost function Readers(l: Lock): set<int> {
    set t | t in l.pcs && Reads(l.pcs[t])
  }

  ghost function Writers(l: Lock): set<int> {
    set t | t in l.pcs && Writes(l.pcs[t])
  }

  ghost predicate Inv(l: Lock) {
    && l.read == |Readers(l)| && l.write == |Writers(l)| <= 1
    && (forall t, u :: t in l.pcs && u in l.pcs && l.pcs[t] == WriteIn ==> l.pcs[u] != ReadIn)
  }

  lemma {:induction false} Change(s: set<int>, t: int)
    ensures |s + {t}| == |s| + (if t in s then 0 else 1) && |s - {t}| == |s| - (if t in s then 1 else 0)
  {
    if t in s {
      assert s + {t} == s;
    }
  }

  lemma ReadersChange(l: Lock, l': Lock, t: int)
    requires l'.pcs == l.pcs - {t} || (t in l'.pcs && l'.pcs == l.pcs[t := l'.pcs[t]])
    ensures |Readers(l')| == |Readers(l)| + (if t in Readers(l') then 1 else 0) - (if t in Readers(l) then 1 else 0)
  {
    Change(Readers(l) - {t}, t);
    Change(Readers(l), t);
    assert Readers(l') == if t in Readers(l') then Readers(l) - {t} + {t} else Readers(l) - {t};
  }

  lemma WritersChange(l: Lock, l': Lock, t: int)
    requires l'.pcs == l.pcs - {t} || (t in l'.pcs && l'.pcs == l.pcs[t := l'.pcs[t]])
    ensures |Writers(l')| == |Writers(l)| + (if t in Writers(l') then 1 else 0) - (if t in Writers(l) then 1 else 0)
  {
    Change(Writers(l) - {t}, t);
    Change(Writers(l), t);
    assert Writers(l') == if t in Writers(l') then Writers(l) - {t} + {t} else Writers(l) - {t};
  }

  lemma OneWriter(l: Lock, t: int, u: int)
    requires Inv(l) && t in Writers(l) && u in Writers(l)
    ensures t == u
  {
    Change(Writers(l), t);
    assert Writers(l) - {t} == {};
  }

  lemma Nonempty(s: set<int>)
    ensures |s| > 0 ==> exists y :: y in s
  {
    if forall y :: y !in s {
      assert s == {};
    }
  }

  lemma Pick(s: set<int>) returns (x: int)
    requires |s| > 0
    ensures x in s
  {
    Nonempty(s);
    x :| x in s;
  }

  lemma StepKeeps(l: Lock, s: Step)
    requires Inv(l) && Enabled(l, s)
    ensures Inv(Apply(l, s))
  {
    var l' := Apply(l, s);
    if l' != l {
      ReadersChange(l, l', s.t);
      WritersChange(l, l', s.t);
      if l.write == 0 {
        assert Writers(l) == {};
      }
      if l.read == 0 {
        assert Readers(l) == {};
      }
      forall t, u | t in l'.pcs && u in l'.pcs && l'.pcs[t] == WriteIn ensures l'.pcs[u] != ReadIn {
        assert t in l.pcs ==> (l.pcs[t] == WriteIn ==> t in Writers(l)) && (l.pcs[t] == WriteWait ==> t in Writers(l));
        assert u in l.pcs ==> (l.pcs[u] == ReadIn ==> u in Readers(l));
      }
    }
  }

  lemma {:induction false} RunInv(tr: seq<Lock>, steps: seq<Step>, i: nat)
    requires Run(tr, steps) && i < |tr|
    ensures Inv(tr[i])
  {
    if i == 0 {
      assert Readers(tr[0]) == {} && Writers(tr[0]) == {};
    } else {
      RunInv(tr, steps, i - 1);
      assert Follows(tr, steps, i - 1);
      StepKeeps(tr[i - 1], steps[i - 1]);
    }
  }

  /** In every interleaving: a writer inside is alone inside, and `read` counts the readers inside or backing off. */
  lemma Exclusive(tr: seq<Lock>, steps: seq<Step>, i: nat, t: int, u: int)
    requires Run(tr, steps) && i < |tr| && t in tr[i].pcs && u in tr[i].pcs && t != u
    ensures tr[i].pcs[t] == WriteIn ==> tr[i].pcs[u] != WriteIn && tr[i].pcs[u] != ReadIn
    ensures tr[i].read == |Readers(tr[i])|
  {
    RunInv(tr, steps, i);
    if tr[i].pcs[t] == WriteIn && tr[i].pcs[u] == WriteIn {
      OneWriter(tr[i], t, u);
    }
  }

  /** When threads wait and nobody is inside, some thread's next operation takes it further: nothing is stuck. */
  lemma NeverStuck(tr: seq<Lock>, steps: seq<Step>, i: nat, w: int) returns (t: int)
    requires Run(tr, steps) && i < |tr| && w in tr[i].pcs
    requires forall u :: u in tr[i].pcs ==> Waiting(tr[i].pcs[u])
    ensures Enabled(tr[i], Go(t)) && Apply(tr[i], Go(t)) != tr[i]
  {
    RunInv(tr, steps, i);
    var l := tr[i];
    t := w;
    if l.write != 0 {
      t := Pick(Writers(l));
      if l.read != 0 {
        t := Pick(Readers(l));
      }
    } else {
      assert Writers(l) == {};
      assert w !in Writers(l);
    }
    assert l.pcs[t] == ReadCount || l.pcs[t] == ReadBack ==> Next(l, t).pcs[t] != l.pcs[t];
  }

  // ---------------------------------------------------------------- the lock is got

  predicate Inside(l: Lock, t: int) {
    t in l.pcs && !Waiting(l.pcs[t])
  }

  predicate Reading(pc: Pc) {
    pc == ReadWait || Reads(pc)
  }

  /** Where a thread is when its call returns. */
  function Got(pc: Pc): Pc {
    if Reading(pc) then ReadIn else WriteIn
  }

  /** The same threads are in their calls, for the same purpose. */
  ghost predicate SameCalls(l: Lock, l': Lock) {
    l'.pcs.Keys == l.pcs.Keys && forall t :: t in l.pcs ==> Got(l'.pcs[t]) == Got(l.pcs[t])
  }

  /** Two operations of one thread alone: it is in, a reader while no writer is there, a writer while nobody is. */
  lemma Uncontended(tr: seq<Lock>, steps: seq<Step>, i: nat, t: int)
    requires Run(tr, steps) && i + 2 <= |steps| && steps[i] == steps[i + 1] == Go(t) && tr[i].write == 0
    ensures t in tr[i].pcs && t in tr[i + 2].pcs
    ensures tr[i].pcs[t] == ReadWait ==> tr[i + 2].pcs[t] == ReadIn
    ensures tr[i].pcs[t] == WriteTry && tr[i].read == 0 ==> tr[i + 2].pcs[t] == WriteIn
  {
    assert Follows(tr, steps, i) && Follows(tr, steps, i + 1);
  }

  /** A run goes on: no thread begins a call, and with `only` set none gives the lock back either. */
  ghost predicate Continues(tr: seq<Lock>, steps: seq<Step>, tr': seq<Lock>, steps': seq<Step>, only: bool) {
    && Run(tr, steps) && Run(tr', steps') && |steps| <= |steps'|
    && tr'[..|tr|] == tr && steps'[..|steps|] == steps
    && forall k :: |steps| <= k < |steps'| ==>
         steps'[k].Go? || (!only && (steps'[k].ReadUnlock? || steps'[k].WriteUnlock?))
  }

  ghost function Last(tr: seq<Lock>): Lock
    requires |tr| > 0
  {
    tr[|tr| - 1]
  }

  lemma OneMore(tr: seq<Lock>, steps: seq<Step>, s: Step) returns (tr': seq<Lock>, steps': seq<Step>)
    requires Run(tr, steps) && Enabled(Last(tr), s) && !s.ReadLock? && !s.WriteLock?
    ensures Continues(tr, steps, tr', steps', s.Go?) && Last(tr') == Apply(Last(tr), s) && Inv(Last(tr'))
    ensures |tr'| == |tr| + 1 && |steps'| == |steps| + 1 && steps'[|steps|] == s
  {
    tr', steps' := tr + [Apply(Last(tr), s)], steps + [s];
    forall i | 0 <= i < |steps'| ensures Follows(tr', steps', i) {
      assert i < |steps| ==> Follows(tr, steps, i);
    }
    RunInv(tr', steps', |tr|);
  }

  lemma ContinuesOn(tr: seq<Lock>, steps: seq<Step>, tr1: seq<Lock>, steps1: seq<Step>, tr2: seq<Lock>, steps2: seq<Step>, only: bool)
    requires Continues(tr, steps, tr1, steps1, true) || (!only && Continues(tr, steps, tr1, steps1, false))
    requires Continues(tr1, steps1, tr2, steps2, true) || (!only && Continues(tr1, steps1, tr2, steps2, false))
    ensures Continues(tr, steps, tr2, steps2, only)
  {
    assert tr2[..|tr|] == tr1[..|tr|] && steps2[..|steps|] == steps1[..|steps|];
    forall k | |steps| <= k < |steps2|
      ensures steps2[k].Go? || (!only && (steps2[k].ReadUnlock? || steps2[k].WriteUnlock?))
    {
      assert k < |steps1| ==> steps2[k] == steps1[k];
    }
  }

  /** A reader at any point of its call gets in while no writer is there. */
  lemma {:induction false} ReaderGetsIn(tr: seq<Lock>, steps: seq<Step>, t: int) returns (tr': seq<Lock>, steps': seq<Step>)
    requires Run(tr, steps) && t in Last(tr).pcs && Reading(Last(tr).pcs[t]) && Last(tr).write == 0
    ensures Continues(tr, steps, tr', steps', true) && Inside(Last(tr'), t) && SameCalls(Last(tr), Last(tr'))
    decreases match Last(tr).pcs[t] case ReadBack => 3 case ReadWait => 2 case ReadCount => 1 case _ => 0
  {
    tr', steps' := tr, steps;
    if Waiting(Last(tr).pcs[t]) {
      var tr1, steps1 := OneMore(tr, steps, Go(t));
      tr', steps' := ReaderGetsIn(tr1, steps1, t);
      ContinuesOn(tr, steps, tr1, steps1, tr', steps', true);
    }
  }

  /** Readers that have not yet looked at `write` again. */
  ghost function Counted(l: Lock): set<int> {
    set u | u in l.pcs && l.pcs[u] == ReadCount
  }

  lemma BackingOff(l: Lock, t: int, u: int)
    requires Inv(l) && t in Writers(l) && u in Readers(l) && forall x :: x in l.pcs ==> Waiting(l.pcs[x])
    ensures var l' := Next(l, u);
      && 0 <= l'.read <= l.read && (l'.read < l.read || |Counted(l')| < |Counted(l)|)
      && SameCalls(l, l') && l'.pcs[t] == l.pcs[t] && forall x :: x in l'.pcs ==> Waiting(l'.pcs[x])
  {
    Nonempty(Writers(l));
    Change(Counted(l), u);
    assert Counted(Next(l, u)) == Counted(l) - {u};
  }

  /** The writer that has set `write` gets in: the readers counted back off, one after the other. */
  lemma {:induction false} WriterGetsIn(tr: seq<Lock>, steps: seq<Step>, t: int) returns (tr': seq<Lock>, steps': seq<Step>)
    requires Run(tr, steps) && t in Last(tr).pcs && Last(tr).pcs[t] == WriteWait
    requires forall u :: u in Last(tr).pcs ==> Waiting(Last(tr).pcs[u])
    ensures Continues(tr, steps, tr', steps', true) && Inside(Last(tr'), t) && SameCalls(Last(tr), Last(tr'))
    decreases Last(tr).read, |Counted(Last(tr))|
  {
    var l := Last(tr);
    RunInv(tr, steps, |tr| - 1);
    assert t in Writers(l);
    var u := t;
    if l.read != 0 {
      u := Pick(Readers(l));
    }
    var tr1, steps1 := OneMore(tr, steps, Go(u));
    tr', steps' := tr1, steps1;
    if u != t {
      BackingOff(l, t, u);
      tr', steps' := WriterGetsIn(tr1, steps1, t);
      ContinuesOn(tr, steps, tr1, steps1, tr', steps', true);
    }
  }

  /** From every reachable state in which threads wait and nobody is inside, going on puts one of them inside. */
  lemma SomeoneGetsIn(tr: seq<Lock>, steps: seq<Step>, w: int) returns (tr': seq<Lock>, steps': seq<Step>, t: int)
    requires Run(tr, steps) && w in Last(tr).pcs
    requires forall u :: u in Last(tr).pcs ==> Waiting(Last(tr).pcs[u])
    ensures Continues(tr, steps, tr', steps', true) && Inside(Last(tr'), t) && SameCalls(Last(tr), Last(tr'))
  {
    var l := Last(tr);
    RunInv(tr, steps, |tr| - 1);
    if l.write != 0 {
      t := Pick(Writers(l));
      tr', steps' := WriterGetsIn(tr, steps, t);
    } else {
      assert Writers(l) == {};
      var reading := set u | u in l.pcs && Reading(l.pcs[u]);
      assert Readers(l) <= reading;
      if |reading| > 0 {
        t := Pick(reading);
        tr', steps' := ReaderGetsIn(tr, steps, t);
      } else {
        t := w;
        assert w !in Writers(l) && w !in reading && Readers(l) == {};
        var tr1, steps1 := OneMore(tr, steps, Go(w));
        tr', steps' := OneMore(tr1, steps1, Go(w));
        ContinuesOn(tr, steps, tr1, steps1, tr', steps', true);
      }
    }
  }

  /** From every reachable state, whatever the others are doing, every call can still be brought to its end: no deadlock. */
  lemma {:induction false} EveryoneGetsIn(tr: seq<Lock>, steps: seq<Step>, w: int) returns (tr': seq<Lock>, steps': seq<Step>)
    requires Run(tr, steps) && w in Last(tr).pcs
    ensures Continues(tr, steps, tr', steps', false) && w in Last(tr').pcs && Last(tr').pcs[w] == Got(Last(tr).pcs[w])
    decreases |Last(tr).pcs|
  {
    var tr1, steps1, t := tr, steps, w;
    if u :| Inside(Last(tr), u) {
      t := u;
    } else {
      assert forall u :: u in Last(tr).pcs && !Waiting(Last(tr).pcs[u]) ==> Inside(Last(tr), u);
      tr1, steps1, t := SomeoneGetsIn(tr, steps, w);
    }
    tr', steps' := tr1, steps1;
    ContinuesOn(tr, steps, tr1, steps1, tr1, steps1, false);
    if Inside(Last(tr1), w) {
    } else {
      var l := Last(tr1);
      var tr2, steps2 := OneMore(tr1, steps1, if l.pcs[t] == ReadIn then ReadUnlock(t) else WriteUnlock(t));
      assert Last(tr2).pcs.Keys == l.pcs.Keys - {t};
      assert |Last(tr2).pcs| == |Last(tr2).pcs.Keys|;
      tr', steps' := EveryoneGetsIn(tr2, steps2, w);
      ContinuesOn(tr, steps, tr1, steps1, tr2, steps2, false);
      ContinuesOn(tr, steps, tr2, steps2, tr', steps', false);
    }
  }
}
