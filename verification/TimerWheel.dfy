/**
  The hierarchical timing wheel (skynet_timer.c).

  A timer's place in the wheel is a function of its expiry and the current time, `Slot`. The
  wheel is proved to do what a plain list of pending timers does (`Plain`): a tick fires exactly
  those whose expiry is the new time, in the order they were added.
 */
module TimerWheel {
  import opened Common

  const NEAR := 256
  const LEVEL := 64
  const WRAP := 0x1_0000_0000
  /** A delay is a positive C int. */
  const MAX_DELAY := 0x7fff_ffff

  datatype Node = Node(expire: int, handle: int, session: int)

  datatype Slot = Near(i: int) | Level(l: int, i: int)

  /** How many ticks until the 32-bit clock shows `expire`. */
  function Ahead(expire: int, time: int): (d: int)
    ensures 0 <= d < WRAP
  {
    (expire - time) % WRAP
  }

  /** Both times are in the same block of that many ticks: equal once the low bits are masked. */
  predicate Same(block: int, a: int, b: int)
    requires block > 0
  {
    a / block == b / block
  }

  /** Where add_node puts a node. */
  function SlotOf(expire: int, time: int): Slot {
    if Same(0x100, expire, time) then Near(expire % NEAR)
    else if Same(0x4000, expire, time) then Level(0, expire / 0x100 % LEVEL)
    else if Same(0x10_0000, expire, time) then Level(1, expire / 0x4000 % LEVEL)
    else if Same(0x400_0000, expire, time) then Level(2, expire / 0x10_0000 % LEVEL)
    else Level(3, expire / 0x400_0000 % LEVEL)
  }

  predicate IsSlot(s: Slot) {
    match s
    case Near(i) => 0 <= i < NEAR
    case Level(l, i) => 0 <= l < 4 && 0 <= i < LEVEL
  }

  /** The nodes of a list that belong in a slot, in the order of the list. */
  ghost function In(p: seq<Node>, s: Slot, time: int): seq<Node> {
    if p == [] then [] else
      In(p[..|p| - 1], s, time) + if SlotOf(p[|p| - 1].expire, time) == s then [p[|p| - 1]] else []
  }

  predicate Clock(t: int) {
    0 <= t < WRAP
  }

  ghost predicate Pending(n: Node, time: int) {
    Clock(n.expire) && 0 < Ahead(n.expire, time) <= MAX_DELAY
  }

  ghost predicate AllPending(p: seq<Node>, time: int) {
    forall n :: n in p ==> Pending(n, time)
  }

  // ---------------------------------------------------------------- the plain list

  datatype Plain = Plain(time: int, pending: seq<Node>)

  datatype Request = Request(delay: int, handle: int, session: int)

  predicate Proper(r: Request) {
    0 < r.delay <= MAX_DELAY
  }

  function NodeOf(r: Request, time: int): Node {
    Node((r.delay + time) % WRAP, r.handle, r.session)
  }

  function Due(p: seq<Node>, time: int): seq<Node> {
    if p == [] then [] else
      Due(p[..|p| - 1], time) + if p[|p| - 1].expire == time then [p[|p| - 1]] else []
  }

  function Later(p: seq<Node>, time: int): seq<Node> {
    if p == [] then [] else
      Later(p[..|p| - 1], time) + if p[|p| - 1].expire == time then [] else [p[|p| - 1]]
  }

  function Added(p: Plain, r: Request): Plain {
    p.(pending := p.pending + [NodeOf(r, p.time)])
  }

  function AddedAll(p: Plain, rs: seq<Request>): Plain {
    if rs == [] then p else Added(AddedAll(p, rs[..|rs| - 1]), rs[|rs| - 1])
  }

  function Next(time: int): int {
    (time + 1) % WRAP
  }

  function Fired(p: Plain): seq<Node> {
    Due(p.pending, Next(p.time))
  }

  function Ticked(p: Plain): Plain {
    Plain(Next(p.time), Later(p.pending, Next(p.time)))
  }

  // ---------------------------------------------------------------- places and the clock

  /** Bitwise or. */
  function Or(a: nat, b: nat): nat {
    if a == 0 && b == 0 then 0 else 2 * Or(a / 2, b / 2) + if a % 2 == 1 || b % 2 == 1 then 1 else 0
  }

  lemma {:induction false} OrZero(x: nat)
    ensures Or(x, 0) == x
  {
    if x > 0 { OrZero(x / 2); }
  }

  /** Or with a mask of k ones fills the low bits. */
  lemma {:induction false} OrMask(x: nat, k: nat, m: nat)
    requires m == Pow(2, k) && m > 0
    ensures Or(x, m - 1) == m * (x / m) + m - 1
    decreases k
  {
    if k == 0 {
      OrZero(x);
    } else {
      var h := m / 2;
      assert m == 2 * h && h == Pow(2, k - 1) && (m - 1) / 2 == h - 1 && (m - 1) % 2 == 1;
      OrMask(x / 2, k - 1, h);
      Halves(x, h);
    }
  }

  lemma Halves(x: nat, h: nat)
    requires h > 0
    ensures 2 * h * (x / (2 * h)) == 2 * (h * (x / 2 / h))
  {
    var q, r := x / 2 / h, x / 2 % h;
    assert x / 2 == h * q + r;
    Double(h, q);
    DivMod(x, 2 * h, q, 2 * r + x % 2);
  }

  lemma Double(h: int, q: int)
    ensures 2 * h * q == 2 * (h * q)
  {
  }

  lemma Multiples(m: int, p: int, q: int)
    requires m > 0
    ensures m * p == m * q <==> p == q
  {
    assert m * (p - q) == m * p - m * q;
    Sign(m, p - q);
  }

  /** The comparison in add_node, of two times with the low bits set, is equality of what is above them. */
  lemma MaskedEqual(a: nat, b: nat, k: nat, m: nat)
    requires m == Pow(2, k) && m > 0
    ensures Or(a, m - 1) == Or(b, m - 1) <==> a / m == b / m
  {
    OrMask(a, k, m);
    OrMask(b, k, m);
    Multiples(m, a / m, b / m);
  }

  /** The masks that occur. */
  lemma BlockIsPower(l: int)
    requires 0 <= l < 4
    ensures Block(l) == Pow(2, 8 + 6 * l)
  {
    assert Pow(2, 4) == 0x10;
    assert Pow(2, 8) == 0x100;
    assert Pow(2, 11) == 0x800;
    assert Pow(2, 14) == 0x4000;
    assert Pow(2, 17) == 0x2_0000;
    assert Pow(2, 20) == 0x10_0000;
    assert Pow(2, 23) == 0x80_0000;
    assert Pow(2, 26) == 0x400_0000;
  }

  predicate IsBlock(b: int) {
    b == 0x100 || b == 0x4000 || b == 0x10_0000 || b == 0x400_0000
  }

  /** A tick that does not begin a block stays in it. */
  lemma SameBlock(b: int, time: int)
    requires IsBlock(b) && Clock(time) && Next(time) % b != 0
    ensures Same(b, time, Next(time))
  {
  }

  /** A tick that begins a block leaves everything pending outside the old one. */
  lemma NewBlock(b: int, e: int, time: int)
    requires IsBlock(b) && Clock(time) && Clock(e) && 0 < Ahead(e, time) <= MAX_DELAY && Next(time) % b == 0
    ensures !Same(b, e, time)
  {
  }

  /** Which level a tick cascades: the coarsest block it begins. */
  function CascadeLevel(time: int): int {
    if time % 0x400_0000 == 0 then 3 else if time % 0x10_0000 == 0 then 2 else if time % 0x4000 == 0 then 1 else 0
  }

  function Block(l: int): (b: int)
    requires 0 <= l < 4
    ensures IsBlock(b)
  {
    if l == 0 then 0x100 else if l == 1 then 0x4000 else if l == 2 then 0x10_0000 else 0x400_0000
  }

  function Cascaded(time: int): Slot {
    Level(CascadeLevel(time), time / Block(CascadeLevel(time)) % LEVEL)
  }

  /** Finer than the level being cascaded. */
  predicate Finer(s: Slot, l: int) {
    s.Near? || s.l < l
  }

  /** Two times in one block of a level agree on every coarser block. */
  lemma Coarser(l: int, a: int, b: int)
    requires 0 <= l < 4 && Same(Block(l), a, b)
    ensures forall j :: l <= j < 4 ==> Same(Block(j), a, b)
  {
    assert a / 0x4000 == a / 0x100 / 64 && b / 0x4000 == b / 0x100 / 64;
    assert a / 0x10_0000 == a / 0x4000 / 64 && b / 0x10_0000 == b / 0x4000 / 64;
    assert a / 0x400_0000 == a / 0x10_0000 / 64 && b / 0x400_0000 == b / 0x10_0000 / 64;
  }

  /** Within one block of the next level, the index of a level tells its blocks apart. */
  lemma IndexTells(l: int, a: int, b: int)
    requires 0 <= l < 4 && Clock(a) && Clock(b) && (l < 3 ==> Same(Block(l + 1), a, b))
    ensures a / Block(l) % LEVEL == b / Block(l) % LEVEL <==> Same(Block(l), a, b)
  {
    assert a / 0x4000 == a / 0x100 / 64 && b / 0x4000 == b / 0x100 / 64;
    assert a / 0x10_0000 == a / 0x4000 / 64 && b / 0x10_0000 == b / 0x4000 / 64;
    assert a / 0x400_0000 == a / 0x10_0000 / 64 && b / 0x400_0000 == b / 0x10_0000 / 64;
  }

  /** SlotOf by levels: a node is on the first level whose next block it shares with the clock. */
  lemma SlotLevel(e: int, time: int)
    requires Clock(e) && Clock(time)
    ensures IsSlot(SlotOf(e, time))
    ensures SlotOf(e, time).Near? <==> Same(0x100, e, time)
    ensures SlotOf(e, time).Level? ==>
              var l := SlotOf(e, time).l;
              !Same(Block(l), e, time) && (l < 3 ==> Same(Block(l + 1), e, time)) && SlotOf(e, time).i == e / Block(l) % LEVEL
  {
  }

  lemma SlotIs(e: int, time: int, l: int)
    requires Clock(e) && Clock(time) && 0 <= l < 4
    requires forall j :: 0 <= j <= l ==> !Same(Block(j), e, time)
    requires l < 3 ==> Same(Block(l + 1), e, time)
    ensures SlotOf(e, time) == Level(l, e / Block(l) % LEVEL)
  {
    assert !Same(Block(0), e, time);
    if l >= 1 { assert !Same(Block(1), e, time); }
    if l >= 2 { assert !Same(Block(2), e, time); }
    if l >= 3 { assert !Same(Block(3), e, time); }
  }

  /** A tick inside a near block moves nothing. */
  lemma QuietTick(e: int, time: int)
    requires Clock(e) && Clock(time) && Next(time) % NEAR != 0
    ensures SlotOf(e, Next(time)) == SlotOf(e, time)
  {
    SameBlock(0x100, time);
    Coarser(0, time, Next(time));
    assert Same(Block(1), time, Next(time)) && Same(Block(2), time, Next(time)) && Same(Block(3), time, Next(time));
  }

  lemma CascadeApart(e: int, time: int)
    requires Clock(e) && Clock(time) && 0 < Ahead(e, time) <= MAX_DELAY && Next(time) % NEAR == 0
    ensures forall j :: 0 <= j <= CascadeLevel(Next(time)) ==> !Same(Block(j), e, time)
  {
    NewBlock(0x100, e, time);
    var k := CascadeLevel(Next(time));
    if k >= 1 { NewBlock(0x4000, e, time); }
    if k >= 2 { NewBlock(0x10_0000, e, time); }
    if k >= 3 { NewBlock(0x400_0000, e, time); }
  }

  lemma CascadeAgree(e: int, time: int)
    requires Clock(e) && Clock(time) && Next(time) % NEAR == 0
    ensures forall j :: CascadeLevel(Next(time)) < j < 4 ==> (Same(Block(j), e, time) <==> Same(Block(j), e, Next(time)))
  {
    var k := CascadeLevel(Next(time));
    if k < 3 {
      SameBlock(Block(k + 1), time);
      Coarser(k + 1, time, Next(time));
    }
  }

  /** A node on a coarser level than the one cascaded stays. */
  lemma CascadeAbove(e: int, time: int)
    requires Clock(e) && Clock(time) && 0 < Ahead(e, time) <= MAX_DELAY && Next(time) % NEAR == 0
    requires SlotOf(e, time).Level? && SlotOf(e, time).l > CascadeLevel(Next(time))
    ensures SlotOf(e, Next(time)) == SlotOf(e, time)
  {
    CascadeAgree(e, time);
    SlotLevel(e, time);
    var l := SlotOf(e, time).l;
    assert !Same(Block(l), e, Next(time));
    forall j | 0 <= j <= l ensures !Same(Block(j), e, Next(time)) {
      if Same(Block(j), e, Next(time)) {
        Coarser(j, e, Next(time));
      }
    }
    SlotIs(e, Next(time), l);
  }

  /** A node on the cascaded level moves if the block it waits for begins, and stays otherwise. */
  lemma CascadeAt(e: int, time: int)
    requires Clock(e) && Clock(time) && 0 < Ahead(e, time) <= MAX_DELAY && Next(time) % NEAR == 0
    requires SlotOf(e, time).Level? && SlotOf(e, time).l == CascadeLevel(Next(time))
    ensures SlotOf(e, time) == Cascaded(Next(time)) <==> Same(Block(CascadeLevel(Next(time))), e, Next(time))
    ensures SlotOf(e, time) != Cascaded(Next(time)) ==> SlotOf(e, Next(time)) == SlotOf(e, time)
  {
    var k, t' := CascadeLevel(Next(time)), Next(time);
    CascadeAgree(e, time);
    SlotLevel(e, time);
    IndexTells(k, e, t');
    if !Same(Block(k), e, t') {
      forall j | 0 <= j <= k ensures !Same(Block(j), e, t') {
        if Same(Block(j), e, t') {
          Coarser(j, e, t');
        }
      }
      SlotIs(e, t', k);
    }
  }

  lemma FinerMeansSame(e: int, time: int, l: int)
    requires Clock(e) && Clock(time) && 0 <= l < 4
    ensures Finer(SlotOf(e, time), l) <==> Same(Block(l), e, time)
  {
    SlotLevel(e, time);
    var s := SlotOf(e, time);
    if Finer(s, l) {
      Coarser(if s.Near? then 0 else s.l + 1, e, time);
    } else if Same(Block(l), e, time) {
      Coarser(l, e, time);
    }
  }

  /** What a tick that begins a near block does to one node: the cascaded list is exactly what moves, and it moves to finer slots. */
  lemma CascadeTick(e: int, time: int)
    requires Clock(e) && Clock(time) && 0 < Ahead(e, time) <= MAX_DELAY && Next(time) % NEAR == 0
    ensures !Finer(SlotOf(e, time), CascadeLevel(Next(time)))
    ensures SlotOf(e, time) == Cascaded(Next(time)) <==> Finer(SlotOf(e, Next(time)), CascadeLevel(Next(time)))
    ensures SlotOf(e, time) != Cascaded(Next(time)) ==> SlotOf(e, Next(time)) == SlotOf(e, time)
  {
    var k := CascadeLevel(Next(time));
    CascadeApart(e, time);
    FinerMeansSame(e, time, k);
    FinerMeansSame(e, Next(time), k);
    if SlotOf(e, time).l > k {
      CascadeAbove(e, time);
    } else {
      CascadeAt(e, time);
    }
  }

  // ---------------------------------------------------------------- lists by slot

  lemma {:induction false} InAppend(a: seq<Node>, b: seq<Node>, s: Slot, time: int)
    ensures In(a + b, s, time) == In(a, s, time) + In(b, s, time)
  {
    if b == [] {
      assert a + b == a;
    } else {
      InAppend(a, b[..|b| - 1], s, time);
      assert (a + b)[..|a + b| - 1] == a + b[..|b| - 1];
    }
  }

  lemma {:induction false} InNone(p: seq<Node>, s: Slot, time: int)
    requires forall n :: n in p ==> SlotOf(n.expire, time) != s
    ensures In(p, s, time) == []
  {
    if p != [] {
      InNone(p[..|p| - 1], s, time);
    }
  }

  lemma {:induction false} InAgree(p: seq<Node>, s: Slot, time: int, time': int)
    requires forall n :: n in p ==> (SlotOf(n.expire, time) == s <==> SlotOf(n.expire, time') == s)
    ensures In(p, s, time) == In(p, s, time')
  {
    if p != [] {
      assert p[|p| - 1] in p;
      InAgree(p[..|p| - 1], s, time, time');
    }
  }

  lemma {:induction false} InMoved(p: seq<Node>, src: Slot, s: Slot, time: int, time': int)
    requires forall n :: n in p ==> SlotOf(n.expire, time') == s ==> SlotOf(n.expire, time) == src
    ensures In(In(p, src, time), s, time') == In(p, s, time')
  {
    if p != [] {
      var q, n := p[..|p| - 1], p[|p| - 1];
      assert n in p;
      InMoved(q, src, s, time, time');
      InAppend(In(q, src, time), [n], s, time');
      assert In([n], s, time') == if SlotOf(n.expire, time') == s then [n] else [] by {
        assert [n][..0] == [];
      }
      if SlotOf(n.expire, time) != src {
        assert In(p, src, time) == In(q, src, time);
      }
    }
  }

  lemma {:induction false} InSubset(p: seq<Node>, s: Slot, time: int)
    ensures forall n :: n in In(p, s, time) ==> n in p && SlotOf(n.expire, time) == s
  {
    if p != [] {
      InSubset(p[..|p| - 1], s, time);
    }
  }

  /** The list at the clock's own place holds what is due now. */
  lemma {:induction false} InNow(p: seq<Node>, time: int)
    requires forall n :: n in p ==> Clock(n.expire)
    requires Clock(time)
    ensures In(p, Near(time % NEAR), time) == Due(p, time)
  {
    if p != [] {
      assert p[|p| - 1] in p;
      InNow(p[..|p| - 1], time);
    }
  }

  lemma {:induction false} InLater(p: seq<Node>, s: Slot, time: int)
    requires forall n :: n in p ==> Clock(n.expire)
    requires Clock(time)
    ensures In(Later(p, time), s, time) == if s == Near(time % NEAR) then [] else In(p, s, time)
  {
    if p != [] {
      var q, n := p[..|p| - 1], p[|p| - 1];
      assert n in p;
      InLater(q, s, time);
      if n.expire != time {
        assert (Later(q, time) + [n])[..|Later(q, time) + [n]| - 1] == Later(q, time);
      } else {
        assert Later(p, time) == Later(q, time);
      }
    }
  }

  lemma {:induction false} LaterSubset(p: seq<Node>, time: int)
    ensures forall n :: n in Later(p, time) <==> n in p && n.expire != time
  {
    if p != [] {
      LaterSubset(p[..|p| - 1], time);
    }
  }

  lemma {:induction false} NoneDue(p: seq<Node>, time: int)
    requires forall n :: n in p ==> n.expire != time
    ensures Due(p, time) == []
  {
    if p != [] {
      NoneDue(p[..|p| - 1], time);
    }
  }

  // ---------------------------------------------------------------- a tick of the wheel, slot by slot

  lemma QuietCell(p: seq<Node>, s: Slot, time: int)
    requires Clock(time) && AllPending(p, time) && Next(time) % NEAR != 0
    ensures In(p, s, Next(time)) == In(p, s, time)
  {
    forall n | n in p ensures SlotOf(n.expire, Next(time)) == SlotOf(n.expire, time) {
      QuietTick(n.expire, time);
    }
    InAgree(p, s, time, Next(time));
  }

  /** Moving the cascaded list puts every slot right: its nodes go to slots that were empty, so the order of arrival is kept. */
  lemma CascadeCell(p: seq<Node>, s: Slot, time: int)
    requires Clock(time) && AllPending(p, time) && Next(time) % NEAR == 0
    ensures var src := Cascaded(Next(time));
            In(p, s, Next(time)) ==
              (if s == src then [] else In(p, s, time)) + In(In(p, src, time), s, Next(time))
  {
    var t', src := Next(time), Cascaded(Next(time));
    forall n | n in p
      ensures !Finer(SlotOf(n.expire, time), src.l)
      ensures SlotOf(n.expire, time) == src <==> Finer(SlotOf(n.expire, t'), src.l)
      ensures SlotOf(n.expire, time) != src ==> SlotOf(n.expire, t') == SlotOf(n.expire, time)
    {
      CascadeTick(n.expire, time);
    }
    InSubset(p, src, time);
    if Finer(s, src.l) {
      InNone(p, s, time);
      InMoved(p, src, s, time, t');
    } else {
      InNone(In(p, src, time), s, t');
      if s == src {
        InNone(p, s, t');
      } else {
        InAgree(p, s, time, t');
      }
    }
  }

  lemma Divides(ct: int)
    requires Clock(ct)
    ensures ct % 0x400_0000 == 0 ==> ct % 0x10_0000 == 0
    ensures ct % 0x10_0000 == 0 ==> ct % 0x4000 == 0
    ensures ct % 0x4000 == 0 ==> ct % 0x100 == 0
  {
  }

  lemma IndexZero(ct: int, i: int)
    requires Clock(ct) && 0 <= i < 3 && ct % Block(i) == 0
    ensures ct / Block(i) % LEVEL == 0 <==> ct % Block(i + 1) == 0
    ensures ct / Block(i) / LEVEL == ct / Block(i + 1)
  {
  }

  /** The loop of timer_shift stops at the level that is to be cascaded, at the last one at the latest. */
  lemma FoundLevel(ct: int, i: int)
    requires 0 < ct < WRAP && 0 <= i < 4 && ct % Block(i) == 0
    ensures ct / Block(i) % LEVEL != 0 ==> Cascaded(ct) == Level(i, ct / Block(i) % LEVEL)
    ensures ct / Block(i) % LEVEL == 0 ==> i < 3 && ct % Block(i + 1) == 0 && ct / Block(i) / LEVEL == ct / Block(i + 1)
  {
    Divides(ct);
    if i < 3 {
      IndexZero(ct, i);
    }
  }

  lemma StillPending(p: seq<Node>, time: int)
    requires Clock(time) && AllPending(p, time)
    ensures AllPending(Later(p, Next(time)), Next(time))
    ensures Due(p, time) == []
    ensures forall n :: n in p ==> Clock(n.expire)
  {
    LaterSubset(p, Next(time));
    forall n | n in Later(p, Next(time)) ensures Pending(n, Next(time)) {
      assert Pending(n, time);
    }
    forall n | n in p ensures n.expire != time && Clock(n.expire) {
      assert Pending(n, time);
    }
    NoneDue(p, time);
  }

  lemma ProperPending(r: Request, time: int)
    requires Proper(r) && Clock(time)
    ensures Pending(NodeOf(r, time), time)
  {
  }

  class Timer {
    const near: array<seq<Node>>
    const t: array2<seq<Node>>
    var time: int
    /** The messages pushed, in order. */
    var sent: seq<Node>
    /** Every timer added and not yet fired, in the order they were added. */
    ghost var pending: seq<Node>

    ghost predicate Shape()
      reads this
    {
      near.Length == NEAR && t.Length0 == 4 && t.Length1 == LEVEL && Clock(time)
    }

    ghost function Cell(s: Slot): seq<Node>
      reads this, near, t
      requires Shape() && IsSlot(s)
    {
      match s
      case Near(i) => near[i]
      case Level(l, i) => t[l, i]
    }

    /** Each list holds the pending timers that belong there, in the order they were added. */
    ghost predicate Placed()
      reads this, near, t
      requires Shape()
    {
      forall s :: IsSlot(s) ==> Cell(s) == In(pending, s, time)
    }

    ghost predicate PlacedAs(at: int)
      reads this, near, t
      requires Shape()
    {
      forall s :: IsSlot(s) ==> Cell(s) == In(pending, s, at)
    }

    ghost predicate Valid()
      reads this, near, t
    {
      Shape() && Placed() && AllPending(pending, time)
    }

    ghost function Abs(): Plain
      reads this
    {
      Plain(time, pending)
    }

    constructor ()
      ensures Valid() && Abs() == Plain(0, []) && sent == [] && fresh(near) && fresh(t)
    {
      near := new seq<Node>[NEAR](_ => []);
      t := new seq<Node>[4, LEVEL]((_, _) => []);
      time, sent, pending := 0, [], [];
    }

    method AddNode(node: Node)
      requires Shape() && Clock(node.expire)
      modifies near, t
      ensures forall s :: IsSlot(s) ==>
        Cell(s) == old(Cell(s)) + if s == SlotOf(node.expire, time) then [node] else []
    {
      SlotLevel(node.expire, time);
      BlockIsPower(0);
      MaskedEqual(node.expire, time, 8, NEAR);
      if Or(node.expire, NEAR - 1) == Or(time, NEAR - 1) {
        near[node.expire % NEAR] := near[node.expire % NEAR] + [node];
      } else {
        var i, mask, shift := 0, NEAR * LEVEL, NEAR;
        while i < 3
          modifies {}
          invariant 0 <= i <= 3 && shift == Block(i) && mask == shift * LEVEL
          invariant forall j :: 0 <= j <= i ==> !Same(Block(j), node.expire, time)
        {
          BlockIsPower(i + 1);
          MaskedEqual(node.expire, time, 8 + 6 * (i + 1), mask);
          if Or(node.expire, mask - 1) == Or(time, mask - 1) {
            break;
          }
          assert !Same(Block(i + 1), node.expire, time);
          i, mask, shift := i + 1, mask * LEVEL, mask;
        }
        SlotIs(node.expire, time, i);
        t[i, node.expire / shift % LEVEL] := t[i, node.expire / shift % LEVEL] + [node];
      }
    }

    method MoveList(level: int, idx: int)
      requires Shape() && IsSlot(Level(level, idx))
      requires forall n :: n in Cell(Level(level, idx)) ==> Clock(n.expire)
      modifies near, t
      ensures forall s :: IsSlot(s) ==>
        Cell(s) == (if s == Level(level, idx) then [] else old(Cell(s))) + In(old(Cell(Level(level, idx))), s, time)
    {
      var current := t[level, idx];
      t[level, idx] := [];
      ghost var all := current;
      ghost var k := 0;
      while current != []
        invariant 0 <= k <= |all| && current == all[k..]
        invariant forall s :: IsSlot(s) ==>
          Cell(s) == (if s == Level(level, idx) then [] else old(Cell(s))) + In(all[..k], s, time)
        decreases |current|
      {
        assert all[..k + 1][..k] == all[..k];
        assert current[0] == all[k] && all[k] in all;
        label Before:
        AddNode(current[0]);
        forall s | IsSlot(s)
          ensures Cell(s) == (if s == Level(level, idx) then [] else old(Cell(s))) + In(all[..k + 1], s, time)
        {
          Assoc(if s == Level(level, idx) then [] else old(Cell(s)), In(all[..k], s, time),
                if SlotOf(all[k].expire, time) == s then [all[k]] else []);
          assert Cell(s) == old@Before(Cell(s)) + if SlotOf(all[k].expire, time) == s then [all[k]] else [];
        }
        current := current[1..];
        k := k + 1;
      }
      assert all[..k] == all;
    }

    /** The list at `src` has been put where it belongs now; the rest is as it was. */
    ghost predicate MovedFrom(src: Slot, was: int)
      reads this, near, t
      requires Shape()
    {
      forall s :: IsSlot(s) ==>
        Cell(s) == (if s == src then [] else In(pending, s, was)) + In(In(pending, src, was), s, time)
    }

    /** timer_shift, once the clock has moved from `was`. */
    method Cascade(ghost was: int)
      requires Shape() && Clock(was) && time == Next(was)
      requires AllPending(pending, was)
      requires PlacedAs(was)
      modifies near, t
      ensures time % NEAR != 0 ==> PlacedAs(was)
      ensures time % NEAR == 0 ==> MovedFrom(Cascaded(time), was)
    {
      forall s | IsSlot(s) ensures forall n :: n in Cell(s) ==> Clock(n.expire) {
        InSubset(pending, s, was);
        StillPending(pending, was);
      }
      assert Cascaded(0) == Level(3, 0);
      hide Cascaded, In;
      var ct := time;
      if ct == 0 {
        MoveList(3, 0);
        assert MovedFrom(Level(3, 0), was);
      } else {
        var mask, rest, i := NEAR, ct / NEAR, 0;
        while ct % mask == 0
          invariant 0 <= i < 4 && mask == Block(i) && rest == ct / mask
          invariant i > 0 ==> ct % mask == 0
          invariant PlacedAs(was)
          decreases 4 - i
        {
          FoundLevel(ct, i);
          Divides(ct);
          var idx := rest % LEVEL;
          if idx != 0 {
            MoveList(i, idx);
            assert MovedFrom(Level(i, idx), was);
            break;
          }
          mask, rest, i := mask * LEVEL, rest / LEVEL, i + 1;
        }
      }
    }

    method TimerShift()
      requires Valid()
      modifies this`time, near, t
      ensures Shape() && time == Next(old(time)) && Placed()
    {
      ghost var was := time;
      time := (time + 1) % WRAP;
      Cascade(was);
      forall s | IsSlot(s) ensures Cell(s) == In(pending, s, time) {
        if time % NEAR == 0 {
          CascadeCell(pending, s, was);
        } else {
          QuietCell(pending, s, was);
        }
      }
    }

    method TimerAdd(r: Request)
      requires Valid() && Proper(r)
      modifies this`pending, near, t
      ensures Valid() && Abs() == Added(old(Abs()), r)
    {
      var node := NodeOf(r, time);
      ProperPending(r, time);
      label Before:
      AddNode(node);
      pending := pending + [node];
      assert pending[..|pending| - 1] == old(pending);
      forall s | IsSlot(s) ensures Cell(s) == In(pending, s, time) {
        assert old(Cell(s)) == In(old(pending), s, time);
      }
    }

    /** dispatch_list. */
    method DispatchList(list: seq<Node>)
      modifies this`sent
      ensures sent == old(sent) + list
    {
      var current := list;
      while current != []
        invariant sent + current == old(sent) + list
        decreases |current|
      {
        sent := sent + [current[0]];
        current := current[1..];
      }
    }

    /** Requests that other threads make while the lock is released. */
    method TimerAddAll(rs: seq<Request>)
      requires Valid() && forall r :: r in rs ==> Proper(r)
      modifies this`pending, near, t
      ensures Valid() && Abs() == AddedAll(old(Abs()), rs)
    {
      var i := 0;
      while i < |rs|
        invariant 0 <= i <= |rs| && Valid() && Abs() == AddedAll(old(Abs()), rs[..i])
      {
        assert rs[..i + 1][..i] == rs[..i];
        TimerAdd(rs[i]);
        i := i + 1;
      }
      assert rs[..i] == rs;
    }

    /** Fires what is due now. The lock is released while the messages are pushed; `during` is what is added then. */
    method TimerExecute(during: seq<Request>)
      requires Shape() && Placed() && forall r :: r in during ==> Proper(r)
      requires forall n :: n in pending ==> n.expire == time || Pending(n, time)
      modifies this`pending, this`sent, near, t
      ensures Valid() && sent == old(sent) + Due(old(pending), time)
      ensures Abs() == AddedAll(Plain(time, Later(old(pending), time)), if Due(old(pending), time) == [] then [] else during)
    {
      hide Added, NodeOf;
      var idx := time % NEAR;
      ghost var due := Due(pending, time);
      InNow(pending, time);
      assert near[idx] == Cell(Near(idx));
      LaterSubset(pending, time);
      forall s | IsSlot(s) ensures In(Later(pending, time), s, time) == if s == Near(idx) then [] else In(pending, s, time) {
        InLater(pending, s, time);
      }
      ghost var rest := Later(pending, time);
      ghost var once := false;
      if near[idx] == [] {
        NoneLater(pending, time);
      }
      while near[idx] != []
        invariant Shape()
        invariant once ==> due != [] && Valid() && Abs() == AddedAll(Plain(time, rest), during) && sent == old(sent) + due && near[idx] == []
        invariant !once ==> pending == old(pending) && sent == old(sent) && Placed() && near[idx] == due
        decreases !once
      {
        var current := near[idx];
        near[idx] := [];
        pending := rest;
        assert Valid();
        DispatchList(current);
        TimerAddAll(during);
        once := true;
        StillPending(pending, time);
        InNow(pending, time);
        assert near[idx] == Cell(Near(idx));
      }
    }

    /** timer_update: one tick of the clock. */
    method TimerUpdate(during: seq<Request>)
      requires Valid() && forall r :: r in during ==> Proper(r)
      modifies this`time, this`pending, this`sent, near, t
      ensures Valid() && sent == old(sent) + Fired(old(Abs()))
      ensures Abs() == AddedAll(Ticked(old(Abs())), if Fired(old(Abs())) == [] then [] else during)
    {
      assert AddedAll(Plain(time, pending), []) == Plain(time, pending);
      StillPending(pending, time);
      NoneLater(pending, time);
      hide Due, Later, AddedAll, In;
      TimerExecute([]);
      assert Abs() == old(Abs());
      TickPending(pending, time);
      TimerShift();
      TimerExecute(during);
    }

    /** skynet_timeout: a delay that is not positive is answered at once. */
    method Timeout(handle: int, delay: int, session: int)
      requires Valid() && -MAX_DELAY - 1 <= delay <= MAX_DELAY
      modifies this`pending, this`sent, near, t
      ensures Valid()
      ensures delay <= 0 ==> Abs() == old(Abs()) && sent == old(sent) + [Node(old(time), handle, session)]
      ensures delay > 0 ==> Abs() == Added(old(Abs()), Request(delay, handle, session)) && sent == old(sent)
    {
      if delay <= 0 {
        sent := sent + [Node(time, handle, session)];
      } else {
        TimerAdd(Request(delay, handle, session));
      }
    }
  }

  lemma TickPending(p: seq<Node>, time: int)
    requires Clock(time) && AllPending(p, time)
    ensures forall n :: n in p ==> n.expire == Next(time) || Pending(n, Next(time))
  {
    forall n | n in p ensures n.expire == Next(time) || Pending(n, Next(time)) {
      assert Pending(n, time);
    }
  }

  lemma {:induction false} NoneLater(p: seq<Node>, time: int)
    requires Due(p, time) == []
    ensures Later(p, time) == p
  {
    if p != [] {
      NoneLater(p[..|p| - 1], time);
    }
  }

  // ---------------------------------------------------------------- over whole runs

  datatype Op = Add(r: Request) | Tick

  /** The state after any sequence of operations on a new timer. */
  function After(ops: seq<Op>): Plain {
    if ops == [] then Plain(0, []) else
      match ops[|ops| - 1]
      case Add(r) => Added(After(ops[..|ops| - 1]), r)
      case Tick => Ticked(After(ops[..|ops| - 1]))
  }

  function Ticks(ops: seq<Op>): nat {
    if ops == [] then 0 else Ticks(ops[..|ops| - 1]) + if ops[|ops| - 1].Tick? then 1 else 0
  }

  /** What was asked for: in the order of asking, each request with the number of the tick it is to fire at. */
  datatype Wish = Wish(tick: int, r: Request)

  function Wishes(ops: seq<Op>): seq<Wish> {
    if ops == [] then [] else
      var w := Wishes(ops[..|ops| - 1]);
      match ops[|ops| - 1]
      case Add(r) => w + [Wish(Ticks(ops[..|ops| - 1]) + r.delay, r)]
      case Tick => w
  }

  /** The requests for one tick, as the nodes that fire. */
  function ForTick(w: seq<Wish>, k: int): seq<Node> {
    if w == [] then [] else
      ForTick(w[..|w| - 1], k) + if w[|w| - 1].tick == k then [NodeFor(w[|w| - 1])] else []
  }

  function AfterTick(w: seq<Wish>, k: int): seq<Node> {
    if w == [] then [] else
      AfterTick(w[..|w| - 1], k) + if w[|w| - 1].tick > k then [NodeFor(w[|w| - 1])] else []
  }

  function NodeFor(w: Wish): Node {
    Node(w.tick % WRAP, w.r.handle, w.r.session)
  }

  predicate AllProper(ops: seq<Op>) {
    forall i :: 0 <= i < |ops| && ops[i].Add? ==> Proper(ops[i].r)
  }

  lemma {:induction false} WishesSoon(ops: seq<Op>)
    requires AllProper(ops)
    ensures forall w :: w in Wishes(ops) ==> w.tick - Ticks(ops) <= MAX_DELAY
  {
    if ops != [] {
      WishesSoon(ops[..|ops| - 1]);
    }
  }

  /** Counting ticks without end or on the 32-bit clock tells the same timers due. */
  lemma {:induction false} DueByTick(w: seq<Wish>, k: nat)
    requires forall x :: x in w ==> x.tick - k <= MAX_DELAY
    ensures Due(AfterTick(w, k), (k + 1) % WRAP) == ForTick(w, k + 1)
    ensures Later(AfterTick(w, k), (k + 1) % WRAP) == AfterTick(w, k + 1)
  {
    if w != [] {
      var q, x := w[..|w| - 1], w[|w| - 1];
      assert x in w;
      DueByTick(q, k);
      if x.tick > k {
        var p := AfterTick(q, k) + [NodeFor(x)];
        assert p[..|p| - 1] == AfterTick(q, k) && AfterTick(w, k) == p;
        assert x.tick % WRAP == (k + 1) % WRAP <==> x.tick == k + 1;
      } else {
        assert AfterTick(w, k) == AfterTick(q, k);
      }
    }
  }

  lemma ClockSum(t: nat, d: nat)
    ensures (d + t % WRAP) % WRAP == (t + d) % WRAP
    ensures Next(t % WRAP) == (t + 1) % WRAP
  {
  }

  predicate Counts(p: Plain, w: seq<Wish>, k: nat) {
    p == Plain(k % WRAP, AfterTick(w, k))
  }

  lemma CountsAdd(p: Plain, w: seq<Wish>, k: nat, r: Request)
    requires Counts(p, w, k) && Proper(r)
    ensures Counts(Added(p, r), w + [Wish(k + r.delay, r)], k)
  {
    var w' := w + [Wish(k + r.delay, r)];
    assert w'[..|w'| - 1] == w;
    ClockSum(k, r.delay);
  }

  lemma CountsTick(p: Plain, w: seq<Wish>, k: nat)
    requires Counts(p, w, k) && forall x :: x in w ==> x.tick - k <= MAX_DELAY
    ensures Counts(Ticked(p), w, k + 1) && Fired(p) == ForTick(w, k + 1)
  {
    ClockSum(k, 0);
    DueByTick(w, k);
  }

  lemma {:induction false} AfterIs(ops: seq<Op>)
    requires AllProper(ops)
    ensures Counts(After(ops), Wishes(ops), Ticks(ops))
  {
    if ops != [] {
      var was := ops[..|ops| - 1];
      AfterIs(was);
      WishesSoon(was);
      match ops[|ops| - 1]
      case Add(r) => CountsAdd(After(was), Wishes(was), Ticks(was), r);
      case Tick => CountsTick(After(was), Wishes(was), Ticks(was));
    }
  }

  /**
    Over any run, wrap-around included: a tick fires exactly the requests whose delay ends with it,
    once each, in the order they were made.
   */
  lemma Punctual(ops: seq<Op>)
    requires AllProper(ops)
    ensures Fired(After(ops)) == ForTick(Wishes(ops), Ticks(ops) + 1)
  {
    AfterIs(ops);
    WishesSoon(ops);
    CountsTick(After(ops), Wishes(ops), Ticks(ops));
  }
}
