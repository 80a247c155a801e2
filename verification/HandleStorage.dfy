/**
  The handle table (skynet_handle.c): live contexts in slots by the low bits of their handles, and
  a sorted array of names. Every method runs between the lock and the unlock of its C function.
 */
module HandleStorage {
  import opened ByteOrder
  import opened Common

  const HANDLE_MASK := 0xff_ffff
  const REMOTE := 0x100_0000

  /** A context and the handle it was registered under. */
  datatype Entry = Entry(ctx: int, handle: int)

  datatype Name = Name(name: Bytes, handle: int)

  /** Slot counts: powers of two that divide the range of the index. */
  predicate SlotSize(n: int) {
    0 < n <= REMOTE && exists k: nat :: k <= 24 && n == Pow(2, k)
  }

  lemma {:induction false} PowerDivides(k: nat, m: nat)
    requires k <= m
    ensures Pow(2, k) > 0 && Pow(2, m) % Pow(2, k) == 0 && Pow(2, k) <= Pow(2, m)
    decreases m
  {
    if k < m {
      PowerDivides(k, m - 1);
      var p, q := Pow(2, k), Pow(2, m - 1);
      assert q == p * (q / p);
      assert 2 * q == p * (2 * (q / p));
      ModOfMultiple(p, 2 * (q / p));
    } else {
      PowerPositive(k);
    }
  }

  lemma {:induction false} PowerPositive(k: nat)
    ensures Pow(2, k) > 0
  {
    if k > 0 { PowerPositive(k - 1); }
  }

  lemma ModOfMultiple(p: int, q: int)
    requires p > 0
    ensures p * q % p == 0
  {
    DivMod(p * q, p, q, 0);
  }

  lemma SlotSizeDivides(n: int)
    requires SlotSize(n)
    ensures REMOTE % n == 0 && (n < REMOTE ==> SlotSize(2 * n))
  {
    var k: nat :| k <= 24 && n == Pow(2, k);
    PowerDivides(k, 24);
    assert Pow(2, 24) == REMOTE by {
      assert Pow(2, 4) == 16;
      assert Pow(2, 8) == 256;
      assert Pow(2, 12) == 0x1000;
      assert Pow(2, 16) == 0x1_0000;
      assert Pow(2, 20) == 0x10_0000;
    }
    if k < 24 {
      assert 2 * n == Pow(2, k + 1);
      PowerDivides(k + 1, 24);
    }
  }

  /** The harbor's bits are above every slot mask. */
  lemma HarborMasked(harbor: int, low: int, n: int)
    requires SlotSize(n) && harbor % REMOTE == 0
    ensures (harbor + low) % n == low % n
  {
    SlotSizeDivides(n);
    MultipleAway(harbor, low, REMOTE, n);
  }

  lemma MultipleAway(h: int, low: int, m: int, n: int)
    requires n > 0 && m > 0 && m % n == 0 && h % m == 0
    ensures (h + low) % n == low % n
  {
    var a, b, c := h / m, m / n, low / n;
    assert h == n * b * a;
    Assoc3(n, b, a);
    assert n * (b * a) + n * c == n * (b * a + c);
    DivMod(h + low, n, b * a + c, low % n);
  }

  lemma Assoc3(a: int, b: int, c: int)
    ensures a * b * c == a * (b * c)
  {
  }

  lemma ModTwice(a: int, n: int)
    requires n > 0
    ensures a % n == a % (2 * n) % n
  {
    var m := 2 * n;
    var q, r := a / m, a % m;
    assert a == m * q + r;
    assert m * q == n * (2 * q);
    assert r == n * (r / n) + r % n;
    assert a == n * (2 * q) + n * (r / n) + r % n;
    assert n * (2 * q) + n * (r / n) == n * (2 * q + r / n);
    DivMod(a, n, 2 * q + r / n, r % n);
  }

  // ---------------------------------------------------------------- slots

  ghost predicate SlotOK(slots: seq<Option<Entry>>, live: map<int, int>, harbor: int, i: int) {
    0 <= i < |slots| && slots[i].Some? ==>
      var e := slots[i].value;
      e.handle % |slots| == i && e.handle in live && live[e.handle] == e.ctx && harbor < e.handle <= harbor + HANDLE_MASK
  }

  ghost predicate LiveOK(slots: seq<Option<Entry>>, live: map<int, int>, h: int)
    requires |slots| > 0
  {
    h in live ==> slots[h % |slots|] == Some(Entry(live[h], h))
  }

  /** Every live context is in the slot its handle says, and every slot holds a live context. */
  ghost predicate Slotted(slots: seq<Option<Entry>>, live: map<int, int>, harbor: int)
    requires |slots| > 0
  {
    && (forall i {:trigger SlotOK(slots, live, harbor, i)} :: SlotOK(slots, live, harbor, i))
    && (forall h {:trigger LiveOK(slots, live, h)} :: LiveOK(slots, live, h))
  }

  /** An empty slot is proof that no live context has a handle that belongs there. */
  lemma TakeSlot(slots: seq<Option<Entry>>, live: map<int, int>, harbor: int, ctx: int, h: int)
    requires |slots| > 0 && Slotted(slots, live, harbor) && slots[h % |slots|].None? && harbor < h <= harbor + HANDLE_MASK
    ensures h !in live && Slotted(slots[h % |slots| := Some(Entry(ctx, h))], live[h := ctx], harbor)
  {
    var slots', live' := slots[h % |slots| := Some(Entry(ctx, h))], live[h := ctx];
    assert LiveOK(slots, live, h);
    forall i ensures SlotOK(slots', live', harbor, i) {
      assert SlotOK(slots, live, harbor, i);
    }
    forall k ensures LiveOK(slots', live', k) {
      assert LiveOK(slots, live, k);
    }
  }

  lemma SlotHolds(slots: seq<Option<Entry>>, live: map<int, int>, harbor: int, i: int)
    requires |slots| > 0 && Slotted(slots, live, harbor) && 0 <= i < |slots| && slots[i].Some?
    ensures slots[i].value.handle % |slots| == i && slots[i].value.handle > harbor
  {
    assert SlotOK(slots, live, harbor, i);
  }

  lemma FreeSlot(slots: seq<Option<Entry>>, live: map<int, int>, harbor: int, h: int)
    requires |slots| > 0 && Slotted(slots, live, harbor) && h in live
    ensures Slotted(slots[h % |slots| := None], live - {h}, harbor)
  {
    var slots', live' := slots[h % |slots| := None], live - {h};
    assert LiveOK(slots, live, h);
    forall i ensures SlotOK(slots', live', harbor, i) {
      assert SlotOK(slots, live, harbor, i);
      assert 0 <= i < |slots| && slots[i].Some? && slots[i].value.handle == h ==> i == h % |slots|;
    }
    forall k ensures LiveOK(slots', live', k) {
      assert LiveOK(slots, live, k);
      assert k in live' && k % |slots| == h % |slots| ==> k == h;
    }
  }

  /** A context in the new table came from the old one, from a slot the loop is past. */
  ghost predicate Came(a: seq<Option<Entry>>, b: seq<Option<Entry>>, i: nat, r: int)
    requires |a| > 0 && |b| > 0
  {
    0 <= r < |b| && b[r].Some? ==>
      b[r].value.handle % |b| == r && r % |a| < i <= |a| && a[r % |a|] == b[r]
  }

  ghost predicate Went(a: seq<Option<Entry>>, b: seq<Option<Entry>>, i: nat, j: int)
    requires |b| > 0
  {
    0 <= j < i <= |a| ==> a[j].Some? && b[a[j].value.handle % |b|] == a[j]
  }

  /** The new table while it is filled from the old one: the first i contexts are over. */
  ghost predicate Doubling(a: seq<Option<Entry>>, b: seq<Option<Entry>>, i: nat) {
    && |a| > 0 && |b| == 2 * |a| && i <= |a|
    && (forall r {:trigger Came(a, b, i, r)} :: Came(a, b, i, r))
    && (forall j {:trigger Went(a, b, i, j)} :: Went(a, b, i, j))
  }

  lemma DoublingNone(a: seq<Option<Entry>>, b: seq<Option<Entry>>)
    requires |a| > 0 && |b| == 2 * |a| && forall r :: 0 <= r < |b| ==> b[r].None?
    ensures Doubling(a, b, 0)
  {
  }

  /** The place of a context in the new table is still empty: the assertion in the loop. */
  lemma DoublingStep(a: seq<Option<Entry>>, b: seq<Option<Entry>>, i: nat)
    requires Doubling(a, b, i) && i < |a| && a[i].Some? && a[i].value.handle % |a| == i
    ensures b[a[i].value.handle % |b|].None?
    ensures Doubling(a, b[a[i].value.handle % |b| := a[i]], i + 1)
  {
    var h := a[i].value.handle % |b|;
    var b' := b[h := a[i]];
    ModTwice(a[i].value.handle, |a|);
    assert h % |a| == i;
    assert Came(a, b, i, h);
    var i' := i + 1;
    forall r ensures Came(a, b', i', r) {
      assert Came(a, b, i, r);
    }
    forall j ensures Went(a, b', i', j) {
      assert Went(a, b, i, j);
    }
  }

  lemma DoublingDone(a: seq<Option<Entry>>, b: seq<Option<Entry>>, live: map<int, int>, harbor: int)
    requires Doubling(a, b, |a|) && Slotted(a, live, harbor)
    ensures Slotted(b, live, harbor)
  {
    forall r ensures SlotOK(b, live, harbor, r) {
      if 0 <= r < |b| && b[r].Some? {
        assert Came(a, b, |a|, r);
        assert SlotOK(a, live, harbor, r % |a|);
      }
    }
    forall h ensures LiveOK(b, live, h) {
      assert LiveOK(a, live, h);
      assert Went(a, b, |a|, h % |a|);
    }
  }

  /** Two slots of the new table that come from the same old one are not both taken. */
  lemma HalfEmpty(a: seq<Option<Entry>>, b: seq<Option<Entry>>)
    requires Doubling(a, b, |a|) && |a| > 1
    ensures b[1].None? || b[1 + |a|].None?
  {
    DivMod(1 + |a|, |a|, 1, 1);
    assert Came(a, b, |a|, 1) && Came(a, b, |a|, 1 + |a|);
  }

  /** The i-th handle a pass from an index tries: they go round from 1 to the mask. */
  function HandleAt(index: int, i: int): (h: int)
    requires index >= 1 && i >= 0
    ensures 1 <= h <= HANDLE_MASK
  {
    (index + i - 1) % HANDLE_MASK + 1
  }

  lemma HandleStart(index: int)
    requires 1 <= index <= REMOTE
    ensures HandleAt(index, 0) == if index > HANDLE_MASK then 1 else index
  {
  }

  lemma HandleStep(index: int, i: int)
    requires index >= 1 && i >= 0
    ensures HandleAt(index, i + 1) == if HandleAt(index, i) == HANDLE_MASK then 1 else HandleAt(index, i) + 1
  {
  }

  /** Whether a pass over n slots meets slot 0: without wrapping it does, and after the wrap only if it starts there. */
  predicate ZeroLooked(index: int, n: int) {
    index + n - 1 <= HANDLE_MASK || (index == REMOTE && n < REMOTE)
  }

  /** The slot a pass from an index looks at, by which handle. */
  lemma PassLooks(index: int, n: int, r: int) returns (j: int)
    requires SlotSize(n) && 1 <= index <= REMOTE && 0 <= r < n && (r != 0 || ZeroLooked(index, n))
    ensures 0 <= j < n && HandleAt(index, j) % n == r
  {
    SlotSizeDivides(n);
    if index + n - 1 <= HANDLE_MASK {
      j := (r - index) % n;
      ModBack(index, n, r);
      NoWrap(index, j);
    } else if r == 0 {
      j := n - 1;
      Wrapped(index, j, n);
      DivMod(n, n, 1, 0);
    } else if r <= n - (REMOTE - index) {
      j := REMOTE - index + r - 1;
      Wrapped(index, j, r);
      SmallMod(r, n);
    } else {
      j := r - (n - (REMOTE - index));
      NoWrap(index, j);
      RemoteMinus(n, r);
    }
  }

  lemma ZeroMissed(index: int, n: int, j: int)
    requires SlotSize(n) && 1 <= index <= REMOTE && !ZeroLooked(index, n) && 0 <= j < n && n > 1
    ensures HandleAt(index, j) % n != 0
  {
    SlotSizeDivides(n);
    var r := index + j - REMOTE + 1;
    if r <= 0 {
      NoWrap(index, j);
      RemoteMinus(n, n + r - 1);
    } else if r <= HANDLE_MASK {
      Wrapped(index, j, r);
      SmallMod(r, n);
    } else {
      assert HandleAt(REMOTE, REMOTE - 1) == 1;
      SmallMod(1, n);
    }
  }

  /** A pass of as many handles as there are slots looks at exactly these slots. */
  lemma PassLooksAt(index: int, n: int, r: int)
    requires SlotSize(n) && n > 1 && 1 <= index <= REMOTE && 0 <= r < n
    ensures (exists j :: 0 <= j < n && HandleAt(index, j) % n == r) <==> r != 0 || ZeroLooked(index, n)
  {
    if r != 0 || ZeroLooked(index, n) {
      var j := PassLooks(index, n, r);
    } else {
      forall j | 0 <= j < n ensures HandleAt(index, j) % n != r {
        ZeroMissed(index, n, j);
      }
    }
  }

  lemma NoWrap(index: int, j: int)
    requires index >= 1 && j >= 0 && index + j <= HANDLE_MASK
    ensures HandleAt(index, j) == index + j
  {
  }

  lemma Wrapped(index: int, j: int, r: int)
    requires index >= 1 && j >= 0 && index + j == REMOTE + r - 1 && 1 <= r <= HANDLE_MASK
    ensures HandleAt(index, j) == r
  {
  }

  lemma MultipleNotLess(low: int, n: int)
    requires 0 < low && 0 < n && low % n == 0
    ensures n <= low
  {
    if low < n {
      SmallMod(low, n);
    }
  }

  lemma ModBack(index: int, n: int, r: int)
    requires n > 0 && 0 <= r < n
    ensures (index + (r - index) % n) % n == r
  {
    var q := (r - index) / n;
    assert r - index == n * q + (r - index) % n;
    assert n * -q == -(n * q);
    DivMod(index + (r - index) % n, n, -q, r);
  }

  lemma RemoteMinus(n: int, r: int)
    requires n > 0 && REMOTE % n == 0 && 0 <= r < n
    ensures (REMOTE - n + r) % n == r
  {
    var q := REMOTE / n;
    assert REMOTE == n * q && n * (q - 1) == n * q - n;
    DivMod(REMOTE - n + r, n, q - 1, r);
  }

  // ---------------------------------------------------------------- names

  const MAX_SLOT_SIZE := 0x4000_0000

  /** Strictly sorted: no name twice. */
  ghost predicate SortedNames(s: seq<Name>) {
    forall i, j {:trigger InOrder(s, i, j)} :: InOrder(s, i, j)
  }

  ghost predicate InOrder(s: seq<Name>, i: int, j: int) {
    0 <= i < j < |s| ==> Compare(s[i].name, s[j].name) < 0
  }

  lemma SortedPrefix(s: seq<Name>, n: nat)
    requires SortedNames(s) && n <= |s|
    ensures SortedNames(s[..n])
  {
    var t := s[..n];
    forall i, j ensures InOrder(t, i, j) {
      assert InOrder(s, i, j);
    }
  }

  /** The handle a name stands for, or 0. */
  function Lookup(s: seq<Name>, n: Bytes): int {
    if s == [] then 0 else if s[|s| - 1].name == n then s[|s| - 1].handle else Lookup(s[..|s| - 1], n)
  }

  lemma {:induction false} LookupFound(s: seq<Name>, i: nat)
    requires SortedNames(s) && i < |s|
    ensures Lookup(s, s[i].name) == s[i].handle
  {
    if i < |s| - 1 {
      CompareEqual(s[i].name, s[|s| - 1].name);
      assert InOrder(s, i, |s| - 1);
      SortedPrefix(s, |s| - 1);
      LookupFound(s[..|s| - 1], i);
    }
  }

  lemma {:induction false} LookupMissing(s: seq<Name>, n: Bytes)
    requires forall i :: 0 <= i < |s| ==> s[i].name != n
    ensures Lookup(s, n) == 0
  {
    if s != [] {
      LookupMissing(s[..|s| - 1], n);
    }
  }

  function WithName(s: seq<Name>, p: int, x: Name): seq<Name>
    requires 0 <= p <= |s|
  {
    s[..p] + [x] + s[p..]
  }

  /** A name put where the search ended keeps the array sorted, and is found; the others still mean what they meant. */
  lemma WithNameSorted(s: seq<Name>, p: int, x: Name)
    requires SortedNames(s) && 0 <= p <= |s|
    requires (forall i :: 0 <= i < p ==> Compare(s[i].name, x.name) < 0) && forall i :: p <= i < |s| ==> Compare(s[i].name, x.name) > 0
    ensures SortedNames(WithName(s, p, x))
    ensures forall n :: Lookup(WithName(s, p, x), n) == if n == x.name then x.handle else Lookup(s, n)
  {
    var t := WithName(s, p, x);
    forall i, j ensures InOrder(t, i, j) {
      if 0 <= i < j < |t| {
        WithNameOrdered(s, p, x, i, j);
      }
    }
    forall n ensures Lookup(t, n) == if n == x.name then x.handle else Lookup(s, n) {
      LookupWith(s, p, x, n);
    }
  }

  lemma WithNameAt(s: seq<Name>, p: int, x: Name, i: int)
    requires 0 <= p <= |s| && 0 <= i <= |s|
    ensures WithName(s, p, x)[i] == if i < p then s[i] else if i == p then x else s[i - 1]
  {
  }

  lemma WithNameOrdered(s: seq<Name>, p: int, x: Name, i: int, j: int)
    requires SortedNames(s) && 0 <= p <= |s| && 0 <= i < j <= |s|
    requires (forall i :: 0 <= i < p ==> Compare(s[i].name, x.name) < 0) && forall i :: p <= i < |s| ==> Compare(s[i].name, x.name) > 0
    ensures InOrder(WithName(s, p, x), i, j)
  {
    WithNameAt(s, p, x, i);
    WithNameAt(s, p, x, j);
    if i == p {
      CompareFlips(x.name, s[j - 1].name);
    } else if j != p {
      assert InOrder(s, if i < p then i else i - 1, if j < p then j else j - 1);
    }
  }

  lemma LookupWith(s: seq<Name>, p: int, x: Name, n: Bytes)
    requires SortedNames(s) && 0 <= p <= |s| && SortedNames(WithName(s, p, x))
    ensures Lookup(WithName(s, p, x), n) == if n == x.name then x.handle else Lookup(s, n)
  {
    var t := WithName(s, p, x);
    WithNameAt(s, p, x, p);
    if n == x.name {
      LookupFound(t, p);
    } else if exists i :: 0 <= i < |s| && s[i].name == n {
      var i :| 0 <= i < |s| && s[i].name == n;
      LookupFound(s, i);
      WithNameAt(s, p, x, if i < p then i else i + 1);
      LookupFound(t, if i < p then i else i + 1);
    } else {
      forall i | 0 <= i < |t| ensures t[i].name != n {
        WithNameAt(s, p, x, i);
      }
      LookupMissing(s, n);
      LookupMissing(t, n);
    }
  }

  function Without(s: seq<Name>, handle: int): seq<Name> {
    if s == [] then [] else
      Without(s[..|s| - 1], handle) + if s[|s| - 1].handle == handle then [] else [s[|s| - 1]]
  }

  /** Dropping a handle's names leaves the others as they were. */
  lemma {:induction false} WithoutIs(s: seq<Name>, handle: int)
    ensures |Without(s, handle)| <= |s|
    ensures forall x :: x in Without(s, handle) <==> x in s && x.handle != handle
  {
    if s != [] {
      WithoutIs(s[..|s| - 1], handle);
    }
  }

  lemma {:induction false} WithoutSorted(s: seq<Name>, handle: int)
    requires SortedNames(s)
    ensures SortedNames(Without(s, handle))
  {
    if s != [] {
      var t, x := s[..|s| - 1], s[|s| - 1];
      SortedPrefix(s, |s| - 1);
      WithoutSorted(t, handle);
      WithoutIs(t, handle);
      var u, v := Without(t, handle), Without(s, handle);
      forall i, j ensures InOrder(v, i, j) {
        assert InOrder(u, i, j);
        if 0 <= i < j == |u| && j < |v| {
          assert u[i] in t;
          var k :| 0 <= k < |t| && t[k] == u[i];
          assert InOrder(s, k, |s| - 1);
        }
      }
    }
  }

  lemma LookupWithout(s: seq<Name>, handle: int, n: Bytes)
    requires SortedNames(s) && handle != 0
    ensures Lookup(Without(s, handle), n) == if Lookup(s, n) == handle then 0 else Lookup(s, n)
  {
    var t := Without(s, handle);
    WithoutSorted(s, handle);
    WithoutIs(s, handle);
    if exists i :: 0 <= i < |s| && s[i].name == n {
      var i :| 0 <= i < |s| && s[i].name == n;
      LookupFound(s, i);
      if s[i].handle == handle {
        forall j | 0 <= j < |t| ensures t[j].name != n {
          assert t[j] in s;
          var k :| 0 <= k < |s| && s[k] == t[j];
          LookupFound(s, k);
        }
        LookupMissing(t, n);
      } else {
        assert s[i] in t;
        var j :| 0 <= j < |t| && t[j] == s[i];
        LookupFound(t, j);
      }
    } else {
      LookupMissing(s, n);
      forall j | 0 <= j < |t| ensures t[j].name != n {
        assert t[j] in s;
      }
      LookupMissing(t, n);
    }
  }

  class NameTable {
    var name: array<Name>
    var count: int

    ghost predicate Valid()
      reads this, name
    {
      0 <= count <= name.Length && 2 <= name.Length && SortedNames(name[..count])
    }

    ghost function Names(): seq<Name>
      reads this, name
      requires 0 <= count <= name.Length
    {
      name[..count]
    }

    constructor ()
      ensures Valid() && Names() == [] && fresh(name)
    {
      name := new Name[2](_ => Name([], 0));
      count := 0;
    }

    /** The binary search that finding and inserting share: the place of a name, or where it would go. */
    method Search(n: Bytes) returns (p: int, found: bool)
      requires Valid()
      ensures 0 <= p <= count && (found ==> p < count && Names()[p].name == n)
      ensures !found ==> (forall i :: 0 <= i < p ==> Compare(Names()[i].name, n) < 0) && forall i :: p <= i < count ==> Compare(Names()[i].name, n) > 0
    {
      var begin, end := 0, count - 1;
      ghost var s := Names();
      while begin <= end
        invariant 0 <= begin <= end + 1 <= count
        invariant forall i :: 0 <= i < begin ==> Compare(s[i].name, n) < 0
        invariant forall i :: end < i < count ==> Compare(s[i].name, n) > 0
      {
        var mid := (begin + end) / 2;
        var c := Compare(name[mid].name, n);
        CompareEqual(name[mid].name, n);
        assert s[mid] == name[mid];
        if c == 0 {
          return mid, true;
        }
        if c < 0 {
          BelowToo(s, mid, n);
          begin := mid + 1;
        } else {
          AboveToo(s, mid, n);
          end := mid - 1;
        }
      }
      p, found := begin, false;
    }

    /** skynet_handle_findname. */
    method FindName(n: Bytes) returns (handle: int)
      requires Valid()
      ensures handle == Lookup(Names(), n)
    {
      var p, found := Search(n);
      if found {
        LookupFound(Names(), p);
        return name[p].handle;
      }
      forall i | 0 <= i < count ensures Names()[i].name != n {
        CompareEqual(Names()[i].name, n);
      }
      LookupMissing(Names(), n);
      return 0;
    }

    /** The branch of _insert_name_before without room: a new array of twice the size. */
    method Widen(before: int)
      requires 0 <= before <= count == name.Length && 1 <= name.Length && 2 * name.Length <= MAX_SLOT_SIZE
      modifies this`name
      ensures fresh(name) && name.Length == 2 * old(name.Length)
      ensures name[..before] == old(name[..before]) && name[before + 1..count + 1] == old(name[before..])
    {
      var t := new Name[name.Length * 2](_ => Name([], 0));
      var i := 0;
      while i < before
        invariant 0 <= i <= before && t[..i] == name[..i]
        modifies t
      {
        t[i] := name[i];
        i := i + 1;
      }
      i := before;
      while i < count
        invariant before <= i <= count && t[..before] == name[..before] && t[before + 1..i + 1] == name[before..i]
        modifies t
      {
        t[i + 1] := name[i];
        i := i + 1;
      }
      assert name[before..count] == name[before..];
      name := t;
    }

    /** The other branch: the names behind move up by one. */
    method MoveUp(before: int)
      requires 0 <= before <= count < name.Length
      modifies name
      ensures name[..before] == old(name[..before]) && name[before + 1..count + 1] == old(name[before..count])
    {
      ghost var s := name[..count];
      var i := count;
      while i > before
        invariant before <= i <= count
        invariant (forall j :: 0 <= j < i ==> name[j] == s[j]) && forall j :: i < j <= count ==> name[j] == s[j - 1]
      {
        name[i] := name[i - 1];
        i := i - 1;
      }
    }

    /** _insert_name_before. */
    method InsertBefore(n: Bytes, handle: int, before: int)
      requires 0 <= count <= name.Length && 1 <= name.Length && 0 <= before <= count
      requires count == name.Length ==> 2 * name.Length <= MAX_SLOT_SIZE
      modifies this, name
      ensures 0 <= count <= name.Length && Names() == WithName(old(Names()), before, Name(n, handle))
      ensures name == old(name) || fresh(name)
      ensures name.Length >= old(name.Length)
    {
      ghost var s := Names();
      assert s[..before] == name[..before] && s[before..] == name[before..count];
      if count >= name.Length {
        Widen(before);
      } else {
        MoveUp(before);
      }
      name[before] := Name(n, handle);
      count := count + 1;
      assert name[..count] == name[..before] + [name[before]] + name[before + 1..count];
    }

    /** _insert_name: refused if the name is taken. */
    method Insert(n: Bytes, handle: int) returns (ok: bool)
      requires Valid() && (count == name.Length ==> 2 * name.Length <= MAX_SLOT_SIZE)
      modifies this, name
      ensures Valid() && (name == old(name) || fresh(name))
      ensures ok == forall i :: 0 <= i < old(count) ==> old(Names())[i].name != n
      ensures !ok ==> Names() == old(Names())
      ensures ok ==> forall m :: Lookup(Names(), m) == if m == n then handle else Lookup(old(Names()), m)
    {
      var p, found := Search(n);
      if found {
        return false;
      }
      forall i | 0 <= i < count ensures Names()[i].name != n {
        CompareEqual(Names()[i].name, n);
      }
      WithNameSorted(Names(), p, Name(n, handle));
      InsertBefore(n, handle, p);
      ok := true;
    }

    /** The loop of skynet_handle_retire over the names. */
    method Compact(handle: int) returns (j: int)
      requires 0 <= count <= name.Length
      modifies name
      ensures 0 <= j <= count && name[..j] == Without(old(name[..count]), handle)
    {
      ghost var s, kept := name[..count], [];
      var i, n := 0, count;
      j := 0;
      while i < n
        invariant 0 <= j <= i <= n && name[..j] == kept && kept == Without(s[..i], handle) && name[i..n] == s[i..]
      {
        assert s[..i + 1][..i] == s[..i] && s[..i + 1][i] == s[i] && name[i] == name[i..n][0] == s[i..][0];
        ghost var rest := name[i + 1..n];
        assert rest == s[i + 1..];
        if name[i].handle != handle {
          kept := kept + [name[i]];
          if i != j {
            name[j] := name[i];
          }
          j := j + 1;
        }
        i := i + 1;
      }
      assert s[..n] == s;
    }

    method Remove(handle: int)
      requires Valid()
      modifies this`count, name
      ensures Valid() && Names() == Without(old(Names()), handle)
    {
      WithoutSorted(Names(), handle);
      count := Compact(handle);
    }
  }

  lemma BelowToo(s: seq<Name>, m: int, n: Bytes)
    requires SortedNames(s) && 0 <= m < |s| && Compare(s[m].name, n) < 0
    ensures forall i :: 0 <= i <= m ==> Compare(s[i].name, n) < 0
  {
    forall i | 0 <= i < m ensures Compare(s[i].name, n) < 0 {
      assert InOrder(s, i, m);
      CompareTransitive(s[i].name, s[m].name, n);
    }
  }

  lemma AboveToo(s: seq<Name>, m: int, n: Bytes)
    requires SortedNames(s) && 0 <= m < |s| && Compare(s[m].name, n) > 0
    ensures forall i :: m <= i < |s| ==> Compare(s[i].name, n) > 0
  {
    forall i | m < i < |s| ensures Compare(s[i].name, n) > 0 {
      assert InOrder(s, m, i);
      CompareFlips(n, s[m].name);
      CompareTransitive(n, s[m].name, s[i].name);
      CompareFlips(n, s[i].name);
    }
  }

  lemma OneLess(l: map<int, int>, h: int)
    requires h in l
    ensures |l - {h}| == |l| - 1
  {
    assert l.Keys == (l - {h}).Keys + {h};
  }

  class Storage {
    var slot: array<Option<Entry>>
    const harbor: int
    var handleIndex: int
    /** The contexts that have a handle, by handle. */
    ghost var live: map<int, int>

    const names: NameTable

    ghost predicate Valid()
      reads this, slot, names, names.name
    {
      names.Valid() && SlotsValid()
    }

    ghost predicate SlotsValid()
      reads this, slot
    {
      && SlotSize(slot.Length) && slot.Length >= 4 && harbor >= 0 && harbor % REMOTE == 0 && 1 <= handleIndex <= REMOTE
      && Slotted(slot[..], live, harbor)
    }

    /** skynet_handle_init. */
    constructor (harbor: int)
      requires 0 <= harbor < 256
      ensures Valid() && live == map[] && handleIndex == 1 && slot.Length == 4 && fresh(slot) && fresh(names) && fresh(names.name)
      ensures this.harbor == harbor * REMOTE && forall r :: 0 <= r < slot.Length ==> slot[r].None?
    {
      names := new NameTable();
      this.harbor := harbor * REMOTE;
      handleIndex := 1;
      slot := new Option<Entry>[4](_ => None);
      live := map[];
      new;
      assert Pow(2, 2) == 4;
    }

    /** The slots a pass from the current index looks at. */
    ghost predicate Looked(r: int)
      reads this, slot
    {
      0 <= r < slot.Length && (r != 0 || ZeroLooked(handleIndex, slot.Length))
    }

    /** A pass from the current index meets no empty slot. */
    ghost predicate PassFails()
      reads this, slot
      requires slot.Length > 0 && 1 <= handleIndex
    {
      forall j :: 0 <= j < slot.Length ==> slot[HandleAt(handleIndex, j) % slot.Length].Some?
    }

    lemma PassFailsIs()
      requires SlotsValid()
      ensures PassFails() <==> forall r :: Looked(r) ==> slot[r].Some?
    {
      var n := slot.Length;
      if PassFails() {
        forall r | Looked(r) ensures slot[r].Some? {
          var j := PassLooks(handleIndex, n, r);
        }
      } else {
        var j :| 0 <= j < n && slot[HandleAt(handleIndex, j) % n].None?;
        PassLooksAt(handleIndex, n, HandleAt(handleIndex, j) % n);
        assert Looked(HandleAt(handleIndex, j) % n);
      }
    }

    /** The one free slot is slot 0, and the pass is one that does not look at it. */
    ghost predicate Overlooked()
      reads this, slot
      requires slot.Length > 0
    {
      slot[0].None? && !ZeroLooked(handleIndex, slot.Length) && forall r :: 0 < r < slot.Length ==> slot[r].Some?
    }

    /** A pass finds nothing although a slot is free exactly if the one free slot is overlooked. */
    lemma PassMisses()
      requires SlotsValid()
      ensures PassFails() && (exists r :: 0 <= r < slot.Length && slot[r].None?) <==> Overlooked()
    {
      PassFailsIs();
      if PassFails() {
        assert forall r :: 0 < r < slot.Length ==> Looked(r);
        assert ZeroLooked(handleIndex, slot.Length) ==> Looked(0);
      }
    }

    /** With all 2^24 - 1 handles in use the free slot is slot 0, so a table that is full may double. */
    lemma FullMayDouble()
      requires SlotsValid() && forall r :: 0 <= r < slot.Length ==> slot[r].Some?
      ensures slot.Length <= 0x80_0000
    {
      SlotSizeDivides(slot.Length);
      assert SlotOK(slot[..], live, harbor, 0);
      var low := slot[0].value.handle - harbor;
      HarborMasked(harbor, low, slot.Length);
      MultipleNotLess(low, slot.Length);
    }

    /** One pass over the handles that come next; 0 if it finds no empty slot. */
    method FindSlot() returns (handle: int)
      requires SlotsValid()
      ensures handle != 0 ==> 1 <= handle <= HANDLE_MASK && slot[handle % slot.Length].None?
      ensures handle == 0 <==> PassFails()
      ensures handle != 0 ==> exists i :: 0 <= i < slot.Length && handle == HandleAt(handleIndex, i)
                                          && forall j :: 0 <= j < i ==> slot[HandleAt(handleIndex, j) % slot.Length].Some?
    {
      hide Slotted, SlotSize, HandleAt;
      handle := handleIndex;
      ghost var n := slot.Length;
      HandleStart(handleIndex);
      var i := 0;
      while i < slot.Length
        invariant 0 <= i <= n
        invariant handle == HandleAt(handleIndex, i) || (handle == REMOTE && HandleAt(handleIndex, i) == 1)
        invariant forall j :: 0 <= j < i ==> slot[HandleAt(handleIndex, j) % n].Some?
      {
        if handle > HANDLE_MASK {
          handle := 1;
        }
        if slot[handle % slot.Length].None? {
          return;
        }
        HandleStep(handleIndex, i);
        i := i + 1;
        handle := handle + 1;
      }
      handle := 0;
    }

    /** The slots doubled. It fails at the assertion, or where it takes the handle of an empty slot. */
    method Grow() returns (ok: bool)
      requires SlotsValid()
      modifies this`slot
      ensures ok <==> old(slot.Length) <= 0x80_0000 && forall r :: 0 <= r < old(slot.Length) ==> old(slot[r]).Some?
      ensures ok ==> SlotsValid() && fresh(slot) && slot.Length == 2 * old(slot.Length)
      ensures ok ==> slot[1].None? || slot[1 + old(slot.Length)].None?
      ensures !ok ==> slot == old(slot)
    {
      hide LiveOK, SlotOK, SlotSize, Slotted, Doubling;
      ghost var a := slot[..];
      var n := slot.Length;
      if n * 2 - 1 > HANDLE_MASK {
        return false;
      }
      var newSlot := new Option<Entry>[n * 2](_ => None);
      DoublingNone(a, newSlot[..]);
      var i := 0;
      while i < n
        invariant 0 <= i <= n && Doubling(a, newSlot[..], i) && slot[..] == a && slot.Length == n
        invariant forall r :: 0 <= r < i ==> a[r].Some?
        modifies newSlot
      {
        assert a[i] == slot[i];
        if slot[i].None? {
          return false;
        }
        SlotHolds(a, live, harbor, i);
        ghost var b := newSlot[..];
        DoublingStep(a, b, i);
        var hash := slot[i].value.handle % (n * 2);
        assert newSlot[hash].None?;
        newSlot[hash] := slot[i];
        assert newSlot[..] == b[hash := a[i]];
        i := i + 1;
      }
      SlotSizeDivides(n);
      DoublingDone(a, newSlot[..], live, harbor);
      HalfEmpty(a, newSlot[..]);
      slot := newSlot;
      ok := true;
    }

    /**
      skynet_handle_register. When a pass finds nothing the table grows, which needs every slot taken:
      so it is, unless the free slot is overlooked, and only then there is no handle.
     */
    method Register(ctx: int) returns (handle: Option<int>)
      requires SlotsValid()
      modifies this, slot
      ensures handle.None? <==> old(Overlooked())
      ensures handle.None? ==> unchanged(this) && unchanged(slot)
      ensures handle.Some? ==> SlotsValid() && handle.value !in old(live) && live == old(live)[handle.value := ctx]
      ensures handle.Some? ==> harbor < handle.value <= harbor + HANDLE_MASK && handleIndex == handle.value - harbor + 1
      ensures handle.Some? ==> slot == old(slot) || (fresh(slot) && slot.Length == 2 * old(slot.Length))
      ensures handle.Some? && slot == old(slot) ==> slot[..] == old(slot[..])[handle.value % slot.Length := Some(Entry(ctx, handle.value))]
      ensures slot != old(slot) ==> forall r :: 0 <= r < old(slot.Length) ==> old(slot[r]).Some?
      ensures old(slot[HandleAt(handleIndex, 0) % slot.Length]).None? ==> handle == Some(harbor + HandleAt(old(handleIndex), 0)) && slot == old(slot)
      // the first free one of the pass, in the table as it was or as it was doubled
      ensures handle.Some? ==> exists i :: 0 <= i < slot.Length && handle.value == harbor + HandleAt(old(handleIndex), i)
                                           && forall j :: 0 <= j < i ==> TakenBefore(slot[..], HandleAt(old(handleIndex), j), handle.value)
    {
      hide Slotted, SlotSize, HandleAt, Overlooked, PassFails, TakenBefore;
      FailsMeans();
      ghost var index := handleIndex;
      var low := FindSlot();
      if low == 0 {
        var ok := Grow();
        if !ok {
          return None;
        }
        RoomMeans();
        low := FindSlot();
      }
      ghost var a := slot[..];
      ghost var i :| 0 <= i < slot.Length && low == HandleAt(index, i)
                     && forall j :: 0 <= j < i ==> a[HandleAt(index, j) % slot.Length].Some?;
      handle := Take(ctx, low);
      forall j | 0 <= j < i ensures TakenBefore(slot[..], HandleAt(index, j), handle.value) {
        TakenStays(a, harbor, ctx, low, HandleAt(index, j));
      }
    }

    /** Another context has the slot of this handle. */
    static ghost predicate TakenBefore(a: seq<Option<Entry>>, low: int, handle: int) {
      |a| > 0 && a[low % |a|].Some? && low % |a| != handle % |a|
    }

    static lemma TakenStays(a: seq<Option<Entry>>, harbor: int, ctx: int, low: int, j: int)
      requires SlotSize(|a|) && harbor % REMOTE == 0 && |a| > 0 && a[low % |a|].None? && a[j % |a|].Some?
      ensures TakenBefore(a[(harbor + low) % |a| := Some(Entry(ctx, harbor + low))], j, harbor + low)
    {
      HarborMasked(harbor, low, |a|);
    }

    /** The context goes into the slot found for it. */
    method Take(ctx: int, low: int) returns (handle: Option<int>)
      requires SlotsValid() && 1 <= low <= HANDLE_MASK && slot[low % slot.Length].None?
      modifies this`live, this`handleIndex, slot
      ensures handle == Some(harbor + low) && handleIndex == low + 1
      ensures SlotsValid() && harbor + low !in old(live) && live == old(live)[harbor + low := ctx]
      ensures slot[..] == old(slot[..])[(harbor + low) % slot.Length := Some(Entry(ctx, harbor + low))]
    {
      HarborMasked(harbor, low, slot.Length);
      TakeSlot(slot[..], live, harbor, ctx, harbor + low);
      hide Slotted, SlotSize;
      ghost var s := slot[..];
      slot[low % slot.Length] := Some(Entry(ctx, harbor + low));
      assert slot[..] == s[low % slot.Length := Some(Entry(ctx, harbor + low))];
      live := live[harbor + low := ctx];
      handleIndex := low + 1;
      handle := Some(harbor + low);
    }

    /** When a pass fails the table may grow, unless the free slot is overlooked. When it succeeds, the first of it is taken. */
    lemma FailsMeans()
      requires SlotsValid()
      ensures PassFails() ==> (Overlooked() <==> !(slot.Length <= 0x80_0000 && forall r :: 0 <= r < slot.Length ==> slot[r].Some?))
      ensures !PassFails() ==> !Overlooked()
      ensures slot[HandleAt(handleIndex, 0) % slot.Length].None? ==> !PassFails()
    {
      PassMisses();
      if forall r :: 0 <= r < slot.Length ==> slot[r].Some? { FullMayDouble(); }
    }

    lemma RoomMeans()
      requires SlotsValid() && exists r :: 0 < r < slot.Length && slot[r].None?
      ensures !PassFails()
    {
      PassFailsIs();
      var r :| 0 < r < slot.Length && slot[r].None?;
      assert Looked(r);
    }

    /** skynet_handle_grab. */
    method Grab(handle: int) returns (ctx: Option<int>)
      requires SlotsValid() && handle >= 0
      ensures ctx == if handle in live then Some(live[handle]) else None
    {
      var h := handle % slot.Length;
      assert LiveOK(slot[..], live, handle) && SlotOK(slot[..], live, harbor, h);
      if slot[h].Some? && slot[h].value.handle == handle {
        return Some(slot[h].value.ctx);
      }
      return None;
    }

    /** skynet_handle_retire: the handle, if it is live, and every name it has. */
    method Retire(handle: int) returns (ctx: Option<int>)
      requires Valid() && handle > 0
      modifies this`live, slot, names`count, names.name
      ensures Valid() && ctx == (if handle in old(live) then Some(old(live[handle])) else None)
      ensures live == old(live) - {handle} && slot.Length == old(slot.Length)
      ensures slot[..] == if ctx.Some? then old(slot[..])[handle % slot.Length := None] else old(slot[..])
      ensures names.Names() == if ctx.Some? then Without(old(names.Names()), handle) else old(names.Names())
    {
      var h := handle % slot.Length;
      ghost var s := slot[..];
      assert LiveOK(s, live, handle) && SlotOK(s, live, harbor, h);
      if slot[h].Some? && slot[h].value.handle == handle {
        ctx := Some(slot[h].value.ctx);
        FreeSlot(s, live, harbor, handle);
        slot[h] := None;
        assert slot[..] == s[h := None];
        live := live - {handle};
        names.Remove(handle);
      } else {
        ctx := None;
      }
    }

    /** skynet_handle_retireall, when nothing is registered meanwhile: rounds until one finds nothing. */
    method RetireAll()
      requires Valid()
      modifies this`live, slot, names`count, names.name
      ensures Valid() && live == map[]
    {
      while true
        invariant Valid()
        decreases |live|
      {
        var n := RetireRound();
        if n == 0 {
          forall h ensures h !in live {
            assert LiveOK(slot[..], live, h);
          }
          return;
        }
      }
    }

    /** One round: afterwards every slot is empty. */
    method RetireRound() returns (n: int)
      requires Valid()
      modifies this`live, slot, names`count, names.name
      ensures Valid() && n >= 0 && |live| + n == old(|live|) && slot.Length == old(slot.Length)
      ensures forall r :: 0 <= r < slot.Length ==> slot[r].None?
    {
      hide SlotSize, LiveOK;
      n := 0;
      var i := 0;
      while i < slot.Length
        invariant Valid() && 0 <= i <= slot.Length && n >= 0 && |live| + n == old(|live|)
        invariant forall r :: 0 <= r < i ==> slot[r].None?
        invariant names.name == old(names.name)
      {
        if slot[i].Some? {
          assert SlotOK(slot[..], live, harbor, i);
          ghost var l, h := live, slot[i].value.handle;
          var ctx := Retire(slot[i].value.handle);
          OneLess(l, h);
          if ctx.Some? {
            n := n + 1;
          }
        }
        i := i + 1;
      }
    }
  }

  /** The next handle goes to the context, its slot being free. */
  lemma NextHandle(index: int, n: int)
    requires 1 <= index <= HANDLE_MASK && n > 0
    ensures HandleAt(index, 0) == index
  {
    HandleStart(index);
  }

  /** One context comes and goes: the index moves on and the table stays as it was. */
  method ComeAndGo(s: Storage)
    requires s.Valid() && s.harbor == 0 && s.handleIndex <= HANDLE_MASK && s.slot[s.handleIndex % s.slot.Length].None?
    modifies s, s.slot, s.names, s.names.name
    ensures s.Valid() && s.slot == old(s.slot) && s.slot[..] == old(s.slot[..]) && s.handleIndex == old(s.handleIndex) + 1
    ensures s.names.name == old(s.names.name)
  {
    ghost var index, a := s.handleIndex, s.slot[..];
    NextHandle(s.handleIndex, s.slot.Length);
    var h := s.Register(0);
    assert h == Some(index);
    var ctx := s.Retire(h.value);
    assert s.slot[..] == a[index % |a| := Some(Entry(0, index))][index % |a| := None] == a;
  }

  /** One context comes. */
  method Come(s: Storage, ctx: int)
    requires s.Valid() && s.harbor == 0 && s.handleIndex <= HANDLE_MASK && s.slot[s.handleIndex % s.slot.Length].None?
    modifies s, s.slot
    ensures s.Valid() && s.slot == old(s.slot) && s.handleIndex == old(s.handleIndex) + 1
    ensures s.slot[..] == old(s.slot[..])[old(s.handleIndex) % s.slot.Length := Some(Entry(ctx, old(s.handleIndex)))]
  {
    NextHandle(s.handleIndex, s.slot.Length);
    var h := s.Register(ctx);
  }

  /** Contexts come and go until the index is near the wrap, three stay, and the free slot is overlooked. */
  method SlotZeroMissed() returns (s: Storage)
    ensures s.Valid() && s.Overlooked() && s.handleIndex == HANDLE_MASK
    ensures s.slot[..] == [None, Some(Entry(7, 0xff_fffd)), Some(Entry(8, 0xff_fffe)), Some(Entry(9, 0xff_fffb))]
  {
    hide Slotted, SlotSize, SortedNames, HandleAt;
    s := new Storage(0);
    while s.handleIndex < 0xff_fffb
      invariant s.Valid() && fresh(s) && fresh(s.slot) && fresh(s.names) && fresh(s.names.name)
      invariant s.harbor == 0 && s.handleIndex <= 0xff_fffb && s.slot.Length == 4 && s.slot[..] == [None, None, None, None]
      decreases 0xff_fffb - s.handleIndex
    {
      ComeAndGo(s);
    }
    Come(s, 9);
    ComeAndGo(s);
    Come(s, 7);
    Come(s, 8);
  }
}
