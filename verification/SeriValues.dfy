/**
 * The values the serialiser is given (lua-seri.c): tables as Lua presents
 * them, which of them can be packed, and how their entries are ordered on the
 * wire.
 */
module SeriValues {
  import opened Common
  import opened SeriWire

  const MAX_DEPTH := 32

  // ---- Values as Lua holds them -------------------------------------------

  datatype Entry = Entry(key: Value, val: Value)

  /**
   * A Lua value. A table is its entries in the order `lua_next` visits them,
   * and the border that `lua_rawlen` reports. `Other` is a value of a type
   * that cannot be serialised.
   */
  datatype Value = Scalar(atom: Atom) | Table(entries: seq<Entry>, border: nat) | Other

  /** What a plain key reads as; nil when it is absent. */
  function Get(es: seq<Entry>, key: Value): (v: Value)
    ensures v == Scalar(Nil) || exists i :: 0 <= i < |es| && es[i] == Entry(key, v)
    ensures v == Scalar(Nil) <== forall i :: 0 <= i < |es| ==> es[i].key != key
  {
    if es == [] then Scalar(Nil)
    else if es[0].key == key then
      assert es[0] == Entry(key, es[0].val);
      es[0].val
    else
      var v := Get(es[1..], key);
      assert v != Scalar(Nil) ==> exists i :: 0 <= i < |es[1..]| && es[1..][i] == Entry(key, v) && es[i + 1] == Entry(key, v);
      assert (forall i :: 0 <= i < |es| ==> es[i].key != key) ==> forall i :: 0 <= i < |es[1..]| ==> es[1..][i].key != key;
      v
  }

  function At(i: int): Value {
    Scalar(Integer(i))
  }

  predicate InSlots(key: Value, n: nat) {
    key.Scalar? && key.atom.Integer? && 1 <= key.atom.n <= n
  }

  /** What Lua itself guarantees of a value. */
  ghost predicate Sound(v: Value) {
    match v
    case Scalar(a) => AtomOk(a)
    case Other => true
    case Table(es, n) =>
      && n < INT_LIMIT
      && (n > 0 ==> Get(es, At(n)) != Scalar(Nil))
      && (forall i :: 0 <= i < |es| ==> EntrySound(es[i]))
      && (forall i, j :: 0 <= i < j < |es| && es[i].key == es[j].key ==> es[i].key.Table?)
  }

  ghost predicate EntrySound(e: Entry) {
    && Sound(e.key) && Sound(e.val)
    && e.key != Scalar(Nil) && e.val != Scalar(Nil)
    && (e.key.Scalar? && e.key.atom.Real? ==> !IsNaN(e.key.atom.bits) && AsInteger(e.key.atom.bits).None?)
  }

  /** Whether `v`, met at table depth `depth`, can be packed. */
  ghost predicate Fits(v: Value, depth: nat) {
    && depth <= MAX_DEPTH
    && !v.Other?
    && (v.Table? ==> forall i :: 0 <= i < |v.entries| ==> EntryFits(v.entries[i], depth + 1))
  }

  ghost predicate EntryFits(e: Entry, depth: nat) {
    Fits(e.key, depth) && Fits(e.val, depth)
  }

  function Max(a: nat, b: nat): nat {
    if a < b then b else a
  }

  /** How many tables the most deeply nested value inside `v` is inside of. */
  function Depth(v: Value): nat {
    match v
    case Table(es, _) => if es == [] then 0 else 1 + DepthAll(es)
    case _ => 0
  }

  function DepthAll(es: seq<Entry>): nat {
    if es == [] then 0 else Max(DepthEntry(es[0]), DepthAll(es[1..]))
  }

  function DepthEntry(e: Entry): nat {
    Max(Depth(e.key), Depth(e.val))
  }

  ghost predicate Supported(v: Value) {
    match v
    case Table(es, _) => forall i :: 0 <= i < |es| ==> EntrySupported(es[i])
    case Other => false
    case _ => true
  }

  ghost predicate EntrySupported(e: Entry) {
    Supported(e.key) && Supported(e.val)
  }

  /** A value can be packed exactly when nothing in it is of another type and it nests at most 32 deep. */
  lemma {:induction false} FitsIsDepth(v: Value, depth: nat)
    ensures Fits(v, depth) <==> Supported(v) && depth + Depth(v) <= MAX_DEPTH
    decreases v, 0
  {
    if v.Table? && v.entries != [] {
      EntriesFit(v.entries, depth + 1);
    }
  }

  lemma {:induction false} EntriesFit(es: seq<Entry>, depth: nat)
    ensures (forall i :: 0 <= i < |es| ==> EntryFits(es[i], depth))
            <==> (forall i :: 0 <= i < |es| ==> EntrySupported(es[i])) && (es == [] || depth + DepthAll(es) <= MAX_DEPTH)
    decreases es, 1
  {
    if es != [] {
      EntryFitsIs(es[0], depth);
      EntriesFit(es[1..], depth);
      var rest := es[1..];
      assert forall i :: 0 < i < |es| ==> es[i] == rest[i - 1];
      assert forall i :: 0 <= i < |rest| ==> rest[i] == es[i + 1];
    }
  }

  lemma {:induction false} EntryFitsIs(e: Entry, depth: nat)
    ensures EntryFits(e, depth) <==> EntrySupported(e) && depth + DepthEntry(e) <= MAX_DEPTH
    decreases e, 0
  {
    FitsIsDepth(e.key, depth);
    FitsIsDepth(e.val, depth);
  }

  // ---- How a table lies on the wire ---------------------------------------

  /** The slots 1..n of a table, holes as nil. */
  function Slots(es: seq<Entry>, n: nat): (r: seq<Value>)
    ensures |r| == n && forall i :: 0 <= i < n ==> r[i] == Get(es, At(i + 1))
  {
    seq(n, i requires 0 <= i < n => Get(es, At(i + 1)))
  }

  /** The entries that are not in the slots 1..n, in their order. */
  function Outer(es: seq<Entry>, n: nat): seq<Entry> {
    if es == [] then [] else (if InSlots(es[0].key, n) then [] else [es[0]]) + Outer(es[1..], n)
  }

  function View(v: Value): Item
    requires Supported(v)
  {
    match v
    case Scalar(a) => One(a)
    case Table(es, n) => Arranged(ViewAll(es), n)
  }

  function ViewAll(es: seq<Entry>): (r: seq<Pair>)
    requires forall i :: 0 <= i < |es| ==> EntrySupported(es[i])
    ensures |r| == |es| && forall i :: 0 <= i < |es| ==> r[i] == ViewEntry(es[i])
  {
    if es == [] then [] else [ViewEntry(es[0])] + ViewAll(es[1..])
  }

  function ViewEntry(e: Entry): Pair
    requires EntrySupported(e)
  {
    Pair(View(e.key), View(e.val))
  }

  function Read(ps: seq<Pair>, key: Item): Item {
    match IndexOf(ps, key)
    case None => One(Nil)
    case Some(i) => ps[i].val
  }

  predicate SlotKey(key: Item, n: nat) {
    key.One? && key.atom.Integer? && 1 <= key.atom.n <= n
  }

  function Outside(ps: seq<Pair>, n: nat): seq<Pair> {
    if ps == [] then [] else Unless(ps[0], n) + Outside(ps[1..], n)
  }

  function Key(i: int): Item {
    One(Integer(i))
  }

  /** Entries put in the order they are written: the slots first, then the others. */
  function Arranged(ps: seq<Pair>, n: nat): Item {
    Many(seq(n, i requires 0 <= i < n => Read(ps, Key(i + 1))), Outside(ps, n))
  }

  /** The entries of an arranged table. */
  function EntriesOf(slots: seq<Item>): seq<Pair> {
    if slots == [] then []
    else
      var i := |slots|;
      EntriesOf(slots[..i - 1]) + (if slots[i - 1] == One(Nil) then [] else [Pair(Key(i), slots[i - 1])])
  }

  /** The one entry, if any, at slot `i`. */
  function EntryAt(ps: seq<Pair>, i: int): seq<Pair> {
    var v := Read(ps, Key(i));
    if v == One(Nil) then [] else [Pair(Key(i), v)]
  }

  function Unless(p: Pair, n: nat): seq<Pair> {
    if SlotKey(p.key, n) then [] else [p]
  }

  lemma HeadStep(ps: seq<Pair>, n: nat)
    requires ps != [] && KeysApart(ps) && ps[0].val != One(Nil)
    ensures multiset(Unless(ps[0], n)) + multiset(EntryAt(ps[1..], n + 1))
            == multiset(EntryAt(ps, n + 1)) + multiset(Unless(ps[0], n + 1))
  {
    var rest := ps[1..];
    var i := n + 1;
    if ps[0].key == Key(i) {
      forall k | 0 <= k < |rest| ensures rest[k].key != Key(i) {
        assert rest[k] == ps[k + 1];
      }
      assert EntryAt(rest, i) == [] && EntryAt(ps, i) == [ps[0]];
    } else {
      assert EntryAt(ps, i) == EntryAt(rest, i);
      assert Unless(ps[0], n) == Unless(ps[0], i);
    }
  }

  lemma {:induction false} OutsideStep(ps: seq<Pair>, n: nat)
    requires KeysApart(ps) && forall i :: 0 <= i < |ps| ==> ps[i].val != One(Nil)
    ensures multiset(Outside(ps, n)) == multiset(EntryAt(ps, n + 1)) + multiset(Outside(ps, n + 1))
  {
    if ps != [] {
      hide IndexOf, SlotKey;
      var rest := ps[1..];
      assert forall i :: 0 <= i < |rest| ==> rest[i] == ps[i + 1];
      OutsideStep(rest, n);
      var i := n + 1;
      HeadStep(ps, n);
      BagSum(Unless(ps[0], n), Outside(rest, n));
      BagSum(Unless(ps[0], i), Outside(rest, i));
      BagSwap(multiset(Unless(ps[0], n)), multiset(EntryAt(rest, i)), multiset(EntryAt(ps, i)),
              multiset(Unless(ps[0], i)), multiset(Outside(rest, i)));
    }
  }

  lemma BagSum<T>(a: seq<T>, b: seq<T>)
    ensures multiset(a + b) == multiset(a) + multiset(b)
  {
  }

  lemma BagSwap<T>(a: multiset<T>, b: multiset<T>, c: multiset<T>, d: multiset<T>, e: multiset<T>)
    requires a + b == c + d
    ensures a + (b + e) == c + (d + e)
  {
    assert a + (b + e) == (a + b) + e;
    assert c + (d + e) == (c + d) + e;
  }

  /** Arranging only moves entries: none is lost, none is made, none changes its key or value. */
  lemma {:induction false} ArrangedKeeps(ps: seq<Pair>, n: nat)
    requires KeysApart(ps) && forall i :: 0 <= i < |ps| ==> ps[i].val != One(Nil)
    ensures multiset(EntriesOf(Arranged(ps, n).slots)) + multiset(Arranged(ps, n).pairs) == multiset(ps)
  {
    if n == 0 {
      OutsideNone(ps);
    } else {
      ArrangedKeeps(ps, n - 1);
      OutsideStep(ps, n - 1);
      var slots := Arranged(ps, n).slots;
      assert slots[..n - 1] == Arranged(ps, n - 1).slots;
      assert EntriesOf(slots) == EntriesOf(slots[..n - 1]) + EntryAt(ps, n);
    }
  }

  lemma {:induction false} OutsideNone(ps: seq<Pair>)
    ensures Outside(ps, 0) == ps
  {
    if ps != [] {
      OutsideNone(ps[1..]);
    }
  }

  lemma {:induction false} OutsideHas(ps: seq<Pair>, n: nat)
    ensures forall j :: 0 <= j < |Outside(ps, n)| ==> Outside(ps, n)[j] in ps && !SlotKey(Outside(ps, n)[j].key, n)
    ensures KeysApart(ps) ==> KeysApart(Outside(ps, n))
  {
    if ps != [] {
      var rest := ps[1..];
      OutsideHas(rest, n);
      assert forall i :: 0 <= i < |rest| ==> rest[i] == ps[i + 1];
      if KeysApart(ps) {
        var out := Outside(ps, n);
        forall i, j | 0 <= i < j < |out| && out[i].key == out[j].key ensures out[i].key.Many? {
          if !SlotKey(ps[0].key, n) && i == 0 {
            assert out[j] == Outside(rest, n)[j - 1];
            var k :| 0 <= k < |rest| && rest[k] == out[j];
            assert ps[k + 1] == out[j];
          } else if !SlotKey(ps[0].key, n) {
            assert out[i] == Outside(rest, n)[i - 1] && out[j] == Outside(rest, n)[j - 1];
          }
        }
      }
    }
  }

  /** A key outside the slots can be held, and no entry holds nil. */
  lemma NoNil(e: Entry, n: nat)
    requires EntrySound(e) && EntrySupported(e)
    ensures ViewEntry(e).val != One(Nil)
    ensures !SlotKey(ViewEntry(e).key, n) ==> KeyOk(ViewEntry(e).key, n)
  {
    assert View(Scalar(Nil)) == One(Nil);
    if e.key.Scalar? {
      assert View(e.key) == One(e.key.atom);
    }
  }

  /** A sound table of supported values can be written. */
  lemma {:induction false} ViewPlain(v: Value)
    requires Sound(v) && Supported(v)
    ensures Plain(View(v))
    decreases v, 0
  {
    match v
    case Scalar(a) =>
    case Table(es, n) =>
      var ps := ViewAll(es);
      EntriesPlain(es);
      OutsideHas(ps, n);
      ViewApart(es);
      SlotsPlain(ps, n);
      OuterPlain(es, n);
  }

  lemma SlotsPlain(ps: seq<Pair>, n: nat)
    requires forall i :: 0 <= i < |ps| ==> Plain(ps[i].val)
    ensures forall i :: 0 <= i < n ==> Plain(Arranged(ps, n).slots[i])
  {
    var t := Arranged(ps, n);
    forall i | 0 <= i < n ensures Plain(t.slots[i]) {
      assert t.slots[i] == Read(ps, Key(i + 1));
    }
  }

  lemma OuterPlain(es: seq<Entry>, n: nat)
    requires forall i :: 0 <= i < |es| ==> EntrySound(es[i]) && EntrySupported(es[i])
    requires forall i :: 0 <= i < |es| ==> Plain(ViewAll(es)[i].key) && Plain(ViewAll(es)[i].val)
    ensures forall j :: 0 <= j < |Outside(ViewAll(es), n)| ==> PairPlain(Outside(ViewAll(es), n)[j], n)
  {
    var ps := ViewAll(es);
    OutsideHas(ps, n);
    forall j | 0 <= j < |Outside(ps, n)| ensures PairPlain(Outside(ps, n)[j], n) {
      var k :| 0 <= k < |ps| && ps[k] == Outside(ps, n)[j];
      NoNil(es[k], n);
    }
  }

  lemma {:induction false} EntriesPlain(es: seq<Entry>)
    requires forall i :: 0 <= i < |es| ==> EntrySound(es[i]) && EntrySupported(es[i])
    ensures forall i :: 0 <= i < |es| ==> Plain(ViewAll(es)[i].key) && Plain(ViewAll(es)[i].val)
    decreases es, 1
  {
    if es != [] {
      EntryPlain(es[0]);
      EntriesPlain(es[1..]);
    }
  }

  lemma {:induction false} EntryPlain(e: Entry)
    requires EntrySound(e) && EntrySupported(e)
    ensures Plain(ViewEntry(e).key) && Plain(ViewEntry(e).val)
    decreases e, 0
  {
    ViewPlain(e.key);
    ViewPlain(e.val);
  }

  lemma ViewScalar(v: Value, w: Value)
    requires Supported(v) && Supported(w) && View(v) == View(w)
    ensures v == w || (v.Table? && w.Table? && View(v).Many?)
  {
  }

  lemma ViewApart(es: seq<Entry>)
    requires forall i :: 0 <= i < |es| ==> EntrySupported(es[i])
    requires forall i, j :: 0 <= i < j < |es| && es[i].key == es[j].key ==> es[i].key.Table?
    ensures KeysApart(ViewAll(es))
  {
    var ps := ViewAll(es);
    forall i, j | 0 <= i < j < |ps| ensures ps[i].key == ps[j].key ==> ps[i].key.Many? {
      assert ps[i] == ViewEntry(es[i]) && ps[j] == ViewEntry(es[j]);
      if ps[i].key == ps[j].key {
        ViewScalar(es[i].key, es[j].key);
      }
    }
  }

  /** The written form of a table holds exactly the table's entries. */
  lemma ViewKeeps(es: seq<Entry>, n: nat)
    requires Sound(Table(es, n)) && Supported(Table(es, n))
    ensures var t := View(Table(es, n)); multiset(EntriesOf(t.slots)) + multiset(t.pairs) == multiset(ViewAll(es))
  {
    ViewApart(es);
    var ps := ViewAll(es);
    forall i | 0 <= i < |ps| ensures ps[i].val != One(Nil) {
      NoNil(es[i], n);
    }
    ArrangedKeeps(ps, n);
  }

  lemma KeyView(key: Value, i: int)
    requires Supported(key)
    ensures View(key) == Key(i) <==> key == At(i)
    ensures forall n :: SlotKey(View(key), n) <==> InSlots(key, n)
  {
    if key.Scalar? {
      assert View(key) == One(key.atom);
    } else {
      assert View(key).Many?;
    }
  }

  /** Slot `i` of the written form is what reading the table at `i` gives. */
  lemma {:induction false} ReadView(es: seq<Entry>, i: int)
    requires forall k :: 0 <= k < |es| ==> EntrySupported(es[k])
    ensures Supported(Get(es, At(i))) && Read(ViewAll(es), Key(i)) == View(Get(es, At(i)))
  {
    if es != [] {
      ReadView(es[1..], i);
      var ps := ViewAll(es);
      assert EntrySupported(es[0]) && ps[0] == ViewEntry(es[0]);
      assert ps[1..] == ViewAll(es[1..]);
      KeyView(es[0].key, i);
    }
  }

  lemma {:induction false} OuterView(es: seq<Entry>, n: nat)
    requires forall k :: 0 <= k < |es| ==> EntrySupported(es[k])
    ensures forall k :: 0 <= k < |Outer(es, n)| ==> EntrySupported(Outer(es, n)[k])
    ensures ViewAll(Outer(es, n)) == Outside(ViewAll(es), n)
  {
    if es != [] {
      OuterView(es[1..], n);
      assert EntrySupported(es[0]) && ViewAll(es)[0] == ViewEntry(es[0]);
      assert ViewAll(es)[1..] == ViewAll(es[1..]);
      KeyView(es[0].key, n);
    }
  }

  // ---- The bytes of a value -----------------------------------------------

  ghost predicate Packable(v: Value) {
    Sound(v) && Supported(v)
  }

  ghost predicate EntryPackable(e: Entry) {
    EntrySound(e) && EntrySupported(e)
  }

  function Views(vs: seq<Value>): (r: seq<Item>)
    requires forall i :: 0 <= i < |vs| ==> Supported(vs[i])
    ensures |r| == |vs| && forall i :: 0 <= i < |vs| ==> r[i] == View(vs[i])
  {
    seq(|vs|, i requires 0 <= i < |vs| => View(vs[i]))
  }

  function Wire(v: Value): Bytes
    requires Packable(v)
  {
    ViewPlain(v);
    Encode(View(v))
  }

  function WireAll(vs: seq<Value>): Bytes
    requires forall i :: 0 <= i < |vs| ==> Packable(vs[i])
  {
    if vs == [] then [] else Wire(vs[0]) + WireAll(vs[1..])
  }

  function WireEntry(e: Entry): Bytes
    requires EntryPackable(e)
  {
    Wire(e.key) + Wire(e.val)
  }

  function WireEntries(es: seq<Entry>): Bytes
    requires forall i :: 0 <= i < |es| ==> EntryPackable(es[i])
  {
    if es == [] then [] else WireEntry(es[0]) + WireEntries(es[1..])
  }

  lemma {:induction false} WireViews(vs: seq<Value>)
    requires forall i :: 0 <= i < |vs| ==> Packable(vs[i])
    ensures forall i :: 0 <= i < |vs| ==> Supported(vs[i])
    ensures forall i :: 0 <= i < |vs| ==> Plain(Views(vs)[i])
    ensures WireAll(vs) == EncodeAll(Views(vs))
  {
    if vs != [] {
      WireViews(vs[1..]);
      ViewPlain(vs[0]);
      assert Views(vs)[1..] == Views(vs[1..]);
      var xs := Views(vs);
      assert forall i :: 0 < i < |vs| ==> xs[i] == xs[1..][i - 1];
    }
  }

  lemma {:induction false} WirePairs(es: seq<Entry>, n: nat)
    requires forall i :: 0 <= i < |es| ==> EntryPackable(es[i]) && EntrySupported(es[i])
    requires forall i :: 0 <= i < |es| ==> PairPlain(ViewAll(es)[i], n)
    ensures WireEntries(es) == EncodePairs(ViewAll(es), n)
  {
    if es != [] {
      assert EntryPackable(es[0]) && PairPlain(ViewAll(es)[0], n);
      assert ViewAll(es)[1..] == ViewAll(es[1..]);
      WirePairs(es[1..], n);
    }
  }

  lemma {:induction false} OuterIn(es: seq<Entry>, n: nat)
    ensures forall j :: 0 <= j < |Outer(es, n)| ==> Outer(es, n)[j] in es && !InSlots(Outer(es, n)[j].key, n)
  {
    if es != [] {
      OuterIn(es[1..], n);
    }
  }

  lemma SlotsPackable(es: seq<Entry>, n: nat)
    requires forall i :: 0 <= i < |es| ==> EntryPackable(es[i])
    ensures forall i :: 0 <= i < n ==> Packable(Slots(es, n)[i])
  {
    forall i | 0 <= i < n ensures Packable(Slots(es, n)[i]) {
      var v := Get(es, At(i + 1));
      if v != Scalar(Nil) {
        var k :| 0 <= k < |es| && es[k] == Entry(At(i + 1), v);
        assert EntryPackable(es[k]);
      }
    }
  }

  lemma SlotsView(es: seq<Entry>, n: nat)
    requires Supported(Table(es, n)) && forall i :: 0 <= i < n ==> Supported(Slots(es, n)[i])
    ensures Views(Slots(es, n)) == View(Table(es, n)).slots
  {
    var xs, slots := Views(Slots(es, n)), View(Table(es, n)).slots;
    assert |xs| == |slots| == n;
    forall i | 0 <= i < n ensures xs[i] == slots[i] {
      ReadView(es, i + 1);
      assert slots[i] == Read(ViewAll(es), Key(i + 1));
      assert xs[i] == View(Slots(es, n)[i]);
    }
  }

  /** A table is written as its length, its slots, its other entries and a closing nil. */
  lemma TableWire(es: seq<Entry>, n: nat)
    requires Packable(Table(es, n))
    ensures forall i :: 0 <= i < n ==> Packable(Slots(es, n)[i])
    ensures forall i :: 0 <= i < |Outer(es, n)| ==> EntryPackable(Outer(es, n)[i])
    ensures Wire(Table(es, n)) == TableHead(n) + WireAll(Slots(es, n)) + WireEntries(Outer(es, n)) + [Tag(0, 0)]
  {
    assert forall i :: 0 <= i < |es| ==> EntryPackable(es[i]);
    SlotsPackable(es, n);
    OuterIn(es, n);
    var t := View(Table(es, n));
    ViewPlain(Table(es, n));
    WireViews(Slots(es, n));
    SlotsView(es, n);
    OuterView(es, n);
    WirePairs(Outer(es, n), n);
  }

  lemma {:induction false} WireAllMore(vs: seq<Value>, v: Value)
    requires Packable(v) && forall i :: 0 <= i < |vs| ==> Packable(vs[i])
    ensures forall i :: 0 <= i < |vs + [v]| ==> Packable((vs + [v])[i])
    ensures WireAll(vs + [v]) == WireAll(vs) + Wire(v)
  {
    hide Packable, Wire;
    if vs == [] {
      assert vs + [v] == [v];
    } else {
      WireAllMore(vs[1..], v);
      assert (vs + [v])[1..] == vs[1..] + [v];
      Assoc(Wire(vs[0]), WireAll(vs[1..]), Wire(v));
    }
  }

  lemma {:induction false} WireEntriesMore(es: seq<Entry>, e: Entry)
    requires EntryPackable(e) && forall i :: 0 <= i < |es| ==> EntryPackable(es[i])
    ensures forall i :: 0 <= i < |es + [e]| ==> EntryPackable((es + [e])[i])
    ensures WireEntries(es + [e]) == WireEntries(es) + WireEntry(e)
  {
    hide EntryPackable, WireEntry;
    if es == [] {
      assert es + [e] == [e];
    } else {
      WireEntriesMore(es[1..], e);
      assert (es + [e])[1..] == es[1..] + [e];
      Assoc(WireEntry(es[0]), WireEntries(es[1..]), WireEntry(e));
    }
  }

  lemma {:induction false} OuterMore(es: seq<Entry>, e: Entry, n: nat)
    ensures Outer(es + [e], n) == Outer(es, n) + if InSlots(e.key, n) then [] else [e]
  {
    if es != [] {
      OuterMore(es[1..], e, n);
      assert (es + [e])[1..] == es[1..] + [e];
    }
  }

  /** Reading a plain key that is present gives its entry's value. */
  lemma {:induction false} GetPresent(es: seq<Entry>, i: int)
    requires forall i, j :: 0 <= i < j < |es| && es[i].key == es[j].key ==> es[i].key.Table?
    requires 0 <= i < |es| && es[i].key.Scalar?
    ensures Get(es, es[i].key) == es[i].val
  {
    if i > 0 {
      assert es[0].key != es[i].key;
      var rest := es[1..];
      assert forall k :: 0 <= k < |rest| ==> rest[k] == es[k + 1];
      GetPresent(rest, i - 1);
    }
  }

  /** A table fits exactly when its slots and its other entries do. */
  lemma TableFits(es: seq<Entry>, n: nat, depth: nat)
    requires Sound(Table(es, n)) && depth <= MAX_DEPTH
    ensures Fits(Table(es, n), depth)
            <==> (forall i :: 0 <= i < n ==> Fits(Slots(es, n)[i], depth + 1))
                 && (forall i :: 0 <= i < |es| && !InSlots(es[i].key, n) ==> EntryFits(es[i], depth + 1))
  {
    var vs := Slots(es, n);
    if Fits(Table(es, n), depth) {
      forall i | 0 <= i < n ensures Fits(vs[i], depth + 1) {
        GetFits(es, n, i + 1, depth + 1);
      }
    } else if forall i :: 0 <= i < n ==> Fits(vs[i], depth + 1) {
      forall i | 0 <= i < |es| && InSlots(es[i].key, n) ensures EntryFits(es[i], depth + 1) {
        GetPresent(es, i);
        assert vs[es[i].key.atom.n - 1] == es[i].val;
      }
    }
  }

  lemma GetFits(es: seq<Entry>, n: nat, i: int, depth: nat)
    requires Sound(Table(es, n)) && 1 <= i <= n
    requires forall k :: 0 <= k < |es| ==> EntryFits(es[k], depth)
    ensures Fits(Get(es, At(i)), depth)
  {
    var last := Get(es, At(n));
    var k :| 0 <= k < |es| && es[k] == Entry(At(n), last);
    assert EntryFits(es[k], depth) && Fits(es[k].key, depth);
    var v := Get(es, At(i));
    if v != Scalar(Nil) {
      var m :| 0 <= m < |es| && es[m] == Entry(At(i), v);
      assert EntryFits(es[m], depth);
    }
  }
}
