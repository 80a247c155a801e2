/**
  The read-only tables that lua-sharedata.c builds: an array part, and a hash part with exactly as
  many slots as it has keys, filled in two passes and searched along chains of slot indices.
 */
module SharedTable {
  import opened Common

  datatype Key = IntKey(i: int) | StrKey(s: Bytes)

  datatype Value = Nil | Integer(d: int) | Real(n: real) | Str(s: Bytes) | Boolean(b: bool) | Tbl(id: int)

  datatype Node = Node(value: Value, key: Key, next: int, keyhash: int, nocolliding: bool)

  type Pairs = seq<(Key, Value)>

  // ---------------------------------------------------------------- hashing

  function HashFrom(s: Bytes, l: nat, step: nat, h: bv32): bv32
    requires l <= |s| && step >= 1
  {
    if l < step then h
    else HashFrom(s, l - step, step, h ^ ((h << 5) + (h >> 2) + (s[l - 1] as bv32)))
  }

  /** calchash. */
  function CalcHash(s: Bytes): bv32 {
    HashFrom(s, |s|, |s| / 32 + 1, (|s| % 0x1_0000_0000) as bv32)
  }

  function Hash(k: Key): (h: int)
    ensures h >= 0
  {
    match k
    case IntKey(i) => i % 0x1_0000_0000
    case StrKey(s) => CalcHash(s) as int
  }

  function Main(k: Key, size: int): (p: int)
    requires size > 0
    ensures 0 <= p < size
  {
    Hash(k) % size
  }

  // ---------------------------------------------------------------- what a Lua table holds

  predicate IsArray(k: Key, sizearray: int) {
    k.IntKey? && 0 < k.i <= sizearray
  }

  /** Integer keys are C ints. */
  predicate Fits(k: Key) {
    k.IntKey? ==> -0x8000_0000 <= k.i < 0x8000_0000
  }

  /** A key as it is asked for, its integer cut from 64 bits to a C int. */
  function CutKey(k: Key): (c: Key)
    ensures Fits(c) && (Fits(k) ==> c == k)
  {
    match k
    case StrKey(_) => k
    case IntKey(i) => IntKey(IntOf(i))
  }

  /** What lua_next walks over: each key once, and no key without a value. */
  ghost predicate Table(pairs: Pairs) {
    && (forall i, j :: 0 <= i < j < |pairs| ==> pairs[i].0 != pairs[j].0)
    && (forall i :: 0 <= i < |pairs| ==> pairs[i].1 != Nil)
  }

  function Get(pairs: Pairs, k: Key): Value {
    if pairs == [] then Nil
    else if pairs[|pairs| - 1].0 == k then pairs[|pairs| - 1].1
    else Get(pairs[..|pairs| - 1], k)
  }

  lemma {:induction false} GetIs(pairs: Pairs, i: nat)
    requires Table(pairs) && i < |pairs|
    ensures Get(pairs, pairs[i].0) == pairs[i].1
  {
    if i < |pairs| - 1 {
      GetIs(pairs[..|pairs| - 1], i);
    }
  }

  lemma {:induction false} GetNil(pairs: Pairs, k: Key)
    requires Table(pairs)
    ensures Get(pairs, k) == Nil <==> forall i :: 0 <= i < |pairs| ==> pairs[i].0 != k
  {
    if pairs != [] {
      GetNil(pairs[..|pairs| - 1], k);
    }
  }

  /** The keys that go into the hash part. */
  ghost function HashKeys(pairs: Pairs, sizearray: int): set<Key> {
    set i | 0 <= i < |pairs| && !IsArray(pairs[i].0, sizearray) :: pairs[i].0
  }

  /** countsize. */
  method CountSize(pairs: Pairs, sizearray: int) returns (n: int)
    requires Table(pairs)
    ensures n == |HashKeys(pairs, sizearray)|
  {
    n := 0;
    var j := 0;
    while j < |pairs|
      invariant 0 <= j <= |pairs| && n == |HashKeys(pairs[..j], sizearray)|
    {
      CountStep(pairs, sizearray, j);
      n := n + 1;
      if IsArray(pairs[j].0, sizearray) {
        n := n - 1;
      }
      j := j + 1;
    }
    assert pairs[..j] == pairs;
  }

  lemma CountStep(pairs: Pairs, sizearray: int, j: nat)
    requires Table(pairs) && j < |pairs|
    ensures |HashKeys(pairs[..j + 1], sizearray)| == |HashKeys(pairs[..j], sizearray)| + (if IsArray(pairs[j].0, sizearray) then 0 else 1)
  {
    var a, b, k := HashKeys(pairs[..j], sizearray), HashKeys(pairs[..j + 1], sizearray), pairs[j].0;
    assert forall i :: 0 <= i <= j ==> pairs[..j + 1][i] == pairs[i];
    assert forall i :: 0 <= i < j ==> pairs[..j][i] == pairs[i];
    if IsArray(k, sizearray) {
      assert a == b;
    } else {
      assert k in b && b == a + {k} && k !in a;
    }
  }

  // ---------------------------------------------------------------- slots and chains

  ghost predicate KeyPlaced(h: seq<Node>, at: map<Key, int>, pairs: Pairs, k: Key) {
    k in at ==>
      && 0 <= at[k] < |h| && h[at[k]].key == k && h[at[k]].keyhash == Hash(k)
      && h[at[k]].value == Get(pairs, k) && h[at[k]].value != Nil
  }

  ghost predicate SlotPlaced(h: seq<Node>, at: map<Key, int>, p: int) {
    0 <= p < |h| && h[p].value != Nil ==> h[p].key in at && at[h[p].key] == p
  }

  /** Where the keys stored so far are. */
  ghost predicate Placed(h: seq<Node>, at: map<Key, int>, pairs: Pairs) {
    && (forall k {:trigger KeyPlaced(h, at, pairs, k)} :: KeyPlaced(h, at, pairs, k))
    && (forall p {:trigger SlotPlaced(h, at, p)} :: SlotPlaced(h, at, p))
  }

  function After(c: seq<int>, i: int): int {
    if 0 <= i && i + 1 < |c| then c[i + 1] else -1
  }

  ghost predicate Link(h: seq<Node>, c: seq<int>, p: int, i: int) {
    0 <= i < |c| ==>
      && 0 <= c[i] < |h| && h[c[i]].value != Nil && Main(h[c[i]].key, |h|) == p
      && h[c[i]].next == After(c, i) && h[c[i]].nocolliding == (|c| == 1)
  }

  /** The slots of a chain, linked one to the next; nocolliding says that its head is alone. */
  ghost predicate Linked(h: seq<Node>, c: seq<int>, p: int) {
    c != [] && c[0] == p && Distinct(c) && forall i {:trigger Link(h, c, p, i)} :: Link(h, c, p, i)
  }

  ghost predicate Heads(h: seq<Node>, chains: map<int, seq<int>>, p: int) {
    p in chains ==> Linked(h, chains[p], p)
  }

  ghost predicate OnChain(h: seq<Node>, chains: map<int, seq<int>>, p: int) {
    0 <= p < |h| && h[p].value != Nil ==> Main(h[p].key, |h|) in chains && p in chains[Main(h[p].key, |h|)]
  }

  /** Each main position that is taken by a key of its own heads a chain, and every stored key is on the chain of its main position. */
  ghost predicate Chained(h: seq<Node>, chains: map<int, seq<int>>) {
    && (forall p {:trigger Heads(h, chains, p)} :: Heads(h, chains, p))
    && (forall p {:trigger OnChain(h, chains, p)} :: OnChain(h, chains, p))
  }

  lemma PlacedGrows(h: seq<Node>, h': seq<Node>, at: map<Key, int>, pairs: Pairs, k: Key, q: int)
    requires Placed(h, at, pairs) && k !in at && |h'| == |h| && 0 <= q < |h| && h[q].value == Nil
    requires h'[q].key == k && h'[q].keyhash == Hash(k) && h'[q].value == Get(pairs, k) && h'[q].value != Nil
    requires forall t :: 0 <= t < |h| && t != q ==> h'[t].key == h[t].key && h'[t].keyhash == h[t].keyhash && h'[t].value == h[t].value
    ensures Placed(h', at[k := q], pairs)
  {
    var at' := at[k := q];
    forall j ensures KeyPlaced(h', at', pairs, j) {
      assert KeyPlaced(h, at, pairs, j);
    }
    forall t ensures SlotPlaced(h', at', t) {
      assert SlotPlaced(h, at, t);
    }
  }

  function MainTaken(h: seq<Node>, k: Key, v: Value): seq<Node>
    requires |h| > 0
  {
    h[Main(k, |h|) := Node(v, k, -1, Hash(k), true)]
  }

  lemma TakeMain(h: seq<Node>, at: map<Key, int>, chains: map<int, seq<int>>, pairs: Pairs, k: Key, v: Value)
    requires Placed(h, at, pairs) && Chained(h, chains) && |h| > 0 && k !in at && v != Nil && Get(pairs, k) == v
    requires h[Main(k, |h|)].value == Nil
    ensures Placed(MainTaken(h, k, v), at[k := Main(k, |h|)], pairs)
    ensures Chained(MainTaken(h, k, v), chains[Main(k, |h|) := [Main(k, |h|)]])
  {
    var p, h' := Main(k, |h|), MainTaken(h, k, v);
    PlacedGrows(h, h', at, pairs, k, p);
    assert Heads(h, chains, p);
    assert p in chains ==> Link(h, chains[p], p, 0);
    var chains' := chains[p := [p]];
    forall r ensures Heads(h', chains', r) {
      if r == p {
        forall i ensures Link(h', [p], p, i) {
        }
      } else if r in chains {
        assert Heads(h, chains, r);
        NotOn(h, chains[r], r, p);
        ChainStays(h, h', chains[r], r);
      }
    }
    forall t ensures OnChain(h', chains', t) {
      assert OnChain(h, chains, t);
    }
  }

  /** A chain none of whose slots change stays as it is. */
  lemma ChainStays(h: seq<Node>, h': seq<Node>, c: seq<int>, r: int)
    requires Linked(h, c, r) && |h'| == |h| && forall t :: 0 <= t < |h| && t in c ==> h'[t] == h[t]
    ensures Linked(h', c, r)
  {
    forall i ensures Link(h', c, r, i) {
      assert Link(h, c, r, i);
    }
  }

  /** The first pass leaves only chains of one. */
  ghost predicate Singles(chains: map<int, seq<int>>) {
    forall p :: p in chains ==> chains[p] == [p]
  }

  /** A key whose main position is taken goes into an empty slot, linked in right behind the head of its chain. */
  function Collided(h: seq<Node>, p: int, q: int, k: Key, v: Value): seq<Node>
    requires 0 <= p < |h| && 0 <= q < |h|
  {
    var h1 := h[q := h[q].(next := h[p].next)];
    var h2 := h1[p := h1[p].(next := q, nocolliding := false)];
    h2[q := h2[q].(key := k, keyhash := Hash(k), nocolliding := false, value := v)]
  }

  function Longer(c: seq<int>, p: int, q: int): seq<int>
    requires c != []
  {
    [p, q] + c[1..]
  }

  lemma TakeColliding(h: seq<Node>, at: map<Key, int>, chains: map<int, seq<int>>, pairs: Pairs, k: Key, v: Value, q: int)
    requires Placed(h, at, pairs) && Chained(h, chains) && |h| > 0 && k !in at && v != Nil && Get(pairs, k) == v
    requires Main(k, |h|) in chains && 0 <= q < |h| && h[q].value == Nil
    ensures Linked(h, chains[Main(k, |h|)], Main(k, |h|)) && Main(k, |h|) != q
    ensures Placed(Collided(h, Main(k, |h|), q, k, v), at[k := q], pairs)
    ensures Chained(Collided(h, Main(k, |h|), q, k, v), chains[Main(k, |h|) := Longer(chains[Main(k, |h|)], Main(k, |h|), q)])
  {
    var p := Main(k, |h|);
    var c := chains[p];
    assert Heads(h, chains, p) && Link(h, c, p, 0);
    var h' := Collided(h, p, q, k, v);
    PlacedGrows(h, h', at, pairs, k, q);
    ChainGrows(h, c, p, q, k, v);
    var chains' := chains[p := Longer(c, p, q)];
    forall r ensures Heads(h', chains', r) {
      if r in chains && r != p {
        assert Heads(h, chains, r);
        NotOn(h, chains[r], r, p);
        NotOn(h, chains[r], r, q);
        ChainStays(h, h', chains[r], r);
      }
    }
    forall t ensures OnChain(h', chains', t) {
      assert OnChain(h, chains, t);
      assert c == [p] + c[1..];
    }
  }

  lemma NotOn(h: seq<Node>, c: seq<int>, r: int, t: int)
    requires Linked(h, c, r) && 0 <= t < |h| && (h[t].value == Nil || Main(h[t].key, |h|) != r)
    ensures t !in c
  {
    forall i | 0 <= i < |c| ensures c[i] != t {
      assert Link(h, c, r, i);
    }
  }

  lemma ChainGrows(h: seq<Node>, c: seq<int>, p: int, q: int, k: Key, v: Value)
    requires Linked(h, c, p) && 0 <= p < |h| && 0 <= q < |h| && h[q].value == Nil && v != Nil && Main(k, |h|) == p
    ensures Linked(Collided(h, p, q, k, v), Longer(c, p, q), p)
  {
    var h', c' := Collided(h, p, q, k, v), Longer(c, p, q);
    assert Link(h, c, p, 0);
    NotOn(h, c, p, q);
    assert forall i :: 2 <= i < |c'| ==> c'[i] == c[i - 1];
    forall i, j | 0 <= i < j < |c'| ensures c'[i] != c'[j] {
      if j >= 2 {
        assert c'[j] == c[j - 1] && c[j - 1] in c;
        if i >= 2 { assert c'[i] == c[i - 1]; }
      }
    }
    forall i ensures Link(h', c', p, i) {
      if i >= 2 {
        assert Link(h, c, p, i - 1);
      }
    }
  }

  /** As long as a key is still to be stored, there is an empty slot: the assertion in fillcolliding. */
  lemma {:induction false} Full(h: seq<Node>, at: map<Key, int>, n: nat)
    requires n <= |h| && (forall p :: 0 <= p < n ==> h[p].key in at && at[h[p].key] == p)
    ensures n <= |at.Keys|
    decreases n
  {
    var s := Keys(h, n);
    KeysCount(h, at, n);
    assert s <= at.Keys;
    Subset(s, at.Keys);
  }

  ghost function Keys(h: seq<Node>, n: nat): set<Key>
    requires n <= |h|
  {
    set p | 0 <= p < n :: h[p].key
  }

  lemma {:induction false} KeysCount(h: seq<Node>, at: map<Key, int>, n: nat)
    requires n <= |h| && (forall p :: 0 <= p < n ==> h[p].key in at && at[h[p].key] == p)
    ensures |Keys(h, n)| == n
  {
    if n > 0 {
      KeysCount(h, at, n - 1);
      assert Keys(h, n) == Keys(h, n - 1) + {h[n - 1].key};
    }
  }

  lemma {:induction false} Subset<T>(a: set<T>, b: set<T>)
    requires a <= b
    ensures |a| <= |b| && (a != b ==> |a| < |b|)
  {
    assert b == a + (b - a);
    assert |b| == |a| + |b - a|;
    if a != b {
      assert b - a != {};
    }
  }

  // ---------------------------------------------------------------- the table

  class Shared {
    const sizearray: int
    const arr: array<Value>
    const hash: array<Node>
    /** What the table was built from. */
    ghost const pairs: Pairs
    ghost var at: map<Key, int>
    ghost var chains: map<int, seq<int>>

    ghost predicate Shape()
      reads this
    {
      && 0 <= sizearray == arr.Length && Table(pairs)
      && hash.Length == |HashKeys(pairs, sizearray)|
    }

    /** The state of the hash part at any time during the passes. */
    ghost predicate Filling()
      reads this, hash
    {
      Shape() && Placed(hash[..], at, pairs) && Chained(hash[..], chains) && at.Keys <= HashKeys(pairs, sizearray)
    }

    ghost predicate ArrayDone(pre: Pairs)
      reads this, arr
      requires Shape()
    {
      forall i :: 0 <= i < sizearray ==> arr[i] == Get(pre, IntKey(i + 1))
    }

    ghost predicate Valid()
      reads this, hash, arr
    {
      Filling() && ArrayDone(pairs) && at.Keys == HashKeys(pairs, sizearray)
    }

    /** A key that finds its main position empty takes it. */
    method StoreMain(k: Key, v: Value, p: int)
      requires Filling() && hash.Length > 0 && p == Main(k, hash.Length) && hash[p].value == Nil && k !in at
      requires k in HashKeys(pairs, sizearray) && Get(pairs, k) == v && v != Nil
      modifies hash, `at, `chains
      ensures Filling() && at == old(at)[k := p] && chains == old(chains)[p := [p]]
    {
      ghost var h := hash[..];
      TakeMain(h, at, chains, pairs, k, v);
      hash[p] := Node(v, k, -1, Hash(k), true);
      assert hash[..] == MainTaken(h, k, v);
      at, chains := at[k := p], chains[p := [p]];
    }

    /** The hash part during the first pass, after j entries. */
    ghost predicate FirstPass(j: int)
      reads this, hash
    {
      && Filling() && Singles(chains) && Mains(j) && StoredBefore(j)
      && forall k :: k in at ==> at[k] == Main(k, hash.Length)
    }

    /** One hash key of the first pass. */
    method TryMain(t: Pairs, j: int)
      requires t == pairs && 0 <= j < |t| && FirstPass(j) && !IsArray(t[j].0, sizearray)
      modifies hash, `at, `chains
      ensures FirstPass(j + 1)
    {
      var k, v := t[j].0, t[j].1;
      var p := Main(k, hash.Length);
      if hash[p].value == Nil {
        GetIs(pairs, j);
        assert KeyPlaced(hash[..], at, pairs, k) && k !in at;
        StoreMain(k, v, p);
      } else {
        assert SlotPlaced(hash[..], at, p) && OnChain(hash[..], chains, p);
      }
    }

    /** fillnocolliding: array elements, and each key that finds its main position empty. */
    method FillNoColliding(t: Pairs)
      requires t == pairs && Filling() && at == map[] && chains == map[] && ArrayDone([]) && hash.Length > 0 && hash != arr as object
      modifies hash, arr, `at, `chains
      ensures FirstPass(|pairs|) && ArrayDone(pairs)
    {
      var j := 0;
      while j < |t|
        invariant 0 <= j <= |t| && FirstPass(j) && ArrayDone(t[..j])
      {
        assert t[..j + 1][..j] == t[..j];
        if IsArray(t[j].0, sizearray) {
          arr[t[j].0.i - 1] := t[j].1;
        } else {
          TryMain(t, j);
        }
        j := j + 1;
      }
      assert t[..j] == t;
    }

    /** The main positions of the first j keys are taken. */
    ghost predicate Mains(j: int)
      reads this
    {
      hash.Length > 0 && forall i :: 0 <= i < |pairs| && i < j && !IsArray(pairs[i].0, sizearray) ==> Main(pairs[i].0, hash.Length) in chains
    }

    ghost predicate StoredBefore(j: int)
      reads this
    {
      forall k :: k in at ==> exists i :: 0 <= i < |pairs| && i < j && pairs[i].0 == k
    }

    /** The inner loop of fillcolliding. There is always an empty slot: its assertion holds. */
    method FindEmpty(ghost k: Key) returns (q: int)
      requires Filling() && k !in at && k in HashKeys(pairs, sizearray)
      ensures 0 <= q < hash.Length && hash[q].value == Nil
    {
      q := 0;
      ghost var h := hash[..];
      while q < hash.Length
        invariant 0 <= q <= hash.Length
        invariant forall i :: 0 <= i < q ==> h[i].value != Nil
      {
        if hash[q].value == Nil {
          return;
        }
        q := q + 1;
      }
      forall p | 0 <= p < |h| ensures h[p].key in at && at[h[p].key] == p {
        assert SlotPlaced(h, at, p);
      }
      Full(h, at, hash.Length);
      Subset(at.Keys, HashKeys(pairs, sizearray));
      assert false;
    }

    method Collide(p: int, q: int, k: Key, v: Value)
      requires 0 <= p < hash.Length && 0 <= q < hash.Length && p != q
      modifies hash
      ensures hash[..] == Collided(old(hash[..]), p, q, k, v)
    {
      hash[q] := hash[q].(next := hash[p].next);
      hash[p] := hash[p].(next := q, nocolliding := false);
      hash[q] := hash[q].(key := k, keyhash := Hash(k), nocolliding := false, value := v);
    }

    /** A key that is not at its main position goes to an empty slot. */
    method Store(k: Key, v: Value, p: int)
      requires Filling() && hash.Length > 0 && p == Main(k, hash.Length) && p in chains && k !in at
      requires k in HashKeys(pairs, sizearray) && Get(pairs, k) == v && v != Nil
      modifies hash, `at, `chains
      ensures Filling() && at.Keys == old(at.Keys) + {k} && chains.Keys == old(chains.Keys)
      ensures forall j :: j in old(at) ==> at[j] == old(at[j])
    {
      var q := FindEmpty(k);
      TakeColliding(hash[..], at, chains, pairs, k, v, q);
      Collide(p, q, k, v);
      at, chains := at[k := q], chains[p := Longer(chains[p], p, q)];
    }

    /** The hash part during the second pass, after j entries. */
    ghost predicate SecondPass(j: int)
      reads this, hash
    {
      && Filling() && Mains(|pairs|)
      && (forall i :: 0 <= i < |pairs| && i < j && !IsArray(pairs[i].0, sizearray) ==> pairs[i].0 in at)
      && forall k :: k in at ==> at[k] == Main(k, hash.Length) || exists i :: 0 <= i < |pairs| && i < j && pairs[i].0 == k
    }

    /** One hash key of the second pass. */
    method StoreIfMissing(t: Pairs, j: int)
      requires t == pairs && 0 <= j < |t| && SecondPass(j) && !IsArray(t[j].0, sizearray)
      modifies hash, `at, `chains
      ensures SecondPass(j + 1)
    {
      hide IsArray, Main;
      var k, v := t[j].0, t[j].1;
      var p := Main(k, hash.Length);
      assert Heads(hash[..], chains, p) && Link(hash[..], chains[p], p, 0) && SlotPlaced(hash[..], at, p);
      if hash[p].key != k {
        assert KeyPlaced(hash[..], at, pairs, k) && k !in at;
        GetIs(pairs, j);
        Store(k, v, p);
        assert pairs[j].0 == k;
      }
    }

    /** fillcolliding: the keys whose main position was taken by another. */
    method FillColliding(t: Pairs)
      requires t == pairs && FirstPass(|pairs|) && ArrayDone(pairs) && hash != arr as object
      modifies hash, `at, `chains
      ensures Valid()
    {
      var j := 0;
      while j < |t|
        invariant 0 <= j <= |t| && SecondPass(j) && ArrayDone(pairs)
      {
        if !IsArray(t[j].0, sizearray) {
          StoreIfMissing(t, j);
        }
        j := j + 1;
      }
    }

    /** convtable, for what lua_next walks over and the border that lua_rawlen gives. */
    constructor (t: Pairs, border: nat)
      requires Table(t) && forall i :: 0 <= i < |t| ==> Fits(t[i].0)
      ensures Valid() && pairs == t && sizearray == border && fresh(arr) && fresh(hash)
    {
      sizearray, pairs := border, t;
      arr := new Value[border](_ => Nil);
      var n := CountSize(t, border);
      hash := new Node[n](_ => Node(Nil, IntKey(0), 0, 0, false));
      at, chains := map[], map[];
      new;
      if n > 0 {
        FillNoColliding(t);
        FillColliding(t);
      } else {
        assert HashKeys(t, border) == {};
        var i := 0;
        while i < border
          invariant 0 <= i <= border && Filling() && forall j :: 0 <= j < i ==> arr[j] == Get(t, IntKey(j + 1))
        {
          arr[i] := Get(t, IntKey(i + 1));
          i := i + 1;
        }
      }
    }

    // -------------------------------------------------------------- looking up

    /** The loop of lookup_key: along the chain c of main position m. */
    method Follow(k: Key, n0: int, ghost c: seq<int>, ghost m: int, ghost i0: int) returns (n: int)
      requires Linked(hash[..], c, m) && 0 <= i0 < |c| && n0 == c[i0]
      requires k in at ==> KeyPlaced(hash[..], at, pairs, k) && at[k] in c[i0..]
      requires forall j :: 0 <= j < |c| ==> SlotPlaced(hash[..], at, c[j])
      ensures n == if k in at then at[k] else -1
    {
      n := n0;
      ghost var i, h := i0, hash[..];
      assert Link(h, c, m, i);
      while true
        invariant i0 <= i < |c| && n == c[i] && Link(h, c, m, i)
        invariant k in at ==> at[k] in c[i..]
        decreases |c| - i
      {
        assert SlotPlaced(h, at, c[i]) && h[c[i]] == hash[n];
        if Hash(k) == hash[n].keyhash && hash[n].key == k {
          return;
        }
        assert c[i..] == [c[i]] + c[i + 1..];
        assert Link(h, c, m, i + 1);
        if hash[n].next < 0 {
          return -1;
        }
        n := hash[n].next;
        i := i + 1;
      }
    }

    /** lookup_key: the slot of a key, or -1. */
    method LookupKey(k: Key) returns (n: int)
      requires Valid()
      ensures n == if k in at then at[k] else -1
    {
      ghost var h := hash[..];
      assert KeyPlaced(h, at, pairs, k);
      if hash.Length == 0 {
        return -1;
      }
      n := Main(k, hash.Length);
      AllUsed(h, at, pairs, n);
      ghost var m, i := WhereOnChain(h, chains, n);
      OnOwnChain(h, at, chains, pairs, k, n, i);
      if Hash(k) != hash[n].keyhash && hash[n].nocolliding {
        AloneOnChain(h, at, pairs, chains[m], m, i, k);
        return -1;
      }
      forall j | 0 <= j < |chains[m]| ensures SlotPlaced(h, at, chains[m][j]) {
      }
      n := Follow(k, n, chains[m], m, i);
    }

    /** lindexconf: what the source table held under the key, cut to an int; Nil if nothing. */
    method Index(k0: Key) returns (v: Value)
      requires Valid()
      ensures v == Get(pairs, CutKey(k0))
    {
      var k := CutKey(k0);
      if IsArray(k, sizearray) {
        return arr[k.i - 1];
      }
      assert KeyPlaced(hash[..], at, pairs, k);
      GetNil(pairs, k);
      var n := LookupKey(k);
      v := if n >= 0 then hash[n].value else Nil;
    }

    /** The order in which lnextkey goes through the keys: the array part, then the slots. */
    ghost function Order(): seq<Key>
      reads arr, hash
    {
      ArrayKeys(arr[..], 0) + SlotKeys(hash[..])
    }

    /** The array part of lnextkey, and pushfirsthash: the first key at array index `from` or later. */
    method FirstFrom(from: nat) returns (k: Option<Key>)
      requires Shape() && from <= sizearray
      ensures k == First(ArrayKeys(arr[..], from) + SlotKeys(hash[..]))
    {
      var i := from;
      while i < sizearray
        invariant from <= i <= sizearray && ArrayKeys(arr[..], from) == ArrayKeys(arr[..], i)
      {
        if arr[i] != Nil {
          return Some(IntKey(i + 1));
        }
        i := i + 1;
      }
      k := if hash.Length > 0 then Some(hash[0].key) else None;
    }

    /** lnextkey. A key with no value leads on from its array index, or nowhere. */
    method NextKey(k0: Option<Key>) returns (next: Option<Key>)
      requires Valid()
      ensures k0 == None ==> next == First(Order())
      ensures k0.Some? ==> forall i :: 0 <= i < |Order()| && CutKey(k0.value) == Order()[i] ==> next == First(Order()[i + 1..])
      ensures k0.Some? && IsArray(CutKey(k0.value), sizearray) ==> next == First(ArrayKeys(arr[..], CutKey(k0.value).i) + SlotKeys(hash[..]))
      ensures k0.Some? && !IsArray(CutKey(k0.value), sizearray) && Get(pairs, CutKey(k0.value)) == Nil ==> next == None
    {
      ghost var h := hash[..];
      ghost var o := ArrayKeys(arr[..], 0) + SlotKeys(h);
      assert o == Order();
      if k0.None? {
        next := FirstFrom(0);
        return;
      }
      var k := CutKey(k0.value);
      SlotsAreHashed(h, at, pairs, sizearray, HashKeys(pairs, sizearray));
      if IsArray(k, sizearray) {
        next := FirstFrom(k.i);
        forall i | 0 <= i < |o| && k == o[i] ensures next == First(o[i + 1..]) {
          AfterArrayKey(arr[..], h, k, i);
        }
        return;
      }
      assert KeyPlaced(h, at, pairs, k);
      GetNil(pairs, k);
      var n := LookupKey(k);
      assert n >= 0 ==> First(SlotKeys(h)[n + 1..]) == if n + 1 == |h| then None else Some(h[n + 1].key);
      if n >= 0 && n + 1 != hash.Length {
        next := Some(hash[n + 1].key);
      } else {
        next := None;
      }
      forall i | 0 <= i < |o| && k == o[i] ensures next == First(o[i + 1..]) {
        AfterSlotKey(arr[..], h, k, n, i);
      }
    }
  }

  /** An integer key that does not fit an int reads what the source table held there if and only if nothing is under its cut. */
  lemma WideKey(pairs: Pairs, k: Key)
    requires Table(pairs) && forall i :: 0 <= i < |pairs| ==> Fits(pairs[i].0)
    ensures Get(pairs, CutKey(k)) == Get(pairs, k) <==> Fits(k) || Get(pairs, CutKey(k)) == Nil
  {
    GetNil(pairs, k);
  }

  /** A table of one key: index 2^32 + 1 reads it, where the source table holds nothing. */
  method WideKeyRead(v: Value) returns (t: Shared, read: Value)
    requires v != Nil
    ensures t.Valid() && t.pairs == [(IntKey(1), v)]
    ensures read == v && Get(t.pairs, IntKey(0x1_0000_0001)) == Nil
  {
    var pairs := [(IntKey(1), v)];
    t := new Shared(pairs, 1);
    read := t.Index(IntKey(0x1_0000_0001));
    assert pairs[..0] == [] && CutKey(IntKey(0x1_0000_0001)) == IntKey(1);
  }

  function First(o: seq<Key>): Option<Key> {
    if o == [] then None else Some(o[0])
  }

  /** Array indices, from `from` on, that hold something. */
  function ArrayKeys(a: seq<Value>, from: nat): seq<Key>
    requires from <= |a|
    decreases |a| - from
  {
    if from == |a| then [] else (if a[from] != Nil then [IntKey(from + 1)] else []) + ArrayKeys(a, from + 1)
  }

  function SlotKeys(h: seq<Node>): (s: seq<Key>)
    ensures |s| == |h| && forall p :: 0 <= p < |h| ==> s[p] == h[p].key
  {
    seq(|h|, p requires 0 <= p < |h| => h[p].key)
  }

  /** The chain a slot is on, and where. */
  lemma WhereOnChain(h: seq<Node>, chains: map<int, seq<int>>, p: int) returns (m: int, i: int)
    requires Chained(h, chains) && 0 <= p < |h| && h[p].value != Nil
    ensures m == Main(h[p].key, |h|) && m in chains && 0 <= i < |chains[m]| && chains[m][i] == p
    ensures Linked(h, chains[m], m) && Link(h, chains[m], m, i)
  {
    assert OnChain(h, chains, p);
    m := Main(h[p].key, |h|);
    assert Heads(h, chains, m);
    i :| 0 <= i < |chains[m]| && chains[m][i] == p;
  }

  /** When every key is stored there is no empty slot left. */
  lemma AllUsed(h: seq<Node>, at: map<Key, int>, pairs: Pairs, p: int)
    requires Placed(h, at, pairs) && |at.Keys| == |h| && 0 <= p < |h|
    ensures h[p].value != Nil
  {
    if h[p].value == Nil {
      forall k | k in at ensures 0 <= at[k] < |h| && at[k] != p && h[at[k]].key == k {
        assert KeyPlaced(h, at, pairs, k);
      }
      SlotsCount(at.Keys, at, h, p);
    }
  }

  /** Distinct slots other than p, of which there is one less than there are slots. */
  lemma SlotsCount(ks: set<Key>, at: map<Key, int>, h: seq<Node>, p: int)
    requires 0 <= p < |h| && forall k :: k in ks ==> k in at && 0 <= at[k] < |h| && at[k] != p && h[at[k]].key == k
    ensures |ks| < |h|
  {
    var slots := set k | k in ks :: at[k];
    SameSize(ks, at, h);
    var all := UpTo(|h|);
    assert slots <= all && p in all && p !in slots;
    Subset(slots, all);
  }

  ghost function UpTo(n: nat): (s: set<int>)
    ensures |s| == n && forall i :: i in s <==> 0 <= i < n
  {
    if n == 0 then {} else UpTo(n - 1) + {n - 1}
  }

  lemma {:induction false} SameSize(ks: set<Key>, at: map<Key, int>, h: seq<Node>)
    requires forall k :: k in ks ==> k in at && 0 <= at[k] < |h| && h[at[k]].key == k
    ensures |(set k | k in ks :: at[k])| == |ks|
  {
    if ks != {} {
      var k :| k in ks;
      SameSize(ks - {k}, at, h);
      assert (set j | j in ks :: at[j]) == (set j | j in ks - {k} :: at[j]) + {at[k]};
    }
  }

  /** The chain through a key's main position is the one the key is on, and from its head, if it is stored at all. */
  lemma OnOwnChain(h: seq<Node>, at: map<Key, int>, chains: map<int, seq<int>>, pairs: Pairs, k: Key, p: int, i: int)
    requires Placed(h, at, pairs) && Chained(h, chains) && |h| > 0 && p == Main(k, |h|) && h[p].value != Nil
    requires var m := Main(h[p].key, |h|); m in chains && 0 <= i < |chains[m]| && chains[m][i] == p
    ensures k in at ==> Main(h[p].key, |h|) == p && i == 0 && at[k] in chains[p][i..]
  {
    if k in at {
      assert KeyPlaced(h, at, pairs, k);
      assert OnChain(h, chains, at[k]);
      assert Heads(h, chains, p) && Link(h, chains[p], p, 0);
      assert chains[p][0..] == chains[p];
    }
  }

  lemma AloneOnChain(h: seq<Node>, at: map<Key, int>, pairs: Pairs, c: seq<int>, m: int, i: int, k: Key)
    requires 0 <= i < |c| && Link(h, c, m, i) && h[c[i]].nocolliding && Hash(k) != h[c[i]].keyhash && Placed(h, at, pairs)
    requires k in at ==> at[k] in c[i..]
    ensures k !in at
  {
    assert KeyPlaced(h, at, pairs, k);
  }

  // ---------------------------------------------------------------- going through the keys

  lemma {:induction false} ArrayKeysAre(a: seq<Value>, from: nat)
    requires from <= |a|
    ensures forall k :: k in ArrayKeys(a, from) <==> k.IntKey? && from < k.i <= |a| && a[k.i - 1] != Nil
    ensures forall i, j :: 0 <= i < j < |ArrayKeys(a, from)| ==> ArrayKeys(a, from)[i] != ArrayKeys(a, from)[j]
    decreases |a| - from
  {
    if from < |a| {
      ArrayKeysAre(a, from + 1);
    }
  }

  /** Behind an array key comes what the walk finds from the next index on. */
  lemma {:induction false} ArraySuffix(a: seq<Value>, from: nat, i: nat)
    requires from <= |a| && i < |ArrayKeys(a, from)|
    ensures var k := ArrayKeys(a, from)[i]; k.IntKey? && 0 < k.i <= |a| && ArrayKeys(a, from)[i + 1..] == ArrayKeys(a, k.i)
    decreases |a| - from
  {
    if a[from] == Nil {
      ArraySuffix(a, from + 1, i);
    } else if i > 0 {
      ArraySuffix(a, from + 1, i - 1);
      assert ArrayKeys(a, from)[i + 1..] == ArrayKeys(a, from + 1)[i..];
    } else {
      assert ArrayKeys(a, from)[1..] == ArrayKeys(a, from + 1);
    }
  }

  /** Every slot holds a key of the hash part, and no two the same. */
  lemma SlotsAreHashed(h: seq<Node>, at: map<Key, int>, pairs: Pairs, sizearray: int, keys: set<Key>)
    requires Placed(h, at, pairs) && at.Keys == keys == HashKeys(pairs, sizearray) && |keys| == |h|
    ensures forall p :: 0 <= p < |h| ==> h[p].key in keys && at[h[p].key] == p && !IsArray(h[p].key, sizearray)
  {
    forall p | 0 <= p < |h| ensures h[p].key in keys && at[h[p].key] == p {
      AllUsed(h, at, pairs, p);
      assert SlotPlaced(h, at, p);
    }
  }

  /** An element that the second list does not have stands in the first, and the other way round. */
  lemma WhichPart(a: seq<Key>, b: seq<Key>, i: int)
    requires 0 <= i < |a| + |b|
    ensures (a + b)[i] !in b ==> i < |a|
    ensures (a + b)[i] !in a ==> i >= |a|
    ensures i < |a| ==> (a + b)[i] == a[i] && (a + b)[i + 1..] == a[i + 1..] + b
    ensures i >= |a| ==> (a + b)[i] == b[i - |a|] && (a + b)[i + 1..] == b[i - |a| + 1..]
  {
  }

  lemma AfterArrayKey(a: seq<Value>, h: seq<Node>, k: Key, i: int)
    requires IsArray(k, |a|) && forall p :: 0 <= p < |h| ==> !IsArray(h[p].key, |a|)
    requires 0 <= i < |ArrayKeys(a, 0) + SlotKeys(h)| && (ArrayKeys(a, 0) + SlotKeys(h))[i] == k
    ensures (ArrayKeys(a, 0) + SlotKeys(h))[i + 1..] == ArrayKeys(a, k.i) + SlotKeys(h)
  {
    assert k !in SlotKeys(h);
    WhichPart(ArrayKeys(a, 0), SlotKeys(h), i);
    ArraySuffix(a, 0, i);
  }

  lemma AfterSlotKey(a: seq<Value>, h: seq<Node>, k: Key, n: int, i: int)
    requires !IsArray(k, |a|) && -1 <= n < |h|
    requires n >= 0 ==> h[n].key == k && forall p :: 0 <= p < |h| && p != n ==> h[p].key != k
    requires n < 0 ==> forall p :: 0 <= p < |h| ==> h[p].key != k
    requires 0 <= i < |ArrayKeys(a, 0) + SlotKeys(h)| && (ArrayKeys(a, 0) + SlotKeys(h))[i] == k
    ensures n >= 0 && (ArrayKeys(a, 0) + SlotKeys(h))[i + 1..] == SlotKeys(h)[n + 1..]
  {
    ArrayKeysAre(a, 0);
    WhichPart(ArrayKeys(a, 0), SlotKeys(h), i);
  }

  /** What lnextkey goes through is every key of the source table, each once. */
  lemma OrderIsAll(a: seq<Value>, h: seq<Node>, at: map<Key, int>, pairs: Pairs)
    requires Table(pairs) && Placed(h, at, pairs) && at.Keys == HashKeys(pairs, |a|) && |h| == |at.Keys|
    requires forall i :: 0 <= i < |a| ==> a[i] == Get(pairs, IntKey(i + 1))
    ensures var o := ArrayKeys(a, 0) + SlotKeys(h);
            && Distinct(o) && forall k :: k in o <==> Get(pairs, k) != Nil
  {
    var o := ArrayKeys(a, 0) + SlotKeys(h);
    SlotsAreHashed(h, at, pairs, |a|, at.Keys);
    forall k ensures k in o <==> Get(pairs, k) != Nil {
      KeyInOrder(a, h, at, pairs, k);
    }
    ArrayKeysAre(a, 0);
    forall i, j | 0 <= i < j < |o| ensures o[i] != o[j] {
      WhichPart(ArrayKeys(a, 0), SlotKeys(h), i);
      WhichPart(ArrayKeys(a, 0), SlotKeys(h), j);
    }
  }

  lemma KeyInOrder(a: seq<Value>, h: seq<Node>, at: map<Key, int>, pairs: Pairs, k: Key)
    requires Table(pairs) && KeyPlaced(h, at, pairs, k) && at.Keys == HashKeys(pairs, |a|)
    requires forall p :: 0 <= p < |h| ==> h[p].key in at
    requires forall i :: 0 <= i < |a| ==> a[i] == Get(pairs, IntKey(i + 1))
    ensures k in ArrayKeys(a, 0) + SlotKeys(h) <==> Get(pairs, k) != Nil
  {
    ArrayKeysAre(a, 0);
    GetNil(pairs, k);
    assert k in at ==> SlotKeys(h)[at[k]] == k;
    if IsArray(k, |a|) {
      assert a[k.i - 1] == Get(pairs, k);
      assert k !in at;
    }
  }
}
