/**
 * Packing and unpacking (lua-seri.c): the chain of 128-byte blocks values are
 * packed into, its flattening, and the reader that walks a flat buffer.
 */
module Seri {
  import opened Common
  import opened SeriWire
  import opened SeriValues

  const BLOCK_SIZE := 128

  class Block {
    var next: Block?
    const buffer: array<Byte>

    constructor ()
      ensures next == null && buffer.Length == BLOCK_SIZE && fresh(buffer)
    {
      next := null;
      buffer := new Byte[BLOCK_SIZE](_ => 0);
    }

    method Copy(at: nat, data: Bytes)
      requires at + |data| <= buffer.Length
      modifies buffer
      ensures buffer[..] == old(buffer[..at]) + data + old(buffer[at + |data|..])
    {
      forall i | 0 <= i < |data| {
        buffer[at + i] := data[i];
      }
    }
  }

  ghost function Buffers(chain: seq<Block>): set<array<Byte>> {
    set b | b in chain :: b.buffer
  }

  /** Blocks linked head to tail, each with its own buffer. */
  ghost predicate Linked(chain: seq<Block>)
    reads chain
  {
    && |chain| > 0 && chain[|chain| - 1].next == null
    && (forall i :: 0 <= i < |chain| ==> chain[i].buffer.Length == BLOCK_SIZE)
    && (forall i, j :: 0 <= i < j < |chain| ==> chain[i] != chain[j] && chain[i].buffer != chain[j].buffer)
    && (forall i :: 0 < i < |chain| ==> LinkAt(chain, i))
  }

  ghost predicate LinkAt(chain: seq<Block>, i: int)
    requires 0 < i < |chain|
    reads chain
  {
    chain[i - 1].next == chain[i]
  }

  /** The `i`-th run of 128 bytes. */
  function Piece(b: Bytes, i: nat): Bytes
    requires BLOCK_SIZE * (i + 1) <= |b|
  {
    b[BLOCK_SIZE * i..BLOCK_SIZE * (i + 1)]
  }

  /** The first `n` blocks hold the first 128 * n bytes. */
  ghost predicate Full(chain: seq<Block>, n: nat, content: Bytes)
    requires n <= |chain| && BLOCK_SIZE * n <= |content|
    reads Buffers(chain)
  {
    forall i :: 0 <= i < n ==> chain[i].buffer[..] == Piece(content, i)
  }

  lemma FullGrows(chain: seq<Block>, n: nat, content: Bytes, data: Bytes)
    requires n <= |chain| && BLOCK_SIZE * n <= |content| && Full(chain, n, content)
    ensures Full(chain, n, content + data)
  {
    forall i | 0 <= i < n ensures chain[i].buffer[..] == Piece(content + data, i) {
      assert Piece(content + data, i) == Piece(content, i);
    }
  }

  /** The bytes pushed so far: every block but the last is full. */
  class WriteBlock {
    var head: Block
    var current: Block
    var len: nat
    var ptr: nat
    ghost var chain: seq<Block>
    ghost var content: Bytes
    ghost var repr: set<object>

    ghost predicate Valid()
      reads this, repr
    {
      && this !in repr && (forall b :: b in chain ==> b in repr && b.buffer in repr)
      && Linked(chain) && head == chain[0] && current == chain[|chain| - 1]
      && ptr <= BLOCK_SIZE && len == |content| == BLOCK_SIZE * (|chain| - 1) + ptr
      && Full(chain, |chain| - 1, content)
      && chain[|chain| - 1].buffer[..ptr] == content[BLOCK_SIZE * (|chain| - 1)..]
    }

    constructor ()
      ensures Valid() && content == [] && fresh(repr)
    {
      var b := new Block();
      head, current, len, ptr := b, b, 0, 0;
      chain, content, repr := [b], [], {b, b.buffer};
    }

    /** A full block gets a successor. */
    method Extend()
      requires Valid() && ptr == BLOCK_SIZE
      modifies this, repr
      ensures Valid() && content == old(content) && ptr == 0 && fresh(repr - old(repr))
    {
      var b := new Block();
      assert chain[|chain| - 1].buffer[..] == Piece(content, |chain| - 1);
      current.next := b;
      current := b;
      ptr := 0;
      chain := chain + [b];
      repr := repr + {b, b.buffer};
      forall i | 0 < i < |chain| ensures LinkAt(chain, i) {
        assert i < |chain| - 1 ==> old(LinkAt(chain, i));
      }
    }

    /** Copies bytes that fit into the last block. */
    method Fill(data: Bytes)
      requires Valid() && ptr + |data| <= BLOCK_SIZE
      modifies this, current.buffer
      ensures Valid() && chain == old(chain) && repr == old(repr) && content == old(content) + data && ptr == old(ptr) + |data|
    {
      current.Copy(ptr, data);
      FullGrows(chain, |chain| - 1, content, data);
      assert current.buffer[..ptr + |data|] == old(current.buffer[..ptr]) + data;
      content := content + data;
      ptr := ptr + |data|;
      len := len + |data|;
    }

    /** Appends bytes, whatever their number. */
    method Push(data: Bytes)
      requires Valid()
      modifies this, repr
      ensures Valid() && content == old(content) + data && fresh(repr - old(repr))
    {
      var rest := data;
      if ptr == BLOCK_SIZE {
        Extend();
      }
      while BLOCK_SIZE - |rest| < ptr
        invariant Valid() && ptr < BLOCK_SIZE
        invariant content + rest == old(content) + data && fresh(repr - old(repr))
        decreases |rest|
      {
        var copy := BLOCK_SIZE - ptr;
        ghost var was := content;
        Fill(rest[..copy]);
        Assoc(was, rest[..copy], rest[copy..]);
        assert rest == rest[..copy] + rest[copy..];
        rest := rest[copy..];
        Extend();
      }
      Fill(rest);
    }

    /** The chain copied into one buffer, by following the links. */
    method Flatten() returns (out: Bytes)
      requires Valid()
      ensures out == content
    {
      var left := len;
      var b: Block? := head;
      ghost var i := 0;
      out := [];
      while left > 0
        invariant 0 <= i <= |chain| && b == if i < |chain| then chain[i] else null
        invariant 0 <= left && BLOCK_SIZE * i + left == |content|
        invariant out == content[..BLOCK_SIZE * i]
      {
        if left >= BLOCK_SIZE {
          out := out + b.buffer[..];
          left := left - BLOCK_SIZE;
          b := b.next;
          assert i + 1 < |chain| ==> LinkAt(chain, i + 1);
          i := i + 1;
        } else {
          out := out + b.buffer[..left];
          break;
        }
      }
    }
  }

  // ---- Packing ------------------------------------------------------------

  method PutNil(wb: WriteBlock)
    requires wb.Valid()
    modifies wb, wb.repr
    ensures wb.Valid() && fresh(wb.repr - old(wb.repr))
    ensures wb.content == old(wb.content) + AtomBytes(Nil)
  {
    hide WriteBlock.Valid;
    wb.Push([Tag(0, 0)]);
  }

  method PutInteger(wb: WriteBlock, v: int)
    requires wb.Valid() && IsInt64(v)
    modifies wb, wb.repr
    ensures wb.Valid() && fresh(wb.repr - old(wb.repr))
    ensures wb.content == old(wb.content) + IntegerBytes(v)
    // no stream that reads as this value is shorter
    ensures forall b :: Reads(b, One(Integer(v))) ==> |wb.content| <= |old(wb.content)| + |b|
  {
    hide WriteBlock.Valid, Reads;
    Shortest(One(Integer(v)));
    if v == 0 {
      wb.Push([Tag(2, 0)]);
    } else if !IsInt32(v) {
      PutTagged(wb, Tag(2, 6), Little(v % TWO64, 8));
    } else if v < 0 {
      PutTagged(wb, Tag(2, 4), Little(v + TWO32, 4));
    } else if v < 0x100 {
      PutTagged(wb, Tag(2, 1), Little(v, 1));
    } else if v < 0x1_0000 {
      PutTagged(wb, Tag(2, 2), Little(v, 2));
    } else {
      PutTagged(wb, Tag(2, 4), Little(v, 4));
    }
  }

  method PutTagged(wb: WriteBlock, tag: Byte, data: Bytes)
    requires wb.Valid()
    modifies wb, wb.repr
    ensures wb.Valid() && fresh(wb.repr - old(wb.repr))
    ensures wb.content == old(wb.content) + ([tag] + data)
  {
    hide WriteBlock.Valid;
    wb.Push([tag]);
    wb.Push(data);
    Assoc(old(wb.content), [tag], data);
  }

  method PutText(wb: WriteBlock, s: Bytes)
    requires wb.Valid() && |s| < INT_LIMIT
    modifies wb, wb.repr
    ensures wb.Valid() && fresh(wb.repr - old(wb.repr))
    ensures wb.content == old(wb.content) + TextBytes(s)
    ensures forall b :: Reads(b, One(Text(s))) ==> |wb.content| <= |old(wb.content)| + |b|
  {
    hide WriteBlock.Valid, Little, Reads;
    Shortest(One(Text(s)));
    if |s| < MAX_COOKIE {
      wb.Push([Tag(4, |s|)]);
      if |s| > 0 {
        wb.Push(s);
      }
      Assoc(old(wb.content), [Tag(4, |s|)], s);
    } else {
      if |s| < 0x1_0000 {
        PutTagged(wb, Tag(5, 2), Little(|s|, 2));
        Assoc(old(wb.content), [Tag(5, 2)] + Little(|s|, 2), s);
      } else {
        PutTagged(wb, Tag(5, 4), Little(|s|, 4));
        Assoc(old(wb.content), [Tag(5, 4)] + Little(|s|, 4), s);
      }
      wb.Push(s);
    }
  }

  method PutAtom(wb: WriteBlock, a: Atom)
    requires wb.Valid() && AtomOk(a)
    modifies wb, wb.repr
    ensures wb.Valid() && fresh(wb.repr - old(wb.repr))
    ensures wb.content == old(wb.content) + AtomBytes(a)
  {
    hide WriteBlock.Valid;
    match a
    case Nil => PutNil(wb);
    case Boolean(b) => wb.Push([Tag(1, if b then 1 else 0)]);
    case Integer(n) => PutInteger(wb, n);
    case Real(bits) => PutTagged(wb, Tag(2, 8), bits);
    case Pointer(bits) => PutTagged(wb, Tag(3, 0), bits);
    case Text(s) => PutText(wb, s);
  }

  /** Packs one value met at table depth `depth`; fails exactly when the value does not fit. */
  method PackOne(wb: WriteBlock, v: Value, depth: nat) returns (ok: bool)
    requires wb.Valid() && Sound(v) && depth <= MAX_DEPTH + 1
    modifies wb, wb.repr
    ensures wb.Valid() && fresh(wb.repr - old(wb.repr))
    ensures ok <==> Fits(v, depth)
    ensures ok ==> Packable(v) && wb.content == old(wb.content) + Wire(v)
    decreases MAX_DEPTH + 1 - depth, 0
  {
    hide WriteBlock.Valid;
    FitsIsDepth(v, depth);
    if depth > MAX_DEPTH {
      return false;
    }
    match v
    case Other => ok := false;
    case Scalar(a) =>
      PutAtom(wb, a);
      ok := true;
    case Table(es, n) =>
      ok := PackTable(wb, es, n, depth + 1);
  }

  method PackTable(wb: WriteBlock, es: seq<Entry>, n: nat, depth: nat) returns (ok: bool)
    requires wb.Valid() && Sound(Table(es, n)) && 1 <= depth <= MAX_DEPTH + 1
    modifies wb, wb.repr
    ensures wb.Valid() && fresh(wb.repr - old(wb.repr))
    ensures ok <==> Fits(Table(es, n), depth - 1)
    ensures ok ==> Packable(Table(es, n)) && wb.content == old(wb.content) + Wire(Table(es, n))
    decreases MAX_DEPTH + 1 - depth, 3
  {
    hide *;
    TableFits(es, n, depth - 1);
    FitsPackable(Table(es, n), depth - 1);
    ok := PackSlots(wb, es, n, depth);
    if ok {
      ok := PackRest(wb, es, n, depth);
    }
    if ok {
      TableWire(es, n);
    }
  }

  lemma FitsPackable(v: Value, depth: nat)
    requires Sound(v)
    ensures Fits(v, depth) ==> Packable(v)
  {
    FitsIsDepth(v, depth);
  }

  method PutHead(wb: WriteBlock, ghost es: seq<Entry>, n: nat)
    requires wb.Valid() && Sound(Table(es, n))
    modifies wb, wb.repr
    ensures wb.Valid() && fresh(wb.repr - old(wb.repr))
    ensures n < INT_LIMIT && wb.content == old(wb.content) + TableHead(n)
    ensures forall b :: Announces(b, n) ==> |wb.content| <= |old(wb.content)| + |b|
  {
    hide WriteBlock.Valid, Announces;
    ShortestHead(n);
    if n >= MAX_COOKIE - 1 {
      wb.Push([Tag(6, MAX_COOKIE - 1)]);
      PutInteger(wb, n);
      Assoc(old(wb.content), [Tag(6, MAX_COOKIE - 1)], IntegerBytes(n));
    } else {
      wb.Push([Tag(6, n)]);
    }
  }

  method PackSlots(wb: WriteBlock, es: seq<Entry>, n: nat, depth: nat) returns (ok: bool)
    requires wb.Valid() && Sound(Table(es, n)) && 1 <= depth <= MAX_DEPTH + 1
    modifies wb, wb.repr
    ensures wb.Valid() && fresh(wb.repr - old(wb.repr))
    ensures ok <==> forall i :: 0 <= i < n ==> Fits(Slots(es, n)[i], depth)
    ensures ok ==> forall i :: 0 <= i < n ==> Packable(Slots(es, n)[i])
    ensures ok ==> wb.content == old(wb.content) + (TableHead(n) + WireAll(Slots(es, n)))
    decreases MAX_DEPTH + 1 - depth, 2
  {
    hide WriteBlock.Valid;
    hide Sound, Fits, Packable, Wire, Get, Announces, TableHead, TakeCount;
    ghost var vs := Slots(es, n);
    PutHead(wb, es, n);
    ghost var base := wb.content;
    var i := 1;
    while i <= n
      invariant 1 <= i <= n + 1
      invariant wb.Valid() && fresh(wb.repr - old(wb.repr))
      invariant forall k :: 0 <= k < i - 1 ==> Fits(vs[k], depth) && Packable(vs[k])
      invariant wb.content == base + WireAll(vs[..i - 1])
    {
      var v := Get(es, At(i));
      SlotSound(es, n, i);
      ghost var was := wb.content;
      ok := PackOne(wb, v, depth);
      if !ok {
        assert vs[i - 1] == v;
        return;
      }
      WireAllMore(vs[..i - 1], v);
      assert vs[..i - 1] + [v] == vs[..i];
      Assoc(base, WireAll(vs[..i - 1]), Wire(v));
      i := i + 1;
    }
    ok := true;
    assert vs[..n] == vs;
    Assoc(old(wb.content), TableHead(n), WireAll(vs));
  }

  lemma SlotSound(es: seq<Entry>, n: nat, i: int)
    requires Sound(Table(es, n))
    ensures Sound(Get(es, At(i)))
  {
    var v := Get(es, At(i));
    if v != Scalar(Nil) {
      var k :| 0 <= k < |es| && es[k] == Entry(At(i), v);
      assert EntrySound(es[k]);
    }
  }

  lemma SoundEntry(es: seq<Entry>, n: nat, i: int)
    requires Sound(Table(es, n)) && 0 <= i < |es|
    ensures EntrySound(es[i])
  {
  }

  method PackRest(wb: WriteBlock, es: seq<Entry>, n: nat, depth: nat) returns (ok: bool)
    requires wb.Valid() && Sound(Table(es, n)) && 1 <= depth <= MAX_DEPTH + 1
    modifies wb, wb.repr
    ensures wb.Valid() && fresh(wb.repr - old(wb.repr))
    ensures ok <==> forall i :: 0 <= i < |es| && !InSlots(es[i].key, n) ==> EntryFits(es[i], depth)
    ensures ok ==> forall i :: 0 <= i < |Outer(es, n)| ==> EntryPackable(Outer(es, n)[i])
    ensures ok ==> wb.content == old(wb.content) + (WireEntries(Outer(es, n)) + [Tag(0, 0)])
    decreases MAX_DEPTH + 1 - depth, 2
  {
    hide WriteBlock.Valid, Sound, EntryFits, EntryPackable, WireEntry;
    ghost var base := wb.content;
    var i := 0;
    while i < |es|
      invariant 0 <= i <= |es|
      invariant wb.Valid() && fresh(wb.repr - old(wb.repr))
      invariant forall k :: 0 <= k < i && !InSlots(es[k].key, n) ==> EntryFits(es[k], depth)
      invariant forall k :: 0 <= k < |Outer(es[..i], n)| ==> EntryPackable(Outer(es[..i], n)[k])
      invariant wb.content == base + WireEntries(Outer(es[..i], n))
    {
      ghost var out := Outer(es[..i], n);
      OuterMore(es[..i], es[i], n);
      assert es[..i] + [es[i]] == es[..i + 1];
      if InSlots(es[i].key, n) {
        assert Outer(es[..i + 1], n) == out;
      } else {
        SoundEntry(es, n, i);
        ok := PackEntry(wb, es[i], depth);
        if !ok {
          return;
        }
        WireEntriesMore(out, es[i]);
        Assoc(base, WireEntries(out), WireEntry(es[i]));
      }
      i := i + 1;
    }
    assert es[..|es|] == es;
    PutNil(wb);
    ok := true;
    Assoc(base, WireEntries(Outer(es, n)), [Tag(0, 0)]);
  }

  method PackEntry(wb: WriteBlock, e: Entry, depth: nat) returns (ok: bool)
    requires wb.Valid() && EntrySound(e) && 1 <= depth <= MAX_DEPTH + 1
    modifies wb, wb.repr
    ensures wb.Valid() && fresh(wb.repr - old(wb.repr))
    ensures ok <==> EntryFits(e, depth)
    ensures ok ==> EntryPackable(e) && wb.content == old(wb.content) + WireEntry(e)
    decreases MAX_DEPTH + 1 - depth, 1
  {
    hide WriteBlock.Valid;
    ok := PackOne(wb, e.key, depth);
    if ok {
      ok := PackOne(wb, e.val, depth);
      if ok {
        Assoc(old(wb.content), Wire(e.key), Wire(e.val));
      }
    }
  }

  /** Packs a list of values into one buffer, or fails. */
  method Pack(vs: seq<Value>) returns (r: Option<Bytes>)
    requires forall i :: 0 <= i < |vs| ==> Sound(vs[i])
    ensures r.Some? <==> forall i :: 0 <= i < |vs| ==> Supported(vs[i]) && Depth(vs[i]) <= MAX_DEPTH
    ensures r.Some? ==> (forall i :: 0 <= i < |vs| ==> Packable(vs[i])) && r.value == WireAll(vs)
  {
    hide WriteBlock.Valid, Wire, Fits, Sound, Supported;
    var wb := new WriteBlock();
    var i := 0;
    while i < |vs|
      invariant 0 <= i <= |vs| && fresh(wb) && fresh(wb.repr) && wb.Valid()
      invariant forall k :: 0 <= k < i ==> Packable(vs[k]) && Depth(vs[k]) <= MAX_DEPTH
      invariant wb.content == WireAll(vs[..i])
    {
      FitsIsDepth(vs[i], 0);
      var ok := PackOne(wb, vs[i], 0);
      if !ok {
        return None;
      }
      WireAllMore(vs[..i], vs[i]);
      assert vs[..i] + [vs[i]] == vs[..i + 1];
      i := i + 1;
    }
    assert vs[..|vs|] == vs;
    var out := wb.Flatten();
    r := Some(out);
  }

  // ---- Unpacking ----------------------------------------------------------

  /** A cursor over a received buffer: `ptr` bytes are behind it, `len` are left. */
  class ReadBlock {
    const buffer: Bytes
    var len: nat
    var ptr: nat

    ghost predicate Valid()
      reads this
    {
      ptr + len == |buffer|
    }

    ghost function Rest(): Bytes
      requires Valid()
      reads this
    {
      buffer[ptr..]
    }

    constructor (data: Bytes)
      ensures Valid() && Rest() == data
    {
      buffer, len, ptr := data, |data|, 0;
    }

    /** The next `sz` bytes, or nothing when fewer are left. */
    method Read(sz: nat) returns (r: Option<Bytes>)
      requires Valid()
      modifies this
      ensures Valid() && len <= old(len)
      ensures TakeBytes(old(Rest()), sz) == if r.None? then Bad else Got(r.value, Rest())
      ensures r.None? ==> Rest() == old(Rest())
    {
      if len < sz {
        return None;
      }
      var at := ptr;
      ptr := ptr + sz;
      len := len - sz;
      r := Some(buffer[at..at + sz]);
      assert old(Rest())[..sz] == r.value && old(Rest())[sz..] == Rest();
    }

    method GetInteger(cookie: nat) returns (r: Option<int>)
      requires Valid()
      modifies this
      ensures Valid() && len <= old(len)
      ensures TakeInteger(old(Rest()), cookie) == if r.None? then Bad else Got(r.value, Rest())
    {
      var width := if cookie == 1 then 1 else if cookie == 2 then 2 else if cookie == 4 then 4 else 8;
      if cookie == 0 {
        return Some(0);
      }
      if cookie != 1 && cookie != 2 && cookie != 4 && cookie != 6 {
        return None;
      }
      var b := Read(width);
      if b.None? {
        return None;
      }
      var n := FromLittle(b.value);
      r := Some(if cookie == 4 then Signed(n, TWO32) else if cookie == 6 then Signed(n, TWO64) else n);
    }

    method GetText(width: nat) returns (r: Option<Bytes>)
      requires Valid()
      modifies this
      ensures Valid() && len <= old(len)
      ensures TakeText(old(Rest()), width) == if r.None? then Bad else Got(r.value, Rest())
    {
      var b := Read(width);
      if b.None? {
        return None;
      }
      var n := FromLittle(b.value);
      if n >= INT_LIMIT {
        return None;
      }
      r := Read(n);
    }

    method GetCount(cookie: nat) returns (r: Option<int>)
      requires Valid()
      modifies this
      ensures Valid() && len <= old(len)
      ensures TakeCount(old(Rest()), cookie) == if r.None? then Bad else Got(r.value, Rest())
    {
      if cookie != MAX_COOKIE - 1 {
        return Some(cookie);
      }
      var t := Read(1);
      if t.None? || t.value[0] % 8 != 2 || t.value[0] / 8 == 8 {
        return None;
      }
      var n := GetInteger(t.value[0] / 8);
      r := if n.None? then None else Some(Signed(n.value % TWO32, TWO32));
    }

    method UnpackOne() returns (r: Option<Item>)
      requires Valid()
      modifies this
      ensures Valid() && len <= old(len)
      ensures TakeOne(old(Rest())) == if r.None? then Bad else Got(r.value, Rest())
      decreases len, 0
    {
      var t := Read(1);
      if t.None? {
        return None;
      }
      r := PushValue(t.value[0] % 8, t.value[0] / 8);
    }

    method PushValue(kind: nat, cookie: nat) returns (r: Option<Item>)
      requires Valid()
      modifies this
      ensures Valid() && len <= old(len)
      ensures TakeValue(kind, cookie, old(Rest())) == if r.None? then Bad else Got(r.value, Rest())
      decreases len, 3
    {
      match kind
      case 0 => r := Some(One(Nil));
      case 1 => r := Some(One(Boolean(cookie != 0)));
      case 2 =>
        if cookie == 8 {
          var b := Read(8);
          r := if b.None? then None else Some(One(Real(b.value)));
        } else {
          var n := GetInteger(cookie);
          r := if n.None? then None else Some(One(Integer(n.value)));
        }
      case 3 =>
        var b := Read(8);
        r := if b.None? then None else Some(One(Pointer(b.value)));
      case 4 =>
        var b := Read(cookie);
        r := if b.None? then None else Some(One(Text(b.value)));
      case 5 =>
        if cookie != 2 && cookie != 4 {
          return None;
        }
        var b := GetText(cookie);
        r := if b.None? then None else Some(One(Text(b.value)));
      case 6 =>
        var n := GetCount(cookie);
        if n.None? {
          return None;
        }
        r := UnpackTable(n.value);
      case _ => r := None;
    }

    method UnpackTable(size: int) returns (r: Option<Item>)
      requires Valid()
      modifies this
      ensures Valid() && len <= old(len)
      ensures TakeTable(if size < 0 then 0 else size, old(Rest())) == if r.None? then Bad else Got(r.value, Rest())
      decreases len, 2
    {
      ghost var n: nat := if size < 0 then 0 else size;
      ghost var was := Rest();
      var slots: seq<Item> := [];
      var i := 1;
      while i <= size
        invariant 1 <= i <= n + 1 && Valid() && len <= old(len)
        invariant TakeItems([], n, was) == TakeItems(slots, n + 1 - i, Rest())
      {
        var x := UnpackOne();
        if x.None? {
          return None;
        }
        slots := slots + [x.value];
        i := i + 1;
      }
      r := UnpackPairs(slots);
    }

    method UnpackPairs(start: seq<Item>) returns (r: Option<Item>)
      requires Valid()
      modifies this
      ensures Valid() && len <= old(len)
      ensures TakePairs(start, [], old(Rest())) == if r.None? then Bad else Got(r.value, Rest())
      decreases len, 1
    {
      ghost var was := Rest();
      var slots, pairs: seq<Pair> := start, [];
      while true
        invariant Valid() && len <= old(len)
        invariant TakePairs(start, [], was) == TakePairs(slots, pairs, Rest())
        decreases len
      {
        var key := UnpackOne();
        if key.None? {
          return None;
        }
        if key.value == One(Nil) {
          return Some(Many(slots, pairs));
        }
        var val := UnpackOne();
        if val.None? {
          return None;
        }
        var t := RawSet(slots, pairs, key.value, val.value);
        if t.None? {
          return None;
        }
        slots, pairs := t.value.0, t.value.1;
      }
    }
  }

  /** Reads values until the buffer is used up; nothing when the stream is invalid. */
  method Unpack(data: Bytes) returns (r: Option<seq<Item>>)
    ensures r == TakeAll([], data)
  {
    var rb := new ReadBlock(data);
    var done: seq<Item> := [];
    while true
      invariant fresh(rb) && rb.Valid() && TakeAll([], data) == TakeAll(done, rb.Rest())
      decreases rb.len
    {
      ghost var was := rb.Rest();
      var t := rb.Read(1);
      if t.None? {
        return Some(done);
      }
      assert was[1..] == rb.Rest();
      var x := rb.PushValue(t.value[0] % 8, t.value[0] / 8);
      if x.None? {
        return None;
      }
      done := done + [x.value];
    }
  }

  /** What was packed reads back as the same list of values. */
  lemma PackUnpack(vs: seq<Value>)
    requires forall i :: 0 <= i < |vs| ==> Packable(vs[i])
    ensures TakeAll([], WireAll(vs)) == Some(Views(vs))
  {
    assert forall i :: 0 <= i < |vs| ==> Supported(vs[i]);
    hide *;
    WireViews(vs);
    RoundTrip([], Views(vs));
    assert [] + Views(vs) == Views(vs);
  }
}
