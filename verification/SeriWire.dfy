/**
 * The wire format of the Lua value serialiser (lua-seri.c): what one value is
 * written as, how a stream of bytes is read back, and that reading undoes
 * writing.
 */
module SeriWire {
  import opened Common

  const MAX_COOKIE := 32
  const INT_LIMIT := 0x8000_0000
  const TWO32 := 0x1_0000_0000
  const TWO63 := 0x8000_0000_0000_0000
  const TWO64 := 0x1_0000_0000_0000_0000

  /** Doubles and light pointers are carried as their eight bytes. */
  datatype Atom = Nil | Boolean(b: bool) | Integer(n: int) | Real(bits: Bytes) | Pointer(bits: Bytes) | Text(s: Bytes)

  datatype Pair = Pair(key: Item, val: Item)

  /**
   * A value as the wire carries it. A table is its slots 1..n, holes included,
   * and its other entries in the order they were written.
   */
  datatype Item = One(atom: Atom) | Many(slots: seq<Item>, pairs: seq<Pair>)

  // ---- Integers as bytes, lowest byte first -------------------------------

  function Little(n: nat, k: nat): Bytes {
    if k == 0 then [] else [n % 256] + Little(n / 256, k - 1)
  }

  function FromLittle(b: Bytes): nat {
    if b == [] then 0 else b[0] + 256 * FromLittle(b[1..])
  }

  lemma {:induction false} LittleBack(n: nat, k: nat)
    ensures |Little(n, k)| == k
    ensures n < Pow(256, k) ==> FromLittle(Little(n, k)) == n
  {
    if k != 0 {
      LittleBack(n / 256, k - 1);
      assert Little(n, k)[1..] == Little(n / 256, k - 1);
    }
  }

  lemma Powers()
    ensures Pow(256, 1) == 0x100 && Pow(256, 2) == 0x1_0000 && Pow(256, 4) == TWO32 && Pow(256, 8) == TWO64
  {
    assert Pow(256, 1) == 256 * Pow(256, 0);
    assert Pow(256, 3) == 256 * Pow(256, 2);
    assert Pow(256, 5) == 256 * Pow(256, 4);
    assert Pow(256, 7) == 256 * Pow(256, 6);
  }

  /** The two's complement reading of an unsigned number below `range`. */
  function Signed(n: int, range: int): int {
    if n < range / 2 then n else n - range
  }

  predicate IsInt64(n: int) {
    -TWO63 <= n < TWO63
  }

  predicate IsInt32(n: int) {
    -INT_LIMIT <= n < INT_LIMIT
  }

  // ---- What is written ----------------------------------------------------

  function Tag(kind: nat, cookie: nat): Byte
    requires kind < 8 && cookie < 32
  {
    kind + 8 * cookie
  }

  function IntegerBytes(n: int): Bytes
    requires IsInt64(n)
  {
    if n == 0 then [Tag(2, 0)]
    else if !IsInt32(n) then [Tag(2, 6)] + Little(n % TWO64, 8)
    else if n < 0 then [Tag(2, 4)] + Little(n + TWO32, 4)
    else if n < 0x100 then [Tag(2, 1)] + Little(n, 1)
    else if n < 0x1_0000 then [Tag(2, 2)] + Little(n, 2)
    else [Tag(2, 4)] + Little(n, 4)
  }

  function TextBytes(s: Bytes): Bytes
    requires |s| < INT_LIMIT
  {
    if |s| < MAX_COOKIE then [Tag(4, |s|)] + s
    else if |s| < 0x1_0000 then [Tag(5, 2)] + Little(|s|, 2) + s
    else [Tag(5, 4)] + Little(|s|, 4) + s
  }

  predicate AtomOk(a: Atom) {
    match a
    case Integer(n) => IsInt64(n)
    case Real(bits) => |bits| == 8
    case Pointer(bits) => |bits| == 8
    case Text(s) => |s| < INT_LIMIT
    case _ => true
  }

  function AtomBytes(a: Atom): Bytes
    requires AtomOk(a)
  {
    match a
    case Nil => [Tag(0, 0)]
    case Boolean(b) => [Tag(1, if b then 1 else 0)]
    case Integer(n) => IntegerBytes(n)
    case Real(bits) => [Tag(2, 8)] + bits
    case Pointer(bits) => [Tag(3, 0)] + bits
    case Text(s) => TextBytes(s)
  }

  function TableHead(n: nat): Bytes
    requires n < INT_LIMIT
  {
    if n >= MAX_COOKIE - 1 then [Tag(6, MAX_COOKIE - 1)] + IntegerBytes(n) else [Tag(6, n)]
  }

  // ---- Keys ---------------------------------------------------------------

  predicate IsNaN(bits: Bytes) {
    var n := FromLittle(bits);
    (n / 0x10_0000_0000_0000) % 2048 == 2047 && n % 0x10_0000_0000_0000 != 0
  }

  /** The integer a double equals, when it equals one of 64 bits (IEEE 754 binary64). */
  function AsInteger(bits: Bytes): Option<int> {
    var n := FromLittle(bits);
    var exponent := (n / 0x10_0000_0000_0000) % 2048;
    var fraction := n % 0x10_0000_0000_0000;
    var significand := 0x10_0000_0000_0000 + fraction;
    var sign := if n >= TWO63 then -1 else 1;
    if exponent == 0 && fraction == 0 then Some(0)
    else if exponent < 1023 || exponent > 1086 then None
    else if exponent < 1075 then
      Pow2Positive(1075 - exponent);
      if significand % Pow(2, 1075 - exponent) == 0 then Some(sign * (significand / Pow(2, 1075 - exponent))) else None
    else
      var whole := sign * significand * Pow(2, exponent - 1075);
      if IsInt64(whole) then Some(whole) else None
  }

  lemma {:induction false} Pow2Positive(k: nat)
    ensures Pow(2, k) > 0
  {
    if k != 0 {
      Pow2Positive(k - 1);
    }
  }

  /** IEEE 754 binary64: a double that is a number is sign * significand * 2^(exponent - 1075). */
  function Exponent(bits: Bytes): nat {
    var e := FromLittle(bits) / 0x10_0000_0000_0000 % 2048;
    if e == 0 then 1 else e
  }

  function Significand(bits: Bytes): int {
    var n := FromLittle(bits);
    var m := n % 0x10_0000_0000_0000 + if n / 0x10_0000_0000_0000 % 2048 == 0 then 0 else 0x10_0000_0000_0000;
    if n >= TWO63 then -m else m
  }

  /** It is a number, and this integer. */
  predicate Equals(bits: Bytes, k: int) {
    && Exponent(bits) != 2047
    && if Exponent(bits) < 1075 then k * Pow(2, 1075 - Exponent(bits)) == Significand(bits)
       else k == Significand(bits) * Pow(2, Exponent(bits) - 1075)
  }

  lemma {:induction false} PowAtLeast(j: nat, k: nat)
    requires j <= k
    ensures Pow(2, k) >= Pow(2, j) > 0
    decreases k
  {
    Pow2Positive(j);
    if j < k {
      PowAtLeast(j, k - 1);
    }
  }

  /** A double is read as an integer key exactly if it is one that has 64 bits. */
  lemma AsIntegerIs(bits: Bytes, k: int)
    ensures AsInteger(bits) == Some(k) <==> IsInt64(k) && Equals(bits, k)
  {
    var n, e, v := FromLittle(bits), Exponent(bits), Significand(bits);
    assert 0 <= v <= 0x1f_ffff_ffff_ffff || 0 <= -v <= 0x1f_ffff_ffff_ffff;
    if e < 1023 {
      assert Pow(2, 53) == 0x20_0000_0000_0000 by { PowersOfTwo(); }
      PowAtLeast(53, 1075 - e);
      TooSmall(k, Pow(2, 1075 - e), v);
    } else if e < 1075 {
      Pow2Positive(1075 - e);
      Quotient(k, Pow(2, 1075 - e), v);
    } else if e > 1086 {
      assert Pow(2, 12) == 0x1000 by { PowersOfTwo(); }
      PowAtLeast(12, e - 1075);
      TooLarge(v, Pow(2, e - 1075));
    }
  }

  lemma PowersOfTwo()
    ensures Pow(2, 12) == 0x1000 && Pow(2, 53) == 0x20_0000_0000_0000
  {
    assert Pow(2, 12) == 0x1000;
    assert Pow(2, 24) == 0x100_0000;
    assert Pow(2, 36) == 0x10_0000_0000;
    assert Pow(2, 48) == 0x1_0000_0000_0000;
  }

  lemma TooSmall(k: int, p: int, v: int)
    requires p > 0 && -p < v < p
    ensures k * p == v <==> k == 0 && v == 0
  {
    Sign(p, k);
  }

  lemma Exact(j: int, p: int, w: int)
    requires p > 0 && w >= 0
    ensures j * p == w <==> w % p == 0 && j == w / p
    ensures 0 <= w / p <= w
  {
    if j * p == w {
      DivMod(w, p, j, 0);
    }
    QuotientBound(p, w / p, w);
  }

  lemma QuotientBound(p: int, q: int, w: int)
    requires p > 0 && w >= 0 && p * q <= w < p * q + p
    ensures 0 <= q <= w
  {
    Sign(p, q);
    if q > 0 {
      assert p * q >= q;
    }
  }

  lemma Quotient(k: int, p: int, v: int)
    requires p > 0
    ensures v >= 0 ==> (k * p == v <==> v % p == 0 && k == v / p) && 0 <= v / p <= v
    ensures v < 0 ==> (k * p == v <==> (-v) % p == 0 && k == -((-v) / p)) && 0 <= (-v) / p <= -v
  {
    if v >= 0 {
      Exact(k, p, v);
    } else {
      assert (-k) * p == -v <==> k * p == v;
      Exact(-k, p, -v);
    }
  }

  lemma TooLarge(v: int, p: int)
    requires p >= 0x1000 && (v >= 0x10_0000_0000_0000 || v <= -0x10_0000_0000_0000)
    ensures !IsInt64(v * p)
  {
    if v > 0 {
      assert v * p >= 0x10_0000_0000_0000 * p;
    } else {
      assert v * p <= -0x10_0000_0000_0000 * p;
    }
  }

  /** A key Lua can hold outside the slots 1..n: not nil, not NaN, and no double that equals an integer. */
  predicate KeyOk(key: Item, n: nat) {
    match key
    case Many(_, _) => true
    case One(Nil) => false
    case One(Integer(k)) => !(1 <= k <= n)
    case One(Real(bits)) => !IsNaN(bits) && AsInteger(bits).None?
    case One(_) => true
  }

  /** Two entries never share a key; tables are keys by identity, so equal contents are allowed. */
  ghost predicate KeysApart(pairs: seq<Pair>) {
    forall i, j :: 0 <= i < j < |pairs| && pairs[i].key == pairs[j].key ==> pairs[i].key.Many?
  }

  /** A value that can exist in Lua and has a place on the wire. */
  ghost predicate Plain(x: Item) {
    match x
    case One(a) => AtomOk(a)
    case Many(slots, pairs) =>
      && |slots| < INT_LIMIT
      && (forall i :: 0 <= i < |slots| ==> Plain(slots[i]))
      && (forall i :: 0 <= i < |pairs| ==> PairPlain(pairs[i], |slots|))
      && KeysApart(pairs)
  }

  ghost predicate PairPlain(p: Pair, n: nat) {
    Plain(p.key) && Plain(p.val) && KeyOk(p.key, n) && p.val != One(Nil)
  }

  function Encode(x: Item): Bytes
    requires Plain(x)
  {
    match x
    case One(a) => AtomBytes(a)
    case Many(slots, pairs) => TableHead(|slots|) + EncodeAll(slots) + EncodePairs(pairs, |slots|) + [Tag(0, 0)]
  }

  function EncodeAll(xs: seq<Item>): Bytes
    requires forall i :: 0 <= i < |xs| ==> Plain(xs[i])
  {
    if xs == [] then [] else Encode(xs[0]) + EncodeAll(xs[1..])
  }

  function EncodePairs(ps: seq<Pair>, n: nat): Bytes
    requires forall i :: 0 <= i < |ps| ==> PairPlain(ps[i], n)
  {
    if ps == [] then [] else EncodePair(ps[0], n) + EncodePairs(ps[1..], n)
  }

  function EncodePair(p: Pair, n: nat): Bytes
    requires PairPlain(p, n)
  {
    Encode(p.key) + Encode(p.val)
  }

  // ---- What is read -------------------------------------------------------

  /** `Bad` is an invalid stream; otherwise the value read and the bytes after it. */
  datatype Taken<+T> = Bad | Got(value: T, rest: Bytes)

  function TakeBytes(b: Bytes, n: nat): (r: Taken<Bytes>)
    ensures r.Got? ==> b == r.value + r.rest && |r.value| == n
  {
    if |b| < n then Bad else Got(b[..n], b[n..])
  }

  function TakeNumber(b: Bytes, k: nat): Taken<nat> {
    match TakeBytes(b, k)
    case Bad => Bad
    case Got(v, r) => Got(FromLittle(v), r)
  }

  function TakeInteger(b: Bytes, cookie: nat): (r: Taken<int>)
    ensures r.Got? ==> |r.rest| <= |b|
  {
    if cookie == 0 then Got(0, b)
    else if cookie == 1 then TakeNumber(b, 1)
    else if cookie == 2 then TakeNumber(b, 2)
    else if cookie == 4 then
      match TakeNumber(b, 4) { case Bad => Bad case Got(n, r) => Got(Signed(n, TWO32), r) }
    else if cookie == 6 then
      match TakeNumber(b, 8) { case Bad => Bad case Got(n, r) => Got(Signed(n, TWO64), r) }
    else Bad
  }

  function TakeText(b: Bytes, width: nat): Taken<Bytes> {
    match TakeNumber(b, width)
    case Bad => Bad
    case Got(n, r) => if n < INT_LIMIT then TakeBytes(r, n) else Bad
  }

  function AtomOf(t: Taken<Bytes>, make: Bytes -> Atom): Taken<Item> {
    match t
    case Bad => Bad
    case Got(v, r) => Got(One(make(v)), r)
  }

  /** The number of slots: the cookie itself, or an integer after it, cut to 32 bits. */
  function TakeCount(b: Bytes, cookie: nat): (r: Taken<int>)
    ensures r.Got? ==> |r.rest| <= |b|
  {
    if cookie != MAX_COOKIE - 1 then Got(cookie, b)
    else if b == [] || b[0] % 8 != 2 || b[0] / 8 == 8 then Bad
    else
      match TakeInteger(b[1..], b[0] / 8)
      case Bad => Bad
      case Got(n, r) => Got(Signed(n % TWO32, TWO32), r)
  }

  function IndexOf(pairs: seq<Pair>, key: Item): (r: Option<nat>)
    ensures r.None? <==> forall i :: 0 <= i < |pairs| ==> pairs[i].key != key
    ensures r.Some? ==> r.value < |pairs| && pairs[r.value].key == key
  {
    if pairs == [] then None
    else if pairs[0].key == key then Some(0)
    else
      var t := IndexOf(pairs[1..], key);
      assert forall i :: 0 < i < |pairs| ==> pairs[i] == pairs[1..][i - 1];
      if t.None? then None else Some(t.value + 1)
  }

  function Put(pairs: seq<Pair>, key: Item, val: Item): seq<Pair> {
    var at := if key.Many? then None else IndexOf(pairs, key);
    match at
    case None => if val == One(Nil) then pairs else pairs + [Pair(key, val)]
    case Some(i) => if val == One(Nil) then pairs[..i] + pairs[i + 1..] else pairs[i := Pair(key, val)]
  }

  /** Setting a key of a table being read; NaN is the one key that fails. */
  function RawSet(slots: seq<Item>, pairs: seq<Pair>, key: Item, val: Item): Option<(seq<Item>, seq<Pair>)> {
    if key.One? && key.atom.Real? && IsNaN(key.atom.bits) then None
    else
      var k := if key.One? && key.atom.Real? && AsInteger(key.atom.bits).Some?
               then One(Integer(AsInteger(key.atom.bits).value)) else key;
      if k.One? && k.atom.Integer? && 1 <= k.atom.n <= |slots| then Some((slots[k.atom.n - 1 := val], pairs))
      else Some((slots, Put(pairs, k, val)))
  }

  function TakeOne(b: Bytes): (r: Taken<Item>)
    ensures r.Got? ==> |r.rest| < |b|
    decreases |b|, 0
  {
    if b == [] then Bad else TakeValue(b[0] % 8, b[0] / 8, b[1..])
  }

  function TakeValue(kind: nat, cookie: nat, b: Bytes): (r: Taken<Item>)
    ensures r.Got? ==> |r.rest| <= |b|
    decreases |b|, 3
  {
    match kind
    case 0 => Got(One(Nil), b)
    case 1 => Got(One(Boolean(cookie != 0)), b)
    case 2 =>
      if cookie == 8 then AtomOf(TakeBytes(b, 8), v => Real(v))
      else (match TakeInteger(b, cookie) case Bad => Bad case Got(n, r) => Got(One(Integer(n)), r))
    case 3 => AtomOf(TakeBytes(b, 8), v => Pointer(v))
    case 4 => AtomOf(TakeBytes(b, cookie), v => Text(v))
    case 5 => if cookie == 2 || cookie == 4 then AtomOf(TakeText(b, cookie), v => Text(v)) else Bad
    case 6 =>
      (match TakeCount(b, cookie)
       case Bad => Bad
       case Got(n, r) => TakeTable(if n < 0 then 0 else n, r))
    case _ => Bad
  }

  function TakeTable(n: nat, b: Bytes): (r: Taken<Item>)
    ensures r.Got? ==> |r.rest| <= |b|
    decreases |b|, 2
  {
    match TakeItems([], n, b)
    case Bad => Bad
    case Got(slots, r) => TakePairs(slots, [], r)
  }

  function TakeItems(done: seq<Item>, n: nat, b: Bytes): (r: Taken<seq<Item>>)
    ensures r.Got? ==> |r.rest| <= |b|
    decreases |b|, 1
  {
    if n == 0 then Got(done, b)
    else
      match TakeOne(b)
      case Bad => Bad
      case Got(x, r) => TakeItems(done + [x], n - 1, r)
  }

  function TakePairs(slots: seq<Item>, pairs: seq<Pair>, b: Bytes): (r: Taken<Item>)
    ensures r.Got? ==> |r.rest| <= |b|
    decreases |b|, 1
  {
    match TakeOne(b)
    case Bad => Bad
    case Got(key, r) =>
      if key == One(Nil) then Got(Many(slots, pairs), r)
      else
        match TakeOne(r)
        case Bad => Bad
        case Got(val, r') =>
          match RawSet(slots, pairs, key, val)
          case None => Bad
          case Some(t) => TakePairs(t.0, t.1, r')
  }

  /** Values until the stream is used up. */
  function TakeAll(done: seq<Item>, b: Bytes): Option<seq<Item>>
    decreases |b|
  {
    if b == [] then Some(done)
    else
      match TakeOne(b)
      case Bad => None
      case Got(x, r) => TakeAll(done + [x], r)
  }

  // ---- Reading undoes writing ---------------------------------------------

  lemma TakeFront(a: Bytes, rest: Bytes)
    ensures TakeBytes(a + rest, |a|) == Got(a, rest)
  {
  }

  lemma TakeLittle(n: nat, k: nat, rest: Bytes)
    requires n < Pow(256, k)
    ensures TakeNumber(Little(n, k) + rest, k) == Got(n, rest)
  {
    LittleBack(n, k);
    TakeFront(Little(n, k), rest);
  }

  lemma HeadTail(t: Byte, a: Bytes, rest: Bytes)
    ensures ([t] + a + rest)[0] == t && ([t] + a + rest)[1..] == a + rest
  {
  }

  lemma TakeWritten(n: int, rest: Bytes)
    requires IsInt64(n)
    ensures var b := IntegerBytes(n) + rest; b[0] % 8 == 2 && b[0] / 8 != 8 && TakeInteger(b[1..], b[0] / 8) == Got(n, rest)
  {
    Powers();
    if n == 0 {
    } else if !IsInt32(n) {
      assert 0 <= n ==> n % TWO64 == n;
      assert n < 0 ==> n % TWO64 == n + TWO64;
      TakeLittle(n % TWO64, 8, rest);
      HeadTail(Tag(2, 6), Little(n % TWO64, 8), rest);
    } else if n < 0 {
      TakeLittle(n + TWO32, 4, rest);
      HeadTail(Tag(2, 4), Little(n + TWO32, 4), rest);
    } else if n < 0x100 {
      TakeLittle(n, 1, rest);
      HeadTail(Tag(2, 1), Little(n, 1), rest);
    } else if n < 0x1_0000 {
      TakeLittle(n, 2, rest);
      HeadTail(Tag(2, 2), Little(n, 2), rest);
    } else {
      TakeLittle(n, 4, rest);
      HeadTail(Tag(2, 4), Little(n, 4), rest);
    }
  }

  lemma TakeTextWritten(s: Bytes, rest: Bytes)
    requires |s| < INT_LIMIT
    ensures TakeOne(TextBytes(s) + rest) == Got(One(Text(s)), rest)
  {
    Powers();
    if |s| < MAX_COOKIE {
      HeadTail(Tag(4, |s|), s, rest);
      TakeFront(s, rest);
    } else {
      var w := if |s| < 0x1_0000 then 2 else 4;
      var size := Little(|s|, w);
      assert TextBytes(s) + rest == [Tag(5, w)] + size + (s + rest);
      HeadTail(Tag(5, w), size, s + rest);
      TakeLittle(|s|, w, s + rest);
      TakeFront(s, rest);
    }
  }

  lemma TakeAtomWritten(a: Atom, rest: Bytes)
    requires AtomOk(a)
    ensures TakeOne(AtomBytes(a) + rest) == Got(One(a), rest)
  {
    match a
    case Nil => HeadTail(Tag(0, 0), [], rest);
    case Boolean(b) => HeadTail(Tag(1, if b then 1 else 0), [], rest);
    case Integer(n) => TakeWritten(n, rest);
    case Real(bits) => HeadTail(Tag(2, 8), bits, rest); TakeFront(bits, rest);
    case Pointer(bits) => HeadTail(Tag(3, 0), bits, rest); TakeFront(bits, rest);
    case Text(s) => TakeTextWritten(s, rest);
  }

  lemma TakeHeadWritten(n: nat, rest: Bytes)
    requires n < INT_LIMIT
    ensures TakeOne(TableHead(n) + rest) == TakeTable(n, rest)
  {
    var b := TableHead(n) + rest;
    if n >= MAX_COOKIE - 1 {
      HeadTail(Tag(6, MAX_COOKIE - 1), IntegerBytes(n), rest);
      CountBack(n, rest);
    } else {
      assert b[1..] == rest && b[0] == Tag(6, n);
    }
    hide TakeCount, IntegerBytes, TakeInteger, TakeItems, TakePairs;
    assert TakeOne(b) == TakeValue(6, if n >= MAX_COOKIE - 1 then MAX_COOKIE - 1 else n, b[1..]);
  }

  lemma CountBack(n: nat, rest: Bytes)
    requires n < INT_LIMIT
    ensures TakeCount(IntegerBytes(n) + rest, MAX_COOKIE - 1) == Got(n, rest)
  {
    TakeWritten(n, rest);
    assert n % TWO32 == n;
  }

  /** Every encoding is self-delimiting: whatever follows, reading stops exactly behind it, with the value. */
  lemma {:induction false} SelfDelimiting(x: Item, rest: Bytes)
    requires Plain(x)
    ensures TakeOne(Encode(x) + rest) == Got(x, rest)
    decreases x, 0
  {
    match x
    case One(a) => TakeAtomWritten(a, rest);
    case Many(slots, pairs) =>
      var tail := EncodePairs(pairs, |slots|) + [Tag(0, 0)] + rest;
      assert Encode(x) + rest == TableHead(|slots|) + (EncodeAll(slots) + tail);
      TakeHeadWritten(|slots|, EncodeAll(slots) + tail);
      ItemsBack([], slots, tail);
      assert [] + slots == slots;
      PairsBack(slots, [], pairs, rest);
      assert [] + pairs == pairs;
  }

  lemma {:induction false} ItemsBack(done: seq<Item>, xs: seq<Item>, rest: Bytes)
    requires forall i :: 0 <= i < |xs| ==> Plain(xs[i])
    ensures TakeItems(done, |xs|, EncodeAll(xs) + rest) == Got(done + xs, rest)
    decreases xs, 1
  {
    if xs == [] {
      assert EncodeAll(xs) + rest == rest;
      assert done + xs == done;
    } else {
      var later := EncodeAll(xs[1..]) + rest;
      Assoc(Encode(xs[0]), EncodeAll(xs[1..]), rest);
      SelfDelimiting(xs[0], later);
      ItemsBack(done + [xs[0]], xs[1..], rest);
      assert done + [xs[0]] + xs[1..] == done + xs;
    }
  }

  lemma PutNew(slots: seq<Item>, pairs: seq<Pair>, p: Pair)
    requires KeyOk(p.key, |slots|) && p.val != One(Nil) && KeysApart(pairs + [p])
    ensures RawSet(slots, pairs, p.key, p.val) == Some((slots, pairs + [p]))
  {
    var all := pairs + [p];
    assert all[|pairs|] == p;
    if !p.key.Many? {
      forall i | 0 <= i < |pairs| ensures pairs[i].key != p.key {
        assert all[i] == pairs[i];
      }
    }
  }

  lemma {:induction false} PairsBack(slots: seq<Item>, done: seq<Pair>, ps: seq<Pair>, rest: Bytes)
    requires forall i :: 0 <= i < |ps| ==> PairPlain(ps[i], |slots|)
    requires KeysApart(done + ps)
    ensures TakePairs(slots, done, EncodePairs(ps, |slots|) + [Tag(0, 0)] + rest) == Got(Many(slots, done + ps), rest)
    decreases ps, 1
  {
    if ps == [] {
      assert EncodePairs(ps, |slots|) + [Tag(0, 0)] + rest == AtomBytes(Nil) + rest;
      TakeAtomWritten(Nil, rest);
      assert done + ps == done;
    } else {
      var p := ps[0];
      assert PairPlain(p, |slots|);
      var later := EncodePairs(ps[1..], |slots|) + [Tag(0, 0)] + rest;
      assert EncodePairs(ps, |slots|) + [Tag(0, 0)] + rest == EncodePair(p, |slots|) + later;
      PairBack(p, |slots|, later);
      assert (done + [p]) + ps[1..] == done + ps;
      PrefixApart(done + [p], ps[1..]);
      PutNew(slots, done, p);
      PairsBack(slots, done + [p], ps[1..], rest);
    }
  }

  lemma {:induction false} PairBack(p: Pair, n: nat, rest: Bytes)
    requires PairPlain(p, n)
    ensures TakeOne(EncodePair(p, n) + rest) == Got(p.key, Encode(p.val) + rest)
    ensures TakeOne(Encode(p.val) + rest) == Got(p.val, rest)
    decreases p, 0
  {
    Assoc(Encode(p.key), Encode(p.val), rest);
    SelfDelimiting(p.key, Encode(p.val) + rest);
    SelfDelimiting(p.val, rest);
  }

  lemma PrefixApart(a: seq<Pair>, b: seq<Pair>)
    requires KeysApart(a + b)
    ensures KeysApart(a)
  {
    forall i, j | 0 <= i < j < |a| && a[i].key == a[j].key ensures a[i].key.Many? {
      assert (a + b)[i] == a[i] && (a + b)[j] == a[j];
    }
  }

  /** Unpacking what was packed gives the same list of values. */
  lemma {:induction false} RoundTrip(done: seq<Item>, xs: seq<Item>)
    requires forall i :: 0 <= i < |xs| ==> Plain(xs[i])
    ensures TakeAll(done, EncodeAll(xs)) == Some(done + xs)
    decreases |xs|
  {
    if xs == [] {
      assert done + xs == done;
    } else {
      SelfDelimiting(xs[0], EncodeAll(xs[1..]));
      RoundTrip(done + [xs[0]], xs[1..]);
      assert done + [xs[0]] + xs[1..] == done + xs;
    }
  }

  // ---- Nothing shorter reads the same -------------------------------------

  /** The bytes an integer needs, by its range. */
  function IntegerSize(n: int): nat {
    if n == 0 then 1
    else if 0 < n < 0x100 then 2
    else if 0 < n < 0x1_0000 then 3
    else if IsInt32(n) then 5
    else 9
  }

  function TextSize(n: nat): nat {
    n + if n < MAX_COOKIE then 1 else if n < 0x1_0000 then 3 else 5
  }

  function HeadSize(n: nat): nat {
    if n < MAX_COOKIE - 1 then 1 else 1 + IntegerSize(n)
  }

  function AtomSize(a: Atom): nat {
    match a
    case Nil => 1
    case Boolean(_) => 1
    case Integer(n) => IntegerSize(n)
    case Real(bits) => 1 + |bits|
    case Pointer(bits) => 1 + |bits|
    case Text(s) => TextSize(|s|)
  }

  ghost function Size(x: Item): nat {
    match x
    case One(a) => AtomSize(a)
    case Many(slots, pairs) => HeadSize(|slots|) + SizeAll(slots) + SizePairs(pairs) + 1
  }

  ghost function SizeAll(xs: seq<Item>): nat {
    if xs == [] then 0 else SizeAll(xs[..|xs| - 1]) + Size(xs[|xs| - 1])
  }

  ghost function SizePairs(ps: seq<Pair>): nat {
    if ps == [] then 0 else SizePairs(ps[..|ps| - 1]) + PairSize(ps[|ps| - 1])
  }

  ghost function PairSize(p: Pair): nat {
    Size(p.key) + Size(p.val)
  }

  lemma IntegerBytesSize(n: int)
    requires IsInt64(n)
    ensures |IntegerBytes(n)| == IntegerSize(n)
  {
    LittleBack(n % TWO64, 8);
    if IsInt32(n) && n < 0 {
      LittleBack(n + TWO32, 4);
    } else if n >= 0 {
      LittleBack(n, 1);
      LittleBack(n, 2);
      LittleBack(n, 4);
    }
  }

  lemma AtomBytesSize(a: Atom)
    requires AtomOk(a)
    ensures |AtomBytes(a)| == AtomSize(a)
  {
    match a
    case Integer(n) => IntegerBytesSize(n);
    case Text(s) => LittleBack(|s|, 2); LittleBack(|s|, 4);
    case _ =>
  }

  lemma {:induction false} SizeAllFront(xs: seq<Item>)
    ensures xs != [] ==> SizeAll(xs) == Size(xs[0]) + SizeAll(xs[1..])
    decreases |xs|
  {
    if |xs| > 1 {
      SizeAllFront(xs[..|xs| - 1]);
      assert xs[..|xs| - 1][1..] == xs[1..][..|xs| - 2];
    }
  }

  lemma {:induction false} SizePairsFront(ps: seq<Pair>)
    ensures ps != [] ==> SizePairs(ps) == PairSize(ps[0]) + SizePairs(ps[1..])
    decreases |ps|
  {
    if |ps| > 1 {
      SizePairsFront(ps[..|ps| - 1]);
      assert ps[..|ps| - 1][1..] == ps[1..][..|ps| - 2];
    }
  }

  lemma {:induction false} EncodeSize(x: Item)
    requires Plain(x)
    ensures |Encode(x)| == Size(x)
    decreases x, 0
  {
    match x
    case One(a) => AtomBytesSize(a);
    case Many(slots, pairs) =>
      IntegerBytesSize(|slots|);
      EncodeAllSize(slots);
      EncodePairsSize(pairs, |slots|);
  }

  lemma {:induction false} EncodeAllSize(xs: seq<Item>)
    requires forall i :: 0 <= i < |xs| ==> Plain(xs[i])
    ensures |EncodeAll(xs)| == SizeAll(xs)
    decreases xs, 1
  {
    if xs != [] {
      EncodeSize(xs[0]);
      EncodeAllSize(xs[1..]);
      SizeAllFront(xs);
    }
  }

  lemma {:induction false} EncodePairsSize(ps: seq<Pair>, n: nat)
    requires forall i :: 0 <= i < |ps| ==> PairPlain(ps[i], n)
    ensures |EncodePairs(ps, n)| == SizePairs(ps)
    decreases ps, 1
  {
    if ps != [] {
      assert PairPlain(ps[0], n);
      EncodePairSize(ps[0], n);
      EncodePairsSize(ps[1..], n);
      SizePairsFront(ps);
    }
  }

  lemma {:induction false} EncodePairSize(p: Pair, n: nat)
    requires PairPlain(p, n)
    ensures |EncodePair(p, n)| == PairSize(p)
    decreases p, 0
  {
    EncodeSize(p.key);
    EncodeSize(p.val);
  }

  lemma {:induction false} FromLittleBound(b: Bytes)
    ensures FromLittle(b) < Pow(256, |b|)
  {
    if b != [] {
      FromLittleBound(b[1..]);
    }
  }

  lemma TakenInteger(b: Bytes, cookie: nat)
    ensures var r := TakeInteger(b, cookie); r.Got? ==> IsInt64(r.value) && IntegerSize(r.value) + |r.rest| <= 1 + |b|
  {
    Powers();
    var k := if cookie == 1 then 1 else if cookie == 2 then 2 else if cookie == 4 then 4 else 8;
    if k <= |b| {
      FromLittleBound(b[..k]);
    }
  }

  lemma TakenCount(b: Bytes, cookie: nat)
    requires cookie < MAX_COOKIE
    ensures var r := TakeCount(b, cookie); r.Got? && r.value >= 0 ==> HeadSize(r.value) + |r.rest| <= 1 + |b|
    ensures var r := TakeCount(b, cookie); r.Got? ==> |r.rest| <= |b|
  {
    if cookie == MAX_COOKIE - 1 && b != [] && b[0] % 8 == 2 && b[0] / 8 != 8 {
      TakenInteger(b[1..], b[0] / 8);
      var r := TakeInteger(b[1..], b[0] / 8);
      if r.Got? && IsInt32(r.value) {
        assert Signed(r.value % TWO32, TWO32) == r.value;
      }
    }
  }

  lemma TakenText(b: Bytes, width: nat)
    requires width == 2 || width == 4
    ensures var r := TakeText(b, width); r.Got? ==> TextSize(|r.value|) + |r.rest| <= 1 + |b|
  {
    Powers();
    if width <= |b| {
      FromLittleBound(b[..width]);
    }
  }

  lemma {:induction false} SlotSet(xs: seq<Item>, i: nat, x: Item)
    requires i < |xs|
    ensures SizeAll(xs[i := x]) + Size(xs[i]) == SizeAll(xs) + Size(x)
  {
    var n := |xs| - 1;
    if i < n {
      SlotSet(xs[..n], i, x);
      assert xs[i := x][..n] == xs[..n][i := x];
    } else {
      assert xs[i := x][..n] == xs[..n];
    }
  }

  lemma {:induction false} PairSet(ps: seq<Pair>, i: nat, p: Pair)
    requires i < |ps| && p.key == ps[i].key
    ensures SizePairs(ps[i := p]) <= SizePairs(ps) + Size(p.val)
    ensures SizePairs(ps[..i] + ps[i + 1..]) <= SizePairs(ps)
  {
    var n := |ps| - 1;
    var short := ps[..i] + ps[i + 1..];
    if i < n {
      PairSet(ps[..n], i, p);
      assert ps[i := p][..n] == ps[..n][i := p];
      assert short[..n - 1] == ps[..n][..i] + ps[..n][i + 1..];
      assert short[n - 1] == ps[n];
    } else {
      assert ps[i := p][..n] == ps[..n];
      assert short == ps[..n];
    }
  }

  lemma PutSize(ps: seq<Pair>, key: Item, val: Item)
    ensures SizePairs(Put(ps, key, val)) <= SizePairs(ps) + Size(key) + Size(val)
  {
    hide Size;
    var at := if key.Many? then None else IndexOf(ps, key);
    if at.Some? {
      PairSet(ps, at.value, Pair(key, val));
    } else {
      assert (ps + [Pair(key, val)])[..|ps|] == ps;
    }
  }

  /** Setting a key never makes a table need more than the key and the value were read from. */
  lemma RawSetSize(slots: seq<Item>, pairs: seq<Pair>, key: Item, val: Item)
    requires key.One? && key.atom.Real? ==> |key.atom.bits| == 8
    ensures var r := RawSet(slots, pairs, key, val);
      r.Some? ==> |r.value.0| == |slots| && SizeAll(r.value.0) + SizePairs(r.value.1) <= SizeAll(slots) + SizePairs(pairs) + Size(key) + Size(val)
  {
    hide AsInteger, IsNaN, Put;
    var k := if key.One? && key.atom.Real? && AsInteger(key.atom.bits).Some?
             then One(Integer(AsInteger(key.atom.bits).value)) else key;
    assert Size(k) <= Size(key);
    PutSize(pairs, k, val);
    if k.One? && k.atom.Integer? && 1 <= k.atom.n <= |slots| {
      SlotSet(slots, k.atom.n - 1, val);
    }
  }

  /** A double takes eight bytes wherever it was read. */
  predicate Eight(x: Item) {
    x.One? && x.atom.Real? ==> |x.atom.bits| == 8
  }

  lemma {:induction false} TakenSize(b: Bytes)
    ensures var r := TakeOne(b); r.Got? ==> Eight(r.value) && Size(r.value) + |r.rest| <= |b|
    decreases |b|, 0
  {
    if b != [] {
      TakenValue(b[0] % 8, b[0] / 8, b[1..]);
    }
  }

  lemma {:induction false} TakenValue(kind: nat, cookie: nat, b: Bytes)
    requires kind < 8 && cookie < MAX_COOKIE
    ensures var r := TakeValue(kind, cookie, b); r.Got? ==> Eight(r.value) && Size(r.value) + |r.rest| <= 1 + |b|
    decreases |b|, 3
  {
    if kind == 2 {
      TakenInteger(b, cookie);
    } else if kind == 5 && (cookie == 2 || cookie == 4) {
      TakenText(b, cookie);
    } else if kind == 6 {
      TakenCount(b, cookie);
      var c := TakeCount(b, cookie);
      if c.Got? {
        TakenTable(if c.value < 0 then 0 else c.value, c.rest);
      }
    }
  }

  lemma {:induction false} TakenTable(n: nat, b: Bytes)
    ensures var r := TakeTable(n, b); r.Got? ==> r.value.Many? && Size(r.value) + |r.rest| <= HeadSize(n) + |b|
    decreases |b|, 2
  {
    TakenItems([], n, b);
    var r := TakeItems([], n, b);
    if r.Got? {
      TakenPairs(r.value, [], r.rest);
    }
  }

  lemma {:induction false} TakenItems(done: seq<Item>, n: nat, b: Bytes)
    ensures var r := TakeItems(done, n, b); r.Got? ==> |r.value| == |done| + n && SizeAll(r.value) + |r.rest| <= SizeAll(done) + |b|
    decreases |b|, 1
  {
    if n != 0 {
      TakenSize(b);
      var r := TakeOne(b);
      if r.Got? {
        assert (done + [r.value])[..|done|] == done;
        TakenItems(done + [r.value], n - 1, r.rest);
      }
    }
  }

  lemma {:induction false} TakenPairs(slots: seq<Item>, pairs: seq<Pair>, b: Bytes)
    ensures var r := TakePairs(slots, pairs, b);
      r.Got? ==> r.value.Many? && Size(r.value) + |r.rest| <= HeadSize(|slots|) + SizeAll(slots) + SizePairs(pairs) + |b|
    decreases |b|, 1
  {
    hide RawSet;
    TakenSize(b);
    var k := TakeOne(b);
    if k.Got? && k.value != One(Nil) {
      TakenSize(k.rest);
      var v := TakeOne(k.rest);
      if v.Got? {
        RawSetSize(slots, pairs, k.value, v.value);
        var t := RawSet(slots, pairs, k.value, v.value);
        if t.Some? {
          TakenPairs(t.value.0, t.value.1, v.rest);
        }
      }
    }
  }

  /** All of a stream is one value, and it is this one. */
  predicate Reads(b: Bytes, x: Item) {
    TakeOne(b) == Got(x, [])
  }

  /** No stream that reads as a value is shorter than what the value is written as. */
  lemma Shortest(x: Item)
    requires Plain(x)
    ensures forall b :: Reads(b, x) ==> |Encode(x)| <= |b|
  {
    EncodeSize(x);
    forall b | Reads(b, x) ensures |Encode(x)| <= |b| {
      TakenSize(b);
    }
  }

  /** Nor is any head that announces as many slots shorter than the one written. */
  lemma ShortestHead(n: nat)
    requires n < INT_LIMIT
    ensures forall b :: Announces(b, n) ==> |TableHead(n)| <= |b|
  {
    IntegerBytesSize(n);
    forall b | Announces(b, n) ensures |TableHead(n)| <= |b| {
      TakenCount(b[1..], b[0] / 8);
    }
  }

  /** All of a stream is the head of a table with this many slots. */
  predicate Announces(b: Bytes, n: nat) {
    b != [] && b[0] % 8 == 6 && TakeCount(b[1..], b[0] / 8) == Got(n, [])
  }

  /** Nor is any stream that reads as a list of values shorter than what the list is written as. */
  lemma {:induction false} ShortestAll(done: seq<Item>, xs: seq<Item>, b: Bytes)
    requires (forall i :: 0 <= i < |xs| ==> Plain(xs[i])) && TakeAll(done, b) == Some(done + xs)
    ensures |EncodeAll(xs)| <= |b|
    decreases |b|
  {
    if b == [] {
      assert done + xs == done;
      assert xs == [];
    } else {
      var r := TakeOne(b);
      TakeAllKeeps(done + [r.value], r.rest);
      assert (done + xs)[..|done| + 1] == done + [r.value];
      assert |done| + |xs| == |done + xs| > |done|;
      assert xs[0] == (done + xs)[|done|] == (done + [r.value])[|done|] == r.value;
      assert done + [xs[0]] + xs[1..] == done + xs;
      TakenSize(b);
      EncodeSize(xs[0]);
      ShortestAll(done + [xs[0]], xs[1..], r.rest);
    }
  }

  lemma {:induction false} TakeAllKeeps(done: seq<Item>, b: Bytes)
    ensures var r := TakeAll(done, b); r.Some? ==> |done| <= |r.value| && r.value[..|done|] == done
    decreases |b|
  {
    if b != [] && TakeOne(b).Got? {
      TakeAllKeeps(done + [TakeOne(b).value], TakeOne(b).rest);
    }
  }
}
