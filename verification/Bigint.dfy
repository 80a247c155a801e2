/**
  Multi-word arithmetic (dtoa.c): little-endian arrays of 32-bit words, with carries and borrows
  in 64-bit registers. Each routine is proved to compute the arithmetic it is named for.
 */
module Bigints {
  import opened Common

  const W := 0x1_0000_0000
  const W2 := 0x1_0000_0000_0000_0000

  predicate Words(s: seq<int>) {
    forall i :: 0 <= i < |s| ==> 0 <= s[i] < W
  }

  /** The number a list of words stands for. */
  function Value(s: seq<int>): int {
    if s == [] then 0 else Value(s[..|s| - 1]) + s[|s| - 1] * Pow(W, |s| - 1)
  }

  // ---------------------------------------------------------------- numbers and words

  lemma {:induction false} PowPositive(b: nat, e: nat)
    requires b > 0
    ensures Pow(b, e) > 0
  {
    if e > 0 {
      PowPositive(b, e - 1);
      MulPositive(b, Pow(b, e - 1));
    }
  }

  lemma MulPositive(a: int, b: int)
    requires a > 0 && b > 0
    ensures a * b > 0
  {
  }

  lemma MulOrder(a: int, b: int, c: int)
    requires a <= b && c >= 0
    ensures a * c <= b * c
  {
  }

  lemma Distribute(a: int, b: int, c: int)
    ensures (a + b) * c == a * c + b * c && (a - b) * c == a * c - b * c
  {
  }

  lemma {:induction false} PowSum(b: nat, m: nat, n: nat)
    ensures Pow(b, m + n) == Pow(b, m) * Pow(b, n)
  {
    if m > 0 {
      PowSum(b, m - 1, n);
      assert b * (Pow(b, m - 1) * Pow(b, n)) == b * Pow(b, m - 1) * Pow(b, n);
    }
  }

  /** With n words one counts up to W^n. */
  lemma {:induction false} ValueBounds(s: seq<int>)
    requires Words(s)
    ensures 0 <= Value(s) < Pow(W, |s|)
  {
    if s != [] {
      var n := |s| - 1;
      ValueBounds(s[..n]);
      PowPositive(W, n);
      MulOrder(0, s[n], Pow(W, n));
      MulOrder(s[n], W - 1, Pow(W, n));
      Distribute(W, 1, Pow(W, n));
    }
  }

  lemma ValueSnoc(s: seq<int>, w: int)
    ensures Value(s + [w]) == Value(s) + w * Pow(W, |s|)
  {
    assert (s + [w])[..|s|] == s;
  }

  lemma ValuePrefix(s: seq<int>, i: nat)
    requires i < |s|
    ensures Value(s[..i + 1]) == Value(s[..i]) + s[i] * Pow(W, i)
  {
    assert s[..i + 1][..i] == s[..i];
  }

  lemma {:induction false} ValueZeros(s: seq<int>, i: nat)
    requires i <= |s| && forall j :: i <= j < |s| ==> s[j] == 0
    ensures Value(s) == Value(s[..i])
    decreases |s|
  {
    if i == |s| {
      assert s[..i] == s;
    } else {
      var t := s[..|s| - 1];
      ValueZeros(t, i);
      assert t[..i] == s[..i];
    }
  }

  /** No leading zero word; zero itself may have one word or none. */
  predicate Normal(s: seq<int>) {
    |s| <= 1 || s[|s| - 1] != 0
  }

  /** More words, with no leading zero, means more. */
  lemma LongerIsMore(a: seq<int>, b: seq<int>)
    requires Words(a) && Words(b) && |a| > |b| && a[|a| - 1] != 0
    ensures Value(a) > Value(b)
  {
    var n := |a| - 1;
    ValueBounds(a[..n]);
    ValueBounds(b);
    PowOrder(W, |b|, n);
    PowPositive(W, n);
    MulOrder(1, a[n], Pow(W, n));
  }

  lemma {:induction false} PowOrder(b: nat, m: nat, n: nat)
    requires b > 0 && m <= n
    ensures Pow(b, m) <= Pow(b, n)
  {
    if m < n {
      PowOrder(b, m, n - 1);
      PowPositive(b, n - 1);
      MulOrder(1, b, Pow(b, n - 1));
    }
  }

  /** Equal leading words leave the rest to decide. */
  lemma TopDecides(a: seq<int>, b: seq<int>, i: nat)
    requires Words(a) && Words(b) && |a| == |b| && i < |a| && a[i + 1..] == b[i + 1..] && a[i] < b[i]
    ensures Value(a) < Value(b)
  {
    ValueBounds(a[..i]);
    ValueBounds(b[..i]);
    ValuePrefix(a, i);
    ValuePrefix(b, i);
    PowPositive(W, i);
    MulOrder(a[i] + 1, b[i], Pow(W, i));
    Distribute(a[i], 1, Pow(W, i));
    SameTail(a, b, i + 1);
  }

  lemma {:induction false} SameTail(a: seq<int>, b: seq<int>, i: nat)
    requires |a| == |b| && i <= |a| && a[i..] == b[i..]
    ensures Value(a) - Value(a[..i]) == Value(b) - Value(b[..i])
  {
    if i == |a| {
      assert a[..i] == a && b[..i] == b;
    } else {
      var n := |a| - 1;
      assert a[n] == a[i..][n - i] && b[n] == b[i..][n - i];
      assert a[..n][i..] == a[i..][..n - i] && b[..n][i..] == b[i..][..n - i];
      SameTail(a[..n], b[..n], i);
      assert a[..n][..i] == a[..i] && b[..n][..i] == b[..i];
    }
  }

  // ---------------------------------------------------------------- one word at a time

  /** A 64-bit sum split into a word and a carry. */
  lemma CarryStep(v: int, u: int, x: int, m: int, carry: int, y: int, p: int, k: int)
    requires v + carry * p == m * u + k
    requires y == x * m + carry
    ensures (v + (y % W) * p) + (y / W) * (W * p) == m * (u + x * p) + k
  {
    SplitWord(y, p);
    assert y * p == m * (x * p) + carry * p by {
      Distribute(x * m, carry, p);
      assert x * m * p == m * (x * p);
    }
    assert m * (u + x * p) == m * u + m * (x * p);
  }

  lemma Product64(x: int, m: int, c: int)
    requires 0 <= x < W && 0 <= m < W && 0 <= c < W
    ensures 0 <= x * m + c < W2 && 0 <= (x * m + c) / W < W
  {
    MulOrder(x, W - 1, m);
    MulOrder(0, x, m);
    assert x * m + c <= (W - 1) * (W - 1) + W - 1;
  }

  lemma Sum64(x: int, y: int, c: int, z: int)
    requires 0 <= x < W && 0 <= y < W && 0 <= c < W && 0 <= z < W
    ensures 0 <= x * y + z + c < W2 && 0 <= (x * y + z + c) / W < W
  {
    MulOrder(x, W - 1, y);
    MulOrder(0, x, y);
    assert x * y <= (W - 1) * (W - 1);
  }

  // ---------------------------------------------------------------- the routines

  class Bigint {
    const k: nat
    const x: array<int>
    var sign: bool
    var wds: int

    /** Room for 2^k words. */
    ghost predicate Room()
      reads this
    {
      x.Length == Pow(2, k) && 0 <= wds <= x.Length
    }

    ghost predicate Valid()
      reads this, x
    {
      Room() && Words(x[..wds]) && Normal(x[..wds])
    }

    ghost function Num(): int
      reads this, x
      requires Room()
    {
      Value(x[..wds])
    }

    /** Balloc: what the words hold is not known. */
    constructor (k: nat)
      ensures this.k == k && fresh(x) && x.Length == Pow(2, k) && wds == 0 && !sign
    {
      PowPositive(2, k);
      this.k := k;
      var n := PowerOfTwo(k);
      x := new int[n];
      wds, sign := 0, false;
    }

    /** Bcopy. */
    method CopyFrom(b: Bigint)
      requires Room() && b.Room() && b.wds <= x.Length && b != this && b.x != x
      modifies this`wds, this`sign, x
      ensures wds == b.wds && sign == b.sign && Room() && x[..wds] == b.x[..wds]
    {
      var i := 0;
      while i < b.wds
        invariant 0 <= i <= b.wds && x[..i] == b.x[..i]
        modifies x
      {
        x[i] := b.x[i];
        i := i + 1;
      }
      wds, sign := b.wds, b.sign;
    }

    /** The loop of multadd. */
    method MultAddWords(m: int, a: int) returns (carry: int)
      requires Valid() && wds >= 1 && 1 <= m < 0x8000_0000 && 0 <= a < 0x8000_0000
      modifies x
      ensures Room() && Words(x[..wds]) && 0 <= carry < W
      ensures Value(x[..wds]) + carry * Pow(W, wds) == m * old(Num()) + a
      ensures carry == 0 ==> Normal(x[..wds])
    {
      hide Value, Pow, Normal, Words;
      ghost var s0 := x[..wds];
      var i := 0;
      carry := a;
      MultAddStart(x[..0], s0[..0], m, a);
      NormalIs(s0);
      while i < wds
        invariant 0 <= i <= wds && 0 <= carry < W && Words(x[..i])
        invariant forall j :: i <= j < wds ==> x[j] == s0[j]
        invariant Value(x[..i]) + carry * Pow(W, i) == m * Value(s0[..i]) + a
        invariant i == wds > 1 && carry == 0 ==> x[wds - 1] != 0
        modifies x
      {
        ghost var before := x[..i];
        var y := x[i] * m + carry;
        MultAddTurn(before, s0, i, m, carry, a);
        carry := y / W;
        x[i] := y % W;
        i := i + 1;
        assert x[..i] == before + [y % W];
      }
      assert s0[..i] == s0;
      assert carry == 0 ==> Normal(x[..wds]) by { NormalIs(x[..wds]); }
    }

    /** multadd: multiply by m and add a, in place if there is room. */
    method MultAdd(m: int, a: int) returns (r: Bigint)
      requires Valid() && wds >= 1 && 1 <= m < 0x8000_0000 && 0 <= a < 0x8000_0000
      modifies this`wds, x
      ensures r == this || (fresh(r) && fresh(r.x))
      ensures r.Valid() && r.wds >= 1 && r.Num() == m * old(Num()) + a && r.sign == sign
    {
      var carry := MultAddWords(m, a);
      r := this;
      if carry != 0 {
        if wds >= x.Length {
          r := new Bigint(k + 1);
          assert r.x.Length == 2 * x.Length;
          r.CopyFrom(this);
        }
        ghost var low := x[..wds];
        r.x[wds] := carry;
        assert r.x[..wds + 1] == low + [carry];
        ValueSnoc(low, carry);
        r.wds := r.wds + 1;
      }
    }

    /** Drops leading zero words, all of them if need be, and sets the count. */
    method TrimAll(n: int) returns (m: int)
      requires 0 <= n <= x.Length && x.Length == Pow(2, k) && Words(x[..n])
      modifies this`wds
      ensures Valid() && m == wds <= n && Num() == Value(x[..n]) && (wds == 0 <==> Num() == 0)
    {
      m := n;
      while m > 0 && x[m - 1] == 0
        invariant 0 <= m <= n && Value(x[..m]) == Value(x[..n]) && Words(x[..m])
      {
        ValuePrefix(x[..m], m - 1);
        assert x[..m][..m - 1] == x[..m - 1] && x[..m][..m] == x[..m];
        m := m - 1;
      }
      wds := m;
      if m > 0 {
        LongerIsMore(x[..m], []);
      }
    }

    /** Drops leading zero words of a number that is not zero. */
    method TrimTop(n: int)
      requires 0 <= n <= x.Length && x.Length == Pow(2, k) && Words(x[..n]) && Value(x[..n]) > 0
      modifies this`wds
      ensures Valid() && 1 <= wds <= n && Num() == Value(x[..n])
    {
      var m := n;
      while x[m - 1] == 0
        invariant 1 <= m <= n && Value(x[..m]) == Value(x[..n]) && Words(x[..m])
        decreases m
      {
        hide Pow;
        ValuePrefix(x[..m], m - 1);
        assert x[..m][..m - 1] == x[..m - 1] && x[..m][..m] == x[..m];
        m := m - 1;
      }
      wds := m;
    }

    /** i2b. */
    constructor FromInt(i: int)
      requires 0 <= i < W
      ensures Valid() && Num() == i && wds == 1 && !sign && fresh(x)
    {
      k := 1;
      x := new int[2];
      sign, wds := false, 1;
      new;
      x[0] := i;
      assert x[..1] == [i];
      assert Value([i]) == i by { ValueSnoc([], i); assert [] + [i] == [i]; }
      assert Pow(2, 1) == 2;
    }
  }

  /** The first i words of sa, times y, have been added to s0 from word j on. */
  ghost predicate Added(out: seq<int>, s0: seq<int>, sa: seq<int>, y: int, carry: int, j: nat, i: nat)
    requires j + i <= |s0| && i <= |sa|
  {
    Value(out) + carry * Pow(W, j + i) == Value(s0[..j + i]) + y * Value(sa[..i]) * Pow(W, j)
  }

  /** One turn of the inner loop of mult. */
  lemma ProductTurn(out: seq<int>, s0: seq<int>, sa: seq<int>, y: int, carry: int, j: nat, i: nat)
    requires Words(out) && Words(s0) && Words(sa) && 0 <= y < W && 0 <= carry < W
    requires |out| == j + i < |s0| && i < |sa| && Added(out, s0, sa, y, carry, j, i)
    ensures var z := sa[i] * y + s0[j + i] + carry;
            && 0 <= z < W2 && 0 <= z / W < W && Words(out + [z % W])
            && Added(out + [z % W], s0, sa, y, z / W, j, i + 1)
  {
    var z := sa[i] * y + s0[j + i] + carry;
    Sum64(sa[i], y, carry, s0[j + i]);
    PowSum(W, j, i);
    ProductStep(Value(out), Value(s0[..j + i]), Value(sa[..i]), sa[i], y, s0[j + i], carry, Pow(W, j), Pow(W, i), Pow(W, j + i));
    ValuePrefix(s0, j + i);
    ValuePrefix(sa, i);
    ValueSnoc(out, z % W);
  }

  /** The inner loop of mult: y times the first number, added in from word j on. */
  method AddProductWords(xc: array<int>, j: nat, xa: array<int>, wa: nat, y: int) returns (carry: int)
    requires xa != xc && wa <= xa.Length && j + wa < xc.Length && 0 <= y < W
    requires Words(xa[..wa]) && Words(xc[..j + wa])
    modifies xc
    ensures Words(xc[..j + wa]) && 0 <= carry < W
    ensures Value(xc[..j + wa]) + carry * Pow(W, j + wa) == old(Value(xc[..j + wa])) + y * Value(xa[..wa]) * Pow(W, j)
    ensures forall t :: j + wa <= t < xc.Length ==> xc[t] == old(xc[t])
  {
    ghost var s0, sa, out := xc[..j + wa], xa[..wa], xc[..j];
    var i := 0;
    carry := 0;
    assert sa[..0] == [] && s0[..j] == out;
    while i < wa
      invariant 0 <= i <= wa && 0 <= carry < W && Words(out) && |out| == j + i && xc[..j + i] == out
      invariant forall t :: j + i <= t < xc.Length ==> xc[t] == old(xc[t])
      invariant Added(out, s0, sa, y, carry, j, i)
    {
      assert s0[j + i] == xc[j + i] && sa[i] == xa[i];
      ProductTurn(out, s0, sa, y, carry, j, i);
      var z := xa[i] * y + xc[j + i] + carry;
      carry := z / W;
      xc[j + i] := z % W;
      out := out + [z % W];
      i := i + 1;
    }
    assert s0[..j + wa] == s0 && sa[..wa] == sa;
  }

  method AddProduct(xc: array<int>, j: nat, xa: array<int>, wa: nat, y: int)
    requires xa != xc && wa <= xa.Length && j + wa < xc.Length && 0 <= y < W
    requires Words(xa[..wa]) && Words(xc[..j + wa])
    modifies xc
    ensures Words(xc[..j + wa + 1])
    ensures Value(xc[..j + wa + 1]) == old(Value(xc[..j + wa])) + y * Value(xa[..wa]) * Pow(W, j)
    ensures forall t :: j + wa < t < xc.Length ==> xc[t] == old(xc[t])
  {
    var carry := AddProductWords(xc, j, xa, wa, y);
    ghost var low := xc[..j + wa];
    xc[j + wa] := carry;
    assert xc[..j + wa + 1] == low + [carry];
    ValueSnoc(low, carry);
  }

  method ZeroWords(x: array<int>, n: nat)
    requires n <= x.Length
    modifies x
    ensures forall t :: 0 <= t < n ==> x[t] == 0
  {
    var i := 0;
    while i < n
      invariant 0 <= i <= n && forall t :: 0 <= t < i ==> x[t] == 0
    {
      x[i] := 0;
      i := i + 1;
    }
  }

  /** The outer loop of mult: one word of the second number at a time, zero words skipped. */
  method MultWords(xc: array<int>, xa: array<int>, wa: nat, xb: array<int>, wb: nat)
    requires xc != xa && xc != xb && wa <= xa.Length && wb <= xb.Length && wa + wb <= xc.Length
    requires Words(xa[..wa]) && Words(xb[..wb]) && forall t :: 0 <= t < wa + wb ==> xc[t] == 0
    modifies xc
    ensures Words(xc[..wa + wb]) && Value(xc[..wa + wb]) == Value(xa[..wa]) * Value(xb[..wb])
  {
    hide Value, Pow, Words;
    ghost var vb, va := xb[..wb], Value(xa[..wa]);
    MultStart(xc[..wa], vb[..0], va);
    var j := 0;
    while j < wb
      invariant 0 <= j <= wb && Words(xc[..j + wa])
      invariant forall t :: j + wa <= t < wa + wb ==> xc[t] == 0
      invariant Value(xc[..j + wa]) == va * Value(vb[..j])
    {
      assert vb[j] == xb[j] && 0 <= xb[j] < W by { WordsAt(vb, j); }
      MultTurn(va, vb, j, xc[..j + wa]);
      if xb[j] != 0 {
        AddProduct(xc, j, xa, wa, xb[j]);
      } else {
        assert xc[..j + wa + 1] == xc[..j + wa] + [0];
      }
      assert xc[..j + wa + 1] == xc[..j + 1 + wa];
      j := j + 1;
    }
    assert vb[..j] == vb;
  }

  lemma MultStart(c: seq<int>, none: seq<int>, va: int)
    requires none == [] && forall t :: 0 <= t < |c| ==> c[t] == 0
    ensures Words(c) && Value(c) == va * Value(none)
  {
    ValueZeros(c, 0);
  }

  lemma WordsAt(s: seq<int>, j: nat)
    requires Words(s) && j < |s|
    ensures 0 <= s[j] < W
  {
  }

  lemma MultTurn(va: int, vb: seq<int>, j: nat, c: seq<int>)
    requires j < |vb| && Value(c) == va * Value(vb[..j])
    ensures va * Value(vb[..j + 1]) == Value(c) + vb[j] * va * Pow(W, j)
    ensures Value(c + [0]) == Value(c) && (Words(c) ==> Words(c + [0]))
  {
    ValuePrefix(vb, j);
    Distribute3(va, Value(vb[..j]), vb[j], Pow(W, j));
    ValueSnoc(c, 0);
  }

  lemma ProductStep(v: int, v0: int, u: int, x: int, y: int, c: int, carry: int, pj: int, pi: int, p: int)
    requires v + carry * p == v0 + y * u * pj && p == pj * pi
    ensures var z := x * y + c + carry;
            v + (z % W) * p + (z / W) * (W * p) == v0 + c * p + y * (u + x * pi) * pj
  {
    var z := x * y + c + carry;
    SplitWord(z, p);
    Distribute(x * y + c, carry, p);
    Distribute(x * y, c, p);
    Shifted(u, x, y, pj, pi);
  }

  lemma SplitWord(z: int, p: int)
    ensures (z % W) * p + (z / W) * (W * p) == z * p
  {
    var c, w := z / W, z % W;
    assert z == W * c + w;
    assert c * (W * p) == (W * c) * p;
    Distribute(W * c, w, p);
  }

  lemma Shifted(u: int, x: int, y: int, pj: int, pi: int)
    ensures y * (u + x * pi) * pj == y * u * pj + x * y * (pj * pi)
  {
    assert y * (u + x * pi) == y * u + y * (x * pi);
    Distribute(y * u, y * (x * pi), pj);
    MulFour(y, x, pi, pj);
  }

  lemma MulFour(y: int, x: int, pi: int, pj: int)
    ensures y * (x * pi) * pj == x * y * (pj * pi)
  {
    assert y * (x * pi) == (x * y) * pi;
    assert (x * y) * pi * pj == (x * y) * (pi * pj);
  }

  /** mult: the product, in a number of its own. It has no leading zero word; if it is zero it has none at all. */
  method Mult(a0: Bigint, b0: Bigint) returns (c: Bigint)
    requires a0.Valid() && b0.Valid() && a0.wds >= 1 && b0.wds >= 1
    ensures fresh(c) && fresh(c.x) && c.Valid() && c.Num() == a0.Num() * b0.Num()
    ensures c.wds == 0 <==> c.Num() == 0
    ensures !c.sign
  {
    var a, b := a0, b0;
    if a.wds < b.wds {
      a, b := b0, a0;
    }
    var k, wa, wb := a.k, a.wds, b.wds;
    var wc := wa + wb;
    if wc > a.x.Length {
      k := k + 1;
    }
    c := new Bigint(k);
    assert Pow(2, a.k + 1) == 2 * Pow(2, a.k);
    ZeroWords(c.x, wc);
    MultWords(c.x, a.x, wa, b.x, wb);
    MulSwap(a.Num(), b.Num());
    assert Value(c.x[..wc]) == a0.Num() * b0.Num();
    wc := c.TrimAll(wc);
  }

  lemma MulSwap(a: int, b: int)
    ensures a * b == b * a
  {
  }

  lemma Distribute3(a: int, v: int, y: int, p: int)
    ensures a * (v + y * p) == a * v + y * a * p
  {
    assert a * (y * p) == y * a * p;
  }

  lemma MultAddStart(x: seq<int>, s: seq<int>, m: int, a: int)
    requires x == [] && s == []
    ensures Value(x) + a * Pow(W, 0) == m * Value(s) + a && Words(x)
  {
  }

  lemma NormalIs(s: seq<int>)
    ensures Normal(s) <==> |s| <= 1 || s[|s| - 1] != 0
  {
  }

  /** One turn of the loop of multadd. */
  lemma MultAddTurn(before: seq<int>, s0: seq<int>, i: nat, m: int, carry: int, a: int)
    requires Words(before) && Words(s0) && |before| == i < |s0| && 1 <= m < 0x8000_0000 && 0 <= carry < W
    requires Value(before) + carry * Pow(W, i) == m * Value(s0[..i]) + a
    ensures var y := s0[i] * m + carry;
            && 0 <= y / W < W && Words(before + [y % W]) && Value(before + [y % W]) + y / W * Pow(W, i + 1) == m * Value(s0[..i + 1]) + a
            && (y / W == 0 && s0[i] != 0 ==> y % W != 0)
  {
    hide Value;
    var y := s0[i] * m + carry;
    Product64(s0[i], m, carry);
    CarryStep(Value(before), Value(s0[..i]), s0[i], m, carry, y, Pow(W, i), a);
    ValuePrefix(s0, i);
    TopStays(s0[i], m, carry);
    ValueSnoc(before, y % W);
  }

  /** A leading word that was not zero is not zero after multiplying, if nothing is carried out of it. */
  lemma TopStays(x: int, m: int, c: int)
    requires 0 <= x && 1 <= m && 0 <= c
    ensures x != 0 && (x * m + c) / W == 0 ==> (x * m + c) % W != 0
  {
    if x != 0 {
      MulOrder(1, x, m);
    }
  }

  method PowerOfTwo(k: nat) returns (n: nat)
    ensures n == Pow(2, k)
  {
    n := 1;
    var i := 0;
    while i < k
      invariant 0 <= i <= k && n == Pow(2, i)
    {
      n, i := n * 2, i + 1;
    }
  }

  /** cmp. The two must not both be without words, and one without words must face a number that is not zero. */
  method Cmp(a: Bigint, b: Bigint) returns (r: int)
    requires a.Valid() && b.Valid()
    requires a.wds == 0 ==> b.wds > 0 && b.Num() > 0
    requires b.wds == 0 ==> a.wds > 0 && a.Num() > 0
    ensures r < 0 <==> a.Num() < b.Num()
    ensures r > 0 <==> a.Num() > b.Num()
  {
    ghost var sa, sb := a.x[..a.wds], b.x[..b.wds];
    if a.wds != b.wds {
      LengthDecides(sa, sb);
      return a.wds - b.wds;
    }
    var i := a.wds;
    while i > 0
      invariant 0 <= i <= a.wds && sa[i..] == sb[i..]
    {
      i := i - 1;
      assert sa[i] == a.x[i] && sb[i] == b.x[i];
      if a.x[i] != b.x[i] {
        if a.x[i] < b.x[i] {
          TopDecides(sa, sb, i);
          return -1;
        }
        TopDecides(sb, sa, i);
        return 1;
      }
      assert sa[i..] == [sa[i]] + sa[i + 1..] && sb[i..] == [sb[i]] + sb[i + 1..];
    }
    assert sa == sa[0..] && sb == sb[0..];
    r := 0;
  }

  lemma LengthDecides(a: seq<int>, b: seq<int>)
    requires Words(a) && Words(b) && Normal(a) && Normal(b) && |a| != |b|
    requires a == [] ==> Value(b) > 0
    requires b == [] ==> Value(a) > 0
    ensures |a| < |b| <==> Value(a) < Value(b)
    ensures |a| > |b| <==> Value(a) > Value(b)
  {
    if |a| > |b| {
      if b != [] { LongerIsMore(a, b); }
    } else {
      if a != [] { LongerIsMore(b, a); }
    }
  }

  // ---------------------------------------------------------------- borrows

  /** A difference in a 64-bit register that wraps: the low word, and the borrow in bit 32. */
  function Wrapped(d: int): int {
    d % W2
  }

  lemma BorrowWord(d: int)
    requires -W <= d < W
    ensures var y := Wrapped(d); 0 <= y % W < W && 0 <= y / W % 2 <= 1 && y % W - W * (y / W % 2) == d
  {
    if d < 0 {
      assert Wrapped(d) == d + W2;
      assert (d + W2) / W == W - 1 && (d + W2) % W == d + W;
    }
  }

  /** After i words: out is what is left of them, short by the carry and the borrow. */
  ghost predicate Subtracted(out: seq<int>, sb: seq<int>, ss: seq<int>, q: int, carry: int, borrow: int, i: nat)
    requires i <= |sb| && i <= |ss|
  {
    Value(out) + q * Value(ss[..i]) == Value(sb[..i]) + (carry + borrow) * Pow(W, i)
  }

  lemma SubtractStep(v: int, vs: int, vb: int, s: int, b: int, q: int, carry: int, borrow: int, ys: int, c: int, w: int, bo: int, p: int,
                     v': int, vs': int, vb': int, p': int)
    requires v + q * vs == vb + (carry + borrow) * p
    requires ys == s * q + carry && w - W * bo == b - ys % W - borrow && c == ys / W
    requires v' == v + w * p && vs' == vs + s * p && vb' == vb + b * p && p' == W * p
    ensures v' + q * vs' == vb' + (c + bo) * p'
  {
    assert ys == W * c + ys % W;
    assert w == b - (s * q + carry - W * c) - borrow + W * bo;
    assert w * p == b * p - (s * q) * p - carry * p + (W * c) * p - borrow * p + (W * bo) * p by {
      SixTerms(b, s * q, carry, W * c, borrow, W * bo, p);
    }
    Distribute(carry, borrow, p);
    assert q * (vs + s * p) == q * vs + (s * q) * p by {
      assert q * (s * p) == (s * q) * p;
    }
    assert (c + bo) * (W * p) == (W * c) * p + (W * bo) * p by {
      Distribute(c, bo, W * p);
      assert c * (W * p) == (W * c) * p && bo * (W * p) == (W * bo) * p;
    }
  }

  lemma SixTerms(a: int, b: int, c: int, d: int, e: int, f: int, p: int)
    ensures (a - b - c + d - e + f) * p == a * p - b * p - c * p + d * p - e * p + f * p
  {
    Distribute(a, b, p);
    Distribute(a - b, c, p);
    Distribute(a - b - c, d, p);
    Distribute(a - b - c + d, e, p);
    Distribute(a - b - c + d - e, f, p);
  }

  lemma SubtractTurn(out: seq<int>, sb: seq<int>, ss: seq<int>, q: int, carry: int, borrow: int, i: nat)
    requires Words(out) && Words(sb) && Words(ss) && 0 <= q < W && 0 <= carry < W && 0 <= borrow <= 1
    requires |out| == i < |sb| && i < |ss| && Subtracted(out, sb, ss, q, carry, borrow, i)
    ensures var ys := ss[i] * q + carry; var y := Wrapped(sb[i] - ys % W - borrow);
            && 0 <= ys < W2 && 0 <= ys / W < W && 0 <= y / W % 2 <= 1 && Words(out + [y % W])
            && Subtracted(out + [y % W], sb, ss, q, ys / W, y / W % 2, i + 1)
  {
    var ys := ss[i] * q + carry;
    Product64(ss[i], q, carry);
    BorrowWord(sb[i] - ys % W - borrow);
    var y := Wrapped(sb[i] - ys % W - borrow);
    ValuePrefix(sb, i);
    ValuePrefix(ss, i);
    ValueSnoc(out, y % W);
    SubtractStep(Value(out), Value(ss[..i]), Value(sb[..i]), ss[i], sb[i], q, carry, borrow, ys, ys / W, y % W, y / W % 2, Pow(W, i),
                 Value(out + [y % W]), Value(ss[..i + 1]), Value(sb[..i + 1]), Pow(W, i + 1));
  }

  datatype Borrowing = Borrowing(out: seq<int>, carry: int, borrow: int)

  /** The loops below, turn by turn. */
  ghost function Sub(sb: seq<int>, ss: seq<int>, q: int, i: nat): (r: Borrowing)
    requires i <= |sb| && i <= |ss|
  {
    if i == 0 then Borrowing([], 0, 0) else
      var p := Sub(sb, ss, q, i - 1);
      var ys := ss[i - 1] * q + p.carry;
      var y := Wrapped(sb[i - 1] - ys % W - p.borrow);
      Borrowing(p.out + [y % W], ys / W, y / W % 2)
  }

  lemma NothingSubtracted(sb: seq<int>, ss: seq<int>, q: int)
    ensures Subtracted([], sb, ss, q, 0, 0, 0)
  {
  }

  lemma {:induction false} SubIs(sb: seq<int>, ss: seq<int>, q: int, i: nat)
    requires Words(sb) && Words(ss) && 0 <= q < W && i <= |sb| && i <= |ss|
    ensures var r := Sub(sb, ss, q, i);
            && |r.out| == i && Words(r.out) && 0 <= r.carry < W && 0 <= r.borrow <= 1
            && Subtracted(r.out, sb, ss, q, r.carry, r.borrow, i) && (q == 1 ==> r.carry == 0)
  {
    hide Value, Subtracted;
    if i == 0 {
      NothingSubtracted(sb, ss, q);
    } else {
      SubIs(sb, ss, q, i - 1);
      var p := Sub(sb, ss, q, i - 1);
      SubtractTurn(p.out, sb, ss, q, p.carry, p.borrow, i - 1);
    }
  }

  /** Both loops of quorem: q times S is taken from b, word by word. */
  method SubtractProduct(bx: array<int>, sx: array<int>, n: nat, q: int)
    requires bx != sx && n <= bx.Length && n <= sx.Length && Words(bx[..n]) && Words(sx[..n]) && 0 <= q < W
    requires q * Value(sx[..n]) <= Value(bx[..n])
    modifies bx
    ensures Words(bx[..n]) && Value(bx[..n]) == old(Value(bx[..n])) - q * Value(sx[..n])
    ensures forall t :: n <= t < bx.Length ==> bx[t] == old(bx[t])
  {
    hide Value;
    ghost var sb, ss := bx[..n], sx[..n];
    var i, borrow, carry := 0, 0, 0;
    while i < n
      invariant 0 <= i <= n && Borrowing(bx[..i], carry, borrow) == Sub(sb, ss, q, i)
      invariant forall t :: i <= t < bx.Length ==> bx[t] == old(bx[t])
    {
      ghost var out := bx[..i];
      var ys := sx[i] * q + carry;
      carry := ys / W;
      var y := Wrapped(bx[i] - ys % W - borrow);
      borrow := y / W % 2;
      bx[i] := y % W;
      i := i + 1;
      assert bx[..i] == out + [y % W];
    }
    SubIs(sb, ss, q, n);
    NothingOwed(bx[..n], sb, ss, q, carry, borrow, n);
  }

  lemma NothingOwed(out: seq<int>, sb: seq<int>, ss: seq<int>, q: int, carry: int, borrow: int, n: nat)
    requires |out| == |sb| == |ss| == n && Words(out) && Words(sb) && Words(ss)
    requires carry >= 0 && borrow >= 0 && Subtracted(out, sb, ss, q, carry, borrow, n) && q * Value(ss) <= Value(sb)
    ensures Value(out) == Value(sb) - q * Value(ss)
  {
    assert sb[..n] == sb && ss[..n] == ss;
    ValueBounds(out);
    if carry + borrow > 0 {
      MulOrder(1, carry + borrow, Pow(W, n));
    }
  }

  /** diff: the difference without its sign, and the sign. */
  method Diff(a0: Bigint, b0: Bigint) returns (c: Bigint)
    requires a0.Valid() && b0.Valid() && a0.wds >= 1 && b0.wds >= 1
    ensures fresh(c) && fresh(c.x) && c.Valid() && c.wds >= 1
    ensures c.sign == (a0.Num() < b0.Num())
    ensures c.Num() == if a0.Num() < b0.Num() then b0.Num() - a0.Num() else a0.Num() - b0.Num()
  {
    ZeroWordsNotLess(a0);
    ZeroWordsNotLess(b0);
    var i := Cmp(a0, b0);
    if i == 0 {
      c := new Bigint(0);
      c.wds := 1;
      c.x[0] := 0;
      assert c.x[..1] == [0] && Value([0]) == 0;
      return;
    }
    var a, b := a0, b0;
    if i < 0 {
      a, b := b0, a0;
    }
    c := new Bigint(a.k);
    c.sign := i < 0;
    LongerOrEqual(a.x[..a.wds], b.x[..b.wds]);
    DiffWords(c.x, a.x, a.wds, b.x, b.wds);
    c.TrimTop(a.wds);
  }

  lemma DiffTurn(sa: seq<int>, sb: seq<int>, i: nat)
    requires Words(sa) && Words(sb) && i < |sa| && i < |sb|
    ensures var r := Sub(sa, sb, 1, i); var y := Wrapped(sa[i] - sb[i] - r.borrow);
            r.carry == 0 && Sub(sa, sb, 1, i + 1) == Borrowing(r.out + [y % W], 0, y / W % 2)
  {
    SubIs(sa, sb, 1, i);
  }

  /** The first loop of diff: while both numbers have words. */
  method DiffBoth(xc: array<int>, xa: array<int>, xb: array<int>, wb: nat, ghost sa: seq<int>, ghost sb: seq<int>) returns (borrow: int)
    requires xc != xa && xc != xb && wb <= xa.Length && wb <= xb.Length && wb <= xc.Length
    requires Words(sa) && Words(sb) && wb <= |sa| && wb <= |sb| && sa[..wb] == xa[..wb] && sb[..wb] == xb[..wb]
    modifies xc
    ensures Borrowing(xc[..wb], 0, borrow) == Sub(sa, sb, 1, wb)
  {
    var i := 0;
    borrow := 0;
    while i < wb
      invariant 0 <= i <= wb && Borrowing(xc[..i], 0, borrow) == Sub(sa, sb, 1, i)
    {
      ghost var out := xc[..i];
      assert sa[i] == xa[..wb][i] && sb[i] == xb[..wb][i];
      DiffTurn(sa, sb, i);
      var y := Wrapped(xa[i] - xb[i] - borrow);
      borrow := y / W % 2;
      xc[i] := y % W;
      i := i + 1;
      assert xc[..i] == out + [y % W];
    }
  }

  /** The second loop of diff: the longer number's words that are left. */
  method DiffRest(xc: array<int>, xa: array<int>, wa: nat, wb: nat, borrow0: int, ghost sa: seq<int>, ghost sb: seq<int>) returns (borrow: int)
    requires xc != xa && wb <= wa <= xa.Length && wa <= xc.Length
    requires Words(sa) && Words(sb) && |sa| == |sb| == wa && sa == xa[..wa] && (forall t :: wb <= t < wa ==> sb[t] == 0)
    requires Borrowing(xc[..wb], 0, borrow0) == Sub(sa, sb, 1, wb)
    modifies xc
    ensures Borrowing(xc[..wa], 0, borrow) == Sub(sa, sb, 1, wa)
  {
    var i := wb;
    borrow := borrow0;
    while i < wa
      invariant wb <= i <= wa && Borrowing(xc[..i], 0, borrow) == Sub(sa, sb, 1, i)
    {
      ghost var out := xc[..i];
      DiffTurn(sa, sb, i);
      var y := Wrapped(xa[i] - borrow);
      borrow := y / W % 2;
      xc[i] := y % W;
      i := i + 1;
      assert xc[..i] == out + [y % W];
    }
  }

  method DiffWords(xc: array<int>, xa: array<int>, wa: nat, xb: array<int>, wb: nat)
    requires xc != xa && xc != xb && wb <= wa <= xa.Length && wb <= xb.Length && wa <= xc.Length
    requires Words(xa[..wa]) && Words(xb[..wb]) && Value(xb[..wb]) <= Value(xa[..wa])
    modifies xc
    ensures Words(xc[..wa]) && Value(xc[..wa]) == Value(xa[..wa]) - Value(xb[..wb])
  {
    ghost var sa, sb := xa[..wa], xb[..wb] + seq(wa - wb, _ => 0);
    ValueZeros(sb, wb);
    assert sb[..wb] == xb[..wb] && sa[..wb] == xa[..wb];
    var borrow := DiffBoth(xc, xa, xb, wb, sa, sb);
    borrow := DiffRest(xc, xa, wa, wb, borrow, sa, sb);
    SubIs(sa, sb, 1, wa);
    NothingOwed(xc[..wa], sa, sb, 1, 0, borrow, wa);
  }

  lemma ZeroWordsNotLess(a: Bigint)
    requires a.Valid()
    ensures a.Num() >= 0
  {
    ValueBounds(a.x[..a.wds]);
  }

  lemma LongerOrEqual(a: seq<int>, b: seq<int>)
    requires Words(a) && Words(b) && Normal(a) && Normal(b) && |a| >= 1 && Value(b) < Value(a)
    ensures |b| <= |a|
  {
    if |b| > |a| {
      LongerIsMore(b, a);
    }
  }

  // ---------------------------------------------------------------- shifting

  /** The loop of lshift, word by word: what is put down and what is carried over. */
  ghost function ShiftedWords(s: seq<int>, p: int, i: nat): (r: (seq<int>, int))
    requires i <= |s| && 0 < p && W % p == 0
  {
    if i == 0 then ([], 0) else
      var q := ShiftedWords(s, p, i - 1);
      (q.0 + [s[i - 1] * p % W + q.1], s[i - 1] / (W / p))
  }

  /** Shifting a word left and putting the carried bits in its low end is multiplying and adding. */
  lemma ShiftIsMultiply(x: int, p: int, p1: int, z: int)
    requires 0 <= x < W && 0 < p && 0 < p1 && p * p1 == W && 0 <= z < p
    ensures x * p % W + z == (x * p + z) % W && x / p1 == (x * p + z) / W && 0 <= x / p1 < p
    ensures 0 <= x * p % W + z < W && W / p == p1
  {
    var h, l := x / p1, x % p1;
    assert x == h * p1 + l;
    assert x * p == h * W + l * p by {
      Distribute(h * p1, l, p);
      assert h * p1 * p == h * (p * p1);
    }
    MulOrder(l, p1 - 1, p);
    MulOrder(0, l, p);
    Distribute(p1, 1, p);
    assert p1 * p == W;
    DivModUnique(x * p + z, h, l * p + z);
    DivModUnique(x * p, h, l * p);
    if h >= p { MulOrder(p, h, p1); }
    MulNonNeg(x, p1);
    QuotientOf(p, p1);
  }

  lemma QuotientOf(p: int, p1: int)
    requires 0 < p && 0 < p1 && p * p1 == W
    ensures W / p == p1 && W % p == 0
  {
    var q, r := W / p, W % p;
    assert p * q + r == p * p1;
    assert p * (p1 - q) == r by {
      Distribute(p1, q, p);
    }
    if p1 - q >= 1 { MulOrder(1, p1 - q, p); }
    if p1 - q <= -1 { MulOrder(p1 - q, -1, p); }
  }

  lemma MulNonNeg(x: int, p: int)
    requires x >= 0 && p > 0
    ensures x / p >= 0
  {
  }

  lemma DivModUnique(n: int, q: int, r: int)
    requires n == q * W + r && 0 <= r < W
    ensures n / W == q && n % W == r
  {
  }

  /** i words have been shifted: what was put down and what is carried over make up the product. */
  ghost predicate ShiftSum(out: seq<int>, z: int, s: seq<int>, p: int, i: nat)
    requires i <= |s|
  {
    Value(out) + z * Pow(W, i) == p * Value(s[..i])
  }

  lemma ShiftTurn(out: seq<int>, s: seq<int>, p: int, p1: int, z: int, i: nat, w: int, z': int)
    requires Words(out) && Words(s) && |out| == i < |s| && 0 < p && 0 < p1 && p * p1 == W && 0 <= z < p
    requires ShiftSum(out, z, s, p, i) && w == s[i] * p % W + z && z' == s[i] / p1
    ensures 0 <= w < W && 0 <= z' < p && Words(out + [w]) && ShiftSum(out + [w], z', s, p, i + 1)
    ensures s[i] != 0 && z' == 0 ==> w != 0
  {
    var x := s[i];
    ShiftIsMultiply(x, p, p1, z);
    CarryStep(Value(out), Value(s[..i]), x, p, z, x * p + z, Pow(W, i), 0);
    ValuePrefix(s, i);
    ValueSnoc(out, (x * p + z) % W);
    TopStays(x, p, z);
  }

  lemma {:induction false} ShiftedIs(s: seq<int>, p: int, p1: int, i: nat)
    requires Words(s) && i <= |s| && 0 < p && 0 < p1 && p * p1 == W && W % p == 0
    ensures var r := ShiftedWords(s, p, i);
            && |r.0| == i && Words(r.0) && 0 <= r.1 < p && ShiftSum(r.0, r.1, s, p, i)
            && (i > 0 && s[i - 1] != 0 && r.1 == 0 ==> r.0[i - 1] != 0)
  {
    if i > 0 {
      ShiftedIs(s, p, p1, i - 1);
      QuotientOf(p, p1);
      var q, r := ShiftedWords(s, p, i - 1), ShiftedWords(s, p, i);
      var w := s[i - 1] * p % W + q.1;
      assert r == (q.0 + [w], s[i - 1] / p1);
      ShiftTurn(q.0, s, p, p1, q.1, i - 1, w, r.1);
    }
  }

  lemma {:induction false} ValueBehindZeros(n: nat, s: seq<int>)
    ensures Value(seq(n, _ => 0) + s) == Pow(W, n) * Value(s)
    decreases |s|
  {
    var z: seq<int> := seq(n, _ => 0);
    if s == [] {
      assert z + s == z;
      ValueZeros(z, 0);
    } else {
      var t, w := s[..|s| - 1], s[|s| - 1];
      ValueBehindZeros(n, t);
      assert z + s == (z + t) + [w];
      ValueSnoc(z + t, w);
      PowSum(W, n, |t|);
      ScaleSum(Pow(W, n), Value(t), w, Pow(W, |t|));
    }
  }

  lemma ScaleSum(a: int, v: int, w: int, p: int)
    ensures a * (v + w * p) == a * v + w * (a * p)
  {
    assert a * (w * p) == w * (a * p);
  }

  /** The loops of lshift over the words. */
  method ShiftWords(x1: array<int>, n: nat, x: array<int>, wds: nat, p: int, p1: int) returns (z: int)
    requires x1 != x && wds <= x.Length && n + wds < x1.Length && Words(x[..wds])
    requires 0 < p && 0 < p1 && p * p1 == W && (forall t :: 0 <= t < n ==> x1[t] == 0)
    modifies x1
    ensures W % p == 0 && (x1[n..n + wds], z) == ShiftedWords(x[..wds], p, wds)
    ensures forall t :: 0 <= t < n ==> x1[t] == 0
  {
    ghost var s := x[..wds];
    QuotientOf(p, p1);
    var i := 0;
    z := 0;
    assert x1[n..n + 0] == [];
    while i < wds
      invariant 0 <= i <= wds && (x1[n..n + i], z) == ShiftedWords(s, p, i)
      invariant forall t :: 0 <= t < n ==> x1[t] == 0
    {
      ghost var out := x1[n..n + i];
      assert s[i] == x[i];
      x1[n + i] := x[i] * p % W + z;
      z := x[i] / p1;
      i := i + 1;
      assert x1[n..n + i] == out + [x1[n + i - 1]];
    }
  }

  /** What the words of lshift amount to. */
  lemma ShiftResult(s: seq<int>, n: nat, p: int, p1: int, out: seq<int>, z: int)
    requires Words(s) && Normal(s) && 0 < p && 0 < p1 && p * p1 == W && W % p == 0
    requires (out, z) == ShiftedWords(s, p, |s|) && Value(s) > 0
    ensures Words(out) && 0 <= z < W && |out| == |s| && Words(AllWords(n, out, z))
    ensures Value(AllWords(n, out, z)) == Value(s) * p * Pow(W, n) && Normal(AllWords(n, out, z))
  {
    ShiftedIs(s, p, p1, |s|);
    assert s[..|s|] == s;
    MulOrder(1, p1, p);
    ShiftValue(n, out, z, p * Value(s));
    ScaleOrder(Value(s), p, Pow(W, n));
    NotZero(s);
    ShiftNormal(n, out, z);
  }

  lemma ScaleOrder(v: int, p: int, q: int)
    ensures q * (p * v) == v * p * q
  {
    MulSwap(p, v);
    MulSwap(q, p * v);
  }

  lemma NotZero(s: seq<int>)
    requires Normal(s) && Value(s) > 0
    ensures s != [] && s[|s| - 1] != 0
  {
    if |s| == 1 {
      assert Value(s) == Value(s[..0]) + s[0] * Pow(W, 0);
    }
  }

  lemma ShiftNormal(n: nat, out: seq<int>, z: int)
    requires Words(out) && 0 <= z < W && out != [] && (z == 0 ==> out[|out| - 1] != 0)
    ensures Normal(AllWords(n, out, z)) && Words(AllWords(n, out, z))
  {
    var r := AllWords(n, out, z);
    assert r[|r| - 1] == if z != 0 then z else out[|out| - 1];
  }

  ghost function AllWords(n: nat, out: seq<int>, z: int): seq<int> {
    seq(n, _ => 0) + out + if z != 0 then [z] else []
  }

  lemma AllWordsIs(n: nat, out: seq<int>, z: int)
    ensures AllWords(n, out, z) == seq(n, _ => 0) + out + if z != 0 then [z] else []
  {
  }

  lemma ShiftValue(n: nat, out: seq<int>, z: int, v: int)
    requires Value(out) + z * Pow(W, |out|) == v
    ensures Value(AllWords(n, out, z)) == Pow(W, n) * v
  {
    var t := out + if z != 0 then [z] else [];
    ValueSnoc(out, z);
    assert z == 0 ==> t == out;
    assert AllWords(n, out, z) == seq(n, _ => 0) + t;
    ValueBehindZeros(n, t);
  }

  /** lshift: the number shifted left by k bits, in a number of its own. */
  method LShift(b: Bigint, k0: nat) returns (r: Bigint)
    requires b.Valid() && b.wds >= 1 && b.Num() > 0
    ensures fresh(r) && fresh(r.x) && r.Valid() && r.wds >= 1 && r.Num() == b.Num() * Pow(2, k0) && !r.sign
  {
    var n, k := k0 / 32, k0 % 32;
    var k1, n1 := b.k, n + b.wds + 1;
    var i := b.x.Length;
    while n1 > i
      invariant i == Pow(2, k1) && i >= 1
      decreases n1 - i
    {
      i, k1 := i * 2, k1 + 1;
    }
    r := new Bigint(k1);
    ShiftPowers(k0, n, k);
    var p := PowerOfTwo(k);
    var p1 := PowerOfTwo(32 - k);
    var z := ShiftInto(r.x, n, b, p, p1);
    if z != 0 {
      n1 := n1 + 1;
    }
    r.wds := n1 - 1;
  }

  /** The words of lshift, with the last bits carried out of them. */
  method ShiftInto(x1: array<int>, n: nat, b: Bigint, p: int, p1: int) returns (z: int)
    requires b.Valid() && b.Num() > 0 && x1 != b.x && n + b.wds < x1.Length && 0 < p && 0 < p1 && p * p1 == W
    modifies x1
    ensures var m := n + b.wds + (if z != 0 then 1 else 0);
            Words(x1[..m]) && Normal(x1[..m]) && Value(x1[..m]) == b.Num() * p * Pow(W, n)
  {
    hide Value, Words, Normal, Pow, AllWords;
    ZeroWords(x1, n);
    z := ShiftWords(x1, n, b.x, b.wds, p, p1);
    ghost var out := x1[n..n + b.wds];
    ShiftResult(b.x[..b.wds], n, p, p1, out, z);
    assert x1[..n + b.wds] == seq(n, _ => 0) + out;
    AllWordsIs(n, out, z);
    if z != 0 {
      x1[n + b.wds] := z;
      assert x1[..n + b.wds + 1] == AllWords(n, out, z);
    } else {
      assert x1[..n + b.wds] == AllWords(n, out, z);
    }
  }

  lemma {:induction false} PowOfPow(b: nat, m: nat, n: nat)
    ensures Pow(Pow(b, m), n) == Pow(b, m * n)
  {
    if n > 0 {
      PowOfPow(b, m, n - 1);
      PowSum(b, m, m * (n - 1));
      assert m + m * (n - 1) == m * n;
    }
  }

  lemma ShiftPowers(k0: nat, n: nat, k: nat)
    requires k0 == 32 * n + k && k < 32
    ensures Pow(2, k) * Pow(2, 32 - k) == W && Pow(2, k) > 0 && Pow(2, 32 - k) > 0
    ensures Pow(2, k0) == Pow(2, k) * Pow(W, n)
    ensures forall v: int :: v * Pow(2, k) * Pow(W, n) == v * Pow(2, k0)
  {
    PowSum(2, k, 32 - k);
    PowThirtyTwo();
    PowPositive(2, k);
    PowPositive(2, 32 - k);
    PowOfPow(2, 32, n);
    PowSum(2, k, 32 * n);
    forall v: int ensures v * Pow(2, k) * Pow(W, n) == v * Pow(2, k0) {
      MulThree(v, Pow(2, k), Pow(W, n));
    }
  }

  lemma PowThirtyTwo()
    ensures Pow(2, 32) == W
  {
    assert Pow(2, 8) == 256;
    PowSum(2, 8, 8);
    PowSum(2, 16, 16);
  }

  // ---------------------------------------------------------------- powers of five

  /** What entry i of the list is worth. */
  ghost function FivePower(i: nat): nat {
    Pow(5, 4 * Pow(2, i))
  }

  lemma FivePowers(i: nat)
    ensures FivePower(0) == 625 && FivePower(i) > 0 && FivePower(i + 1) == FivePower(i) * FivePower(i)
  {
    SmallPowers();
    PowPositive(5, 4 * Pow(2, i));
    PowSum(5, 4 * Pow(2, i), 4 * Pow(2, i));
    assert 4 * Pow(2, i + 1) == 4 * Pow(2, i) + 4 * Pow(2, i);
  }

  lemma SmallPowers()
    ensures Pow(5, 0) == 1 && Pow(5, 1) == 5 && Pow(5, 2) == 25 && Pow(5, 3) == 125 && Pow(5, 4) == 625
  {
  }

  /** The list p5s: 5^4, 5^8, 5^16, ... as far as they have been needed. */
  class PowersOfFive {
    var list: seq<Bigint>
    ghost var repr: set<object>

    ghost predicate Entry(i: int)
      reads this, repr
      requires 0 <= i < |list|
    {
      && list[i] in repr && list[i].x in repr && list[i].Valid() && list[i].wds >= 1
      && list[i].Num() == FivePower(i)
    }

    ghost predicate Valid()
      reads this, repr
    {
      this !in repr && forall i :: 0 <= i < |list| ==> Entry(i)
    }

    constructor ()
      ensures Valid() && list == [] && repr == {}
    {
      list, repr := [], {};
    }

    /** The entry after the last. */
    method Compute() returns (next: Bigint)
      requires Valid()
      ensures fresh(next) && fresh(next.x) && next.Valid() && next.wds >= 1 && next.Num() == FivePower(|list|)
    {
      var i := |list|;
      FivePowers(if i == 0 then 0 else i - 1);
      if i == 0 {
        next := new Bigint.FromInt(625);
      } else {
        assert Entry(i - 1);
        next := Mult(list[i - 1], list[i - 1]);
      }
    }

    /** Entry i, computed from the one before it the first time it is asked for. */
    method Get(i: nat) returns (p5: Bigint)
      requires Valid() && i <= |list|
      modifies this
      ensures Valid() && i < |list| && p5 == list[i] && Entry(i)
      ensures old(repr) <= repr && fresh(repr - old(repr))
    {
      if i == |list| {
        var next := Compute();
        ghost var before, repr0 := list, repr;
        forall j | 0 <= j < |before|
          ensures before[j] in repr0 && before[j].x in repr0 && before[j].Valid() && before[j].wds >= 1
          ensures before[j].Num() == FivePower(j)
        {
          assert Entry(j);
        }
        list := list + [next];
        repr := repr + {next, next.x};
        forall j | 0 <= j < |list| ensures Entry(j) {
          assert if j < |before| then list[j] == before[j] else j == i && list[j] == next;
        }
      }
      p5 := list[i];
    }
  }

  /** What is left to multiply by, when the list has got to entry i and h is what remains of the exponent. */
  ghost function Rest(i: nat, h: nat): nat {
    Pow(5, 4 * Pow(2, i) * h)
  }

  lemma RestStep(i: nat, h: nat)
    ensures Rest(i, h) == (if h % 2 == 1 then FivePower(i) else 1) * Rest(i + 1, h / 2)
    ensures h / 2 == 0 ==> Rest(i + 1, h / 2) == 1
  {
    var e, g := 4 * Pow(2, i), h / 2;
    assert 4 * Pow(2, i + 1) == 2 * e;
    assert 2 * e * g == e * (2 * g);
    if h % 2 == 1 {
      assert h == 1 + 2 * g;
      Distribute(1, 2 * g, e);
      MulSwap(e, h);
      MulSwap(e, 2 * g);
      PowSum(5, e, e * (2 * g));
    } else {
      assert h == 2 * g;
    }
  }

  /** One turn of the loop of pow5mult: v is the number so far, p the entry. */
  lemma RestTurn(v: int, i: nat, h: nat, total: int)
    requires v > 0 && v * Rest(i, h) == total
    ensures var v' := if h % 2 == 1 then v * FivePower(i) else v;
            v' > 0 && v' * Rest(i + 1, h / 2) == total && (h / 2 == 0 ==> v' == total)
  {
    RestStep(i, h);
    FivePowers(i);
    MulThree(v, FivePower(i), Rest(i + 1, h / 2));
    MulPositive(v, FivePower(i));
  }

  lemma MulThree(a: int, b: int, c: int)
    ensures a * b * c == a * (b * c)
  {
  }

  /** The loop of pow5mult: one entry of the list for each bit of the exponent. */
  method MultPowers(p5s: PowersOfFive, b: Bigint, k0: nat) returns (r: Bigint)
    requires p5s.Valid() && b.Valid() && b.wds >= 1 && b.Num() > 0 && k0 > 0
    requires b !in p5s.repr && b.x !in p5s.repr
    modifies p5s
    ensures p5s.Valid() && r.Valid() && r.wds >= 1 && r.Num() == b.Num() * Pow(5, 4 * k0) && r.Num() > 0
    ensures r == b || (fresh(r) && fresh(r.x))
    ensures old(p5s.repr) <= p5s.repr && fresh(p5s.repr - old(p5s.repr))
  {
    r := b;
    var k, i := k0, 0;
    ghost var total := b.Num() * Pow(5, 4 * k0);
    var p5 := p5s.Get(0);
    while true
      invariant k > 0 && i < |p5s.list| && p5s.Valid() && p5 == p5s.list[i]
      invariant r.Valid() && r.wds >= 1 && r.Num() > 0 && r.Num() * Rest(i, k) == total
      invariant r == b || (fresh(r) && fresh(r.x))
      invariant old(p5s.repr) <= p5s.repr && fresh(p5s.repr - old(p5s.repr))
      decreases k
    {
      hide Value, Pow;
      RestTurn(r.Num(), i, k, total);
      assert p5s.Entry(i);
      if k % 2 == 1 {
        r := Mult(r, p5);
      }
      k := k / 2;
      if k == 0 {
        break;
      }
      i := i + 1;
      p5 := p5s.Get(i);
    }
  }

  /** pow5mult: the number times 5^k. */
  method Pow5Mult(p5s: PowersOfFive, b: Bigint, k0: nat) returns (r: Bigint)
    requires p5s.Valid() && b.Valid() && b.wds >= 1 && b.Num() > 0
    requires b !in p5s.repr && b.x !in p5s.repr && b.x != p5s as object
    modifies b`wds, b.x, p5s
    ensures p5s.Valid() && r.Valid() && r.wds >= 1 && r.Num() == old(b.Num()) * Pow(5, k0) && r.Num() > 0
    ensures r == b || (fresh(r) && fresh(r.x))
    ensures old(p5s.repr) <= p5s.repr && fresh(p5s.repr - old(p5s.repr))
  {
    ghost var v := b.Num();
    var i := k0 % 4;
    var k := k0 / 4;
    FifthPowers(v, k0);
    r := b;
    if i != 0 {
      r := b.MultAdd(if i == 1 then 5 else if i == 2 then 25 else 125, 0);
    }
    if k == 0 {
      return;
    }
    r := MultPowers(p5s, r, k);
  }

  lemma FifthPowers(v: int, k0: nat)
    requires v > 0
    ensures v * Pow(5, k0 % 4) * Pow(5, 4 * (k0 / 4)) == v * Pow(5, k0) && v * Pow(5, k0 % 4) > 0
    ensures k0 / 4 == 0 ==> v * Pow(5, k0) == v * Pow(5, k0 % 4)
    ensures Pow(5, k0 % 4) == if k0 % 4 == 0 then 1 else if k0 % 4 == 1 then 5 else if k0 % 4 == 2 then 25 else 125
    ensures v * Pow(5, k0) > 0
  {
    SmallPowers();
    PowSum(5, k0 % 4, 4 * (k0 / 4));
    MulThree(v, Pow(5, k0 % 4), Pow(5, 4 * (k0 / 4)));
    PowPositive(5, k0 % 4);
    PowPositive(5, k0);
    MulPositive(v, Pow(5, k0 % 4));
    MulPositive(v, Pow(5, k0));
  }
}
