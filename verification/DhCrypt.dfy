/**
  The Diffie-Hellman exchange of lua-crypt.c: arithmetic modulo a 64-bit prime in 64-bit registers.
 */
module DhCrypt {
  import opened Common
  import opened Bigints

  /** 2^64 - 59. */
  const P := 0xffff_ffff_ffff_ffc5
  const G := 5
  /** The inverse of G modulo P. */
  const G_INVERSE := 7378697629483820623

  // ---------------------------------------------------------------- congruence

  predicate Same(a: int, b: int) {
    a % P == b % P
  }

  lemma AddMultiple(x: int, k: int)
    ensures Same(x + P * k, x)
  {
    var q, r := x / P, x % P;
    assert x + P * k == P * (q + k) + r;
    Divided(x + P * k, q + k, r);
  }

  lemma Divided(x: int, q: int, r: int)
    requires x == P * q + r && 0 <= r < P
    ensures x % P == r
  {
  }

  lemma SameProduct(a: int, b: int, c: int)
    requires Same(a, b)
    ensures Same(a * c, b * c) && Same(c * a, c * b)
  {
    var k := a / P - b / P;
    assert a == b + P * k;
    Distribute(b, P * k, c);
    MulThree(P, k, c);
    AddMultiple(b * c, k * c);
    MulSwap(a, c);
    MulSwap(b, c);
  }

  lemma {:induction false} SamePower(a: int, b: int, e: nat)
    requires a >= 0 && b >= 0 && Same(a, b)
    ensures Same(Pow(a, e), Pow(b, e))
  {
    if e > 0 {
      SamePower(a, b, e - 1);
      SameProduct(Pow(a, e - 1), Pow(b, e - 1), a);
      SameProduct(a, b, Pow(b, e - 1));
    }
  }

  // ---------------------------------------------------------------- the routines

  /** mul_mod_p, in 64 bits that wrap: no carry is lost. */
  method MulModP(a0: int, b0: int) returns (m: int)
    requires 0 <= a0 <= P && U64(b0)
    ensures 0 <= m < P && Same(m, a0 * b0)
  {
    var a, b := a0, b0;
    m := 0;
    ghost var total := a0 * b0;
    while b != 0
      invariant 0 <= m < P && 0 <= a <= P && U64(b)
      invariant Same(m + a * b, total)
      decreases b
    {
      Turn(m, a, b);
      Registers(m, a);
      if b % 2 == 1 {
        var t := P - a;
        if m >= t {
          m := m - t;
        } else {
          m := (m + a) % W2;
        }
      }
      if a >= P - a {
        a := (a * 2 % W2 - P) % W2;
      } else {
        a := a * 2 % W2;
      }
      b := b / 2;
    }
  }

  /** What the 64-bit registers make of a sum and of doubling. */
  lemma Registers(m: int, a: int)
    requires 0 <= m < P && 0 <= a <= P
    ensures m < P - a ==> (m + a) % W2 == m + a
    ensures a >= P - a ==> (a * 2 % W2 - P) % W2 == 2 * a - P
    ensures a < P - a ==> a * 2 % W2 == 2 * a
  {
  }

  /** One turn of that loop: a bit of b is added in, or not, and a is doubled. */
  lemma Turn(m: int, a: int, b: int)
    requires 0 <= m < P && 0 <= a <= P && b > 0
    ensures var m' := if b % 2 == 0 then m else if m >= P - a then m - (P - a) else m + a;
            var a' := if a >= P - a then 2 * a - P else 2 * a;
            0 <= m' < P && 0 <= a' <= P && Same(m' + a' * (b / 2), m + a * b)
  {
    var h := b / 2;
    var m' := if b % 2 == 0 then m else if m >= P - a then m - (P - a) else m + a;
    var a' := if a >= P - a then 2 * a - P else 2 * a;
    var i := if m' == m + (if b % 2 == 1 then a else 0) then 0 else -1;
    var j := if a' == 2 * a then 0 else -1;
    assert m' == m + (b % 2) * a + P * i && a' == 2 * a + P * j;
    assert a * b == a * (2 * h) + a * (b % 2) by { Distribute(2 * h, b % 2, a); MulSwap(a, b); MulSwap(a, 2 * h); MulSwap(a, b % 2); }
    assert a' * h == (2 * a) * h + P * (j * h) by { Distribute(2 * a, P * j, h); MulThree(P, j, h); }
    assert (2 * a) * h == a * (2 * h) by { MulThree(a, 2, h); MulSwap(a, 2); }
    MulSwap(a, b % 2);
    assert m' + a' * h == m + a * b + P * (i + j * h);
    AddMultiple(m + a * b, i + j * h);
  }

  /** pow_mod_p. */
  method PowModP(a: int, b: int) returns (r: int)
    requires 0 <= a <= P && 1 <= b < W2
    ensures 0 <= r <= P && Same(r, Pow(a, b)) && (r == P ==> a == P && b == 1) && (b == 1 ==> r == a)
    decreases b
  {
    if b == 1 {
      assert Pow(a, 1) == a;
      return a;
    }
    var t := PowModP(a, b / 2);
    ghost var half := Pow(a, b / 2);
    SameProduct(t, half, t);
    SameProduct(t, half, half);
    PowSum(a, b / 2, b / 2);
    r := MulModP(t, t);
    if b % 2 == 1 {
      SameProduct(r, Pow(a, b - 1), a);
      MulSwap(a, Pow(a, b - 1));
      r := MulModP(r, a);
    }
  }

  /** powmodp. A base equal to P is not reduced, which shows in the result only for the exponent 1. */
  method PowMod(a0: int, b: int) returns (r: int)
    requires U64(a0) && 1 <= b < W2
    ensures Same(r, Pow(a0, b)) && U64(r)
    ensures r < P <==> !(a0 == P && b == 1)
    ensures r >= P ==> r == P
  {
    var a := a0;
    if a > P {
      a := a % P;
      SamePower(a, a0, b);
    }
    r := PowModP(a, b);
  }

  datatype Reply = Number(r: int) | CannotBeZero

  /** ldhexchange: what is sent for the secret x. */
  method Exchange(x: int) returns (r: Reply)
    requires U64(x)
    ensures x == 0 ==> r == CannotBeZero
    ensures x != 0 ==> r.Number? && r.r == Pow(G, x) % P && 0 < r.r < P
  {
    if x == 0 {
      return CannotBeZero;
    }
    var v := PowMod(G, x);
    PowerNotZero(x);
    r := Number(v);
  }

  /** ldhsecret: the common secret, from what the other side sent and one's own secret. */
  method Secret(x: int, y: int) returns (r: Reply)
    requires U64(x) && U64(y)
    ensures x == 0 || y == 0 ==> r == CannotBeZero
    ensures x != 0 && y != 0 ==> r.Number? && Same(r.r, Pow(x, y)) && r.r == if x == P && y == 1 then P else Pow(x, y) % P
  {
    if x == 0 || y == 0 {
      return CannotBeZero;
    }
    var v := PowMod(x, y);
    r := Number(v);
  }

  /** No power of G is a multiple of P: it has an inverse. */
  lemma PowerNotZero(x: nat)
    ensures Pow(G, x) % P != 0
  {
    InversePower(x);
    if Pow(G, x) % P == 0 {
      SameProduct(Pow(G, x), 0, Pow(G_INVERSE, x));
    }
  }

  lemma {:induction false} InversePower(x: nat)
    ensures Same(Pow(G, x) * Pow(G_INVERSE, x), 1)
  {
    if x > 0 {
      InversePower(x - 1);
      var u, v := Pow(G, x - 1), Pow(G_INVERSE, x - 1);
      assert G * G_INVERSE == 1 + P * 2;
      AddMultiple(1, 2);
      assert (G * u) * (G_INVERSE * v) == (G * G_INVERSE) * (u * v) by {
        MulThree(G, u, G_INVERSE * v);
        MulThree(u, G_INVERSE, v);
        MulThree(G_INVERSE, u, v);
        MulSwap(u, G_INVERSE);
      }
      SameProduct(G * G_INVERSE, 1, u * v);
    }
  }

  /** Whatever the two secrets are, neither exchange fails and both sides end with the same number. */
  method Agree(x: int, y: int) returns (ours: Reply, theirs: Reply)
    requires 0 < x < W2 && 0 < y < W2
    ensures ours.Number? && ours == theirs && ours.r == Pow(G, x * y) % P
  {
    var sentX := Exchange(x);
    var sentY := Exchange(y);
    ours := Secret(sentY.r, x);
    theirs := Secret(sentX.r, y);
    ModIdempotent(Pow(G, x));
    ModIdempotent(Pow(G, y));
    SamePower(sentY.r, Pow(G, y), x);
    SamePower(sentX.r, Pow(G, x), y);
    PowOfPow(G, x, y);
    PowOfPow(G, y, x);
    MulSwap(x, y);
  }

  lemma ModIdempotent(x: int)
    ensures Same(x % P, x)
  {
  }
}
