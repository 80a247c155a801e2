/**
  Decimal digits by repeated division (dtoa.c): quorem, the scaling before it, and the loop of
  mode 2 with its rounding. The digits printed are those of the exact quotient, rounded half to
  even, with no zeros at the end.
 */
module Digits {
  import opened Common
  import opened Bigints

  /** The divisor's leading word has exactly four leading zero bits. */
  predicate Scaled(s: seq<int>) {
    s != [] && 0x800_0000 <= s[|s| - 1] < 0x1000_0000
  }

  // ---------------------------------------------------------------- one digit

  lemma TopBounds(s: seq<int>)
    requires Words(s) && s != []
    ensures s[|s| - 1] * Pow(W, |s| - 1) <= Value(s) < (s[|s| - 1] + 1) * Pow(W, |s| - 1)
  {
    var n := |s| - 1;
    ValueBounds(s[..n]);
    Distribute(s[n], 1, Pow(W, n));
  }

  /** The quotient of the leading words, the divisor's counted one up, is at most one too small. */
  lemma QuotientGuess(b: seq<int>, s: seq<int>)
    requires Words(b) && Words(s) && |b| == |s| && Scaled(s) && Value(b) < 10 * Value(s)
    ensures var q := b[|b| - 1] / (s[|s| - 1] + 1);
            0 <= q <= 9 && q * Value(s) <= Value(b) < (q + 2) * Value(s)
  {
    TopBounds(b);
    TopBounds(s);
    PowPositive(W, |s| - 1);
    GuessBoth(s[|s| - 1], b[|b| - 1], Pow(W, |s| - 1), Value(s), Value(b));
  }

  lemma GuessBoth(st: int, bt: int, p: int, v: int, b: int)
    requires st >= 0x800_0000 && bt >= 0 && p > 0 && st * p <= v < (st + 1) * p && bt * p <= b < (bt + 1) * p && b < 10 * v
    ensures var q := bt / (st + 1); 0 <= q <= 9 && q * v <= b < (q + 2) * v
  {
    var q := bt / (st + 1);
    MulPositive(st, p);
    GuessLow(q, st, bt, p, v, b);
    if q >= 10 { MulOrder(10, q, v); }
    GuessHigh(q, st, bt, p, v, b);
  }

  lemma GuessLow(q: int, st: int, bt: int, p: int, v: int, b: int)
    requires st > 0 && p > 0 && bt >= 0 && q == bt / (st + 1) && v < (st + 1) * p && bt * p <= b && v > 0
    ensures q >= 0 && q * v <= b
  {
    MulOrder(v, (st + 1) * p, q);
    MulSwap(q, v);
    assert (st + 1) * p * q == q * (st + 1) * p;
    MulOrder(q * (st + 1), bt, p);
  }

  lemma GuessHigh(q: int, st: int, bt: int, p: int, v: int, b: int)
    requires 0 <= q <= 9 && st >= 0x800_0000 && p > 0 && bt >= 0 && q == bt / (st + 1) && st * p <= v && b < (bt + 1) * p
    ensures b < (q + 2) * v
  {
    assert bt + 1 <= (q + 1) * (st + 1);
    assert (q + 1) * (st + 1) <= (q + 2) * st by {
      assert (q + 1) * (st + 1) == (q + 2) * st - st + q + 1;
    }
    MulOrder(bt + 1, (q + 2) * st, p);
    assert (q + 2) * st * p == (q + 2) * (st * p);
    MulOrder(st * p, v, q + 2);
    MulSwap(st * p, q + 2);
    MulSwap(v, q + 2);
  }

  /** Below ten times the divisor, the dividend has no more words than it. */
  lemma NotLonger(b: seq<int>, s: seq<int>)
    requires Words(b) && Words(s) && Normal(b) && Scaled(s) && Value(b) < 10 * Value(s)
    ensures |b| <= |s|
  {
    if |b| > |s| {
      var n := |s| - 1;
      TopBounds(s);
      TopBounds(b);
      PowPositive(W, n);
      MulOrder(s[n] + 1, 0x1000_0000, Pow(W, n));
      PowOrder(W, n + 1, |b| - 1);
      PowPositive(W, |b| - 1);
      MulOrder(1, b[|b| - 1], Pow(W, |b| - 1));
    }
  }

  lemma QuotientIs(b: int, v: int, q: int)
    requires v > 0 && q * v <= b < (q + 1) * v
    ensures b / v == q && b - q * v == b % v
  {
    var d, r := b / v, b % v;
    assert b == v * d + r;
    Distribute(q, 1, v);
    if d > q { MulOrder(q + 1, d, v); MulSwap(d, v); }
    if d < q { MulOrder(d + 1, q, v); Distribute(d, 1, v); MulSwap(d, v); }
    MulSwap(d, v);
  }

  /** A number without words shows a zero word all the same. */
  ghost predicate Tidy(b: Bigint)
    reads b, b.x
  {
    b.Valid() && b.x.Length >= 1 && (b.wds == 0 ==> b.x[0] == 0)
  }

  /** The trimming at the end of each loop of quorem, when the leading word has become zero. */
  method TrimFrom(b: Bigint, n1: int)
    requires 0 <= n1 < b.x.Length && b.x.Length == Pow(2, b.k) && Words(b.x[..n1 + 1]) && b.x[n1] == 0
    modifies b`wds
    ensures Tidy(b) && b.Num() == Value(b.x[..n1 + 1]) && b.wds <= n1
  {
    var n, e := n1, n1 - 1;
    ValuePrefix(b.x[..n1 + 1], n1);
    assert b.x[..n1 + 1][..n1] == b.x[..n1] && b.x[..n1 + 1][..n1 + 1] == b.x[..n1 + 1];
    while e > 0 && b.x[e] == 0
      invariant 0 <= n <= n1 && e == n - 1 && Words(b.x[..n]) && Value(b.x[..n]) == Value(b.x[..n1 + 1])
      invariant n1 > 0 ==> n > 0
      decreases e
    {
      ValuePrefix(b.x[..n], e);
      assert b.x[..n][..e] == b.x[..e] && b.x[..n][..e + 1] == b.x[..n];
      n, e := n - 1, e - 1;
    }
    b.wds := n;
  }

  /** One of the two subtractions of quorem. */
  method TakeAway(b: Bigint, S: Bigint, n: int, q: int)
    requires Tidy(b) && S.Valid() && b != S && b.x != S.x && n == S.wds - 1 == b.wds - 1 && n >= 0
    requires 0 <= q <= 9 && q * S.Num() <= b.Num()
    modifies b`wds, b.x
    ensures Tidy(b) && b.Num() == old(b.Num()) - q * S.Num()
    ensures b.wds <= n + 1
  {
    SubtractProduct(b.x, S.x, n + 1, q);
    if b.x[n] == 0 {
      TrimFrom(b, n);
    }
  }

  /** quorem: the quotient, at most 9; the remainder is left in b. At most one correction is needed. */
  method QuoRem(b: Bigint, S: Bigint) returns (q: int)
    requires Tidy(b) && S.Valid() && b != S && b.x != S.x && S.wds >= 1
    requires Scaled(S.x[..S.wds]) && b.Num() < 10 * S.Num()
    modifies b`wds, b.x
    ensures Tidy(b) && S.Num() > 0 && q == old(b.Num()) / S.Num() && b.Num() == old(b.Num()) % S.Num() && 0 <= q <= 9
  {
    var n := S.wds;
    ScaledPositive(S.x[..n]);
    ValueBounds(b.x[..b.wds]);
    NotLonger(b.x[..b.wds], S.x[..n]);
    if b.wds < n {
      LongerIsMore(S.x[..n], b.x[..b.wds]);
      SmallQuotient(b.Num(), S.Num());
      return 0;
    }
    QuotientGuess(b.x[..n], S.x[..n]);
    n := n - 1;
    q := b.x[n] / (S.x[n] + 1);
    q := Correct(b, S, n, q);
  }

  lemma ScaledPositive(s: seq<int>)
    requires Words(s) && Scaled(s)
    ensures Value(s) > 0
  {
    TopBounds(s);
    PowPositive(W, |s| - 1);
    MulPositive(s[|s| - 1], Pow(W, |s| - 1));
  }

  lemma SmallQuotient(b: int, v: int)
    requires 0 <= b < v
    ensures b / v == 0 && b % v == b
  {
    QuotientIs(b, v, 0);
  }

  /** quorem, from the estimate on. */
  method Correct(b: Bigint, S: Bigint, n: int, q0: int) returns (q: int)
    requires Tidy(b) && S.Valid() && b != S && b.x != S.x && n == S.wds - 1 == b.wds - 1 && n >= 0 && S.Num() > 0
    requires 0 <= q0 <= 9 && q0 * S.Num() <= b.Num() < (q0 + 2) * S.Num() && b.Num() < 10 * S.Num()
    modifies b`wds, b.x
    ensures Tidy(b) && q == old(b.Num()) / S.Num() && b.Num() == old(b.Num()) % S.Num() && 0 <= q <= 9
  {
    q := q0;
    ghost var v, d := b.Num(), S.Num();
    if q != 0 {
      TakeAway(b, S, n, q);
    }
    assert b.Num() == v - q * d && b.wds <= n + 1;
    ValueBounds(b.x[..b.wds]);
    var c := Cmp(b, S);
    if c >= 0 {
      q := q + 1;
      AsLong(b.x[..b.wds], S.x[..S.wds]);
      TakeAway(b, S, n, 1);
    }
    OneCorrection(v, d, q0);
  }

  lemma AsLong(b: seq<int>, s: seq<int>)
    requires Words(b) && Words(s) && Normal(s) && Value(s) <= Value(b) && |b| <= |s| && Value(s) > 0
    ensures |b| == |s|
  {
    if |b| < |s| {
      LongerIsMore(s, b);
    }
  }

  lemma OneCorrection(v: int, d: int, q0: int)
    requires d > 0 && 0 <= q0 <= 9 && q0 * d <= v < (q0 + 2) * d && v < 10 * d
    ensures v - q0 * d < d ==> v / d == q0 && v % d == v - q0 * d
    ensures v - q0 * d >= d ==> v / d == q0 + 1 && v % d == v - q0 * d - d && q0 + 1 <= 9
  {
    Distribute(q0, 1, d);
    Distribute(q0 + 1, 1, d);
    if v - q0 * d < d {
      QuotientIs(v, d, q0);
    } else {
      QuotientIs(v, d, q0 + 1);
      if q0 + 1 >= 10 { MulOrder(10, q0 + 1, d); }
    }
  }

  // ---------------------------------------------------------------- the digits of a quotient

  /** A quotient to the nearest integer; halfway, to the even one. */
  function HalfEven(n: int, d: int): int
    requires d > 0
  {
    var q, r := n / d, n % d;
    if 2 * r > d || (2 * r == d && q % 2 == 1) then q + 1 else q
  }

  /** It is the nearest integer; of two that are equally near, the even one. */
  lemma HalfEvenIs(n: int, d: int, q: int)
    requires d > 0
    ensures HalfEven(n, d) == q <==> var off := 2 * (n - q * d);
      -d <= off <= d && (off == d || off == -d ==> q % 2 == 0)
  {
    var e := q - n / d;
    assert n == d * (n / d) + n % d;
    assert n - q * d == n % d - d * e;
    Sign(d, e);
    Sign(d, e - 1);
  }

  predicate AllDigits(s: seq<int>) {
    forall i :: 0 <= i < |s| ==> 0 <= s[i] <= 9
  }

  /** The number a string of digits stands for. */
  function Number(s: seq<int>): int {
    if s == [] then 0 else 10 * Number(s[..|s| - 1]) + s[|s| - 1]
  }

  lemma NumberSnoc(s: seq<int>, d: int)
    ensures Number(s + [d]) == 10 * Number(s) + d
  {
    assert (s + [d])[..|s|] == s;
  }

  /** Digits with no zero at either end. */
  predicate Proper(s: seq<int>) {
    s != [] && AllDigits(s) && s[0] != 0 && s[|s| - 1] != 0
  }

  /** The loop "roundoff": one is added to the last digit; nines at the end fall away, and if nothing is left a one remains. */
  method RoundUp(s: seq<int>) returns (r: seq<int>, bump: int)
    requires AllDigits(s) && s != [] && s[0] != 0
    ensures Proper(r) && 0 <= bump <= 1 && |r| <= |s| && (bump == 1 ==> r == [1])
    ensures Number(s) + 1 == Number(r) * Pow(10, |s| - |r| + bump)
  {
    var p := |s| - 1;
    bump := 0;
    NinesStart(s);
    while s[p] == 9
      invariant 0 <= p < |s| && Number(s) + 1 == (Number(s[..p + 1]) + 1) * Pow(10, |s| - 1 - p)
      decreases p
    {
      NinesStep(s, p);
      if p == 0 {
        return [1], 1;
      }
      p := p - 1;
    }
    r := s[..p] + [s[p] + 1];
    NumberSnoc(s[..p], s[p] + 1);
    NumberSnoc(s[..p], s[p]);
    assert s[..p] + [s[p]] == s[..p + 1];
  }

  lemma NinesStart(s: seq<int>)
    requires s != []
    ensures Number(s) + 1 == (Number(s[..|s|]) + 1) * Pow(10, 0)
  {
    assert s[..|s|] == s;
  }

  lemma NinesStep(s: seq<int>, p: int)
    requires 0 <= p < |s| && s[p] == 9 && Number(s) + 1 == (Number(s[..p + 1]) + 1) * Pow(10, |s| - 1 - p)
    ensures Number(s) + 1 == (Number(s[..p]) + 1) * Pow(10, |s| - p)
    ensures p == 0 ==> Number([1]) * Pow(10, |s| - 1 + 1) == Number(s) + 1
  {
    NumberSnoc(s[..p], 9);
    assert s[..p] + [9] == s[..p + 1];
    var a := Number(s[..p]) + 1;
    assert Pow(10, |s| - p) == 10 * Pow(10, |s| - 1 - p);
    assert (a * 10) * Pow(10, |s| - 1 - p) == a * (10 * Pow(10, |s| - 1 - p));
    assert Number([1]) == 1 by { NumberSnoc([], 1); assert [] + [1] == [1]; }
  }

  /** The loop at the end of the other branch: zeros at the end fall away. */
  method TrimZeros(s: seq<int>) returns (r: seq<int>)
    requires AllDigits(s) && s != [] && s[0] != 0
    ensures Proper(r) && |r| <= |s| && Number(s) == Number(r) * Pow(10, |s| - |r|)
  {
    var p := |s| - 1;
    assert s[..p + 1] == s;
    while s[p] == 0
      invariant 0 <= p < |s| && Number(s) == Number(s[..p + 1]) * Pow(10, |s| - 1 - p)
      decreases p
    {
      ZerosStep(s, p);
      p := p - 1;
    }
    r := s[..p + 1];
  }

  lemma ZerosStep(s: seq<int>, p: int)
    requires 0 < p < |s| && s[p] == 0 && Number(s) == Number(s[..p + 1]) * Pow(10, |s| - 1 - p)
    ensures Number(s) == Number(s[..p]) * Pow(10, |s| - p)
  {
    NumberSnoc(s[..p], 0);
    assert s[..p] + [0] == s[..p + 1];
    var a := Number(s[..p]);
    assert (10 * a) * Pow(10, |s| - 1 - p) == a * (10 * Pow(10, |s| - 1 - p));
  }

  /** After some digits of n / d: they and the remainder r make up n with as many zeros. */
  ghost predicate SoFar(n: int, d: int, s: seq<int>, r: int) {
    s != [] && AllDigits(s) && s[0] != 0 && d > 0 && 0 <= r < d && Number(s) * d + r == n * Pow(10, |s| - 1)
  }

  lemma FirstDigit(n: int, d: int)
    requires d > 0 && d <= n < 10 * d
    ensures SoFar(n, d, [n / d], n % d)
  {
    NumberSnoc([], n / d);
    assert [] + [n / d] == [n / d];
    assert n == d * (n / d) + n % d;
    MulSwap(d, n / d);
    if n / d >= 10 { MulOrder(10, n / d, d); }
    if n / d <= 0 { MulOrder(n / d, 0, d); }
  }

  lemma NextArith(d: int, v: int, r: int, m: int)
    requires d > 0 && 0 <= r < d && v * d + r == m
    ensures var q := 10 * r / d; 0 <= q <= 9 && (10 * v + q) * d + 10 * r % d == 10 * m
  {
    var q := 10 * r / d;
    assert 10 * r == d * q + 10 * r % d;
    MulSwap(d, q);
    if q >= 10 { MulOrder(10, q, d); }
    if q < 0 { MulOrder(q, -1, d); }
    Distribute(10 * v, q, d);
    MulThree(10, v, d);
  }

  lemma NextDigit(n: int, d: int, s: seq<int>, r: int)
    requires SoFar(n, d, s, r)
    ensures SoFar(n, d, s + [10 * r / d], 10 * r % d)
    ensures r > 0 && 10 * r % d == 0 ==> 10 * r / d != 0
  {
    var p := Pow(10, |s| - 1);
    NumberSnoc(s, 10 * r / d);
    NextArith(d, Number(s), r, n * p);
    assert Pow(10, |s + [10 * r / d]| - 1) == 10 * p;
    MulThree(n, 10, p);
    MulThree(10, n, p);
    MulSwap(n, 10);
  }

  lemma LastParity(n: int, k: int, d: int)
    requires n == 10 * k + d
    ensures n % 2 == d % 2
  {
    assert n == 2 * (5 * k + d / 2) + d % 2;
  }

  /** What the digits say once all of them are there. */
  lemma AllSoFar(n: int, d: int, s: seq<int>, r: int)
    requires SoFar(n, d, s, r)
    ensures n * Pow(10, |s| - 1) / d == Number(s) && n * Pow(10, |s| - 1) % d == r
    ensures HalfEven(n * Pow(10, |s| - 1), d) == Number(s) + if 2 * r > d || (2 * r == d && s[|s| - 1] % 2 == 1) then 1 else 0
  {
    Distribute(Number(s), 1, d);
    QuotientIs(n * Pow(10, |s| - 1), d, Number(s));
    NumberSnoc(s[..|s| - 1], s[|s| - 1]);
    assert s[..|s| - 1] + [s[|s| - 1]] == s;
    LastParity(Number(s), Number(s[..|s| - 1]), s[|s| - 1]);
  }

  /** The digits come out even before there are enough. */
  lemma Exact(n: int, d: int, s: seq<int>, ilim: int)
    requires SoFar(n, d, s, 0) && |s| <= ilim
    ensures HalfEven(n * Pow(10, ilim - 1), d) == Number(s) * Pow(10, ilim - |s|)
  {
    var e := ilim - |s|;
    PowSum(10, |s| - 1, e);
    MulThree(n, Pow(10, |s| - 1), Pow(10, e));
    assert n * Pow(10, ilim - 1) == Number(s) * d * Pow(10, e);
    assert Number(s) * d * Pow(10, e) == Number(s) * Pow(10, e) * d by {
      MulThree(Number(s), d, Pow(10, e));
      MulThree(Number(s), Pow(10, e), d);
      MulSwap(d, Pow(10, e));
    }
    Distribute(Number(s) * Pow(10, e), 1, d);
    QuotientIs(n * Pow(10, ilim - 1), d, Number(s) * Pow(10, e));
  }

  /** The loop of mode 2: digits until there are enough or nothing is left. `b` is the last remainder. */
  method DigitLoop(b0: Bigint, S: Bigint, ilim: int) returns (s: seq<int>, b: Bigint, exact: bool)
    requires Tidy(b0) && S.Valid() && b0 != S && b0.x != S.x && S.wds >= 1 && b0.wds >= 1 && Scaled(S.x[..S.wds])
    requires S.Num() <= b0.Num() < 10 * S.Num() && ilim >= 1
    modifies b0`wds, b0.x
    ensures Tidy(b) && S.Num() > 0 && 1 <= |s| <= ilim && SoFar(old(b0.Num()), S.Num(), s, b.Num())
    ensures (exact <==> b.Num() == 0) && (exact ==> s[|s| - 1] != 0)
    ensures !exact ==> |s| == ilim && b.wds >= 1
    ensures b == b0 || (fresh(b) && fresh(b.x))
  {
    hide Number, Pow;
    ghost var n, d := b0.Num(), S.Num();
    ScaledPositive(S.x[..S.wds]);
    b := b0;
    FirstDigit(n, d);
    var dig := QuoRem(b, S);
    s := [dig];
    while true
      invariant Tidy(b) && 1 <= |s| <= ilim && SoFar(n, d, s, b.Num()) && (b.Num() == 0 ==> s[|s| - 1] != 0)
      invariant b == b0 || (fresh(b) && fresh(b.x))
      invariant S.Valid() && S.Num() == d && Scaled(S.x[..S.wds]) && S.wds >= 1 && b != S && b.x != S.x
      decreases ilim - |s|
    {
      ZeroShows(b.x[..b.wds], b.x[0]);
      if b.x[0] == 0 && b.wds <= 1 {
        exact := true;
        return;
      }
      if |s| >= ilim {
        exact := false;
        return;
      }
      NextDigit(n, d, s, b.Num());
      b := b.MultAdd(10, 0);
      dig := QuoRem(b, S);
      s := s + [dig];
    }
  }

  lemma ZeroShows(s: seq<int>, x0: int)
    requires Words(s) && Normal(s) && (if s == [] then x0 == 0 else x0 == s[0])
    ensures Value(s) == 0 <==> x0 == 0 && |s| <= 1
  {
    if |s| > 1 {
      LongerIsMore(s, []);
    }
  }

  /**
    Mode 2 from the first quorem on: what is printed is the quotient to ilim digits, rounded half to
    even, without zeros at the end; `bump` is 1 if rounding carried into a new leading digit.
   */
  method ModeTwo(b0: Bigint, S: Bigint, ilim: int) returns (r: seq<int>, bump: int)
    requires Tidy(b0) && S.Valid() && b0 != S && b0.x != S.x && S.wds >= 1 && b0.wds >= 1 && Scaled(S.x[..S.wds])
    requires S.Num() <= b0.Num() < 10 * S.Num() && ilim >= 1
    modifies b0`wds, b0.x
    ensures Proper(r) && |r| <= ilim && 0 <= bump <= 1 && S.Num() > 0
    ensures HalfEven(old(b0.Num()) * Pow(10, ilim - 1), S.Num()) == Number(r) * Pow(10, ilim - |r| + bump)
  {
    ghost var n, d := b0.Num(), S.Num();
    var s, b, exact := DigitLoop(b0, S, ilim);
    bump := 0;
    if exact {
      Exact(n, d, s, ilim);
      r := s;
      return;
    }
    AllSoFar(n, d, s, b.Num());
    ghost var rem := b.Num();
    b := LShift(b, 1);
    assert Pow(2, 1) == 2 && b.Num() == 2 * rem;
    var j := Cmp(b, S);
    if j > 0 || (j == 0 && s[|s| - 1] % 2 == 1) {
      r, bump := RoundUp(s);
    } else {
      r := TrimZeros(s);
    }
  }

  // ---------------------------------------------------------------- scaling

  /** hi0bits: the number of leading zero bits of a word. */
  method Hi0Bits(x: int) returns (k: int)
    requires 0 <= x < W
    ensures x == 0 ==> k == 32
    ensures x > 0 ==> 0 <= k < 32 && 0x8000_0000 <= x * Pow(2, k) < W
  {
    var y := x;
    k := 0;
    SmallShifts();
    if y < 0x1_0000 {
      k, y := 16, y * 0x1_0000;
    }
    ghost var k1 := k;
    if y < 0x100_0000 {
      k, y := k + 8, y * 0x100;
    }
    ShiftedBy(x, k1, k, y);
    ghost var k2 := k;
    if y < 0x1000_0000 {
      k, y := k + 4, y * 0x10;
    }
    ShiftedBy(x, k2, k, y);
    ghost var k3 := k;
    if y < 0x4000_0000 {
      k, y := k + 2, y * 4;
    }
    ShiftedBy(x, k3, k, y);
    if y < 0x8000_0000 {
      k := k + 1;
      ShiftedBy(x, k - 1, k, y * 2);
      if y < 0x4000_0000 {
        return 32;
      }
    }
  }

  lemma SmallShifts()
    ensures Pow(2, 0) == 1 && Pow(2, 1) == 2 && Pow(2, 2) == 4 && Pow(2, 4) == 0x10 && Pow(2, 8) == 0x100 && Pow(2, 16) == 0x1_0000
  {
    PowSum(2, 4, 4);
    PowSum(2, 8, 8);
  }

  lemma ShiftedBy(x: int, k: int, k': int, y: int)
    requires 0 <= k <= k' && (k' == k || k' == k + 1 || k' == k + 2 || k' == k + 4 || k' == k + 8)
    requires y == x * Pow(2, k) * (if k' == k then 1 else if k' == k + 1 then 2 else if k' == k + 2 then 4 else if k' == k + 4 then 0x10 else 0x100)
    ensures y == x * Pow(2, k')
  {
    SmallShifts();
    PowSum(2, k, k' - k);
    MulThree(x, Pow(2, k), Pow(2, k' - k));
  }

  /** dshift: how far to shift so that, with p2 more, the leading word has four leading zero bits. */
  method DShift(S: Bigint, p2: nat) returns (rv: nat)
    requires S.Valid() && S.wds >= 1 && S.Num() > 0
    ensures rv < 32
    ensures forall s :: Words(s) && Normal(s) && Value(s) == S.Num() * Pow(2, p2 + rv) ==> Scaled(s)
  {
    hide Value, Pow, Scaled;
    LeadingWord(S.x[..S.wds]);
    var h := Hi0Bits(S.x[S.wds - 1]);
    var r := h - 4;
    if p2 > 0 {
      r := r - p2;
    }
    rv := r % 32;
    forall s | Words(s) && Normal(s) && Value(s) == S.Num() * Pow(2, p2 + rv) ensures Scaled(s) {
      ShiftedTop(S.x[..S.wds], s, h, p2 + rv);
    }
  }

  lemma LeadingWord(s: seq<int>)
    requires Words(s) && Normal(s) && Value(s) > 0
    ensures s != [] && s[|s| - 1] > 0
  {
    assert |s| == 1 ==> Value(s) == Value(s[..0]) + s[0] * Pow(W, 0);
  }

  /** A shift by h - 4 bits, up to whole words, brings the top of s to where quorem wants it. */
  lemma ShiftedTop(s: seq<int>, r: seq<int>, h: int, k: nat)
    requires Words(s) && s != [] && s[|s| - 1] > 0 && 0 <= h < 32 && 0x8000_0000 <= s[|s| - 1] * Pow(2, h) < W
    requires (k - (h - 4)) % 32 == 0 && Words(r) && Normal(r) && Value(r) == Value(s) * Pow(2, k)
    ensures Scaled(r)
  {
    var m, e := (k - (h - 4)) / 32, |s| - 1;
    assert k + 4 == h + 32 * m && m >= 0;
    TopBounds(s);
    PowPositive(W, e);
    PowPositive(W, m);
    PowPositive(2, h);
    WordDivides(h);
    TopScaled(s[e], Pow(2, h), Pow(W, e), Value(s));
    ShiftIsWords(k, h, m);
    PowSum(W, e, m);
    ScaleNumbers(Value(s), Value(r), Pow(2, k), Pow(2, h), Pow(W, e), Pow(W, m));
    TopOfValue(r, e + m);
  }

  lemma WordDivides(h: int)
    requires 0 <= h <= 32
    ensures Pow(2, h) > 0 && W % Pow(2, h) == 0
  {
    PowPositive(2, h);
    PowPositive(2, 32 - h);
    PowSum(2, h, 32 - h);
    PowThirtyTwo();
    QuotientOf(Pow(2, h), Pow(2, 32 - h));
  }

  lemma ShiftIsWords(k: nat, h: nat, m: nat)
    requires k + 4 == h + 32 * m
    ensures Pow(2, k) * 16 == Pow(2, h) * Pow(W, m)
  {
    PowSum(2, k, 4);
    PowSum(2, h, 32 * m);
    PowOfPow(2, 32, m);
    PowThirtyTwo();
    SmallShifts();
  }

  lemma ScaleNumbers(v: int, r: int, a: int, b: int, q: int, g: int)
    requires r == v * a && a * 16 == b * g && 0x8000_0000 * q <= v * b < W * q && g > 0
    ensures 0x800_0000 * (q * g) <= r < 0x1000_0000 * (q * g)
  {
    MulThree(v, a, 16);
    MulThree(v, b, g);
    MulOrder(0x8000_0000 * q, v * b, g);
    MulThree(0x8000_0000, q, g);
    MulLess(v * b, W * q, g);
    MulThree(W, q, g);
  }

  lemma MulLess(a: int, b: int, c: int)
    requires a < b && c > 0
    ensures a * c < b * c
  {
  }

  lemma TopScaled(t: int, p: int, q: int, v: int)
    requires t > 0 && p > 0 && q > 0 && t * q <= v < (t + 1) * q && 0x8000_0000 <= t * p < W && W % p == 0
    ensures 0x8000_0000 * q <= v * p < W * q
  {
    assert (t + 1) * p <= W by {
      var c := W / p;
      assert W == p * c;
      if t + 1 > c { MulOrder(c, t, p); MulSwap(p, c); }
      MulOrder(t + 1, c, p);
      MulSwap(p, c);
    }
    MulOrder(t * q, v, p);
    MulOrder(0x8000_0000, t * p, q);
    assert t * q * p == t * p * q;
    MulLess(v, (t + 1) * q, p);
    assert (t + 1) * q * p == (t + 1) * p * q;
    MulOrder((t + 1) * p, W, q);
  }

  lemma TopOfValue(r: seq<int>, e: nat)
    requires Words(r) && Normal(r) && 0x800_0000 * Pow(W, e) <= Value(r) < 0x1000_0000 * Pow(W, e)
    ensures Scaled(r)
  {
    PowPositive(W, e);
    ValueBounds(r);
    if |r| <= e {
      PowOrder(W, |r|, e);
    } else {
      TopBounds(r);
      LeadingWord(r);
      if |r| > e + 1 {
        PowOrder(W, e + 1, |r| - 1);
        MulOrder(1, r[|r| - 1], Pow(W, |r| - 1));
      } else {
        if r[e] >= 0x1000_0000 { MulOrder(0x1000_0000, r[e], Pow(W, e)); }
        if r[e] + 1 <= 0x800_0000 { MulOrder(r[e] + 1, 0x800_0000, Pow(W, e)); }
      }
    }
  }

  // ---------------------------------------------------------------- mode 2 as a whole

  lemma HalfEvenScale(n: int, d: int, c: int)
    requires d > 0 && c > 0
    ensures d * c > 0 && HalfEven(n * c, d * c) == HalfEven(n, d)
  {
    MulPositive(d, c);
    var q, r := n / d, n % d;
    assert n == d * q + r;
    Distribute(d * q, r, c);
    assert d * q * c == q * (d * c);
    MulOrder(0, r, c);
    MulLess(r, d, c);
    Distribute(q, 1, d * c);
    QuotientIs(n * c, d * c, q);
    MulThree(2, r, c);
    if 2 * r > d { MulLess(d, 2 * r, c); }
    if 2 * r < d { MulLess(2 * r, d, c); }
  }

  lemma SameHalf(n: int, d: int, b: int, s: int, x: int, y: int, m: int)
    requires d > 0 && s > 0 && x > 0 && y > 0 && b * x == n * y && s * x == d * y
    ensures HalfEven(b * m, s) == HalfEven(n * m, d)
  {
    HalfEvenScale(b * m, s, x);
    HalfEvenScale(n * m, d, y);
    SwapLast(b, m, x);
    SwapLast(n, m, y);
  }

  lemma SwapLast(b: int, m: int, x: int)
    ensures b * m * x == b * x * m
  {
  }

  /** Two fractions that are equal are equal in every respect that matters here. */
  lemma SameRatio(n: int, d: int, b: int, s: int, x: int, y: int)
    requires d > 0 && s > 0 && x > 0 && y > 0 && b * x == n * y && s * x == d * y
    ensures forall m: int :: HalfEven(b * m, s) == HalfEven(n * m, d)
    ensures (b < s <==> n < d) && (b < 10 * s <==> n < 10 * d) && (s <= 10 * b <==> d <= 10 * n)
  {
    forall m: int ensures HalfEven(b * m, s) == HalfEven(n * m, d) {
      SameHalf(n, d, b, s, x, y, m);
    }
    Compare2(b, s, x, n, d, y);
    MulThree(10, s, x);
    MulThree(10, d, y);
    Compare2(b, 10 * s, x, n, 10 * d, y);
    MulThree(10, b, x);
    MulThree(10, n, y);
    Compare2(10 * b, s, x, 10 * n, d, y);
  }

  lemma Compare2(a: int, b: int, x: int, c: int, d: int, y: int)
    requires x > 0 && y > 0 && a * x == c * y && b * x == d * y
    ensures a < b <==> c < d
  {
    if a < b { MulLess(a, b, x); } else { MulOrder(b, a, x); }
    if c < d { MulLess(c, d, y); } else { MulOrder(d, c, y); }
  }

  /** What the numbers amount to: b times 5^b5 times 2^b2, over 5^s5 times 2^s2. */
  ghost function Above(b: int, b5: nat, b2: nat): int {
    b * Pow(5, b5) * Pow(2, b2)
  }

  /** Shifting both down by i and then up by t keeps the ratio. */
  lemma ShiftBoth(v: int, two: nat, i: nat, t: nat)
    requires i <= two
    ensures v * Pow(2, two - i + t) * Pow(2, i) == v * Pow(2, two) * Pow(2, t)
  {
    PowSum(2, two - i, t);
    PowSum(2, two - i, i);
    assert Pow(2, two - i + t) * Pow(2, i) == Pow(2, two) * Pow(2, t);
    MulThree(v, Pow(2, two - i + t), Pow(2, i));
    MulThree(v, Pow(2, two), Pow(2, t));
  }

  lemma BothShifted(b: int, b5: nat, b2: nat, s5: nat, s2: nat, i: nat, t: nat)
    requires b > 0 && i <= b2 && i <= s2
    ensures var n, d := Above(b, b5, b2), Above(1, s5, s2);
            var v, w := Above(b, b5, b2 - i + t), Above(1, s5, s2 - i + t);
            && n > 0 && d > 0 && v > 0 && w > 0
            && (forall m: int :: HalfEven(v * m, w) == HalfEven(n * m, d))
            && (v < w <==> n < d) && (v < 10 * w <==> n < 10 * d) && (w <= 10 * v <==> d <= 10 * n)
  {
    AbovePositive(b, b5, b2);
    AbovePositive(1, s5, s2);
    AbovePositive(b, b5, b2 - i + t);
    AbovePositive(1, s5, s2 - i + t);
    PowPositive(2, i);
    PowPositive(2, t);
    ShiftBoth(b * Pow(5, b5), b2, i, t);
    ShiftBoth(1 * Pow(5, s5), s2, i, t);
    SameRatio(Above(b, b5, b2), Above(1, s5, s2), Above(b, b5, b2 - i + t), Above(1, s5, s2 - i + t), Pow(2, i), Pow(2, t));
  }

  lemma AbovePositive(b: int, b5: nat, b2: nat)
    requires b > 0
    ensures Above(b, b5, b2) > 0
  {
    PowPositive(5, b5);
    PowPositive(2, b2);
    MulPositive(b, Pow(5, b5));
    MulPositive(b * Pow(5, b5), Pow(2, b2));
  }

  /** b times 5^b5, shifted left by k: each step only if there is something to do. */
  method Scale(p5s: PowersOfFive, b: Bigint, b5: nat) returns (r: Bigint)
    requires p5s.Valid() && b.Valid() && b.wds >= 1 && b.Num() > 0
    requires b !in p5s.repr && b.x !in p5s.repr && b.x != p5s as object
    modifies b`wds, b.x, p5s
    ensures p5s.Valid() && r.Valid() && r.wds >= 1 && r.Num() == old(b.Num()) * Pow(5, b5) && r.Num() > 0
    ensures r == b || (fresh(r) && fresh(r.x))
    ensures old(p5s.repr) <= p5s.repr && fresh(p5s.repr - old(p5s.repr))
  {
    r := b;
    if b5 > 0 {
      r := Pow5Mult(p5s, b, b5);
    }
  }

  /** The numerator and the divisor before the common scaling: the one times its power of five, the other a power of five. */
  method Fives(p5s: PowersOfFive, b0: Bigint, b5: nat, s5: nat) returns (b: Bigint, S: Bigint)
    requires p5s.Valid() && b0.Valid() && b0.wds >= 1 && b0.Num() > 0
    requires b0 !in p5s.repr && b0.x !in p5s.repr && b0.x != p5s as object
    modifies b0`wds, b0.x, p5s
    ensures b.Valid() && b.wds >= 1 && b.Num() == old(b0.Num()) * Pow(5, b5) && b.Num() > 0
    ensures S.Valid() && S.wds >= 1 && S.Num() == Pow(5, s5) && S.Num() > 0
    ensures fresh(S) && fresh(S.x) && S != b && S.x != b.x && (b == b0 || (fresh(b) && fresh(b.x)))
  {
    b := Scale(p5s, b0, b5);
    S := new Bigint.FromInt(1);
    S := Scale(p5s, S, s5);
  }

  /** Both shifted, so that the divisor has its four leading zero bits. `up` is how far beyond b2 and s2. */
  method Shifts(b0: Bigint, S0: Bigint, b2: nat, s2: nat) returns (b: Bigint, S: Bigint, ghost up: nat)
    requires b0.Valid() && b0.wds >= 1 && b0.Num() > 0 && S0.Valid() && S0.wds >= 1 && S0.Num() > 0 && b0 != S0 && b0.x != S0.x
    ensures b.Valid() && b.wds >= 1 && b.Num() == b0.Num() * Pow(2, b2 + up) && b.Num() > 0
    ensures S.Valid() && S.wds >= 1 && S.Num() == S0.Num() * Pow(2, s2 + up) && Scaled(S.x[..S.wds])
    ensures b != S && b.x != S.x && (b == b0 || (fresh(b) && fresh(b.x)))
  {
    var i := DShift(S0, s2);
    up := i;
    b, S := b0, S0;
    PowPositive(2, b2 + up);
    MulPositive(b0.Num(), Pow(2, b2 + up));
    if b2 + i > 0 {
      b := LShift(b, b2 + i);
    }
    if s2 + i > 0 {
      S := LShift(S, s2 + i);
    }
  }

  /**
    dtoa in mode 2, from the integers it has split the double into (b, with powers of two and five
    on both sides of the fraction): the digits are the fraction's, rounded half to even to ilim
    places, with no zeros at the end. `less` says that the estimate of the exponent was one too
    large, `bump` that rounding made it one too small.
   */
  method Dtoa(p5s: PowersOfFive, b0: Bigint, b2: nat, b5: nat, s2: nat, s5: nat, check: bool, ilim: int)
    returns (r: seq<int>, bump: int, less: int)
    requires p5s.Valid() && b0.Valid() && b0.wds >= 1 && b0.Num() > 0
    requires b0 !in p5s.repr && b0.x !in p5s.repr && b0.x != p5s as object && ilim >= 1
    requires Above(b0.Num(), b5, b2) < 10 * Above(1, s5, s2)
    requires if check then Above(1, s5, s2) <= 10 * Above(b0.Num(), b5, b2) else Above(1, s5, s2) <= Above(b0.Num(), b5, b2)
    modifies b0`wds, b0.x, p5s
    ensures Proper(r) && |r| <= ilim && 0 <= bump <= 1
    ensures less == if old(Above(b0.Num(), b5, b2)) < Above(1, s5, s2) then 1 else 0
    ensures Above(1, s5, s2) > 0
    ensures HalfEven(old(Above(b0.Num(), b5, b2)) * Pow(10, ilim - 1 + less), Above(1, s5, s2)) == Number(r) * Pow(10, ilim - |r| + bump)
  {
    ghost var n0 := b0.Num();
    ghost var n, d := Above(n0, b5, b2), Above(1, s5, s2);
    var i := if b2 < s2 then b2 else s2;
    var b, S := Fives(p5s, b0, b5, s5);
    ghost var up;
    b, S, up := Shifts(b, S, b2 - i, s2 - i);
    BothShifted(n0, b5, b2, s5, s2, i, up);
    hide Above, HalfEven, Proper, Number, Pow, Value, Scaled;
    less := 0;
    ghost var v, w := b.Num(), S.Num();
    assert v == Above(n0, b5, b2 - i + up) && w == Above(1, s5, s2 - i + up);
    if check {
      var c := Cmp(b, S);
      if c < 0 {
        less := 1;
        b := b.MultAdd(10, 0);
      }
    }
    assert less == if n < d then 1 else 0;
    Tens(v, less, ilim);
    r, bump := ModeTwo(b, S, ilim);
  }

  lemma Tens(v: int, less: int, ilim: int)
    requires 0 <= less <= 1 && ilim >= 1
    ensures (if less == 1 then 10 * v else v) * Pow(10, ilim - 1) == v * Pow(10, ilim - 1 + less)
  {
    if less == 1 {
      MulThree(v, 10, Pow(10, ilim - 1));
      MulSwap(v, 10);
    }
  }
}
