/** When rescaling a target loses high bits, for every target, span and intended time, and what that
    means for the word of the next period. */
module Retarget {

  import opened Basics
  import opened Limbs
  import opened Shifts
  import opened Compact
  import opened Work

  // ---------------------------------------------------------------- what is scaled

  /** How many low bits are dropped before scaling. */
  function Excess(target: nat): nat {
    if BitLength(target) > 238 then BitLength(target) - 238 else 0
  }

  /** The bits that are scaled: at most 238. */
  function Head(target: nat): nat { target / Two(Excess(target)) }

  /** The scaled target without any reduction to 256 bits. */
  function Unwrapped(target: nat, span: nat, intended: nat): nat
    requires intended > 0
  {
    Head(target) * span / intended * Two(Excess(target))
  }

  /** Neither the product nor the final shift exceeds 256 bits. */
  predicate Fits(target: nat, span: nat, intended: nat)
    requires Excess(target) <= 256
  {
    Head(target) * span < Min(Two(256), intended * Two(256 - Excess(target)))
  }

  lemma ExcessRange(target: nat)
    requires target < Two(256)
    ensures Excess(target) <= 18 && Head(target) < Two(238)
    ensures Excess(target) > 0 ==> Two(237) <= Head(target)
  {
    hide Two;
    BitLengthRange(target);
    assert BitLength(0) == 0;
    TwoZero();
    hide BitLength;
    var n, e := BitLength(target), Excess(target);
    if n > 256 { TwoMono(256, n - 1); }
    if e > 0 {
      TwoAdd(238, e);
      TwoAdd(237, e);
      assert 237 + e == n - 1 && 238 + e == n;
      QuotientRange(target, Two(237), Two(238), Two(e));
    } else {
      TwoMono(n, 238);
      Euclid(target, target, 0, 1);
    }
  }

  lemma QuotientRange(x: nat, lo: nat, hi: nat, u: nat)
    requires u > 0 && lo * u <= x < hi * u
    ensures lo <= x / u < hi
  {
    QuotientBelow(x, u, hi);
    QuotientBelow(x, u, lo);
  }

  // ---------------------------------------------------------------- when nothing is lost

  /** Reducing twice modulo p == r * u changes nothing exactly when neither step reaches p. */
  lemma WrapIff(a: nat, t: nat, u: nat, r: nat, p: nat)
    requires p == r * u && u > 0 && r > 0 && 0 < t <= p
    ensures a % p / t * u % p == a / t * u <==> a < p && a < t * r
  {
    if a < p {
      Euclid(a, 0, a, p);
      SecondWrap(a / t, u, r, p);
      QuotientBelow(a, t, r);
    } else {
      FirstWrap(a, t, u, p);
    }
  }

  lemma SecondWrap(q: nat, u: nat, r: nat, p: nat)
    requires p == r * u && u > 0 && r > 0
    ensures q * u % p == q * u <==> q < r
  {
    Threshold(q, r, u);
    if q < r { Euclid(q * u, 0, q * u, p); }
  }

  lemma FirstWrap(a: nat, t: nat, u: nat, p: nat)
    requires 0 < t <= p <= a && u > 0
    ensures a % p / t * u % p < a / t * u
  {
    Less(a, p);
    Below(a % p, a, t);
    MoreTimes(a % p / t, a / t, u);
    Portion(a % p / t * u, p);
  }

  lemma Less(a: nat, p: nat)
    requires 0 < p <= a
    ensures a % p + p <= a
  {
    var d := a / p;
    assert a == d * p + a % p;
    if d >= 1 { MulMono(1, d, p); }
  }

  lemma MoreTimes(x: nat, y: nat, u: nat)
    requires x < y && u > 0
    ensures x * u < y * u
  {
    MulMono(x + 1, y, u);
    assert (x + 1) * u == x * u + u;
  }

  lemma Below(x: nat, a: nat, t: nat)
    requires t > 0 && x + t <= a
    ensures x / t + 1 <= a / t
  {
    QuotientBelow(a, t, x / t + 1);
    assert x == x / t * t + x % t;
    assert (x / t + 1) * t == x / t * t + t;
  }

  lemma Portion(x: nat, p: nat)
    requires p > 0
    ensures x % p <= x
  {
    assert x == x / p * p + x % p;
    MulMono(0, x / p, p);
  }

  /** One form for both branches. */
  lemma RescaledIs(target: nat, span: nat, intended: nat)
    requires intended > 0
    ensures Rescaled(target, span, intended) ==
      Head(target) * span % Pow(WIDTH) / intended * Two(Excess(target)) % Pow(WIDTH)
  {
    TwoZero();
    hide Two, BitLength, Pow;
    if BitLength(target) <= 238 {
      Euclid(target, target, 0, 1);
      var x := target * span % Pow(WIDTH);
      QuotientAtMost(x, intended);
      Euclid(x / intended, 0, x / intended, Pow(WIDTH));
    }
  }

  lemma QuotientAtMost(x: nat, t: nat)
    requires t > 0
    ensures x / t <= x
  {
    assert x == x / t * t + x % t;
    MulMono(1, t, x / t);
  }

  lemma FitsIs(target: nat, span: nat, intended: nat, a: nat, e: nat)
    requires e == Excess(target) <= 256 && a == Head(target) * span && intended > 0
    ensures Fits(target, span, intended) <==> a < Two(256) && a < intended * Two(256 - e)
    ensures Unwrapped(target, span, intended) == a / intended * Two(e)
  {
    hide Two, Excess, Head;
  }

  /** Rescaling loses no high bit if and only if the product of the leading 238 bits with the span is
      below 2^256 and below the intended time shifted to where the dropped bits leave room. */
  lemma RescaledIff(target: nat, span: nat, intended: nat)
    requires target < Two(256) && 0 < intended <= Two(256)
    ensures Excess(target) <= 18
    ensures Rescaled(target, span, intended) == Unwrapped(target, span, intended) <==> Fits(target, span, intended)
  {
    hide *;
    ExcessRange(target);
    Constants();
    var e, a := Excess(target), Head(target) * span;
    RescaledIs(target, span, intended);
    FitsIs(target, span, intended, a, e);
    TwoAdd(256 - e, e);
    WrapIff(a, intended, Two(e), Two(256 - e), Two(256));
  }

  // ---------------------------------------------------------------- the word

  lemma CutTwice(x: nat, y: nat, j: nat, s: nat)
    requires j <= s && x / Two(j) == y / Two(j)
    ensures x / Two(s) == y / Two(s)
  {
    hide Two;
    TwoAdd(j, s - j);
    DivTwice(x, Two(j), Two(s - j));
    DivTwice(y, Two(j), Two(s - j));
  }

  lemma CutScaled(x: nat, e: nat)
    requires e > 3
    ensures x * SIZE / Two(8 * e) == x / Two(8 * (e - 3))
  {
    Constants();
    hide Two;
    TwoAdd(8 * (e - 3), 24);
    CancelScale(x, Two(8 * (e - 3)), SIZE);
  }

  lemma SameExponent(y: nat, e: nat, m: nat)
    requires m == y * SIZE / Two(8 * e) && 0x8000 <= m < SIGN
    ensures Exponent(y) == e && Mantissa(y) == m
  {
    Places(e);
    hide Two, Exponent, Mantissa;
    var p := Two(8 * e);
    QuotientBelow(y * SIZE, p, SIGN);
    QuotientBelow(y * SIZE, p, 0x8000);
    ExponentIs(y, e);
  }

  /** Numbers that differ only in bits below the mantissa of one of them have the same word. */
  lemma SameWord(x: nat, y: nat, j: nat)
    requires x > 0 && j <= 8 * Dropped(x) && x / Two(j) == y / Two(j)
    ensures Encoded(x, false) == Encoded(y, false)
  {
    var e := Exponent(x);
    if e <= 3 {
      TwoZero();
      hide Two, Encoded;
      Euclid(x, x, 0, 1);
      Euclid(y, y, 0, 1);
    } else {
      hide Two, Exponent, Mantissa;
      CutTwice(x, y, j, 8 * (e - 3));
      CutScaled(x, e);
      CutScaled(y, e);
      Normal(x);
      SameExponent(y, e, Mantissa(x));
    }
  }

  lemma LargeDropped(x: nat, n: nat)
    requires x >= Two(8 * n) && n >= 3
    ensures Dropped(x) >= n - 2
  {
    Constants();
    Normal(x);
    hide Two, Exponent, Mantissa;
    TwoAdd(8 * n, 24);
    MulMono(Two(8 * n), x, SIZE);
    if Exponent(x) <= n { TwoMono(23 + 8 * Exponent(x), 8 * n + 24); }
  }

  // ---------------------------------------------------------------- decoded targets lose no low bit

  lemma MulMod(m: nat, u: nat, r: nat)
    requires u > 0 && r > 0
    ensures r * u > 0 && m * u % (r * u) == m % r * u
  {
    MulMono(1, r, u);
    MulMono(m % r + 1, r, u);
    assert m == m / r * r + m % r;
    assert (m / r * r + m % r) * u == m / r * (r * u) + m % r * u;
    assert (m % r + 1) * u == m % r * u + u;
    Euclid(m * u, m / r, m % r * u, r * u);
  }

  /** A multiple of 2^e modulo 2^256 is one. */
  lemma StillMultiple(w: nat, s: nat, e: nat)
    requires e <= s && e <= 256
    ensures w * Two(s) % Two(256) % Two(e) == 0
  {
    hide Two;
    TwoAdd(s - e, e);
    TwoAdd(256 - e, e);
    Rescale(w, Two(s - e), Two(e));
    var m := w * Two(s - e);
    MulMod(m, Two(e), Two(256 - e));
    Euclid(m % Two(256 - e) * Two(e), m % Two(256 - e), 0, Two(e));
  }

  lemma SmallProduct(w: nat, s: nat)
    requires w < SIGN && s < 18
    ensures w * Two(s) < Two(238)
  {
    Constants();
    hide Two;
    TwoMono(s, 18);
    MulMono(Two(s), Two(18), w);
    MulMono(w, SIGN, Two(18));
    TwoAdd(23, 18);
    TwoMono(41, 238);
    assert Two(s) * w == w * Two(s) && Two(18) * w == w * Two(18);
    assert w * Two(18) < SIGN * Two(18) by { MoreTimes(w, SIGN, Two(18)); }
  }

  lemma SmallNoExcess(x: nat)
    requires x < Two(238)
    ensures Excess(x) == 0
  {
    BitLengthRange(x);
    assert BitLength(0) == 0;
    hide Two, BitLength;
    if BitLength(x) > 238 { TwoMono(238, BitLength(x) - 1); }
  }

  /** The bits dropped before scaling are zeros. */
  lemma HeadExact(nBits: nat)
    ensures Decoded(nBits) < Two(256)
    ensures Decoded(nBits) == Head(Decoded(nBits)) * Two(Excess(Decoded(nBits)))
  {
    Constants();
    WordSmall(nBits);
    var d := Decoded(nBits);
    hide Two, Pow, Excess, WordOf, BitLength;
    ExcessRange(d);
    var s := if SizeOf(nBits) <= 3 then 0 else 8 * (SizeOf(nBits) - 3);
    TwoZero();
    assert d == WordOf(nBits) * Two(s) % Two(256);
    if s < 18 {
      SmallProduct(WordOf(nBits), s);
      Portion(WordOf(nBits) * Two(s), Two(256));
      SmallNoExcess(d);
      Euclid(d, d, 0, 1);
    } else {
      StillMultiple(WordOf(nBits), s, Excess(d));
      Divides(d, Two(Excess(d)));
    }
  }

  // ---------------------------------------------------------------- the next word

  /** The target times the span over the intended time, rounded down. */
  function Wanted(nBits: nat, span: nat, intended: nat): nat
    requires intended > 0
  {
    Decoded(nBits) * span / intended
  }

  lemma CutQuotient(a: nat, t: nat, u: nat)
    requires t > 0 && u > 0
    ensures a * u / t / u == a / t
  {
    DivTwice(a * u, t, u);
    CancelScale(a, t, u);
  }

  lemma CutParts(d: nat, h: nat, u: nat, s: nat, t: nat, z: nat)
    requires d == h * u && t > 0 && u > 0 && z == d * s / t
    ensures h * s / t == z / u && z / u * u == z - z % u
  {
    assert h * u * s == h * s * u;
    CutQuotient(h * s, t, u);
    assert z == z / u * u + z % u;
  }

  /** Scaling the leading bits gives the scaled target cut to the bits that were not dropped. */
  lemma UnwrappedCut(nBits: nat, span: nat, intended: nat)
    requires intended > 0
    ensures var d, z := Decoded(nBits), Wanted(nBits, span, intended); var u := Two(Excess(d));
      && Head(d) * span / intended == z / u && Unwrapped(d, span, intended) == z / u * u == z - z % u
  {
    HeadExact(nBits);
    var d := Decoded(nBits);
    hide Two, Decoded, Excess, Head;
    CutParts(d, Head(d), Two(Excess(d)), span, intended, Wanted(nBits, span, intended));
    hide Wanted;
  }

  lemma UnwrappedLarge(target: nat, span: nat, intended: nat)
    requires target < Two(256) && Excess(target) > 0 && span > 0 && 0 < intended < BASE
    ensures Unwrapped(target, span, intended) >= Two(40)
  {
    ExcessRange(target);
    TwoBase();
    hide Two, Excess, Head;
    var a := Head(target) * span;
    MulMono(1, span, Head(target));
    TwoAdd(205, 32);
    MulMono(intended, BASE, Two(205));
    assert Two(205) * intended <= a;
    QuotientBelow(a, intended, Two(205));
    TwoMono(40, 205);
    MulMono(1, Two(Excess(target)), a / intended);
  }

  lemma Between(x: nat, l: nat, z: nat, u: nat)
    requires u > 0 && x <= l <= z && x / u == z / u
    ensures l / u == x / u
  {
    QuotientBelow(l, u, x / u);
    QuotientBelow(l, u, x / u + 1);
    QuotientBelow(x, u, x / u);
    QuotientBelow(z, u, x / u + 1);
  }

  lemma CutAgain(q: nat, u: nat)
    requires u > 0
    ensures q * u / u == q
  {
    Euclid(q * u, q, 0, u);
  }

  /** A number and its cut have the same word, and so has everything between them. */
  lemma CutWord(x: nat, z: nat, l: nat, e: nat)
    requires e <= 18 && x == z / Two(e) * Two(e) && x <= l <= z && (e == 0 || x >= Two(40))
    ensures Encoded(x, false) == Encoded(l, false)
  {
    TwoZero();
    hide Two, Encoded, Dropped;
    if e == 0 {
      Euclid(z, z, 0, 1);
    } else {
      CutAgain(z / Two(e), Two(e));
      Between(x, l, z, Two(e));
      LargeDropped(x, 5);
      SameWord(x, l, e);
    }
  }

  /** Without lost bits the word of the next period is the one of the target times the span over the
      intended time, rounded down and cut at the limit, for every network. */
  lemma NextExact(nBits: nat, span: nat, intended: nat, limit: nat)
    requires 0 < intended < BASE
    ensures Decoded(nBits) < Two(256) && Excess(Decoded(nBits)) <= 18
    ensures Fits(Decoded(nBits), span, intended) ==>
      Encoded(Min(Rescaled(Decoded(nBits), span, intended), limit), false) ==
      Encoded(Min(Wanted(nBits, span, intended), limit), false)
  {
    HeadExact(nBits);
    var d, z := Decoded(nBits), Wanted(nBits, span, intended);
    ExcessRange(d);
    TwoBase();
    UnwrappedCut(nBits, span, intended);
    hide *;
    TwoMono(32, 256);
    RescaledIff(d, span, intended);
    if Fits(d, span, intended) { NextWordIs(d, z, span, intended, limit); }
  }

  lemma NextWordIs(d: nat, z: nat, span: nat, intended: nat, limit: nat)
    requires 0 < intended < BASE && d < Two(256) && Excess(d) <= 18 && z == d * span / intended
    requires Unwrapped(d, span, intended) == z / Two(Excess(d)) * Two(Excess(d)) <= z
    ensures Encoded(Min(Unwrapped(d, span, intended), limit), false) == Encoded(Min(z, limit), false)
  {
    var x, e := Unwrapped(d, span, intended), Excess(d);
    hide Two, Encoded, Excess, Unwrapped;
    if x > limit {
    } else if span == 0 {
      assert d * span == 0;
      assert z == 0;
    } else {
      if e > 0 { UnwrappedLarge(d, span, intended); }
      CutWord(x, z, Min(z, limit), e);
    }
  }

  // ---------------------------------------------------------------- the test network

  const TEST_TIMESPAN: nat := 600

  function TestLimit(): nat { Two(256) - 1 }

  /** The word for the next period on the test network. */
  function TestNext(nBits: nat, span: int): nat {
    NextWord(nBits, span, TEST_TIMESPAN, TestLimit())
  }

  /** The highest targets: all from here on share the word of the limit. */
  function TopTargets(): nat { 0xffff * Two(240) }

  lemma TopIs()
    ensures TopTargets() + Two(240) == Two(256)
  {
    hide Two;
    Constants();
    TwoAdd(240, 16);
  }

  lemma TopQuotients()
    ensures TopTargets() / Two(240) == TestLimit() / Two(240) == 0xffff
    ensures TestLimit() - TestLimit() % Two(240) == TopTargets()
  {
    hide Two;
    TopIs();
    Euclid(TopTargets(), 0xffff, 0, Two(240));
    Euclid(TestLimit(), 0xffff, Two(240) - 1, Two(240));
  }

  lemma LimitDrops()
    ensures Dropped(TestLimit()) == 30
  {
    hide Two, Exponent, Mantissa;
    TopQuotients();
    CutScaled(TestLimit(), 33);
    SameExponent(TestLimit(), 33, 0xffff);
  }

  /** A target has the word of the limit exactly when it is one of the highest. */
  lemma TopWord(y: nat)
    requires y < Two(256)
    ensures Encoded(y, false) == Encoded(TestLimit(), false) <==> y >= TopTargets()
  {
    hide Two, Encoded, Exact, Dropped, TopTargets;
    var l := TestLimit();
    LimitDrops();
    TopQuotients();
    TopIs();
    if y >= TopTargets() {
      Between(TopTargets(), y, l, Two(240));
      SameWord(l, y, 240);
    } else {
      Truncates(l, false);
      Truncates(y, false);
      assert Exact(Encoded(l, false)) == TopTargets();
      assert Exact(Encoded(y, false)) <= y;
    }
  }

  lemma HeadFits(h: nat, t: nat)
    requires h < Two(238) && t <= 4 * TEST_TIMESPAN
    ensures h * t < Two(256)
  {
    hide Two;
    TwoTwelve();
    TwoAdd(238, 12);
    TwoMono(250, 256);
    SmallTimes(h, t, Two(238), Two(12));
  }

  /** Whether the shift fits is whether the whole scaled target does. */
  lemma ShiftFits(a: nat, z: nat, t: nat, e: nat)
    requires e <= 256 && t > 0 && a / t == z / Two(e)
    ensures a < t * Two(256 - e) <==> z < Two(256)
  {
    hide Two;
    TwoAdd(256 - e, e);
    QuotientBelow(a, t, Two(256 - e));
    QuotientBelow(z, Two(e), Two(256 - e));
  }

  /** When the product fits, so does everything exactly if the scaled target does. */
  lemma FitsIff(nBits: nat, t: nat, intended: nat)
    requires intended > 0
    ensures Decoded(nBits) < Two(256) && Excess(Decoded(nBits)) <= 18
    ensures Head(Decoded(nBits)) * t < Two(256) ==>
      (Fits(Decoded(nBits), t, intended) <==> Wanted(nBits, t, intended) < Two(256))
  {
    hide *;
    HeadExact(nBits);
    var d, z := Decoded(nBits), Wanted(nBits, t, intended);
    ExcessRange(d);
    UnwrappedCut(nBits, t, intended);
    var e, a := Excess(d), Head(d) * t;
    FitsIs(d, t, intended, a, e);
    ShiftFits(a, z, intended, e);
  }

  lemma TestFits(nBits: nat, t: nat)
    requires t <= 4 * TEST_TIMESPAN
    ensures Decoded(nBits) < Two(256) && Excess(Decoded(nBits)) <= 18 && Head(Decoded(nBits)) * t < Two(256)
    ensures Fits(Decoded(nBits), t, TEST_TIMESPAN) <==> Wanted(nBits, t, TEST_TIMESPAN) < Two(256)
  {
    hide Two, Decoded, Excess, Head, Wanted, Fits;
    FitsIff(nBits, t, TEST_TIMESPAN);
    ExcessRange(Decoded(nBits));
    HeadFits(Head(Decoded(nBits)), t);
  }

  lemma TwoTwelve()
    ensures Two(12) == 4096
  {
    assert Two(6) == 64;
    TwoAdd(6, 6);
  }

  lemma SmallTimes(h: nat, t: nat, p: nat, q: nat)
    requires h < p && t <= 2400 && q == 4096
    ensures h * t < p * q
  {
    MulMono(t, q, h);
    MoreTimes(h, p, q);
  }

  /** What is left of a scaled target beyond 256 bits. */
  lemma WrappedIs(nBits: nat, t: nat, intended: nat)
    requires intended > 0 && Head(Decoded(nBits)) * t < Two(256)
    ensures var u := Two(Excess(Decoded(nBits)));
      Rescaled(Decoded(nBits), t, intended) == Wanted(nBits, t, intended) / u * u % Two(256)
  {
    hide *;
    Constants();
    var d := Decoded(nBits);
    UnwrappedCut(nBits, t, intended);
    RescaledIs(d, t, intended);
    Euclid(Head(d) * t, 0, Head(d) * t, Two(256));
  }

  lemma TopWrap(z: nat, e: nat)
    requires e <= 18
    ensures var y := z / Two(e) * Two(e) % Two(256);
      y < Two(256) && (y >= TopTargets() <==> z % Two(256) >= TopTargets())
  {
    hide Two;
    TwoAdd(256 - e, e);
    TwoAdd(240 - e, e);
    Rescale(0xffff, Two(240 - e), Two(e));
    WrapCut(z, Two(e), Two(256 - e), 0xffff * Two(240 - e));
  }

  /** Cutting the low bits and reducing modulo p == r * u may be done in either order, and decides
      alike whether the result reaches a multiple of u. */
  lemma WrapCut(z: nat, u: nat, r: nat, c: nat)
    requires u > 0 && r > 0
    ensures r * u > 0 && z / u * u % (r * u) < r * u
    ensures z / u * u % (r * u) >= c * u <==> z % (r * u) >= c * u
  {
    MulMod(z / u, u, r);
    var q, k := z / u % r, z % u;
    assert z == z / u * u + k;
    assert z % (r * u) == q * u + k by { WrapParts(z, u, r); }
    Threshold(q, c, u);
    if q < c { MulMono(q + 1, c, u); assert (q + 1) * u == q * u + u; }
  }

  lemma Fold(n: nat, r: nat, q: nat, u: nat)
    ensures (n * r + q) * u == n * (r * u) + q * u
  {
  }

  lemma WrapForm(z: nat, m: nat, n: nat, q: nat, k: nat, u: nat, r: nat, p: nat)
    requires z == m * u + k && m == n * r + q && q < r && k < u && p == r * u
    ensures p > 0 && z % p == q * u + k
  {
    MulMono(q + 1, r, u);
    assert (q + 1) * u == q * u + u;
    Fold(n, r, q, u);
    Euclid(z, n, q * u + k, p);
  }

  lemma WrapParts(z: nat, u: nat, r: nat)
    requires u > 0 && r > 0
    ensures r * u > 0 && z % (r * u) == z / u % r * u + z % u
  {
    WrapForm(z, z / u, z / u / r, z / u % r, z % u, u, r, r * u);
  }

  /** On the test network the next word is that of min(limit, target * span / intended) if and only
      if the scaled target has at most 256 bits or, beyond them, leaves one of the highest targets. */
  lemma TestExactIff(nBits: nat, span: int)
    ensures var z := Wanted(nBits, Clamped(span, TEST_TIMESPAN), TEST_TIMESPAN);
      TestNext(nBits, span) == Encoded(Min(z, TestLimit()), false) <==>
      z < Two(256) || z % Two(256) >= TopTargets()
  {
    var t := Clamped(span, TEST_TIMESPAN);
    assert t <= 4 * TEST_TIMESPAN && t % BASE == t;
    var z := Wanted(nBits, t, TEST_TIMESPAN);
    assert TestNext(nBits, span) == Encoded(Min(Rescaled(Decoded(nBits), t, TEST_TIMESPAN), TestLimit()), false);
    hide Two, Encoded, Rescaled, Decoded, Wanted, Excess, Clamped, TopTargets, Fits;
    TestFits(nBits, t);
    NextExact(nBits, t, TEST_TIMESPAN, TestLimit());
    WrappedIs(nBits, t, TEST_TIMESPAN);
    TopWrap(z, Excess(Decoded(nBits)));
    TopWord(Rescaled(Decoded(nBits), t, TEST_TIMESPAN));
  }

  lemma LostWord()
    ensures Decoded(0x2040_0000) == Two(254) && Wanted(0x2040_0000, 2400, TEST_TIMESPAN) == Two(256)
  {
    assert Two(22) == 0x40_0000 && Two(2) == 4;
    hide Two, Pow;
    Constants();
    TwoAdd(22, 232);
    TwoAdd(2, 254);
    Euclid(Two(254), 0, Two(254), Two(256));
    Euclid(Two(254) * 2400, Two(256), 0, TEST_TIMESPAN);
  }

  lemma ZeroWord()
    ensures Encoded(0, false) == 0 == Decoded(0)
  {
    hide Two, Pow;
    assert BitLength(0) == 0 && Leading(0) == 0;
    assert WordOf(0) == 0 by { Euclid(0, 0, 0, Two(24)); }
    Euclid(0, 0, 0, Pow(WIDTH));
  }

  /** Exactly 2^256 is cut to nothing. */
  lemma LostAll(nBits: nat, t: nat)
    requires t <= 4 * TEST_TIMESPAN && Wanted(nBits, t, TEST_TIMESPAN) == Two(256)
    ensures Rescaled(Decoded(nBits), t, TEST_TIMESPAN) == 0
  {
    hide Two, Decoded, Excess, Head, Wanted, Fits, Rescaled;
    TestFits(nBits, t);
    WrappedIs(nBits, t, TEST_TIMESPAN);
    var e := Excess(Decoded(nBits));
    TwoAdd(256 - e, e);
    Euclid(Two(256), Two(256 - e), 0, Two(e));
    Euclid(Two(256), 1, 0, Two(256));
  }

  /** It need not be: a target of 2^254 and a slow period give the target zero, which no block meets. */
  lemma TestLosesTarget()
    ensures Decoded(0x2040_0000) == Two(254) && Wanted(0x2040_0000, 2400, TEST_TIMESPAN) == Two(256)
    ensures TestNext(0x2040_0000, 2400) == 0 == Decoded(0)
    ensures TestNext(0x2040_0000, 2400) != Encoded(Min(Two(256), TestLimit()), false)
  {
    assert Clamped(2400, TEST_TIMESPAN) == 2400;
    hide Two, Encoded, Rescaled, Decoded, Wanted, Clamped;
    LostWord();
    LostAll(0x2040_0000, 2400);
    ZeroWord();
    TopIs();
    TestExactIff(0x2040_0000, 2400);
    Euclid(Two(256), 1, 0, Two(256));
  }
}
