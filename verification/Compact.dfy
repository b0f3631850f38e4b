/** The compact form of 256-bit targets: one byte of size and a 23-bit mantissa with a sign bit. */
module Compact {

  import opened Basics
  import opened Limbs
  import opened Shifts

  const SIGN: nat := 0x80_0000
  const SIZE: nat := 0x100_0000

  // ---------------------------------------------------------------- what a compact word means

  function SizeOf(c: nat): nat { c / SIZE }

  /** The mantissa; small sizes shift bytes out of it. */
  function WordOf(c: nat): nat {
    if SizeOf(c) <= 3 then WordShr(c % SIGN, 8 * (3 - SizeOf(c))) else c % SIGN
  }

  /** The number the word describes, before it is cut to 256 bits. */
  function Exact(c: nat): nat {
    if SizeOf(c) <= 3 then WordOf(c) else WordOf(c) * Two(8 * (SizeOf(c) - 3))
  }

  function Decoded(c: nat): nat {
    Exact(c) % Pow(WIDTH)
  }

  predicate Negative(c: nat) {
    WordOf(c) != 0 && c / SIGN % 2 == 1
  }

  predicate Overflow(c: nat) {
    var size, word := SizeOf(c), WordOf(c);
    word != 0 && (size > 34 || (word > 0xff && size > 33) || (word > 0xffff && size > 32))
  }

  lemma Constants()
    ensures Two(8) == 0x100 && Two(15) == 0x8000 && Two(16) == 0x1_0000 && Two(23) == SIGN && Two(24) == SIZE
    ensures Two(256) == Pow(WIDTH)
  {
    assert Two(8) == 0x100 && Two(7) == 0x80;
    hide Two;
    TwoAdd(8, 7);
    TwoAdd(8, 8);
    TwoAdd(16, 7);
    TwoAdd(16, 8);
    TwoPow(WIDTH);
  }

  /** The overflow flag is exact: it says whether the described number needs more than 256 bits. */
  lemma OverflowExact(c: nat)
    ensures Overflow(c) <==> Exact(c) >= Pow(WIDTH)
  {
    var size, word := SizeOf(c), WordOf(c);
    Constants();
    hide Two, Pow;
    if size <= 3 {
      WordSmall(c);
      TwoMono(24, 256);
    } else {
      var e := 8 * (size - 3);
      assert word == c % SIGN < SIGN;
      if size <= 32 {
        TwoAdd(23, e);
        MulMono(word, SIGN, Two(e));
        TwoMono(23 + e, 255);
        TwoStrict(255);
      } else if size == 33 {
        TwoAdd(16, e);
        Threshold(word, Two(16), Two(e));
      } else if size == 34 {
        TwoAdd(8, e);
        Threshold(word, Two(8), Two(e));
      } else {
        TwoMono(256, e);
        Threshold(word, 1, Two(e));
        if word >= 1 { MulMono(1, word, Two(e)); }
      }
    }
  }

  lemma TwoStrict(n: nat)
    ensures Two(n) < Two(n + 1)
  {
  }

  lemma WordSmall(c: nat)
    ensures WordOf(c) < SIGN
  {
    var w := c % SIGN;
    var t := Two(if SizeOf(c) <= 3 then 8 * (3 - SizeOf(c)) else 0);
    hide Two;
    if w / t > w { MulMono(w + 1, w / t, t); MulMono(1, t, w + 1); }
  }

  lemma Threshold(w: nat, a: nat, t: nat)
    requires t > 0
    ensures w >= a <==> w * t >= a * t
  {
    if w >= a { MulMono(a, w, t); } else { MulMono(w + 1, a, t); assert (w + 1) * t == w * t + t; }
  }

  // ---------------------------------------------------------------- encoding

  function BitLength(x: nat): nat {
    if x == 0 then 0 else 1 + BitLength(x / 2)
  }

  lemma {:induction false} BitLengthRange(x: nat)
    ensures x < Two(BitLength(x)) && (x > 0 ==> Two(BitLength(x) - 1) <= x)
  {
    if x > 0 { BitLengthRange(x / 2); }
  }

  lemma BitLengthIs(x: nat, n: nat)
    requires x < Two(n) && (n > 0 ==> Two(n - 1) <= x)
    ensures BitLength(x) == n
  {
    BitLengthRange(x);
    var b := BitLength(x);
    assert n > 0 ==> x > 0;
    hide BitLength;
    if b < n { TwoMono(b, n - 1); } else if n < b { TwoMono(n, b - 1); }
  }

  /** Bytes needed, and the leading three of them. */
  function Bytes(x: nat): nat { (BitLength(x) + 7) / 8 }

  function Leading(x: nat): nat {
    if Bytes(x) <= 3 then x * Two(8 * (3 - Bytes(x))) else x / Two(8 * (Bytes(x) - 3))
  }

  /** The mantissa gives up a byte when its top bit would read as the sign. */
  function Mantissa(x: nat): nat {
    if Leading(x) >= SIGN then Leading(x) / 256 else Leading(x)
  }

  function Exponent(x: nat): nat {
    if Leading(x) >= SIGN then Bytes(x) + 1 else Bytes(x)
  }

  function Encoded(x: nat, negative: bool): nat {
    var m, e := Mantissa(x), Exponent(x);
    m + e * SIZE + (if negative && m != 0 then SIGN else 0)
  }

  /** Leading is the number with 24 bits appended, cut back to its top three bytes. */
  lemma LeadingIs(x: nat)
    ensures Leading(x) == x * SIZE / Two(8 * Bytes(x))
  {
    Constants();
    var b := Bytes(x);
    hide Two, Bytes;
    if b <= 3 {
      TwoAdd(8 * (3 - b), 8 * b);
      ScaleDown(x, Two(8 * (3 - b)), Two(8 * b), SIZE);
    } else {
      TwoAdd(8 * (b - 3), 24);
      CancelScale(x, Two(8 * (b - 3)), SIZE);
    }
  }

  lemma LeadingRange(x: nat)
    requires x > 0
    ensures Two(16 + 8 * Bytes(x)) <= x * SIZE < Two(24 + 8 * Bytes(x))
  {
    hide *;
    BytesRange(x);
    SizeIs();
    var b := Bytes(x);
    TwoAdd(8 * b - 8, 24);
    TwoAdd(8 * b, 24);
    RangeScale(x, Two(8 * b - 8), Two(8 * b));
    assert 8 * b - 8 + 24 == 16 + 8 * b;
  }

  lemma SizeIs()
    ensures Two(24) == SIZE
  {
    hide *;
    Constants();
  }

  lemma BytesRange(x: nat)
    requires x > 0
    ensures Bytes(x) > 0 && Two(8 * Bytes(x) - 8) <= x < Two(8 * Bytes(x))
  {
    BitLengthRange(x);
    var n, b := BitLength(x), Bytes(x);
    assert n > 0 && 8 * b - 8 <= n - 1 && n <= 8 * b;
    hide *;
    TwoMono(8 * b - 8, n - 1);
    TwoMono(n, 8 * b);
  }

  lemma RangeScale(x: nat, lo: nat, hi: nat)
    requires lo <= x < hi
    ensures lo * SIZE <= x * SIZE < hi * SIZE
  {
  }

  lemma ScaleDown(x: nat, t: nat, u: nat, size: nat)
    requires t * u == size && u > 0
    ensures x * size / u == x * t
  {
    assert x * (t * u) == x * t * u;
    Euclid(x * size, x * t, 0, u);
  }

  lemma CancelScale(x: nat, t: nat, size: nat)
    requires t > 0 && size > 0
    ensures x * size / (t * size) == x / t
  {
    var q, r := x / t, x % t;
    assert x == q * t + r;
    assert (q * t + r) * size == q * (t * size) + r * size;
    MulMono(r + 1, t, size);
    assert (r + 1) * size == r * size + size;
    Euclid(x * size, q, r * size, t * size);
  }

  /** Mantissa and exponent are the ones of a base 256 floating form with a 23-bit mantissa: the
      interval of the exponent determines it, and the mantissa is the number cut to it. */
  lemma Normal(x: nat)
    ensures Mantissa(x) == x * SIZE / Two(8 * Exponent(x)) && Mantissa(x) < SIGN
    ensures x > 0 ==> 0x8000 <= Mantissa(x) && Two(15 + 8 * Exponent(x)) <= x * SIZE < Two(23 + 8 * Exponent(x))
  {
    if x == 0 {
      assert Leading(0) == 0;
      hide Two;
      ZeroQuotient(Two(8 * Exponent(0)));
    } else {
      hide *;
      NormalPositive(x);
    }
  }

  lemma NormalPositive(x: nat)
    requires x > 0
    ensures Mantissa(x) == x * SIZE / Two(8 * Exponent(x)) && 0x8000 <= Mantissa(x) < SIGN
    ensures Two(15 + 8 * Exponent(x)) <= x * SIZE < Two(23 + 8 * Exponent(x))
  {
    hide Two, Bytes, Leading;
    LeadingIs(x);
    LeadingRange(x);
    var b, e := Bytes(x), Exponent(x);
    Places(b);
    Places(e);
    NormalCut(x * SIZE, Two(8 * b));
  }

  lemma Places(b: nat)
    ensures Two(8 * b + 8) == Two(8 * b) * 256 && Two(16 + 8 * b) == 0x1_0000 * Two(8 * b) && Two(24 + 8 * b) == SIZE * Two(8 * b)
    ensures Two(15 + 8 * b) == 0x8000 * Two(8 * b) && Two(23 + 8 * b) == SIGN * Two(8 * b) && 8 * (b + 1) == 8 * b + 8
  {
    Constants();
    hide Two;
    TwoAdd(8 * b, 8);
    TwoAdd(16, 8 * b);
    TwoAdd(24, 8 * b);
    TwoAdd(15, 8 * b);
    TwoAdd(23, 8 * b);
  }

  lemma ZeroQuotient(t: nat)
    requires t > 0
    ensures 0 * SIZE / t == 0 && 0 / t == 0
  {
    Euclid(0, 0, 0, t);
  }

  lemma NormalCut(s: nat, t: nat)
    requires t > 0 && 0x1_0000 * t <= s < SIZE * t
    ensures var l := s / t;
      var m, u := if l >= SIGN then l / 256 else l, if l >= SIGN then t * 256 else t;
      m == s / u && 0x8000 <= m < SIGN && 0x8000 * u <= s < SIGN * u
  {
    DivTwice(s, t, 256);
    QuotientBelow(s, t, SIGN);
    QuotientBelow(s, t, SIZE);
    QuotientBelow(s, t, 0x1_0000);
  }

  /** A quotient is below a bound exactly when the dividend is below the multiple. */
  lemma QuotientBelow(x: nat, t: nat, bound: nat)
    requires t > 0
    ensures x / t < bound <==> x < bound * t
  {
    var q, r := x / t, x % t;
    assert x == q * t + r && (q + 1) * t == q * t + t;
    if q < bound { MulMono(q + 1, bound, t); } else { MulMono(bound, q, t); }
  }

  /** The fields of an encoded number read back. */
  lemma Fields(x: nat, negative: bool)
    ensures var c := Encoded(x, negative);
      SizeOf(c) == Exponent(x) && c % SIGN == Mantissa(x) && (c / SIGN % 2 == 1 <==> negative && Mantissa(x) != 0)
  {
    Normal(x);
    var m, e, c := Mantissa(x), Exponent(x), Encoded(x, negative);
    hide Mantissa, Exponent;
    var sign := if negative && m != 0 then 1 else 0;
    Euclid(c, e, m + sign * SIGN, SIZE);
    Euclid(c, 2 * e + sign, m, SIGN);
  }

  /** How many low bytes the mantissa does not reach. */
  function Dropped(x: nat): nat {
    if Exponent(x) <= 3 then 0 else Exponent(x) - 3
  }

  /** Decoding an encoded number clears the bytes below the mantissa and changes nothing else. */
  lemma Truncates(x: nat, negative: bool)
    ensures var c := Encoded(x, negative);
      Exact(c) == x - x % Two(8 * Dropped(x)) && Exact(c) * SIZE == Mantissa(x) * Two(8 * Exponent(x))
  {
    Fields(x, negative);
    Normal(x);
    hide Two, Encoded, Mantissa, Exponent;
    if Exponent(x) <= 3 {
      SmallExponent(x, Mantissa(x), Exponent(x));
    } else {
      LargeExponent(x, Mantissa(x), Exponent(x));
    }
  }

  lemma SmallExponent(x: nat, m: nat, e: nat)
    requires e <= 3 && m == x * SIZE / Two(8 * e)
    ensures WordShr(m, 8 * (3 - e)) == x && x * SIZE == m * Two(8 * e) && x % Two(0) == 0
  {
    Constants();
    TwoZero();
    hide Two;
    TwoAdd(8 * (3 - e), 8 * e);
    ScaleDown(x, Two(8 * (3 - e)), Two(8 * e), SIZE);
    Euclid(m, x, 0, Two(8 * (3 - e)));
    Rescale(x, Two(8 * (3 - e)), Two(8 * e));
  }

  lemma LargeExponent(x: nat, m: nat, e: nat)
    requires e > 3 && m == x * SIZE / Two(8 * e)
    ensures var u := Two(8 * (e - 3)); m * u == x - x % u && m * u * SIZE == m * Two(8 * e)
  {
    Constants();
    hide Two;
    var u := Two(8 * (e - 3));
    TwoAdd(8 * (e - 3), 24);
    CancelScale(x, u, SIZE);
    Rescale(m, u, SIZE);
    assert x == x / u * u + x % u;
  }

  lemma Rescale(a: nat, t: nat, u: nat)
    ensures a * t * u == a * (t * u)
  {
  }

  /** The interval of an exponent belongs to no other exponent. */
  lemma ExponentIs(x: nat, e: nat)
    requires Two(15 + 8 * e) <= x * SIZE < Two(23 + 8 * e)
    ensures x > 0 && Exponent(x) == e && Mantissa(x) == x * SIZE / Two(8 * e)
  {
    Normal(x);
    var f := Exponent(x);
    hide Two, Exponent, Mantissa;
    if f < e { TwoMono(23 + 8 * f, 15 + 8 * e); } else if e < f { TwoMono(23 + 8 * e, 15 + 8 * f); }
  }

  lemma ExponentBound(x: nat)
    requires x < Pow(WIDTH)
    ensures Exponent(x) <= 33
  {
    if x == 0 {
      assert Exponent(0) == 0;
    } else {
      Constants();
      Normal(x);
      hide Two, Exponent, Mantissa;
      TwoAdd(256, 24);
      if Exponent(x) > 33 { TwoMono(280, 15 + 8 * Exponent(x)); }
    }
  }

  /** Encoding a 256-bit number and decoding it gives the number without the bytes below the
      mantissa, is never negative or overflowing, and encodes to the same word again. */
  lemma CompactRoundTrip(x: nat)
    requires x < Pow(WIDTH)
    ensures var c := Encoded(x, false);
      && c < BASE && !Negative(c) && !Overflow(c)
      && Decoded(c) == x - x % Two(8 * Dropped(x)) && Encoded(Decoded(c), false) == c
  {
    var c := Encoded(x, false);
    ExponentBound(x);
    Normal(x);
    Fields(x, false);
    Truncates(x, false);
    hide Two, Pow, Mantissa, Exponent, Exact, Overflow;
    var d := Exact(c);
    OverflowExact(c);
    Euclid(d, 0, d, Pow(WIDTH));
    if x > 0 { Reencodes(x, d); }
  }

  lemma Reencodes(x: nat, d: nat)
    requires x > 0 && d * SIZE == Mantissa(x) * Two(8 * Exponent(x))
    ensures Mantissa(d) == Mantissa(x) && Exponent(d) == Exponent(x)
  {
    Normal(x);
    Constants();
    var m, e := Mantissa(x), Exponent(x);
    hide Two, Mantissa, Exponent;
    TwoAdd(15, 8 * e);
    TwoAdd(23, 8 * e);
    MulMono(0x8000, m, Two(8 * e));
    MulMono(m + 1, SIGN, Two(8 * e));
    assert (m + 1) * Two(8 * e) == m * Two(8 * e) + Two(8 * e);
    ExponentIs(d, e);
    Euclid(d * SIZE, m, 0, Two(8 * e));
  }

  lemma ExponentMono(x: nat, y: nat)
    requires 0 < x <= y
    ensures Exponent(x) <= Exponent(y)
  {
    Normal(x);
    Normal(y);
    hide Two, Exponent, Mantissa;
    var e, g := Exponent(x), Exponent(y);
    if g < e { TwoMono(23 + 8 * g, 15 + 8 * e); }
  }

  /** Whatever a larger exponent decodes to lies above every number with a smaller one. */
  lemma ExponentGap(x: nat, y: nat)
    requires 0 < x && 0 < y && Exponent(x) < Exponent(y)
    ensures x < Exact(Encoded(y, false))
  {
    Normal(x);
    Normal(y);
    Truncates(y, false);
    Constants();
    hide Two, Exponent, Mantissa, Encoded, Exact;
    var e, g := Exponent(x), Exponent(y);
    TwoMono(23 + 8 * e, 15 + 8 * g);
    TwoAdd(15, 8 * g);
    MulMono(0x8000, Mantissa(y), Two(8 * g));
  }

  /** Larger targets never decode to smaller ones. */
  lemma CompactMonotone(x: nat, y: nat)
    requires x <= y < Pow(WIDTH)
    ensures Decoded(Encoded(x, false)) <= Decoded(Encoded(y, false))
  {
    CompactRoundTrip(x);
    CompactRoundTrip(y);
    OverflowExact(Encoded(y, false));
    assert Decoded(Encoded(y, false)) == Exact(Encoded(y, false)) by {
      Euclid(Exact(Encoded(y, false)), 0, Exact(Encoded(y, false)), Pow(WIDTH));
    }
    hide Encoded, Pow, Two, Mantissa, Exponent, Exact, Decoded;
    if x > 0 {
      ExponentMono(x, y);
      if Exponent(x) == Exponent(y) {
        FloorMono(x, y, Two(8 * Dropped(x)));
      } else {
        ExponentGap(x, y);
      }
    }
  }

  lemma FloorMono(x: nat, y: nat, t: nat)
    requires x <= y && t > 0
    ensures x - x % t <= y - y % t
  {
    var a, b := x / t, y / t;
    assert x == a * t + x % t && y == b * t + y % t;
    assert (b + 1) * t == b * t + t;
    if a > b { MulMono(b + 1, a, t); }
    MulMono(a, b, t);
  }
}
