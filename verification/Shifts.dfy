/** Powers of two, the bitwise or of limbs, and what one step of each shift loop does to the number. */
module Shifts {

  import opened Basics
  import opened Limbs

  lemma TwoBase()
    ensures Two(32) == BASE
  {
    assert Two(8) == 256;
    TwoAdd(8, 8);
    TwoAdd(16, 16);
  }

  lemma {:induction false} TwoPow(k: nat)
    ensures Two(32 * k) == Pow(k)
  {
    if k > 0 {
      TwoPow(k - 1);
      TwoAdd(32, 32 * (k - 1));
      TwoBase();
    }
  }

  /** The bitwise or of two words. */
  function BitOr(a: nat, b: nat): nat
    decreases a + b
  {
    if a == 0 && b == 0 then 0
    else 2 * BitOr(a / 2, b / 2) + (if a % 2 == 1 || b % 2 == 1 then 1 else 0)
  }

  /** Words with no bit in common: one below bit n, the other from bit n on. */
  lemma {:induction false} OrDisjoint(a: nat, b: nat, n: nat)
    requires a < Two(n) && b % Two(n) == 0
    ensures BitOr(a, b) == a + b == BitOr(b, a)
    decreases n
  {
    if n == 0 {
      OrZero(b);
    } else {
      var p, q := Two(n - 1), b / Two(n);
      assert b == q * Two(n) by { Divides(b, Two(n)); }
      assert q * (2 * p) == 2 * (q * p);
      Euclid(b, q * p, 0, 2);
      Euclid(b / 2, q, 0, p);
      OrDisjoint(a / 2, b / 2, n - 1);
    }
  }

  lemma {:induction false} OrZero(b: nat)
    ensures BitOr(0, b) == b == BitOr(b, 0)
  {
    if b > 0 { OrZero(b / 2); }
  }

  /** A bit that is clear is set by adding it. */
  lemma {:induction false} OrClearBit(x: nat, n: nat)
    requires !Bit(x, n)
    ensures BitOr(x, Two(n)) == x + Two(n)
  {
    if n == 0 {
      OrZero(x / 2);
    } else {
      assert Two(n) == 2 * Two(n - 1);
      hide Two, Bit;
      HalfBit(x, n);
      OrClearBit(x / 2, n - 1);
    }
  }

  lemma HalfBit(x: nat, n: nat)
    requires n > 0
    ensures Bit(x / 2, n - 1) == Bit(x, n)
  {
    DivTwice(x, 2, Two(n - 1));
  }

  lemma DivTwice(x: nat, t: nat, u: nat)
    requires t > 0 && u > 0
    ensures x / t / u == x / (t * u)
  {
    var q, r := x / t, x % t;
    var p, s := q / u, q % u;
    assert x == q * t + r && q == p * u + s;
    assert (p * u + s) * t == p * (t * u) + s * t;
    MulMono(s + 1, u, t);
    assert (s + 1) * t == s * t + t;
    Euclid(x, p, s * t + r, t * u);
  }

  lemma Divides(x: nat, m: nat)
    requires m > 0 && x % m == 0
    ensures x == x / m * m
  {
    assert x == x / m * m + x % m;
  }

  // ---------------------------------------------------------------- words

  /** A 32-bit word shifted left, and the bits that leave it. */
  function WordShl(a: nat, s: nat): nat { Product(a, Two(s)) % BASE }

  function WordShr(a: nat, s: nat): nat { Quotient(a, Two(s)) }

  /** A word times 2^s is its left shift plus the bits that left, one limb up. */
  lemma WordSplit(a: nat, s: nat)
    requires a < BASE && s <= 32
    ensures a * Two(s) == WordShl(a, s) + BASE * WordShr(a, 32 - s)
    ensures WordShr(a, 32 - s) < Two(s) && WordShl(a, s) < BASE && WordShl(a, s) % Two(s) == 0
  {
    TwoAdd(s, 32 - s);
    TwoBase();
    WordAlgebra(a, Two(s), Two(32 - s));
  }

  lemma WordAlgebra(a: nat, t: nat, u: nat)
    requires t > 0 && u > 0 && t * u == BASE && a < BASE
    ensures a * t == a * t % BASE + BASE * (a / u) && a / u < t && a * t % BASE % t == 0
  {
    var q, r := a / u, a % u;
    assert a == q * u + r;
    assert (q * u + r) * t == q * (t * u) + r * t;
    MulMono(r + 1, u, t);
    assert (r + 1) * t == r * t + t;
    Euclid(a * t, q, r * t, BASE);
    Euclid(r * t, r, 0, t);
    assert (t - 1 + 1) * u == t * u;
    if q >= t { MulMono(t, q, u); }
  }

  /** A multiple of 2^s below 2^32 leaves room for any s low bits. */
  lemma RoomBelow(low: nat, high: nat, s: nat)
    requires s <= 32 && low < Two(s) && high % Two(s) == 0 && high < BASE
    ensures low + high < BASE
  {
    TwoAdd(s, 32 - s);
    TwoBase();
    Divides(high, Two(s));
    RoomAlgebra(low, high / Two(s), Two(s), Two(32 - s));
  }

  lemma RoomAlgebra(low: nat, q: nat, t: nat, u: nat)
    requires low < t && q * t < t * u
    ensures low + q * t < t * u
  {
    if q >= u { MulMono(u, q, t); }
    MulMono(q + 1, u, t);
    assert (q + 1) * t == q * t + t;
  }

  // ---------------------------------------------------------------- shift left

  /** The bits that limb m - 1 hands to limb m. */
  function ShlCarry(a: seq<nat>, s: nat, m: nat): nat
    requires m <= |a|
  {
    if m == 0 || s > 32 then 0 else WordShr(a[m - 1], 32 - s)
  }

  /** r after the first m limbs of a were moved k limbs and s bits up. */
  predicate ShlDone(r: seq<nat>, a: seq<nat>, k: nat, s: nat, m: nat) {
    && |r| == |a| == WIDTH && AreLimbs(r) && k + m <= WIDTH
    && Val(r[..k + m]) + ShlCarry(a, s, m) * Pow(k + m) == Val(a[..m]) * (Two(s) * Pow(k))
    && (k + m < WIDTH ==> r[k + m] == ShlCarry(a, s, m))
    && forall i :: k + m < i < WIDTH ==> r[i] == 0
  }

  lemma ShlStart(r: seq<nat>, a: seq<nat>, k: nat, s: nat)
    requires |r| == |a| == WIDTH && k <= WIDTH && forall i :: 0 <= i < WIDTH ==> r[i] == 0
    ensures ShlDone(r, a, k, s, 0)
  {
    ValZero(r[..k]);
    ValEmpty(a);
  }

  function ShlInto(r: seq<nat>, w: nat, k: nat, s: nat, i: nat): seq<nat>
    requires |r| == WIDTH && i + k < WIDTH && s < 32
  {
    var up := if i + k + 1 < WIDTH && s != 0
      then r[i + k + 1 := BitOr(r[i + k + 1], WordShr(w, 32 - s))] else r;
    up[i + k := BitOr(up[i + k], WordShl(w, s))]
  }

  lemma ShlAlgebra(vr: nat, va: nat, p: nat, pi: nat, pk: nat, t: nat, c: nat, lo: nat, hi: nat, w: nat)
    requires p == pi * pk && w * t == lo + BASE * hi && vr + c * p == va * (t * pk)
    ensures vr + (c + lo) * p + hi * (BASE * p) == (va + w * pi) * (t * pk)
  {
    assert (c + lo) * p == c * p + lo * p;
    assert (lo + BASE * hi) * p == lo * p + hi * (BASE * p);
    assert (va + w * pi) * (t * pk) == va * (t * pk) + w * pi * (t * pk);
    assert w * pi * (t * pk) == w * t * (pi * pk);
  }

  lemma ShlWords(r: seq<nat>, a: seq<nat>, k: nat, s: nat, i: nat)
    requires ShlDone(r, a, k, s, i) && AreLimbs(a) && k + i < WIDTH && s < 32
    ensures var n, w := ShlInto(r, a[i], k, s, i), a[i];
      && |n| == WIDTH && AreLimbs(n) && n[..k + i] == r[..k + i]
      && n[k + i] == ShlCarry(a, s, i) + WordShl(w, s)
      && (k + i + 1 < WIDTH ==> n[k + i + 1] == WordShr(w, 32 - s))
      && forall j :: k + i + 1 < j < WIDTH ==> n[j] == 0
  {
    hide Val, Pow;
    var w, c := a[i], ShlCarry(a, s, i);
    if i > 0 { WordSplit(a[i - 1], s); }
    WordSplit(w, s);
    OrZero(WordShr(w, 32 - s));
    if s == 0 { TwoBase(); }
    OrDisjoint(c, WordShl(w, s), s);
    RoomBelow(c, WordShl(w, s), s);
    TwoMono(s, 32);
    TwoBase();
  }

  lemma ShlStep(r: seq<nat>, a: seq<nat>, k: nat, s: nat, i: nat)
    requires ShlDone(r, a, k, s, i) && AreLimbs(a) && k + i < WIDTH && s < 32
    ensures ShlDone(ShlInto(r, a[i], k, s, i), a, k, s, i + 1) && AreLimbs(ShlInto(r, a[i], k, s, i))
  {
    assert Pow(k + i + 1) == BASE * Pow(k + i);
    hide Val, Pow, Two, BitOr, ShlInto;
    ShlWords(r, a, k, s, i);
    var n, w := ShlInto(r, a[i], k, s, i), a[i];
    ValStep(n, k + i);
    ValStep(a, i);
    WordSplit(w, s);
    PowAdd(i, k);
    hide WordShl, WordShr;
    ShlAlgebra(Val(r[..k + i]), Val(a[..i]), Pow(k + i), Pow(i), Pow(k), Two(s), ShlCarry(a, s, i),
      WordShl(w, s), WordShr(w, 32 - s), w);
    assert k + (i + 1) == k + i + 1;
  }

  lemma TwoSplit(shift: nat)
    ensures Two(shift) == Two(shift % 32) * Pow(shift / 32)
  {
    var k, s := shift / 32, shift % 32;
    assert shift == 32 * k + s;
    TwoAdd(32 * k, s);
    TwoPow(k);
  }

  lemma CutShift(low: nat, high: nat, f: nat, t: nat, pk: nat, pw: nat, p: nat)
    requires f == t * pk && pw * pk == p
    ensures (low + pw * high) * f == low * f + high * t * p
  {
    assert (low + pw * high) * f == low * f + pw * high * f;
    assert pw * high * (t * pk) == high * t * (pw * pk);
  }

  /** The limbs that leave at the top only count multiples of 2^256. */
  lemma ShlLost(a: seq<nat>, shift: nat)
    requires |a| == WIDTH && shift / 32 <= WIDTH
    ensures var w := WIDTH - shift / 32;
      Val(a) * Two(shift) == Val(a[..w]) * Two(shift) + Val(a[w..]) * Two(shift % 32) * Pow(WIDTH)
  {
    hide Val, Pow, Two;
    var k, w := shift / 32, WIDTH - shift / 32;
    TwoSplit(shift);
    assert a == a[..w] + a[w..];
    ValAppend(a[..w], a[w..]);
    PowAdd(w, k);
    CutShift(Val(a[..w]), Val(a[w..]), Two(shift), Two(shift % 32), Pow(k), Pow(w), Pow(WIDTH));
  }

  /** What is left when all limbs that stay have moved. */
  lemma ShlStays(r: seq<nat>, a: seq<nat>, shift: nat)
    requires shift / 32 <= WIDTH && ShlDone(r, a, shift / 32, shift % 32, WIDTH - shift / 32)
    ensures var w := WIDTH - shift / 32;
      w <= |a| && Val(r) < Pow(WIDTH) && Val(r) + ShlCarry(a, shift % 32, w) * Pow(WIDTH) == Val(a[..w]) * Two(shift)
  {
    hide Val, Pow, Two, ShlCarry;
    assert r[..WIDTH] == r;
    ValBound(r);
    TwoSplit(shift);
  }

  lemma ShlFinish(r: seq<nat>, a: seq<nat>, shift: nat)
    requires shift / 32 <= WIDTH && ShlDone(r, a, shift / 32, shift % 32, WIDTH - shift / 32)
    ensures Val(r) == Val(a) * Two(shift) % Pow(WIDTH)
  {
    var w := WIDTH - shift / 32;
    ShlStays(r, a, shift);
    ShlLost(a, shift);
    hide *;
    Reduces(Val(a) * Two(shift), Val(r), ShlCarry(a, shift % 32, w), Val(a[w..]) * Two(shift % 32),
      Val(a[..w]) * Two(shift), Pow(WIDTH));
  }

  lemma Reduces(total: int, v: nat, c: int, d: int, x: int, p: nat)
    requires v < p && v + c * p == x && total == x + d * p
    ensures v == total % p
  {
    assert (c + d) * p == c * p + d * p;
    Euclid(total, c + d, v, p);
  }

  lemma ShlFar(v: nat, shift: nat)
    requires shift / 32 > WIDTH
    ensures v * Two(shift) % Pow(WIDTH) == 0
  {
    hide Val, Pow, Two;
    var k, s := shift / 32, shift % 32;
    TwoSplit(shift);
    PowAdd(k - WIDTH, WIDTH);
    FarAlgebra(v, Two(s), Pow(k - WIDTH), Pow(WIDTH));
  }

  lemma FarAlgebra(v: nat, t: nat, f: nat, p: nat)
    requires p > 0
    ensures v * (t * (f * p)) % p == 0
  {
    assert v * (t * (f * p)) == v * t * f * p;
    Euclid(v * (t * (f * p)), v * t * f, 0, p);
  }

  // ---------------------------------------------------------------- shift right

  /** r after limbs k to m of a were moved k limbs and s bits down. */
  predicate ShrDone(r: seq<nat>, a: seq<nat>, k: nat, s: nat, m: nat) {
    && |r| == |a| == WIDTH && AreLimbs(r) && k <= m <= WIDTH
    && Val(r[..m - k]) * Two(s) + (if m == k then 0 else a[k] % Two(s)) == Val(a[k..m])
    && (m > k ==> r[m - k - 1] == WordShr(a[m - 1], s))
    && forall i :: m - k <= i < WIDTH ==> r[i] == 0
  }

  lemma ShrStart(r: seq<nat>, a: seq<nat>, k: nat, s: nat)
    requires |r| == |a| == WIDTH && k <= WIDTH && forall i :: 0 <= i < WIDTH ==> r[i] == 0
    ensures ShrDone(r, a, k, s, k)
  {
    ValEmpty(r);
    ValEmpty(a);
  }

  function ShrInto(r: seq<nat>, w: nat, k: nat, s: nat, i: nat): seq<nat>
    requires |r| == WIDTH && k <= i < WIDTH && s < 32
  {
    var down := if i - k - 1 >= 0 && s != 0
      then r[i - k - 1 := BitOr(r[i - k - 1], WordShl(w, 32 - s))] else r;
    down[i - k := BitOr(down[i - k], WordShr(w, s))]
  }

  /** A word is its right shift times 2^s plus its low s bits, which the left shift moves to the top. */
  lemma WordParts(w: nat, s: nat)
    requires w < BASE && s <= 32
    ensures w == WordShr(w, s) * Two(s) + w % Two(s) && WordShr(w, s) < Two(32 - s)
    ensures WordShl(w, 32 - s) == w % Two(s) * Two(32 - s) && WordShl(w, 32 - s) % Two(32 - s) == 0
    ensures WordShl(w, 32 - s) < BASE
  {
    TwoAdd(s, 32 - s);
    TwoBase();
    hide Two;
    PartsAlgebra(w, Two(s), Two(32 - s));
  }

  lemma PartsAlgebra(w: nat, t: nat, u: nat)
    requires t > 0 && u > 0 && t * u == BASE && w < BASE
    ensures w == w / t * t + w % t && w / t < u && w * u % BASE == w % t * u && w % t * u % u == 0
  {
    var q, r := w / t, w % t;
    assert w == q * t + r;
    assert (q * t + r) * u == q * (t * u) + r * u;
    MulMono(r + 1, t, u);
    assert (r + 1) * u == r * u + u;
    Euclid(w * u, q, r * u, BASE);
    Euclid(r * u, r, 0, u);
    if q >= u { MulMono(u, q, t); }
  }

  /** The limb below takes the low bits of the next word above its own. */
  lemma ShrBelow(word: nat, w: nat, s: nat)
    requires word < BASE && w < BASE && s < 32
    ensures var low := WordShr(word, s);
      var n := if s != 0 then BitOr(low, WordShl(w, 32 - s)) else low;
      n == low + w % Two(s) * Two(32 - s) && n < BASE
  {
    WordParts(w, s);
    WordParts(word, s);
    TwoMono(32 - s, 32);
    TwoBase();
    hide Two, BitOr;
    OrDisjoint(WordShr(word, s), WordShl(w, 32 - s), 32 - s);
    RoomBelow(WordShr(word, s), WordShl(w, 32 - s), 32 - s);
    if s == 0 { assert w % Two(s) == 0 by { assert Two(0) == 1 by { TwoZero(); } } }
  }

  lemma TwoZero()
    ensures Two(0) == 1
  {
  }

  lemma TwoOne()
    ensures Two(1) == 2
  {
  }

  lemma ShrWords(r: seq<nat>, a: seq<nat>, k: nat, s: nat, i: nat)
    requires ShrDone(r, a, k, s, i) && AreLimbs(a) && i < WIDTH && s < 32
    ensures var n, w, d := ShrInto(r, a[i], k, s, i), a[i], i - k;
      && |n| == WIDTH && AreLimbs(n) && n[d] == WordShr(w, s)
      && (d > 0 ==> n[..d - 1] == r[..d - 1] && n[d - 1] == r[d - 1] + w % Two(s) * Two(32 - s))
      && forall j :: d < j < WIDTH ==> n[j] == 0
  {
    hide Val, Pow, Two, BitOr, WordShl, WordShr;
    var w, d := a[i], i - k;
    WordParts(w, s);
    OrZero(WordShr(w, s));
    TwoMono(32 - s, 32);
    TwoBase();
    if d > 0 { ShrBelow(a[i - 1], w, s); }
  }

  lemma ShrAlgebra(vr: nat, last: nat, p: nat, t: nat, u: nat, low: nat, rest: nat, w: nat, va: nat)
    requires t * u == BASE && (vr + last * p) * t + rest == va
    ensures (vr + (last + low * u) * p + w * (BASE * p)) * t + rest == va + (low + w * t) * (BASE * p)
  {
    assert (last + low * u) * p == last * p + low * u * p;
    assert (vr + last * p + low * u * p + w * (BASE * p)) * t
      == (vr + last * p) * t + low * u * p * t + w * (BASE * p) * t;
    assert low * u * p * t == low * (t * u * p);
    assert w * (BASE * p) * t == w * t * (BASE * p);
    assert (low + w * t) * (BASE * p) == low * (BASE * p) + w * t * (BASE * p);
  }

  /** The first word only keeps its high bits. */
  lemma ShrFirst(n: seq<nat>, a: seq<nat>, s: nat)
    requires |n| > 0 && |a| > 0 && a[0] < BASE && s < 32 && n[0] == WordShr(a[0], s)
    ensures Val(n[..1]) * Two(s) + a[0] % Two(s) == Val(a[..1])
  {
    assert Pow(0) == 1;
    hide Val, Pow, Two;
    WordParts(a[0], s);
    ValStep(n, 0);
    ValStep(a, 0);
    ValEmpty(n);
    ValEmpty(a);
  }

  lemma ShrNext(n: seq<nat>, r: seq<nat>, a: seq<nat>, d: nat, s: nat)
    requires 0 < d < |n| == |r| && d < |a| && a[d] < BASE && s < 32
    requires n[..d - 1] == r[..d - 1] && n[d - 1] == r[d - 1] + a[d] % Two(s) * Two(32 - s)
    requires n[d] == WordShr(a[d], s) && Val(r[..d]) * Two(s) + a[0] % Two(s) == Val(a[..d])
    ensures Val(n[..d + 1]) * Two(s) + a[0] % Two(s) == Val(a[..d + 1])
  {
    assert Pow(d) == BASE * Pow(d - 1);
    hide Val, Pow, Two;
    ValStep(n, d);
    ValStep(n, d - 1);
    ValStep(r, d - 1);
    ValStep(a, d);
    WordParts(a[d], s);
    TwoAdd(s, 32 - s);
    TwoBase();
    hide WordShr, WordShl;
    ShrAlgebra(Val(r[..d - 1]), r[d - 1], Pow(d - 1), Two(s), Two(32 - s), a[d] % Two(s), a[0] % Two(s),
      WordShr(a[d], s), Val(a[..d]));
  }

  lemma ShrStep(r: seq<nat>, a: seq<nat>, k: nat, s: nat, i: nat)
    requires ShrDone(r, a, k, s, i) && AreLimbs(a) && i < WIDTH && s < 32
    ensures ShrDone(ShrInto(r, a[i], k, s, i), a, k, s, i + 1) && AreLimbs(ShrInto(r, a[i], k, s, i))
  {
    hide Val, Pow, Two, BitOr, ShrInto, WordShr;
    ShrWords(r, a, k, s, i);
    var n, d := ShrInto(r, a[i], k, s, i), i - k;
    assert a[k..i + 1] == a[k..][..d + 1] && a[k..i] == a[k..][..d];
    if d == 0 {
      ShrFirst(n, a[k..], s);
    } else {
      ShrNext(n, r, a[k..], d, s);
    }
  }

  /** The number is what moved down, times the step, plus what fell out at the bottom. */
  lemma ShrStays(r: seq<nat>, a: seq<nat>, shift: nat) returns (low: nat, rest: nat)
    requires AreLimbs(a) && shift / 32 <= WIDTH && ShrDone(r, a, shift / 32, shift % 32, WIDTH)
    ensures low < Pow(shift / 32) && rest < Two(shift % 32)
    ensures Val(a) == low + Pow(shift / 32) * (Val(r) * Two(shift % 32) + rest)
  {
    hide Val, Pow, Two;
    var k, s := shift / 32, shift % 32;
    assert a == a[..k] + a[k..] && a[k..] == a[k..WIDTH];
    ValAppend(a[..k], a[k..]);
    ValBound(a[..k]);
    ValPadded(r, WIDTH - k);
    low, rest := Val(a[..k]), if k == WIDTH then 0 else a[k] % Two(s);
  }

  lemma ShrFinish(r: seq<nat>, a: seq<nat>, shift: nat)
    requires AreLimbs(a) && shift / 32 <= WIDTH && ShrDone(r, a, shift / 32, shift % 32, WIDTH)
    ensures Val(r) == Val(a) / Two(shift)
  {
    var low, rest := ShrStays(r, a, shift);
    TwoSplit(shift);
    hide *;
    ShrQuotient(Val(r), Two(shift % 32), rest, Pow(shift / 32), low);
  }

  lemma ValPadded(r: seq<nat>, m: nat)
    requires m <= |r| && forall i :: m <= i < |r| ==> r[i] == 0
    ensures Val(r) == Val(r[..m])
  {
    assert r == r[..m] + r[m..];
    ValAppend(r[..m], r[m..]);
    ValZero(r[m..]);
  }

  lemma ShrQuotient(v: nat, t: nat, rest: nat, pk: nat, low: nat)
    requires rest < t && low < pk
    ensures t * pk > 0 && (low + pk * (v * t + rest)) / (t * pk) == v
  {
    MulMono(rest + 1, t, pk);
    assert (rest + 1) * pk == rest * pk + pk;
    assert low + pk * (v * t + rest) == v * (t * pk) + (rest * pk + low);
    Euclid(low + pk * (v * t + rest), v, rest * pk + low, t * pk);
  }

  lemma ShrFar(v: nat, shift: nat)
    requires shift / 32 >= WIDTH && v < Pow(WIDTH)
    ensures v / Two(shift) == 0
  {
    hide Val, Pow, Two;
    TwoMono(32 * WIDTH, shift);
    TwoPow(WIDTH);
    Euclid(v, 0, v, Two(shift));
  }

  // ---------------------------------------------------------------- order and top bit

  /** The highest limb that differs decides. */
  lemma HigherLimb(x: seq<nat>, y: seq<nat>, i: nat)
    requires i < |x| == |y| && AreLimbs(x) && AreLimbs(y) && x[i + 1..] == y[i + 1..] && x[i] < y[i]
    ensures Val(x) < Val(y)
  {
    hide Val, Pow;
    ValStep(x, i);
    ValStep(y, i);
    assert x == x[..i + 1] + x[i + 1..] && y == y[..i + 1] + y[i + 1..];
    ValAppend(x[..i + 1], x[i + 1..]);
    ValAppend(y[..i + 1], y[i + 1..]);
    ValBound(x[..i]);
    MulMono(x[i] + 1, y[i], Pow(i));
    assert (x[i] + 1) * Pow(i) == x[i] * Pow(i) + Pow(i);
  }

  predicate Bit(word: nat, n: nat) {
    word / Two(n) % 2 == 1
  }

  lemma BitClear(word: nat, n: nat)
    requires word < Two(n + 1) && !Bit(word, n)
    ensures word < Two(n)
  {
    var q := word / Two(n);
    if q >= 2 { MulMono(2, q, Two(n)); }
  }

  lemma BitSet(word: nat, n: nat)
    requires Bit(word, n)
    ensures Two(n) <= word
  {
    if word < Two(n) { Euclid(word, 0, word, Two(n)); }
  }

  lemma TopLimb(x: seq<nat>, pos: nat, b: nat)
    requires pos < |x| && AreLimbs(x) && (forall i :: pos < i < |x| ==> x[i] == 0)
    requires Two(b) <= x[pos] < Two(b + 1)
    ensures Two(32 * pos + b) <= Val(x) < Two(32 * pos + b + 1)
  {
    hide Val, Pow, Two;
    ValPadded(x, pos + 1);
    ValStep(x, pos);
    ValBound(x[..pos]);
    TwoPow(pos);
    TwoAdd(32 * pos, b);
    TwoAdd(32 * pos, b + 1);
    var w, p := x[pos], Pow(pos);
    MulMono(Two(b), w, p);
    MulMono(w + 1, Two(b + 1), p);
    assert (w + 1) * p == w * p + p;
    assert p * Two(b) == Two(b) * p && p * Two(b + 1) == Two(b + 1) * p;
  }

  // ---------------------------------------------------------------- long division

  /** The lowest n bits of the limbs are clear. */
  predicate Clear(r: seq<nat>, n: nat) {
    forall i {:trigger r[i]} :: 0 <= i < |r| && 32 * i < n ==> r[i] % Two(if n - 32 * i < 32 then n - 32 * i else 32) == 0
  }

  lemma ClearStart(r: seq<nat>, n: nat)
    requires forall i :: 0 <= i < |r| ==> r[i] == 0
    ensures Clear(r, n)
  {
    hide Two;
    forall i | 0 <= i < |r| && 32 * i < n
      ensures r[i] % Two(if n - 32 * i < 32 then n - 32 * i else 32) == 0
    {
      Euclid(0, 0, 0, Two(if n - 32 * i < 32 then n - 32 * i else 32));
    }
  }

  lemma EvenBelow(x: nat, n: nat)
    requires x % Two(n + 1) == 0
    ensures x % Two(n) == 0
  {
    Divides(x, Two(n + 1));
    var q := x / Two(n + 1);
    assert q * (2 * Two(n)) == 2 * q * Two(n);
    Euclid(x, 2 * q, 0, Two(n));
  }

  lemma ClearLess(r: seq<nat>, n: nat)
    requires Clear(r, n + 1)
    ensures Clear(r, n)
  {
    hide Two;
    forall i | 0 <= i < |r| && 32 * i < n
      ensures r[i] % Two(if n - 32 * i < 32 then n - 32 * i else 32) == 0
    {
      if n - 32 * i < 32 { EvenBelow(r[i], n - 32 * i); }
    }
  }

  /** Setting bit n over clear bits adds 2^n. */
  lemma SetBit(r: seq<nat>, n: nat)
    requires |r| == WIDTH && AreLimbs(r) && n < 32 * WIDTH && Clear(r, n + 1)
    ensures var s := r[n / 32 := BitOr(r[n / 32], Two(n % 32))];
      AreLimbs(s) && Clear(s, n) && Val(s) == Val(r) + Two(n)
  {
    hide Val, Pow, Two, BitOr, Clear;
    var k, b := n / 32, n % 32;
    SetWord(r, n);
    var s := r[k := r[k] + Two(b)];
    ClearAfter(r, n);
    ValStep(r, k);
    ValStep(s, k);
    assert s[..k] == r[..k] && s[k + 1..] == r[k + 1..];
    assert r == r[..k + 1] + r[k + 1..] && s == s[..k + 1] + s[k + 1..];
    ValAppend(r[..k + 1], r[k + 1..]);
    ValAppend(s[..k + 1], s[k + 1..]);
    TwoSplit(n);
    assert (r[k] + Two(b)) * Pow(k) == r[k] * Pow(k) + Two(b) * Pow(k);
  }

  lemma SetWord(r: seq<nat>, n: nat)
    requires |r| == WIDTH && AreLimbs(r) && n < 32 * WIDTH && Clear(r, n + 1)
    ensures BitOr(r[n / 32], Two(n % 32)) == r[n / 32] + Two(n % 32) < BASE
  {
    var k, b := n / 32, n % 32;
    assert r[k] % Two(b + 1) == 0;
    assert Two(b) < Two(b + 1);
    hide Two, Clear;
    OrDisjoint(Two(b), r[k], b + 1);
    RoomBelow(Two(b), r[k], b + 1);
  }

  lemma ClearAfter(r: seq<nat>, n: nat)
    requires |r| == WIDTH && n < 32 * WIDTH && Clear(r, n + 1)
    ensures Clear(r[n / 32 := r[n / 32] + Two(n % 32)], n)
  {
    var k, b := n / 32, n % 32;
    EvenBelow(r[k], b);
    Divides(r[k], Two(b));
    var q := r[k] / Two(b);
    assert (q + 1) * Two(b) == q * Two(b) + Two(b);
    Euclid(r[k] + Two(b), q + 1, 0, Two(b));
    ClearLess(r, n);
  }

  /** What the bit counts say about divisor and dividend. */
  lemma DivBits(x: nat, y: nat, nb: nat, db: nat)
    requires x < Two(nb) && y < Two(db) && (db > 0 ==> Two(db - 1) <= y)
    ensures (db == 0 <==> y == 0) && (db > nb ==> x < y && x / y == 0)
  {
    if db > nb {
      TwoMono(nb, db - 1);
      Euclid(x, 0, x, y);
    }
  }

  lemma DivStart(x: nat, y: nat, nb: nat, db: nat)
    requires 0 < db <= nb <= 32 * WIDTH && x < Two(nb) && Two(db - 1) <= y < Two(db)
    ensures Dividing(0, x, y * Two(nb - db) % Pow(WIDTH), x, y, nb - db)
  {
    hide Pow, Two;
    TwoAdd(db - 1, nb - db + 1);
    MulMono(Two(db - 1), y, Two(nb - db + 1));
    TwoAdd(db, nb - db);
    MulMono(y + 1, Two(db), Two(nb - db));
    assert (y + 1) * Two(nb - db) == y * Two(nb - db) + Two(nb - db);
    TwoMono(nb, 32 * WIDTH);
    TwoPow(WIDTH);
    Euclid(y * Two(nb - db), 0, y * Two(nb - db), Pow(WIDTH));
  }

  /** Dividing x by y: quotient bits above shift are found, n is left and d is y at the current bit. */
  predicate Dividing(q: nat, n: nat, d: nat, x: nat, y: nat, shift: int) {
    && shift >= -1 && x == q * y + n && n < y * Two(shift + 1)
    && (shift >= 0 ==> d == y * Two(shift))
  }

  lemma DivStep(q: nat, n: nat, d: nat, x: nat, y: nat, shift: nat)
    requires Dividing(q, n, d, x, y, shift)
    ensures n >= d ==> Dividing(q + Two(shift), n - d, d / 2, x, y, shift - 1)
    ensures n < d ==> Dividing(q, n, d / 2, x, y, shift - 1)
  {
    assert Two(shift + 1) == 2 * Two(shift);
    assert shift > 0 ==> Two(shift) == 2 * Two(shift - 1);
    hide Two;
    DivAlgebra(q, y, Two(shift));
    if shift > 0 { Halves(y, Two(shift - 1)); }
  }

  lemma DivAlgebra(q: nat, y: nat, t: nat)
    ensures y * (2 * t) == y * t + y * t && (q + t) * y == q * y + y * t
  {
  }

  lemma Halves(y: nat, t: nat)
    ensures y * (2 * t) / 2 == y * t
  {
    assert y * (2 * t) == y * t * 2;
  }

  lemma DivDone(q: nat, n: nat, d: nat, x: nat, y: nat)
    requires Dividing(q, n, d, x, y, -1) && y > 0
    ensures q == x / y && n == x % y
  {
    Euclid(x, q, n, y);
  }
}
