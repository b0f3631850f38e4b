/** Numbers written as 32-bit limbs, least significant first, and what one step of each limb loop
    does to the number. */
module Limbs {

  import opened Basics

  const WIDTH: nat := 8
  const BASE: nat := 0x1_0000_0000

  // ---------------------------------------------------------------- numbers and limbs

  /** BASE to a power. */
  function Pow(n: nat): (r: nat)
    ensures r > 0
  {
    if n == 0 then 1 else BASE * Pow(n - 1)
  }

  predicate AreLimbs(s: seq<nat>) {
    forall i :: 0 <= i < |s| ==> s[i] < BASE
  }

  /** The number a sequence of limbs stands for. */
  function Val(s: seq<nat>): nat {
    if s == [] then 0 else Val(s[..|s| - 1]) + s[|s| - 1] * Pow(|s| - 1)
  }

  lemma ValEmpty(s: seq<nat>)
    ensures Val(s[..0]) == 0
  {
  }

  /** Splits the value of a prefix at its last limb. */
  lemma ValStep(s: seq<nat>, i: nat)
    requires i < |s|
    ensures Val(s[..i + 1]) == Val(s[..i]) + s[i] * Pow(i)
  {
    assert s[..i + 1][..i] == s[..i];
  }

  lemma {:induction false} ValBound(s: seq<nat>)
    requires AreLimbs(s)
    ensures Val(s) < Pow(|s|)
  {
    if s != [] {
      var last := s[|s| - 1];
      ValBound(s[..|s| - 1]);
      MulMono(last + 1, BASE, Pow(|s| - 1));
      assert (last + 1) * Pow(|s| - 1) == last * Pow(|s| - 1) + Pow(|s| - 1);
    }
  }

  function Quotient(a: nat, b: nat): nat
    requires b > 0
  {
    a / b
  }

  function Product(a: nat, b: nat): nat { a * b }

  /** The low half and the carry of a 64-bit intermediate result. */
  lemma Split(n: nat)
    ensures n == n % BASE + BASE * (n / BASE)
  {
  }

  lemma {:induction false} PowAdd(a: nat, b: nat)
    ensures Pow(a + b) == Pow(a) * Pow(b)
  {
    if a > 0 {
      PowAdd(a - 1, b);
      assert BASE * Pow(a - 1) * Pow(b) == BASE * (Pow(a - 1) * Pow(b));
    }
  }

  lemma {:induction false} ValAppend(s: seq<nat>, t: seq<nat>)
    ensures Val(s + t) == Val(s) + Pow(|s|) * Val(t)
  {
    if t == [] {
      assert s + t == s;
    } else {
      var rest, last := t[..|t| - 1], t[|t| - 1];
      assert (s + t)[..|s + t| - 1] == s + rest;
      ValAppend(s, rest);
      PowAdd(|s|, |rest|);
      Distribute(Pow(|s|), Val(rest), last, Pow(|rest|));
    }
  }

  /** The two lowest limbs are the number modulo 2^64. */
  lemma LowLimbs(s: seq<nat>)
    requires |s| >= 2 && AreLimbs(s)
    ensures Val(s[..2]) == s[0] + s[1] * BASE == Val(s) % (BASE * BASE)
  {
    assert Pow(0) == 1 && Pow(1) == BASE && Pow(2) == BASE * BASE;
    hide Val, Pow;
    ValEmpty(s);
    ValStep(s, 0);
    ValStep(s, 1);
    Remainder(s, 2);
  }

  lemma SplitPair(low: nat, high: nat, b: nat)
    requires low < BASE
    ensures low + high * BASE == b <==> high == b / BASE && low == b % BASE
  {
    if low + high * BASE == b { Euclid(b, high, low, BASE); }
  }

  /** A limb at place 2 or above makes the number at least 2^64. */
  lemma HighLimb(s: seq<nat>, i: nat)
    requires 2 <= i < |s| && AreLimbs(s) && s[i] != 0 && (forall j :: i < j < |s| ==> s[j] == 0)
    ensures Val(s) >= BASE * BASE
  {
    assert Pow(2) == BASE * BASE;
    hide Val, Pow;
    assert Pow(i) >= Pow(2) by {
      PowAdd(2, i - 2);
      MulMono(1, Pow(i - 2), Pow(2));
    }
    assert s == s[..i + 1] + s[i + 1..];
    ValAppend(s[..i + 1], s[i + 1..]);
    ValStep(s, i);
    MulMono(1, s[i], Pow(i));
  }

  lemma Remainder(s: seq<nat>, k: nat)
    requires k <= |s| && AreLimbs(s)
    ensures Val(s[..k]) == Val(s) % Pow(k)
  {
    hide Val, Pow;
    assert s == s[..k] + s[k..];
    ValAppend(s[..k], s[k..]);
    ValBound(s[..k]);
    Euclid(Val(s), Val(s[k..]), Val(s[..k]), Pow(k));
  }

  lemma Distribute(p: nat, v: nat, d: nat, q: nat)
    ensures p * (v + d * q) == p * v + d * (p * q)
  {
    assert p * (d * q) == d * (p * q);
  }

  /** A quotient and remainder are the ones of Euclidean division. */
  lemma Euclid(x: int, q: int, r: nat, m: nat)
    requires x == q * m + r && r < m
    ensures x / m == q && x % m == r
  {
    var d := x / m;
    assert (d + 1) * m == d * m + m && (q + 1) * m == q * m + m;
    if d + 1 <= q { MulMono(d + 1, q, m); }
    if q + 1 <= d { MulMono(q + 1, d, m); }
  }

  // ---------------------------------------------------------------- one step of each carry loop

  lemma AddAlgebra(vr: nat, vx: nat, vy: nat, p: nat, c: nat, d: nat, r: nat, x: nat, y: nat)
    requires vr + c * p == vx + vy && r + BASE * d == c + x + y
    ensures vr + r * p + d * (BASE * p) == vx + x * p + (vy + y * p)
  {
    assert (r + BASE * d) * p == r * p + d * (BASE * p);
    assert (c + x + y) * p == c * p + x * p + y * p;
  }

  lemma AddStep(r: seq<nat>, x: seq<nat>, y: seq<nat>, i: nat, carry: nat, n: nat)
    requires i < |r| == |x| == |y| && n == carry + x[i] + y[i] && r[i] == n % BASE
    requires Val(r[..i]) + carry * Pow(i) == Val(x[..i]) + Val(y[..i])
    ensures Val(r[..i + 1]) + n / BASE * Pow(i + 1) == Val(x[..i + 1]) + Val(y[..i + 1])
  {
    assert Pow(i + 1) == BASE * Pow(i);
    hide Val, Pow;
    ValStep(r, i);
    ValStep(x, i);
    ValStep(y, i);
    Split(n);
    AddAlgebra(Val(r[..i]), Val(x[..i]), Val(y[..i]), Pow(i), carry, n / BASE, r[i], x[i], y[i]);
  }

  lemma ComplementStart(x: seq<nat>, r: seq<nat>)
    ensures Val(r[..0]) + Val(x[..0]) == Pow(0) - 1
  {
  }

  lemma ComplementStep(r: seq<nat>, x: seq<nat>, i: nat)
    requires i < |r| == |x| && x[i] < BASE && r[i] == BASE - 1 - x[i] && Val(r[..i]) + Val(x[..i]) == Pow(i) - 1
    ensures Val(r[..i + 1]) + Val(x[..i + 1]) == Pow(i + 1) - 1
  {
    assert Pow(i + 1) == BASE * Pow(i);
    hide Val, Pow;
    ValStep(r, i);
    ValStep(x, i);
    assert r[i] * Pow(i) + x[i] * Pow(i) == (BASE - 1) * Pow(i) by {
      assert (r[i] + x[i]) * Pow(i) == r[i] * Pow(i) + x[i] * Pow(i);
    }
    assert (BASE - 1) * Pow(i) == BASE * Pow(i) - Pow(i);
  }

  lemma IncrementStart(r: seq<nat>, x: seq<nat>)
    ensures Val(r[..0]) + Pow(0) == Val(x[..0]) + 1
  {
  }

  lemma IncrementStep(r: seq<nat>, x: seq<nat>, i: nat)
    requires i < |r| == |x| && r[i] == 0 && x[i] == BASE - 1 && Val(r[..i]) + Pow(i) == Val(x[..i]) + 1
    ensures Val(r[..i + 1]) + Pow(i + 1) == Val(x[..i + 1]) + 1
  {
    assert Pow(i + 1) == BASE * Pow(i);
    hide Val, Pow;
    ValStep(r, i);
    ValStep(x, i);
    assert (BASE - 1) * Pow(i) == BASE * Pow(i) - Pow(i);
  }

  lemma IncrementDone(r: seq<nat>, x: seq<nat>, i: nat)
    requires |r| == |x| == WIDTH && AreLimbs(r) && AreLimbs(x) && i < WIDTH && r[i + 1..] == x[i + 1..]
    requires r[i] == (x[i] + 1) % BASE && Val(r[..i]) + Pow(i) == Val(x[..i]) + 1
    requires r[i] != 0 || i == WIDTH - 1
    ensures Val(r) == (Val(x) + 1) % Pow(WIDTH)
  {
    hide Val, Pow;
    ValBound(x);
    ValBound(r);
    if r[i] == 0 {
      IncrementStep(r, x, i);
      assert r[..WIDTH] == r && x[..WIDTH] == x;
      Euclid(Val(x) + 1, 1, Val(r), Pow(WIDTH));
    } else {
      IncrementStops(r, x, i);
      Euclid(Val(r), 0, Val(r), Pow(WIDTH));
    }
  }

  lemma IncrementStops(r: seq<nat>, x: seq<nat>, i: nat)
    requires i < |r| == |x| && r[i + 1..] == x[i + 1..]
    requires r[i] == x[i] + 1 && Val(r[..i]) + Pow(i) == Val(x[..i]) + 1
    ensures Val(r) == Val(x) + 1
  {
    hide Val, Pow;
    ValStep(r, i);
    ValStep(x, i);
    assert r == r[..i + 1] + r[i + 1..] && x == x[..i + 1] + x[i + 1..];
    ValAppend(r[..i + 1], r[i + 1..]);
    ValAppend(x[..i + 1], x[i + 1..]);
    assert (x[i] + 1) * Pow(i) == x[i] * Pow(i) + Pow(i);
  }

  lemma SubModulo(x: nat, y: nat, m: nat)
    requires m > 0 && x < m && y < m
    ensures (x + (m - y) % m) % m == (x - y) % m
  {
    if y == 0 {
      Euclid(m, 1, 0, m);
      Euclid(x, 0, x, m);
    } else if y <= x {
      Euclid(m - y, 0, m - y, m);
      Euclid(x + (m - y), 1, x - y, m);
      Euclid(x - y, 0, x - y, m);
    } else {
      Euclid(m - y, 0, m - y, m);
      Euclid(x + (m - y), 0, x + (m - y), m);
      Euclid(x - y, -1, x + m - y, m);
    }
  }

  /** Two 32-bit numbers and a 32 by 32 bit product add up to at most 64 bits. */
  lemma FitsIn64(c: nat, p: nat, a: nat, b: nat)
    requires c < BASE && p < BASE && a < BASE && b < BASE
    ensures c + p + a * b < BASE * BASE && (c + p + a * b) / BASE < BASE
  {
    MulMono(a, BASE - 1, b);
    assert (BASE - 1) * b <= (BASE - 1) * (BASE - 1);
  }

  /** A carry out of the top limb is lost, which is reduction modulo 2^256. */
  lemma Wrapped(r: seq<nat>, carry: nat, x: nat, b: nat)
    requires |r| == WIDTH && AreLimbs(r) && Val(r) + carry * Pow(WIDTH) == b * x
    ensures Val(r) == (x * b) % Pow(WIDTH)
  {
    hide Val, Pow;
    ValBound(r);
    Euclid(b * x, carry, Val(r), Pow(WIDTH));
    assert b * x == x * b;
  }

  lemma MulAlgebra(vr: nat, vx: nat, p: nat, c: nat, d: nat, r: nat, x: nat, b: nat)
    requires vr + c * p == b * vx && r + BASE * d == c + b * x
    ensures vr + r * p + d * (BASE * p) == b * (vx + x * p)
  {
    assert (r + BASE * d) * p == r * p + d * (BASE * p);
    assert (c + b * x) * p == c * p + b * (x * p);
    assert b * (vx + x * p) == b * vx + b * (x * p);
  }

  lemma MulStep(r: seq<nat>, x: seq<nat>, i: nat, carry: nat, n: nat, b: nat)
    requires i < |r| == |x| && n == carry + b * x[i] && r[i] == n % BASE
    requires Val(r[..i]) + carry * Pow(i) == b * Val(x[..i])
    ensures Val(r[..i + 1]) + n / BASE * Pow(i + 1) == b * Val(x[..i + 1])
  {
    assert Pow(i + 1) == BASE * Pow(i);
    hide Val, Pow;
    ValStep(r, i);
    ValStep(x, i);
    Split(n);
    MulAlgebra(Val(r[..i]), Val(x[..i]), Pow(i), carry, n / BASE, r[i], x[i], b);
  }

  // ---------------------------------------------------------------- schoolbook multiplication

  /** What row j of the schoolbook product adds: limb a at place j, times the number v. */
  function Row(a: nat, j: nat, v: nat): nat {
    a * Pow(j) * v
  }

  /** Row j, limbs 0 to i of y done: from x, the limbs have become r and the carry is c. */
  predicate InRow(r: seq<nat>, x: seq<nat>, y: seq<nat>, a: nat, j: nat, i: nat, c: nat) {
    && |r| == |x| == |y| == WIDTH && AreLimbs(r) && i + j <= WIDTH && c < BASE
    && r[i + j..] == x[i + j..]
    && Val(r[..i + j]) + c * Pow(i + j) == Val(x[..i + j]) + Row(a, j, Val(y[..i]))
  }

  lemma RowStart(x: seq<nat>, y: seq<nat>, a: nat, j: nat)
    requires |x| == |y| == WIDTH && AreLimbs(x) && j <= WIDTH
    ensures InRow(x, x, y, a, j, 0, 0)
  {
    ValEmpty(y);
  }

  lemma RowAlgebra(vr: nat, vx: nat, vy: nat, pi: nat, pj: nat, p: nat, c: nat, d: nat, r: nat, x: nat, y: nat, a: nat)
    requires p == pi * pj && r + BASE * d == c + x + a * y && vr + c * p == vx + a * pj * vy
    ensures vr + r * p + d * (BASE * p) == vx + x * p + a * pj * (vy + y * pi)
  {
    assert (r + BASE * d) * p == r * p + d * (BASE * p);
    assert (c + x + a * y) * p == c * p + x * p + a * y * p;
    assert a * pj * (vy + y * pi) == a * pj * vy + a * pj * (y * pi);
    assert a * pj * (y * pi) == a * y * (pi * pj);
  }

  lemma RowStep(r: seq<nat>, x: seq<nat>, y: seq<nat>, a: nat, j: nat, i: nat, carry: nat, n: nat)
    requires InRow(r, x, y, a, j, i, carry) && i + j < WIDTH && a < BASE && AreLimbs(y)
    requires n == carry + r[i + j] + a * y[i]
    ensures n < BASE * BASE && InRow(r[i + j := n % BASE], x, y, a, j, i + 1, n / BASE)
  {
    assert Pow(i + j + 1) == BASE * Pow(i + j);
    hide Val, Pow;
    var s := r[i + j := n % BASE];
    assert r[i + j] == r[i + j..][0] == x[i + j..][0] && s[..i + j] == r[..i + j];
    assert s[i + j + 1..] == r[i + j..][1..] == x[i + j..][1..] == x[i + j + 1..];
    FitsIn64(carry, r[i + j], a, y[i]);
    PowAdd(i, j);
    ValStep(s, i + j);
    ValStep(x, i + j);
    ValStep(y, i);
    Split(n);
    RowAlgebra(Val(r[..i + j]), Val(x[..i + j]), Val(y[..i]), Pow(i), Pow(j), Pow(i + j),
      carry, n / BASE, s[i + j], x[i + j], y[i], a);
  }

  /** The limbs of y that row j never reaches only add multiples of 2^256. */
  lemma RowDone(r: seq<nat>, x: seq<nat>, y: seq<nat>, a: nat, j: nat, carry: nat) returns (lost: nat)
    requires j <= WIDTH && InRow(r, x, y, a, j, WIDTH - j, carry)
    ensures Val(r) + lost * Pow(WIDTH) == Val(x) + Row(a, j, Val(y))
  {
    hide Val, Pow;
    var k := WIDTH - j;
    var low, high := Val(y[..k]), Val(y[k..]);
    assert r[..WIDTH] == r && x[..WIDTH] == x && y == y[..k] + y[k..];
    ValAppend(y[..k], y[k..]);
    PowAdd(j, k);
    lost := carry + a * high;
    CutAlgebra(a, Pow(j), Pow(k), low, high, carry, Pow(WIDTH));
  }

  lemma CutAlgebra(a: nat, pj: nat, pk: nat, low: nat, high: nat, carry: nat, p: nat)
    requires pj * pk == p
    ensures a * pj * (low + pk * high) == a * pj * low + a * high * p
    ensures (carry + a * high) * p == carry * p + a * high * p
  {
    assert a * pj * (pk * high) == a * high * (pj * pk);
  }

  lemma RowsAlgebra(vr: nat, vx: nat, lost: nat, before: nat, p: nat, a: nat, pj: nat, vy: nat, va: nat)
    requires vx + before * p == va * vy && vr + lost * p == vx + a * pj * vy
    ensures vr + (before + lost) * p == (va + a * pj) * vy
  {
    assert (before + lost) * p == before * p + lost * p;
    assert (va + a * pj) * vy == va * vy + a * pj * vy;
  }

  /** After row j the limbs hold the product with the first j + 1 limbs, modulo 2^256. */
  lemma RowsStep(r: seq<nat>, x: seq<nat>, a: seq<nat>, y: seq<nat>, j: nat, before: nat, lost: nat)
    requires j < |a| && Val(x) + before * Pow(WIDTH) == Val(a[..j]) * Val(y)
    requires Val(r) + lost * Pow(WIDTH) == Val(x) + Row(a[j], j, Val(y))
    ensures Val(r) + (before + lost) * Pow(WIDTH) == Val(a[..j + 1]) * Val(y)
  {
    hide Val, Pow;
    ValStep(a, j);
    RowsAlgebra(Val(r), Val(x), lost, before, Pow(WIDTH), a[j], Pow(j), Val(y), Val(a[..j]));
  }

  lemma {:induction false} ValZero(s: seq<nat>)
    requires forall i :: 0 <= i < |s| ==> s[i] == 0
    ensures Val(s) == 0
  {
    if s != [] { ValZero(s[..|s| - 1]); }
  }
}
