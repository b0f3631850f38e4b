/** Numbers as big-endian digits in some base, and how many digits another base needs for them. */
module Radix {

  import opened Basics

  function Pow(b: nat, n: nat): (r: nat)
    ensures b > 0 ==> r > 0
  {
    if n == 0 then 1 else b * Pow(b, n - 1)
  }

  predicate AreDigits(d: seq<nat>, b: nat) {
    forall i :: 0 <= i < |d| ==> d[i] < b
  }

  /** The number big-endian digits stand for. */
  function Num(d: seq<nat>, b: nat): nat {
    if d == [] then 0 else Num(d[..|d| - 1], b) * b + d[|d| - 1]
  }

  lemma NumSnoc(d: seq<nat>, x: nat, b: nat)
    ensures Num(d + [x], b) == Num(d, b) * b + x
  {
    assert (d + [x])[..|d|] == d;
  }

  lemma {:induction false} NumCons(x: nat, d: seq<nat>, b: nat)
    ensures Num([x] + d, b) == x * Pow(b, |d|) + Num(d, b)
  {
    if d == [] {
      assert [x] + d == [] + [x];
      NumSnoc([], x, b);
    } else {
      var rest, last := d[..|d| - 1], d[|d| - 1];
      assert [x] + d == [x] + rest + [last];
      NumSnoc([x] + rest, last, b);
      NumCons(x, rest, b);
      assert (x * Pow(b, |rest|) + Num(rest, b)) * b == x * (b * Pow(b, |rest|)) + Num(rest, b) * b;
    }
  }

  lemma {:induction false} NumZeros(d: seq<nat>, k: nat, b: nat)
    requires k <= |d| && forall i :: 0 <= i < k ==> d[i] == 0
    ensures Num(d, b) == Num(d[k..], b)
  {
    if k > 0 {
      NumZeros(d[1..], k - 1, b);
      assert d[1..][k - 1..] == d[k..] && d == [d[0]] + d[1..];
      NumCons(d[0], d[1..], b);
    } else {
      assert d[0..] == d;
    }
  }

  lemma {:induction false} NumBound(d: seq<nat>, b: nat)
    requires b > 0 && AreDigits(d, b)
    ensures Num(d, b) < Pow(b, |d|)
  {
    if d != [] {
      var rest := d[..|d| - 1];
      NumBound(rest, b);
      MulMono(Num(rest, b) + 1, Pow(b, |rest|), b);
      assert (Num(rest, b) + 1) * b == Num(rest, b) * b + b;
    }
  }

  lemma {:induction false} PowAdd(b: nat, m: nat, n: nat)
    ensures Pow(b, m + n) == Pow(b, m) * Pow(b, n)
  {
    if m > 0 {
      PowAdd(b, m - 1, n);
      assert Pow(b, m) == b * Pow(b, m - 1) && Pow(b, m + n) == b * Pow(b, m - 1 + n);
      hide Pow;
      Assoc(b, Pow(b, m - 1), Pow(b, n));
    }
  }

  lemma Assoc(a: nat, b: nat, c: nat)
    ensures a * b * c == a * (b * c)
  {
  }

  lemma {:induction false} PowMono(b: nat, m: nat, n: nat)
    requires b > 0 && m <= n
    ensures Pow(b, m) <= Pow(b, n)
  {
    if m < n {
      PowMono(b, m, n - 1);
      MulMono(1, b, Pow(b, n - 1));
    }
  }

  // ---------------------------------------------------------------- one form per number

  /** How many zero digits lead. */
  function Zeros(d: seq<nat>): (r: nat)
    ensures r <= |d| && (forall i :: 0 <= i < r ==> d[i] == 0) && (r < |d| ==> d[r] != 0)
  {
    if d == [] || d[0] != 0 then 0 else 1 + Zeros(d[1..])
  }

  lemma LastDigit(q: nat, x: nat, b: nat)
    requires x < b
    ensures (q * b + x) / b == q && (q * b + x) % b == x
  {
    var n := q * b + x;
    assert n == n / b * b + n % b;
    assert (n / b + 1) * b == n / b * b + b && (q + 1) * b == q * b + b;
    if n / b + 1 <= q { MulMono(n / b + 1, q, b); }
    if q + 1 <= n / b { MulMono(q + 1, n / b, b); }
  }

  /** Digits that do not lead with zero stand for a number of their own. */
  lemma {:induction false} NumPositive(d: seq<nat>, b: nat)
    requires b > 1 && d != [] && d[0] != 0
    ensures Num(d, b) > 0
  {
    if |d| > 1 {
      NumPositive(d[..|d| - 1], b);
    } else {
      assert d[..0] == [];
    }
  }

  lemma {:induction false} NumInjective(d: seq<nat>, e: seq<nat>, b: nat)
    requires b > 1 && AreDigits(d, b) && AreDigits(e, b) && Num(d, b) == Num(e, b)
    requires (d == [] || d[0] != 0) && (e == [] || e[0] != 0)
    ensures d == e
  {
    if d == [] {
      if e != [] { NumPositive(e, b); }
    } else if e == [] {
      NumPositive(d, b);
    } else {
      var m, n := |d| - 1, |e| - 1;
      LastDigit(Num(d[..m], b), d[m], b);
      LastDigit(Num(e[..n], b), e[n], b);
      NumInjective(d[..m], e[..n], b);
      assert d == d[..m] + [d[m]] && e == e[..n] + [e[n]];
    }
  }

  /** Leading zeros and the number determine the digits. */
  lemma SameDigits(d: seq<nat>, e: seq<nat>, b: nat)
    requires b > 1 && AreDigits(d, b) && AreDigits(e, b) && Zeros(d) == Zeros(e) && Num(d, b) == Num(e, b)
    ensures d == e
  {
    var k := Zeros(d);
    NumZeros(d, k, b);
    NumZeros(e, k, b);
    NumInjective(d[k..], e[k..], b);
    assert d == d[..k] + d[k..] && e == e[..k] + e[k..] && d[..k] == e[..k];
  }

  // ---------------------------------------------------------------- digits another base needs

  /** If c^f covers b^e, whole groups of e digits fit f digits each. */
  lemma {:induction false} Groups(b: nat, c: nat, e: nat, f: nat, q: nat)
    requires Pow(b, e) <= Pow(c, f)
    ensures Pow(b, e * q) <= Pow(c, f * q)
  {
    if q > 0 {
      Groups(b, c, e, f, q - 1);
      assert e * q == e + e * (q - 1) && f * q == f + f * (q - 1);
      PowAdd(b, e, e * (q - 1));
      PowAdd(c, f, f * (q - 1));
      MulMono(Pow(b, e), Pow(c, f), Pow(b, e * (q - 1)));
      MulMono(Pow(b, e * (q - 1)), Pow(c, f * (q - 1)), Pow(c, f));
      assert Pow(c, f) * Pow(b, e * (q - 1)) == Pow(b, e * (q - 1)) * Pow(c, f);
      assert Pow(c, f * (q - 1)) * Pow(c, f) == Pow(c, f) * Pow(c, f * (q - 1));
    }
  }

  lemma Joined(b: nat, c: nat, m: nat, n: nat, x: nat, y: nat)
    requires c > 0 && Pow(b, m) <= Pow(c, x) && Pow(b, n) <= Pow(c, y)
    ensures Pow(b, m + n) <= Pow(c, x + y)
  {
    PowAdd(b, m, n);
    PowAdd(c, x, y);
    MulMono(Pow(b, m), Pow(c, x), Pow(b, n));
    MulMono(Pow(b, n), Pow(c, y), Pow(c, x));
    assert Pow(c, x) * Pow(b, n) == Pow(b, n) * Pow(c, x);
    assert Pow(c, y) * Pow(c, x) == Pow(c, x) * Pow(c, y);
  }

  lemma Powers58()
    ensures Pow(58, 0) == 1
    ensures Pow(58, 1) == 58
    ensures Pow(58, 2) == 3364
    ensures Pow(58, 3) == 195112
    ensures Pow(58, 4) == 11316496
    ensures Pow(58, 5) == 656356768
    ensures Pow(58, 6) == 38068692544
    ensures Pow(58, 7) == 2207984167552
    ensures Pow(58, 8) == 128063081718016
  {
    assert Pow(58, 1) == 58 * Pow(58, 0);
    assert Pow(58, 2) == 58 * Pow(58, 1);
    assert Pow(58, 3) == 58 * Pow(58, 2);
    assert Pow(58, 4) == 58 * Pow(58, 3);
    assert Pow(58, 5) == 58 * Pow(58, 4);
    assert Pow(58, 6) == 58 * Pow(58, 5);
    assert Pow(58, 7) == 58 * Pow(58, 6);
    assert Pow(58, 8) == 58 * Pow(58, 7);
  }

  lemma MorePowers58()
    ensures Pow(58, 9) == 7427658739644928
    ensures Pow(58, 10) == 430804206899405824
    ensures Pow(58, 11) == 24986644000165537792
    ensures Pow(58, 12) == 1449225352009601191936
    ensures Pow(58, 13) == 84055070416556869132288
    ensures Pow(58, 14) == 4875194084160298409672704
    ensures Pow(58, 15) == 282761256881297307761016832
  {
    Powers58();
    assert Pow(58, 9) == 58 * Pow(58, 8);
    assert Pow(58, 10) == 58 * Pow(58, 9);
    assert Pow(58, 11) == 58 * Pow(58, 10);
    assert Pow(58, 12) == 58 * Pow(58, 11);
    assert Pow(58, 13) == 58 * Pow(58, 12);
    assert Pow(58, 14) == 58 * Pow(58, 13);
    assert Pow(58, 15) == 58 * Pow(58, 14);
  }

  lemma Powers256()
    ensures Pow(256, 0) == 1
    ensures Pow(256, 1) == 256
    ensures Pow(256, 2) == 65536
    ensures Pow(256, 3) == 16777216
    ensures Pow(256, 4) == 4294967296
    ensures Pow(256, 5) == 1099511627776
    ensures Pow(256, 6) == 281474976710656
  {
    assert Pow(256, 1) == 256 * Pow(256, 0);
    assert Pow(256, 2) == 256 * Pow(256, 1);
    assert Pow(256, 3) == 256 * Pow(256, 2);
    assert Pow(256, 4) == 256 * Pow(256, 3);
    assert Pow(256, 5) == 256 * Pow(256, 4);
    assert Pow(256, 6) == 256 * Pow(256, 5);
  }

  lemma MorePowers256()
    ensures Pow(256, 7) == 72057594037927936
    ensures Pow(256, 8) == 18446744073709551616
    ensures Pow(256, 9) == 4722366482869645213696
    ensures Pow(256, 10) == 1208925819614629174706176
    ensures Pow(256, 11) == 309485009821345068724781056
  {
    Powers256();
    assert Pow(256, 7) == 256 * Pow(256, 6);
    assert Pow(256, 8) == 256 * Pow(256, 7);
    assert Pow(256, 9) == 256 * Pow(256, 8);
    assert Pow(256, 10) == 256 * Pow(256, 9);
    assert Pow(256, 11) == 256 * Pow(256, 10);
  }

  /** 58^71 does not exceed 256^52: squares of the two sides' halves, as numerals. */
  lemma Close()
    ensures Pow(58, 71) <= Pow(256, 52)
  {
    Powers58();
    Powers256();
    hide Pow;
    var a := Pow(58, 8);
    PowAdd(58, 8, 8);
    PowAdd(58, 16, 16);
    PowAdd(58, 32, 32);
    PowAdd(58, 64, 7);
    PowAdd(256, 6, 7);
    PowAdd(256, 6, 1);
    PowAdd(256, 13, 13);
    PowAdd(256, 26, 26);
    assert Pow(58, 16) == 16400152899115243850138976256;
    assert Pow(58, 32) == 268965015114358137726910587140455987105619365599731777536;
    assert Pow(58, 64) == 72342179355466901471258927612150153907721848234316445933056526044582001260898145151856420451025374266490194231296;
    assert Pow(58, 71) == 159730386663078066345306447337161584696769904898410078913243029577507397293846405390982563136983769384625594118558891106107392;
    assert Pow(256, 13) == 20282409603651670423947251286016;
    assert Pow(256, 26) == 411376139330301510538742295639337626245683966408394965837152256;
    assert Pow(256, 52) == 169230328010303641331690318856389386196071598838855992136870091590247882556495704531248437872567112920983350278405979725889536;
  }

  /** Base 58 digits for r bytes, r below 8. */
  lemma FewBytes(r: nat)
    requires r < 8
    ensures Pow(256, r) <= Pow(58, SymbolRoom(r))
  {
    Powers58();
    MorePowers58();
    Powers256();
    MorePowers256();
    hide Pow;
  }

  /** Bytes for b base 58 digits, b below 15. */
  function FewSymbols(b: nat): nat {
    if b == 0 then 0 else if b <= 3 then b else if b <= 7 then b - 1 else if b <= 11 then b - 2 else b - 3
  }

  lemma FewSymbolsFit(b: nat)
    requires b < 15
    ensures Pow(58, b) <= Pow(256, FewSymbols(b))
  {
    Powers58();
    MorePowers58();
    Powers256();
    MorePowers256();
    hide Pow;
  }

  /** The base 58 digits set aside for n bytes. */
  function SymbolRoom(n: nat): nat { n * 138 / 100 + 1 }

  /** Whole groups and a rest fit the room for both. */
  lemma Chain(b: nat, c: nat, e: nat, f: nat, q: nat, r: nat, x: nat, room: nat)
    requires c > 0 && Pow(b, e) <= Pow(c, f) && Pow(b, r) <= Pow(c, x) && f * q + x <= room
    ensures Pow(b, e * q + r) <= Pow(c, room)
  {
    hide Pow;
    Groups(b, c, e, f, q);
    Joined(b, c, e * q, r, f * q, x);
    PowMono(c, f * q + x, room);
  }

  lemma SymbolGroups(q: nat, r: nat)
    ensures 11 * q + SymbolRoom(r) <= SymbolRoom(8 * q + r)
  {
    assert (8 * q + r) * 138 == 1100 * q + 4 * q + r * 138;
    assert (1100 * q + r * 138) / 100 == 11 * q + r * 138 / 100;
  }

  lemma EightBytes()
    ensures Pow(256, 8) <= Pow(58, 11)
  {
    MorePowers58();
    MorePowers256();
  }

  lemma BytesFitParts(q: nat, r: nat)
    requires r < 8
    ensures Pow(256, 8 * q + r) <= Pow(58, SymbolRoom(8 * q + r))
  {
    hide *;
    EightBytes();
    FewBytes(r);
    SymbolGroups(q, r);
    Chain(256, 58, 8, 11, q, r, SymbolRoom(r), SymbolRoom(8 * q + r));
  }

  /** n bytes fit the base 58 digits set aside for them. */
  lemma BytesFit(n: nat)
    ensures Pow(256, n) <= Pow(58, SymbolRoom(n))
  {
    hide *;
    BytesFitParts(n / 8, n % 8);
    assert n == 8 * (n / 8) + n % 8;
  }

  /** The bytes set aside for n base 58 digits. */
  function ByteRoom(n: nat): nat { n * 733 / 1000 + 1 }

  lemma FifteenSymbols()
    ensures Pow(58, 15) <= Pow(256, 11)
  {
    MorePowers58();
    MorePowers256();
  }

  lemma FifteenGroups(a: nat, b: nat)
    requires 15 * a + b < 71 && b < 15
    ensures 11 * a + FewSymbols(b) <= ByteRoom(15 * a + b)
  {
  }

  lemma SeventyParts(a: nat, b: nat)
    requires 15 * a + b < 71 && b < 15
    ensures Pow(58, 15 * a + b) <= Pow(256, ByteRoom(15 * a + b))
  {
    hide *;
    FifteenSymbols();
    FewSymbolsFit(b);
    FifteenGroups(a, b);
    Chain(58, 256, 15, 11, a, b, FewSymbols(b), ByteRoom(15 * a + b));
  }

  lemma SeventySymbols(r: nat)
    requires r < 71
    ensures Pow(58, r) <= Pow(256, ByteRoom(r))
  {
    hide *;
    SeventyParts(r / 15, r % 15);
    assert r == 15 * (r / 15) + r % 15;
  }

  lemma SizeOfGroups(q: nat, r: nat)
    ensures 52 * q + ByteRoom(r) <= ByteRoom(71 * q + r)
  {
    assert (71 * q + r) * 733 == 52000 * q + 43 * q + r * 733;
    assert (52000 * q + r * 733) / 1000 == 52 * q + r * 733 / 1000;
  }

  lemma SymbolsFitParts(q: nat, r: nat)
    requires r < 71
    ensures Pow(58, 71 * q + r) <= Pow(256, ByteRoom(71 * q + r))
  {
    hide *;
    Close();
    SeventySymbols(r);
    SizeOfGroups(q, r);
    Chain(58, 256, 71, 52, q, r, ByteRoom(r), ByteRoom(71 * q + r));
  }

  /** n base 58 digits fit the bytes set aside for them. */
  lemma SymbolsFit(n: nat)
    ensures Pow(58, n) <= Pow(256, ByteRoom(n))
  {
    hide *;
    SymbolsFitParts(n / 71, n % 71);
    assert n == 71 * (n / 71) + n % 71;
  }
}
