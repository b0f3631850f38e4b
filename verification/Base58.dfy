/** Base 58 text for byte strings: leading zero bytes become leading ones, the rest is the same number
    in the other base, converted in a fixed buffer. */
module Base58 {

  import opened Basics
  import opened Radix

  // ---------------------------------------------------------------- symbols

  /** All digits and letters but zero, capital i and o, and small l. */
  predicate IsSymbol(c: char) {
    '1' <= c <= '9' || 'A' <= c <= 'H' || 'J' <= c <= 'N' || 'P' <= c <= 'Z' || 'a' <= c <= 'k' || 'm' <= c <= 'z'
  }

  function DigitOf(c: char): (d: nat)
    requires IsSymbol(c)
    ensures d < 58 && SymbolOf(d) == c
  {
    var k := c as int;
    if c <= '9' then k - 49 else if c <= 'H' then k - 56 else if c <= 'N' then k - 57
    else if c <= 'Z' then k - 58 else if c <= 'k' then k - 64 else k - 65
  }

  function SymbolOf(d: nat): (c: char)
    requires d < 58
    ensures IsSymbol(c)
  {
    if d < 9 then (d + 49) as char else if d < 17 then (d + 56) as char else if d < 22 then (d + 57) as char
    else if d < 33 then (d + 58) as char else if d < 44 then (d + 64) as char else (d + 65) as char
  }

  lemma SymbolRoundTrip(d: nat)
    requires d < 58
    ensures DigitOf(SymbolOf(d)) == d
  {
  }

  predicate IsSpace(c: char) {
    c == ' ' || '\t' <= c <= '\r'
  }

  predicate AllSymbols(s: string) {
    forall i :: 0 <= i < |s| ==> IsSymbol(s[i])
  }

  function DigitsOf(s: string): (d: seq<nat>)
    requires AllSymbols(s)
    ensures |d| == |s| && AreDigits(d, 58) && forall i :: 0 <= i < |s| ==> d[i] == DigitOf(s[i])
  {
    seq(|s|, i requires 0 <= i < |s| => DigitOf(s[i]))
  }

  /** The text s stands for the bytes b: as many leading ones as zero bytes, and the same number. */
  predicate Encodes(b: seq<nat>, s: string) {
    AllSymbols(s) && Zeros(DigitsOf(s)) == Zeros(b) && Num(DigitsOf(s), 58) == Num(b, 256)
  }

  /** A text stands for one byte string. */
  lemma OneMeaning(b: seq<nat>, c: seq<nat>, s: string)
    requires AreDigits(b, 256) && AreDigits(c, 256) && Encodes(b, s) && Encodes(c, s)
    ensures b == c
  {
    SameDigits(b, c, 256);
  }

  /** A byte string has one text. */
  lemma OneText(b: seq<nat>, s: string, t: string)
    requires Encodes(b, s) && Encodes(b, t)
    ensures s == t
  {
    SameDigits(DigitsOf(s), DigitsOf(t), 58);
    forall i | 0 <= i < |s| ensures s[i] == t[i] {
      assert DigitsOf(s)[i] == DigitsOf(t)[i];
      assert SymbolOf(DigitOf(s[i])) == SymbolOf(DigitOf(t[i]));
    }
  }

  // ---------------------------------------------------------------- the buffer

  /** The buffer holds digits, and only its last n can be non-zero. */
  predicate Buffer(d: seq<nat>, b: nat, n: nat) {
    AreDigits(d, b) && n <= |d| && forall i :: 0 <= i < |d| - n ==> d[i] == 0
  }

  /** Part way through d = d * m + c: the last i digits are done, carry goes to the next. */
  ghost predicate Carried(d: seq<nat>, was: seq<nat>, b: nat, m: nat, c: nat, i: nat, carry: nat) {
    && i <= |d| == |was| && AreDigits(d, b) && d[..|d| - i] == was[..|d| - i]
    && Num(d[|d| - i..], b) + carry * Pow(b, i) == m * Num(was[|d| - i..], b) + c
  }

  lemma CarryStart(d: seq<nat>, b: nat, m: nat, c: nat)
    requires AreDigits(d, b)
    ensures Carried(d, d, b, m, c, 0, c)
  {
    assert d[|d|..] == [];
  }

  lemma CarryAlgebra(x: nat, p: nat, q: nat, b: nat, m: nat, v: nat, w: nat, carry: nat, c: nat)
    requires b > 0 && v + carry * p == m * w + c && q == carry + m * x
    ensures q % b * p + v + q / b * (b * p) == m * (x * p + w) + c
  {
    assert q == q / b * b + q % b;
    assert (q / b * b + q % b) * p == q / b * (b * p) + q % b * p;
    assert (carry + m * x) * p == carry * p + m * (x * p);
    assert m * (x * p + w) == m * (x * p) + m * w;
  }

  lemma CarryStep(d: seq<nat>, was: seq<nat>, b: nat, m: nat, c: nat, i: nat, carry: nat)
    requires Carried(d, was, b, m, c, i, carry) && i < |d| && b > 0
    ensures var j := |d| - 1 - i; var q := carry + m * d[j];
      Carried(d[j := q % b], was, b, m, c, i + 1, q / b)
  {
    var j := |d| - 1 - i;
    var q := carry + m * d[j];
    var n := d[j := q % b];
    assert d[j] == d[..|d| - i][j] == was[..|d| - i][j] == was[j];
    assert n[j..] == [q % b] + d[|d| - i..] && was[j..] == [was[j]] + was[|d| - i..];
    assert n[..j] == d[..|d| - i][..j] == was[..j];
    assert Pow(b, i + 1) == b * Pow(b, i);
    hide Num, Pow;
    NumCons(q % b, d[|d| - i..], b);
    NumCons(was[j], was[|d| - i..], b);
    CarryAlgebra(was[j], Pow(b, i), q, b, m, Num(d[|d| - i..], b), Num(was[|d| - i..], b), carry, c);
  }

  lemma NothingLost(v: nat, carry: nat, p: nat, x: nat)
    requires v + carry * p == x < p
    ensures carry == 0 && v == x
  {
    if carry > 0 { MulMono(1, carry, p); }
  }

  lemma CarriedPrefix(d: seq<nat>, was: seq<nat>, b: nat, m: nat, c: nat, n: nat, i: nat, carry: nat)
    requires Carried(d, was, b, m, c, i, carry) && Buffer(was, b, n) && i >= n
    ensures forall k :: 0 <= k < |d| - i ==> d[k] == 0 == was[k]
    ensures AreDigits(d, b)
  {
    forall k | 0 <= k < |d| - i ensures d[k] == 0 == was[k] {
      assert d[k] == d[..|d| - i][k] == was[..|d| - i][k];
    }
  }

  lemma CarryFull(d: seq<nat>, was: seq<nat>, b: nat, m: nat, c: nat, carry: nat, x: nat)
    requires Carried(d, was, b, m, c, |d|, carry) && x == m * Num(was, b) + c && x < Pow(b, |was|)
    ensures carry == 0 && Num(d, b) == x && Buffer(d, b, |d|)
  {
    hide Num, Pow;
    assert d[0..] == d && was[0..] == was;
    NothingLost(Num(d, b), carry, Pow(b, |d|), x);
  }

  lemma CarryStopped(d: seq<nat>, was: seq<nat>, b: nat, m: nat, c: nat, n: nat, i: nat)
    requires Carried(d, was, b, m, c, i, 0) && Buffer(was, b, n) && i >= n
    ensures Num(d, b) == m * Num(was, b) + c && Buffer(d, b, i)
  {
    hide Num, Pow;
    CarriedPrefix(d, was, b, m, c, n, i, 0);
    NumZeros(d, |d| - i, b);
    NumZeros(was, |d| - i, b);
  }

  /** When the carry is used up, or the whole buffer is done and the result fits it, the buffer holds
      the product and nothing is carried out. */
  lemma CarryDone(d: seq<nat>, was: seq<nat>, b: nat, m: nat, c: nat, n: nat, i: nat, carry: nat)
    requires Carried(d, was, b, m, c, i, carry) && Buffer(was, b, n)
    requires m * Num(was, b) + c < Pow(b, |was|) && (i == |d| || (carry == 0 && i >= n))
    ensures carry == 0 && Num(d, b) == m * Num(was, b) + c && Buffer(d, b, i)
  {
    hide *;
    if i == |d| {
      CarryFull(d, was, b, m, c, carry, m * Num(was, b) + c);
    } else {
      CarryStopped(d, was, b, m, c, n, i);
    }
  }

  /** One digit of the product, in place. */
  method MulDigit(buf: array<nat>, i: nat, m: nat, b: nat, carry: nat) returns (next: nat)
    requires b > 0 && i < buf.Length
    modifies buf
    ensures var j := buf.Length - 1 - i; var q := carry + m * old(buf[j]);
      buf[..] == old(buf[..])[j := q % b] && next == q / b
  {
    var j := buf.Length - 1 - i;
    var q: nat := carry + m * buf[j];
    buf[j] := q % b;
    next := q / b;
  }

  /** buf = buf * m + c in place, from the last digit up. */
  method MulAdd(buf: array<nat>, length: nat, m: nat, c: nat, b: nat) returns (used: nat)
    requires b > 1 && Buffer(buf[..], b, length) && m * Num(buf[..], b) + c < Pow(b, buf.Length)
    modifies buf
    ensures Buffer(buf[..], b, used) && Num(buf[..], b) == m * old(Num(buf[..], b)) + c
  {
    ghost var was := buf[..];
    var carry: nat, i: nat := c, 0;
    assert AreDigits(was, b);
    CarryStart(was, b, m, c);
    hide Num, Pow, Carried, Buffer;
    while (carry != 0 || i < length) && i < buf.Length
      invariant i <= buf.Length && Carried(buf[..], was, b, m, c, i, carry)
      decreases buf.Length - i
    {
      CarryStep(buf[..], was, b, m, c, i, carry);
      carry := MulDigit(buf, i, m, b, carry);
      i := i + 1;
    }
    CarryDone(buf[..], was, b, m, c, length, i, carry);
    assert carry == 0;
    used := i;
  }

  // ---------------------------------------------------------------- conversion

  lemma Horner(v: nat, x: nat, b: nat, n: nat)
    requires v < Pow(b, n) && x < b
    ensures b * v + x < Pow(b, n + 1)
  {
    assert Pow(b, n + 1) == b * Pow(b, n);
    hide Pow;
    MulMono(v + 1, Pow(b, n), b);
    assert (v + 1) * b == b * v + b;
    assert Pow(b, n) * b == b * Pow(b, n);
  }

  /** The digits of the same number in the other base, without leading zeros. The buffer is large
      enough whenever the target base covers the input at its full length. */
  method Convert(digits: seq<nat>, from: nat, base: nat, size: nat) returns (r: seq<nat>)
    requires from > 1 && base > 1 && AreDigits(digits, from) && Pow(from, |digits|) <= Pow(base, size)
    ensures AreDigits(r, base) && Num(r, base) == Num(digits, from) && (r == [] || r[0] != 0)
  {
    var buf := new nat[size](_ => 0);
    var length := 0;
    EmptyBuffer(buf[..], base);
    assert digits[..0] == [];
    hide Num, Pow, Buffer, AreDigits;
    for k := 0 to |digits|
      invariant length >= 0 && Buffer(buf[..], base, length) && Num(buf[..], base) == Num(digits[..k], from)
    {
      PrefixFits(digits, from, base, size, k);
      length := MulAdd(buf, length, from, digits[k], base);
    }
    assert digits[..|digits|] == digits;
    r := Stripped(buf, length, base);
  }

  lemma EmptyBuffer(d: seq<nat>, b: nat)
    requires b > 0 && forall i :: 0 <= i < |d| ==> d[i] == 0
    ensures Buffer(d, b, 0) && Num(d, b) == 0
  {
    NumZeros(d, |d|, b);
    assert d[|d|..] == [];
  }

  lemma PrefixFits(digits: seq<nat>, from: nat, base: nat, size: nat, k: nat)
    requires from > 1 && AreDigits(digits, from) && Pow(from, |digits|) <= Pow(base, size) && k < |digits|
    ensures Num(digits[..k + 1], from) == from * Num(digits[..k], from) + digits[k]
    ensures from * Num(digits[..k], from) + digits[k] < Pow(base, size)
  {
    assert digits[..k + 1] == digits[..k] + [digits[k]];
    NumSnoc(digits[..k], digits[k], from);
    NumBound(digits[..k], from);
    Horner(Num(digits[..k], from), digits[k], from, k);
    PowMono(from, k + 1, |digits|);
  }

  /** Skips the leading zeros of the buffer. */
  method Stripped(buf: array<nat>, length: nat, b: nat) returns (r: seq<nat>)
    requires b > 1 && Buffer(buf[..], b, length)
    ensures AreDigits(r, b) && Num(r, b) == Num(buf[..], b) && (r == [] || r[0] != 0)
  {
    var it := buf.Length - length;
    while it < buf.Length && buf[it] == 0
      invariant buf.Length - length <= it <= buf.Length && forall i :: 0 <= i < it ==> buf[i] == 0
    {
      it := it + 1;
    }
    r := buf[it..];
    NumZeros(buf[..], it, b);
    assert buf[..][it..] == r;
  }

  // ---------------------------------------------------------------- text

  function Pad(z: nat, d: seq<nat>): seq<nat> { seq(z, _ => 0) + d }

  lemma {:induction false} ZerosOf(z: nat, d: seq<nat>)
    requires d == [] || d[0] != 0
    ensures Zeros(Pad(z, d)) == z
  {
    var s := Pad(z, d);
    if z == 0 {
      assert s == d;
    } else {
      assert s[1..] == Pad(z - 1, d);
      ZerosOf(z - 1, d);
    }
  }

  lemma PaddedNum(z: nat, d: seq<nat>, b: nat)
    ensures Num(Pad(z, d), b) == Num(d, b)
  {
    var s := Pad(z, d);
    NumZeros(s, z, b);
    assert s[z..] == d;
  }

  /** Text for bytes. */
  method EncodeBase58(bytes: seq<nat>) returns (s: string)
    requires AreDigits(bytes, 256)
    ensures Encodes(bytes, s)
  {
    var zeroes := 0;
    while zeroes < |bytes| && bytes[zeroes] == 0
      invariant zeroes <= |bytes| && forall i :: 0 <= i < zeroes ==> bytes[i] == 0
    {
      zeroes := zeroes + 1;
    }
    var rest := bytes[zeroes..];
    BytesFit(|rest|);
    var digits := Convert(rest, 256, 58, SymbolRoom(|rest|));
    s := seq(zeroes, _ => '1') + Spelled(digits);
    TextIs(bytes, zeroes, digits);
  }

  function Spelled(digits: seq<nat>): string
    requires AreDigits(digits, 58)
  {
    seq(|digits|, i requires 0 <= i < |digits| => SymbolOf(digits[i]))
  }

  lemma SpelledDigits(z: nat, digits: seq<nat>)
    requires AreDigits(digits, 58)
    ensures var s := seq(z, _ => '1') + Spelled(digits);
      AllSymbols(s) && DigitsOf(s) == Pad(z, digits)
  {
    var s, d := seq(z, _ => '1') + Spelled(digits), Pad(z, digits);
    forall i | 0 <= i < |s| ensures IsSymbol(s[i]) && DigitOf(s[i]) == d[i] {
      if i >= z { SymbolRoundTrip(digits[i - z]); }
    }
  }

  lemma TextIs(bytes: seq<nat>, z: nat, digits: seq<nat>)
    requires z <= |bytes| && (forall i :: 0 <= i < z ==> bytes[i] == 0) && (z < |bytes| ==> bytes[z] != 0)
    requires AreDigits(digits, 58) && (digits == [] || digits[0] != 0) && Num(digits, 58) == Num(bytes[z..], 256)
    ensures Encodes(bytes, seq(z, _ => '1') + Spelled(digits))
  {
    SpelledDigits(z, digits);
    assert bytes == Pad(z, bytes[z..]);
    hide Num, Spelled, Encodes, DigitsOf, AllSymbols;
    PaddedText(seq(z, _ => '1') + Spelled(digits), z, digits, bytes[z..]);
  }

  /** The text between leading and trailing white space. */
  function Trim(s: string): string {
    TrimEnd(TrimStart(s))
  }

  function TrimStart(s: string): string {
    if s != [] && IsSpace(s[0]) then TrimStart(s[1..]) else s
  }

  function TrimEnd(s: string): string {
    if s != [] && IsSpace(s[|s| - 1]) then TrimEnd(s[..|s| - 1]) else s
  }

  lemma {:induction false} TrimStartAt(s: string, i: nat) returns (a: nat)
    requires i <= |s| && (i < |s| ==> !IsSpace(s[i]))
    ensures a <= i && TrimStart(s) == s[a..] && ((forall k :: 0 <= k < i ==> IsSpace(s[k])) ==> a == i)
  {
    if i > 0 && IsSpace(s[0]) {
      var b := TrimStartAt(s[1..], i - 1);
      a := b + 1;
      assert s[1..][b..] == s[a..];
    } else {
      a := 0;
      assert s[0..] == s;
    }
  }

  lemma {:induction false} TrimEndAt(s: string, j: nat) returns (b: nat)
    requires j <= |s| && (j > 0 ==> !IsSpace(s[j - 1]))
    ensures j <= b <= |s| && TrimEnd(s) == s[..b] && ((forall k :: j <= k < |s| ==> IsSpace(s[k])) ==> b == j)
  {
    if |s| > j && IsSpace(s[|s| - 1]) {
      b := TrimEndAt(s[..|s| - 1], j);
      assert s[..|s| - 1][..b] == s[..b];
    } else {
      b := |s|;
      assert s[..|s|] == s;
    }
  }

  /** White space around a text without any is what trimming removes. */
  lemma TrimIs(s: string, i: nat, j: nat)
    requires i <= j <= |s| && (forall k :: 0 <= k < i || j <= k < |s| ==> IsSpace(s[k]))
    requires i == j ==> j == |s|
    requires i < j ==> !IsSpace(s[i]) && !IsSpace(s[j - 1])
    ensures Trim(s) == s[i..j]
  {
    var a := TrimStartAt(s, i);
    var b := TrimEndAt(s[i..], j - i);
    assert s[i..][..j - i] == s[i..j];
  }

  /** Everything between two characters that are not white space survives trimming. */
  lemma InsideTrim(s: string, i: nat, k: nat, j: nat)
    requires i <= k <= j < |s| && !IsSpace(s[i]) && !IsSpace(s[j])
    ensures s[k] in Trim(s)
  {
    var a := TrimStartAt(s, i);
    var b := TrimEndAt(s[a..], j + 1 - a);
    assert s[a..][..b][k - a] == s[k];
  }

  lemma NotAllSymbols(s: string, c: char)
    requires c in s && !IsSymbol(c)
    ensures !AllSymbols(s)
  {
    var i :| 0 <= i < |s| && s[i] == c;
  }

  /** Symbols read so far into the buffer. */
  ghost predicate Reading(s: string, from: nat, p: nat, buf: seq<nat>, length: nat) {
    && from <= p <= |s| && AllSymbols(s[from..p]) && |buf| == ByteRoom(|s| - from)
    && Buffer(buf, 256, length) && Num(buf, 256) == Num(DigitsOf(s[from..p]), 58)
  }

  lemma ReadStart(s: string, from: nat, buf: seq<nat>)
    requires from <= |s| && |buf| == ByteRoom(|s| - from) && forall i :: 0 <= i < |buf| ==> buf[i] == 0
    ensures Reading(s, from, from, buf, 0)
  {
    assert s[from..from] == [];
    EmptyBuffer(buf, 256);
  }

  lemma DigitsSnoc(s: string, from: nat, p: nat)
    requires from <= p < |s| && AllSymbols(s[from..p]) && IsSymbol(s[p])
    ensures AllSymbols(s[from..p + 1]) && DigitsOf(s[from..p + 1]) == DigitsOf(s[from..p]) + [DigitOf(s[p])]
  {
    assert s[from..p + 1] == s[from..p] + [s[p]];
  }

  /** One more symbol fits the buffer. */
  lemma ReadFits(s: string, from: nat, p: nat, buf: seq<nat>, length: nat)
    requires Reading(s, from, p, buf, length) && p < |s| && IsSymbol(s[p])
    ensures Buffer(buf, 256, length) && 58 * Num(buf, 256) + DigitOf(s[p]) < Pow(256, |buf|)
  {
    hide Num, Pow, ByteRoom, DigitsOf, DigitOf, AllSymbols, IsSymbol, Buffer;
    var d := DigitsOf(s[from..p]);
    NumBound(d, 58);
    Horner(Num(d, 58), DigitOf(s[p]), 58, |d|);
    PowMono(58, |d| + 1, |s| - from);
    SymbolsFit(|s| - from);
  }

  lemma ReadNext(s: string, from: nat, p: nat, buf: seq<nat>, length: nat, next: seq<nat>, used: nat)
    requires Reading(s, from, p, buf, length) && p < |s| && IsSymbol(s[p])
    requires |next| == |buf| && Buffer(next, 256, used) && Num(next, 256) == 58 * Num(buf, 256) + DigitOf(s[p])
    ensures Reading(s, from, p + 1, next, used)
  {
    hide Num, Pow, ByteRoom, DigitsOf, DigitOf, AllSymbols, IsSymbol, Buffer;
    DigitsSnoc(s, from, p);
    NumSnoc(DigitsOf(s[from..p]), DigitOf(s[p]), 58);
  }

  predicate NoSpace(s: string, from: nat, p: nat) {
    from <= p <= |s| && forall k :: from <= k < p ==> !IsSpace(s[k])
  }

  /** Reads symbols up to white space or the end; false at the first character that is neither. */
  method ReadSymbols(s: string, from: nat, buf: array<nat>) returns (ok: bool, p: nat, length: nat)
    requires from <= |s| && Reading(s, from, from, buf[..], 0)
    modifies buf
    ensures NoSpace(s, from, p)
    ensures ok ==> Reading(s, from, p, buf[..], length) && (p < |s| ==> IsSpace(s[p]))
    ensures !ok ==> p < |s| && !IsSpace(s[p]) && !IsSymbol(s[p])
  {
    p, length := from, 0;
    hide Num, Pow, Buffer, Reading, DigitOf, IsSymbol;
    while p < |s| && !IsSpace(s[p])
      invariant NoSpace(s, from, p) && Reading(s, from, p, buf[..], length)
    {
      if !IsSymbol(s[p]) { return false, p, length; }
      ReadFits(s, from, p, buf[..], length);
      ghost var before, was := buf[..], length;
      length := MulAdd(buf, length, 58, DigitOf(s[p]), 256);
      ReadNext(s, from, p, before, was, buf[..], length);
      p := p + 1;
    }
    ok := true;
  }

  /** Bytes for text, with white space around it allowed. */
  method DecodeBase58(s: string) returns (r: Option<seq<nat>>)
    ensures r.Some? <==> AllSymbols(Trim(s))
    ensures r.Some? ==> AreDigits(r.value, 256) && Encodes(r.value, Trim(s))
  {
    var start := 0;
    while start < |s| && IsSpace(s[start])
      invariant start <= |s| && forall k :: 0 <= k < start ==> IsSpace(s[k])
    {
      start := start + 1;
    }
    var from := start;
    while from < |s| && s[from] == '1'
      invariant start <= from <= |s| && forall k :: start <= k < from ==> s[k] == '1'
    {
      from := from + 1;
    }
    var buf := new nat[ByteRoom(|s| - from)](_ => 0);
    ReadStart(s, from, buf[..]);
    hide Num, Pow, Buffer, ByteRoom, Reading, Encodes, Trim;
    var ok, stop, length := ReadSymbols(s, from, buf);
    if !ok {
      InsideTrim(s, stop, stop, stop);
      NotAllSymbols(Trim(s), s[stop]);
      return None;
    }
    var p := stop;
    while p < |s| && IsSpace(s[p])
      invariant stop <= p <= |s| && forall k :: stop <= k < p ==> IsSpace(s[k])
    {
      p := p + 1;
    }
    if p < |s| {
      InsideTrim(s, start, stop, p);
      NotAllSymbols(Trim(s), s[stop]);
      return None;
    }
    r := Finish(s, start, from, stop, buf, length);
  }

  /** White space up to start and from stop on, and between them ones up to from. */
  ghost predicate Framed(s: string, start: nat, from: nat, stop: nat) {
    && start <= from <= stop <= |s| && (start == stop ==> stop == |s|)
    && (forall k :: 0 <= k < start || stop <= k < |s| ==> IsSpace(s[k]))
    && (forall k :: start <= k < from ==> s[k] == '1') && (from < stop ==> s[from] != '1')
  }

  /** The zero bytes, then the number without leading zeros. */
  method Finish(s: string, start: nat, from: nat, stop: nat, buf: array<nat>, length: nat) returns (r: Option<seq<nat>>)
    requires Framed(s, start, from, stop) && Reading(s, from, stop, buf[..], length)
    ensures AllSymbols(Trim(s)) && r.Some? && AreDigits(r.value, 256) && Encodes(r.value, Trim(s))
  {
    var rest := Stripped(buf, length, 256);
    r := Some(Pad(from - start, rest));
    FinishIs(s, start, from, stop, rest);
  }

  /** Leading ones are zero digits. */
  lemma OnesAreZeros(s: string, start: nat, from: nat, stop: nat)
    requires start <= from <= stop <= |s| && AllSymbols(s[from..stop]) && forall k :: start <= k < from ==> s[k] == '1'
    ensures AllSymbols(s[start..stop]) && DigitsOf(s[start..stop]) == Pad(from - start, DigitsOf(s[from..stop]))
  {
    var z, t, u := from - start, s[start..stop], s[from..stop];
    assert t == s[start..from] + u;
    assert DigitOf('1') == 0;
  }

  lemma FinishIs(s: string, start: nat, from: nat, stop: nat, rest: seq<nat>)
    requires Framed(s, start, from, stop) && AllSymbols(s[from..stop])
    requires AreDigits(rest, 256) && (rest == [] || rest[0] != 0) && Num(rest, 256) == Num(DigitsOf(s[from..stop]), 58)
    ensures AllSymbols(Trim(s)) && AreDigits(Pad(from - start, rest), 256)
    ensures Encodes(Pad(from - start, rest), Trim(s))
  {
    OnesAreZeros(s, start, from, stop);
    SymbolEnds(s, start, stop);
    FirstIsNot(s[from..stop]);
    hide Num, DigitsOf, DigitOf, IsSymbol, Trim, Encodes, AllSymbols;
    TrimIs(s, start, stop);
    PaddedText(s[start..stop], from - start, DigitsOf(s[from..stop]), rest);
  }

  lemma FirstIsNot(s: string)
    requires AllSymbols(s) && (s == [] || s[0] != '1')
    ensures DigitsOf(s) == [] || DigitsOf(s)[0] != 0
  {
    if s != [] { assert DigitsOf(s)[0] == DigitOf(s[0]) && SymbolOf(0) == '1'; }
  }

  lemma PaddedText(t: string, z: nat, d: seq<nat>, rest: seq<nat>)
    requires AllSymbols(t) && DigitsOf(t) == Pad(z, d) && (d == [] || d[0] != 0)
    requires (rest == [] || rest[0] != 0) && Num(rest, 256) == Num(d, 58)
    ensures Encodes(Pad(z, rest), t)
  {
    hide Num, DigitsOf, Zeros;
    ZerosOf(z, d);
    ZerosOf(z, rest);
    PaddedNum(z, d, 58);
    PaddedNum(z, rest, 256);
  }

  lemma SymbolEnds(s: string, i: nat, j: nat)
    requires i <= j <= |s| && AllSymbols(s[i..j])
    ensures i < j ==> !IsSpace(s[i]) && !IsSpace(s[j - 1])
  {
    if i < j { assert s[i..j][0] == s[i] && s[i..j][j - 1 - i] == s[j - 1]; }
  }

  // ---------------------------------------------------------------- round trips

  lemma TrimSymbols(s: string)
    requires AllSymbols(s)
    ensures Trim(s) == s
  {
    TrimIs(s, 0, |s|);
    assert s[0..|s|] == s;
  }

  /** Bytes survive encoding and decoding. */
  method EncodeThenDecode(bytes: seq<nat>) returns (r: Option<seq<nat>>)
    requires AreDigits(bytes, 256)
    ensures r == Some(bytes)
  {
    var s := EncodeBase58(bytes);
    TrimSymbols(s);
    r := DecodeBase58(s);
    OneMeaning(bytes, r.value, s);
  }

  /** Accepted text survives decoding and encoding, without the white space around it. */
  method DecodeThenEncode(s: string) returns (r: Option<string>)
    ensures r == if AllSymbols(Trim(s)) then Some(Trim(s)) else None
  {
    var bytes := DecodeBase58(s);
    if bytes.None? { return None; }
    var t := EncodeBase58(bytes.value);
    OneText(bytes.value, Trim(s), t);
    return Some(t);
  }
}
