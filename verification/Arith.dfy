/** 256-bit unsigned numbers as eight 32-bit limbs, least significant first.

    Every operation works limb by limb in place, with 64-bit intermediate results, and is proved
    to compute the ordinary operation on the number the limbs stand for, modulo 2^256. */
module Arith {

  import opened Basics
  import opened Limbs
  import opened Shifts

  class Uint256 {
    var pn: seq<nat>

    predicate Valid()
      reads this
    {
      |pn| == WIDTH && AreLimbs(pn)
    }

    function Value(): nat
      reads this
    {
      Val(pn)
    }

    constructor (limbs: seq<nat>)
      requires |limbs| == WIDTH && AreLimbs(limbs)
      ensures Valid() && pn == limbs
    {
      pn := limbs;
    }

    /** this = b, a 64-bit number. */
    method Set64(b: nat)
      requires b < BASE * BASE
      modifies this
      ensures Valid() && Value() == b
    {
      pn := [b % BASE, b / BASE, 0, 0, 0, 0, 0, 0];
      hide Val, Pow;
      LowLimbs(pn);
      ValPadded(pn, 2);
    }

    /** The low 64 bits, which are the number itself when it has no more. */
    method GetLow64() returns (r: nat)
      requires Valid()
      ensures r == Value() % (BASE * BASE)
    {
      hide Val, Pow;
      LowLimbs(pn);
      FitsIn64(pn[0], 0, pn[1], BASE - 1);
      r := pn[0] + pn[1] * BASE;
    }

    /** this += b; b may be this very object. */
    method Add(b: Uint256)
      requires Valid() && b.Valid()
      modifies this
      ensures Valid() && Value() == (old(Value()) + old(b.Value())) % Pow(WIDTH)
    {
      ghost var x, y := pn, b.pn;
      hide Val, Pow;
      ValEmpty(x);
      ValEmpty(y);
      var carry := 0;
      for i := 0 to WIDTH
        invariant Valid() && 0 <= carry <= 1
        invariant pn[i..] == x[i..] && (b != this ==> b.pn == y) && (b == this ==> x == y)
        invariant Val(pn[..i]) + carry * Pow(i) == Val(x[..i]) + Val(y[..i])
      {
        var n := carry + pn[i] + b.pn[i];
        ghost var before := pn;
        pn := pn[i := n % BASE];
        assert pn[..i] == before[..i];
        AddStep(pn, x, y, i, carry, n);
        carry := n / BASE;
      }
      assert pn[..WIDTH] == pn && x[..WIDTH] == x && y[..WIDTH] == y;
      ValBound(pn);
      Euclid(Val(x) + Val(y), carry, Val(pn), Pow(WIDTH));
    }

    /** The bitwise complement. */
    method Complement() returns (r: Uint256)
      requires Valid()
      ensures fresh(r) && r.Valid() && r.Value() == Pow(WIDTH) - 1 - Value()
    {
      var ret: seq<nat> := seq(WIDTH, _ => 0);
      hide Val, Pow;
      ComplementStart(pn, ret);
      for i := 0 to WIDTH
        invariant |ret| == WIDTH && AreLimbs(ret)
        invariant Val(ret[..i]) + Val(pn[..i]) == Pow(i) - 1
      {
        ghost var before := ret;
        ret := ret[i := BASE - 1 - pn[i]];
        assert ret[..i] == before[..i];
        ComplementStep(ret, pn, i);
      }
      assert ret[..WIDTH] == ret && pn[..WIDTH] == pn;
      r := new Uint256(ret);
    }

    /** ++this: limbs wrap to zero until one does not. */
    method Increment()
      requires Valid()
      modifies this
      ensures Valid() && Value() == (old(Value()) + 1) % Pow(WIDTH)
    {
      ghost var x := pn;
      hide Val, Pow;
      ValEmpty(x);
      var i := 0;
      pn := pn[0 := (pn[0] + 1) % BASE];
      IncrementStart(pn, x);
      while pn[i] == 0 && i < WIDTH - 1
        invariant 0 <= i < WIDTH && Valid() && pn[i + 1..] == x[i + 1..]
        invariant pn[i] == (x[i] + 1) % BASE
        invariant Val(pn[..i]) + Pow(i) == Val(x[..i]) + 1
      {
        ghost var before := pn;
        IncrementStep(pn, x, i);
        i := i + 1;
        pn := pn[i := (pn[i] + 1) % BASE];
        assert pn[..i] == before[..i];
      }
      IncrementDone(pn, x, i);
    }

    /** -this. */
    method Negated() returns (r: Uint256)
      requires Valid()
      ensures fresh(r) && r.Valid() && r.Value() == (Pow(WIDTH) - Value()) % Pow(WIDTH)
    {
      r := Complement();
      r.Increment();
    }

    /** this -= b, as this += -b. */
    method Sub(b: Uint256)
      requires Valid() && b.Valid()
      modifies this
      ensures Valid() && Value() == (old(Value()) - old(b.Value())) % Pow(WIDTH)
    {
      ghost var x, y := Value(), b.Value();
      ValBound(pn);
      ValBound(b.pn);
      var minus := b.Negated();
      hide Val, Pow;
      Add(minus);
      SubModulo(x, y, Pow(WIDTH));
    }

    /** this *= b32. */
    method MulSmall(b32: nat)
      requires Valid() && b32 < BASE
      modifies this
      ensures Valid() && Value() == (old(Value()) * b32) % Pow(WIDTH)
    {
      ghost var x := pn;
      hide Val, Pow;
      ValEmpty(x);
      var carry := 0;
      for i := 0 to WIDTH
        invariant Valid() && 0 <= carry < BASE && pn[i..] == x[i..]
        invariant Val(pn[..i]) + carry * Pow(i) == b32 * Val(x[..i])
      {
        var n := carry + b32 * pn[i];
        FitsIn64(carry, 0, b32, pn[i]);
        ghost var before := pn;
        pn := pn[i := n % BASE];
        assert pn[..i] == before[..i];
        MulStep(pn, x, i, carry, n, b32);
        carry := n / BASE;
      }
      assert pn[..WIDTH] == pn && x[..WIDTH] == x;
      Wrapped(pn, carry, Val(x), b32);
    }

    /** One limb of row j; the intermediate result fits 64 bits. */
    method MulLimb(a: nat, b: Uint256, j: nat, i: nat, carry: nat, ghost x: seq<nat>, ghost y: seq<nat>) returns (next: nat)
      requires Valid() && b.Valid() && a < BASE && i + j < WIDTH && y == b.pn && InRow(pn, x, y, a, j, i, carry)
      modifies this
      ensures Valid() && InRow(pn, x, y, a, j, i + 1, next)
      ensures carry == 0 && old(pn[i + j]) == 0 && y[i] == 0 ==> pn == old(pn) && next == 0
    {
      hide Val, Pow, Row, InRow;
      var n := carry + pn[i + j] + a * b.pn[i];
      RowStep(pn, x, y, a, j, i, carry, n);
      assert n < BASE * BASE;
      pn := pn[i + j := n % BASE];
      next := n / BASE;
    }

    /** Row j of *=: adds limb a at place j, times b. Carries out of the top limb are lost.
        The object b is read while this one is written: it is another object, or all limbs are zero. */
    method MulRow(a: nat, b: Uint256, j: nat) returns (ghost lost: nat)
      requires Valid() && b.Valid() && a < BASE && j < WIDTH
      requires b != this || pn == seq(WIDTH, _ => 0)
      modifies this
      ensures Valid() && (b == this ==> pn == old(pn))
      ensures Value() + lost * Pow(WIDTH) == old(Value()) + Row(a, j, old(b.Value()))
    {
      ghost var x, y := pn, b.pn;
      hide Val, Pow, Row, InRow;
      RowStart(x, y, a, j);
      var carry := 0;
      for i := 0 to WIDTH - j
        invariant Valid() && carry >= 0 && InRow(pn, x, y, a, j, i, carry) && b.pn == y
        invariant b == this ==> pn == x && carry == 0
      {
        carry := MulLimb(a, b, j, i, carry, x, y);
      }
      lost := RowDone(pn, x, y, a, j, carry);
    }

    /** this *= b, schoolbook. Multiplying an object by itself clears it: the rows read the limbs
        that the first assignment zeroed. */
    method Mul(b: Uint256)
      requires Valid() && b.Valid()
      modifies this
      ensures Valid() && (b == this ==> Value() == 0)
      ensures b != this ==> Value() == (old(Value()) * old(b.Value())) % Pow(WIDTH)
    {
      var a := pn;
      ghost var y := b.pn;
      pn := seq(WIDTH, _ => 0);
      ghost var lost := 0;
      hide Val, Pow, Row;
      ValEmpty(a);
      ValZero(pn);
      for j := 0 to WIDTH
        invariant Valid() && (b == this ==> pn == seq(WIDTH, _ => 0)) && (b != this ==> b.pn == y)
        invariant b != this ==> lost >= 0 && Val(pn) + lost * Pow(WIDTH) == Val(a[..j]) * Val(y)
      {
        ghost var before := pn;
        ghost var more := MulRow(a[j], b, j);
        if b != this {
          RowsStep(pn, before, a, y, j, lost, more);
          lost := lost + more;
        }
      }
      if b == this {
        ValZero(pn);
      } else {
        assert a[..WIDTH] == a;
        Wrapped(pn, lost, Val(y), Val(a));
        assert Val(y) * Val(a) == Val(a) * Val(y);
      }
    }

    /** The two words one limb of a left shift goes to. */
    method ShlLimb(w: nat, k: nat, s: nat, i: nat)
      requires |pn| == WIDTH && s < 32
      modifies this
      ensures pn == if i + k < WIDTH then ShlInto(old(pn), w, k, s, i) else old(pn)
    {
      hide BitOr, WordShl, WordShr;
      if i + k + 1 < WIDTH && s != 0 {
        pn := pn[i + k + 1 := BitOr(pn[i + k + 1], WordShr(w, 32 - s))];
      }
      if i + k < WIDTH {
        pn := pn[i + k := BitOr(pn[i + k], WordShl(w, s))];
      }
    }

    /** The two words one limb of a right shift goes to. */
    method ShrLimb(w: nat, k: nat, s: nat, i: nat)
      requires |pn| == WIDTH && s < 32 && i < WIDTH
      modifies this
      ensures pn == if k <= i then ShrInto(old(pn), w, k, s, i) else old(pn)
    {
      hide BitOr, WordShl, WordShr;
      if i - k - 1 >= 0 && s != 0 {
        pn := pn[i - k - 1 := BitOr(pn[i - k - 1], WordShl(w, 32 - s))];
      }
      if i - k >= 0 {
        pn := pn[i - k := BitOr(pn[i - k], WordShr(w, s))];
      }
    }

    /** this <<= shift, for any shift: from 256 on nothing is left. */
    method Shl(shift: nat)
      requires Valid()
      modifies this
      ensures Valid() && Value() == old(Value()) * Two(shift) % Pow(WIDTH)
    {
      var a := pn;
      pn := seq(WIDTH, _ => 0);
      var k, s := shift / 32, shift % 32;
      hide Val, Pow, Two, ShlInto, ShlDone;
      if k <= WIDTH { ShlStart(pn, a, k, s); }
      for i := 0 to WIDTH
        invariant Valid()
        invariant k <= WIDTH ==> ShlDone(pn, a, k, s, if i + k < WIDTH then i else WIDTH - k)
        invariant k > WIDTH ==> pn == seq(WIDTH, _ => 0)
      {
        ghost var was := pn;
        ShlLimb(a[i], k, s, i);
        if i + k < WIDTH { ShlStep(was, a, k, s, i); }
      }
      if k <= WIDTH {
        ShlFinish(pn, a, shift);
      } else {
        ValZero(pn);
        ShlFar(Val(a), shift);
      }
    }

    /** this >>= shift, for any shift. */
    method Shr(shift: nat)
      requires Valid()
      modifies this
      ensures Valid() && Value() == old(Value()) / Two(shift)
    {
      var a := pn;
      pn := seq(WIDTH, _ => 0);
      var k, s := shift / 32, shift % 32;
      hide Val, Pow, Two, ShrInto, ShrDone;
      if k <= WIDTH { ShrStart(pn, a, k, s); }
      for i := 0 to WIDTH
        invariant Valid()
        invariant k <= WIDTH ==> ShrDone(pn, a, k, s, if i < k then k else i)
        invariant k > WIDTH ==> pn == seq(WIDTH, _ => 0)
      {
        ghost var was := pn;
        ShrLimb(a[i], k, s, i);
        if k <= i { ShrStep(was, a, k, s, i); }
      }
      if k <= WIDTH {
        ShrFinish(pn, a, shift);
      } else {
        ValZero(pn);
        ValBound(a);
        ShrFar(Val(a), shift);
      }
    }

    /** -1, 0 or 1, from the highest limb that differs. */
    method CompareTo(b: Uint256) returns (r: int)
      requires Valid() && b.Valid()
      ensures r == if Value() < b.Value() then -1 else if Value() > b.Value() then 1 else 0
    {
      hide Val, Pow;
      for i := WIDTH downto 0
        invariant pn[i..] == b.pn[i..]
      {
        if pn[i] < b.pn[i] {
          HigherLimb(pn, b.pn, i);
          return -1;
        }
        if pn[i] > b.pn[i] {
          HigherLimb(b.pn, pn, i);
          return 1;
        }
      }
      assert pn[0..] == pn && b.pn[0..] == b.pn;
      return 0;
    }

    /** Equality with a 64-bit number. */
    method EqualTo(b: nat) returns (r: bool)
      requires Valid() && b < BASE * BASE
      ensures r <==> Value() == b
    {
      hide Val, Pow;
      LowLimbs(pn);
      for i := WIDTH downto 2
        invariant forall j :: i <= j < WIDTH ==> pn[j] == 0
      {
        if pn[i] != 0 {
          HighLimb(pn, i);
          return false;
        }
      }
      ValPadded(pn, 2);
      SplitPair(pn[0], pn[1], b);
      if pn[1] != b / BASE { return false; }
      if pn[0] != b % BASE { return false; }
      return true;
    }

    /** The place of the highest bit of a non-zero word. */
    static method TopBit(word: nat) returns (b: nat)
      requires 0 < word < BASE
      ensures b < 32 && Two(b) <= word < Two(b + 1)
    {
      TwoBase();
      assert Two(0) == 1;
      hide Two, Bit;
      for bits := 32 downto 1
        invariant word < Two(bits)
      {
        if Bit(word, bits) {
          BitSet(word, bits);
          return bits;
        }
        BitClear(word, bits);
      }
      return 0;
    }

    /** The number of bits without leading zeros. */
    method Bits() returns (n: nat)
      requires Valid()
      ensures n <= 32 * WIDTH && Value() < Two(n) && (n > 0 ==> Two(n - 1) <= Value())
    {
      hide Val, Pow, Two;
      for pos := WIDTH downto 0
        invariant forall i :: pos <= i < WIDTH ==> pn[i] == 0
      {
        if pn[pos] != 0 {
          var b := TopBit(pn[pos]);
          TopLimb(pn, pos, b);
          return 32 * pos + b + 1;
        }
      }
      ValZero(pn);
      TwoZero();
      return 0;
    }

    /** One bit of the division: subtract if it fits, set the bit, move the divisor down. */
    method DivBit(num: Uint256, div: Uint256, shift: nat, ghost x: nat, ghost y: nat)
      requires Valid() && num.Valid() && div.Valid() && this != num && this != div && num != div
      requires shift < 32 * WIDTH && Clear(pn, shift + 1)
      requires Dividing(Value(), num.Value(), div.Value(), x, y, shift)
      modifies this, num, div
      ensures Valid() && num.Valid() && div.Valid() && Clear(pn, shift)
      ensures Dividing(Value(), num.Value(), div.Value(), x, y, shift - 1)
    {
      ValBound(num.pn);
      ghost var n, d := num.Value(), div.Value();
      hide Pow, Two, Clear, Dividing, BitOr;
      DivStep(Value(), n, d, x, y, shift);
      ClearLess(pn, shift);
      var c := num.CompareTo(div);
      if c >= 0 {
        num.Sub(div);
        Euclid(n - d, 0, n - d, Pow(WIDTH));
        SetBit(pn, shift);
        pn := pn[shift / 32 := BitOr(pn[shift / 32], Two(shift % 32))];
      }
      div.Shr(1);
      TwoOne();
    }

    /** this /= b, by shift and subtract; false is the division by zero error, raised after the
        quotient was cleared. */
    method Div(b: Uint256) returns (ok: bool)
      requires Valid() && b.Valid()
      modifies this
      ensures Valid() && (ok <==> old(b.Value()) != 0)
      ensures Value() == if ok then old(Value()) / old(b.Value()) else 0
    {
      ghost var x, y := Value(), b.Value();
      hide Val, Pow, Two, Clear, Dividing;
      var div := new Uint256(b.pn);
      var num := new Uint256(pn);
      pn := seq(WIDTH, _ => 0);
      ValZero(pn);
      var numBits := num.Bits();
      var divBits := div.Bits();
      DivBits(x, y, numBits, divBits);
      if divBits == 0 { return false; }
      if divBits > numBits { return true; }
      var shift := numBits - divBits;
      div.Shl(shift);
      DivStart(x, y, numBits, divBits);
      ClearStart(pn, shift + 1);
      while shift >= 0
        invariant -1 <= shift < 32 * WIDTH
        invariant Valid() && num.Valid() && div.Valid()
        invariant Clear(pn, shift + 1) && Dividing(Value(), num.Value(), div.Value(), x, y, shift)
      {
        DivBit(num, div, shift, x, y);
        shift := shift - 1;
      }
      DivDone(Value(), num.Value(), div.Value(), x, y);
      return true;
    }
  }
}
