/** Compact targets over limbs, the work a block proves, and the next work required. */
module Work {

  import opened Basics
  import opened Limbs
  import opened Shifts
  import opened Compact
  import opened Arith

  // ---------------------------------------------------------------- compact form of a limb number

  method SetCompact(x: Uint256, c: nat) returns (negative: bool, overflow: bool)
    requires c < BASE
    modifies x
    ensures x.Valid() && x.Value() == Decoded(c) && negative == Negative(c) && overflow == Overflow(c)
  {
    var size, word := c / SIZE, c % SIGN;
    hide Pow, Two, Val;
    WordSmall(c);
    if size <= 3 {
      word := WordShr(word, 8 * (3 - size));
      x.Set64(word);
      SmallDecoded(c);
    } else {
      x.Set64(word);
      x.Shl(8 * (size - 3));
    }
    negative := word != 0 && c / SIGN % 2 == 1;
    overflow := word != 0 && (size > 34 || (word > 0xff && size > 33) || (word > 0xffff && size > 32));
  }

  lemma SmallDecoded(c: nat)
    requires SizeOf(c) <= 3
    ensures Decoded(c) == WordOf(c)
  {
    hide Pow, Two, WordOf;
    WordSmall(c);
    Constants();
    TwoMono(24, 256);
    Euclid(WordOf(c), 0, WordOf(c), Pow(WIDTH));
  }

  method GetCompact(x: Uint256, negative: bool) returns (c: nat)
    requires x.Valid()
    ensures c == Encoded(x.Value(), negative)
  {
    ghost var v := x.Value();
    ValBound(x.pn);
    hide Pow, Two, Val, Mantissa, Exponent, BitLength, BitOr;
    var bits := x.Bits();
    BitLengthIs(v, bits);
    var size := (bits + 7) / 8;
    LeadingSmall(v);
    if size <= 3 {
      var low := x.GetLow64();
      SmallNumber(v);
      c := low * Two(8 * (3 - size));
    } else {
      var bn := new Uint256(x.pn);
      bn.Shr(8 * (size - 3));
      c := bn.GetLow64();
      Euclid(bn.Value(), 0, bn.Value(), BASE * BASE);
    }
    c := Packed(v, c, size, negative);
  }

  /** Moves the mantissa clear of the sign bit and packs it. */
  method Packed(ghost v: nat, leading: nat, bytes: nat, negative: bool) returns (c: nat)
    requires v < Pow(WIDTH) && leading == Leading(v) && bytes == Bytes(v)
    ensures c == Encoded(v, negative)
  {
    hide Pow, Two, Mantissa, Exponent, BitLength, Leading;
    c := leading;
    var size := bytes;
    if c / SIGN % 2 == 1 {
      c := c / 256;
      size := size + 1;
    }
    LeadingSmall(v);
    MantissaOf(v);
    ExponentBound(v);
    Normal(v);
    assert c < SIGN && size < 256;
    c := Flagged(c, size, negative);
  }

  /** Size byte and sign bit are put into clear bits. */
  method Flagged(mantissa: nat, size: nat, negative: bool) returns (c: nat)
    requires mantissa < SIGN
    ensures c == mantissa + size * SIZE + (if negative && mantissa != 0 then SIGN else 0)
  {
    Constants();
    hide Two, BitOr;
    Euclid(size * SIZE, size, 0, SIZE);
    OrDisjoint(mantissa, size * SIZE, 24);
    c := BitOr(mantissa, size * SIZE);
    Euclid(c, 2 * size, mantissa, SIGN);
    if negative && c % SIGN != 0 {
      OrClearBit(c, 23);
      c := BitOr(c, SIGN);
    }
  }

  lemma LeadingSmall(v: nat)
    ensures Leading(v) < SIZE
  {
    LeadingIs(v);
    if v > 0 { LeadingRange(v); }
    Constants();
    hide Two, Leading, Bytes;
    var b := Bytes(v);
    TwoAdd(24, 8 * b);
    QuotientBelow(v * SIZE, Two(8 * b), SIZE);
  }

  lemma SmallNumber(v: nat)
    requires Bytes(v) <= 3
    ensures v < BASE * BASE && v % (BASE * BASE) == v
  {
    BitLengthRange(v);
    Constants();
    hide Two, BitLength;
    TwoMono(BitLength(v), 24);
    Euclid(v, 0, v, BASE * BASE);
  }

  lemma MantissaOf(v: nat)
    requires Leading(v) < SIZE
    ensures var sign := Leading(v) / SIGN % 2 == 1;
      Mantissa(v) == (if sign then Leading(v) / 256 else Leading(v)) && Exponent(v) == Bytes(v) + if sign then 1 else 0
  {
    hide Leading, Bytes;
  }

  // ---------------------------------------------------------------- the work a block proves

  /** A target in compact form is never the all-ones number, so one can be added to it. */
  lemma TargetFits(c: nat)
    requires !Overflow(c)
    ensures Decoded(c) == Exact(c) && Decoded(c) + 1 < Pow(WIDTH)
  {
    OverflowExact(c);
    assert Pow(WIDTH) == BASE * Pow(7);
    hide Pow, Overflow, WordOf;
    Euclid(Exact(c), 0, Exact(c), Pow(WIDTH));
    if SizeOf(c) <= 3 {
      WordSmall(c);
      MulMono(1, Pow(7), BASE);
    } else {
      var n := 8 * (SizeOf(c) - 3);
      assert Two(n) == 2 * Two(n - 1);
      hide Two;
      EvenNotOnes(WordOf(c), Two(n - 1), Pow(7));
    }
  }

  lemma EvenNotOnes(w: nat, t: nat, p: nat)
    ensures w * (2 * t) != BASE * p - 1
  {
    assert w * (2 * t) == 2 * (w * t);
  }

  /** 2^256 itself does not fit the limbs: the quotient is taken of the complement instead. */
  lemma ProofQuotient(t: nat, p: nat)
    requires 0 < t && t + 1 < p
    ensures (p - 1 - t) / (t + 1) + 1 == p / (t + 1) < p
  {
    var q, r := (p - 1 - t) / (t + 1), (p - 1 - t) % (t + 1);
    assert p - 1 - t == q * (t + 1) + r;
    assert (q + 1) * (t + 1) == q * (t + 1) + (t + 1);
    Euclid(p, q + 1, r, t + 1);
    MulMono(2, t + 1, q + 1);
  }

  /** ~target / (target + 1) + 1. */
  method Hashes(target: Uint256) returns (r: Uint256)
    requires target.Valid() && 0 < target.Value() && target.Value() + 1 < Pow(WIDTH)
    modifies target
    ensures fresh(r) && r.Valid() && r.Value() == Pow(WIDTH) / (old(target.Value()) + 1)
  {
    ghost var t := target.Value();
    hide Pow, Val;
    ProofQuotient(t, Pow(WIDTH));
    r := target.Complement();
    AddOne(target);
    var ok := r.Div(target);
    assert ok;
    AddOne(r);
  }

  /** x + 1, where that fits. */
  method AddOne(x: Uint256)
    requires x.Valid() && x.Value() + 1 < Pow(WIDTH)
    modifies x
    ensures x.Valid() && x.Value() == old(x.Value()) + 1
  {
    hide Pow, Val;
    Euclid(x.Value() + 1, 0, x.Value() + 1, Pow(WIDTH));
    var one := new Uint256(seq(WIDTH, _ => 0));
    one.Set64(1);
    x.Add(one);
  }

  method GetBlockProof(nBits: nat) returns (r: Uint256)
    requires nBits < BASE
    ensures fresh(r) && r.Valid() && r.Value() ==
      if Negative(nBits) || Overflow(nBits) || Decoded(nBits) == 0 then 0 else Pow(WIDTH) / (Decoded(nBits) + 1)
  {
    var target := new Uint256(seq(WIDTH, _ => 0));
    hide Pow, Val, Decoded, Overflow, Negative;
    var negative, overflow := SetCompact(target, nBits);
    var zero := target.EqualTo(0);
    if negative || overflow || zero {
      r := new Uint256(seq(WIDTH, _ => 0));
      r.Set64(0);
    } else {
      TargetFits(nBits);
      r := Hashes(target);
    }
  }

  // ---------------------------------------------------------------- the next work required

  /** The time the last period took, kept within a factor of four of the intended time. */
  function Clamped(span: int, intended: nat): (r: nat)
    ensures intended / 4 <= r <= 4 * intended
    ensures intended / 4 <= span <= 4 * intended ==> r == span
    ensures span < intended / 4 ==> r == intended / 4
    ensures span > 4 * intended ==> r == 4 * intended
  {
    if span < intended / 4 then intended / 4 else if span > 4 * intended then 4 * intended else span
  }

  /** The target scaled by span over intended in 256-bit arithmetic. Targets of more than 238 bits
      are scaled after dropping their low bits. */
  function Rescaled(target: nat, span: nat, intended: nat): nat
    requires intended > 0
  {
    var n := BitLength(target);
    if n > 238
    then target / Two(n - 238) * span % Pow(WIDTH) / intended * Two(n - 238) % Pow(WIDTH)
    else target * span % Pow(WIDTH) / intended
  }

  /** The word for the next period. The span is passed on in 32 bits. */
  function NextWord(nBits: nat, span: int, intended: nat, limit: nat): nat
    requires intended > 0
  {
    Encoded(Min(Rescaled(Decoded(nBits), Clamped(span, intended) % BASE, intended), limit), false)
  }

  /** Four times the intended time must not overflow a signed 64-bit number. */
  method CalculateNextWorkRequired(noRetargeting: bool, nBits: nat, lastTime: int, firstTime: int,
                                   limit: Uint256, intended: nat) returns (next: nat)
    requires nBits < BASE && limit.Valid() && 0 < intended && 4 * intended < 0x8000_0000_0000_0000
    ensures next == if noRetargeting then nBits else NextWord(nBits, lastTime - firstTime, intended, limit.Value())
  {
    if noRetargeting { return nBits; }
    var span := lastTime - firstTime;
    if span < intended / 4 { span := intended / 4; }
    if span > intended * 4 { span := intended * 4; }
    var target := new Uint256(seq(WIDTH, _ => 0));
    hide Pow, Val, Decoded, Overflow, Negative, Rescaled, Encoded;
    var negative, overflow := SetCompact(target, nBits);
    Scale(target, span % BASE, intended);
    next := Capped(target, limit);
  }

  /** The compact form of a target, or of the limit if that is lower. */
  method Capped(target: Uint256, limit: Uint256) returns (next: nat)
    requires target.Valid() && limit.Valid()
    ensures next == Encoded(Min(target.Value(), limit.Value()), false)
  {
    hide Encoded, Val;
    var c := target.CompareTo(limit);
    next := GetCompact(if c > 0 then limit else target, false);
  }

  method Scale(target: Uint256, span: nat, intended: nat)
    requires target.Valid() && span < BASE && 0 < intended < BASE * BASE
    modifies target
    ensures target.Valid() && target.Value() == Rescaled(old(target.Value()), span, intended)
  {
    hide Pow, Val, Two, BitLength;
    var bits := target.Bits();
    BitLengthIs(target.Value(), bits);
    var shift := bits as int - 238;
    if shift > 0 { target.Shr(shift); }
    target.MulSmall(span);
    var divisor := new Uint256(seq(WIDTH, _ => 0));
    divisor.Set64(intended);
    var ok := target.Div(divisor);
    assert ok;
    if shift > 0 { target.Shl(shift); }
  }

  // ---------------------------------------------------------------- the main network

  const MAIN_TIMESPAN: nat := 86400

  function MainLimit(): nat { Two(224) - 1 }

  /** The word for the next period on the main network. */
  function MainNext(nBits: nat, span: int): nat {
    NextWord(nBits, span, MAIN_TIMESPAN, MainLimit())
  }

  /** The target times the span over the intended time, rounded down. */
  function Scaled(target: nat, span: nat): nat { target * span / MAIN_TIMESPAN }

  /** A target of at most 238 bits whose product with the span stays below 2^256 is scaled exactly. */
  lemma RescaledExact(target: nat, span: nat, intended: nat)
    requires intended > 0 && target < Two(238) && target * span < Pow(WIDTH)
    ensures Rescaled(target, span, intended) == target * span / intended
  {
    BitLengthRange(target);
    hide Two, Pow, BitLength;
    if BitLength(target) > 238 { TwoMono(238, BitLength(target) - 1); }
    Euclid(target * span, 0, target * span, Pow(WIDTH));
  }

  lemma MainFits(target: nat, span: nat)
    requires target <= MainLimit() && span <= 4 * MAIN_TIMESPAN
    ensures target < Two(238) && target * span < Pow(WIDTH) && MainLimit() < Pow(WIDTH)
  {
    Constants();
    TwoBase();
    hide Pow;
    MainProduct(target, span, Two(224));
    hide Two;
    TwoMono(224, 238);
    TwoMono(224, 256);
    TwoAdd(224, 32);
  }

  lemma MainProduct(target: nat, span: nat, t: nat)
    requires target < t && span <= 4 * MAIN_TIMESPAN
    ensures target * span < t * BASE
  {
    MulMono(span, BASE, target);
    MulMono(target + 1, t, BASE);
    assert span * target == target * span && BASE * target == target * BASE;
    assert (target + 1) * BASE == target * BASE + BASE;
  }

  lemma MainRescaled(target: nat, span: nat)
    requires target < Two(238) && target * span < Pow(WIDTH)
    ensures Rescaled(target, span, MAIN_TIMESPAN) == Scaled(target, span)
  {
    hide Two, Pow, Rescaled;
    RescaledExact(target, span, MAIN_TIMESPAN);
  }

  /** On the main network no intermediate result wraps: every target up to the limit is multiplied
      by the clamped time over the intended time, rounded down, cut at the limit and encoded. */
  lemma MainExact(nBits: nat, span: int)
    requires Decoded(nBits) <= MainLimit()
    ensures var t := Clamped(span, MAIN_TIMESPAN);
      && Decoded(nBits) * t < Pow(WIDTH)
      && MainNext(nBits, span) == Encoded(Min(Scaled(Decoded(nBits), t), MainLimit()), false)
  {
    hide Two, Pow, Decoded, Encoded, Rescaled, MainLimit, Clamped;
    var t := Clamped(span, MAIN_TIMESPAN);
    MainFits(Decoded(nBits), t);
    MainRescaled(Decoded(nBits), t);
    hide Scaled;
  }

  /** One period changes the target at most by a factor of four either way, up to the precision of
      the compact form, and never lifts it over the limit. */
  lemma MainStep(nBits: nat, span: int)
    requires Decoded(nBits) <= MainLimit()
    ensures var old', new' := Decoded(nBits), Decoded(MainNext(nBits, span));
      Decoded(Encoded(old' / 4, false)) <= new' <= Min(4 * old', MainLimit())
  {
    hide Two, Pow, Decoded, Encoded, MainLimit, MainNext, Exponent, Dropped;
    var target, t := Decoded(nBits), Clamped(span, MAIN_TIMESPAN);
    MainExact(nBits, span);
    MainFits(target, t);
    ScaledRange(target, t);
    hide Scaled;
    var x := Min(Scaled(target, t), MainLimit());
    CompactRoundTrip(x);
    CompactMonotone(target / 4, x);
    assert x - x % Two(8 * Dropped(x)) <= x;
  }

  lemma ScaledRange(target: nat, t: nat)
    requires MAIN_TIMESPAN / 4 <= t <= 4 * MAIN_TIMESPAN
    ensures target / 4 <= Scaled(target, t) <= 4 * target
  {
    MulMono(t, 4 * MAIN_TIMESPAN, target);
    MulMono(MAIN_TIMESPAN / 4, t, target);
    assert t * target == target * t;
  }
}
