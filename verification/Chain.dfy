/** The block index tree with its skip list, and the active chain.

    Every block points to its predecessor and, once `BuildSkip` has run, to one far ancestor.
    The simple meaning of "ancestor at a height" is following predecessors; the skip list, the
    active chain's table and the fork search are proved to agree with it. */
module Chain {

  import opened Basics

  // ---------------------------------------------------------------- skip heights

  /** Bitwise and of two nonnegative numbers. */
  function BitAnd(a: nat, b: nat): nat {
    if a == 0 || b == 0 then 0 else
    2 * BitAnd(a / 2, b / 2) + (if a % 2 == 1 && b % 2 == 1 then 1 else 0)
  }

  /** n & (n - 1). */
  function InvertLowestOne(n: nat): nat {
    if n == 0 then 0 else BitAnd(n, n - 1)
  }

  /** The height a skip pointer leads to, strictly below. */
  function GetSkipHeight(height: int): (r: int)
    ensures height > 0 ==> 0 <= r < height
  {
    SkipLower(height);
    if height < 2 then 0
    else if height % 2 == 1 then InvertLowestOne(InvertLowestOne(height - 1)) + 1
    else InvertLowestOne(height)
  }

  lemma {:induction false} BitAndSame(a: nat)
    ensures BitAnd(a, a) == a
  {
    if a > 0 { BitAndSame(a / 2); }
  }

  /** Clearing the lowest one: an even number halves on both sides, an odd one loses one. */
  lemma InvertStep(n: nat)
    requires n > 0
    ensures InvertLowestOne(n) == if n % 2 == 1 then n - 1 else 2 * InvertLowestOne(n / 2)
  {
    if n % 2 == 1 {
      BitAndSame(n / 2);
      if n > 1 { assert (n - 1) / 2 == n / 2; }
    } else {
      assert (n - 1) / 2 == n / 2 - 1;
    }
  }

  lemma {:induction false} InvertLower(n: nat)
    requires n > 0
    ensures InvertLowestOne(n) < n
    ensures n % 2 == 0 ==> InvertLowestOne(n) % 2 == 0
  {
    InvertStep(n);
    if n % 2 == 0 { InvertLower(n / 2); }
  }

  lemma SkipLower(height: int)
    ensures height >= 2 && height % 2 == 0 ==> InvertLowestOne(height) < height
    ensures height >= 2 && height % 2 == 1 ==> InvertLowestOne(InvertLowestOne(height - 1)) + 1 < height
  {
    if height >= 2 {
      InvertLower(height - height % 2);
      var n := InvertLowestOne(height - 1);
      if height % 2 == 1 && n > 0 { InvertLower(n); }
    }
  }

  // ---------------------------------------------------------------- where skips lead

  lemma DoubleTwo(x: nat, k: nat)
    requires k > 0
    ensures x * Two(k) == 2 * (x * Two(k - 1))
  {
    assert Two(k) == 2 * Two(k - 1);
  }

  lemma InvertDouble(n: nat)
    requires n > 0
    ensures InvertLowestOne(2 * n) == 2 * InvertLowestOne(n)
  {
    InvertStep(2 * n);
  }

  lemma {:induction false} InvertIs(j: nat, k: nat)
    ensures InvertLowestOne((2 * j + 1) * Two(k)) == (2 * j) * Two(k)
  {
    hide InvertLowestOne;
    if k == 0 {
      InvertStep(2 * j + 1);
    } else {
      DoubleTwo(2 * j + 1, k);
      DoubleTwo(2 * j, k);
      InvertPositive(j, k - 1);
      InvertDouble((2 * j + 1) * Two(k - 1));
      InvertIs(j, k - 1);
    }
  }

  lemma InvertPositive(j: nat, k: nat)
    ensures (2 * j + 1) * Two(k) > 0
  {
    MulMono(1, 2 * j + 1, Two(k));
  }

  lemma SkipOfEven(n: nat)
    requires n > 0
    ensures GetSkipHeight(2 * n) == InvertLowestOne(2 * n)
  {
  }

  lemma SkipOfOdd(n: nat)
    requires n > 0
    ensures GetSkipHeight(2 * n + 1) == InvertLowestOne(InvertLowestOne(2 * n)) + 1
  {
  }

  /** An even height skips to where its lowest one is cleared. */
  lemma SkipsEven(j: nat, k: nat)
    requires k > 0
    ensures GetSkipHeight((2 * j + 1) * Two(k)) == (2 * j) * Two(k)
  {
    hide GetSkipHeight, InvertLowestOne;
    InvertIs(j, k);
    InvertPositive(j, k - 1);
    DoubleTwo(2 * j + 1, k);
    SkipOfEven((2 * j + 1) * Two(k - 1));
  }

  /** The height after it skips to the height after the next lower such place, or to 1. */
  lemma SkipsOdd(i: nat, l: nat, k: nat)
    requires 0 < k < l
    ensures GetSkipHeight((2 * i + 1) * Two(l) + Two(k) + 1) == (2 * i) * Two(l) + 1
    ensures GetSkipHeight(Two(k) + 1) == 1
  {
    hide GetSkipHeight, InvertLowestOne;
    SkipsToOne(k);
    TwoMono(k + 1, l);
    DoubleTwo(1, k + 1);
    ClearsTwo(i, l, k);
    DoubleTwo(1, k);
    DoubleTwo(2 * i + 1, l);
    hide Two;
    SkipOfOdd((2 * i + 1) * Two(l - 1) + Two(k - 1));
  }

  lemma SkipsToOne(k: nat)
    requires k > 0
    ensures GetSkipHeight(Two(k) + 1) == 1
  {
    hide GetSkipHeight, InvertLowestOne;
    InvertIs(0, k);
    InvertZero();
    DoubleTwo(1, k);
    SkipOfOdd(Two(k - 1));
  }

  lemma ClearsTwo(i: nat, l: nat, k: nat)
    requires Two(k) < Two(l)
    ensures InvertLowestOne(InvertLowestOne((2 * i + 1) * Two(l) + Two(k))) == (2 * i) * Two(l)
  {
    hide InvertLowestOne;
    InvertIs(0, k);
    InvertAbove(2 * i + 1, l, Two(k));
    InvertIs(i, l);
  }

  lemma InvertZero()
    ensures InvertLowestOne(0) == 0
  {
  }

  /** High bits have no part in clearing the lowest one. */
  lemma {:induction false} InvertAbove(x: nat, j: nat, a: nat)
    requires 0 < a < Two(j)
    ensures InvertLowestOne(x * Two(j) + a) == x * Two(j) + InvertLowestOne(a)
    decreases j
  {
    hide InvertLowestOne;
    DoubleTwo(x, j);
    InvertStep(x * Two(j) + a);
    InvertStep(a);
    if a % 2 == 0 { InvertAbove(x, j - 1, a / 2); }
  }

  // ---------------------------------------------------------------- how many steps a walk takes

  /** A skip is followed if it does not go too far, unless one step back first leads much further. */
  predicate Follows(h: int, t: int) {
    GetSkipHeight(h) == t || (GetSkipHeight(h) > t && !(GetSkipHeight(h - 1) < GetSkipHeight(h) - 2 && GetSkipHeight(h - 1) >= t))
  }

  /** Steps from a height to another below it when all skips are there. */
  ghost function Steps(h: nat, t: nat): nat {
    if h <= t then 0 else 1 + Steps(if Follows(h, t) then GetSkipHeight(h) else h - 1, t)
  }

  /** The ones of a number. */
  ghost function Ones(a: nat): nat {
    if a == 0 then 0 else
    InvertLower(a);
    1 + Ones(InvertLowestOne(a))
  }

  lemma {:induction false} OnesDouble(a: nat)
    ensures Ones(2 * a) == Ones(a)
  {
    if a > 0 {
      InvertStep(2 * a);
      InvertLower(a);
      OnesDouble(InvertLowestOne(a));
    }
  }

  lemma {:induction false} OnesBound(a: nat, j: nat)
    requires a < Two(j)
    ensures Ones(a) <= j
    decreases j
  {
    if a > 0 {
      OnesBound(a / 2, j - 1);
      if a % 2 == 0 {
        OnesDouble(a / 2);
      } else {
        InvertStep(a);
        OnesDouble(a / 2);
        assert InvertLowestOne(a) == 2 * (a / 2);
      }
    }
  }

  /** The bound for a block of 2^k heights. */
  function StepBound(k: nat): nat { 3 * k * (k + 1) / 2 }

  lemma BoundMore(k: nat)
    requires k > 0
    ensures StepBound(k) == StepBound(k - 1) + 3 * k
  {
    assert 3 * k * (k + 1) == 3 * (k - 1) * k + 2 * (3 * k);
  }

  lemma NearSteps(x: nat, t: nat)
    requires x <= t + 1
    ensures Steps(x, t) <= 1
  {
  }

  lemma LowTwo(a: nat)
    requires a % 4 == 2
    ensures InvertLowestOne(a) == a - 2
  {
    hide InvertLowestOne;
    InvertStep(a);
    InvertStep(a / 2);
  }

  lemma LowFour(a: nat)
    requires a % 8 == 4
    ensures InvertLowestOne(a) == a - 4
  {
    hide InvertLowestOne;
    InvertStep(a);
    InvertStep(a / 2);
    InvertStep(a / 4);
  }

  lemma LowEight(a: nat)
    requires a > 0 && a % 8 == 0
    ensures InvertLowestOne(a) <= a - 8
  {
    hide InvertLowestOne;
    InvertStep(a);
    InvertStep(a / 2);
    InvertStep(a / 4);
    InvertLower(a / 8);
  }

  lemma Residues(a: nat)
    requires a > 2 && a % 2 == 0 && a % 4 != 2
    ensures (a - 2) % 4 == 2 && if a % 8 == 4 then true else a >= 8 && a % 8 == 0 && (a - 4) % 8 == 4
  {
  }

  lemma OnesLess(a: nat)
    requires a > 0
    ensures Ones(InvertLowestOne(a)) == Ones(a) - 1 && InvertLowestOne(a) < a
  {
    InvertLower(a);
    hide InvertLowestOne;
  }

  /** What the step back gains when it is preferred to an even height's own skip. */
  lemma Preferred(a: nat)
    requires a > 2 && a % 2 == 0 && InvertLowestOne(a - 2) > 0 && InvertLowestOne(InvertLowestOne(a - 2)) < InvertLowestOne(a) - 3
    ensures Ones(InvertLowestOne(InvertLowestOne(a - 2))) + 1 <= Ones(a)
  {
    hide InvertLowestOne, Ones;
    var low := InvertLowestOne(a - 2);
    OnesLess(a - 2);
    OnesLess(low);
    if a % 4 == 2 {
      LowTwo(a);
      OnesLess(a);
    } else {
      Residues(a);
      LowTwo(a - 2);
      if a % 8 == 4 {
        LowFour(a);
        OnesLess(a);
      } else {
        LowFour(a - 4);
        LowEight(a);
      }
    }
  }

  /** The lowest height of block c of 2^k heights. */
  function Low(c: nat, k: nat): nat { c * Two(k) }

  function Middle(c: nat, k: nat): nat
    requires k > 0
  {
    Low(2 * c + 1, k - 1)
  }

  /** The two halves of a block, and its middle. */
  lemma Halves(c: nat, k: nat)
    requires k > 0
    ensures Low(c, k) == Low(2 * c, k - 1) && Low(c + 1, k) == Low(2 * c + 2, k - 1)
    ensures Middle(c, k) == Low(c, k) + Two(k - 1) && Low(c + 1, k) == Middle(c, k) + Two(k - 1)
  {
  }

  lemma MiddleEven(c: nat, k: nat)
    requires k >= 2
    ensures Middle(c, k) % 2 == 0 && Middle(c, k) >= 2
  {
    DoubleTwo(2 * c + 1, k - 1);
    InvertPositive(c, k - 2);
    Twice((2 * c + 1) * Two(k - 2));
  }

  lemma Twice(x: nat)
    requires x > 0
    ensures (2 * x) % 2 == 0 && 2 * x >= 2
  {
  }

  lemma LowOnes(c: nat, h: nat, t: nat)
    requires Low(c, 0) <= t <= h < Low(c + 1, 0)
    ensures h == t
  {
  }

  lemma {:induction false} InBlock(k: nat, c: nat, h: nat, t: nat)
    requires Low(c, k) <= t <= h < Low(c + 1, k)
    ensures Steps(h, t) <= StepBound(k)
    decreases k, h, 9
  {
    hide Steps, StepBound, Low, Two, Ones;
    if k == 0 {
      LowOnes(c, h, t);
      SameSteps(h);
    } else {
      Halves(c, k);
      BoundMore(k);
      var m := Middle(c, k);
      if h < m {
        InBlock(k - 1, 2 * c, h, t);
      } else if t >= m {
        InBlock(k - 1, 2 * c + 1, h, t);
      } else if k == 1 {
        TwoZero();
        NearSteps(h, t);
      } else {
        Upper(k, c, h, t);
        OnesBound(if (h - m) % 2 == 0 then h - m else h - m - 1, k - 1);
      }
    }
  }

  lemma SameSteps(h: nat)
    ensures Steps(h, h) == 0
  {
  }

  lemma TwoZero()
    ensures Two(0) == 1
  {
  }

  /** A height in the upper half of a block and one in the lower. */
  predicate Apart(k: nat, c: nat, h: nat, t: nat) {
    k >= 2 && Low(c, k) <= t < Middle(c, k) <= h < Middle(c, k) + Two(k - 1)
  }

  /** From the upper half of a block to the lower. */
  lemma {:induction false} Upper(k: nat, c: nat, h: nat, t: nat)
    requires Apart(k, c, h, t)
    ensures var a := h - Middle(c, k);
      if a % 2 == 0 then Steps(h, t) <= StepBound(k - 1) + 3 * Ones(a) + 1 else Steps(h, t) <= StepBound(k - 1) + 3 * Ones(a - 1) + 2
    decreases k, h, 5
  {
    var a := h - Middle(c, k);
    hide Steps, StepBound, Middle, Ones, Low, Two;
    if a == 0 {
      OnesNone();
      UpperMiddle(k, c, t);
    } else if a % 2 == 1 {
      UpperOdd(k, c, h, t);
    } else {
      UpperEven(k, c, h, t);
    }
  }

  lemma StepOf(h: nat, t: nat)
    requires h > t
    ensures GetSkipHeight(h) >= 0
    ensures Follows(h, t) ==> Steps(h, t) == 1 + Steps(GetSkipHeight(h), t)
    ensures !Follows(h, t) ==> Steps(h, t) == 1 + Steps(h - 1, t)
  {
    hide GetSkipHeight, Follows;
  }

  lemma MiddleSkip(c: nat, k: nat)
    requires k >= 2
    ensures GetSkipHeight(Middle(c, k)) == Low(c, k) && InvertLowestOne(Middle(c, k)) == Low(c, k)
  {
    SkipsEven(c, k - 1);
    InvertIs(c, k - 1);
    Halves(c, k);
  }

  lemma {:induction false} UpperMiddle(k: nat, c: nat, t: nat)
    requires k >= 2 && Low(c, k) <= t < Middle(c, k)
    ensures Steps(Middle(c, k), t) <= StepBound(k - 1) + 1
    decreases k, 0, 0
  {
    var m := Middle(c, k);
    MiddleSkip(c, k);
    hide Steps, StepBound, GetSkipHeight, Low, Two;
    Halves(c, k);
    StepOf(m, t);
    if Follows(m, t) {
      NearSteps(t, t);
    } else {
      InBlock(k - 1, 2 * c, m - 1, t);
    }
  }

  /** Below the middle the middle has no part in clearing ones. */
  lemma InvertUpper(k: nat, c: nat, x: nat)
    requires k >= 2 && 0 < x < Two(k - 1)
    ensures InvertLowestOne(Middle(c, k) + x) == Middle(c, k) + InvertLowestOne(x)
  {
    InvertAbove(2 * c + 1, k - 1, x);
  }

  /** Where clearing two ones leads from the middle and some. */
  lemma TwoCleared(k: nat, c: nat, x: nat)
    requires k >= 2 && x < Two(k - 1)
    ensures var y := InvertLowestOne(InvertLowestOne(Middle(c, k) + x));
      && (x > 0 && InvertLowestOne(x) > 0 ==> y == Middle(c, k) + InvertLowestOne(InvertLowestOne(x)))
      && (x == 0 || InvertLowestOne(x) == 0 ==> y <= Low(c, k))
      && InvertLowestOne(Middle(c, k) + x) >= y
  {
    hide InvertLowestOne, Two, Low, Middle;
    MiddleSkip(c, k);
    InvertZero();
    Halves(c, k);
    if Low(c, k) > 0 { InvertLower(Low(c, k)); }
    if x > 0 {
      InvertUpper(k, c, x);
      InvertLower(x);
      if InvertLowestOne(x) > 0 {
        InvertUpper(k, c, InvertLowestOne(x));
        InvertLower(InvertLowestOne(x));
      }
    }
  }

  /** Clearing two ones keeps a number even. */
  lemma TwoClearedEven(x: nat)
    requires x % 2 == 0 && x > 0 && InvertLowestOne(x) > 0
    ensures var z := InvertLowestOne(InvertLowestOne(x)); z % 2 == 0 && z < x && Ones(z) == Ones(x) - 2
  {
    InvertLower(x);
    InvertLower(InvertLowestOne(x));
    hide InvertLowestOne;
    OnesLess(x);
    OnesLess(InvertLowestOne(x));
  }

  /** An odd height follows its skip unless that goes too far. */
  lemma OddFollows(h: nat, t: nat)
    requires h >= 3 && h % 2 == 1 && InvertLowestOne(h - 1) >= InvertLowestOne(InvertLowestOne(h - 1))
    ensures GetSkipHeight(h) == InvertLowestOne(InvertLowestOne(h - 1)) + 1
    ensures Follows(h, t) <==> InvertLowestOne(InvertLowestOne(h - 1)) + 1 >= t
  {
    SkipOfOdd(h / 2);
    SkipOfEven(h / 2);
    hide GetSkipHeight, InvertLowestOne;
  }

  /** Where the skip of an odd height leads: two ones of it are cleared, or it comes near the lowest height. */
  ghost predicate Lands(k: nat, c: nat, x: nat, y: nat)
    requires k > 0
  {
    y <= Low(c, k) || (y >= Middle(c, k) && var z := y - Middle(c, k); z % 2 == 0 && z < x && Ones(z) <= Ones(x) - 2)
  }

  lemma OddLands(k: nat, c: nat, x: nat)
    requires k >= 2 && x < Two(k - 1) && x % 2 == 0
    ensures Lands(k, c, x, InvertLowestOne(InvertLowestOne(Middle(c, k) + x)))
    ensures InvertLowestOne(Middle(c, k) + x) >= InvertLowestOne(InvertLowestOne(Middle(c, k) + x))
  {
    hide InvertLowestOne, Two, Low, Middle, Ones;
    TwoCleared(k, c, x);
    if x > 0 && InvertLowestOne(x) > 0 { TwoClearedEven(x); }
  }

  lemma OddStep(k: nat, c: nat, h: nat, t: nat) returns (y: nat)
    requires Apart(k, c, h, t) && (h - Middle(c, k)) % 2 == 1
    ensures Lands(k, c, h - Middle(c, k) - 1, y)
    ensures Steps(h, t) == 1 + if y + 1 >= t then Steps(y + 1, t) else Steps(h - 1, t)
    ensures GetSkipHeight(h) == y + 1
  {
    hide InvertLowestOne, Ones, StepBound, GetSkipHeight, Middle, Low, Two, Steps, Follows, Lands;
    MiddleEven(c, k);
    OddLands(k, c, h - Middle(c, k) - 1);
    OddFollows(h, t);
    StepOf(h, t);
    y := InvertLowestOne(InvertLowestOne(h - 1));
  }

  lemma {:induction false} UpperOdd(k: nat, c: nat, h: nat, t: nat)
    requires Apart(k, c, h, t) && (h - Middle(c, k)) % 2 == 1
    ensures Steps(h, t) <= StepBound(k - 1) + 3 * Ones(h - Middle(c, k) - 1) + 2
    decreases k, h, 4
  {
    hide Ones, StepBound, Middle, Low, Two, Steps;
    var m := Middle(c, k);
    var y := OddStep(k, c, h, t);
    hide Lands;
    if y + 1 < t {
      var x := h - m - 1;
      Neighbours(x);
      assert h - 1 - m == x;
      Upper(k, c, h - 1, t);
    } else {
      LandsIs(k, c, h - m - 1, y);
      if y <= Low(c, k) {
        NearSteps(y + 1, t);
      } else {
        var z := y - m;
        Neighbours(z);
        assert y + 1 - m == z + 1;
        Upper(k, c, y + 1, t);
      }
    }
  }

  lemma LandsIs(k: nat, c: nat, x: nat, y: nat)
    requires k > 0 && Lands(k, c, x, y)
    ensures y <= Low(c, k) || (y >= Middle(c, k) && (y - Middle(c, k)) % 2 == 0 && y - Middle(c, k) < x && Ones(y - Middle(c, k)) + 2 <= Ones(x))
  {
    hide Ones, Low, Middle;
  }

  lemma Neighbours(z: nat)
    ensures z % 2 == 0 <==> (z + 1) % 2 == 1
  {
  }

  lemma EvenSkip(k: nat, c: nat, a: nat)
    requires k >= 2 && 0 < a < Two(k - 1) && a % 2 == 0
    ensures GetSkipHeight(Middle(c, k) + a) == Middle(c, k) + InvertLowestOne(a) && InvertLowestOne(a) < a && InvertLowestOne(a) % 2 == 0
  {
    hide InvertLowestOne, GetSkipHeight, Two, Middle, Low;
    MiddleEven(c, k);
    InvertUpper(k, c, a);
    InvertLower(a);
    var n := (Middle(c, k) + a) / 2;
    assert 2 * n == Middle(c, k) + a;
    SkipOfEven(n);
  }

  lemma {:induction false} UpperEven(k: nat, c: nat, h: nat, t: nat)
    requires Apart(k, c, h, t) && h > Middle(c, k) && (h - Middle(c, k)) % 2 == 0
    ensures Steps(h, t) <= StepBound(k - 1) + 3 * Ones(h - Middle(c, k)) + 1
    decreases k, h, 4
  {
    var m := Middle(c, k);
    var a := h - m;
    hide InvertLowestOne, Ones, StepBound, GetSkipHeight, Middle, Low, Two, Steps, Follows;
    EvenSkip(k, c, a);
    OnesLess(a);
    StepOf(h, t);
    if Follows(h, t) {
      Upper(k, c, m + InvertLowestOne(a), t);
    } else {
      StepBackFirst(k, c, h, t);
    }
  }

  lemma NotFollowed(h: nat, t: nat)
    requires !Follows(h, t) && GetSkipHeight(h) > t
    ensures t <= GetSkipHeight(h - 1) < GetSkipHeight(h) - 2
  {
    hide GetSkipHeight;
  }

  /** Where the step back and its skip lead. */
  lemma BackLands(k: nat, c: nat, a: nat)
    requires k >= 2 && 2 <= a < Two(k - 1) && a % 2 == 0
    requires InvertLowestOne(InvertLowestOne(Middle(c, k) + (a - 2))) + 1 < Middle(c, k) + InvertLowestOne(a) - 2
    ensures var y := InvertLowestOne(InvertLowestOne(Middle(c, k) + (a - 2)));
      y <= Low(c, k) || (y >= Middle(c, k) && var z := y - Middle(c, k); z % 2 == 0 && z < a - 1 && Ones(z) < Ones(a))
  {
    hide InvertLowestOne, Ones, Middle, Low, Two;
    TwoCleared(k, c, a - 2);
    if a > 2 && InvertLowestOne(a - 2) > 0 {
      Preferred(a);
      TwoClearedEven(a - 2);
    }
  }

  lemma BackSteps(h: nat, t: nat)
    requires h >= 4 && h % 2 == 0 && h - 1 > t && !Follows(h, t) && GetSkipHeight(h) > t && InvertLowestOne(h - 2) >= InvertLowestOne(InvertLowestOne(h - 2))
    ensures var y := InvertLowestOne(InvertLowestOne(h - 2));
      Steps(h, t) == 2 + Steps(y + 1, t) && t <= y + 1 < GetSkipHeight(h) - 2
  {
    hide InvertLowestOne, GetSkipHeight, Steps, Follows;
    NotFollowed(h, t);
    OddFollows(h - 1, t);
    StepOf(h, t);
    StepOf(h - 1, t);
  }

  lemma BackStep(k: nat, c: nat, h: nat, t: nat) returns (y: nat)
    requires Apart(k, c, h, t) && h > Middle(c, k) && (h - Middle(c, k)) % 2 == 0 && !Follows(h, t)
    ensures Steps(h, t) == 2 + Steps(y + 1, t) && y + 1 >= t
    ensures y <= Low(c, k) || (y >= Middle(c, k) && var z := y - Middle(c, k); z % 2 == 0 && z < h - Middle(c, k) - 1 && Ones(z) < Ones(h - Middle(c, k)))
  {
    hide InvertLowestOne, Ones, GetSkipHeight, Middle, Low, Two, Steps, Follows;
    var m := Middle(c, k);
    var a := h - m;
    MiddleEven(c, k);
    EvenSkip(k, c, a);
    TwoCleared(k, c, a - 2);
    assert m + (a - 2) == h - 2;
    BackSteps(h, t);
    BackLands(k, c, a);
    y := InvertLowestOne(InvertLowestOne(h - 2));
  }

  lemma {:induction false} StepBackFirst(k: nat, c: nat, h: nat, t: nat)
    requires Apart(k, c, h, t) && h > Middle(c, k) && (h - Middle(c, k)) % 2 == 0 && !Follows(h, t)
    ensures Steps(h, t) <= StepBound(k - 1) + 3 * Ones(h - Middle(c, k)) + 1
    decreases k, h, 3
  {
    hide Ones, StepBound, Middle, Low, Two, Steps, Follows;
    var y := BackStep(k, c, h, t);
    if y <= Low(c, k) {
      NearSteps(y + 1, t);
      OnesSome(h - Middle(c, k));
    } else {
      Upper(k, c, y + 1, t);
    }
  }

  lemma OnesNone()
    ensures Ones(0) == 0
  {
  }

  lemma OnesSome(a: nat)
    requires a > 0
    ensures Ones(a) >= 1
  {
  }

  lemma StepsNext(h: nat, t: nat)
    requires h > t
    ensures Steps(h, t) == 1 + Steps(if Follows(h, t) then GetSkipHeight(h) else h - 1, t)
  {
  }

  lemma StepsDone(h: nat)
    ensures Steps(h, h) == 0
  {
  }

  /** From a height below 2^k any ancestor is at most 3k(k+1)/2 steps away. */
  lemma StepsBound(h: nat, t: nat, k: nat)
    requires t <= h < Two(k)
    ensures Steps(h, t) <= 3 * k * (k + 1) / 2
  {
    InBlock(k, 0, h, t);
  }

  lemma WithinBound(h: nat, t: nat, k: nat)
    requires t <= h < Two(k)
    ensures Steps(h, t) <= StepBound(k)
  {
    StepsBound(h, t, k);
  }

  // ---------------------------------------------------------------- block index

  class BlockIndex {
    const pprev: BlockIndex?
    const nHeight: nat
    var pskip: BlockIndex?

    /** This block and all its ancestors. */
    ghost const line: set<BlockIndex>

    constructor (pprev: BlockIndex?)
      requires pprev != null ==> pprev.Linked()
      ensures this.pprev == pprev && pskip == null && Linked()
    {
      this.pprev := pprev;
      this.pskip := null;
      this.nHeight := if pprev == null then 0 else pprev.nHeight + 1;
      this.line := {this} + if pprev == null then {} else pprev.line;
    }

    /** Heights count the predecessors, and the line collects them. */
    ghost predicate Linked()
      decreases nHeight
    {
      if pprev == null then nHeight == 0 && line == {this}
      else nHeight > 0 && pprev.nHeight == nHeight - 1 && line == {this} + pprev.line && pprev.Linked()
    }

    /** The ancestor at a height: follow predecessors nHeight - height times. */
    ghost function AncestorAt(height: nat): (r: BlockIndex)
      requires Linked() && height <= nHeight
      ensures r.nHeight == height && r.Linked()
      decreases nHeight
    {
      if height == nHeight then this else pprev.AncestorAt(height)
    }

    /** A skip pointer, if set, leads to the ancestor at the skip height. */
    ghost predicate SkipOk()
      requires Linked()
      reads this
    {
      pskip != null ==> nHeight > 0 && pskip == AncestorAt(GetSkipHeight(nHeight))
    }

    /** The skip pointers of the whole line are right. */
    ghost predicate SkipsOk()
      requires Linked()
      reads line
      decreases nHeight
    {
      SkipOk() && (pprev != null ==> pprev.SkipsOk())
    }

    /** All blocks of the line above genesis have their skip pointer. */
    ghost predicate SkipsSet()
      requires Linked()
      reads line
      decreases nHeight
    {
      (nHeight > 0 ==> pskip != null) && (pprev != null ==> pprev.SkipsSet())
    }

    lemma {:induction false} SetBelow(height: nat)
      requires Linked() && SkipsSet() && height <= nHeight
      ensures AncestorAt(height).SkipsSet()
      decreases nHeight
    {
      if height < nHeight { pprev.SetBelow(height); }
    }

    lemma {:induction false} SkipsBelow(height: nat)
      requires Linked() && SkipsOk() && height <= nHeight
      ensures AncestorAt(height).SkipsOk()
      decreases nHeight
    {
      if height < nHeight { pprev.SkipsBelow(height); }
    }

    lemma {:induction false} LineLinked(b: BlockIndex)
      requires Linked() && b in line
      ensures b.Linked() && b.nHeight <= nHeight && AncestorAt(b.nHeight) == b
      decreases nHeight
    {
      if b != this { pprev.LineLinked(b); }
    }

    lemma {:induction false} AncestorInLine(height: nat)
      requires Linked() && height <= nHeight
      ensures AncestorAt(height) in line && AncestorAt(height).line <= line
      decreases nHeight
    {
      if height < nHeight { pprev.AncestorInLine(height); }
    }

    lemma {:induction false} AncestorTwice(h1: nat, h2: nat)
      requires Linked() && h2 <= h1 <= nHeight
      ensures AncestorAt(h1).AncestorAt(h2) == AncestorAt(h2)
      decreases nHeight
    {
      if h1 < nHeight { pprev.AncestorTwice(h1, h2); }
    }

    /** The walk over skip pointers finds what the walk over predecessors finds, in few steps if all are
        there. */
    method GetAncestor(height: int) returns (r: BlockIndex?, ghost steps: nat)
      requires Linked() && SkipsOk()
      ensures r == if height > nHeight || height < 0 then null else AncestorAt(height)
      ensures SkipsSet() ==> forall k: nat :: nHeight < Two(k) ==> steps <= StepBound(k)
    {
      hide Steps, GetSkipHeight, Two, StepBound;
      steps := 0;
      if height > nHeight || height < 0 { return null, 0; }
      var pindexWalk: BlockIndex := this;
      var heightWalk := nHeight;
      while heightWalk > height
        invariant height <= heightWalk <= nHeight && pindexWalk == AncestorAt(heightWalk)
        invariant SkipsSet() ==> steps + Steps(heightWalk, height) == Steps(nHeight, height)
        decreases heightWalk - height
      {
        var heightSkip := GetSkipHeight(heightWalk);
        var heightSkipPrev := GetSkipHeight(heightWalk - 1);
        SkipsBelow(heightWalk);
        if SkipsSet() {
          SetBelow(heightWalk);
          StepsNext(heightWalk, height);
        }
        steps := steps + 1;
        if pindexWalk.pskip != null &&
           (heightSkip == height || (heightSkip > height && !(heightSkipPrev < heightSkip - 2 && heightSkipPrev >= height))) {
          AncestorTwice(heightWalk, heightSkip);
          pindexWalk := pindexWalk.pskip;
          heightWalk := heightSkip;
        } else {
          assert pindexWalk.pprev != null;
          AncestorTwice(heightWalk, heightWalk - 1);
          pindexWalk := pindexWalk.pprev;
          heightWalk := heightWalk - 1;
        }
      }
      if SkipsSet() {
        StepsDone(height);
        forall k: nat | nHeight < Two(k) ensures steps <= StepBound(k) { WithinBound(nHeight, height, k); }
      }
      return pindexWalk, steps;
    }

    /** Sets the skip pointer from those of the ancestors. */
    method BuildSkip()
      requires Linked() && (pprev != null ==> pprev.SkipsOk()) && (pprev == null ==> pskip == null)
      modifies this`pskip
      ensures SkipsOk() && (pprev != null ==> pskip != null)
      ensures (pprev != null ==> pprev.SkipsSet()) ==> SkipsSet()
    {
      if pprev != null {
        NotInLine();
        var s, _ := pprev.GetAncestor(GetSkipHeight(nHeight));
        assert AncestorAt(GetSkipHeight(nHeight)) == pprev.AncestorAt(GetSkipHeight(nHeight));
        pskip := s;
      }
    }

    lemma NotInLine()
      requires Linked() && pprev != null
      ensures this !in pprev.line
    {
      if this in pprev.line { pprev.LineLinked(this); }
    }
  }

  // ---------------------------------------------------------------- the active chain

  /** A table of blocks by height is the line of its last entry. */
  ghost predicate IsLine(vChain: seq<BlockIndex?>) {
    forall i :: 0 <= i < |vChain| ==>
      && vChain[i] != null && vChain[i].Linked() && vChain[i].nHeight == i
      && (i > 0 ==> vChain[i].pprev == vChain[i - 1])
  }

  lemma {:induction false} LineAncestors(vChain: seq<BlockIndex?>, i: nat, j: nat)
    requires IsLine(vChain) && i <= j < |vChain|
    ensures vChain[j] != null && vChain[j].Linked() && vChain[j].nHeight == j && vChain[j].AncestorAt(i) == vChain[i]
  {
    if i < j { LineAncestors(vChain, i, j - 1); }
  }

  /** From the height where the walk met the old table downward, that table holds the new line too. */
  lemma TipLine(before: seq<BlockIndex?>, now: seq<BlockIndex?>, pindex: BlockIndex, low: int)
    requires IsLine(before) && pindex.Linked() && |now| == pindex.nHeight + 1 && -1 <= low <= pindex.nHeight
    requires low >= 0 ==> low < |before| && before[low] == pindex.AncestorAt(low)
    requires forall i :: low < i < |now| ==> now[i] == pindex.AncestorAt(i)
    requires forall i :: 0 <= i <= low && i < |before| ==> now[i] == before[i]
    ensures IsLine(now) && forall i :: 0 <= i <= pindex.nHeight ==> now[i] == pindex.AncestorAt(i)
  {
    forall i | 0 <= i < |now|
      ensures now[i] == pindex.AncestorAt(i)
    {
      if i <= low {
        LineAncestors(before, i, low);
        pindex.AncestorTwice(low, i);
      }
    }
    forall i | 0 < i < |now|
      ensures pindex.AncestorAt(i).pprev == pindex.AncestorAt(i - 1)
    {
      pindex.AncestorTwice(i, i - 1);
    }
  }

  class ActiveChain {
    var vChain: seq<BlockIndex?>

    function At(nHeight: int): BlockIndex?
      reads this
    {
      if nHeight < 0 || nHeight >= |vChain| then null else vChain[nHeight]
    }

    predicate Contains(pindex: BlockIndex)
      reads this
    {
      At(pindex.nHeight) == pindex
    }

    function Height(): int
      reads this
    {
      |vChain| - 1
    }

    /** Makes the line of a block the active chain, stopping where it meets the old one. */
    method SetTip(pindex: BlockIndex?)
      requires IsLine(vChain) && (pindex != null ==> pindex.Linked())
      modifies this
      ensures IsLine(vChain)
      ensures pindex == null ==> vChain == []
      ensures pindex != null ==> |vChain| == pindex.nHeight + 1
      ensures pindex != null ==> forall i :: 0 <= i <= pindex.nHeight ==> vChain[i] == pindex.AncestorAt(i)
    {
      if pindex == null {
        vChain := [];
        return;
      }
      var n := pindex.nHeight + 1;
      var before := vChain;
      vChain := if n <= |vChain| then vChain[..n] else vChain + seq(n - |vChain|, _ => null);
      var walk: BlockIndex? := pindex;
      ghost var low: int := pindex.nHeight;
      while walk != null && vChain[walk.nHeight] != walk
        invariant |vChain| == n && -1 <= low <= pindex.nHeight
        invariant if walk == null then low == -1 else low >= 0 && walk == pindex.AncestorAt(low)
        invariant forall i :: low < i < n ==> vChain[i] == pindex.AncestorAt(i)
        invariant forall i :: 0 <= i <= low ==> vChain[i] == if i < |before| then before[i] else null
        decreases low
      {
        vChain := vChain[walk.nHeight := walk];
        if walk.pprev != null { pindex.AncestorTwice(low, low - 1); }
        walk := walk.pprev;
        low := low - 1;
      }
      TipLine(before, vChain, pindex, low);
    }

    /** The last common block of this chain and a block's line. */
    method FindFork(pindex: BlockIndex?) returns (r: BlockIndex?)
      requires IsLine(vChain) && (pindex != null ==> pindex.Linked() && pindex.SkipsOk())
      ensures pindex == null ==> r == null
      ensures pindex != null && r != null ==> r in pindex.line && Contains(r)
      ensures pindex != null ==>
                forall b :: b in pindex.line && Contains(b) ==> r != null && b.nHeight <= r.nHeight && b in r.line
    {
      if pindex == null { return null; }
      r := pindex;
      if pindex.nHeight > Height() {
        var ancestor, _ := pindex.GetAncestor(Height());
        r := ancestor;
      }
      ghost var low := if pindex.nHeight > Height() then Height() else pindex.nHeight;
      forall b | b in pindex.line && b.nHeight > low
        ensures !Contains(b)
      {
        pindex.LineLinked(b);
      }
      while r != null && !Contains(r)
        invariant -1 <= low <= pindex.nHeight
        invariant if r == null then low == -1 else low >= 0 && r == pindex.AncestorAt(low)
        invariant forall b :: b in pindex.line && b.nHeight > low ==> !Contains(b)
        decreases low
      {
        if r.pprev != null { pindex.AncestorTwice(low, low - 1); }
        forall b | b in pindex.line && b.nHeight > low - 1
          ensures !Contains(b)
        {
          pindex.LineLinked(b);
        }
        r := r.pprev;
        low := low - 1;
      }
      if r != null { pindex.AncestorInLine(low); }
      forall b | b in pindex.line && Contains(b)
        ensures r != null && b.nHeight <= r.nHeight && b in r.line
      {
        pindex.LineLinked(b);
        pindex.AncestorTwice(low, b.nHeight);
        r.AncestorInLine(b.nHeight);
      }
    }

    /** Blocks from a given one, or the tip, back to genesis, in steps that grow after ten. */
    method GetLocator(from: BlockIndex?) returns (vHave: seq<BlockIndex>)
      requires IsLine(vChain) && (from != null ==> from.Linked() && from.SkipsOk())
      requires from == null && vChain != [] ==> vChain[|vChain| - 1].SkipsOk()
      ensures var start := if from == null then At(Height()) else from;
              if start == null then vHave == []
              else start.Linked() && var hs := LocatorHeights(start.nHeight, 1, 0);
                   Fits(hs, start.nHeight) && vHave == Located(start, hs)
    {
      vHave := [];
      var start: BlockIndex? := if from == null then At(Height()) else from;
      if start == null { return; }
      var nStep := 1;
      var pindex: BlockIndex := start;
      ghost var goal := LocatorHeights(start.nHeight, 1, 0);
      HeightsFit(start.nHeight, 1, 0);
      assert Listing(start, goal, vHave, goal);
      hide Listing;
      hide LocatorHeights, Located, Fits, IsLine;
      while true
        invariant pindex.nHeight <= start.nHeight && pindex == start.AncestorAt(pindex.nHeight) && nStep >= 1
        invariant Listing(start, goal, vHave, LocatorHeights(pindex.nHeight, nStep, |vHave|))
        decreases pindex.nHeight
      {
        ListNext(start, goal, vHave, pindex, nStep);
        vHave := vHave + [pindex];
        if pindex.nHeight == 0 { break; }
        var nHeight := if pindex.nHeight - nStep > 0 then pindex.nHeight - nStep else 0;
        pindex := StepBack(start, pindex, nHeight);
        if |vHave| > 10 { nStep := nStep * 2; }
      }
    }

    /** An ancestor, read from the table if the block is on this chain. */
    method StepBack(ghost start: BlockIndex, pindex: BlockIndex, nHeight: nat) returns (r: BlockIndex)
      requires IsLine(vChain) && start.Linked() && start.SkipsOk()
      requires nHeight <= pindex.nHeight <= start.nHeight && pindex == start.AncestorAt(pindex.nHeight)
      ensures r == start.AncestorAt(nHeight)
    {
      start.AncestorTwice(pindex.nHeight, nHeight);
      if Contains(pindex) {
        LineAncestors(vChain, nHeight, pindex.nHeight);
        r := At(nHeight);
      } else {
        start.SkipsBelow(pindex.nHeight);
        var ancestor, _ := pindex.GetAncestor(nHeight);
        r := ancestor;
      }
    }
  }

  // ---------------------------------------------------------------- locators

  /** Heights of a locator's blocks: steps of `step`, doubled from the eleventh block on. */
  function LocatorHeights(height: nat, step: nat, count: nat): seq<nat>
    requires step >= 1
    decreases height
  {
    if height == 0 then [0] else
    [height] + LocatorHeights(if height - step > 0 then height - step else 0, if count + 1 > 10 then 2 * step else step, count + 1)
  }

  predicate Fits(heights: seq<nat>, top: nat) {
    forall i :: 0 <= i < |heights| ==> heights[i] <= top
  }

  ghost function Located(b: BlockIndex, heights: seq<nat>): seq<BlockIndex>
    requires b.Linked() && Fits(heights, b.nHeight)
  {
    seq(|heights|, i requires 0 <= i < |heights| => b.AncestorAt(heights[i]))
  }

  lemma LocatedHead(b: BlockIndex, heights: seq<nat>)
    requires b.Linked() && Fits(heights, b.nHeight) && |heights| > 0
    ensures Fits(heights[1..], b.nHeight)
    ensures Located(b, heights) == [b.AncestorAt(heights[0])] + Located(b, heights[1..])
  {
  }

  /** The blocks listed so far and those at the heights that are left make up the locator. */
  ghost predicate Listing(start: BlockIndex, goal: seq<nat>, vHave: seq<BlockIndex>, rest: seq<nat>)
    requires start.Linked()
  {
    Fits(goal, start.nHeight) && Fits(rest, start.nHeight) && vHave + Located(start, rest) == Located(start, goal)
  }

  lemma ListNext(start: BlockIndex, goal: seq<nat>, vHave: seq<BlockIndex>, b: BlockIndex, step: nat)
    requires start.Linked() && step >= 1 && b.nHeight <= start.nHeight && b == start.AncestorAt(b.nHeight)
    requires Listing(start, goal, vHave, LocatorHeights(b.nHeight, step, |vHave|))
    ensures b.nHeight == 0 ==> Fits(goal, start.nHeight) && vHave + [b] == Located(start, goal)
    ensures b.nHeight > 0 ==> Listing(start, goal, vHave + [b],
      LocatorHeights(if b.nHeight - step > 0 then b.nHeight - step else 0, if |vHave| + 1 > 10 then 2 * step else step, |vHave| + 1))
  {
    var rest := LocatorHeights(b.nHeight, step, |vHave|);
    HeightsFit(b.nHeight, step, |vHave|);
    LocatedHead(start, rest);
    if b.nHeight > 0 {
      var next := LocatorHeights(if b.nHeight - step > 0 then b.nHeight - step else 0, if |vHave| + 1 > 10 then 2 * step else step, |vHave| + 1);
      assert rest == [b.nHeight] + next;
      assert rest[1..] == next;
    } else {
      assert rest == [0] && rest[1..] == [];
    }
    hide LocatorHeights;
    assert vHave + ([b] + Located(start, rest[1..])) == vHave + [b] + Located(start, rest[1..]);
  }

  /** Locator heights start at the given height, fall strictly, and end at genesis. */
  lemma {:induction false} HeightsFit(height: nat, step: nat, count: nat)
    requires step >= 1
    ensures var hs := LocatorHeights(height, step, count);
            && |hs| > 0 && hs[0] == height && hs[|hs| - 1] == 0 && Fits(hs, height)
            && forall i, j :: 0 <= i < j < |hs| ==> hs[i] > hs[j]
    decreases height
  {
    if height > 0 {
      HeightsFit(if height - step > 0 then height - step else 0, if count + 1 > 10 then 2 * step else step, count + 1);
    }
  }

  /** How far back the i-th entry of a locator lies: one more each time for the first eleven, then twice as
      far beyond nine each time. */
  function Back(i: nat): nat { if i <= 10 then i else 9 + Two(i - 10) }

  /** The step after so many entries. */
  function Gap(count: nat): nat { if count <= 10 then 1 else Two(count - 10) }

  lemma BackNext(i: nat)
    ensures Back(i + 1) == Back(i) + Gap(i) && Gap(i) >= 1 && Gap(i + 1) == if i + 1 > 10 then 2 * Gap(i) else Gap(i)
  {
  }

  lemma {:induction false} HeightsFrom(height: nat, count: nat, i: nat)
    requires Gap(count) >= 1 && i < |LocatorHeights(height, Gap(count), count)|
    ensures Back(count + i) >= Back(count)
    ensures LocatorHeights(height, Gap(count), count)[i] == Max(0, height - (Back(count + i) - Back(count)))
    decreases height
  {
    BackNext(count);
    hide Back, Gap;
    if height > 0 && i > 0 {
      var next := if height - Gap(count) > 0 then height - Gap(count) else 0;
      BackNext(count + 1);
      HeightsFrom(next, count + 1, i - 1);
      BackGrows(count + 1, count + i);
      HeightsFit(next, Gap(count + 1), count + 1);
    }
  }

  lemma {:induction false} BackGrows(a: nat, b: nat)
    requires a <= b
    ensures Back(a) <= Back(b)
  {
    if a < b {
      BackGrows(a, b - 1);
      BackNext(b - 1);
    }
  }

  /** The i-th entry lies that far back, down to genesis, which is the last. */
  lemma HeightsAre(height: nat, i: nat)
    requires i < |LocatorHeights(height, 1, 0)|
    ensures LocatorHeights(height, 1, 0)[i] == Max(0, height - Back(i))
    ensures i == |LocatorHeights(height, 1, 0)| - 1 <==> Back(i) >= height
  {
    assert Gap(0) == 1 && Back(0) == 0;
    HeightsFrom(height, 0, i);
    HeightsFit(height, 1, 0);
    hide Back, Gap, LocatorHeights;
    var hs := LocatorHeights(height, 1, 0);
    if i < |hs| - 1 { assert hs[i] > hs[|hs| - 1]; }
  }
}
