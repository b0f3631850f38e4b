/** The limit on signature operations: kept at the greatest size always, at a block's own size exactly
    when the greatest size is at most a megabyte.

    Above that an entry that failed once is judged by totals that still count an ancestor already in the
    block.  The over-estimated size can reach into the next megabyte, where the limit is higher, while
    the block itself stays below. */
module SigOps {

  import opened Packages
  import opened Templates
  import opened Selection
  import opened Scores
  import Fees

  /** A block within the limit for its own size. */
  predicate WithinOwn(b: Block) {
    b.used.size >= 0 && b.used.sigops < MaxBlockSigOps(b.used.size)
  }

  /** Every block that any pool and any order of scores can lead to is within the limit for its size. */
  ghost predicate AlwaysWithin(max: nat) {
    forall p, order, b :: Fit(p, max) && Elems(order) == p.Keys && Assembled(p, max, order, b) ==> WithinOwn(b)
  }

  /** The same for blocks whose packages are picked by the comparators. */
  ghost predicate AlwaysWithinByScore(max: nat) {
    forall p, order, b :: Fit(p, max) && AssembledByScore(p, max, order, b) ==> WithinOwn(b)
  }

  lemma OneMegabyte(size: nat)
    requires 1 <= size <= ONE_MEGABYTE
    ensures MaxBlockSigOps(size) == SIGOPS_PER_MB
  {
  }

  lemma SmallAlwaysWithin(max: nat)
    requires 1000 <= max <= ONE_MEGABYTE + 1
    ensures AlwaysWithin(max) && AlwaysWithinByScore(max)
  {
    hide Fit, Assembled, AssembledByScore, Sane, WithinOwn;
    forall p, order, b | Fit(p, max) && AssembledByScore(p, max, order, b) ensures WithinOwn(b) {
      ByScoreAssembled(p, max, order, b);
      AssembledSane(p, max, order, b);
      SaneWithin(p, max, b);
    }
    forall p, order, b | Fit(p, max) && Elems(order) == p.Keys && Assembled(p, max, order, b) ensures WithinOwn(b) {
      AssembledSane(p, max, order, b);
      SaneWithin(p, max, b);
    }
  }

  lemma SaneWithin(p: Pool, max: nat, b: Block)
    requires 1000 <= max <= ONE_MEGABYTE + 1 && Sane(p, max, b)
    ensures WithinOwn(b)
  {
    hide Totals, Sound, Closed, Finals;
    OneMegabyte(max - 1);
    if b.used.size <= ONE_MEGABYTE { OneMegabyte(b.used.size); }
  }

  // ---------------------------------------------------------------- a pool that leads beyond it

  const A := Tx(1)
  const B := Tx(2)
  const X := Tx(3)

  /** A large transaction without signature operations, a small one with many, and a child of both with
      more. */
  const POOL: Pool := map[
    A := Entry({}, {}, 499400, 0, 9988000, 0, 1, Mod(499400, 0), 9988000, true),
    B := Entry({}, {}, 100, 10000, 100, 0, 1, Mod(100, 10000), 100, true),
    X := Entry({A, B}, {A, B}, 101, 15000, 2000, 0, 3, Mod(499601, 25000), 9990100, true)]

  const ORDER: seq<Tx> := [A, X, B]

  lemma TotalsOne(p: Pool, t: Tx)
    requires t in p
    ensures Totals(p, {t}) == Weight(p[t])
  {
    hide Totals;
    TotalsNone(p);
    TotalsAdd(p, {}, t);
    assert {} + {t} == {t};
  }

  lemma PoolExact()
    ensures Exact(POOL)
  {
    hide Totals;
    TotalsOne(POOL, A);
    TotalsOne(POOL, B);
    TotalsAdd(POOL, {A}, B);
    TotalsAdd(POOL, {A} + {B}, X);
    assert Package(POOL, A) == {A} && Package(POOL, B) == {B} && Package(POOL, X) == {A} + {B} + {X};
    assert ExactAt(POOL, A) && ExactAt(POOL, B) && ExactAt(POOL, X);
  }

  lemma PoolFit(max: nat)
    requires max >= 1000
    ensures Fit(POOL, max) && Elems(ORDER) == POOL.Keys
  {
    PoolExact();
    hide Exact;
    assert LinkedAt(POOL, A) && LinkedAt(POOL, B) && LinkedAt(POOL, X);
    assert ORDER[0] == A && ORDER[1] == X && ORDER[2] == B;
  }

  function With(b: Block, t: Tx): Block
    requires t in POOL
  {
    Push(POOL, b, t)
  }

  /** The run: A enters; X, which needs B besides, has too many operations and fails; B enters alone;
      X comes back with totals that still count A, and enters. */
  function S0(): Stage { Stage(FRESH_BLOCK, map[], {}, 0) }
  function S1(): Stage { Stage(With(FRESH_BLOCK, A), map[X := Mod(201, 25000)], {}, 1) }
  function S2(): Stage { S1().(mi := 2) }
  function S3(): Stage { S2().(modified := map[], failed := {X}) }
  function S4(): Stage { Stage(With(S3().block, B), map[X := Mod(499501, 15000)], {X}, 3) }
  function S5(): Stage { Stage(With(S4().block, X), map[], {X}, 3) }

  function L0(): Ledger { Ledger(S0(), map[]) }
  function L1(): Ledger { Ledger(S1(), map[X := 2100]) }
  function L2(): Ledger { Ledger(S2(), map[X := 2100]) }
  function L3(): Ledger { Ledger(S3(), map[]) }
  function L4(): Ledger { Ledger(S4(), map[X := 9990000]) }
  function L5(): Ledger { Ledger(S5(), map[]) }

  lemma PushOne(b: Block, t: Tx)
    requires t in POOL
    ensures Elems([t]) == {t} && PushAll(POOL, b, [t]) == With(b, t) && InOrder(POOL, [t])
  {
    assert [t][..0] == [];
    assert [t][0] == t;
  }

  lemma EntersOne(max: nat, l: Ledger, t: Tx, usingModified: bool, next: Ledger)
    requires t in POOL && Rest(POOL, l.stage.block.inBlock, t) == {t} && HasRoom(max, l.stage.block.used, JudgedBy(POOL, l.stage, t, usingModified))
    requires l.stage.block.used.size + POOL[t].size < max && Deducts(POOL, l.fees, {t}, next.fees)
    requires next.stage == Stage(With(l.stage.block, t), Updated(POOL, l.stage.modified - {t}, {t}, {t}), l.stage.failed, Passed(l.stage, usingModified))
    ensures Accounted(POOL, max, l, t, usingModified, next)
  {
    hide Updated, With, HasRoom, Totals, Deducts;
    TotalsOne(POOL, t);
    PushOne(l.stage.block, t);
    assert AllFinal(POOL, {t});
    assert Enters(POOL, max, l.stage, t, usingModified, [t], next.stage);
  }

  /** The fees of the run: created for X when A enters, erased with its totals, created again when B enters. */
  lemma FeesFor(t: Tx)
    requires t == A || t == B
    ensures Deducts(POOL, map[], {t}, map[X := 9990100 - POOL[t].fee])
  {
    assert Fees.Below(POOL, t, {t}) == {X};
    var none: map<Tx, int> := map[];
    assert none - {t} == none;
    Fees.TakenFirst(POOL, t, X, {t});
    assert DeductsBy(POOL, map[], {t}, [t], map[X := 9990100 - POOL[t].fee]);
  }

  lemma FeesForX(fees: map<Tx, int>)
    requires fees.Keys <= {X}
    ensures Deducts(POOL, fees, {X}, map[])
  {
    assert Fees.Below(POOL, X, {X}) == {} && fees - {X} == map[];
    var none: map<Tx, int> := map[];
    assert [] + [X] == [X];
    hide Fees.Below;
    Fees.TakenMore(POOL, none, [], X, {X});
    assert Fees.DeductedFrom(POOL, none, X, {}) == none;
    assert DeductsBy(POOL, fees, {X}, [X], none);
  }

  lemma AfterA()
    ensures Updated(POOL, map[] - {A}, {A}, {A}) == map[X := Mod(201, 25000)]
  {
    hide Totals;
    TotalsOne(POOL, A);
    assert POOL[X].ancestors * {A} == {A};
    assert POOL[B].ancestors * {A} == {};
  }

  lemma AfterB()
    ensures Updated(POOL, map[] - {B}, {B}, {B}) == map[X := Mod(499501, 15000)]
  {
    hide Totals;
    TotalsOne(POOL, B);
    assert POOL[X].ancestors * {B} == {B};
    assert POOL[A].ancestors * {B} == {};
  }

  lemma AfterX(m: map<Tx, Mod>)
    requires m.Keys <= {X}
    ensures Updated(POOL, m - {X}, {X}, {X}) == map[]
  {
    assert m - {X} == map[];
  }

  lemma AEnters(max: nat)
    requires max > ONE_MEGABYTE + 1
    ensures ScoreRound(POOL, max, ORDER, L0(), L1())
  {
    hide Totals, Updated, With, Deducts;
    AfterA();
    FeesFor(A);
    EntersOne(max, L0(), A, false, L1());
    assert PicksByScore(POOL, ORDER, L0(), A, false);
  }

  lemma XSkipped(max: nat)
    ensures ScoreRound(POOL, max, ORDER, L1(), L2())
  {
    hide Totals, With;
    assert Skips(ORDER, S1(), S2());
  }

  lemma XRefused(max: nat)
    ensures Refused(POOL, max, S2(), X, true, S3())
  {
    hide Totals;
    assert JudgedBy(POOL, S2(), X, true) == Mod(201, 25000);
    assert S2().block.used == Mod(500400, 100);
    assert MaxBlockSigOps(500601) == SIGOPS_PER_MB;
    assert !Accepts(POOL, max, S2(), X, true);
    assert S2().modified - {X} == map[];
  }

  /** X with what it still needs comes before B. */
  lemma XBeforeB()
    ensures PicksByScore(POOL, ORDER, L2(), X, true)
  {
    hide Totals;
    assert !Skipped(S2(), B) && ORDER[2] == B;
    assert Picks(POOL, ORDER, S2(), X, true);
    assert BestKept(POOL, L2(), X);
    assert Beats(POOL, L2(), X, true, B, false);
  }

  lemma XFails(max: nat)
    ensures ScoreRound(POOL, max, ORDER, L2(), L3())
  {
    XRefused(max);
    XBeforeB();
    assert L2().fees - {X} == map[];
    hide Refused, PicksByScore, With;
    assert Accounted(POOL, max, L2(), X, true, L3());
  }

  lemma BEnters(max: nat)
    requires max > ONE_MEGABYTE + 1
    ensures ScoreRound(POOL, max, ORDER, L3(), L4())
  {
    hide Totals, Updated, Deducts;
    AfterB();
    FeesFor(B);
    assert S3().block.used == Mod(500400, 100) && MaxBlockSigOps(500500) == SIGOPS_PER_MB;
    EntersOne(max, L3(), B, false, L4());
    assert PicksByScore(POOL, ORDER, L3(), B, false);
  }

  lemma XEnters(max: nat)
    requires max > ONE_MEGABYTE + 1
    ensures ScoreRound(POOL, max, ORDER, L4(), L5())
  {
    hide Totals, Updated, Deducts;
    AfterX(S4().modified);
    FeesForX(L4().fees);
    assert S4().block.used == Mod(500500, 10100) && MaxBlockSigOps(1000001) == 2 * SIGOPS_PER_MB;
    assert S4().block.inBlock == {A, B};
    assert Rest(POOL, {A, B}, X) == {X};
    EntersOne(max, L4(), X, true, L5());
    assert BestKept(POOL, L4(), X);
    assert PicksByScore(POOL, ORDER, L4(), X, true);
  }

  function Ledgers(): (ls: seq<Ledger>)
    ensures |ls| == 6
  {
    [L0(), L1(), L2(), L3(), L4(), L5()]
  }

  lemma LedgersRun(max: nat)
    requires max > ONE_MEGABYTE + 1
    ensures ScoreRun(POOL, max, ORDER, Ledgers())
  {
    hide ScoreRound, L0, L1, L2, L3, L4, L5, POOL, ORDER;
    AEnters(max);
    XSkipped(max);
    XFails(max);
    BEnters(max);
    XEnters(max);
    var ls := Ledgers();
    assert forall i :: 0 <= i < 5 ==> ScoreRound(POOL, max, ORDER, ls[i], ls[i + 1]);
  }

  lemma LedgersBegin()
    ensures LedgerBegins(POOL, FRESH_BLOCK, Ledgers()[0])
  {
    hide Totals;
    UpdatedStart(POOL, map[], {});
    var none: map<Tx, int> := map[];
    assert none - {} == none && Elems([]) == {};
    assert DeductsBy(POOL, none, {}, [], none);
  }

  lemma OrderRanked()
    ensures Ranked(POOL, ORDER)
  {
    assert ORDER[0] == A && ORDER[1] == X && ORDER[2] == B;
  }

  lemma EndsBeyond()
    ensures Ledgers()[5].stage.block.used == Mod(500601, 25100) && !WithinOwn(Ledgers()[5].stage.block)
  {
    assert MaxBlockSigOps(500601) == SIGOPS_PER_MB;
  }

  /** The comparators make this run: the pool's order is by fee rate with ancestors, and X is picked by the
      rate of what it still needs. */
  lemma LeadsBeyond(max: nat)
    requires max > ONE_MEGABYTE + 1
    ensures AssembledByScore(POOL, max, ORDER, Ledgers()[5].stage.block)
  {
    LedgersRun(max);
    LedgersBegin();
    OrderRanked();
    var bs := [FRESH_BLOCK];
    hide ScoreRun, LedgerBegins, Ledgers, Ranked;
    assert PriorityRun(POOL, max, bs);
    assert ScoreRunOf(POOL, max, ORDER, bs, Ledgers());
  }

  /** A block is always within the limit for its own size if and only if the greatest size is at most a
      megabyte, whether its packages are picked by the comparators or in any order. */
  lemma AlwaysWithinIff(max: nat)
    requires max >= 1000
    ensures AlwaysWithin(max) <==> max <= ONE_MEGABYTE + 1
    ensures AlwaysWithinByScore(max) <==> max <= ONE_MEGABYTE + 1
  {
    if max <= ONE_MEGABYTE + 1 {
      SmallAlwaysWithin(max);
    } else {
      PoolFit(max);
      LeadsBeyond(max);
      EndsBeyond();
      hide Fit, Assembled, AssembledByScore, WithinOwn, Ledgers;
      ByScoreAssembled(POOL, max, ORDER, Ledgers()[5].stage.block);
    }
  }
}
