/** Package selection with the fees it goes by.

    The fee part of the kept totals runs along with the block and the other totals.  Without deltas it is
    exact all along, and then the comparators pick, in every round, a package whose fee rate no other
    package still to be looked at exceeds. */
module Scores {

  import opened Basics
  import opened Packages
  import opened Templates
  import opened Selection
  import opened Fees

  /** Where selection stands, with the fees kept. */
  datatype Ledger = Ledger(stage: Stage, fees: map<Tx, int>)

  /** Some transactions deducted from their descendants' fees, in some order. */
  ghost predicate Deducts(p: Pool, fees: map<Tx, int>, added: set<Tx>, next: map<Tx, int>) {
    added <= p.Keys && exists its :: DeductsBy(p, fees, added, its, next)
  }

  ghost predicate DeductsBy(p: Pool, fees: map<Tx, int>, added: set<Tx>, its: seq<Tx>, next: map<Tx, int>)
    requires added <= p.Keys
  {
    Elems(its) == added && Distinct(its) && next == DeductedAll(p, fees - added, its, added)
  }

  /** An entry that enters or is refused, in the fees too. */
  ghost predicate Accounted(p: Pool, max: nat, l: Ledger, t: Tx, usingModified: bool, next: Ledger) {
    || (Refused(p, max, l.stage, t, usingModified, next.stage) && next.fees == if usingModified then l.fees - {t} else l.fees)
    || exists ts :: Enters(p, max, l.stage, t, usingModified, ts, next.stage) && Deducts(p, l.fees, Elems(ts), next.fees)
  }

  ghost predicate LedgerRound(p: Pool, max: nat, order: seq<Tx>, l: Ledger, next: Ledger) {
    (Skips(order, l.stage, next.stage) && next.fees == l.fees) ||
    exists t, usingModified :: Picks(p, order, l.stage, t, usingModified) && Accounted(p, max, l, t, usingModified, next)
  }

  ghost predicate LedgerBegins(p: Pool, b: Block, l: Ledger) {
    Begins(p, b, l.stage) && Deducts(p, map[], b.inBlock, l.fees)
  }

  ghost predicate LedgerRun(p: Pool, max: nat, order: seq<Tx>, ls: seq<Ledger>) {
    |ls| > 0 && forall i :: 0 <= i < |ls| - 1 ==> LedgerRound(p, max, order, ls[i], ls[i + 1])
  }

  lemma RoundOf(p: Pool, max: nat, order: seq<Tx>, l: Ledger, next: Ledger)
    requires LedgerRound(p, max, order, l, next)
    ensures Round(p, max, order, l.stage, next.stage)
  {
    hide Enters, Refused, Picks, Skips, Deducts;
    if !Skips(order, l.stage, next.stage) {
      var t, usingModified :| Picks(p, order, l.stage, t, usingModified) && Accounted(p, max, l, t, usingModified, next);
      assert Evaluated(p, max, l.stage, t, usingModified, next.stage);
    }
  }

  // ---------------------------------------------------------------- the fees stay exact

  /** A pool without deltas whose cached totals and fees are exact. */
  ghost predicate Plain(p: Pool, max: nat) {
    Fit(p, max) && NoDeltas(p) && CachedFeesExact(p)
  }

  /** Block and totals are right, fees are kept for the same entries as the other totals, and are exact. */
  ghost predicate LedgerOk(p: Pool, max: nat, l: Ledger) {
    && StageOk(p, max, l.stage) && l.fees.Keys == l.stage.modified.Keys
    && FeesTracked(p, l.stage.block.inBlock, l.fees, l.stage.failed)
  }

  /** Fees are kept for the entries that totals are kept for. */
  lemma SameEntries(p: Pool, m: map<Tx, Mod>, fees: map<Tx, int>, added: set<Tx>, its: seq<Tx>)
    requires m.Keys == fees.Keys <= p.Keys && added <= p.Keys && Elems(its) == added
    ensures Updated(p, m - added, added, added).Keys == DeductedAll(p, fees - added, its, added).Keys
  {
    var n, r := Updated(p, m - added, added, added), DeductedAll(p, fees - added, its, added);
    AddedGone(p, fees - added, its, added);
    assert n.Keys <= p.Keys;
    forall t | t in p ensures t in n <==> t in r {
      UpdatedAt(p, m - added, added, added, t);
      if t !in added {
        KeptIs(p, fees - added, its, added, t);
        AmongNone(p, its, t);
      }
    }
  }

  /** An inclusion keeps fees exact and kept for the right entries. */
  lemma DeductsKeeps(p: Pool, b: set<Tx>, m: map<Tx, Mod>, fees: map<Tx, int>, failed: set<Tx>, added: set<Tx>, next: map<Tx, int>)
    requires NoDeltas(p) && CachedFeesExact(p) && Closed(p, b) && Closed(p, b + added) && added !! b
    requires m.Keys == fees.Keys && FeesTracked(p, b, fees, failed) && Deducts(p, fees, added, next)
    ensures FeesTracked(p, b + added, next, failed) && Updated(p, m - added, added, added).Keys == next.Keys
  {
    assert fees.Keys <= p.Keys;
    hide NoDeltas, CachedFeesExact, Closed, FeesTracked, DeductedAll, Updated, Elems, Distinct;
    var its :| DeductsBy(p, fees, added, its, next);
    FeesAfter(p, b, fees, failed, its, added);
    SameEntries(p, m, fees, added, its);
  }

  lemma SaneClosed(p: Pool, max: nat, b: Block)
    requires Sane(p, max, b)
    ensures Closed(p, b.inBlock)
  {
    hide Totals, Sound;
  }

  lemma EntersBlock(p: Pool, max: nat, s: Stage, t: Tx, usingModified: bool, ts: seq<Tx>, next: Stage)
    requires Enters(p, max, s, t, usingModified, ts, next)
    ensures next.block.inBlock == s.block.inBlock + Elems(ts) && Elems(ts) !! s.block.inBlock && next.failed == s.failed
    ensures next.modified == Updated(p, s.modified - Elems(ts), Elems(ts), Elems(ts))
  {
    hide Accepts, Updated, InOrder;
    PushAllIn(p, s.block, ts);
  }

  lemma EntersExact(p: Pool, max: nat, order: seq<Tx>, l: Ledger, t: Tx, usingModified: bool, ts: seq<Tx>, next: Ledger)
    requires Plain(p, max) && LedgerOk(p, max, l) && Picks(p, order, l.stage, t, usingModified)
    requires Enters(p, max, l.stage, t, usingModified, ts, next.stage) && Deducts(p, l.fees, Elems(ts), next.fees)
    ensures LedgerOk(p, max, next)
  {
    var s := l.stage;
    EntersBlock(p, max, s, t, usingModified, ts, next.stage);
    hide Picks, Enters, Sane, Tracked, Deducts, Updated, FeesTracked, NoDeltas, CachedFeesExact, Closed, Elems, Fit;
    EntersKeeps(p, max, order, s, t, usingModified, ts, next.stage);
    SaneClosed(p, max, s.block);
    SaneClosed(p, max, next.stage.block);
    DeductsKeeps(p, s.block.inBlock, s.modified, l.fees, s.failed, Elems(ts), next.fees);
  }

  lemma RefusedExact(p: Pool, max: nat, l: Ledger, t: Tx, usingModified: bool, next: Ledger)
    requires LedgerOk(p, max, l) && Refused(p, max, l.stage, t, usingModified, next.stage)
    requires next.fees == if usingModified then l.fees - {t} else l.fees
    ensures LedgerOk(p, max, next)
  {
    hide Accepts, Sane, Tracked, FeesTracked;
    TrackedFail(p, l.stage.block.inBlock, l.stage.modified, l.stage.failed, t);
    FeesFail(p, l.stage.block.inBlock, l.fees, l.stage.failed, t);
  }

  lemma LedgerKeeps(p: Pool, max: nat, order: seq<Tx>, l: Ledger, next: Ledger)
    requires Plain(p, max) && LedgerOk(p, max, l) && LedgerRound(p, max, order, l, next)
    ensures LedgerOk(p, max, next)
  {
    if Skips(order, l.stage, next.stage) && next.fees == l.fees {
      hide Sane, Tracked, FeesTracked;
    } else {
      hide LedgerOk, Plain, Picks, Enters, Refused, Deducts, Skips;
      var t, usingModified :| Picks(p, order, l.stage, t, usingModified) && Accounted(p, max, l, t, usingModified, next);
      if Refused(p, max, l.stage, t, usingModified, next.stage) && next.fees == if usingModified then l.fees - {t} else l.fees {
        RefusedExact(p, max, l, t, usingModified, next);
      } else {
        var ts :| Enters(p, max, l.stage, t, usingModified, ts, next.stage) && Deducts(p, l.fees, Elems(ts), next.fees);
        EntersExact(p, max, order, l, t, usingModified, ts, next);
      }
    }
  }

  lemma LedgerStart(p: Pool, max: nat, b: Block, l: Ledger)
    requires Plain(p, max) && Sane(p, max, b) && LedgerBegins(p, b, l)
    ensures LedgerOk(p, max, l)
  {
    SaneClosed(p, max, b);
    FeesStart(p);
    var none: map<Tx, Mod> := map[];
    assert none - b.inBlock == none && {} + b.inBlock == b.inBlock && Closed(p, {});
    hide Sane, Deducts, Updated, FeesTracked, NoDeltas, CachedFeesExact, Closed, Fit, Tracked;
    BeginsOk(p, max, b, l.stage);
    DeductsKeeps(p, {}, none, map[], {}, b.inBlock, l.fees);
  }

  /** Without deltas the fees kept are exact in every state of every run, for every entry that has not
      failed, whatever is picked. */
  lemma {:induction false} FeesAlwaysExact(p: Pool, max: nat, order: seq<Tx>, bs: seq<Block>, ls: seq<Ledger>, i: nat)
    requires Plain(p, max) && PriorityRun(p, max, bs) && LedgerRun(p, max, order, ls) && i < |ls|
    requires LedgerBegins(p, bs[|bs| - 1], ls[0])
    ensures LedgerOk(p, max, ls[i])
  {
    if i == 0 {
      hide LedgerOk, LedgerBegins, NoDeltas, CachedFeesExact, Sane, Fit;
      PriorityKeeps(p, max, bs, |bs| - 1);
      LedgerStart(p, max, bs[|bs| - 1], ls[0]);
    } else {
      hide LedgerOk, LedgerBegins, LedgerRound, Plain, PriorityRun;
      FeesAlwaysExact(p, max, order, bs, ls, i - 1);
      assert LedgerRound(p, max, order, ls[i - 1], ls[i - 1 + 1]);
      LedgerKeeps(p, max, order, ls[i - 1], ls[i]);
    }
  }

  // ---------------------------------------------------------------- what is picked

  /** The fees an entry is judged by. */
  function FeesJudgedBy(p: Pool, l: Ledger, t: Tx, usingModified: bool): int
    requires t in p
  {
    if usingModified && t in l.fees then l.fees[t] else p[t].cachedFees
  }

  /** A higher fee rate, by cross multiplication; the hash decides between equal ones. */
  predicate Better(feesA: int, sizeA: int, a: Tx, feesB: int, sizeB: int, b: Tx) {
    if feesA * sizeB == sizeA * feesB then a.hash < b.hash else feesA * sizeB > sizeA * feesB
  }

  predicate Beats(p: Pool, l: Ledger, t: Tx, tKept: bool, v: Tx, vKept: bool)
    requires t in p && v in p
  {
    Better(FeesJudgedBy(p, l, t, tKept), JudgedBy(p, l.stage, t, tKept).size, t,
           FeesJudgedBy(p, l, v, vKept), JudgedBy(p, l.stage, v, vKept).size, v)
  }

  /** The pool's own order: by fee rate with ancestors. */
  ghost predicate Ranked(p: Pool, order: seq<Tx>) {
    && Elems(order) == p.Keys
    && forall i, j :: 0 <= i < j < |order| && order[i] in p && order[j] in p ==>
      Better(p[order[i]].cachedFees, p[order[i]].cached.size, order[i], p[order[j]].cachedFees, p[order[j]].cached.size, order[j])
  }

  /** The first of the entries with kept totals. */
  ghost predicate BestKept(p: Pool, l: Ledger, t: Tx) {
    && t in p && t in l.stage.modified
    && forall v :: v in l.stage.modified && v in p && v != t ==> Beats(p, l, t, true, v, true)
  }

  /** The comparison that decides between the first entry with kept totals and the next in the pool. */
  ghost predicate PicksByScore(p: Pool, order: seq<Tx>, l: Ledger, t: Tx, usingModified: bool) {
    && Picks(p, order, l.stage, t, usingModified)
    && if usingModified then
         BestKept(p, l, t) && (l.stage.mi < |order| && order[l.stage.mi] in p ==> Beats(p, l, t, true, order[l.stage.mi], false))
       else
         l.stage.modified == map[] || exists v :: BestKept(p, l, v) && !Beats(p, l, v, true, t, false)
  }

  ghost predicate ScoreRound(p: Pool, max: nat, order: seq<Tx>, l: Ledger, next: Ledger) {
    (Skips(order, l.stage, next.stage) && next.fees == l.fees) ||
    exists t, usingModified :: PicksByScore(p, order, l, t, usingModified) && Accounted(p, max, l, t, usingModified, next)
  }

  ghost predicate ScoreRun(p: Pool, max: nat, order: seq<Tx>, ls: seq<Ledger>) {
    |ls| > 0 && forall i :: 0 <= i < |ls| - 1 ==> ScoreRound(p, max, order, ls[i], ls[i + 1])
  }

  /** A whole run with every package picked by the comparators. */
  ghost predicate ScoreRunOf(p: Pool, max: nat, order: seq<Tx>, bs: seq<Block>, ls: seq<Ledger>) {
    && |bs| > 0 && |ls| > 0 && Ranked(p, order) && PriorityRun(p, max, bs) && ScoreRun(p, max, order, ls)
    && LedgerBegins(p, bs[|bs| - 1], ls[0])
  }

  lemma ScoreIsRound(p: Pool, max: nat, order: seq<Tx>, l: Ledger, next: Ledger)
    requires ScoreRound(p, max, order, l, next)
    ensures LedgerRound(p, max, order, l, next)
  {
    hide Picks, Accounted, BestKept, Beats, Skips;
    if !(Skips(order, l.stage, next.stage) && next.fees == l.fees) {
      var t, usingModified :| PicksByScore(p, order, l, t, usingModified) && Accounted(p, max, l, t, usingModified, next);
      assert Picks(p, order, l.stage, t, usingModified);
    }
  }

  lemma ScoreIsRun(p: Pool, max: nat, order: seq<Tx>, ls: seq<Ledger>)
    requires ScoreRun(p, max, order, ls)
    ensures LedgerRun(p, max, order, ls)
  {
    hide ScoreRound, LedgerRound;
    forall i | 0 <= i < |ls| - 1 ensures LedgerRound(p, max, order, ls[i], ls[i + 1]) {
      assert ScoreRound(p, max, order, ls[i], ls[i + 1]);
      ScoreIsRound(p, max, order, ls[i], ls[i + 1]);
    }
  }

  // ---------------------------------------------------------------- it is the best

  /** At least the fee rate, by cross multiplication. */
  predicate NoWorse(feesA: int, sizeA: int, feesB: int, sizeB: int) { feesA * sizeB >= sizeA * feesB }

  lemma NoWorseChain(fa: int, sa: int, fb: int, sb: int, fc: int, sc: int)
    requires sa > 0 && sb > 0 && sc > 0 && NoWorse(fa, sa, fb, sb) && NoWorse(fb, sb, fc, sc)
    ensures NoWorse(fa, sa, fc, sc)
  {
    MulMono(sa * fb, fa * sb, sc);
    MulMono(sb * fc, fb * sc, sa);
    assert (sa * fb) * sc == (fb * sc) * sa;
    assert (fa * sb) * sc == sb * (fa * sc) && (sb * fc) * sa == sb * (sa * fc);
    if fa * sc < sa * fc { MulStrict(fa * sc, sa * fc, sb); }
  }

  lemma MulStrict(a: int, b: int, p: int)
    requires a < b && p > 0
    ensures p * a < p * b
  {
  }

  /** The rate of what an entry still needs. */
  ghost predicate RateNoWorse(p: Pool, b: set<Tx>, t: Tx, v: Tx)
    requires t in p && v in p
  {
    && Rest(p, b, t) <= p.Keys && Rest(p, b, v) <= p.Keys
    && NoWorse(FeeTotal(p, Rest(p, b, t)), Totals(p, Rest(p, b, t)).size, FeeTotal(p, Rest(p, b, v)), Totals(p, Rest(p, b, v)).size)
  }

  ghost predicate Sized(p: Pool) {
    forall t :: t in p ==> p[t].size > 0
  }

  /** Still to be looked at: with kept totals, or in the pool from the place reached on. */
  ghost predicate Ahead(p: Pool, order: seq<Tx>, l: Ledger, v: Tx) {
    && v in p && v !in l.stage.failed
    && (v in l.stage.modified || (!Skipped(l.stage, v) && l.stage.mi <= |order| && v in order[l.stage.mi..]))
  }

  /** The totals and fees an entry ahead is compared by are those of what it still needs. */
  lemma AheadExact(p: Pool, max: nat, l: Ledger, v: Tx)
    requires Plain(p, max) && LedgerOk(p, max, l) && Sized(p) && v in p && v !in l.stage.failed
    requires v in l.stage.modified || !Skipped(l.stage, v)
    ensures var kept, rest := v in l.stage.modified, Rest(p, l.stage.block.inBlock, v);
      && rest <= p.Keys && JudgedBy(p, l.stage, v, kept) == Totals(p, rest) && FeesJudgedBy(p, l, v, kept) == FeeTotal(p, rest)
      && Totals(p, rest).size > 0
  {
    var b := l.stage.block.inBlock;
    assert TrackedAt(p, b, l.stage.modified, l.stage.failed, v) && FeeTracked(p, b, l.fees, l.stage.failed, v) && CachedAt(p, v);
    assert v !in b && v in Rest(p, b, v) && Rest(p, b, v) <= p.Keys;
    assert p[v].size > 0;
    hide Sane, Tracked, FeesTracked, CachedFeesExact, NoDeltas, FeeTotal;
    TotalsRemove(p, Rest(p, b, v), v);
    hide Totals;
    if v !in l.stage.modified {
      NotStale(p, max, l.stage, v);
      assert {} !! b;
      RestFees(p, b, {}, v);
    }
  }

  /** What an entry is compared by has a size, even after it has failed. */
  lemma JudgedSize(p: Pool, max: nat, l: Ledger, v: Tx)
    requires Plain(p, max) && LedgerOk(p, max, l) && Sized(p) && v in p && (v in l.stage.modified || !Skipped(l.stage, v))
    ensures JudgedBy(p, l.stage, v, v in l.stage.modified).size > 0
  {
    if v in l.stage.modified {
      var b := l.stage.block.inBlock;
      assert TrackedAt(p, b, l.stage.modified, l.stage.failed, v);
      assert v in Rest(p, b, v) && Rest(p, b, v) <= p.Keys;
      assert p[v].size > 0;
      hide Sane, Tracked, FeesTracked;
      TotalsRemove(p, Rest(p, b, v), v);
    } else {
      AheadExact(p, max, l, v);
    }
  }

  /** No worse by what the two are compared by. */
  predicate JudgedNoWorse(p: Pool, l: Ledger, t: Tx, v: Tx)
    requires t in p && v in p
  {
    var tKept, vKept := t in l.stage.modified, v in l.stage.modified;
    NoWorse(FeesJudgedBy(p, l, t, tKept), JudgedBy(p, l.stage, t, tKept).size, FeesJudgedBy(p, l, v, vKept), JudgedBy(p, l.stage, v, vKept).size)
  }

  lemma BeatsNoWorse(p: Pool, l: Ledger, t: Tx, v: Tx)
    requires t in p && v in p
    requires var tKept, vKept := t in l.stage.modified, v in l.stage.modified;
      t == v || Beats(p, l, t, tKept, v, vKept) || !Beats(p, l, v, vKept, t, tKept)
    ensures JudgedNoWorse(p, l, t, v)
  {
    hide JudgedBy, FeesJudgedBy;
  }

  lemma JudgedChain(p: Pool, max: nat, l: Ledger, t: Tx, u: Tx, v: Tx)
    requires Plain(p, max) && LedgerOk(p, max, l) && Sized(p) && t in p && u in p && v in p
    requires t in l.stage.modified || !Skipped(l.stage, t)
    requires u in l.stage.modified || !Skipped(l.stage, u)
    requires v in l.stage.modified || !Skipped(l.stage, v)
    requires JudgedNoWorse(p, l, t, u) && JudgedNoWorse(p, l, u, v)
    ensures JudgedNoWorse(p, l, t, v)
  {
    JudgedSize(p, max, l, t);
    JudgedSize(p, max, l, u);
    JudgedSize(p, max, l, v);
    hide Plain, LedgerOk, Sized, JudgedBy, FeesJudgedBy, NoWorse;
    var tKept, uKept, vKept := t in l.stage.modified, u in l.stage.modified, v in l.stage.modified;
    NoWorseChain(FeesJudgedBy(p, l, t, tKept), JudgedBy(p, l.stage, t, tKept).size, FeesJudgedBy(p, l, u, uKept),
                 JudgedBy(p, l.stage, u, uKept).size, FeesJudgedBy(p, l, v, vKept), JudgedBy(p, l.stage, v, vKept).size);
  }

  /** Against an entry with kept totals. */
  lemma BestOfKept(p: Pool, max: nat, order: seq<Tx>, l: Ledger, t: Tx, usingModified: bool, v: Tx)
    requires Plain(p, max) && LedgerOk(p, max, l) && Sized(p) && PicksByScore(p, order, l, t, usingModified)
    requires v in p && v in l.stage.modified
    ensures JudgedNoWorse(p, l, t, v)
  {
    hide Plain, LedgerOk, Sized, Beats;
    if usingModified {
      BeatsNoWorse(p, l, t, v);
    } else {
      var w :| BestKept(p, l, w) && !Beats(p, l, w, true, t, false);
      BeatsNoWorse(p, l, t, w);
      BeatsNoWorse(p, l, w, v);
      hide JudgedNoWorse;
      JudgedChain(p, max, l, t, w, v);
    }
  }

  lemma RankedBeats(p: Pool, order: seq<Tx>, l: Ledger, i: nat, v: Tx)
    requires Ranked(p, order) && i < |order| && v in order[i..]
    ensures order[i] in p && v in p && (v == order[i] || Beats(p, l, order[i], false, v, false))
  {
    assert order[i] in Elems(order);
    var j :| 0 <= j < |order[i..]| && order[i..][j] == v;
    assert order[i + j] in Elems(order);
    hide Better;
  }

  /** Against an entry the pool's order has yet to come to. */
  lemma BestOfRest(p: Pool, max: nat, order: seq<Tx>, l: Ledger, t: Tx, usingModified: bool, v: Tx)
    requires Plain(p, max) && LedgerOk(p, max, l) && Sized(p) && Ranked(p, order) && PicksByScore(p, order, l, t, usingModified)
    requires v in p && !Skipped(l.stage, v) && l.stage.mi <= |order| && v in order[l.stage.mi..]
    ensures JudgedNoWorse(p, l, t, v)
  {
    var x := order[l.stage.mi];
    RankedBeats(p, order, l, l.stage.mi, v);
    hide Plain, LedgerOk, Sized, Beats, Ranked;
    BeatsNoWorse(p, l, x, v);
    if usingModified {
      BeatsNoWorse(p, l, t, x);
      hide JudgedNoWorse;
      JudgedChain(p, max, l, t, x, v);
    }
  }

  /** The package picked has, with what it still needs, no lower a fee rate than any other still to be
      looked at. */
  lemma PicksBest(p: Pool, max: nat, order: seq<Tx>, l: Ledger, t: Tx, usingModified: bool, v: Tx)
    requires Plain(p, max) && LedgerOk(p, max, l) && Sized(p) && Ranked(p, order) && PicksByScore(p, order, l, t, usingModified)
    requires t !in l.stage.failed && Ahead(p, order, l, v)
    ensures RateNoWorse(p, l.stage.block.inBlock, t, v)
  {
    hide Plain, LedgerOk, Sized, Ranked, Rest, Totals, FeeTotal, BestKept, Beats;
    if v in l.stage.modified {
      BestOfKept(p, max, order, l, t, usingModified, v);
    } else {
      BestOfRest(p, max, order, l, t, usingModified, v);
    }
    AheadExact(p, max, l, t);
    AheadExact(p, max, l, v);
  }

  /** So it is in every round of every run. */
  lemma AlwaysBest(p: Pool, max: nat, order: seq<Tx>, bs: seq<Block>, ls: seq<Ledger>, i: nat, t: Tx, usingModified: bool, v: Tx)
    requires Plain(p, max) && Sized(p) && ScoreRunOf(p, max, order, bs, ls) && i < |ls|
    requires PicksByScore(p, order, ls[i], t, usingModified) && t !in ls[i].stage.failed && Ahead(p, order, ls[i], v)
    ensures RateNoWorse(p, ls[i].stage.block.inBlock, t, v)
  {
    hide Plain, LedgerOk, Sized, Ranked, PicksByScore, Ahead, RateNoWorse, ScoreRound, LedgerRound, PriorityRun, LedgerBegins;
    ScoreIsRun(p, max, order, ls);
    FeesAlwaysExact(p, max, order, bs, ls, i);
    PicksBest(p, max, order, ls[i], t, usingModified, v);
  }

  /** A block that some run by score ends with. */
  ghost predicate AssembledByScore(p: Pool, max: nat, order: seq<Tx>, b: Block) {
    exists bs: seq<Block>, ls: seq<Ledger> :: ScoreRunOf(p, max, order, bs, ls) && b == ls[|ls| - 1].stage.block
  }

  /** Such a run is one of those in any order. */
  lemma ByScoreAssembled(p: Pool, max: nat, order: seq<Tx>, b: Block)
    requires AssembledByScore(p, max, order, b)
    ensures Assembled(p, max, order, b)
  {
    hide LedgerRound, ScoreRound, Round, PriorityRun, Begins, Deducts, Ranked;
    var bs: seq<Block>, ls: seq<Ledger> :| ScoreRunOf(p, max, order, bs, ls) && b == ls[|ls| - 1].stage.block;
    ScoreIsRun(p, max, order, ls);
    var ss := seq(|ls|, i requires 0 <= i < |ls| => ls[i].stage);
    forall i | 0 <= i < |ss| - 1 ensures Round(p, max, order, ss[i], ss[i + 1]) {
      assert LedgerRound(p, max, order, ls[i], ls[i + 1]);
      RoundOf(p, max, order, ls[i], ls[i + 1]);
    }
    assert RunOf(p, max, order, bs, ss);
  }
}
