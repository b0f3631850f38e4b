/** How selection ends: which entries have been looked at when it does, and when that is all of them. */
module Endings {

  import opened Basics
  import opened Packages
  import opened Templates
  import opened Selection
  import opened Fees
  import opened Scores

  // ---------------------------------------------------------------- packages

  /** The entry was picked at this point and did not pass. */
  ghost predicate RefusedIn(p: Pool, max: nat, order: seq<Tx>, s: Stage, t: Tx) {
    t in p && exists usingModified :: Picks(p, order, s, t, usingModified) && !Accepts(p, max, s, t, usingModified)
  }

  /** Among the first n points of a run the entry was refused at one. */
  ghost predicate RefusedBy(p: Pool, max: nat, order: seq<Tx>, ss: seq<Stage>, n: nat, t: Tx) {
    exists i :: 0 <= i < n && i < |ss| && RefusedIn(p, max, order, ss[i], t)
  }

  /** Nothing is left to look at. */
  predicate Exhausted(order: seq<Tx>, s: Stage) {
    s.mi == |order| && s.modified == map[]
  }

  /** Every entry of the pool's order up to where it stands is in the block, has kept totals or was refused,
      and so was every one that failed. */
  ghost predicate Covered(p: Pool, max: nat, order: seq<Tx>, ss: seq<Stage>, n: nat)
    requires n < |ss|
  {
    var s := ss[n];
    && s.mi <= |order|
    && (forall j :: 0 <= j < s.mi ==> Settled(p, max, order, ss, n, order[j]))
    && forall t :: t in s.failed ==> RefusedBy(p, max, order, ss, n, t)
  }

  ghost predicate Settled(p: Pool, max: nat, order: seq<Tx>, ss: seq<Stage>, n: nat, t: Tx)
    requires n < |ss|
  {
    t in ss[n].block.inBlock || t in ss[n].modified || RefusedBy(p, max, order, ss, n, t)
  }

  lemma StillRefused(p: Pool, max: nat, order: seq<Tx>, ss: seq<Stage>, n: nat, t: Tx)
    requires RefusedBy(p, max, order, ss, n, t)
    ensures RefusedBy(p, max, order, ss, n + 1, t)
  {
    hide RefusedIn;
  }

  /** A round settles what it looks at and unsettles nothing. */
  ghost predicate RoundSettles(p: Pool, max: nat, order: seq<Tx>, s: Stage, next: Stage) {
    && next.mi <= |order|
    && (forall j :: s.mi <= j < next.mi ==> order[j] in next.block.inBlock || order[j] in next.modified || order[j] in s.failed || RefusedIn(p, max, order, s, order[j]))
    && (forall t :: t in s.block.inBlock || t in s.modified ==> t in next.block.inBlock || t in next.modified || RefusedIn(p, max, order, s, t))
    && (forall t :: t in next.failed ==> t in s.failed || RefusedIn(p, max, order, s, t))
  }

  lemma EntersSettles(p: Pool, max: nat, order: seq<Tx>, s: Stage, t: Tx, usingModified: bool, ts: seq<Tx>, next: Stage)
    requires s.mi <= |order| && s.modified.Keys <= p.Keys && Picks(p, order, s, t, usingModified) && Enters(p, max, s, t, usingModified, ts, next)
    requires t !in s.block.inBlock
    ensures RoundSettles(p, max, order, s, next)
  {
    EntersBlock(p, max, s, t, usingModified, ts, next);
    assert t in Rest(p, s.block.inBlock, t);
    hide Accepts, InOrder;
    forall x | x in s.modified && x !in Elems(ts) ensures x in next.modified {
      UpdatedAt(p, s.modified - Elems(ts), Elems(ts), Elems(ts), x);
    }
  }

  lemma RefusedSettles(p: Pool, max: nat, order: seq<Tx>, s: Stage, t: Tx, usingModified: bool, next: Stage)
    requires s.mi <= |order| && Picks(p, order, s, t, usingModified) && Refused(p, max, s, t, usingModified, next)
    ensures RoundSettles(p, max, order, s, next)
  {
    hide Accepts;
    assert RefusedIn(p, max, order, s, t);
    hide RefusedIn;
  }

  lemma Settles(p: Pool, max: nat, order: seq<Tx>, s: Stage, next: Stage)
    requires Fit(p, max) && StageOk(p, max, s) && s.mi <= |order| && Round(p, max, order, s, next)
    ensures RoundSettles(p, max, order, s, next)
  {
    assert s.modified.Keys <= p.Keys;
    hide Sane, Tracked, Enters, Accepts, Wf, Exact, RoundSettles, Refused;
    if Skips(order, s, next) {
      SkipsSettles(p, max, order, s, next);
    } else {
      var t, usingModified :| Picks(p, order, s, t, usingModified) && Evaluated(p, max, s, t, usingModified, next);
      if Refused(p, max, s, t, usingModified, next) {
        RefusedSettles(p, max, order, s, t, usingModified, next);
      } else {
        var ts :| Enters(p, max, s, t, usingModified, ts, next);
        JudgedFairly(p, order, s, t, usingModified);
        EntersSettles(p, max, order, s, t, usingModified, ts, next);
      }
    }
  }

  lemma SkipsSettles(p: Pool, max: nat, order: seq<Tx>, s: Stage, next: Stage)
    requires Skips(order, s, next)
    ensures RoundSettles(p, max, order, s, next)
  {
    hide RefusedIn;
  }

  lemma CoveredMore(p: Pool, max: nat, order: seq<Tx>, ss: seq<Stage>, n: nat)
    requires n + 1 < |ss| && Covered(p, max, order, ss, n) && RoundSettles(p, max, order, ss[n], ss[n + 1])
    ensures Covered(p, max, order, ss, n + 1)
  {
    hide RefusedIn;
    forall t | RefusedIn(p, max, order, ss[n], t) ensures RefusedBy(p, max, order, ss, n + 1, t) {}
    forall t | RefusedBy(p, max, order, ss, n, t) ensures RefusedBy(p, max, order, ss, n + 1, t) { StillRefused(p, max, order, ss, n, t); }
    hide RefusedBy;
    forall j | 0 <= j < ss[n + 1].mi ensures Settled(p, max, order, ss, n + 1, order[j]) {
      if j < ss[n].mi { assert Settled(p, max, order, ss, n, order[j]); }
    }
  }

  lemma {:induction false} RunCovers(p: Pool, max: nat, order: seq<Tx>, ss: seq<Stage>, n: nat)
    requires Fit(p, max) && PackageRun(p, max, order, ss) && n < |ss| && StageOk(p, max, ss[0]) && ss[0].mi == 0 && ss[0].failed == {}
    ensures Covered(p, max, order, ss, n)
  {
    hide Fit, StageOk, Round, RoundSettles, Settled;
    if n > 0 {
      RunCovers(p, max, order, ss, n - 1);
      PackagesKeep(p, max, order, ss, n - 1);
      CoveredMid(p, max, order, ss, n - 1);
      assert Round(p, max, order, ss[n - 1], ss[n - 1 + 1]);
      Settles(p, max, order, ss[n - 1], ss[n]);
      CoveredMore(p, max, order, ss, n - 1);
    }
  }

  lemma CoveredMid(p: Pool, max: nat, order: seq<Tx>, ss: seq<Stage>, n: nat)
    requires n < |ss| && Covered(p, max, order, ss, n)
    ensures ss[n].mi <= |order|
  {
  }

  lemma RunStarts(p: Pool, max: nat, order: seq<Tx>, bs: seq<Block>, ss: seq<Stage>)
    requires Fit(p, max) && RunOf(p, max, order, bs, ss)
    ensures StageOk(p, max, ss[0]) && ss[0].mi == 0 && ss[0].failed == {}
  {
    hide Round, Readied, Wf, Exact, Sane, Tracked;
    PriorityKeeps(p, max, bs, |bs| - 1);
    BeginsOk(p, max, bs[|bs| - 1], ss[0]);
  }

  /** When nothing is left, every entry of the pool is in the block or was picked at some point and did not
      pass. */
  lemma LookedAtAll(p: Pool, max: nat, order: seq<Tx>, bs: seq<Block>, ss: seq<Stage>, t: Tx)
    requires Fit(p, max) && RunOf(p, max, order, bs, ss) && Exhausted(order, ss[|ss| - 1]) && Elems(order) == p.Keys && t in p
    ensures t in ss[|ss| - 1].block.inBlock || RefusedBy(p, max, order, ss, |ss| - 1, t)
  {
    RunStarts(p, max, order, bs, ss);
    hide Fit, StageOk, Round, RefusedBy, Begins, PriorityRun;
    RunCovers(p, max, order, ss, |ss| - 1);
    assert t in Elems(order);
    var j :| 0 <= j < |order| && order[j] == t;
    assert Settled(p, max, order, ss, |ss| - 1, order[j]);
  }

  // ---------------------------------------------------------------- room for all

  /** All entries are final, and together they leave room in size and signature operations. */
  ghost predicate Roomy(p: Pool, max: nat) {
    AllFinal(p, p.Keys) && 1000 + Totals(p, p.Keys).size < max && 100 + Totals(p, p.Keys).sigops < SIGOPS_PER_MB
  }

  lemma PartOf(p: Pool, s: set<Tx>)
    requires s <= p.Keys
    ensures AtLeast(Totals(p, p.Keys), Totals(p, s))
  {
    TotalsSplit(p, p.Keys, s);
  }

  lemma SigOpsFloor(size: nat)
    requires size >= 1
    ensures MaxBlockSigOps(size) >= SIGOPS_PER_MB
  {
  }

  lemma Together(p: Pool, b: set<Tx>, rest: set<Tx>)
    requires b <= p.Keys && rest <= p.Keys && rest !! b
    ensures AtLeast(Totals(p, p.Keys), Plus(Totals(p, b), Totals(p, rest))) && Totals(p, rest).size >= 0
  {
    TotalsSplit(p, b + rest, rest);
    assert b + rest - rest == b;
    PartOf(p, b + rest);
    hide Totals;
  }

  lemma RoomBy(max: nat, used: Mod, more: Mod)
    requires used.size >= 1 && more.size >= 0 && used.size + more.size < max && used.sigops + more.sigops < SIGOPS_PER_MB
    ensures HasRoom(max, used, more)
  {
    SigOpsFloor(used.size + more.size);
    hide MaxBlockSigOps;
  }

  lemma StageUses(p: Pool, max: nat, s: Stage)
    requires StageOk(p, max, s)
    ensures s.block.inBlock <= p.Keys && s.block.used == Plus(RESERVED, Totals(p, s.block.inBlock)) && AtLeast(Totals(p, s.block.inBlock), Mod(0, 0))
  {
    hide Sound, Closed, FeesOf, SumOf;
  }

  lemma RoomForAll(p: Pool, max: nat, order: seq<Tx>, s: Stage, t: Tx, usingModified: bool)
    requires Fit(p, max) && Roomy(p, max) && StageOk(p, max, s) && s.failed == {} && Picks(p, order, s, t, usingModified)
    ensures Accepts(p, max, s, t, usingModified) && HasRoom(max, s.block.used, JudgedBy(p, s, t, usingModified))
  {
    hide Sane, Wf, Exact, Totals, Tracked, JudgedBy, HasRoom, Rest, MaxBlockSigOps;
    var b, rest := s.block, Rest(p, s.block.inBlock, t);
    StageUses(p, max, s);
    JudgedFairly(p, order, s, t, usingModified);
    RestDisjoint(p, b.inBlock, t);
    Together(p, b.inBlock, rest);
    RoomBy(max, b.used, Totals(p, rest));
  }

  lemma {:induction false} NothingFails(p: Pool, max: nat, order: seq<Tx>, ss: seq<Stage>, n: nat)
    requires Fit(p, max) && Roomy(p, max) && PackageRun(p, max, order, ss) && n < |ss| && StageOk(p, max, ss[0]) && ss[0].mi == 0 && ss[0].failed == {}
    ensures StageOk(p, max, ss[n]) && ss[n].failed == {} && forall t :: !RefusedIn(p, max, order, ss[n], t)
  {
    PackagesKeep(p, max, order, ss, n);
    if n > 0 {
      NothingFails(p, max, order, ss, n - 1);
      assert Round(p, max, order, ss[n - 1], ss[n - 1 + 1]);
      NoFailure(p, max, order, ss[n - 1], ss[n]);
    }
    hide Fit, Roomy, StageOk, Picks, Accepts, Round;
    forall t | RefusedIn(p, max, order, ss[n], t) ensures false {
      var usingModified :| Picks(p, order, ss[n], t, usingModified) && !Accepts(p, max, ss[n], t, usingModified);
      RoomForAll(p, max, order, ss[n], t, usingModified);
    }
  }

  lemma NoFailure(p: Pool, max: nat, order: seq<Tx>, s: Stage, next: Stage)
    requires Round(p, max, order, s, next) && s.failed == {} && forall t :: !RefusedIn(p, max, order, s, t)
    ensures next.failed == {}
  {
    hide Enters, Accepts;
    if !Skips(order, s, next) {
      var t, usingModified :| Picks(p, order, s, t, usingModified) && Evaluated(p, max, s, t, usingModified, next);
      if Refused(p, max, s, t, usingModified, next) {
        assert RefusedIn(p, max, order, s, t);
      } else {
        var ts :| Enters(p, max, s, t, usingModified, ts, next);
        EntersBlock(p, max, s, t, usingModified, ts, next);
      }
    }
  }

  /** With room for all, nothing but the end of the pool keeps an entry out. */
  lemma TakesAll(p: Pool, max: nat, order: seq<Tx>, bs: seq<Block>, ss: seq<Stage>)
    requires Fit(p, max) && Roomy(p, max) && RunOf(p, max, order, bs, ss) && Exhausted(order, ss[|ss| - 1]) && Elems(order) == p.Keys
    ensures ss[|ss| - 1].block.inBlock == p.Keys
  {
    RunStarts(p, max, order, bs, ss);
    hide Roomy, Round, Begins, PriorityRun, RefusedIn, Wf, Exact;
    PackagesKeep(p, max, order, ss, |ss| - 1);
    forall t | t in p ensures t in ss[|ss| - 1].block.inBlock {
      LookedAtAll(p, max, order, bs, ss, t);
      if RefusedBy(p, max, order, ss, |ss| - 1, t) {
        var i :| 0 <= i < |ss| - 1 && RefusedIn(p, max, order, ss[i], t);
        NothingFails(p, max, order, ss, i);
      }
    }
    assert ss[|ss| - 1].block.inBlock <= p.Keys;
  }

  // ---------------------------------------------------------------- the least fee

  /** The least fee for a size at a rate per thousand bytes: rounded down, but not to nothing. */
  function MinFee(perK: nat, size: nat): nat {
    var fee := perK * size / 1000;
    if fee == 0 && size != 0 && perK > 0 then 1 else fee
  }

  /** What an entry is judged by pays the least fee for its size. */
  predicate Pays(p: Pool, perK: nat, l: Ledger, t: Tx, usingModified: bool)
    requires t in p
  {
    var size := JudgedBy(p, l.stage, t, usingModified).size;
    size >= 0 && FeesJudgedBy(p, l, t, usingModified) >= MinFee(perK, size)
  }

  /** A round of the loop: the pool's next entry is skipped, or the best one pays and is evaluated. */
  ghost predicate PaidRound(p: Pool, max: nat, perK: nat, order: seq<Tx>, l: Ledger, next: Ledger) {
    (Skips(order, l.stage, next.stage) && next.fees == l.fees) ||
    exists t, usingModified :: PicksByScore(p, order, l, t, usingModified) && Pays(p, perK, l, t, usingModified) && Accounted(p, max, l, t, usingModified, next)
  }

  ghost predicate PaidRun(p: Pool, max: nat, perK: nat, order: seq<Tx>, ls: seq<Ledger>) {
    |ls| > 0 && forall i :: 0 <= i < |ls| - 1 ==> PaidRound(p, max, perK, order, ls[i], ls[i + 1])
  }

  /** The best entry does not pay. */
  ghost predicate FeeStops(p: Pool, perK: nat, order: seq<Tx>, l: Ledger) {
    exists t, usingModified :: PicksByScore(p, order, l, t, usingModified) && !Pays(p, perK, l, t, usingModified)
  }

  /** The best entry leaves no room. */
  ghost predicate TooLarge(p: Pool, max: nat, order: seq<Tx>, l: Ledger) {
    exists t, usingModified :: PicksByScore(p, order, l, t, usingModified) && !HasRoom(max, l.stage.block.used, JudgedBy(p, l.stage, t, usingModified))
  }

  /** The rounds since the last inclusion in which the best entry left no room. */
  ghost function Standstill(p: Pool, max: nat, order: seq<Tx>, ls: seq<Ledger>): set<int> {
    set i | 0 <= i < |ls| - 1 && ls[i].stage.block == ls[|ls| - 1].stage.block && TooLarge(p, max, order, ls[i])
  }

  const PATIENCE: nat := 1000

  /** Too many in a row, close to a full block. */
  ghost predicate GivesUp(p: Pool, max: nat, order: seq<Tx>, ls: seq<Ledger>) {
    |ls| > 0 && ls[|ls| - 1].stage.block.used.size > max - 1000 && |Standstill(p, max, order, ls)| > PATIENCE
  }

  /** The three ways package selection ends. */
  ghost predicate Ended(p: Pool, max: nat, perK: nat, order: seq<Tx>, ls: seq<Ledger>) {
    |ls| > 0 && (Exhausted(order, ls[|ls| - 1].stage) || FeeStops(p, perK, order, ls[|ls| - 1]) || GivesUp(p, max, order, ls))
  }

  lemma StandsStill(p: Pool, max: nat, order: seq<Tx>, ls: seq<Ledger>, next: Ledger)
    requires |ls| > 0 && next.stage.block == ls[|ls| - 1].stage.block
    ensures |Standstill(p, max, order, ls + [next])| >= |Standstill(p, max, order, ls)| + if TooLarge(p, max, order, ls[|ls| - 1]) then 1 else 0
  {
    var now, before, last := Standstill(p, max, order, ls + [next]), Standstill(p, max, order, ls), |ls| - 1;
    hide TooLarge;
    assert forall i :: 0 <= i < |ls| ==> (ls + [next])[i] == ls[i];
    if TooLarge(p, max, order, ls[last]) {
      assert now == before + {last};
    } else {
      assert now == before;
    }
  }

  lemma PaidIsScore(p: Pool, max: nat, perK: nat, order: seq<Tx>, ls: seq<Ledger>)
    requires PaidRun(p, max, perK, order, ls)
    ensures ScoreRun(p, max, order, ls)
  {
    forall i | 0 <= i < |ls| - 1 ensures ScoreRound(p, max, order, ls[i], ls[i + 1]) {
      assert PaidRound(p, max, perK, order, ls[i], ls[i + 1]);
      hide Accounted, PicksByScore, Pays, Skips;
    }
  }

  function StagesOf(ls: seq<Ledger>): (ss: seq<Stage>)
    ensures |ss| == |ls| && forall i :: 0 <= i < |ls| ==> ss[i] == ls[i].stage
  {
    seq(|ls|, i requires 0 <= i < |ls| => ls[i].stage)
  }

  /** The whole run: priority, then packages by score with the fee test. */
  ghost predicate PaidRunOf(p: Pool, max: nat, perK: nat, order: seq<Tx>, bs: seq<Block>, ls: seq<Ledger>) {
    && |bs| > 0 && |ls| > 0 && PriorityRun(p, max, bs) && PaidRun(p, max, perK, order, ls)
    && LedgerBegins(p, bs[|bs| - 1], ls[0])
  }

  lemma PaidIsRun(p: Pool, max: nat, perK: nat, order: seq<Tx>, bs: seq<Block>, ls: seq<Ledger>)
    requires PaidRunOf(p, max, perK, order, bs, ls)
    ensures LedgerRun(p, max, order, ls) && RunOf(p, max, order, bs, StagesOf(ls))
  {
    hide PriorityRun, Begins, Deducts, PaidRound, LedgerRound, Round, ScoreRound;
    PaidIsScore(p, max, perK, order, ls);
    ScoreIsRun(p, max, order, ls);
    var ss := StagesOf(ls);
    forall i | 0 <= i < |ss| - 1 ensures Round(p, max, order, ss[i], ss[i + 1]) {
      assert LedgerRound(p, max, order, ls[i], ls[i + 1]);
      RoundOf(p, max, order, ls[i], ls[i + 1]);
    }
  }

  // ---------------------------------------------------------------- all pay

  /** Every entry pays the least rate for itself. */
  ghost predicate Paying(p: Pool, perK: nat) {
    forall t :: t in p ==> p[t].fee * 1000 >= perK * p[t].size
  }

  lemma {:induction false} PayTogether(p: Pool, perK: nat, s: set<Tx>)
    requires NoDeltas(p) && Paying(p, perK) && s <= p.Keys
    ensures FeeTotal(p, s) * 1000 >= perK * Totals(p, s).size
    decreases |s|
  {
    if s != {} {
      hide Totals, FeeTotal;
      var t :| t in s;
      PayTogether(p, perK, s - {t});
      FeeRemove(p, s, t);
      TotalsRemove(p, s, t);
      PayMore(perK, FeeTotal(p, s - {t}), Totals(p, s - {t}).size, p[t].fee, p[t].size);
    } else {
      assert Totals(p, {}) == Mod(0, 0) && FeeTotal(p, {}) == 0;
    }
  }

  lemma PayMore(perK: nat, fees: int, size: int, fee: int, more: int)
    requires fees * 1000 >= perK * size && fee * 1000 >= perK * more
    ensures (fee + fees) * 1000 >= perK * (more + size)
  {
    assert perK * (more + size) == perK * more + perK * size;
  }

  lemma PaysRate(perK: nat, size: nat, fee: int)
    requires fee * 1000 >= perK * size
    ensures fee >= MinFee(perK, size)
  {
    var x := perK * size;
    assert x / 1000 * 1000 <= x;
    if x / 1000 == 0 && size != 0 && perK > 0 { MulPositive(perK, size); }
  }

  /** A fee is enough exactly if it falls short of the rate by less than a unit, and is not nothing where
      something is due. */
  lemma EnoughIff(perK: nat, size: nat, fee: int)
    ensures fee >= MinFee(perK, size) <==> fee * 1000 > perK * size - 1000 && (perK * size > 0 ==> fee >= 1)
  {
    var x := perK * size;
    assert x == x / 1000 * 1000 + x % 1000;
    if size > 0 && perK > 0 { MulPositive(perK, size); }
  }

  lemma MulPositive(a: nat, b: nat)
    requires a > 0 && b > 0
    ensures a * b > 0
  {
  }

  lemma PicksAhead(p: Pool, max: nat, order: seq<Tx>, s: Stage, t: Tx, usingModified: bool)
    requires Fit(p, max) && StageOk(p, max, s) && Picks(p, order, s, t, usingModified)
    ensures t in p && (t in s.modified || !Skipped(s, t)) && (usingModified ==> t in s.modified) && (!usingModified ==> t !in s.modified)
  {
  }

  /** When every entry pays for itself no package that never failed stops the selection. */
  lemma NeverStops(p: Pool, max: nat, perK: nat, order: seq<Tx>, l: Ledger)
    requires Plain(p, max) && Sized(p) && Paying(p, perK) && LedgerOk(p, max, l) && l.stage.failed == {}
    ensures !FeeStops(p, perK, order, l)
  {
    hide NoDeltas, CachedFeesExact, Paying, Sane, Tracked, FeesTracked, MinFee, Totals, FeeTotal, Rest, BestKept, Beats, Wf, Exact, Sized;
    forall t, usingModified | PicksByScore(p, order, l, t, usingModified) ensures Pays(p, perK, l, t, usingModified) {
      PicksAhead(p, max, order, l.stage, t, usingModified);
      AheadExact(p, max, l, t);
      var rest := Rest(p, l.stage.block.inBlock, t);
      PayTogether(p, perK, rest);
      PaysRate(perK, Totals(p, rest).size, FeeTotal(p, rest));
    }
  }

  /** If all entries are final, pay the least rate for themselves and together leave room in size and
      signature operations, then whichever way selection ends, all of the pool is in the block. */
  lemma AllIn(p: Pool, max: nat, perK: nat, order: seq<Tx>, bs: seq<Block>, ls: seq<Ledger>)
    requires Plain(p, max) && Sized(p) && Roomy(p, max) && Paying(p, perK) && Elems(order) == p.Keys
    requires PaidRunOf(p, max, perK, order, bs, ls) && Ended(p, max, perK, order, ls)
    ensures ls[|ls| - 1].stage.block.inBlock == p.Keys
  {
    var ss, n := StagesOf(ls), |ls| - 1;
    hide Roomy, Sized, Paying, PaidRound, LedgerRound, Round, PriorityRun, NoDeltas, CachedFeesExact, StageOk, LedgerOk, FeeStops, RefusedIn, TooLarge, Fit;
    PaidIsRun(p, max, perK, order, bs, ls);
    RunStarts(p, max, order, bs, ss);
    NothingFails(p, max, order, ss, n);
    FeesAlwaysExact(p, max, order, bs, ls, n);
    NeverStops(p, max, perK, order, ls[n]);
    if GivesUp(p, max, order, ls) {
      var i :| i in Standstill(p, max, order, ls);
      NothingFails(p, max, order, ss, i);
      NeverTooLarge(p, max, order, ls[i]);
    } else {
      TakesAll(p, max, order, bs, ss);
    }
  }

  lemma NeverTooLarge(p: Pool, max: nat, order: seq<Tx>, l: Ledger)
    requires Fit(p, max) && Roomy(p, max) && StageOk(p, max, l.stage) && l.stage.failed == {}
    ensures !TooLarge(p, max, order, l)
  {
    hide Fit, Roomy, StageOk, HasRoom, Accepts, BestKept, Beats;
    forall t, usingModified | PicksByScore(p, order, l, t, usingModified) ensures HasRoom(max, l.stage.block.used, JudgedBy(p, l.stage, t, usingModified)) {
      RoomForAll(p, max, order, l.stage, t, usingModified);
    }
  }

  // ---------------------------------------------------------------- priority

  const COIN: nat := 100000000

  /** A priority that needs no fee. */
  predicate AllowFree(priority: real) { priority > (COIN * 144 / 250) as real }

  /** That is a coin that has waited 144 blocks, in a transaction of 250 bytes. */
  lemma AllowFreeIff(priority: real)
    ensures AllowFree(priority) <==> priority > 57600000.0
  {
  }

  /** All parents are in the block, and the entry is not. */
  predicate IsReady(p: Pool, b: Block, t: Tx) {
    t in p && t !in b.inBlock && p[t].parents <= b.inBlock
  }

  /** A ready entry that is not final or leaves no room. */
  predicate TurnedDown(p: Pool, max: nat, b: Block, t: Tx) {
    IsReady(p, b, t) && !(p[t].final && HasRoom(max, b.used, Weight(p[t])))
  }

  ghost predicate TurnedDownBy(p: Pool, max: nat, bs: seq<Block>, n: nat, t: Tx) {
    exists i :: 0 <= i < n && i < |bs| && TurnedDown(p, max, bs[i], t)
  }

  /** The transaction that was added last. */
  function LastOf(b: Block): Tx
    requires b.vtx != []
  {
    b.vtx[|b.vtx| - 1]
  }

  /** Enough is added by priority: the size for it is reached, or the last one needs a fee. */
  predicate Enough(size: nat, priority: Tx -> real, b: Block) {
    b.vtx != [] && (b.used.size >= size || !AllowFree(priority(LastOf(b))))
  }

  /** Every transaction added is one of greatest priority among those that are ready and were not turned
      down before. */
  ghost predicate ByPriority(p: Pool, max: nat, priority: Tx -> real, bs: seq<Block>) {
    forall i, u :: 0 < i < |bs| && bs[i].vtx != [] && IsReady(p, bs[i - 1], u) && !TurnedDownBy(p, max, bs, i, u) ==>
      priority(u) <= priority(LastOf(bs[i]))
  }

  /** No entry is left that is ready and was not turned down. */
  ghost predicate NoneReady(p: Pool, max: nat, bs: seq<Block>) {
    |bs| > 0 && forall t :: IsReady(p, bs[|bs| - 1], t) ==> TurnedDownBy(p, max, bs, |bs|, t)
  }

  /** An entry leaves no room, close to a full block in size or signature operations. */
  ghost predicate CloseToFull(p: Pool, max: nat, b: Block) {
    exists t :: IsReady(p, b, t) && !HasRoom(max, b.used, Weight(p[t])) &&
      (b.used.size > max - 1000 || (b.used.size + p[t].size >= 0 && b.used.sigops > MaxBlockSigOps(b.used.size + p[t].size) - 2))
  }

  /** The three ways selection by priority ends. */
  ghost predicate PriorityEnded(p: Pool, max: nat, size: nat, priority: Tx -> real, bs: seq<Block>) {
    && |bs| > 0 && (forall i :: 0 < i < |bs| - 1 ==> !Enough(size, priority, bs[i]))
    && ((|bs| > 1 && Enough(size, priority, bs[|bs| - 1])) || NoneReady(p, max, bs) || CloseToFull(p, max, bs[|bs| - 1]))
  }
}
