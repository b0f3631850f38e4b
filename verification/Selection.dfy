/** Block assembly as a run of steps: transactions by priority, then packages by score, in whatever
    order the scores give.  Every block an assembler can reach is the end of such a run. */
module Selection {

  import opened Packages
  import opened Templates

  const SIGOPS_PER_MB: nat := 20000
  const ONE_MEGABYTE: nat := 1000000

  /** The signature operations a block of some size may have, less one. */
  function MaxBlockSigOps(blockSize: nat): int {
    (1 + (blockSize - 1) / ONE_MEGABYTE) * SIGOPS_PER_MB
  }

  predicate AllFinal(p: Pool, s: set<Tx>)
    requires s <= p.Keys
  {
    forall t :: t in s ==> p[t].final
  }

  /** All of a block's transactions are final. */
  ghost predicate Finals(p: Pool, b: set<Tx>) {
    b <= p.Keys && AllFinal(p, b)
  }

  lemma FinalsMore(p: Pool, b: set<Tx>, more: set<Tx>)
    requires Finals(p, b) && more <= p.Keys && AllFinal(p, more)
    ensures Finals(p, b + more)
  {
  }

  lemma FinalOne(p: Pool, t: Tx)
    requires t in p && p[t].final
    ensures AllFinal(p, {t})
  {
  }

  // ---------------------------------------------------------------- the steps

  /** Room for some totals beside what a block uses. */
  predicate HasRoom(max: nat, used: Mod, more: Mod) {
    && 0 <= used.size + more.size < max
    && used.sigops + more.sigops < MaxBlockSigOps(used.size + more.size)
  }

  /** A priority step: a final transaction with room and all its parents in. */
  ghost predicate Readied(p: Pool, max: nat, b: Block, t: Tx, next: Block) {
    && t in p && t !in b.inBlock && p[t].parents <= b.inBlock && p[t].final
    && HasRoom(max, b.used, Weight(p[t])) && next == Push(p, b, t)
  }

  /** Where package selection stands: the block, the totals kept, what has failed, and the place in the
      pool's own order. */
  datatype Stage = Stage(block: Block, modified: map<Tx, Mod>, failed: set<Tx>, mi: nat)

  predicate Skipped(s: Stage, t: Tx) {
    t in s.modified || t in s.block.inBlock || t in s.failed
  }

  predicate Skips(order: seq<Tx>, s: Stage, next: Stage) {
    s.mi < |order| && Skipped(s, order[s.mi]) && next == s.(mi := s.mi + 1)
  }

  /** The entry evaluated next: the one in the pool's order or any with kept totals. */
  predicate Picks(p: Pool, order: seq<Tx>, s: Stage, t: Tx, usingModified: bool) {
    && t in p && (s.mi < |order| ==> !Skipped(s, order[s.mi]))
    && if usingModified then t in s.modified else s.mi < |order| && t == order[s.mi]
  }

  function JudgedBy(p: Pool, s: Stage, t: Tx, usingModified: bool): Mod
    requires t in p
  {
    if usingModified && t in s.modified then s.modified[t] else p[t].cached
  }

  /** The totals leave room, all that is missing is final and fits. */
  ghost predicate Accepts(p: Pool, max: nat, s: Stage, t: Tx, usingModified: bool)
    requires t in p
  {
    var rest := Rest(p, s.block.inBlock, t);
    && HasRoom(max, s.block.used, JudgedBy(p, s, t, usingModified))
    && rest <= p.Keys && AllFinal(p, rest) && s.block.used.size + Totals(p, rest).size < max
  }

  function Passed(s: Stage, usingModified: bool): nat { if usingModified then s.mi else s.mi + 1 }

  /** The package enters, sorted, and its descendants' totals are updated. */
  ghost predicate Enters(p: Pool, max: nat, s: Stage, t: Tx, usingModified: bool, ts: seq<Tx>, next: Stage) {
    && t in p && Accepts(p, max, s, t, usingModified)
    && Elems(ts) == Rest(p, s.block.inBlock, t) && Elems(ts) <= p.Keys && InOrder(p, ts)
    && next == Stage(PushAll(p, s.block, ts), Updated(p, s.modified - Elems(ts), Elems(ts), Elems(ts)),
                     s.failed, Passed(s, usingModified))
  }

  /** The entry is refused; one with kept totals loses them and counts as failed. */
  ghost predicate Refused(p: Pool, max: nat, s: Stage, t: Tx, usingModified: bool, next: Stage) {
    && t in p && !Accepts(p, max, s, t, usingModified)
    && next == if usingModified then s.(modified := s.modified - {t}, failed := s.failed + {t})
               else s.(mi := s.mi + 1)
  }

  ghost predicate Evaluated(p: Pool, max: nat, s: Stage, t: Tx, usingModified: bool, next: Stage) {
    Refused(p, max, s, t, usingModified, next) || exists ts :: Enters(p, max, s, t, usingModified, ts, next)
  }

  ghost predicate Round(p: Pool, max: nat, order: seq<Tx>, s: Stage, next: Stage) {
    Skips(order, s, next) ||
    exists t, usingModified :: Picks(p, order, s, t, usingModified) && Evaluated(p, max, s, t, usingModified, next)
  }

  // ---------------------------------------------------------------- the runs

  ghost predicate PriorityStep(p: Pool, max: nat, b: Block, next: Block) {
    exists t :: Readied(p, max, b, t, next)
  }

  ghost predicate PriorityRun(p: Pool, max: nat, bs: seq<Block>) {
    && |bs| > 0 && bs[0] == FRESH_BLOCK
    && forall i :: 0 <= i < |bs| - 1 ==> PriorityStep(p, max, bs[i], bs[i + 1])
  }

  /** Totals kept for the descendants of what is in the block already. */
  ghost predicate Begins(p: Pool, b: Block, s: Stage) {
    b.inBlock <= p.Keys && s == Stage(b, Updated(p, map[], b.inBlock, b.inBlock), {}, 0)
  }

  ghost predicate PackageRun(p: Pool, max: nat, order: seq<Tx>, ss: seq<Stage>) {
    |ss| > 0 && forall i :: 0 <= i < |ss| - 1 ==> Round(p, max, order, ss[i], ss[i + 1])
  }

  ghost predicate RunOf(p: Pool, max: nat, order: seq<Tx>, bs: seq<Block>, ss: seq<Stage>) {
    && |bs| > 0 && |ss| > 0 && PriorityRun(p, max, bs) && PackageRun(p, max, order, ss)
    && Begins(p, bs[|bs| - 1], ss[0])
  }

  /** A block that some run ends with. */
  ghost predicate Assembled(p: Pool, max: nat, order: seq<Tx>, b: Block) {
    exists bs: seq<Block>, ss: seq<Stage> :: RunOf(p, max, order, bs, ss) && b == ss[|ss| - 1].block
  }

  // ---------------------------------------------------------------- what every step keeps

  /** The pool's sets and totals are right and the limit covers the coinbase reserve. */
  ghost predicate Fit(p: Pool, max: nat) {
    Wf(p) && Exact(p) && max >= 1000
  }

  ghost predicate Sane(p: Pool, max: nat, b: Block) {
    Ok(p, max, b) && Finals(p, b.inBlock) && b.used.sigops < MaxBlockSigOps(max - 1)
  }

  ghost predicate StageOk(p: Pool, max: nat, s: Stage) {
    max >= 1000 && Sane(p, max, s.block) && Tracked(p, s.block.inBlock, s.modified, s.failed)
  }

  lemma PackageAdded(p: Pool, max: nat, b: Block, t: Tx, ts: seq<Tx>, m: map<Tx, Mod>, failed: set<Tx>)
    requires Wf(p) && Exact(p) && Ok(p, max, b) && t in p && Elems(ts) <= p.Keys
    requires Elems(ts) == Rest(p, b.inBlock, t) && InOrder(p, ts) && b.used.size + Totals(p, Elems(ts)).size <= max
    requires Tracked(p, b.inBlock, m, failed)
    ensures var n := PushAll(p, b, ts);
      && Ok(p, max, n) && n.inBlock == b.inBlock + Elems(ts) && n.vtx == b.vtx + ts && m.Keys <= p.Keys
      && Tracked(p, n.inBlock, Updated(p, m - Elems(ts), Elems(ts), Elems(ts)), failed)
  {
    hide Wf, Totals, InOrder, PushAll, Updated, Exact, Sound, FeesOf, SumOf;
    assert Sorted(p, b.inBlock, t, ts) && Fits(p, max, b, t, ts);
    assert Closed(p, b.inBlock) && Elems(ts) !! b.inBlock && m.Keys <= p.Keys;
    hide Sorted, Fits, Tracked;
    PackageOk(p, max, b, t, ts, |ts|);
    assert ts[..|ts|] == ts;
    PushAllIn(p, b, ts);
    assert Closed(p, PushAll(p, b, ts).inBlock);
    TrackedAfter(p, b.inBlock, m, failed, Elems(ts));
  }

  lemma MoreSizeMoreSigOps(a: nat, b: nat)
    requires a <= b
    ensures MaxBlockSigOps(a) <= MaxBlockSigOps(b)
  {
  }

  /** With all parents in a closed block, all ancestors are in it. */
  lemma ParentsSuffice(p: Pool, b: set<Tx>, t: Tx)
    requires Wf(p) && Closed(p, b) && t in p && p[t].parents <= b
    ensures p[t].ancestors <= b
  {
    assert LinkedAt(p, t);
    forall a | a in p[t].ancestors ensures a in b {
      if a !in p[t].parents {
        assert Through(p, t, a);
        var u :| u in p[t].parents && u in p && a in p[u].ancestors;
      }
    }
  }

  lemma FreshSane(p: Pool, max: nat)
    requires max >= 1000
    ensures Sane(p, max, FRESH_BLOCK)
  {
    FreshOk(p, max);
    MoreSizeMoreSigOps(1, max - 1);
  }

  /** Room at some size means room at the greatest size. */
  lemma RoomAtMost(max: nat, used: Mod, more: Mod, needed: Mod)
    requires HasRoom(max, used, more) && AtLeast(more, needed)
    ensures used.sigops + needed.sigops < MaxBlockSigOps(max - 1)
  {
    MoreSizeMoreSigOps(used.size + more.size, max - 1);
  }

  lemma ReadiedKeeps(p: Pool, max: nat, b: Block, t: Tx, next: Block)
    requires Fit(p, max) && Sane(p, max, b) && Readied(p, max, b, t, next)
    ensures Sane(p, max, next)
  {
    RoomAtMost(max, b.used, Weight(p[t]), Weight(p[t]));
    assert Closed(p, b.inBlock) && b.used.size + p[t].size <= max;
    hide Ok, Wf, Exact, Closed, Finals, AllFinal, MaxBlockSigOps, HasRoom;
    FinalOne(p, t);
    FinalsMore(p, b.inBlock, {t});
    ParentsSuffice(p, b.inBlock, t);
    PushOk(p, max, b, t);
  }

  /** The totals an entry is judged by are at least what it still needs, and exactly that unless it has
      failed before. */
  lemma JudgedFairly(p: Pool, order: seq<Tx>, s: Stage, t: Tx, usingModified: bool)
    requires Exact(p) && Tracked(p, s.block.inBlock, s.modified, s.failed) && Picks(p, order, s, t, usingModified)
    ensures t !in s.block.inBlock && Rest(p, s.block.inBlock, t) <= p.Keys
    ensures AtLeast(JudgedBy(p, s, t, usingModified), Totals(p, Rest(p, s.block.inBlock, t)))
    ensures t !in s.failed ==> JudgedBy(p, s, t, usingModified) == Totals(p, Rest(p, s.block.inBlock, t))
  {
    hide Totals;
    var b := s.block.inBlock;
    assert TrackedAt(p, b, s.modified, s.failed, t) && ExactAt(p, t);
    hide Tracked, Exact;
    assert {} + b == b;
    RestAfter(p, b, {}, t);
  }

  /** An entry that is not skipped has cached totals that are not stale. */
  lemma NotStale(p: Pool, max: nat, s: Stage, t: Tx)
    requires Fit(p, max) && StageOk(p, max, s) && t in p && !Skipped(s, t)
    ensures Rest(p, s.block.inBlock, t) <= p.Keys && p[t].cached == Totals(p, Rest(p, s.block.inBlock, t))
  {
    var at := s.(mi := 0);
    JudgedFairly(p, [t], at, t, false);
  }

  lemma SigOpsAdded(p: Pool, max: nat, b: Block, more: set<Tx>, next: Block)
    requires Ok(p, max, b) && Ok(p, max, next) && b.inBlock <= p.Keys && more <= p.Keys && more !! b.inBlock && next.inBlock == b.inBlock + more
    ensures next.used.sigops == b.used.sigops + Totals(p, more).sigops
  {
    hide Totals, Sound, Closed, FeesOf, SumOf;
    TotalsSplit(p, next.inBlock, more);
    assert next.inBlock - more == b.inBlock;
  }

  lemma RestDisjoint(p: Pool, b: set<Tx>, t: Tx)
    requires t in p
    ensures Rest(p, b, t) !! b
  {
  }

  lemma EntersKeeps(p: Pool, max: nat, order: seq<Tx>, s: Stage, t: Tx, usingModified: bool, ts: seq<Tx>, next: Stage)
    requires Fit(p, max) && StageOk(p, max, s) && Picks(p, order, s, t, usingModified)
    requires Enters(p, max, s, t, usingModified, ts, next)
    ensures StageOk(p, max, next)
  {
    hide Ok, Wf, Exact, Totals, Tracked, Updated, PushAll, InOrder, Elems, AllFinal, MaxBlockSigOps, JudgedBy, HasRoom, Rest, Picks;
    var b, rest := s.block, Rest(p, s.block.inBlock, t);
    JudgedFairly(p, order, s, t, usingModified);
    RoomAtMost(max, b.used, JudgedBy(p, s, t, usingModified), Totals(p, rest));
    PackageAdded(p, max, b, t, ts, s.modified, s.failed);
    RestDisjoint(p, b.inBlock, t);
    SigOpsAdded(p, max, b, rest, next.block);
    hide Finals;
    FinalsMore(p, b.inBlock, rest);
  }

  lemma RoundKeeps(p: Pool, max: nat, order: seq<Tx>, s: Stage, next: Stage)
    requires Fit(p, max) && StageOk(p, max, s) && Round(p, max, order, s, next)
    ensures StageOk(p, max, next)
  {
    hide Sane, Tracked, Enters, Accepts, Wf, Exact;
    if !Skips(order, s, next) {
      var t, usingModified :| Picks(p, order, s, t, usingModified) && Evaluated(p, max, s, t, usingModified, next);
      if Refused(p, max, s, t, usingModified, next) {
        TrackedFail(p, s.block.inBlock, s.modified, s.failed, t);
      } else {
        var ts :| Enters(p, max, s, t, usingModified, ts, next);
        EntersKeeps(p, max, order, s, t, usingModified, ts, next);
      }
    }
  }

  lemma {:induction false} PriorityKeeps(p: Pool, max: nat, bs: seq<Block>, i: nat)
    requires Fit(p, max) && PriorityRun(p, max, bs) && i < |bs|
    ensures Sane(p, max, bs[i])
  {
    hide Sane, Readied, Wf, Exact;
    if i == 0 {
      FreshSane(p, max);
    } else {
      PriorityKeeps(p, max, bs, i - 1);
      assert PriorityStep(p, max, bs[i - 1], bs[i - 1 + 1]);
      var t :| Readied(p, max, bs[i - 1], t, bs[i]);
      ReadiedKeeps(p, max, bs[i - 1], t, bs[i]);
    }
  }

  lemma BeginsOk(p: Pool, max: nat, b: Block, s: Stage)
    requires Fit(p, max) && Sane(p, max, b) && Begins(p, b, s)
    ensures StageOk(p, max, s)
  {
    hide Updated, Exact, Tracked, Finals, Totals;
    TrackedStart(p, b.inBlock);
  }

  lemma {:induction false} PackagesKeep(p: Pool, max: nat, order: seq<Tx>, ss: seq<Stage>, i: nat)
    requires Fit(p, max) && PackageRun(p, max, order, ss) && StageOk(p, max, ss[0]) && i < |ss|
    ensures StageOk(p, max, ss[i])
  {
    hide StageOk, Round, Wf, Exact;
    if i > 0 {
      PackagesKeep(p, max, order, ss, i - 1);
      RoundKeeps(p, max, order, ss[i - 1], ss[i]);
    }
  }

  /** Every block a run ends with is in order, final and within both limits at the greatest size. */
  lemma AssembledSane(p: Pool, max: nat, order: seq<Tx>, b: Block)
    requires Fit(p, max) && Assembled(p, max, order, b)
    ensures Sane(p, max, b)
  {
    hide StageOk, PackageRun, PriorityRun, Begins, Wf, Exact, Sane;
    var bs: seq<Block>, ss: seq<Stage> :| RunOf(p, max, order, bs, ss) && b == ss[|ss| - 1].block;
    RunEnds(p, max, order, bs, ss);
  }

  lemma RunEnds(p: Pool, max: nat, order: seq<Tx>, bs: seq<Block>, ss: seq<Stage>)
    requires Fit(p, max) && RunOf(p, max, order, bs, ss)
    ensures |ss| > 0 && Sane(p, max, ss[|ss| - 1].block)
  {
    hide Round, Readied, Begins, Wf, Exact, Sane, Tracked;
    PriorityKeeps(p, max, bs, |bs| - 1);
    BeginsOk(p, max, bs[|bs| - 1], ss[0]);
    PackagesKeep(p, max, order, ss, |ss| - 1);
  }
}
