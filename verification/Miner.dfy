/** The block assembler: selection by priority, then by package. */
module Miner {

  import opened Basics
  import opened Packages
  import opened Templates
  import opened Selection
  import opened Scores
  import opened Endings
  import Fees

  /** Entries that spend an output of t. */
  function Children(p: Pool, t: Tx): set<Tx>
  {
    set d | d in p && t in p[d].parents
  }

  /** One more transaction of a walk over a package. */
  lemma WalkStep(p: Pool, package: set<Tx>, todo: set<Tx>, t: Tx)
    requires package <= p.Keys && todo <= package && t in todo
    ensures var done, next := package - todo, package - (todo - {t});
      && Totals(p, next) == Plus(Totals(p, done), Weight(p[t])) && Totals(p, next).size <= Totals(p, package).size
      && (AllFinal(p, next) <==> AllFinal(p, done) && p[t].final) && (AllFinal(p, package) ==> p[t].final)
  {
    hide Totals;
    TotalsAdd(p, package - todo, t);
    assert package - todo + {t} == package - (todo - {t});
    TotalsSplit(p, package, package - (todo - {t}));
  }

  /** Every entry is at most once in the queue or among the waiting, and neither holds one that is in
      the block. */
  predicate Queued(p: Pool, b: set<Tx>, queue: multiset<Tx>, wait: set<Tx>) {
    && (forall t :: t in queue ==> t in p && t !in b && t !in wait && queue[t] == 1)
    && wait <= p.Keys && wait !! b
  }

  predicate AllBefore(p: Pool, sorted: seq<Tx>, todo: set<Tx>) {
    && (forall i :: 0 <= i < |sorted| ==> sorted[i] in p) && todo <= p.Keys
    && forall i, y :: 0 <= i < |sorted| && y in todo && sorted[i] in p ==> Before(p, sorted[i], y)
  }

  /** The first of what is left goes to the end. */
  lemma SortStep(p: Pool, sorted: seq<Tx>, todo: set<Tx>, x: Tx)
    requires todo <= p.Keys && x in todo && InOrder(p, sorted) && AllBefore(p, sorted, todo)
    requires forall y :: y in todo && y != x ==> Before(p, x, y)
    ensures InOrder(p, sorted + [x]) && AllBefore(p, sorted + [x], todo - {x}) && Elems(sorted + [x]) == Elems(sorted) + {x}
  {
    ElemsSnoc(sorted, x);
    hide Before, Elems;
  }

  class BlockAssembler {
    const pool: Pool
    const maxSize: nat
    const minFeePerK: nat

    var vtx: seq<Tx>
    var fees: seq<int>
    var inBlock: set<Tx>
    var nBlockSize: nat
    var nBlockSigOps: nat
    var nBlockTx: nat
    var nFees: int
    var lastFewTxs: nat
    var blockFinished: bool

    function Snapshot(): Block
      reads this
    {
      Block(vtx, fees, inBlock, Mod(nBlockSize, nBlockSigOps), nBlockTx, nFees)
    }

    ghost predicate Valid()
      reads this
    {
      maxSize >= 1000 && Wf(pool) && Exact(pool) && Sized(pool) && Ok(pool, maxSize, Snapshot()) && Finals(pool, inBlock)
    }

    constructor (pool: Pool, maxSize: nat, minFeePerK: nat)
      requires Wf(pool) && Exact(pool) && Sized(pool) && maxSize >= 1000
      ensures Valid() && Snapshot() == FRESH_BLOCK && this.pool == pool && this.maxSize == maxSize && this.minFeePerK == minFeePerK
    {
      this.pool, this.maxSize, this.minFeePerK := pool, maxSize, minFeePerK;
      vtx, fees, inBlock := [], [], {};
      nBlockSize, nBlockSigOps, nBlockTx, nFees := 1000, 100, 0, 0;
      lastFewTxs, blockFinished := 0, false;
      FreshOk(pool, maxSize);
    }

    method AddToBlock(t: Tx)
      requires t in pool
      modifies this
      ensures Snapshot() == Push(pool, old(Snapshot()), t)
      ensures lastFewTxs == old(lastFewTxs) && blockFinished == old(blockFinished)
    {
      vtx := vtx + [t];
      fees := fees + [pool[t].fee];
      nBlockSize := nBlockSize + pool[t].size;
      nBlockTx := nBlockTx + 1;
      nBlockSigOps := nBlockSigOps + pool[t].sigops;
      nFees := nFees + pool[t].fee;
      inBlock := inBlock + {t};
    }

    /** Some in-pool parent is not in the block yet. */
    method IsStillDependent(t: Tx) returns (r: bool)
      requires t in pool
      ensures r <==> !(pool[t].parents <= inBlock)
    {
      var todo := pool[t].parents;
      while todo != {}
        invariant todo <= pool[t].parents && pool[t].parents - todo <= inBlock
      {
        var parent :| parent in todo;
        if parent !in inBlock { return true; }
        todo := todo - {parent};
      }
      return false;
    }

    method OnlyUnconfirmed(testSet: set<Tx>) returns (r: set<Tx>)
      ensures r == testSet - inBlock
    {
      r := testSet;
      var todo := testSet;
      while todo != {}
        invariant todo <= testSet && r == todo + (testSet - todo - inBlock)
      {
        var t :| t in todo;
        if t in inBlock { r := r - {t}; }
        todo := todo - {t};
      }
    }

    method TestPackage(packageSize: int, packageSigOps: int) returns (r: bool)
      requires packageSize >= 0
      ensures r <==> HasRoom(maxSize, Mod(nBlockSize, nBlockSigOps), Mod(packageSize, packageSigOps))
    {
      var blockSizeWithPackage := nBlockSize + packageSize;
      if blockSizeWithPackage >= maxSize { return false; }
      if nBlockSigOps + packageSigOps >= MaxBlockSigOps(blockSizeWithPackage) { return false; }
      return true;
    }

    /** Finality and running size, in whatever order the package is walked: exactly that all are final
        and the whole package fits. */
    method TestPackageTransactions(package: set<Tx>) returns (r: bool)
      requires package <= pool.Keys
      ensures r <==> AllFinal(pool, package) && (package == {} || nBlockSize + Totals(pool, package).size < maxSize)
    {
      var potential := nBlockSize;
      var todo := package;
      assert package - todo == {} && AllFinal(pool, {});
      hide Totals, AllFinal;
      TotalsNone(pool);
      while todo != {}
        invariant todo <= package && AllFinal(pool, package - todo)
        invariant potential == nBlockSize + Totals(pool, package - todo).size
        invariant package != todo ==> potential < maxSize
        decreases |todo|
      {
        var t :| t in todo;
        WalkStep(pool, package, todo, t);
        if !pool[t].final { return false; }
        if potential + pool[t].size >= maxSize { return false; }
        potential := potential + pool[t].size;
        todo := todo - {t};
      }
      assert package - todo == package;
      return true;
    }

    method TestForBlock(t: Tx) returns (r: bool)
      requires t in pool && maxSize >= 1000
      modifies `lastFewTxs, `blockFinished
      ensures r <==> pool[t].final && HasRoom(maxSize, Mod(nBlockSize, nBlockSigOps), Weight(pool[t]))
      ensures var full := nBlockSize + pool[t].size >= maxSize; var most := MaxBlockSigOps(nBlockSize + pool[t].size);
        var close := nBlockSize > maxSize - 100 || old(lastFewTxs) > 50;
        && blockFinished == (old(blockFinished) ||
             if full then close else nBlockSigOps + pool[t].sigops >= most && nBlockSigOps > most - 2)
        && lastFewTxs == old(lastFewTxs) + if full && !close && nBlockSize > maxSize - 1000 then 1 else 0
    {
      var blockSizeWithTx := nBlockSize + pool[t].size;
      if blockSizeWithTx >= maxSize {
        if nBlockSize > maxSize - 100 || lastFewTxs > 50 {
          blockFinished := true;
          return false;
        }
        if nBlockSize > maxSize - 1000 { lastFewTxs := lastFewTxs + 1; }
        return false;
      }
      var maxBlockSigOps := MaxBlockSigOps(blockSizeWithTx);
      if nBlockSigOps + pool[t].sigops >= maxBlockSigOps {
        if nBlockSigOps > maxBlockSigOps - 2 {
          blockFinished := true;
          return false;
        }
        return false;
      }
      if !pool[t].final { return false; }
      return true;
    }

    /** All descendants of what was added lose it from their totals. */
    method UpdatePackagesForAdded(added: set<Tx>, modified: map<Tx, Mod>) returns (r: map<Tx, Mod>)
      requires added <= pool.Keys && modified.Keys <= pool.Keys
      ensures r == Updated(pool, modified, added, added)
    {
      r := modified;
      var todo := added;
      UpdatedStart(pool, modified, added);
      assert added - todo == {};
      hide Updated;
      while todo != {}
        invariant todo <= added && r == Updated(pool, modified, added, added - todo)
        decreases |todo|
      {
        var it :| it in todo;
        UpdatedAt(pool, modified, added, added - todo, it);
        UpdateStep(pool, modified, added, added - todo, it);
        r := UpdateDescendants(it, added, r);
        assert added - todo + {it} == added - (todo - {it});
        todo := todo - {it};
      }
      assert added - todo == added;
    }

    method UpdateDescendants(it: Tx, added: set<Tx>, modified: map<Tx, Mod>) returns (r: map<Tx, Mod>)
      requires it in pool && modified.Keys <= pool.Keys
      ensures r == Deducted(pool, modified, it, Descendants(pool, it) - added)
    {
      r := modified;
      var all := Descendants(pool, it);
      var todo := all;
      DeductStart(pool, modified, it);
      assert all - todo - added == {} && all <= pool.Keys;
      hide Deducted, Descendants;
      while todo != {}
        invariant todo <= all && r == Deducted(pool, modified, it, all - todo - added)
        decreases |todo|
      {
        var desc :| desc in todo;
        DeductNext(pool, modified, it, all, todo, added, desc);
        if desc !in added {
          var entry := if desc in r then r[desc] else pool[desc].cached;
          r := r[desc := Mod(entry.size - pool[it].size, entry.sigops - pool[it].sigops)];
        }
        todo := todo - {desc};
      }
      assert all - todo - added == all - added;
    }

    /** Already considered, or its cached totals are stale. */
    method SkipMapTxEntry(t: Tx, modified: map<Tx, Mod>, failed: set<Tx>) returns (r: bool)
      ensures r <==> t in modified || t in inBlock || t in failed
    {
      return t in modified || t in inBlock || t in failed;
    }

    /** The member of a package that comes before all others. */
    method First(package: set<Tx>) returns (x: Tx)
      requires package <= pool.Keys && package != {}
      ensures x in package && forall y :: y in package && y != x ==> Before(pool, x, y)
    {
      x :| x in package;
      var todo := package - {x};
      while todo != {}
        invariant x in package && todo <= package && x !in todo
        invariant forall y :: y in package && y !in todo && y != x ==> Before(pool, x, y)
        decreases |todo|
      {
        var y :| y in todo;
        if Before(pool, y, x) { x := y; }
        todo := todo - {y};
      }
    }

    /** The package in an order that is valid in a block. */
    method SortForBlock(package: set<Tx>) returns (sorted: seq<Tx>)
      requires package <= pool.Keys
      ensures Elems(sorted) == package && InOrder(pool, sorted)
    {
      sorted := [];
      var todo := package;
      assert Elems([]) == {} && AllBefore(pool, [], todo);
      hide Elems, InOrder, AllBefore, Before;
      while todo != {}
        invariant todo <= package && Elems(sorted) == package - todo && InOrder(pool, sorted) && AllBefore(pool, sorted, todo)
        decreases |todo|
      {
        var x := First(todo);
        SortStep(pool, sorted, todo, x);
        assert package - (todo - {x}) == package - todo + {x};
        sorted := sorted + [x];
        todo := todo - {x};
      }
    }

    /** Adds the entries in order and drops the totals kept for them. */
    method AddSorted(sorted: seq<Tx>, modified: map<Tx, Mod>) returns (r: map<Tx, Mod>)
      requires Elems(sorted) <= pool.Keys
      modifies this
      ensures Snapshot() == PushAll(pool, old(Snapshot()), sorted) && r == modified - Elems(sorted)
    {
      ghost var start := Snapshot();
      r := modified;
      assert sorted[..0] == [] && modified - {} == modified;
      hide Push;
      for i := 0 to |sorted|
        invariant Elems(sorted[..i]) <= pool.Keys
        invariant Snapshot() == PushAll(pool, start, sorted[..i]) && r == modified - Elems(sorted[..i])
      {
        PushNext(pool, start, sorted, i);
        ElemsPrefix(sorted, i);
        AddToBlock(sorted[i]);
        r := r - {sorted[i]};
        assert modified - Elems(sorted[..i]) - {sorted[i]} == modified - Elems(sorted[..i + 1]);
      }
      assert sorted[..|sorted|] == sorted;
    }

    /** Adds a package that fits, forgets the totals kept for its members and updates those of its
        descendants. */
    method AddPackage(iter: Tx, package: set<Tx>, modified: map<Tx, Mod>, kept: map<Tx, int>, ghost failed: set<Tx>)
      returns (r: map<Tx, Mod>, k: map<Tx, int>, ghost sorted: seq<Tx>)
      requires Valid() && iter in pool && package == Rest(pool, inBlock, iter) && package <= pool.Keys
      requires nBlockSize + Totals(pool, package).size <= maxSize && Tracked(pool, inBlock, modified, failed)
      requires AllFinal(pool, package) && kept.Keys == modified.Keys
      modifies this
      ensures Valid() && inBlock == old(inBlock) + package && old(vtx) <= vtx && Tracked(pool, inBlock, r, failed)
      ensures Elems(sorted) == package && InOrder(pool, sorted) && k.Keys == r.Keys && Deducts(pool, kept, package, k)
      ensures Snapshot() == PushAll(pool, old(Snapshot()), sorted) && r == Updated(pool, modified - package, package, package)
    {
      var entries := SortForBlock(package);
      sorted := entries;
      hide Ok, Wf, Totals, Tracked, InOrder, PushAll, Rest, Updated, Elems, Exact, Finals, AllFinal, Fees.DeductedAll, Distinct, Sized;
      FinalsMore(pool, inBlock, package);
      PackageAdded(pool, maxSize, Snapshot(), iter, entries, modified, failed);
      r := AddSorted(entries, modified);
      r := UpdatePackagesForAdded(package, r);
      ghost var its;
      k, its := Fees.UpdateFees(pool, kept - package, package);
      SameEntries(pool, modified, kept, package, its);
      assert DeductsBy(pool, kept, package, its, k);
    }

    /** Waiting children of t go back into the queue. */
    method Requeue(t: Tx, queue: multiset<Tx>, wait: set<Tx>) returns (q: multiset<Tx>, w: set<Tx>)
      requires Queued(pool, inBlock, queue, wait)
      ensures Queued(pool, inBlock, q, w) && w == wait - Children(pool, t)
      ensures q == queue + multiset(wait * Children(pool, t))
    {
      q, w := queue, wait;
      var all := Children(pool, t);
      var todo := all;
      hide Children, Queued;
      assert wait * (all - todo) == {} && wait - (all - todo) == wait;
      while todo != {}
        invariant todo <= all && Queued(pool, inBlock, q, w)
        invariant w == wait - (all - todo) && q == queue + multiset(wait * (all - todo))
        decreases |todo|
      {
        var child :| child in todo;
        WaitStep(wait, all, todo, child);
        if child in w {
          QueuedPush(pool, inBlock, q, w, child);
          q := q + multiset{child};
          w := w - {child};
        }
        todo := todo - {child};
      }
      assert all - todo == all;
    }

    /** The queued entry of greatest priority. */
    method Front(queue: multiset<Tx>, priority: Tx -> real) returns (iter: Tx)
      requires queue != multiset{}
      ensures iter in queue && forall u :: u in queue ==> priority(u) <= priority(iter)
    {
      iter :| iter in queue;
      var todo := set t | t in queue;
      while todo != {}
        invariant iter in queue && forall u :: u in queue && u !in todo ==> priority(u) <= priority(iter)
        decreases |todo|
      {
        var u :| u in todo;
        if priority(u) > priority(iter) && u in queue { iter := u; }
        todo := todo - {u};
      }
    }

    /** The priority pass goes on from here. */
    ghost predicate Filling(size: nat, priority: Tx -> real, queue: multiset<Tx>, wait: set<Tx>, bs: seq<Block>)
      reads this
    {
      && Valid() && PriorityAt(pool, maxSize, size, priority, Snapshot(), queue, wait, bs)
      && (lastFewTxs > 0 ==> nBlockSize > maxSize - 1000) && (blockFinished ==> CloseToFull(pool, maxSize, Snapshot()))
    }

    /** The priority pass has ended here. */
    ghost predicate Filled(size: nat, priority: Tx -> real, bs: seq<Block>)
      reads this
    {
      && Valid() && |bs| > 0 && PriorityRun(pool, maxSize, bs) && bs[|bs| - 1] == Snapshot()
      && ByPriority(pool, maxSize, priority, bs) && PriorityEnded(pool, maxSize, size, priority, bs)
    }

    /** The next entry off the queue: it waits for a parent, is turned down, or goes into the block and wakes
        its waiting children. */
    method NextPriority(queue: multiset<Tx>, wait: set<Tx>, size: nat, priority: Tx -> real, ghost bs: seq<Block>)
      returns (stop: bool, q: multiset<Tx>, w: set<Tx>, ghost run: seq<Block>)
      requires Filling(size, priority, queue, wait, bs) && queue != multiset{} && !blockFinished
      modifies this
      ensures if stop then Filled(size, priority, run) else Filling(size, priority, q, w, run)
      ensures (inBlock == old(inBlock) && |q| < |queue|) || |pool.Keys - inBlock| < |pool.Keys - old(inBlock)|
    {
      hide Valid, PriorityAt, PriorityRun, ByPriority, PriorityEnded, CloseToFull;
      var iter := Front(queue, priority);
      OffQueue(pool, maxSize, size, priority, Snapshot(), queue, wait, bs, iter);
      assert iter !in inBlock;
      stop, q, w, run := false, queue - multiset{iter}, wait, bs;
      var dependent := IsStillDependent(iter);
      if dependent {
        w := wait + {iter};
        WaitsMore(pool, maxSize, size, priority, Snapshot(), queue, wait, bs, iter);
        return;
      }
      var ok := TryForBlock(iter);
      if !ok {
        DownMore(pool, maxSize, size, priority, Snapshot(), queue, wait, bs, iter);
        return;
      }
      ghost var before := Snapshot();
      AddReady(iter);
      run := bs + [Snapshot()];
      PushedLast(pool, maxSize, before, iter, Snapshot());
      if nBlockSize >= size || !AllowFree(priority(iter)) {
        stop := true;
        StopsHere(pool, maxSize, size, priority, before, queue, wait, bs, iter, Snapshot());
        return;
      }
      QueuedAfter(pool, maxSize, size, priority, before, queue, wait, bs, iter);
      q, w := Requeue(iter, q, wait);
      AddedMore(pool, maxSize, size, priority, before, queue, wait, bs, iter, Snapshot());
    }

    /** Tests a ready entry, and notes when the block is as good as full. */
    method TryForBlock(iter: Tx) returns (ok: bool)
      requires Valid() && IsReady(pool, Snapshot(), iter) && !blockFinished && (lastFewTxs > 0 ==> nBlockSize > maxSize - 1000)
      modifies `lastFewTxs, `blockFinished
      ensures Valid() && (ok <==> !TurnedDown(pool, maxSize, Snapshot(), iter))
      ensures (lastFewTxs > 0 ==> nBlockSize > maxSize - 1000) && (blockFinished ==> CloseToFull(pool, maxSize, Snapshot())) && (ok ==> !blockFinished)
    {
      hide Ok, Wf, Exact, Finals, Sized, MaxBlockSigOps;
      ok := TestForBlock(iter);
      assert CloseBy(pool, maxSize, Snapshot(), iter) ==> CloseToFull(pool, maxSize, Snapshot());
    }

    /** Selection by priority: the entry of greatest priority first, until enough is added, none is ready, or
        the block is as good as full.  None comes off the queue that is in the block already. */
    method AddPriorityTxs(percentage: nat, priority: Tx -> real) returns (ghost bs: seq<Block>)
      requires Valid() && Snapshot() == FRESH_BLOCK && lastFewTxs == 0 && !blockFinished
      modifies this
      ensures Valid() && |bs| > 0 && PriorityRun(pool, maxSize, bs) && bs[|bs| - 1] == Snapshot() && ByPriority(pool, maxSize, priority, bs)
      ensures percentage == 0 ==> |bs| == 1
      ensures percentage > 0 ==> PriorityEnded(pool, maxSize, maxSize * percentage / 100, priority, bs)
    {
      hide Valid, PriorityRun;
      bs := [Snapshot()];
      FreshRun(pool, maxSize);
      if percentage == 0 { return; }
      hide Filled, Filling, PriorityEnded, ByPriority, CloseToFull;
      var size := maxSize * percentage / 100;
      var queue, wait := multiset(pool.Keys), {};
      PriorityStart(pool, maxSize, size, priority);
      FillingStart(size, priority);
      while queue != multiset{} && !blockFinished
        invariant Filling(size, priority, queue, wait, bs)
        decreases |pool.Keys - inBlock|, |queue|
      {
        var stop;
        stop, queue, wait, bs := NextPriority(queue, wait, size, priority, bs);
        if stop {
          FilledIs(size, priority, bs);
          return;
        }
      }
      FilledUp(size, priority, queue, wait, bs);
      FilledIs(size, priority, bs);
    }

    lemma FillingStart(size: nat, priority: Tx -> real)
      requires Valid() && Snapshot() == FRESH_BLOCK && lastFewTxs == 0 && !blockFinished
      requires PriorityAt(pool, maxSize, size, priority, FRESH_BLOCK, multiset(pool.Keys), {}, [FRESH_BLOCK])
      ensures Filling(size, priority, multiset(pool.Keys), {}, [FRESH_BLOCK])
    {
    }

    lemma FilledIs(size: nat, priority: Tx -> real, bs: seq<Block>)
      requires Filled(size, priority, bs)
      ensures Valid() && |bs| > 0 && PriorityRun(pool, maxSize, bs) && bs[|bs| - 1] == Snapshot()
      ensures ByPriority(pool, maxSize, priority, bs) && PriorityEnded(pool, maxSize, size, priority, bs)
    {
    }

    lemma FilledUp(size: nat, priority: Tx -> real, queue: multiset<Tx>, wait: set<Tx>, bs: seq<Block>)
      requires Filling(size, priority, queue, wait, bs) && (queue == multiset{} || blockFinished)
      ensures Filled(size, priority, bs)
    {
      hide Valid, PriorityAt, CloseToFull;
      EndsHere(pool, maxSize, size, priority, Snapshot(), queue, wait, bs);
    }

    /** Adds an entry all of whose parents are in the block. */
    method AddReady(t: Tx)
      requires Valid() && t in pool && t !in inBlock && pool[t].parents <= inBlock && pool[t].final
      requires HasRoom(maxSize, Mod(nBlockSize, nBlockSigOps), Weight(pool[t]))
      modifies this
      ensures Readied(pool, maxSize, old(Snapshot()), t, Snapshot())
      ensures Valid() && inBlock == old(inBlock) + {t} && vtx == old(vtx) + [t]
      ensures blockFinished == old(blockFinished) && lastFewTxs == old(lastFewTxs)
      ensures |pool.Keys - inBlock| < |pool.Keys - old(inBlock)|
    {
      assert Closed(pool, inBlock);
      hide Ok, Wf, Exact, Closed, Finals, AllFinal, MaxBlockSigOps;
      FinalOne(pool, t);
      FinalsMore(pool, inBlock, {t});
      ParentsSuffice(pool, inBlock, t);
      PushOk(pool, maxSize, Snapshot(), t);
      OneFewer(pool, inBlock, t);
      AddToBlock(t);
    }

    /** The entry with kept totals that comes before all others. */
    method BestOf(modified: map<Tx, Mod>, kept: map<Tx, int>, ghost failed: set<Tx>, ghost mi: nat) returns (x: Tx)
      requires Sized(pool) && Tracked(pool, inBlock, modified, failed) && kept.Keys == modified.Keys && modified != map[]
      ensures BestKept(pool, Ledger(Stage(Snapshot(), modified, failed, mi), kept), x)
    {
      KeptInPool(pool, inBlock, modified, failed);
      KeptSizes(pool, inBlock, modified, failed);
      hide Tracked, Sized, Better;
      assert modified.Keys == {} ==> modified == map[];
      x :| x in modified.Keys;
      var todo := modified.Keys - {x};
      while todo != {}
        invariant x in modified && todo <= modified.Keys && x !in todo
        invariant forall v :: v in modified && v !in todo && v != x ==> Better(kept[x], modified[x].size, x, kept[v], modified[v].size, v)
        decreases |todo|
      {
        var y :| y in todo;
        BetterTotal(kept[x], modified[x].size, x, kept[y], modified[y].size, y);
        if Better(kept[y], modified[y].size, y, kept[x], modified[x].size, x) {
          forall v | v in modified && v !in todo && v != x ensures Better(kept[y], modified[y].size, y, kept[v], modified[v].size, v) {
            BetterChain(kept[y], modified[y].size, y, kept[x], modified[x].size, x, kept[v], modified[v].size, v);
          }
          x := y;
        }
        todo := todo - {y};
      }
    }

    /** The next entry to evaluate: from the pool's own order or, if its score is better or the pool
        is exhausted, from the kept totals. The totals it is judged by are never below what adding it
        takes, and exact unless the entry failed before. */
    method NextEntry(order: seq<Tx>, mi: nat, modified: map<Tx, Mod>, kept: map<Tx, int>, ghost failed: set<Tx>)
      returns (iter: Tx, usingModified: bool, totals: Mod, packageFees: int)
      requires Exact(pool) && Sized(pool) && Tracked(pool, inBlock, modified, failed) && kept.Keys == modified.Keys
      requires mi <= |order| && Elems(order) <= pool.Keys && (mi < |order| || modified != map[])
      requires mi < |order| ==> !(order[mi] in modified || order[mi] in inBlock || order[mi] in failed)
      ensures iter in pool && iter !in inBlock && (usingModified ==> iter in modified) && (!usingModified ==> mi < |order|)
      ensures PicksByScore(pool, order, Ledger(Stage(Snapshot(), modified, failed, mi), kept), iter, usingModified)
      ensures totals == JudgedBy(pool, Stage(Snapshot(), modified, failed, mi), iter, usingModified)
      ensures packageFees == FeesJudgedBy(pool, Ledger(Stage(Snapshot(), modified, failed, mi), kept), iter, usingModified)
      ensures Rest(pool, inBlock, iter) <= pool.Keys && AtLeast(totals, Totals(pool, Rest(pool, inBlock, iter)))
      ensures iter !in failed ==> totals == Totals(pool, Rest(pool, inBlock, iter))
    {
      hide Tracked, Exact, Totals, Rest, Sized, Better;
      KeptInPool(pool, inBlock, modified, failed);
      usingModified := false;
      var best;
      if modified != map[] {
        best := BestOf(modified, kept, failed, mi);
        usingModified := mi == |order|;
        if mi < |order| {
          assert order[mi] in Elems(order);
          usingModified := Better(kept[best], modified[best].size, best, pool[order[mi]].cachedFees, pool[order[mi]].cached.size, order[mi]);
        }
      }
      if usingModified {
        iter, totals, packageFees := best, modified[best], kept[best];
      } else {
        iter := order[mi];
        assert iter in Elems(order);
        totals, packageFees := pool[iter].cached, pool[iter].cachedFees;
      }
      JudgedFairly(pool, order, Stage(Snapshot(), modified, failed, mi), iter, usingModified);
    }

    /** Whether an entry's totals leave room, and then what it still needs and whether that is final and
        fits. */
    method Judge(iter: Tx, totals: Mod) returns (fits: bool, ok: bool, package: set<Tx>)
      requires iter in pool && iter !in inBlock && pool[iter].ancestors <= pool.Keys && totals.size >= 0
      ensures fits <==> HasRoom(maxSize, Mod(nBlockSize, nBlockSigOps), totals)
      ensures ok ==> fits
      ensures fits ==> package == Rest(pool, inBlock, iter) && package <= pool.Keys
      ensures fits ==> (ok <==> AllFinal(pool, package) && nBlockSize + Totals(pool, package).size < maxSize)
    {
      ok, package := false, {};
      hide Totals, AllFinal;
      fits := TestPackage(totals.size, totals.sigops);
      if fits {
        package := OnlyUnconfirmed(pool[iter].ancestors);
        package := package + {iter};
        PackageIs(pool, inBlock, iter);
        ok := TestPackageTransactions(package);
      }
    }

    /** Evaluates one entry: it is refused, or its package goes into the block. */
    method Consider(iter: Tx, usingModified: bool, totals: Mod, modified: map<Tx, Mod>, kept: map<Tx, int>, failed: set<Tx>, ghost mi: nat)
      returns (fits: bool, added: bool, m: map<Tx, Mod>, k: map<Tx, int>, f: set<Tx>)
      requires Valid() && Tracked(pool, inBlock, modified, failed) && kept.Keys == modified.Keys && iter in pool && iter !in inBlock
      requires Rest(pool, inBlock, iter) <= pool.Keys && AtLeast(totals, Totals(pool, Rest(pool, inBlock, iter)))
      requires totals == JudgedBy(pool, Stage(Snapshot(), modified, failed, mi), iter, usingModified)
      modifies this
      ensures var before := Stage(old(Snapshot()), modified, failed, mi);
        Accounted(pool, maxSize, Ledger(before, kept), iter, usingModified, Ledger(Stage(Snapshot(), m, f, Passed(before, usingModified)), k))
      ensures Valid() && Tracked(pool, inBlock, m, f) && k.Keys == m.Keys && old(vtx) <= vtx
      ensures fits <==> HasRoom(maxSize, old(Snapshot()).used, totals)
      ensures added ==> fits && inBlock == old(inBlock) + Rest(pool, old(inBlock), iter)
      ensures !added ==> Snapshot() == old(Snapshot()) && m == if usingModified then modified - {iter} else modified
    {
      added, m, k, f := false, modified, kept, failed;
      ghost var s := Stage(Snapshot(), modified, failed, mi);
      hide Ok, Wf, Totals, Tracked, Exact, Rest, AllFinal, Finals, JudgedBy, HasRoom, Accepts, Accounted, Deducts, Sized, PushAll, InOrder, Updated, Elems;
      RoomFor(totals, Totals(pool, Rest(pool, inBlock, iter)));
      AncestorsIn(pool, inBlock, iter);
      var ok, package;
      fits, ok, package := Judge(iter, totals);
      JudgedIs(pool, maxSize, s, iter, usingModified, totals, fits, ok);
      if ok {
        ghost var sorted;
        m, k, sorted := AddPackage(iter, package, modified, kept, failed);
        added := true;
        AccountedIn(pool, maxSize, Ledger(s, kept), iter, usingModified, sorted, Ledger(Stage(Snapshot(), m, f, Passed(s, usingModified)), k));
      } else {
        if usingModified { m, k, f := modified - {iter}, kept - {iter}, failed + {iter}; }
        TrackedFail(pool, inBlock, modified, failed, iter);
        AccountedOut(pool, maxSize, Ledger(s, kept), iter, usingModified, Ledger(Stage(Snapshot(), m, f, Passed(s, usingModified)), k));
      }
    }

    /** The loop of package selection stands at the end of a run. */
    ghost predicate At(order: seq<Tx>, mi: nat, modified: map<Tx, Mod>, kept: map<Tx, int>, failed: set<Tx>, ls: seq<Ledger>)
      reads this
    {
      && mi <= |order| && Elems(order) <= pool.Keys && Tracked(pool, inBlock, modified, failed) && kept.Keys == modified.Keys
      && |ls| > 0 && PaidRun(pool, maxSize, minFeePerK, order, ls) && ls[|ls| - 1] == Ledger(Stage(Snapshot(), modified, failed, mi), kept)
    }

    /** Evaluates the next entry, unless it does not pay. */
    method Advance(order: seq<Tx>, mi: nat, modified: map<Tx, Mod>, kept: map<Tx, int>, failed: set<Tx>, ghost ls: seq<Ledger>)
      returns (stop: bool, fits: bool, added: bool, next: nat, m: map<Tx, Mod>, k: map<Tx, int>, f: set<Tx>, ghost run: seq<Ledger>)
      requires Valid() && At(order, mi, modified, kept, failed, ls) && (mi < |order| || modified != map[])
      requires mi < |order| ==> !(order[mi] in modified || order[mi] in inBlock || order[mi] in failed)
      modifies this
      ensures Valid() && old(vtx) <= vtx && At(order, next, m, k, f, run) && next <= |order| && |ls| > 0
      ensures stop ==> run == ls && FeeStops(pool, minFeePerK, order, ls[|ls| - 1])
      ensures !stop ==> |run| == |ls| + 1 && run[..|ls|] == ls
      ensures !fits ==> !added && TooLarge(pool, maxSize, order, ls[|ls| - 1])
      ensures !added ==> Snapshot() == old(Snapshot())
      ensures !stop && inBlock == old(inBlock) ==> (next > mi && m == modified) || (next == mi && |m| < |modified|)
      ensures inBlock != old(inBlock) ==> fits && added && |pool.Keys - inBlock| < |pool.Keys - old(inBlock)|
    {
      stop, fits, added, next, m, k, f, run := false, true, false, mi, modified, kept, failed, ls;
      hide Ok, Wf, Totals, Tracked, Exact, Rest, AllFinal, Finals, Accounted, JudgedBy, FeesJudgedBy, PaidRun, PicksByScore, Elems, Sized, HasRoom, MinFee;
      var iter, usingModified, totals, packageFees := NextEntry(order, mi, modified, kept, failed);
      ghost var l := ls[|ls| - 1];
      assert iter !in inBlock;
      RoomFor(totals, Totals(pool, Rest(pool, inBlock, iter)));
      if packageFees < MinFee(minFeePerK, totals.size) {
        assert !Pays(pool, minFeePerK, l, iter, usingModified);
        stop := true;
        return;
      }
      assert Pays(pool, minFeePerK, l, iter, usingModified);
      hide FeeStops, Pays;
      if !usingModified { next := mi + 1; }
      ghost var before := inBlock;
      fits, added, m, k, f := Consider(iter, usingModified, totals, modified, kept, failed, mi);
      ghost var n := Ledger(Stage(Snapshot(), m, f, next), k);
      MoreRounds(pool, maxSize, minFeePerK, order, ls, iter, usingModified, n);
      run := ls + [n];
      if added {
        Fewer(pool, before, inBlock, iter);
      } else if usingModified {
        Shrinks(modified, iter);
      }
    }

    /** Totals and fees for the descendants of what the priority pass added. */
    method Begin(order: seq<Tx>) returns (modified: map<Tx, Mod>, kept: map<Tx, int>, ghost ls: seq<Ledger>)
      requires Valid() && Elems(order) <= pool.Keys
      ensures At(order, 0, modified, kept, {}, ls) && |ls| > 0 && LedgerBegins(pool, Snapshot(), ls[0])
    {
      assert Closed(pool, inBlock);
      hide Ok, Wf, Totals, Exact, Finals, Tracked, Elems, Updated, Fees.DeductedAll, Sized, Distinct;
      TrackedStart(pool, inBlock);
      modified := UpdatePackagesForAdded(inBlock, map[]);
      ghost var its;
      kept, its := Fees.UpdateFees(pool, map[], inBlock);
      BeginsBoth(pool, inBlock, its);
      ls := [Ledger(Stage(Snapshot(), modified, {}, 0), kept)];
    }

    /** One skipped entry more. */
    lemma Skip(order: seq<Tx>, mi: nat, modified: map<Tx, Mod>, kept: map<Tx, int>, failed: set<Tx>, ls: seq<Ledger>) returns (run: seq<Ledger>)
      requires At(order, mi, modified, kept, failed, ls) && mi < |order| && (order[mi] in modified || order[mi] in inBlock || order[mi] in failed)
      ensures At(order, mi + 1, modified, kept, failed, run) && |ls| > 0 && |run| == |ls| + 1 && run[..|ls|] == ls
      ensures |Standstill(pool, maxSize, order, run)| >= |Standstill(pool, maxSize, order, ls)|
    {
      hide PaidRun, Tracked, Elems, Standstill;
      MoreSkips(pool, maxSize, minFeePerK, order, ls);
      var n := Ledger(Stage(Snapshot(), modified, failed, mi + 1), kept);
      run := ls + [n];
      StandsStill(pool, maxSize, order, ls, n);
    }

    lemma RunSoFar(order: seq<Tx>, mi: nat, modified: map<Tx, Mod>, kept: map<Tx, int>, failed: set<Tx>, ls: seq<Ledger>)
      requires At(order, mi, modified, kept, failed, ls)
      ensures |ls| > 0 && PaidRun(pool, maxSize, minFeePerK, order, ls) && ls[|ls| - 1].stage == Stage(Snapshot(), modified, failed, mi)
    {
    }

    /** Selection by package: the best entry first, until nothing is left, the best does not pay, or too many
        in a row left no room close to a full block. */
    method AddPackageTxs(order: seq<Tx>) returns (ghost ls: seq<Ledger>)
      requires Valid() && Elems(order) <= pool.Keys
      modifies this
      ensures Valid() && old(vtx) <= vtx
      ensures |ls| > 0 && PaidRun(pool, maxSize, minFeePerK, order, ls) && LedgerBegins(pool, old(Snapshot()), ls[0]) && ls[|ls| - 1].stage.block == Snapshot()
      ensures Ended(pool, maxSize, minFeePerK, order, ls)
    {
      hide Valid, At, PaidRun, LedgerBegins, Elems, Standstill, FeeStops, TooLarge;
      var modified, kept;
      modified, kept, ls := Begin(order);
      var failed: set<Tx> := {};
      var mi: nat, nConsecutiveFailed: nat := 0, 0;
      while mi < |order| || modified != map[]
        invariant Valid() && mi <= |order| && At(order, mi, modified, kept, failed, ls) && |ls| > 0
        invariant old(vtx) <= vtx && LedgerBegins(pool, old(Snapshot()), ls[0])
        invariant nConsecutiveFailed <= |Standstill(pool, maxSize, order, ls)|
        decreases |pool.Keys - inBlock|, |order| - mi, |modified|
      {
        RunSoFar(order, mi, modified, kept, failed, ls);
        if mi < |order| {
          var skip := SkipMapTxEntry(order[mi], modified, failed);
          if skip {
            ghost var longer := Skip(order, mi, modified, kept, failed, ls);
            assert longer[0] == longer[..|ls|][0];
            ls := longer;
            mi := mi + 1;
            continue;
          }
        }
        ghost var before := ls;
        var stop, fits, added;
        stop, fits, added, mi, modified, kept, failed, ls := Advance(order, mi, modified, kept, failed, ls);
        RunSoFar(order, mi, modified, kept, failed, ls);
        if stop { return; }
        assert ls[0] == ls[..|before|][0] && ls == before + [ls[|before|]];
        if !added { StandsStill(pool, maxSize, order, before, ls[|before|]); }
        nConsecutiveFailed := if added then 0 else if fits then nConsecutiveFailed else nConsecutiveFailed + 1;
        if !fits && nConsecutiveFailed > PATIENCE && nBlockSize > maxSize - 1000 { return; }
      }
      RunSoFar(order, mi, modified, kept, failed, ls);
    }

    /** A new block: reset, then both selections. */
    method CreateNewBlock(percentage: nat, priority: Tx -> real, order: seq<Tx>)
      returns (ghost bs: seq<Block>, ghost ls: seq<Ledger>)
      requires Wf(pool) && Exact(pool) && Sized(pool) && maxSize >= 1000 && Elems(order) == pool.Keys
      modifies this
      ensures Valid() && Assembled(pool, maxSize, order, Snapshot())
      ensures PaidRunOf(pool, maxSize, minFeePerK, order, bs, ls) && ls[|ls| - 1].stage.block == Snapshot()
      ensures percentage > 0 ==> PriorityEnded(pool, maxSize, maxSize * percentage / 100, priority, bs)
      ensures ByPriority(pool, maxSize, priority, bs) && (percentage == 0 ==> |bs| == 1)
      ensures Ended(pool, maxSize, minFeePerK, order, ls)
      ensures Fees.NoDeltas(pool) && Fees.CachedFeesExact(pool) && Roomy(pool, maxSize) && Paying(pool, minFeePerK) ==> inBlock == pool.Keys
      ensures forall i, j :: 0 <= i < j < |vtx| ==> vtx[i] != vtx[j]
      ensures forall i, u :: 0 <= i < |vtx| && vtx[i] in pool && u in pool[vtx[i]].parents ==> u in vtx[..i]
      ensures Closed(pool, inBlock) && nBlockSize == 1000 + Totals(pool, inBlock).size <= maxSize && nBlockTx == |vtx|
      ensures nBlockSigOps == 100 + Totals(pool, inBlock).sigops < MaxBlockSigOps(maxSize - 1)
      ensures Finals(pool, inBlock)
    {
      hide Wf, Totals, Exact, MaxBlockSigOps, PaidRun, PriorityRun, LedgerBegins, Sound, FeesOf, SumOf, Elems, Sized, Ended, ByPriority, PriorityEnded, Fees.NoDeltas, Fees.CachedFeesExact, Roomy, Paying;
      vtx, fees, inBlock := [], [], {};
      nBlockSize, nBlockSigOps, nBlockTx, nFees := 1000, 100, 0, 0;
      lastFewTxs, blockFinished := 0, false;
      FreshOk(pool, maxSize);
      bs := AddPriorityTxs(percentage, priority);
      ls := AddPackageTxs(order);
      Finished(pool, maxSize, minFeePerK, order, bs, ls, Snapshot());
      BlockPromise(pool, maxSize, Snapshot());
      if Fees.NoDeltas(pool) && Fees.CachedFeesExact(pool) && Roomy(pool, maxSize) && Paying(pool, minFeePerK) {
        AllIn(pool, maxSize, minFeePerK, order, bs, ls);
      }
    }
  }

  /** Both parts of a run end with an assembled block, within the limits. */
  lemma Finished(p: Pool, max: nat, perK: nat, order: seq<Tx>, bs: seq<Block>, ls: seq<Ledger>, b: Block)
    requires Fit(p, max) && |bs| > 0 && |ls| > 0 && PriorityRun(p, max, bs) && PaidRun(p, max, perK, order, ls)
    requires LedgerBegins(p, bs[|bs| - 1], ls[0]) && ls[|ls| - 1].stage.block == b
    ensures PaidRunOf(p, max, perK, order, bs, ls) && Assembled(p, max, order, b) && b.used.sigops < MaxBlockSigOps(max - 1)
  {
    hide PaidRun, PriorityRun, LedgerBegins, MaxBlockSigOps, Wf, Exact, Ok, Finals, RunOf;
    PaidIsRun(p, max, perK, order, bs, ls);
    assert RunOf(p, max, order, bs, StagesOf(ls)) && StagesOf(ls)[|ls| - 1].block == b;
    AssembledSane(p, max, order, b);
  }

  lemma FreshRun(p: Pool, max: nat)
    ensures PriorityRun(p, max, [FRESH_BLOCK])
  {
  }

  /** Where the priority pass stands: every entry is in the block, queued, waiting for a parent or turned down,
      and enough has not been added yet. */
  ghost predicate PriorityAt(p: Pool, max: nat, size: nat, priority: Tx -> real, b: Block, queue: multiset<Tx>, wait: set<Tx>, bs: seq<Block>) {
    && Queued(p, b.inBlock, queue, wait) && |bs| > 0 && PriorityRun(p, max, bs) && bs[|bs| - 1] == b
    && Accountable(p, max, b.inBlock, queue, wait, bs) && Waits(p, b.inBlock, wait)
    && ByPriority(p, max, priority, bs) && forall i :: 0 < i < |bs| ==> !Enough(size, priority, bs[i])
  }

  ghost predicate Accountable(p: Pool, max: nat, b: set<Tx>, queue: multiset<Tx>, wait: set<Tx>, bs: seq<Block>) {
    forall t :: t in p ==> t in b || t in queue || t in wait || TurnedDownBy(p, max, bs, |bs|, t)
  }

  predicate Waits(p: Pool, b: set<Tx>, wait: set<Tx>) {
    forall t :: t in wait ==> t in p && !(p[t].parents <= b)
  }

  lemma PriorityStart(p: Pool, max: nat, size: nat, priority: Tx -> real)
    ensures PriorityAt(p, max, size, priority, FRESH_BLOCK, multiset(p.Keys), {}, [FRESH_BLOCK])
  {
    QueuedAll(p);
    FreshRun(p, max);
  }

  lemma OffQueue(p: Pool, max: nat, size: nat, priority: Tx -> real, b: Block, queue: multiset<Tx>, wait: set<Tx>, bs: seq<Block>, t: Tx)
    requires PriorityAt(p, max, size, priority, b, queue, wait, bs) && t in queue
    ensures t in p && t !in b.inBlock && |queue - multiset{t}| < |queue|
  {
    hide PriorityRun, ByPriority, Accountable;
    QueuedPop(p, b.inBlock, queue, wait, t);
  }

  lemma WaitsMore(p: Pool, max: nat, size: nat, priority: Tx -> real, b: Block, queue: multiset<Tx>, wait: set<Tx>, bs: seq<Block>, t: Tx)
    requires PriorityAt(p, max, size, priority, b, queue, wait, bs) && t in queue && t in p && !(p[t].parents <= b.inBlock)
    ensures PriorityAt(p, max, size, priority, b, queue - multiset{t}, wait + {t}, bs)
  {
    hide PriorityRun, ByPriority, TurnedDownBy, Enough;
    QueuedPop(p, b.inBlock, queue, wait, t);
  }

  lemma DownMore(p: Pool, max: nat, size: nat, priority: Tx -> real, b: Block, queue: multiset<Tx>, wait: set<Tx>, bs: seq<Block>, t: Tx)
    requires PriorityAt(p, max, size, priority, b, queue, wait, bs) && t in queue && TurnedDown(p, max, b, t)
    ensures PriorityAt(p, max, size, priority, b, queue - multiset{t}, wait, bs)
  {
    assert TurnedDownBy(p, max, bs, |bs|, t);
    hide PriorityRun, ByPriority, TurnedDownBy, Enough, TurnedDown;
    QueuedPop(p, b.inBlock, queue, wait, t);
  }

  lemma PushedLast(p: Pool, max: nat, b: Block, t: Tx, next: Block)
    requires Readied(p, max, b, t, next)
    ensures next.vtx != [] && LastOf(next) == t && next.inBlock == b.inBlock + {t} && b.used.size <= next.used.size
  {
    hide HasRoom;
  }

  /** An entry that is ready and was not turned down is queued. */
  lemma ReadyQueued(p: Pool, max: nat, size: nat, priority: Tx -> real, b: Block, queue: multiset<Tx>, wait: set<Tx>, bs: seq<Block>, u: Tx)
    requires PriorityAt(p, max, size, priority, b, queue, wait, bs) && IsReady(p, b, u) && !TurnedDownBy(p, max, bs, |bs|, u)
    ensures u in queue
  {
    hide PriorityRun, ByPriority, TurnedDownBy, Enough, Queued;
  }

  lemma DownSame(p: Pool, max: nat, bs: seq<Block>, next: Block, n: nat, u: Tx)
    requires n <= |bs|
    ensures TurnedDownBy(p, max, bs + [next], n, u) <==> TurnedDownBy(p, max, bs, n, u)
  {
    hide TurnedDown;
    assert forall i :: 0 <= i < n ==> (bs + [next])[i] == bs[i];
  }

  /** One transaction more, of greatest priority. */
  lemma RunMore(p: Pool, max: nat, size: nat, priority: Tx -> real, b: Block, queue: multiset<Tx>, wait: set<Tx>, bs: seq<Block>, t: Tx, next: Block)
    requires PriorityAt(p, max, size, priority, b, queue, wait, bs) && Readied(p, max, b, t, next) && LastOf.requires(next) && LastOf(next) == t
    requires forall u :: u in queue ==> priority(u) <= priority(t)
    ensures PriorityRun(p, max, bs + [next]) && ByPriority(p, max, priority, bs + [next])
  {
    assert PriorityStep(p, max, b, next);
    var r := bs + [next];
    hide PriorityStep, Readied, TurnedDownBy, IsReady;
    forall i, u | 0 < i < |r| && r[i].vtx != [] && IsReady(p, r[i - 1], u) && !TurnedDownBy(p, max, r, i, u) ensures priority(u) <= priority(LastOf(r[i])) {
      DownSame(p, max, bs, next, i, u);
      if i == |bs| {
        ReadyQueued(p, max, size, priority, b, queue, wait, bs, u);
      } else {
        assert r[i] == bs[i] && r[i - 1] == bs[i - 1];
      }
    }
    assert PriorityRun(p, max, r);
  }

  lemma StopsHere(p: Pool, max: nat, size: nat, priority: Tx -> real, b: Block, queue: multiset<Tx>, wait: set<Tx>, bs: seq<Block>, t: Tx, next: Block)
    requires PriorityAt(p, max, size, priority, b, queue, wait, bs) && Readied(p, max, b, t, next)
    requires forall u :: u in queue ==> priority(u) <= priority(t)
    requires next.vtx != [] && LastOf(next) == t && (next.used.size >= size || !AllowFree(priority(t)))
    ensures var r := bs + [next]; PriorityRun(p, max, r) && ByPriority(p, max, priority, r) && PriorityEnded(p, max, size, priority, r)
  {
    RunMore(p, max, size, priority, b, queue, wait, bs, t, next);
    hide PriorityRun, ByPriority, Readied, Queued, Accountable;
  }

  lemma QueuedAfter(p: Pool, max: nat, size: nat, priority: Tx -> real, b: Block, queue: multiset<Tx>, wait: set<Tx>, bs: seq<Block>, t: Tx)
    requires PriorityAt(p, max, size, priority, b, queue, wait, bs) && t in queue
    ensures Queued(p, b.inBlock + {t}, queue - multiset{t}, wait)
  {
    hide PriorityRun, ByPriority, Accountable;
    QueuedPop(p, b.inBlock, queue, wait, t);
  }

  lemma AddedMore(p: Pool, max: nat, size: nat, priority: Tx -> real, b: Block, queue: multiset<Tx>, wait: set<Tx>, bs: seq<Block>, t: Tx, next: Block)
    requires PriorityAt(p, max, size, priority, b, queue, wait, bs) && t in queue && Readied(p, max, b, t, next)
    requires forall u :: u in queue ==> priority(u) <= priority(t)
    requires next.vtx != [] && LastOf(next) == t && next.inBlock == b.inBlock + {t} && !(next.used.size >= size || !AllowFree(priority(t)))
    requires Queued(p, next.inBlock, queue - multiset{t} + multiset(wait * Children(p, t)), wait - Children(p, t))
    ensures PriorityAt(p, max, size, priority, next, queue - multiset{t} + multiset(wait * Children(p, t)), wait - Children(p, t), bs + [next])
  {
    RunMore(p, max, size, priority, b, queue, wait, bs, t, next);
    hide PriorityRun, ByPriority, Readied, Queued;
    var q, w, r := queue - multiset{t} + multiset(wait * Children(p, t)), wait - Children(p, t), bs + [next];
    forall u | u in p ensures u in next.inBlock || u in q || u in w || TurnedDownBy(p, max, r, |r|, u) {
      if TurnedDownBy(p, max, bs, |bs|, u) { DownStill(p, max, bs, next, u); }
    }
    assert Waits(p, next.inBlock, w);
  }

  lemma DownStill(p: Pool, max: nat, bs: seq<Block>, next: Block, u: Tx)
    requires TurnedDownBy(p, max, bs, |bs|, u)
    ensures TurnedDownBy(p, max, bs + [next], |bs + [next]|, u)
  {
    hide TurnedDown;
    var i :| 0 <= i < |bs| && TurnedDown(p, max, bs[i], u);
    assert (bs + [next])[i] == bs[i];
  }

  lemma EndsHere(p: Pool, max: nat, size: nat, priority: Tx -> real, b: Block, queue: multiset<Tx>, wait: set<Tx>, bs: seq<Block>)
    requires PriorityAt(p, max, size, priority, b, queue, wait, bs) && (queue == multiset{} || CloseToFull(p, max, b))
    ensures |bs| > 0 && PriorityRun(p, max, bs) && bs[|bs| - 1] == b && ByPriority(p, max, priority, bs) && PriorityEnded(p, max, size, priority, bs)
  {
    hide PriorityRun, ByPriority, CloseToFull, TurnedDownBy, Enough, Queued;
    if queue == multiset{} {
      forall u | IsReady(p, b, u) ensures TurnedDownBy(p, max, bs, |bs|, u) {
        assert u !in wait;
      }
    }
  }

  /** An entry leaves no room in a block that is close to full. */
  predicate CloseBy(p: Pool, max: nat, b: Block, t: Tx) {
    && IsReady(p, b, t) && !HasRoom(max, b.used, Weight(p[t]))
    && (b.used.size > max - 1000 || (b.used.size + p[t].size >= 0 && b.used.sigops > MaxBlockSigOps(b.used.size + p[t].size) - 2))
  }

  lemma MoreSkips(p: Pool, max: nat, perK: nat, order: seq<Tx>, ls: seq<Ledger>)
    requires |ls| > 0 && PaidRun(p, max, perK, order, ls)
    requires var s := ls[|ls| - 1].stage; s.mi < |order| && Skipped(s, order[s.mi])
    ensures var l := ls[|ls| - 1]; PaidRun(p, max, perK, order, ls + [Ledger(l.stage.(mi := l.stage.mi + 1), l.fees)])
  {
    var l := ls[|ls| - 1];
    var n := Ledger(l.stage.(mi := l.stage.mi + 1), l.fees);
    assert Skips(order, l.stage, n.stage);
    assert PaidRound(p, max, perK, order, l, n);
    hide PaidRound;
  }

  lemma MoreRounds(p: Pool, max: nat, perK: nat, order: seq<Tx>, ls: seq<Ledger>, t: Tx, usingModified: bool, next: Ledger)
    requires |ls| > 0 && PaidRun(p, max, perK, order, ls) && t in p && PicksByScore(p, order, ls[|ls| - 1], t, usingModified)
    requires Pays(p, perK, ls[|ls| - 1], t, usingModified) && Accounted(p, max, ls[|ls| - 1], t, usingModified, next)
    ensures PaidRun(p, max, perK, order, ls + [next])
  {
    hide Accounted, PicksByScore, Pays, Skips;
    assert PaidRound(p, max, perK, order, ls[|ls| - 1], next);
    hide PaidRound;
  }

  /** Kept totals have a size. */
  lemma KeptSizes(p: Pool, b: set<Tx>, m: map<Tx, Mod>, failed: set<Tx>)
    requires Sized(p) && Tracked(p, b, m, failed)
    ensures forall t :: t in m ==> m[t].size > 0
  {
    forall t | t in m ensures m[t].size > 0 {
      assert t in p && TrackedAt(p, b, m, failed, t);
      assert t in Rest(p, b, t) && Rest(p, b, t) <= p.Keys;
      hide Tracked;
      TotalsRemove(p, Rest(p, b, t), t);
    }
  }

  /** The comparison of fee rates is a total order. */
  lemma BetterTotal(fa: int, sa: int, a: Tx, fb: int, sb: int, b: Tx)
    requires a != b
    ensures Better(fa, sa, a, fb, sb, b) || Better(fb, sb, b, fa, sa, a)
  {
    assert fb * sa == sa * fb && sb * fa == fa * sb;
  }

  lemma BetterChain(fa: int, sa: int, a: Tx, fb: int, sb: int, b: Tx, fc: int, sc: int, c: Tx)
    requires sa > 0 && sb > 0 && sc > 0 && Better(fa, sa, a, fb, sb, b) && Better(fb, sb, b, fc, sc, c)
    ensures Better(fa, sa, a, fc, sc, c)
  {
    var x, y, z := fa * sb - sa * fb, fb * sc - sb * fc, fa * sc - sa * fc;
    CrossSum(fa, sa, fb, sb, fc, sc);
    assert sb * z == sc * x + sa * y;
    if x > 0 { MulStrict(0, x, sc); } else { assert x == 0; }
    if y > 0 { MulStrict(0, y, sa); } else { assert y == 0; }
    if z < 0 { MulStrict(z, 0, sb); }
    if z == 0 { assert sc * x == 0 && sa * y == 0; }
  }

  lemma CrossSum(fa: int, sa: int, fb: int, sb: int, fc: int, sc: int)
    ensures sb * (fa * sc - sa * fc) == sc * (fa * sb - sa * fb) + sa * (fb * sc - sb * fc)
  {
    assert sb * (fa * sc - sa * fc) == sb * (fa * sc) - sb * (sa * fc);
    assert sc * (fa * sb - sa * fb) == sc * (fa * sb) - sc * (sa * fb);
    assert sa * (fb * sc - sb * fc) == sa * (fb * sc) - sa * (sb * fc);
    assert sb * (fa * sc) == sc * (fa * sb) && sb * (sa * fc) == sa * (sb * fc) && sc * (sa * fb) == sa * (fb * sc);
  }

  /** Totals and fees start for the same entries. */
  lemma BeginsBoth(p: Pool, b: set<Tx>, its: seq<Tx>)
    requires b <= p.Keys && Elems(its) == b && Distinct(its)
    ensures Elems(its) <= p.Keys && Updated(p, map[], b, b).Keys == Fees.DeductedAll(p, map[], its, b).Keys
    ensures Deducts(p, map[], b, Fees.DeductedAll(p, map[], its, b))
  {
    var m: map<Tx, Mod> := map[];
    var f: map<Tx, int> := map[];
    assert m - b == m && f - b == f;
    SameEntries(p, m, f, b, its);
    assert DeductsBy(p, map[], b, its, Fees.DeductedAll(p, map[], its, b));
  }

  lemma KeptInPool(p: Pool, b: set<Tx>, m: map<Tx, Mod>, failed: set<Tx>)
    requires Tracked(p, b, m, failed)
    ensures m.Keys <= p.Keys
  {
  }

  lemma RoomFor(m: Mod, n: Mod)
    requires AtLeast(m, n) && AtLeast(n, Mod(0, 0))
    ensures m.size >= 0
  {
  }

  lemma AncestorsIn(p: Pool, b: set<Tx>, t: Tx)
    requires Wf(p) && t in p
    ensures p[t].ancestors <= p.Keys
  {
  }

  /** The block's size with what an entry still needs. */
  ghost function Beside(p: Pool, s: Stage, t: Tx): int
    requires t in p && Rest(p, s.block.inBlock, t) <= p.Keys
  {
    s.block.used.size + Totals(p, Rest(p, s.block.inBlock, t)).size
  }

  lemma JudgedIs(p: Pool, max: nat, s: Stage, t: Tx, usingModified: bool, totals: Mod, fits: bool, ok: bool)
    requires t in p && totals == JudgedBy(p, s, t, usingModified) && (ok ==> fits)
    requires fits <==> HasRoom(max, s.block.used, totals)
    requires Rest(p, s.block.inBlock, t) <= p.Keys
    requires fits ==> (ok <==> AllFinal(p, Rest(p, s.block.inBlock, t)) && Beside(p, s, t) < max)
    ensures ok <==> Accepts(p, max, s, t, usingModified)
  {
    hide HasRoom, Rest, AllFinal, Totals, JudgedBy;
  }

  lemma AccountedIn(p: Pool, max: nat, l: Ledger, t: Tx, usingModified: bool, ts: seq<Tx>, next: Ledger)
    requires t in p && Accepts(p, max, l.stage, t, usingModified)
    requires Elems(ts) == Rest(p, l.stage.block.inBlock, t) && Elems(ts) <= p.Keys && InOrder(p, ts) && Deducts(p, l.fees, Elems(ts), next.fees)
    requires next.stage == Stage(PushAll(p, l.stage.block, ts), Updated(p, l.stage.modified - Elems(ts), Elems(ts), Elems(ts)),
      l.stage.failed, Passed(l.stage, usingModified))
    ensures Accounted(p, max, l, t, usingModified, next)
  {
    hide Accepts, Elems, Rest, InOrder, PushAll, Updated, Deducts;
    assert Enters(p, max, l.stage, t, usingModified, ts, next.stage);
  }

  lemma AccountedOut(p: Pool, max: nat, l: Ledger, t: Tx, usingModified: bool, next: Ledger)
    requires t in p && !Accepts(p, max, l.stage, t, usingModified)
    requires next == Ledger(Stage(l.stage.block, if usingModified then l.stage.modified - {t} else l.stage.modified,
      if usingModified then l.stage.failed + {t} else l.stage.failed, Passed(l.stage, usingModified)),
      if usingModified then l.fees - {t} else l.fees)
    ensures Accounted(p, max, l, t, usingModified, next)
  {
    hide Accepts;
    assert Refused(p, max, l.stage, t, usingModified, next.stage);
  }

  /** What the finished block promises: no transaction twice, every parent that waited in the pool
      before its child, and all within the size limit. */
  lemma BlockPromise(p: Pool, max: nat, b: Block)
    requires Wf(p) && Ok(p, max, b)
    ensures forall i, j :: 0 <= i < j < |b.vtx| ==> b.vtx[i] != b.vtx[j]
    ensures forall i, u :: 0 <= i < |b.vtx| && b.vtx[i] in p && u in p[b.vtx[i]].parents ==> u in b.vtx[..i]
    ensures b.inBlock <= p.Keys && 1000 + Totals(p, b.inBlock).size <= max
  {
    forall i, j | 0 <= i < j < |b.vtx| ensures b.vtx[i] != b.vtx[j] {
      SoundOrder(p, b.vtx, i, j);
    }
    forall i, u | 0 <= i < |b.vtx| && b.vtx[i] in p && u in p[b.vtx[i]].parents ensures u in b.vtx[..i] {
      SoundAt(p, b.vtx, i);
      assert LinkedAt(p, b.vtx[i]);
    }
  }

  lemma QueuedAll(p: Pool)
    ensures Queued(p, {}, multiset(p.Keys), {})
  {
  }

  lemma QueuedPop(p: Pool, b: set<Tx>, queue: multiset<Tx>, wait: set<Tx>, t: Tx)
    requires Queued(p, b, queue, wait) && t in queue
    ensures var rest := queue - multiset{t};
      && t in p && t !in b && |rest| < |queue|
      && Queued(p, b, rest, wait) && Queued(p, b, rest, wait + {t}) && Queued(p, b + {t}, rest, wait)
  {
  }

  lemma QueuedPush(p: Pool, b: set<Tx>, queue: multiset<Tx>, wait: set<Tx>, t: Tx)
    requires Queued(p, b, queue, wait) && t in wait
    ensures Queued(p, b, queue + multiset{t}, wait - {t})
  {
  }

  lemma WaitStep(wait: set<Tx>, all: set<Tx>, todo: set<Tx>, t: Tx)
    requires todo <= all && t in todo
    ensures var w, next := wait - (all - todo), wait * (all - (todo - {t}));
      && (wait - (all - (todo - {t})) == w - {t}) && (t in w <==> t in wait)
      && (t in wait ==> multiset(next) == multiset(wait * (all - todo)) + multiset{t})
      && (t !in wait ==> next == wait * (all - todo))
  {
    if t in wait { assert wait * (all - (todo - {t})) == wait * (all - todo) + {t}; }
  }

  lemma OneFewer(p: Pool, b: set<Tx>, t: Tx)
    requires t in p && t !in b
    ensures |p.Keys - (b + {t})| < |p.Keys - b|
  {
    SubsetSize(p.Keys - (b + {t}), p.Keys - b);
    assert t in p.Keys - b && t !in p.Keys - (b + {t});
  }

  lemma PackageIs(p: Pool, b: set<Tx>, t: Tx)
    requires t in p && t !in b
    ensures p[t].ancestors - b + {t} == Rest(p, b, t) && t in Rest(p, b, t)
  {
  }

  lemma Fewer(p: Pool, before: set<Tx>, now: set<Tx>, t: Tx)
    requires t in p && t !in before && now == before + Rest(p, before, t)
    ensures |p.Keys - now| < |p.Keys - before|
  {
    SubsetSize(p.Keys - now, p.Keys - before);
    assert t in p.Keys - before && t !in p.Keys - now;
  }

  lemma Shrinks(m: map<Tx, Mod>, t: Tx)
    requires t in m
    ensures |m - {t}| < |m|
  {
    assert m.Keys == (m - {t}).Keys + {t};
  }
}
