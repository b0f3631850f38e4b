/** The cache and database objects of the UTXO stack, changed in place.

    Every method is proved against the function of the same name in module `Coins`, applied to
    the value of the whole chain of objects it reaches, so the theorems there hold of the
    objects.  Each cache also keeps a running total of the memory its coins use. */
module CoinsView {
  import opened Basics
  import opened Coins

  // ---------------------------------------------------------------- memory totals

  type Script = seq<bv8>

  /** Total memory of the coins in a map; `memory` gives the heap block of one script. */
  ghost function Usage(m: CoinsMap, memory: Script -> nat): nat
    decreases |m|
  {
    if m == map[] then 0 else
    var o :| o in m;
    memory(m[o].coin.out.script) + Usage(m - {o}, memory)
  }

  lemma {:induction false} UsageRemove(m: CoinsMap, memory: Script -> nat, o: OutPoint)
    requires o in m
    ensures Usage(m, memory) == memory(m[o].coin.out.script) + Usage(m - {o}, memory)
    decreases |m|
  {
    var p :| p in m && Usage(m, memory) == memory(m[p].coin.out.script) + Usage(m - {p}, memory);
    if p != o {
      UsageRemove(m - {p}, memory, o);
      UsageRemove(m - {o}, memory, p);
      assert m - {p} - {o} == m - {o} - {p};
    }
  }

  lemma UsageSet(m: CoinsMap, memory: Script -> nat, o: OutPoint, e: Entry)
    ensures Usage(m[o := e], memory) ==
            Usage(m, memory) - (if o in m then memory(m[o].coin.out.script) else 0) + memory(e.coin.out.script)
  {
    UsageRemove(m[o := e], memory, o);
    if o in m {
      UsageRemove(m, memory, o);
      assert m[o := e] - {o} == m - {o};
    } else {
      assert m[o := e] - {o} == m;
    }
  }

  // ---------------------------------------------------------------- batch loops

  ghost predicate Submap(m: CoinsMap, m': CoinsMap) {
    m.Keys <= m'.Keys && forall o :: o in m ==> m[o] == m'[o]
  }

  /** A batch write in progress: outpoints in `rest` are as before, the others as wanted. */
  ghost predicate Progress<V>(before: map<OutPoint, V>, now: map<OutPoint, V>, goal: map<OutPoint, V>, rest: set<OutPoint>) {
    forall o :: At(now, o) == if o in rest then At(before, o) else At(goal, o)
  }

  /** A write given up at a misapplied entry: the rest of the child is untouched, all else is written. */
  ghost predicate Abandoned(parent: CoinsMap, child: CoinsMap, rest: CoinsMap, now: CoinsMap) {
    && Submap(rest, child) && Progress(parent, now, WriteEntries(parent, child), rest.Keys)
    && exists o :: o in rest && Misapplied(parent, child, o)
  }

  lemma ProgressDone<V>(before: map<OutPoint, V>, now: map<OutPoint, V>, goal: map<OutPoint, V>)
    requires Progress(before, now, goal, {})
    ensures now == goal
  {
    SameAt(now, goal);
  }

  lemma ProgressAt<V>(before: map<OutPoint, V>, now: map<OutPoint, V>, goal: map<OutPoint, V>, rest: set<OutPoint>, o: OutPoint)
    requires Progress(before, now, goal, rest) && o in rest
    ensures At(now, o) == At(before, o)
  {
  }

  lemma ProgressStep<V>(before: map<OutPoint, V>, now: map<OutPoint, V>, next: map<OutPoint, V>,
                        goal: map<OutPoint, V>, rest: set<OutPoint>, o: OutPoint)
    requires Progress(before, now, goal, rest)
    requires At(next, o) == At(goal, o) && forall p :: p != o ==> At(next, p) == At(now, p)
    ensures Progress(before, next, goal, rest - {o})
  {
  }

  // ---------------------------------------------------------------- objects

  class CoinsDB {
    var coins: map<OutPoint, Coin>

    constructor (initial: map<OutPoint, Coin>)
      ensures coins == initial
    {
      coins := initial;
    }

    method BatchWrite(mapCoins: CoinsMap)
      modifies this
      ensures DB(coins) == Coins.BatchWrite(DB(old(coins)), mapCoins)
    {
      var rest := mapCoins;
      while rest != map[]
        invariant Submap(rest, mapCoins)
        invariant Progress(old(coins), coins, WriteCoins(old(coins), mapCoins), rest.Keys)
        decreases |rest|
      {
        var o :| o in rest;
        ghost var before := coins;
        if rest[o].isDirty {
          coins := if rest[o].coin.IsSpent() then coins - {o} else coins[o := rest[o].coin];
        }
        ProgressStep(old(coins), before, coins, WriteCoins(old(coins), mapCoins), rest.Keys, o);
        rest := rest - {o};
      }
      ProgressDone(old(coins), coins, WriteCoins(old(coins), mapCoins));
    }
  }

  datatype Base = OnDB(db: CoinsDB) | OnCache(cache: CoinsViewCache)

  class CoinsViewCache {
    const base: Base
    const memory: Script -> nat
    var cacheCoins: CoinsMap
    var cachedCoinsUsage: int

    /** The objects this cache reaches, itself first, and how many caches are among them. */
    ghost const reach: set<object>
    ghost const depth: nat

    ghost predicate Linked()
      decreases depth
    {
      && this in reach && memory([]) == 0
      && match base
         case OnDB(db) => reach == {this, db}
         case OnCache(c) => c.depth < depth && this !in c.reach && reach == {this} + c.reach && c.Linked()
    }

    ghost function Value(): View
      requires Linked()
      reads reach
      decreases depth
    {
      Cache(cacheCoins, Below())
    }

    ghost function Below(): View
      requires Linked()
      reads reach - {this}
      decreases depth, 0
    {
      match base case OnDB(db) => DB(db.coins) case OnCache(c) => c.Value()
    }

    /** The running total is exact. */
    ghost predicate Exact()
      reads this
    {
      cachedCoinsUsage == Usage(cacheCoins, memory)
    }

    /** The running totals of this cache and of every cache below it are exact. */
    ghost predicate AllExact()
      requires Linked()
      reads reach
      decreases depth
    {
      Exact() && (base.OnCache? ==> base.cache.AllExact())
    }

    constructor (base: Base, memory: Script -> nat)
      requires memory([]) == 0 && (base.OnCache? ==> base.cache.Linked())
      ensures Linked() && this.base == base && this.memory == memory
      ensures fresh(this) && reach == {this} + (match base case OnDB(db) => {db} case OnCache(c) => c.reach)
      ensures cacheCoins == map[] && Exact()
    {
      this.base := base;
      this.memory := memory;
      cacheCoins := map[];
      cachedCoinsUsage := 0;
      reach := {this} + (match base case OnDB(db) => {db} case OnCache(c) => c.reach);
      depth := if base.OnDB? then 0 else base.cache.depth + 1;
    }

    method FetchCoin(o: OutPoint) returns (found: bool)
      requires Linked()
      modifies reach
      ensures Value() == Fetch(old(Value()), o)
      ensures found == (o in cacheCoins) == Lookup(old(Value()), o).Some?
      ensures old(AllExact()) ==> AllExact()
      decreases depth, 0
    {
      if o in cacheCoins { return true; }
      var got: Option<Coin>;
      match base {
        case OnDB(db) => got := At(db.coins, o);
        case OnCache(c) => got := c.GetCoin(o);
      }
      if got.None? { return false; }
      UsageSet(cacheCoins, memory, o, Entry(got.value, false, got.value.IsSpent()));
      cacheCoins := cacheCoins[o := Entry(got.value, false, got.value.IsSpent())];
      cachedCoinsUsage := cachedCoinsUsage + memory(got.value.out.script);
      return true;
    }

    /** Gives the entry's coin, spent or not. */
    method GetCoin(o: OutPoint) returns (r: Option<Coin>)
      requires Linked()
      modifies reach
      ensures Value() == Fetch(old(Value()), o) && r == Lookup(old(Value()), o)
      ensures old(AllExact()) ==> AllExact()
      decreases depth, 1
    {
      var found := FetchCoin(o);
      FetchFinds(old(Value()), o);
      r := if found then Some(cacheCoins[o].coin) else None;
    }

    method HaveCoin(o: OutPoint) returns (r: bool)
      requires Linked()
      modifies reach
      ensures Value() == Fetch(old(Value()), o)
      ensures r <==> o in Flat(old(Value()))
      ensures old(AllExact()) ==> AllExact()
    {
      var found := FetchCoin(o);
      FetchFinds(old(Value()), o);
      FlatLookup(old(Value()), o);
      r := found && !cacheCoins[o].coin.IsSpent();
    }

    /** The total stays exact unless the call throws; then it is short by the old coin. */
    method AddCoin(o: OutPoint, coin: Coin, overwrite: bool) returns (threw: bool)
      requires Linked() && !coin.IsSpent()
      modifies this
      ensures Value() == Coins.AddCoin(old(Value()), o, coin, overwrite)
      ensures threw == AddThrows(old(Value()), o, coin, overwrite)
      ensures old(Exact()) ==>
                cachedCoinsUsage == Usage(cacheCoins, memory)
                  - (if threw then memory(cacheCoins[o].coin.out.script) else 0)
    {
      if coin.IsUnspendable() { return false; }
      var inserted := o !in cacheCoins;
      var e := Slot(cacheCoins, o);
      var isFresh := false;
      if !inserted {
        cachedCoinsUsage := cachedCoinsUsage - memory(e.coin.out.script);
      }
      if !overwrite {
        if !e.coin.IsSpent() { return true; }
        isFresh := !e.isDirty;
      }
      UsageSet(cacheCoins, memory, o, Entry(coin, true, e.isFresh || isFresh));
      cacheCoins := cacheCoins[o := Entry(coin, true, e.isFresh || isFresh)];
      cachedCoinsUsage := cachedCoinsUsage + memory(coin.out.script);
      return false;
    }

    method SpendCoin(o: OutPoint) returns (found: bool, moved: Coin)
      requires Linked()
      modifies reach
      ensures Value() == Coins.SpendCoin(old(Value()), o)
      ensures found == Lookup(old(Value()), o).Some?
      ensures found ==> moved == Lookup(old(Value()), o).value
      ensures old(AllExact()) ==> AllExact()
    {
      found := FetchCoin(o);
      FetchFinds(old(Value()), o);
      if !found { return false, EMPTY_COIN; }
      var e := cacheCoins[o];
      moved := e.coin;
      cachedCoinsUsage := cachedCoinsUsage - memory(e.coin.out.script);
      if e.isFresh {
        UsageRemove(cacheCoins, memory, o);
        cacheCoins := cacheCoins - {o};
      } else {
        UsageSet(cacheCoins, memory, o, Entry(EMPTY_COIN, true, false));
        cacheCoins := cacheCoins[o := Entry(EMPTY_COIN, true, false)];
      }
    }

    /** `rest` is what is left of the caller's map: nothing, unless the call threw. Then it is what was not
        written yet, the misapplied entry among it, and everything else has been written. */
    method BatchWrite(mapCoins: CoinsMap) returns (threw: bool, rest: CoinsMap)
      requires Linked()
      modifies this
      ensures threw == WriteThrows(old(Value()), mapCoins)
      ensures !threw ==> rest == map[] && Value() == Coins.BatchWrite(old(Value()), mapCoins)
      ensures threw ==> Abandoned(old(cacheCoins), mapCoins, rest, cacheCoins)
      ensures old(AllExact()) ==> AllExact()
    {
      threw, rest := WriteAll(mapCoins);
    }

    /** The loop over the child's entries, as seen from this cache's own map. */
    method WriteAll(mapCoins: CoinsMap) returns (threw: bool, rest: CoinsMap)
      modifies this
      ensures threw <==> exists o :: o in mapCoins && Misapplied(old(cacheCoins), mapCoins, o)
      ensures !threw ==> rest == map[] && cacheCoins == WriteEntries(old(cacheCoins), mapCoins)
      ensures threw ==> Abandoned(old(cacheCoins), mapCoins, rest, cacheCoins)
      ensures old(Exact()) ==> Exact()
    {
      rest := mapCoins;
      ghost var goal := WriteEntries(cacheCoins, mapCoins);
      hide WriteEntries, Usage, Misapplied;
      ProgressStart(cacheCoins, mapCoins);
      while rest != map[]
        invariant Submap(rest, mapCoins) && Progress(old(cacheCoins), cacheCoins, goal, rest.Keys)
        invariant forall o :: o in mapCoins && o !in rest ==> !Misapplied(old(cacheCoins), mapCoins, o)
        invariant old(Exact()) ==> Exact()
        decreases |rest|
      {
        var o :| o in rest;
        var bad := WriteNext(o, rest[o], old(cacheCoins), mapCoins, goal, rest.Keys);
        if bad {
          assert o in rest && Misapplied(old(cacheCoins), mapCoins, o);
          return true, rest;
        }
        rest := rest - {o};
      }
      ProgressDone(old(cacheCoins), cacheCoins, goal);
      return false, rest;
    }

    /** One entry of the child: skipped if clean, else written unless its FRESH flag is misapplied. */
    method WriteNext(o: OutPoint, entry: Entry, ghost parent: CoinsMap, ghost child: CoinsMap, ghost goal: CoinsMap, ghost rest: set<OutPoint>)
      returns (threw: bool)
      requires Progress(parent, cacheCoins, goal, rest) && goal == WriteEntries(parent, child)
      requires o in rest && o in child && child[o] == entry
      modifies this
      ensures threw <==> Misapplied(parent, child, o)
      ensures !threw ==> Progress(parent, cacheCoins, goal, rest - {o})
      ensures threw ==> cacheCoins == old(cacheCoins)
      ensures old(Exact()) ==> Exact()
    {
      ProgressAt(parent, cacheCoins, goal, rest, o);
      GoalAt(parent, child, o);
      hide Progress, Usage, WriteEntries;
      ghost var before := cacheCoins;
      if entry.isDirty {
        if o in cacheCoins && entry.isFresh && !cacheCoins[o].coin.IsSpent() { return true; }
        WriteOne(o, entry);
      }
      ProgressStep(parent, before, cacheCoins, goal, rest, o);
      return false;
    }

    /** One DIRTY entry of the child, written over this cache's entry. */
    method WriteOne(o: OutPoint, child: Entry)
      modifies this
      ensures At(cacheCoins, o) == Merge(At(old(cacheCoins), o), child)
      ensures forall p :: p != o ==> At(cacheCoins, p) == At(old(cacheCoins), p)
      ensures old(Exact()) ==> Exact()
    {
      if o !in cacheCoins {
        if !(child.isFresh && child.coin.IsSpent()) {
          UsageSet(cacheCoins, memory, o, Entry(child.coin, true, child.isFresh));
          cacheCoins := cacheCoins[o := Entry(child.coin, true, child.isFresh)];
          cachedCoinsUsage := cachedCoinsUsage + memory(child.coin.out.script);
        }
      } else {
        cachedCoinsUsage := cachedCoinsUsage - memory(cacheCoins[o].coin.out.script);
        if cacheCoins[o].isFresh && child.coin.IsSpent() {
          UsageRemove(cacheCoins, memory, o);
          cacheCoins := cacheCoins - {o};
        } else {
          UsageSet(cacheCoins, memory, o, Entry(child.coin, true, cacheCoins[o].isFresh));
          cacheCoins := cacheCoins[o := Entry(child.coin, true, cacheCoins[o].isFresh)];
          cachedCoinsUsage := cachedCoinsUsage + memory(child.coin.out.script);
        }
      }
    }

    method Flush() returns (threw: bool)
      requires Linked()
      modifies reach
      ensures threw == WriteThrows(old(Value()).below, old(Value()).entries)
      ensures !threw ==> Value() == Coins.Flush(old(Value()))
      ensures !threw && old(AllExact()) ==> AllExact()
    {
      match base {
        case OnDB(db) =>
          db.BatchWrite(cacheCoins);
          threw := false;
        case OnCache(c) =>
          threw, cacheCoins := c.BatchWrite(cacheCoins);
          if threw { return; }
      }
      cacheCoins := map[];
      cachedCoinsUsage := 0;
    }

    method Uncache(o: OutPoint)
      requires Linked()
      modifies this
      ensures Value() == Coins.Uncache(old(Value()), o)
      ensures old(Exact()) ==> Exact()
    {
      if o in cacheCoins && !cacheCoins[o].isDirty && !cacheCoins[o].isFresh {
        UsageRemove(cacheCoins, memory, o);
        cachedCoinsUsage := cachedCoinsUsage - memory(cacheCoins[o].coin.out.script);
        cacheCoins := cacheCoins - {o};
      }
    }
  }

  lemma ProgressStart(parent: CoinsMap, child: CoinsMap)
    ensures Progress(parent, parent, WriteEntries(parent, child), child.Keys)
  {
  }

  lemma GoalAt(parent: CoinsMap, child: CoinsMap, o: OutPoint)
    ensures At(WriteEntries(parent, child), o) == Merged(parent, child, o)
  {
  }

  lemma FetchFinds(v: View, o: OutPoint)
    ensures Fetch(v, o).Cache? == v.Cache?
    ensures v.Cache? ==> (o in Fetch(v, o).entries <==> Lookup(v, o).Some?)
    ensures v.Cache? && Lookup(v, o).Some? ==> Fetch(v, o).entries[o].coin == Lookup(v, o).value
  {
  }
}
