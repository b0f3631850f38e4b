/** A block template under construction: what adding a transaction does to it, and why adding a
    sorted package keeps it in order and its counters exact. */
module Templates {

  import opened Packages

  /** What is in the block, the fees noted beside it, and the running counters. */
  datatype Block = Block(vtx: seq<Tx>, fees: seq<int>, inBlock: set<Tx>, used: Mod, count: nat, total: int)

  /** Room is reserved for the coinbase transaction. */
  const RESERVED := Mod(1000, 100)

  const FRESH_BLOCK := Block([], [], {}, RESERVED, 0, 0)

  function Push(p: Pool, b: Block, t: Tx): Block
    requires t in p
  {
    Block(b.vtx + [t], b.fees + [p[t].fee], b.inBlock + {t}, Plus(b.used, Weight(p[t])), b.count + 1, b.total + p[t].fee)
  }

  function PushAll(p: Pool, b: Block, ts: seq<Tx>): Block
    requires Elems(ts) <= p.Keys
  {
    if ts == [] then b
    else
      assert ts[|ts| - 1] in Elems(ts);
      Push(p, PushAll(p, b, ts[..|ts| - 1]), ts[|ts| - 1])
  }

  function FeesOf(p: Pool, v: seq<Tx>): seq<int>
    requires Elems(v) <= p.Keys
  {
    if v == [] then []
    else
      assert v[|v| - 1] in Elems(v);
      FeesOf(p, v[..|v| - 1]) + [p[v[|v| - 1]].fee]
  }

  function SumOf(fees: seq<int>): int {
    if fees == [] then 0 else SumOf(fees[..|fees| - 1]) + fees[|fees| - 1]
  }

  /** The block is in order, all counters are exact and the size limit holds. */
  ghost predicate Ok(p: Pool, max: nat, b: Block) {
    && Sound(p, b.vtx) && b.inBlock == Elems(b.vtx) && Closed(p, b.inBlock)
    && b.used == Plus(RESERVED, Totals(p, b.inBlock)) && b.used.size <= max
    && b.count == |b.vtx| && b.fees == FeesOf(p, b.vtx) && b.total == SumOf(b.fees)
  }

  lemma FreshOk(p: Pool, max: nat)
    requires max >= 1000
    ensures Ok(p, max, FRESH_BLOCK)
  {
  }

  lemma PushOk(p: Pool, max: nat, b: Block, t: Tx)
    requires Ok(p, max, b) && t in p && t !in b.inBlock && p[t].ancestors <= b.inBlock && b.used.size + p[t].size <= max
    ensures Ok(p, max, Push(p, b, t))
  {
    var v := b.vtx + [t];
    assert v[..|v| - 1] == b.vtx && (b.fees + [p[t].fee])[..|b.fees|] == b.fees;
    ElemsSnoc(b.vtx, t);
    TotalsAdd(p, b.inBlock, t);
    SoundSnoc(p, b.vtx, t);
    SoundClosed(p, v);
    hide Totals, Sound, Closed;
    Commute(RESERVED, Totals(p, b.inBlock), Weight(p[t]));
  }

  // ---------------------------------------------------------------- packages in order

  /** By number of ancestors, then by hash. */
  predicate Before(p: Pool, a: Tx, b: Tx)
    requires a in p && b in p
  {
    if p[a].count != p[b].count then p[a].count < p[b].count else a.hash < b.hash
  }

  predicate InOrder(p: Pool, ts: seq<Tx>) {
    forall i, j :: 0 <= i < j < |ts| ==> ts[i] in p && ts[j] in p && Before(p, ts[i], ts[j])
  }

  /** ts is what is missing of the package of t, sorted. */
  ghost predicate Sorted(p: Pool, b: set<Tx>, t: Tx, ts: seq<Tx>) {
    t in p && Elems(ts) <= p.Keys && Elems(ts) == Rest(p, b, t) && InOrder(p, ts)
  }

  /** The missing part of a package holds the missing ancestors of its members, each with fewer
      ancestors than the member. */
  lemma PackageClosed(p: Pool, b: set<Tx>, t: Tx, x: Tx, a: Tx)
    requires Wf(p) && t in p && x in Rest(p, b, t) && x in p && a in p[x].ancestors && a !in b
    ensures a in Rest(p, b, t) && a in p && p[a].count < p[x].count
  {
    if x != t { Transitive(p, t, x); }
    Transitive(p, x, a);
  }

  lemma AncestorEarlier(p: Pool, b: set<Tx>, t: Tx, ts: seq<Tx>, i: nat, a: Tx)
    requires Wf(p) && Sorted(p, b, t, ts) && i < |ts|
    requires ts[i] in p && a in p[ts[i]].ancestors && a !in b
    ensures a in Elems(ts[..i])
  {
    var x := ts[i];
    assert x in Elems(ts);
    PackageClosed(p, b, t, x, a);
    assert a in Elems(ts);
    hide Wf, Rest;
    var k :| 0 <= k < |ts| && ts[k] == a;
    assert !Before(p, ts[i], ts[k]);
    assert k < i;
    assert ts[..i][k] == a;
  }

  /** In a sorted package every ancestor is in the block already or comes earlier. */
  lemma AncestorsFirst(p: Pool, b: set<Tx>, t: Tx, ts: seq<Tx>, i: nat)
    requires Wf(p) && Sorted(p, b, t, ts) && i < |ts|
    ensures ts[i] in p && ts[i] !in b && ts[i] !in ts[..i] && p[ts[i]].ancestors <= b + Elems(ts[..i])
  {
    assert ts[i] in Elems(ts);
    forall a | a in p[ts[i]].ancestors && a !in b ensures a in Elems(ts[..i]) {
      AncestorEarlier(p, b, t, ts, i, a);
    }
  }

  lemma ElemsPrefix(ts: seq<Tx>, i: nat)
    requires i < |ts|
    ensures Elems(ts[..i]) <= Elems(ts[..i + 1]) <= Elems(ts) && ts[i] in Elems(ts)
    ensures Elems(ts[..i + 1]) == Elems(ts[..i]) + {ts[i]}
  {
    assert ts[..i + 1] == ts[..i] + [ts[i]];
  }

  lemma {:induction false} PushAllIn(p: Pool, b: Block, ts: seq<Tx>)
    requires Elems(ts) <= p.Keys
    ensures PushAll(p, b, ts).inBlock == b.inBlock + Elems(ts) && PushAll(p, b, ts).vtx == b.vtx + ts
  {
    if ts != [] {
      PushAllIn(p, b, ts[..|ts| - 1]);
      assert ts == ts[..|ts| - 1] + [ts[|ts| - 1]];
      ElemsSnoc(ts[..|ts| - 1], ts[|ts| - 1]);
    }
  }

  lemma PushNext(p: Pool, b: Block, ts: seq<Tx>, i: nat)
    requires Elems(ts) <= p.Keys && i < |ts|
    ensures ts[i] in p && Elems(ts[..i]) <= p.Keys && Elems(ts[..i + 1]) <= p.Keys
    ensures PushAll(p, b, ts[..i + 1]) == Push(p, PushAll(p, b, ts[..i]), ts[i])
  {
    ElemsPrefix(ts, i);
    assert ts[..i + 1][..i] == ts[..i];
  }

  /** The package ts of t is sorted and fits the block. */
  ghost predicate Fits(p: Pool, max: nat, b: Block, t: Tx, ts: seq<Tx>) {
    Wf(p) && Ok(p, max, b) && Sorted(p, b.inBlock, t, ts) && b.used.size + Totals(p, Elems(ts)).size <= max
  }

  /** The first i transactions of the package are in the block. */
  ghost predicate Partly(p: Pool, max: nat, b: Block, ts: seq<Tx>, i: nat) {
    && i <= |ts| && Elems(ts[..i]) <= p.Keys && Ok(p, max, PushAll(p, b, ts[..i]))
    && PushAll(p, b, ts[..i]).used == Plus(b.used, Totals(p, Elems(ts[..i])))
  }

  /** Adding a sorted package that fits keeps the block in order at every step. */
  lemma {:induction false} PackageOk(p: Pool, max: nat, b: Block, t: Tx, ts: seq<Tx>, i: nat)
    requires Ok(p, max, b) && Fits(p, max, b, t, ts) && i <= |ts|
    ensures Partly(p, max, b, ts, i)
  {
    hide *;
    if i == 0 {
      PackageStart(p, max, b, ts);
    } else {
      PackageOk(p, max, b, t, ts, i - 1);
      PackageStep(p, max, b, t, ts, i - 1);
    }
  }

  lemma PackageStart(p: Pool, max: nat, b: Block, ts: seq<Tx>)
    requires Ok(p, max, b)
    ensures Partly(p, max, b, ts, 0)
  {
    assert Elems(ts[..0]) == {} && PushAll(p, b, ts[..0]) == b && Totals(p, {}) == Mod(0, 0);
    hide Ok, PushAll, Totals;
  }

  lemma PackageStep(p: Pool, max: nat, b: Block, t: Tx, ts: seq<Tx>, i: nat)
    requires Fits(p, max, b, t, ts) && i < |ts| && Partly(p, max, b, ts, i)
    ensures Partly(p, max, b, ts, i + 1)
  {
    assert Elems(ts) <= p.Keys;
    hide Sorted, Ok, Totals, Wf, PushAll;
    var c, x := PushAll(p, b, ts[..i]), ts[i];
    AncestorsFirst(p, b.inBlock, t, ts, i);
    PushAllIn(p, b, ts[..i]);
    PushNext(p, b, ts, i);
    ElemsPrefix(ts, i);
    assert x !in Elems(ts[..i]);
    TotalsAdd(p, Elems(ts[..i]), x);
    TotalsSplit(p, Elems(ts), Elems(ts[..i + 1]));
    Commute(b.used, Totals(p, Elems(ts[..i])), Weight(p[x]));
    PushOk(p, max, c, x);
  }
}
