/** The fee part of the totals kept for packages.

    Creating an entry's totals deducts the modified fee of an included ancestor, updating them deducts
    its plain fee.  The two agree exactly when the deltas of the ancestors deducted by updates cancel. */
module Fees {

  import opened Basics
  import opened Packages

  function ModFee(e: Entry): int { e.fee + e.feeDelta }

  /** Descendants that are not added themselves. */
  function Below(p: Pool, it: Tx, added: set<Tx>): set<Tx> {
    Descendants(p, it) - added
  }

  /** One included ancestor deducted from one entry. */
  function Deducted1(p: Pool, fees: map<Tx, int>, it: Tx, d: Tx): int
    requires it in p && d in p
  {
    if d in fees then fees[d] - p[it].fee else p[d].cachedFees - ModFee(p[it])
  }

  /** One included ancestor deducted from some of its descendants. */
  function DeductedFrom(p: Pool, fees: map<Tx, int>, it: Tx, ds: set<Tx>): map<Tx, int>
    requires it in p
  {
    map t | t in p && (t in fees || t in ds) :: if t in ds then Deducted1(p, fees, it, t) else if t in fees then fees[t] else 0
  }

  /** Included ancestors deducted in some order. */
  function DeductedAll(p: Pool, fees: map<Tx, int>, its: seq<Tx>, added: set<Tx>): map<Tx, int>
    requires Elems(its) <= p.Keys
  {
    if its == [] then fees
    else
      assert its[|its| - 1] in Elems(its);
      DeductedFrom(p, DeductedAll(p, fees, its[..|its| - 1], added), its[|its| - 1], Below(p, its[|its| - 1], added))
  }

  // ---------------------------------------------------------------- the loops

  lemma DeductMore(p: Pool, fees: map<Tx, int>, it: Tx, all: set<Tx>, todo: set<Tx>, added: set<Tx>, d: Tx)
    requires fees.Keys <= p.Keys && it in p && todo <= all <= p.Keys && d in todo
    ensures var r, next := DeductedFrom(p, fees, it, all - todo - added), DeductedFrom(p, fees, it, all - (todo - {d}) - added);
      next == if d in added then r else r[d := if d in r then r[d] - p[it].fee else p[d].cachedFees - ModFee(p[it])]
  {
    if d in added { assert all - (todo - {d}) - added == all - todo - added; }
  }

  /** The inner loop: one included ancestor, its descendants in any order. */
  method DeductFees(p: Pool, fees: map<Tx, int>, it: Tx, added: set<Tx>) returns (r: map<Tx, int>)
    requires it in p && fees.Keys <= p.Keys
    ensures r == DeductedFrom(p, fees, it, Below(p, it, added))
  {
    r := fees;
    var all := Descendants(p, it);
    var todo := all;
    assert all - todo - added == {} && all <= p.Keys && DeductedFrom(p, fees, it, {}) == fees;
    hide DeductedFrom, Descendants;
    while todo != {}
      invariant todo <= all && r == DeductedFrom(p, fees, it, all - todo - added)
      decreases |todo|
    {
      var desc :| desc in todo;
      DeductMore(p, fees, it, all, todo, added, desc);
      if desc !in added {
        if desc !in r {
          r := r[desc := p[desc].cachedFees - ModFee(p[it])];
        } else {
          r := r[desc := r[desc] - p[it].fee];
        }
      }
      todo := todo - {desc};
    }
    assert all - todo - added == Below(p, it, added);
  }

  /** The outer loop, over the included transactions in any order. */
  method UpdateFees(p: Pool, fees: map<Tx, int>, added: set<Tx>) returns (r: map<Tx, int>, ghost its: seq<Tx>)
    requires added <= p.Keys && fees.Keys <= p.Keys
    ensures Elems(its) == added && Distinct(its) && r == DeductedAll(p, fees, its, added)
  {
    r, its := fees, [];
    var todo := added;
    while todo != {}
      invariant todo <= added && Elems(its) == added - todo && Distinct(its)
      invariant r.Keys <= p.Keys && r == DeductedAll(p, fees, its, added)
      decreases |todo|
    {
      var it :| it in todo;
      ElemsSnoc(its, it);
      assert (its + [it])[..|its|] == its;
      r := DeductFees(p, r, it, added);
      its := its + [it];
      assert added - (todo - {it}) == added - todo + {it};
      todo := todo - {it};
    }
  }

  // ---------------------------------------------------------------- exactness

  /** The ancestors of an entry among some transactions, in their order. */
  function Among(p: Pool, its: seq<Tx>, d: Tx): (r: seq<Tx>)
    requires d in p
    ensures Elems(r) <= Elems(its)
  {
    if its == [] then []
    else
      var before, last := Among(p, its[..|its| - 1], d), its[|its| - 1];
      assert Elems(its[..|its| - 1]) <= Elems(its) && last in Elems(its);
      if last in p[d].ancestors then before + [last] else before
  }

  function FeeSum(p: Pool, its: seq<Tx>): int
    requires Elems(its) <= p.Keys
  {
    if its == [] then 0
    else
      assert Elems(its[..|its| - 1]) <= Elems(its) && its[|its| - 1] in Elems(its);
      FeeSum(p, its[..|its| - 1]) + ModFee(p[its[|its| - 1]])
  }

  function DeltaSum(p: Pool, its: seq<Tx>): int
    requires Elems(its) <= p.Keys
  {
    if its == [] then 0
    else
      assert Elems(its[..|its| - 1]) <= Elems(its) && its[|its| - 1] in Elems(its);
      DeltaSum(p, its[..|its| - 1]) + p[its[|its| - 1]].feeDelta
  }

  function Start(p: Pool, fees: map<Tx, int>, d: Tx): int
    requires d in p
  {
    if d in fees then fees[d] else p[d].cachedFees
  }

  /** The ancestors deducted by an update: all, or all but the first when the totals are new. */
  function ByUpdate(fees: map<Tx, int>, d: Tx, anc: seq<Tx>): seq<Tx> {
    if d in fees || anc == [] then anc else anc[1..]
  }

  lemma PrefixIn(p: Pool, its: seq<Tx>)
    requires its != [] && Elems(its) <= p.Keys
    ensures its[|its| - 1] in p && its[|its| - 1] in Elems(its) && Elems(its[..|its| - 1]) <= Elems(its) <= p.Keys
  {
    assert its[|its| - 1] in Elems(its);
  }

  lemma SumsMore(p: Pool, its: seq<Tx>, t: Tx)
    requires Elems(its) <= p.Keys && t in p
    ensures Elems(its + [t]) <= p.Keys
    ensures FeeSum(p, its + [t]) == FeeSum(p, its) + ModFee(p[t]) && DeltaSum(p, its + [t]) == DeltaSum(p, its) + p[t].feeDelta
  {
    ElemsSnoc(its, t);
    assert (its + [t])[..|its|] == its;
  }

  /** What is kept for an entry outside: its start less all included ancestors' modified fees, plus the
      deltas of those that an update deducted. */
  ghost predicate KeptRight(p: Pool, fees: map<Tx, int>, its: seq<Tx>, d: Tx, r: map<Tx, int>)
    requires d in p && Elems(its) <= p.Keys
  {
    var anc := Among(p, its, d);
    && Elems(ByUpdate(fees, d, anc)) <= p.Keys
    && (d in r <==> d in fees || anc != [])
    && (d in r ==> r[d] == Start(p, fees, d) - FeeSum(p, anc) + DeltaSum(p, ByUpdate(fees, d, anc)))
  }

  lemma {:induction false} KeptIs(p: Pool, fees: map<Tx, int>, its: seq<Tx>, added: set<Tx>, d: Tx)
    requires d in p && d !in added && Elems(its) <= added <= p.Keys && fees.Keys <= p.Keys
    ensures KeptRight(p, fees, its, d, DeductedAll(p, fees, its, added))
  {
    if its != [] {
      PrefixIn(p, its);
      var before, it := its[..|its| - 1], its[|its| - 1];
      KeptIs(p, fees, before, added, d);
      KeptMore(p, fees, before, it, added, d, DeductedAll(p, fees, before, added));
      assert its == before + [it];
    }
  }

  lemma KeptMore(p: Pool, fees: map<Tx, int>, its: seq<Tx>, it: Tx, added: set<Tx>, d: Tx, r: map<Tx, int>)
    requires d in p && d !in added && it in added && added <= p.Keys && Elems(its) <= p.Keys && Elems(its + [it]) <= p.Keys
    requires KeptRight(p, fees, its, d, r)
    ensures KeptRight(p, fees, its + [it], d, DeductedFrom(p, r, it, Below(p, it, added)))
  {
    hide Among, ByUpdate, DeductedFrom, Below, FeeSum, DeltaSum, Elems;
    var anc := Among(p, its, d);
    var up := ByUpdate(fees, d, anc);
    AmongMore(p, its, it, d);
    DeductedAt(p, r, it, added, d);
    if it in p[d].ancestors {
      ByUpdateMore(fees, d, anc, it);
      SumsMore(p, anc, it);
      if d in r {
        SumsMore(p, up, it);
        assert Elems(ByUpdate(fees, d, anc + [it])) <= p.Keys;
      } else {
        NoSums(p);
        assert Elems(ByUpdate(fees, d, anc + [it])) <= p.Keys;
      }
    }
  }

  lemma NoSums(p: Pool)
    ensures Elems([]) <= p.Keys && FeeSum(p, []) == 0 == DeltaSum(p, [])
  {
  }

  lemma AmongMore(p: Pool, its: seq<Tx>, it: Tx, d: Tx)
    requires d in p
    ensures Among(p, its + [it], d) == if it in p[d].ancestors then Among(p, its, d) + [it] else Among(p, its, d)
  {
    assert (its + [it])[..|its|] == its;
  }

  lemma ByUpdateMore(fees: map<Tx, int>, d: Tx, anc: seq<Tx>, it: Tx)
    ensures ByUpdate(fees, d, anc + [it]) == if d in fees || anc != [] then ByUpdate(fees, d, anc) + [it] else []
  {
    if anc != [] { assert (anc + [it])[1..] == anc[1..] + [it]; }
  }

  lemma DeductedAt(p: Pool, r: map<Tx, int>, it: Tx, added: set<Tx>, d: Tx)
    requires d in p && it in p && it in added && d !in added
    ensures var n := DeductedFrom(p, r, it, Below(p, it, added));
      && (d in n <==> d in r || it in p[d].ancestors)
      && (d in n ==> n[d] == if it in p[d].ancestors then Deducted1(p, r, it, d) else r[d])
  {
  }

  /** Kept fees are exact if and only if the deltas of the ancestors deducted by updates cancel. */
  lemma FeesExactIff(p: Pool, fees: map<Tx, int>, its: seq<Tx>, added: set<Tx>, d: Tx)
    requires d in p && d !in added && Elems(its) <= added <= p.Keys && fees.Keys <= p.Keys
    requires d in fees || Among(p, its, d) != []
    ensures Elems(ByUpdate(fees, d, Among(p, its, d))) <= p.Keys && d in DeductedAll(p, fees, its, added)
    ensures DeductedAll(p, fees, its, added)[d] == Start(p, fees, d) - FeeSum(p, Among(p, its, d)) <==>
      DeltaSum(p, ByUpdate(fees, d, Among(p, its, d))) == 0
  {
    hide DeductedAll, Among, ByUpdate;
    KeptIs(p, fees, its, added, d);
  }

  // ---------------------------------------------------------------- without deltas, over a run

  ghost function FeeTotal(p: Pool, s: set<Tx>): int
    requires s <= p.Keys
  {
    if s == {} then 0 else var t :| t in s; ModFee(p[t]) + FeeTotal(p, s - {t})
  }

  lemma {:induction false} FeeRemove(p: Pool, s: set<Tx>, t: Tx)
    requires s <= p.Keys && t in s
    ensures FeeTotal(p, s) == ModFee(p[t]) + FeeTotal(p, s - {t})
    decreases |s|
  {
    var u :| u in s && FeeTotal(p, s) == ModFee(p[u]) + FeeTotal(p, s - {u});
    if u != t {
      FeeRemove(p, s - {u}, t);
      FeeRemove(p, s - {t}, u);
      assert s - {u} - {t} == s - {t} - {u};
    }
  }

  lemma {:induction false} FeeSplit(p: Pool, s: set<Tx>, part: set<Tx>)
    requires s <= p.Keys && part <= s
    ensures FeeTotal(p, s) == FeeTotal(p, part) + FeeTotal(p, s - part)
    decreases |part|
  {
    if part == {} {
      assert s - part == s;
    } else {
      var t :| t in part;
      FeeRemove(p, s, t);
      FeeRemove(p, part, t);
      FeeSplit(p, s - {t}, part - {t});
      assert s - {t} - (part - {t}) == s - part;
    }
  }

  lemma {:induction false} SumIsTotal(p: Pool, its: seq<Tx>, d: Tx)
    requires d in p && Elems(its) <= p.Keys && Distinct(its)
    ensures FeeSum(p, Among(p, its, d)) == FeeTotal(p, p[d].ancestors * Elems(its))
  {
    if its == [] {
      assert p[d].ancestors * Elems(its) == {};
    } else {
      PrefixIn(p, its);
      var before, it := its[..|its| - 1], its[|its| - 1];
      SumIsTotal(p, before, d);
      assert its == before + [it] && Distinct(before);
      ElemsSnoc(before, it);
      assert it !in Elems(before);
      AmongMore(p, before, it, d);
      hide FeeTotal, FeeSum, Among, Elems, Distinct;
      if it in p[d].ancestors {
        SumsMore(p, Among(p, before, d), it);
        FeeRemove(p, p[d].ancestors * Elems(its), it);
        assert p[d].ancestors * Elems(its) - {it} == p[d].ancestors * Elems(before);
      } else {
        assert p[d].ancestors * Elems(its) == p[d].ancestors * Elems(before);
      }
    }
  }

  ghost predicate NoDeltas(p: Pool) {
    forall t :: t in p ==> p[t].feeDelta == 0
  }

  ghost predicate CachedFeesExact(p: Pool) {
    Indexed(p) && forall t :: t in p ==> CachedAt(p, t)
  }

  ghost predicate CachedAt(p: Pool, t: Tx)
    requires t in p
  {
    p[t].ancestors <= p.Keys && p[t].cachedFees == FeeTotal(p, Package(p, t))
  }

  /** Kept fees are those of what an entry still needs, unless it has failed before, and are kept for
      every other entry with an ancestor in the block. */
  ghost predicate FeesTracked(p: Pool, b: set<Tx>, fees: map<Tx, int>, failed: set<Tx>) {
    Indexed(p) && fees.Keys <= p.Keys && forall t :: t in p ==> FeeTracked(p, b, fees, failed, t)
  }

  ghost predicate FeeTracked(p: Pool, b: set<Tx>, fees: map<Tx, int>, failed: set<Tx>, t: Tx)
    requires t in p
  {
    && p[t].ancestors <= p.Keys
    && (t in fees ==> t !in b)
    && (t in fees && t !in failed ==> fees[t] == FeeTotal(p, Rest(p, b, t)))
    && (t !in b && t !in failed && p[t].ancestors * b != {} ==> t in fees)
  }

  lemma RestFees(p: Pool, b: set<Tx>, added: set<Tx>, t: Tx)
    requires t in p && p[t].ancestors <= p.Keys && added <= p.Keys && added !! b && t !in added
    ensures FeeTotal(p, Rest(p, b + added, t)) == FeeTotal(p, Rest(p, b, t)) - FeeTotal(p, p[t].ancestors * added)
    ensures p[t].ancestors * b == {} && t !in b ==> Rest(p, b, t) == Package(p, t)
  {
    FeeSplit(p, Rest(p, b, t), p[t].ancestors * added);
    assert Rest(p, b, t) - p[t].ancestors * added == Rest(p, b + added, t);
    if p[t].ancestors * b == {} && t !in b {
      assert forall x :: x in p[t].ancestors && x in b ==> x in p[t].ancestors * b;
    }
  }

  lemma {:induction false} NoDeltaSum(p: Pool, its: seq<Tx>)
    requires NoDeltas(p) && Elems(its) <= p.Keys
    ensures DeltaSum(p, its) == 0
  {
    if its != [] {
      PrefixIn(p, its);
      NoDeltaSum(p, its[..|its| - 1]);
    }
  }

  lemma FeeAfter(p: Pool, b: set<Tx>, fees: map<Tx, int>, failed: set<Tx>, its: seq<Tx>, added: set<Tx>, t: Tx, r: map<Tx, int>)
    requires NoDeltas(p) && added <= p.Keys && added !! b && Elems(its) == added && Distinct(its) && t in p && t !in added
    requires Closed(p, b) && CachedAt(p, t) && FeeTracked(p, b, fees, failed, t) && KeptRight(p, fees - added, its, t, r)
    ensures FeeTracked(p, b + added, r, failed, t)
  {
    var f, anc := fees - added, Among(p, its, t);
    NoDeltaSum(p, ByUpdate(f, t, anc));
    SumIsTotal(p, its, t);
    RestFees(p, b, added, t);
    AmongNone(p, its, t);
    assert t in b ==> p[t].ancestors * added == {};
    hide FeeTotal, FeeSum, DeltaSum, Among, ByUpdate, Rest, Package, Elems, NoDeltas, Distinct, Closed;
    assert p[t].ancestors * (b + added) == p[t].ancestors * b + p[t].ancestors * added;
  }

  lemma {:induction false} AmongNone(p: Pool, its: seq<Tx>, d: Tx)
    requires d in p && Elems(its) <= p.Keys
    ensures Among(p, its, d) == [] <==> p[d].ancestors * Elems(its) == {}
  {
    if its != [] {
      PrefixIn(p, its);
      var before, it := its[..|its| - 1], its[|its| - 1];
      AmongNone(p, before, d);
      assert its == before + [it];
      ElemsSnoc(before, it);
      if it in p[d].ancestors {
        assert it in p[d].ancestors * Elems(its);
      } else {
        assert p[d].ancestors * Elems(its) == p[d].ancestors * Elems(before);
      }
    }
  }

  /** Entries of the added set lose their kept fees and get none. */
  lemma {:induction false} AddedGone(p: Pool, fees: map<Tx, int>, its: seq<Tx>, added: set<Tx>)
    requires Elems(its) <= added <= p.Keys && fees.Keys <= p.Keys && fees.Keys !! added
    ensures DeductedAll(p, fees, its, added).Keys <= p.Keys && DeductedAll(p, fees, its, added).Keys !! added
  {
    if its != [] {
      PrefixIn(p, its);
      AddedGone(p, fees, its[..|its| - 1], added);
    }
  }

  /** Without deltas an inclusion keeps all fees exact, whatever order its transactions are taken in. */
  lemma FeesAfter(p: Pool, b: set<Tx>, fees: map<Tx, int>, failed: set<Tx>, its: seq<Tx>, added: set<Tx>)
    requires NoDeltas(p) && CachedFeesExact(p) && Closed(p, b) && Closed(p, b + added) && added <= p.Keys && added !! b
    requires Elems(its) == added && Distinct(its) && FeesTracked(p, b, fees, failed)
    ensures FeesTracked(p, b + added, DeductedAll(p, fees - added, its, added), failed)
  {
    var r := DeductedAll(p, fees - added, its, added);
    AddedGone(p, fees - added, its, added);
    forall t | t in p ensures FeeTracked(p, b + added, r, failed, t) {
      assert CachedAt(p, t) && FeeTracked(p, b, fees, failed, t);
      if t !in added {
        KeptIs(p, fees - added, its, added, t);
        FeeAfter(p, b, fees, failed, its, added, t, r);
      }
    }
  }

  lemma FeesStart(p: Pool)
    requires CachedFeesExact(p)
    ensures FeesTracked(p, {}, map[], {})
  {
    assert forall t :: t in p ==> CachedAt(p, t);
  }

  lemma FeesFail(p: Pool, b: set<Tx>, fees: map<Tx, int>, failed: set<Tx>, t: Tx)
    requires FeesTracked(p, b, fees, failed)
    ensures FeesTracked(p, b, fees - {t}, failed + {t})
  {
    assert forall x :: x in p ==> FeeTracked(p, b, fees, failed, x);
    hide FeeTotal, Rest;
  }

  // ---------------------------------------------------------------- with one, a difference

  const A := Tx(1)
  const B := Tx(2)
  const X := Tx(3)

  /** Two transactions, the second with a delta of 100, and a child of both. */
  const POOL: Pool := map[
    A := Entry({}, {}, 100, 1, 10, 0, 1, Mod(100, 1), 10, true),
    B := Entry({}, {}, 100, 1, 10, 100, 1, Mod(100, 1), 110, true),
    X := Entry({A, B}, {A, B}, 100, 1, 10, 0, 3, Mod(300, 3), 130, true)]

  lemma TakenOne(p: Pool, fees: map<Tx, int>, it: Tx, x: Tx)
    requires it in p && x in p && fees.Keys <= {x}
    ensures DeductedFrom(p, fees, it, {x}) == map[x := Deducted1(p, fees, it, x)]
  {
  }

  lemma TakenMore(p: Pool, fees: map<Tx, int>, its: seq<Tx>, it: Tx, added: set<Tx>)
    requires it in p && Elems(its) <= p.Keys
    ensures Elems(its + [it]) == Elems(its) + {it}
    ensures DeductedAll(p, fees, its + [it], added) == DeductedFrom(p, DeductedAll(p, fees, its, added), it, Below(p, it, added))
  {
    ElemsSnoc(its, it);
    assert (its + [it])[..|its|] == its;
    hide DeductedFrom, Below;
  }

  lemma TakenFirst(p: Pool, a: Tx, x: Tx, added: set<Tx>)
    requires a in p && x in p && Below(p, a, added) == {x}
    ensures Elems([a]) == {a} && DeductedAll(p, map[], [a], added) == map[x := p[x].cachedFees - ModFee(p[a])]
  {
    assert Elems([]) == {} && DeductedAll(p, map[], [], added) == map[];
    assert [] + [a] == [a];
    hide DeductedAll, DeductedFrom, Below, Elems;
    TakenMore(p, map[], [], a, added);
    TakenOne(p, map[], a, x);
  }

  /** Of two parents the first is deducted with its delta, the second without. */
  lemma TakenTwo(p: Pool, a: Tx, b: Tx, x: Tx, added: set<Tx>)
    requires a in p && b in p && x in p && Below(p, a, added) == {x} == Below(p, b, added)
    ensures Elems([a, b]) == {a, b} && DeductedAll(p, map[], [a, b], added) == map[x := p[x].cachedFees - ModFee(p[a]) - p[b].fee]
  {
    hide DeductedAll, DeductedFrom, Below, Elems, ModFee;
    TakenFirst(p, a, x, added);
    assert [a] + [b] == [a, b];
    TakenMore(p, map[], [a], b, added);
    TakenOne(p, map[x := p[x].cachedFees - ModFee(p[a])], b, x);
  }

  /** With a delta the fees kept for a child depend on which parent is taken first: 10, which is what it
      needs, or 110. */
  lemma FeesMayDiffer()
    ensures Elems([B, A]) == Elems([A, B]) == {A, B}
    ensures DeductedAll(POOL, map[], [B, A], {A, B}) == map[X := 10]
    ensures DeductedAll(POOL, map[], [A, B], {A, B}) == map[X := 110]
  {
    assert Below(POOL, A, {A, B}) == {X} == Below(POOL, B, {A, B});
    assert {B, A} == {A, B};
    hide DeductedAll, Elems, Below;
    TakenTwo(POOL, A, B, X, {A, B});
    TakenTwo(POOL, B, A, X, {A, B});
  }
}
