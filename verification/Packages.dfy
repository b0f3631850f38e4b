/** The transactions waiting in the memory pool as a graph, and what a partly filled block leaves of
    their ancestor packages. */
module Packages {

  datatype Tx = Tx(hash: int)

  /** Size and signature operations, of one transaction or added up. */
  datatype Mod = Mod(size: int, sigops: int)

  /** A pool entry: the entries it spends from, all its ancestors in the pool, its own size, signature
      operations, fee and what was added to that by hand, the count, totals and modified fees cached
      for it with its ancestors, and whether it is final at the height and time of the new block. */
  datatype Entry = Entry(parents: set<Tx>, ancestors: set<Tx>, size: nat, sigops: nat, fee: int, feeDelta: int,
                         count: nat, cached: Mod, cachedFees: int, final: bool)

  type Pool = map<Tx, Entry>

  predicate Indexed(p: Pool) {
    forall t :: t in p ==> p[t].ancestors <= p.Keys
  }

  ghost predicate Wf(p: Pool) {
    Indexed(p) && forall t :: t in p ==> LinkedAt(p, t)
  }

  /** The ancestors are the parents and the ancestors of the parents, without cycles. */
  ghost predicate LinkedAt(p: Pool, t: Tx)
    requires t in p
  {
    && p[t].count == |p[t].ancestors| + 1 && t !in p[t].ancestors && p[t].parents <= p[t].ancestors
    && (forall u :: u in p[t].parents && u in p ==> p[u].ancestors <= p[t].ancestors)
    && forall a :: a in p[t].ancestors && a !in p[t].parents ==> Through(p, t, a)
  }

  /** a is an ancestor of some parent of t. */
  ghost predicate Through(p: Pool, t: Tx, a: Tx)
    requires t in p
  {
    exists u :: u in p[t].parents && u in p && a in p[u].ancestors
  }

  lemma SubsetSize(a: set<Tx>, b: set<Tx>)
    requires a <= b
    ensures |a| <= |b| && (a != b ==> |a| < |b|)
  {
    assert b == a + (b - a);
    assert |b| == |a| + |b - a|;
    if b - a == {} { assert a == b; }
  }

  /** Ancestors of ancestors are ancestors, and have fewer themselves. */
  lemma {:induction false} Transitive(p: Pool, t: Tx, a: Tx)
    requires Wf(p) && t in p && a in p[t].ancestors
    ensures a in p && p[a].ancestors <= p[t].ancestors && p[a].count < p[t].count
    decreases |p[t].ancestors|
  {
    assert LinkedAt(p, t) && LinkedAt(p, a);
    if a !in p[t].parents {
      assert Through(p, t, a);
      var u :| u in p[t].parents && u in p && a in p[u].ancestors;
      assert LinkedAt(p, u);
      SubsetSize(p[u].ancestors, p[t].ancestors);
      Transitive(p, u, a);
    }
    SubsetSize(p[a].ancestors, p[t].ancestors);
  }

  // ---------------------------------------------------------------- totals

  function Plus(m: Mod, n: Mod): Mod { Mod(m.size + n.size, m.sigops + n.sigops) }

  function Minus(m: Mod, n: Mod): Mod { Mod(m.size - n.size, m.sigops - n.sigops) }

  predicate AtLeast(m: Mod, n: Mod) { m.size >= n.size && m.sigops >= n.sigops }

  function Weight(e: Entry): Mod { Mod(e.size, e.sigops) }

  ghost function Totals(p: Pool, s: set<Tx>): (r: Mod)
    requires s <= p.Keys
    ensures AtLeast(r, Mod(0, 0))
  {
    if s == {} then Mod(0, 0) else var t :| t in s; Plus(Weight(p[t]), Totals(p, s - {t}))
  }

  lemma TotalsNone(p: Pool)
    ensures Totals(p, {}) == Mod(0, 0)
  {
  }

  lemma {:induction false} TotalsRemove(p: Pool, s: set<Tx>, t: Tx)
    requires s <= p.Keys && t in s
    ensures Totals(p, s) == Plus(Weight(p[t]), Totals(p, s - {t}))
    decreases |s|
  {
    var u :| u in s && Totals(p, s) == Plus(Weight(p[u]), Totals(p, s - {u}));
    if u != t {
      TotalsRemove(p, s - {u}, t);
      TotalsRemove(p, s - {t}, u);
      assert s - {u} - {t} == s - {t} - {u};
      Commute(Weight(p[t]), Weight(p[u]), Totals(p, s - {t} - {u}));
    }
  }

  lemma Commute(a: Mod, b: Mod, c: Mod)
    ensures Plus(a, Plus(b, c)) == Plus(b, Plus(a, c)) == Plus(Plus(a, b), c) && Plus(a, b) == Plus(b, a)
  {
  }

  lemma TotalsAdd(p: Pool, s: set<Tx>, t: Tx)
    requires s <= p.Keys && t in p && t !in s
    ensures Totals(p, s + {t}) == Plus(Totals(p, s), Weight(p[t]))
  {
    TotalsRemove(p, s + {t}, t);
    assert s + {t} - {t} == s;
  }

  lemma {:induction false} TotalsSplit(p: Pool, s: set<Tx>, part: set<Tx>)
    requires s <= p.Keys && part <= s
    ensures Totals(p, s) == Plus(Totals(p, part), Totals(p, s - part))
    decreases |part|
  {
    if part == {} {
      assert s - part == s;
    } else {
      var t :| t in part;
      TotalsRemove(p, s, t);
      TotalsRemove(p, part, t);
      TotalsSplit(p, s - {t}, part - {t});
      assert s - {t} - (part - {t}) == s - part;
      hide Totals;
      Commute(Weight(p[t]), Totals(p, part - {t}), Totals(p, s - part));
    }
  }

  // ---------------------------------------------------------------- the order of a block

  function Elems(v: seq<Tx>): set<Tx> { set t | t in v }

  /** Each transaction once, and all its ancestors before it. */
  ghost predicate Sound(p: Pool, v: seq<Tx>) {
    v == [] || (var t, rest := v[|v| - 1], v[..|v| - 1];
      Sound(p, rest) && t in p && t !in rest && p[t].ancestors <= Elems(rest))
  }

  ghost predicate Closed(p: Pool, b: set<Tx>) {
    b <= p.Keys && forall t :: t in b && t in p ==> p[t].ancestors <= b
  }

  lemma ElemsSnoc(v: seq<Tx>, t: Tx)
    ensures Elems(v + [t]) == Elems(v) + {t}
  {
  }

  lemma SoundSnoc(p: Pool, v: seq<Tx>, t: Tx)
    requires Sound(p, v) && t in p && t !in v && p[t].ancestors <= Elems(v)
    ensures Sound(p, v + [t])
  {
    assert (v + [t])[..|v|] == v;
  }

  lemma {:induction false} SoundClosed(p: Pool, v: seq<Tx>)
    requires Sound(p, v)
    ensures Closed(p, Elems(v))
  {
    if v != [] {
      var rest, t := v[..|v| - 1], v[|v| - 1];
      SoundClosed(p, rest);
      assert v == rest + [t];
      ElemsSnoc(rest, t);
    }
  }

  /** Every place holds a pool entry that is new there and whose ancestors come before. */
  lemma {:induction false} SoundAt(p: Pool, v: seq<Tx>, i: nat)
    requires Sound(p, v) && i < |v|
    ensures v[i] in p && v[i] !in v[..i] && p[v[i]].ancestors <= Elems(v[..i])
  {
    var rest := v[..|v| - 1];
    if i < |v| - 1 {
      SoundAt(p, rest, i);
      assert rest[..i] == v[..i];
    }
  }

  /** What a sound block means to its reader: no transaction twice, no child before a parent. */
  lemma SoundOrder(p: Pool, v: seq<Tx>, i: nat, j: nat)
    requires Wf(p) && Sound(p, v) && i <= j < |v|
    ensures v[i] in p && (i < j ==> v[i] != v[j]) && v[j] !in p[v[i]].parents
  {
    SoundAt(p, v, i);
    SoundAt(p, v, j);
    assert LinkedAt(p, v[i]);
    hide Sound, Wf;
    if i < j {
      assert v[..j][i] == v[i];
      if v[j] in p[v[i]].parents { InPrefix(v, i, j); }
    }
  }

  lemma InPrefix(v: seq<Tx>, i: nat, j: nat)
    requires i <= j < |v| && v[j] in Elems(v[..i])
    ensures v[j] in v[..j]
  {
    var k :| 0 <= k < i && v[..i][k] == v[j];
    assert v[..j][k] == v[j];
  }

  // ---------------------------------------------------------------- totals of what is still missing

  function Package(p: Pool, t: Tx): set<Tx>
    requires t in p
  {
    p[t].ancestors + {t}
  }

  /** An entry's package without what is in the block. */
  function Rest(p: Pool, b: set<Tx>, t: Tx): set<Tx>
    requires t in p
  {
    Package(p, t) - b
  }

  /** Cached totals are those of the entry with its ancestors. */
  ghost predicate Exact(p: Pool) {
    forall t :: t in p ==> ExactAt(p, t)
  }

  ghost predicate ExactAt(p: Pool, t: Tx)
    requires t in p
  {
    p[t].ancestors <= p.Keys && p[t].cached == Totals(p, Package(p, t))
  }

  /** The kept totals of t, or the pool's own where none are kept yet. */
  function Base(p: Pool, m: map<Tx, Mod>, t: Tx): Mod
    requires t in p
  {
    if t in m then m[t] else p[t].cached
  }

  /** m after the transactions of done went into the block as part of added. */
  ghost function Updated(p: Pool, m: map<Tx, Mod>, added: set<Tx>, done: set<Tx>): map<Tx, Mod>
    requires done <= p.Keys
  {
    map t | t in p && (t in m || (t !in added && p[t].ancestors * done != {})) ::
      if t in added then Base(p, m, t) else Minus(Base(p, m, t), Totals(p, p[t].ancestors * done))
  }

  /** m after the entries of ds lost the ancestor it. */
  ghost function Deducted(p: Pool, m: map<Tx, Mod>, it: Tx, ds: set<Tx>): map<Tx, Mod>
    requires it in p
  {
    map t | t in p && (t in m || t in ds) ::
      if t in ds then Minus(Base(p, m, t), Weight(p[it])) else Base(p, m, t)
  }

  function Descendants(p: Pool, t: Tx): set<Tx> {
    set d | d in p && (d == t || t in p[d].ancestors)
  }

  lemma UpdatedStart(p: Pool, m: map<Tx, Mod>, added: set<Tx>)
    requires m.Keys <= p.Keys
    ensures Updated(p, m, added, {}) == m
  {
    var u := Updated(p, m, added, {});
    forall t | t in p ensures SameAt(u, m, t) {
      assert p[t].ancestors * {} == {};
    }
    SameMap(u, m, p.Keys);
  }

  lemma DeductStart(p: Pool, m: map<Tx, Mod>, it: Tx)
    requires m.Keys <= p.Keys && it in p
    ensures Deducted(p, m, it, {}) == m
  {
  }

  lemma DeductStep(p: Pool, m: map<Tx, Mod>, it: Tx, ds: set<Tx>, d: Tx)
    requires m.Keys <= p.Keys && it in p && d in p && d !in ds
    ensures var n := Deducted(p, m, it, ds);
      Deducted(p, m, it, ds + {d}) == n[d := Minus(Base(p, n, d), Weight(p[it]))]
  {
  }

  /** One more descendant, in the walk over all of them that passes over the package itself. */
  lemma DeductNext(p: Pool, m: map<Tx, Mod>, it: Tx, all: set<Tx>, todo: set<Tx>, added: set<Tx>, d: Tx)
    requires m.Keys <= p.Keys && it in p && todo <= all <= p.Keys && d in todo
    ensures var n, next := Deducted(p, m, it, all - todo - added), Deducted(p, m, it, all - (todo - {d}) - added);
      next == if d in added then n else n[d := Minus(Base(p, n, d), Weight(p[it]))]
  {
    hide Deducted;
    if d in added {
      assert all - todo - added == all - (todo - {d}) - added;
    } else {
      DeductStep(p, m, it, all - todo - added, d);
      assert all - todo - added + {d} == all - (todo - {d}) - added;
    }
  }

  predicate SameAt(m: map<Tx, Mod>, n: map<Tx, Mod>, t: Tx) {
    (t in m <==> t in n) && (t in m && t in n ==> m[t] == n[t])
  }

  lemma SameMap(m: map<Tx, Mod>, n: map<Tx, Mod>, txs: set<Tx>)
    requires m.Keys <= txs && n.Keys <= txs && forall t :: t in txs ==> SameAt(m, n, t)
    ensures m == n
  {
  }

  lemma UpdatedAt(p: Pool, m: map<Tx, Mod>, added: set<Tx>, done: set<Tx>, t: Tx)
    requires done <= p.Keys && t in p
    ensures var u := Updated(p, m, added, done);
      && u.Keys <= p.Keys
      && (t in u <==> t in m || (t !in added && p[t].ancestors * done != {}))
      && (t in u ==> u[t] == if t in added then Base(p, m, t) else Minus(Base(p, m, t), Totals(p, p[t].ancestors * done)))
  {
  }

  lemma DeductedAt(p: Pool, m: map<Tx, Mod>, it: Tx, ds: set<Tx>, t: Tx)
    requires it in p && t in p
    ensures var n := Deducted(p, m, it, ds);
      && n.Keys <= p.Keys
      && (t in n <==> t in m || t in ds)
      && (t in n ==> n[t] == if t in ds then Minus(Base(p, m, t), Weight(p[it])) else Base(p, m, t))
  {
  }

  /** One more transaction of the package is accounted for in all its descendants. */
  lemma UpdateStep(p: Pool, m: map<Tx, Mod>, added: set<Tx>, done: set<Tx>, it: Tx)
    requires added <= p.Keys && done <= added && it in added && it !in done
    ensures Deducted(p, Updated(p, m, added, done), it, Descendants(p, it) - added) == Updated(p, m, added, done + {it})
  {
    var u, v := Updated(p, m, added, done), Updated(p, m, added, done + {it});
    var n := Deducted(p, u, it, Descendants(p, it) - added);
    DeductedAt(p, u, it, Descendants(p, it) - added, it);
    UpdatedAt(p, m, added, done + {it}, it);
    hide Updated, Deducted, Descendants, SameAt;
    forall t | t in p ensures SameAt(n, v, t) {
      UpdateAt(p, m, added, done, it, t);
    }
    SameMap(n, v, p.Keys);
  }

  lemma UpdateAt(p: Pool, m: map<Tx, Mod>, added: set<Tx>, done: set<Tx>, it: Tx, t: Tx)
    requires added <= p.Keys && done <= added && it in added && it !in done && t in p
    ensures SameAt(Deducted(p, Updated(p, m, added, done), it, Descendants(p, it) - added),
              Updated(p, m, added, done + {it}), t)
  {
    var u, ds := Updated(p, m, added, done), Descendants(p, it) - added;
    hide Updated, Deducted;
    UpdatedAt(p, m, added, done, t);
    UpdatedAt(p, m, added, done + {it}, t);
    DeductedAt(p, u, it, ds, t);
    assert t in ds <==> t !in added && it in p[t].ancestors;
    DoneStep(p, done, it, t);
    hide Descendants, Totals;
  }

  lemma DoneStep(p: Pool, done: set<Tx>, it: Tx, t: Tx)
    requires done <= p.Keys && it in p && it !in done && t in p
    ensures var now, before := p[t].ancestors * (done + {it}), p[t].ancestors * done;
      && (now != {} <==> before != {} || it in p[t].ancestors)
      && (before == {} ==> Totals(p, before) == Mod(0, 0))
      && Totals(p, now) == if it in p[t].ancestors then Plus(Totals(p, before), Weight(p[it])) else Totals(p, before)
  {
    var now, before := p[t].ancestors * (done + {it}), p[t].ancestors * done;
    if it in p[t].ancestors {
      assert now == before + {it};
      TotalsAdd(p, before, it);
      assert it in now;
    } else {
      assert now == before;
    }
  }

  // ---------------------------------------------------------------- the kept totals are right

  /** Kept totals never fall below what the entry still needs, and are exactly that for entries that
      never failed; entries with an ancestor in the block are kept unless they failed. */
  ghost predicate Tracked(p: Pool, b: set<Tx>, m: map<Tx, Mod>, failed: set<Tx>) {
    Indexed(p) && m.Keys <= p.Keys && forall t :: t in p ==> TrackedAt(p, b, m, failed, t)
  }

  ghost predicate TrackedAt(p: Pool, b: set<Tx>, m: map<Tx, Mod>, failed: set<Tx>, t: Tx)
    requires t in p
  {
    && p[t].ancestors <= p.Keys
    && (t in m ==> t !in b && AtLeast(m[t], Totals(p, Rest(p, b, t))))
    && (t in m && t !in failed ==> m[t] == Totals(p, Rest(p, b, t)))
    && (t !in b && t !in failed && p[t].ancestors * b != {} ==> t in m)
  }

  lemma TrackedStart(p: Pool, b: set<Tx>)
    requires Indexed(p) && Exact(p) && Closed(p, b)
    ensures Tracked(p, b, Updated(p, map[], b, b), {})
  {
    var m: map<Tx, Mod> := map[];
    assert Tracked(p, {}, m, {});
    assert {} + b == b && m - b == m;
    assert Closed(p, {});
    hide Updated, Tracked, Closed;
    TrackedAfter(p, {}, m, {}, b);
  }

  /** What is missing after adding a package: what was missing before, less the ancestors added. */
  lemma RestAfter(p: Pool, b: set<Tx>, added: set<Tx>, t: Tx)
    requires t in p && ExactAt(p, t) && added <= p.Keys && added !! b && t !in added
    ensures Totals(p, Rest(p, b + added, t)) == Minus(Totals(p, Rest(p, b, t)), Totals(p, p[t].ancestors * added))
    ensures p[t].ancestors * b == {} && t !in b ==> Totals(p, Rest(p, b, t)) == p[t].cached
    ensures AtLeast(p[t].cached, Totals(p, Rest(p, b, t)))
  {
    var part := p[t].ancestors * added;
    assert Rest(p, b + added, t) == Rest(p, b, t) - part;
    TotalsSplit(p, Rest(p, b, t), part);
    if p[t].ancestors * b == {} && t !in b {
      assert forall x :: x in p[t].ancestors && x in b ==> x in p[t].ancestors * b;
      assert Rest(p, b, t) == Package(p, t);
    }
    TotalsSplit(p, Package(p, t), Rest(p, b, t));
  }

  /** Adding a package and updating its descendants keeps the totals right. */
  lemma TrackedAfter(p: Pool, b: set<Tx>, m: map<Tx, Mod>, failed: set<Tx>, added: set<Tx>)
    requires Exact(p) && Closed(p, b) && Closed(p, b + added) && added !! b && Tracked(p, b, m, failed)
    ensures Tracked(p, b + added, Updated(p, m - added, added, added), failed)
  {
    var n := Updated(p, m - added, added, added);
    assert n.Keys <= p.Keys && added <= p.Keys;
    hide Updated, TrackedAt, Closed, ExactAt;
    forall t | t in p ensures TrackedAt(p, b + added, n, failed, t) {
      AfterAt(p, b, m, failed, added, t);
    }
  }

  lemma AfterAt(p: Pool, b: set<Tx>, m: map<Tx, Mod>, failed: set<Tx>, added: set<Tx>, t: Tx)
    requires Closed(p, b) && added <= p.Keys && added !! b && t in p && ExactAt(p, t) && TrackedAt(p, b, m, failed, t)
    ensures TrackedAt(p, b + added, Updated(p, m - added, added, added), failed, t)
  {
    var n := Updated(p, m - added, added, added);
    assert t in b ==> p[t].ancestors * added == {};
    if p[t].ancestors * added == {} {
      assert p[t].ancestors * (b + added) == p[t].ancestors * b + p[t].ancestors * added;
    }
    hide Updated, Totals, Rest, Closed, ExactAt;
    UpdatedAt(p, m - added, added, added, t);
    if t !in added { RestAfter(p, b, added, t); }
  }

  /** A failed entry is dropped and remembered. */
  lemma TrackedFail(p: Pool, b: set<Tx>, m: map<Tx, Mod>, failed: set<Tx>, t: Tx)
    requires Tracked(p, b, m, failed)
    ensures Tracked(p, b, m - {t}, failed + {t})
  {
    hide Totals, Rest;
  }
}
