/** What becomes of one slot of a compact block while known transactions are offered: the only known
    transaction with its id fills it, two different ones leave it empty. */
module Matches {

  import opened Basics
  import opened CompactBlock

  ghost predicate Ranged(m: map<ShortId, nat>, s: Scan) {
    |s.have| == |s.slots| && forall id :: id in m ==> m[id] < |s.slots|
  }

  predicate Untouched(s: Scan, k: nat) { k < |s.slots| && k < |s.have| && !s.have[k] && s.slots[k].None? }

  predicate HoldsOnly(s: Scan, k: nat, t: Tx) { k < |s.slots| && k < |s.have| && s.have[k] && s.slots[k] == Some(t) }

  predicate Emptied(s: Scan, k: nat) { k < |s.slots| && k < |s.have| && s.have[k] && s.slots[k].None? }

  /** No other id has the slot. */
  ghost predicate Alone(m: map<ShortId, nat>, id: ShortId) {
    id in m && forall other :: other in m && m[other] == m[id] ==> other == id
  }

  lemma LocatedAlone(a: Announcement, m: map<ShortId, nat>, id: ShortId)
    requires Located(a, m) && id in m
    ensures Alone(m, id)
  {
    forall other | other in m && m[other] == m[id] ensures other == id { LocatedOnce(a, m, other, id); }
  }

  // ---------------------------------------------------------------- one offer

  lemma OfferOther(m: map<ShortId, nat>, short: Tx -> ShortId, s: Scan, u: Tx, extra: bool, id: ShortId)
    requires Ranged(m, s) && Alone(m, id) && short(u) != id
    ensures var n := Offer(m, short, s, u, extra);
      Ranged(m, n) && n.have[m[id]] == s.have[m[id]] && n.slots[m[id]] == s.slots[m[id]]
  {
  }

  lemma OfferFirst(m: map<ShortId, nat>, short: Tx -> ShortId, s: Scan, t: Tx, extra: bool)
    requires Ranged(m, s) && short(t) in m && Untouched(s, m[short(t)])
    ensures var n := Offer(m, short, s, t, extra); Ranged(m, n) && HoldsOnly(n, m[short(t)], t)
  {
  }

  /** A second transaction empties the slot; an extra one that is the first again does not. */
  lemma OfferSecond(m: map<ShortId, nat>, short: Tx -> ShortId, s: Scan, t: Tx, u: Tx, extra: bool)
    requires Ranged(m, s) && short(u) in m && HoldsOnly(s, m[short(u)], t)
    ensures var n := Offer(m, short, s, u, extra);
      Ranged(m, n) && if extra && u == t then n == s else Emptied(n, m[short(u)])
  {
  }

  lemma OfferThird(m: map<ShortId, nat>, short: Tx -> ShortId, s: Scan, u: Tx, extra: bool, k: nat)
    requires Ranged(m, s) && Emptied(s, k)
    ensures var n := Offer(m, short, s, u, extra); Ranged(m, n) && Emptied(n, k)
  {
  }

  // ---------------------------------------------------------------- two different transactions

  lemma {:induction false} StaysEmptied(m: map<ShortId, nat>, short: Tx -> ShortId, s: Scan, offers: seq<Tx>, extra: bool, k: nat)
    requires Ranged(m, s) && Emptied(s, k)
    ensures Emptied(OfferAll(m, short, s, offers, extra), k)
    decreases |offers|
  {
    if offers != [] {
      hide Offer, Ranged, Emptied;
      OfferThird(m, short, s, offers[0], extra, k);
      StaysEmptied(m, short, Offer(m, short, s, offers[0], extra), offers[1..], extra, k);
    }
  }

  /** Emptied, unless every id was matched before the second one was looked at. */
  ghost predicate EmptiedOrFull(m: map<ShortId, nat>, s: Scan, k: nat) { Emptied(s, k) || s.count == |m| }

  lemma {:induction false} SecondEmpties(m: map<ShortId, nat>, short: Tx -> ShortId, s: Scan, offers: seq<Tx>, extra: bool, t: Tx, i: nat)
    requires i < |offers| && Ranged(m, s) && Alone(m, short(offers[i])) && HoldsOnly(s, m[short(offers[i])], t) && offers[i] != t
    ensures EmptiedOrFull(m, OfferAll(m, short, s, offers, extra), m[short(offers[i])])
    decreases |offers|
  {
    var id, o := short(offers[i]), offers[0];
    var n := Offer(m, short, s, o, extra);
    if short(o) == id { OfferSecond(m, short, s, t, o, extra); } else { OfferOther(m, short, s, o, extra, id); }
    if n.count != |m| {
      hide Offer, Ranged, Alone, EmptiedOrFull;
      if Emptied(n, m[id]) {
        StaysEmptied(m, short, n, offers[1..], extra, m[id]);
        EmptiedIs(m, OfferAll(m, short, n, offers[1..], extra), m[id]);
      } else {
        SecondEmpties(m, short, n, offers[1..], extra, t, i - 1);
      }
    }
  }

  lemma EmptiedIs(m: map<ShortId, nat>, s: Scan, k: nat)
    requires Emptied(s, k)
    ensures EmptiedOrFull(m, s, k)
  {
  }

  lemma {:induction false} ClashEmpties(m: map<ShortId, nat>, short: Tx -> ShortId, s: Scan, offers: seq<Tx>, extra: bool, i: nat, j: nat)
    requires i < j < |offers| && Ranged(m, s) && short(offers[i]) == short(offers[j]) && offers[i] != offers[j]
    requires Alone(m, short(offers[i])) && Untouched(s, m[short(offers[i])])
    ensures EmptiedOrFull(m, OfferAll(m, short, s, offers, extra), m[short(offers[i])])
    decreases |offers|
  {
    var id, o := short(offers[i]), offers[0];
    var n := Offer(m, short, s, o, extra);
    if short(o) == id { OfferFirst(m, short, s, o, extra); } else { OfferOther(m, short, s, o, extra, id); }
    if n.count != |m| {
      hide Offer, Ranged, Alone, EmptiedOrFull;
      if short(o) == id {
        var other := if offers[j] != o then j else i;
        SecondEmpties(m, short, n, offers[1..], extra, o, other - 1);
      } else {
        ClashEmpties(m, short, n, offers[1..], extra, i - 1, j - 1);
      }
    }
  }

  // ---------------------------------------------------------------- the only one with its id

  /** The offers with the id are all t; the pool offers it once at most. */
  ghost predicate OnlyOne(short: Tx -> ShortId, offers: seq<Tx>, t: Tx, extra: bool) {
    && (forall i :: 0 <= i < |offers| && short(offers[i]) == short(t) ==> offers[i] == t)
    && (!extra ==> forall i, j :: 0 <= i < j < |offers| && offers[i] == t ==> offers[j] != t)
  }

  lemma OnlyOneRest(short: Tx -> ShortId, offers: seq<Tx>, t: Tx, extra: bool)
    requires offers != [] && OnlyOne(short, offers, t, extra)
    ensures OnlyOne(short, offers[1..], t, extra) && (!extra && offers[0] == t ==> t !in offers[1..])
  {
    var rest := offers[1..];
    assert forall i :: 0 <= i < |rest| ==> rest[i] == offers[i + 1];
  }

  lemma {:induction false} AllFilled(slots: Slots, k: nat)
    requires Count(slots) == |slots| && k < |slots|
    ensures slots[k].Some?
  {
    if k < |slots| - 1 { AllFilled(slots[..|slots| - 1], k); }
  }

  lemma {:induction false} DistinctSize(ids: seq<ShortId>, s: set<ShortId>)
    requires Distinct(ids) && s == set id | id in ids
    ensures |s| == |ids|
  {
    if ids != [] {
      var last := |ids| - 1;
      var rest := ids[..last];
      assert ids == rest + [ids[last]];
      assert s - {ids[last]} == set id | id in rest;
      DistinctSize(rest, s - {ids[last]});
    } else {
      assert s == {};
    }
  }

  lemma LocatedSize(a: Announcement, m: map<ShortId, nat>)
    requires Located(a, m)
    ensures |m| == |a.ids| && |a.ids| + Count(Start(a)) == TxCount(a)
  {
    var free := Free(Start(a));
    forall i, j | 0 <= i < j < |a.ids| ensures a.ids[i] != a.ids[j] { assert free[i] < free[j]; }
    assert m.Keys == set id | id in a.ids;
    DistinctSize(a.ids, m.Keys);
  }

  /** The count tells when all slots are filled. */
  lemma FullCount(a: Announcement, m: map<ShortId, nat>, short: Tx -> ShortId, known: set<Tx>, s: Scan, k: nat)
    requires Located(a, m) && Scanned(a, m, short, known, s) && s.count == |m| && k < TxCount(a)
    ensures s.slots[k].Some?
  {
    LocatedSize(a, m);
    hide Located, Count, Start;
    AllFilled(s.slots, k);
  }

  lemma ScannedRanged(a: Announcement, m: map<ShortId, nat>, short: Tx -> ShortId, known: set<Tx>, s: Scan)
    requires Located(a, m) && Scanned(a, m, short, known, s)
    ensures Ranged(m, s) && |s.slots| == TxCount(a)
  {
    InRange(a, m);
  }

  /** The slot of the only transaction with its id: t once it was offered, and untouched before. */
  predicate Stands(s: Scan, k: nat, t: Tx, offered: bool) {
    if offered then HoldsOnly(s, k, t) else Untouched(s, k)
  }

  lemma StandsNext(m: map<ShortId, nat>, short: Tx -> ShortId, s: Scan, o: Tx, extra: bool, t: Tx, offered: bool)
    requires Ranged(m, s) && Alone(m, short(t)) && Stands(s, m[short(t)], t, offered)
    requires (short(o) == short(t) ==> o == t) && (!extra && offered ==> o != t)
    ensures var n := Offer(m, short, s, o, extra); Ranged(m, n) && Stands(n, m[short(t)], t, offered || o == t)
  {
    hide Offer;
    if short(o) != short(t) {
      OfferOther(m, short, s, o, extra, short(t));
    } else if offered {
      OfferSecond(m, short, s, t, o, extra);
    } else {
      OfferFirst(m, short, s, o, extra);
    }
  }

  lemma {:induction false} OnlyOneFills(a: Announcement, m: map<ShortId, nat>, short: Tx -> ShortId, known: set<Tx>, s: Scan,
      offers: seq<Tx>, extra: bool, t: Tx, offered: bool)
    requires Located(a, m) && Scanned(a, m, short, known, s) && short(t) in m && forall u :: u in offers ==> u in known
    requires OnlyOne(short, offers, t, extra) && Stands(s, m[short(t)], t, offered) && (!extra && offered ==> t !in offers)
    ensures Ranged(m, s) && Stands(OfferAll(m, short, s, offers, extra), m[short(t)], t, offered || t in offers)
    decreases |offers|
  {
    LocatedAlone(a, m, short(t));
    ScannedRanged(a, m, short, known, s);
    if offers != [] {
      var o := offers[0];
      var n := Offer(m, short, s, o, extra);
      OfferKeeps(a, m, short, known, s, o, extra);
      StandsNext(m, short, s, o, extra, t, offered);
      OnlyOneRest(short, offers, t, extra);
      hide Located, Offer, OnlyOne, Alone;
      if n.count == |m| {
        ScannedRanged(a, m, short, known, n);
        FullCount(a, m, short, known, n, m[short(t)]);
      } else {
        hide Scanned, Stands;
        OnlyOneFills(a, m, short, known, n, offers[1..], extra, t, offered || o == t);
      }
    }
  }

  // ---------------------------------------------------------------- the slots of an announcement

  lemma StartUntouched(a: Announcement, m: map<ShortId, nat>, short: Tx -> ShortId, known: set<Tx>, j: nat)
    requires Located(a, m) && j < |a.ids|
    ensures a.ids[j] in m && m[a.ids[j]] == Free(Start(a))[j] && Untouched(Unmatched(a), m[a.ids[j]])
    ensures Scanned(a, m, short, known, Unmatched(a)) && Ranged(m, Unmatched(a)) && Alone(m, a.ids[j])
  {
    ScanStart(a, m, short, known);
    ScannedRanged(a, m, short, known, Unmatched(a));
    LocatedAlone(a, m, a.ids[j]);
  }

  /** The only transaction the node knows with an announced id, in the pool once at most, fills the slot
      of the id. */
  lemma KnownFills(a: Announcement, m: map<ShortId, nat>, short: Tx -> ShortId, pool: seq<Tx>, extra: seq<Tx>, j: nat, t: Tx)
    requires Placeable(a) && Recorded(a, m) && TxCount(a) <= PLACES && j < |a.ids| && short(t) == a.ids[j]
    requires (t in pool || t in extra) && OnlyOne(short, pool, t, false) && OnlyOne(short, extra, t, true)
    ensures j < |Free(Start(a))| && Matching(a, m, short, pool, extra).slots[Free(Start(a))[j]] == Some(t)
  {
    RecordedLocated(a, m);
    var known := Known(pool, extra);
    StartUntouched(a, m, short, known, j);
    hide Located, Scanned, OfferAll, Recorded, OnlyOne, Start, Unmatched;
    OfferAllKeeps(a, m, short, known, Unmatched(a), pool, false);
    OnlyOneFills(a, m, short, known, Unmatched(a), pool, false, t, false);
    var s := OfferAll(m, short, Unmatched(a), pool, false);
    OnlyOneFills(a, m, short, known, s, extra, true, t, t in pool);
  }

  /** Two different transactions of the pool with an announced id leave the slot of the id empty, unless the
      pool filled all slots before the second was looked at. */
  lemma ClashLeavesEmpty(a: Announcement, m: map<ShortId, nat>, short: Tx -> ShortId, pool: seq<Tx>, extra: seq<Tx>, j: nat, i: nat, k: nat)
    requires Placeable(a) && Recorded(a, m) && TxCount(a) <= PLACES && j < |a.ids|
    requires i < k < |pool| && short(pool[i]) == short(pool[k]) == a.ids[j] && pool[i] != pool[k]
    ensures j < |Free(Start(a))|
    ensures Matching(a, m, short, pool, extra).slots[Free(Start(a))[j]].None? || Matching(a, m, short, pool, []).count == |m|
  {
    RecordedLocated(a, m);
    StartUntouched(a, m, short, {}, j);
    hide Located, Scanned, Recorded, Start, Unmatched, Alone;
    ClashEmpties(m, short, Unmatched(a), pool, false, i, k);
    var s := OfferAll(m, short, Unmatched(a), pool, false);
    if Emptied(s, m[a.ids[j]]) { StaysEmptied(m, short, s, extra, true, m[a.ids[j]]); }
  }

  /** So does an extra transaction that differs from the only one of the pool with its id. */
  lemma ExtraLeavesEmpty(a: Announcement, m: map<ShortId, nat>, short: Tx -> ShortId, pool: seq<Tx>, extra: seq<Tx>, j: nat, t: Tx, i: nat)
    requires Placeable(a) && Recorded(a, m) && TxCount(a) <= PLACES && j < |a.ids| && short(t) == a.ids[j]
    requires t in pool && OnlyOne(short, pool, t, false) && i < |extra| && short(extra[i]) == short(t) && extra[i] != t
    ensures j < |Free(Start(a))|
    ensures var s := Matching(a, m, short, pool, extra); s.slots[Free(Start(a))[j]].None? || s.count == |m|
  {
    RecordedLocated(a, m);
    var known := Known(pool, extra);
    StartUntouched(a, m, short, known, j);
    hide Located, Scanned, OfferAll, Recorded, OnlyOne, Start, Unmatched;
    OfferAllKeeps(a, m, short, known, Unmatched(a), pool, false);
    OnlyOneFills(a, m, short, known, Unmatched(a), pool, false, t, false);
    var s := OfferAll(m, short, Unmatched(a), pool, false);
    ScannedRanged(a, m, short, known, s);
    SecondEmpties(m, short, s, extra, true, t, i);
  }

  /** The slots of a described block when the node knows some of its transactions, none ambiguous: the slot of
      a known one is filled with it, so that only unknown ones are missing. */
  lemma KnownInPlace(a: Announcement, m: map<ShortId, nat>, short: Tx -> ShortId, pool: seq<Tx>, extra: seq<Tx>, b: seq<Tx>, k: nat)
    requires Placeable(a) && Recorded(a, m) && TxCount(a) <= PLACES && Describes(a, short, b) && k < |b|
    requires Distinct(pool) && Unambiguous(short, Known(pool, extra), b) && (b[k] in pool || b[k] in extra)
    ensures Matching(a, m, short, pool, extra).slots[k] == Some(b[k])
  {
    var t := b[k];
    if Start(a)[k].Some? {
      MatchingReady(a, m, short, pool, extra);
    } else {
      FreeComplete(Start(a), k);
      var j :| 0 <= j < |Free(Start(a))| && Free(Start(a))[j] == k;
      assert OnlyOne(short, pool, t, false) && OnlyOne(short, extra, t, true);
      KnownFills(a, m, short, pool, extra, j, t);
    }
  }
}
