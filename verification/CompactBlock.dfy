/** Compact blocks: a block announced by short transaction ids, rebuilt from the transactions a node
    already has (BIP 152). */
module CompactBlock {

  import opened Basics

  datatype Tx = Tx(hash: int)

  datatype ShortId = ShortId(word: int)

  type Slots = seq<Option<Tx>>

  /** A transaction sent along; its index counts from the one after the previous. */
  datatype Prefilled = Prefilled(index: nat, tx: Option<Tx>)

  /** The announcement; short is the keyed hash its header and nonce select. */
  datatype Announcement = Announcement(headerNull: bool, ids: seq<ShortId>, prefilled: seq<Prefilled>)

  datatype Status = OK | INVALID | FAILED | CHECKBLOCK_FAILED

  const MAX_INDEX: nat := 65535

  /** The places a 16-bit number can tell apart. */
  const PLACES: nat := 65536

  function TxCount(a: Announcement): nat { |a.ids| + |a.prefilled| }

  /** The place of the last of the first i prefilled transactions. */
  function LastIndex(p: seq<Prefilled>, i: nat): (r: int)
    requires i <= |p|
    ensures r >= i - 1
  {
    if i == 0 then -1 else LastIndex(p, i - 1) + p[i - 1].index + 1
  }

  lemma {:induction false} IndexesIncrease(p: seq<Prefilled>, i: nat, j: nat)
    requires i < j <= |p|
    ensures LastIndex(p, i) < LastIndex(p, j)
  {
    if i < j - 1 { IndexesIncrease(p, i, j - 1); }
  }

  /** The prefilled transactions are all there and at places the ids can be spread around. */
  predicate Placeable(a: Announcement) {
    forall i :: 0 <= i < |a.prefilled| ==> PlaceableAt(a, i)
  }

  predicate PlaceableAt(a: Announcement, i: nat)
    requires i < |a.prefilled|
  {
    && a.prefilled[i].tx.Some? && LastIndex(a.prefilled, i + 1) <= MAX_INDEX
    && LastIndex(a.prefilled, i + 1) <= |a.ids| + i
  }

  /** Filled slots. */
  function Count(slots: Slots): (r: nat)
    ensures r <= |slots|
  {
    if slots == [] then 0
    else Count(slots[..|slots| - 1]) + if slots[|slots| - 1].Some? then 1 else 0
  }

  lemma {:induction false} CountNone(slots: Slots)
    requires forall k :: 0 <= k < |slots| ==> slots[k].None?
    ensures Count(slots) == 0
  {
    if slots != [] { CountNone(slots[..|slots| - 1]); }
  }

  /** Filling or emptying one slot changes the count by one. */
  lemma {:induction false} CountSet(slots: Slots, k: nat, o: Option<Tx>)
    requires k < |slots|
    ensures Count(slots[k := o]) == Count(slots) + (if o.Some? then 1 else 0) - (if slots[k].Some? then 1 else 0)
  {
    var last := |slots| - 1;
    if k == last {
      assert slots[k := o][..last] == slots[..last];
    } else {
      assert slots[k := o][..last] == slots[..last][k := o];
      CountSet(slots[..last], k, o);
    }
  }

  lemma {:induction false} CountSplit(slots: Slots, k: nat)
    requires k <= |slots|
    ensures Count(slots[..k]) <= Count(slots) && Count(slots) - Count(slots[..k]) <= |slots| - k
  {
    if k == |slots| {
      assert slots[..k] == slots;
    } else {
      var last := |slots| - 1;
      assert slots[..last][..k] == slots[..k];
      CountSplit(slots[..last], k);
    }
  }

  lemma CountNext(slots: Slots, k: nat)
    requires k < |slots|
    ensures Count(slots[..k + 1]) == Count(slots[..k]) + if slots[k].Some? then 1 else 0
  {
    assert slots[..k + 1][..k] == slots[..k];
  }

  // ---------------------------------------------------------------- where everything goes

  /** The slots once the first i prefilled transactions are in place. */
  function Prefill(a: Announcement, i: nat): (slots: Slots)
    requires i <= |a.prefilled|
    ensures |slots| == TxCount(a)
  {
    if i == 0 then seq(TxCount(a), _ => None)
    else
      var k := LastIndex(a.prefilled, i);
      if 0 <= k < TxCount(a) then Prefill(a, i - 1)[k := a.prefilled[i - 1].tx] else Prefill(a, i - 1)
  }

  function Start(a: Announcement): (slots: Slots)
    ensures |slots| == TxCount(a)
  {
    Prefill(a, |a.prefilled|)
  }

  predicate InPlace(a: Announcement, slots: Slots, j: nat)
    requires j < |a.prefilled|
  {
    0 <= LastIndex(a.prefilled, j + 1) < |slots| && slots[LastIndex(a.prefilled, j + 1)] == a.prefilled[j].tx
  }

  /** The first i prefilled transactions are where their indexes say, and there is nothing else. */
  predicate Placed(a: Announcement, slots: Slots, i: nat) {
    && i <= |a.prefilled| && |slots| == TxCount(a) && LastIndex(a.prefilled, i) < TxCount(a) && Count(slots) == i
    && (forall j :: 0 <= j < i ==> InPlace(a, slots, j))
    && forall k :: LastIndex(a.prefilled, i) < k < |slots| ==> slots[k].None?
  }

  lemma PlaceStep(a: Announcement, slots: Slots, i: nat)
    requires Placed(a, slots, i) && i < |a.prefilled| && PlaceableAt(a, i)
    ensures 0 <= LastIndex(a.prefilled, i + 1) < |slots|
    ensures Placed(a, slots[LastIndex(a.prefilled, i + 1) := a.prefilled[i].tx], i + 1)
  {
    var k := LastIndex(a.prefilled, i + 1);
    var n := slots[k := a.prefilled[i].tx];
    CountSet(slots, k, a.prefilled[i].tx);
    hide Count;
    forall j | 0 <= j < i + 1 ensures InPlace(a, n, j) {
      if j < i {
        IndexesIncrease(a.prefilled, j + 1, i + 1);
        assert InPlace(a, slots, j);
      }
    }
  }

  lemma {:induction false} PrefillIs(a: Announcement, i: nat)
    requires Placeable(a) && i <= |a.prefilled|
    ensures Placed(a, Prefill(a, i), i)
  {
    if i == 0 {
      CountNone(Prefill(a, 0));
    } else {
      hide Placed;
      PrefillIs(a, i - 1);
      assert PlaceableAt(a, i - 1);
      PlaceStep(a, Prefill(a, i - 1), i - 1);
    }
  }

  /** The free slots, in order. */
  function Free(slots: Slots): (f: seq<nat>)
    ensures |f| == |slots| - Count(slots)
    ensures forall i :: 0 <= i < |f| ==> f[i] < |slots| && slots[f[i]].None?
    ensures forall i, j :: 0 <= i < j < |f| ==> f[i] < f[j]
  {
    if slots == [] then []
    else
      var last := |slots| - 1;
      if slots[last].None? then Free(slots[..last]) + [last] else Free(slots[..last])
  }

  lemma {:induction false} FreeComplete(slots: Slots, k: nat)
    requires k < |slots| && slots[k].None?
    ensures exists i :: 0 <= i < |Free(slots)| && Free(slots)[i] == k
  {
    var last := |slots| - 1;
    if k < last {
      FreeComplete(slots[..last], k);
      var i :| 0 <= i < |Free(slots[..last])| && Free(slots[..last])[i] == k;
      assert Free(slots)[i] == k;
    } else {
      assert Free(slots)[|Free(slots)| - 1] == k;
    }
  }

  lemma {:induction false} FreePrefix(slots: Slots, k: nat)
    requires k <= |slots|
    ensures Free(slots[..k]) <= Free(slots)
  {
    if k == |slots| {
      assert slots[..k] == slots;
    } else {
      var last := |slots| - 1;
      assert slots[..last][..k] == slots[..k];
      FreePrefix(slots[..last], k);
    }
  }

  /** With i free slots passed, the next free one is the place of id number i. */
  lemma FreeNext(slots: Slots, i: nat, k: nat)
    requires k < |slots| && slots[k].None? && k - Count(slots[..k]) == i
    ensures i < |Free(slots)| && Free(slots)[i] == k
  {
    assert slots[..k + 1][..k] == slots[..k];
    FreePrefix(slots, k + 1);
    assert Free(slots[..k + 1])[i] == k;
  }

  /** Every id has its own place. */
  predicate Located(a: Announcement, m: map<ShortId, nat>) {
    && |Free(Start(a))| == |a.ids|
    && (forall j :: 0 <= j < |a.ids| ==> a.ids[j] in m && m[a.ids[j]] == Free(Start(a))[j])
    && forall id :: id in m ==> id in a.ids
  }

  lemma LocatedAt(a: Announcement, m: map<ShortId, nat>, id: ShortId) returns (j: nat)
    requires Located(a, m) && id in m
    ensures j < |a.ids| && a.ids[j] == id && m[id] == Free(Start(a))[j] < TxCount(a) && Start(a)[m[id]].None?
  {
    j :| 0 <= j < |a.ids| && a.ids[j] == id;
  }

  lemma LocatedOnce(a: Announcement, m: map<ShortId, nat>, x: ShortId, y: ShortId)
    requires Located(a, m) && x in m && y in m && m[x] == m[y]
    ensures x == y
  {
    var i := LocatedAt(a, m, x);
    var j := LocatedAt(a, m, y);
  }

  // ---------------------------------------------------------------- places in 16 bits

  /** The places of the ids as 16-bit numbers. */
  function Places(a: Announcement): (r: seq<nat>)
    ensures |r| == |Free(Start(a))|
  {
    var free := Free(Start(a));
    seq(|free|, j requires 0 <= j < |free| => free[j] % PLACES)
  }

  /** Every id with its place in 16 bits: what is kept of an announcement. */
  predicate Recorded(a: Announcement, m: map<ShortId, nat>) {
    && |Places(a)| == |a.ids|
    && (forall j :: 0 <= j < |a.ids| ==> a.ids[j] in m && m[a.ids[j]] == Places(a)[j])
    && forall id :: id in m ==> id in a.ids
  }

  /** Distinct ids have their record. */
  lemma Record(a: Announcement) returns (m: map<ShortId, nat>)
    requires |Places(a)| == |a.ids| && Distinct(a.ids)
    ensures Recorded(a, m)
  {
    m := map j | 0 <= j < |a.ids| :: a.ids[j] := Places(a)[j];
  }

  lemma RecordedInRange(a: Announcement, m: map<ShortId, nat>)
    requires Recorded(a, m)
    ensures forall id :: id in m ==> m[id] < TxCount(a)
  {
    hide Start, Places;
    forall id | id in m ensures m[id] < TxCount(a) {
      var j :| 0 <= j < |a.ids| && a.ids[j] == id;
      PlaceLow(a, j);
    }
  }

  lemma PlaceLow(a: Announcement, j: nat)
    requires j < |Places(a)|
    ensures Places(a)[j] < TxCount(a)
  {
    assert Places(a)[j] <= Free(Start(a))[j];
  }

  lemma RecordedLocated(a: Announcement, m: map<ShortId, nat>)
    requires TxCount(a) <= PLACES
    ensures Recorded(a, m) <==> Located(a, m)
  {
    assert Places(a) == Free(Start(a));
  }

  /** No prefilled transaction lies beyond the 16-bit places. */
  lemma NotPrefilled(a: Announcement, k: nat)
    requires Placeable(a) && MAX_INDEX < k < TxCount(a)
    ensures Start(a)[k].None?
  {
    PrefillIs(a, |a.prefilled|);
    if a.prefilled != [] { assert PlaceableAt(a, |a.prefilled| - 1); }
  }

  /** The ids keep their places in 16 bits if and only if there are at most 65536 transactions. */
  lemma PlacesKeptIff(a: Announcement)
    requires Placeable(a)
    ensures Places(a) == Free(Start(a)) <==> TxCount(a) <= PLACES
  {
    if TxCount(a) > PLACES {
      var k := TxCount(a) - 1;
      NotPrefilled(a, k);
      FreeComplete(Start(a), k);
      var j :| 0 <= j < |Free(Start(a))| && Free(Start(a))[j] == k;
      assert Places(a)[j] < PLACES <= k;
    } else {
      assert Places(a) == Free(Start(a));
    }
  }

  // ---------------------------------------------------------------- the walk to a free slot

  /** The slot looked at after n steps of a 16-bit offset. */
  function Walked(i: nat, offset: nat, n: nat): nat { i + (offset + n) % PLACES }

  predicate StopsAfter(slots: Slots, i: nat, offset: nat, n: nat) {
    && Walked(i, offset, n) < |slots| && slots[Walked(i, offset, n)].None?
    && forall m :: 0 <= m < n ==> Walked(i, offset, m) < |slots| && slots[Walked(i, offset, m)].Some?
  }

  ghost predicate WalkEnds(slots: Slots, i: nat, offset: nat) {
    exists n: nat :: StopsAfter(slots, i, offset, n)
  }

  /** With 65536 prefilled transactions in place, they have the first places all to themselves. */
  lemma {:induction false} Crowded(p: seq<Prefilled>, j: nat, n: nat)
    requires j < n <= |p| && LastIndex(p, n) < n
    ensures LastIndex(p, j + 1) == j
    decreases n - j
  {
    if j + 1 < n { Crowded(p, j, n - 1); }
  }

  lemma CrowdedFull(a: Announcement, k: nat)
    requires Placeable(a) && |a.prefilled| > MAX_INDEX && k < PLACES
    ensures k < TxCount(a) && Start(a)[k].Some?
  {
    assert PlaceableAt(a, MAX_INDEX) && PlaceableAt(a, k);
    Crowded(a.prefilled, k, PLACES);
    PrefillIs(a, |a.prefilled|);
    assert InPlace(a, Start(a), k);
  }

  lemma {:induction false} FilledBefore(slots: Slots, k: nat)
    requires k <= |slots| && forall m :: 0 <= m < k ==> slots[m].Some?
    ensures Count(slots[..k]) == k
  {
    if k > 0 {
      FilledBefore(slots, k - 1);
      CountNext(slots, k - 1);
    }
  }

  /** Every slot before the first free one is filled, so that it comes no later than their number. */
  lemma FirstFree(slots: Slots)
    requires |Free(slots)| > 0
    ensures var k := Free(slots)[0]; k <= Count(slots) && forall m :: 0 <= m < k ==> slots[m].Some?
  {
    var k := Free(slots)[0];
    forall m | 0 <= m < k ensures slots[m].Some? {
      if slots[m].None? { FreeComplete(slots, m); }
    }
    FilledBefore(slots, k);
    CountSplit(slots, k);
  }

  lemma StopsAtFirst(slots: Slots)
    requires |Free(slots)| > 0 && Count(slots) <= MAX_INDEX
    ensures WalkEnds(slots, 0, 0)
  {
    FirstFree(slots);
    var k := Free(slots)[0];
    hide Count, Free, Walked;
    forall m | 0 <= m <= k ensures Walked(0, 0, m) == m { WalkedSmall(m); }
    assert StopsAfter(slots, 0, 0, k);
  }

  lemma WalkedSmall(n: nat)
    requires n < PLACES
    ensures Walked(0, 0, n) == n
  {
  }

  /** All 16-bit places are prefilled and an id follows. */
  predicate Endless(a: Announcement) {
    Placeable(a) && a.ids != [] && |a.prefilled| > MAX_INDEX
  }

  /** The walk from the first id ends if and only if fewer than 65536 transactions are prefilled;
      otherwise the offset starts again among filled slots, for ever. */
  lemma WalkEndsIff(a: Announcement)
    requires Placeable(a) && a.ids != []
    ensures WalkEnds(Start(a), 0, 0) <==> !Endless(a)
  {
    if |a.prefilled| <= MAX_INDEX {
      PrefillIs(a, |a.prefilled|);
      hide Free, Placeable, Start;
      StopsAtFirst(Start(a));
    } else {
      hide Placeable, Start;
      forall n: nat ensures !StopsAfter(Start(a), 0, 0, n) {
        CrowdedFull(a, Walked(0, 0, n));
      }
    }
  }

  // ---------------------------------------------------------------- matching known transactions

  /** The slots while known transactions are offered: which ids were matched, and how many slots the
      offers fill. */
  datatype Scan = Scan(slots: Slots, have: seq<bool>, count: int)

  /** One transaction offered for its short id. A second match empties the slot again; an extra one
      only if it differs from the first. */
  function Offer(m: map<ShortId, nat>, short: Tx -> ShortId, s: Scan, t: Tx, extra: bool): Scan
    requires |s.have| == |s.slots| && forall id :: id in m ==> m[id] < |s.slots|
  {
    var id := short(t);
    if id !in m then s
    else
      var k := m[id];
      if !s.have[k] then Scan(s.slots[k := Some(t)], s.have[k := true], s.count + 1)
      else if s.slots[k].Some? && (!extra || s.slots[k].value.hash != t.hash)
      then Scan(s.slots[k := None], s.have, s.count - 1)
      else s
  }

  /** Prefilled slots are untouched, a matched slot holds a known transaction with the announced id,
      and the count is the number of matched slots that are filled. */
  ghost predicate Scanned(a: Announcement, m: map<ShortId, nat>, short: Tx -> ShortId, known: set<Tx>, s: Scan) {
    && |s.slots| == |s.have| == TxCount(a) && s.count == Count(s.slots) - Count(Start(a))
    && (forall k :: 0 <= k < TxCount(a) && Start(a)[k].Some? ==> s.slots[k] == Start(a)[k])
    && forall id :: id in m && m[id] < TxCount(a) ==> Matched(short, known, s, id, m[id])
  }

  ghost predicate Matched(short: Tx -> ShortId, known: set<Tx>, s: Scan, id: ShortId, k: nat)
    requires k < |s.slots| == |s.have|
  {
    && (!s.have[k] ==> s.slots[k].None?)
    && (s.slots[k].Some? ==> short(s.slots[k].value) == id && s.slots[k].value in known)
  }

  lemma InRange(a: Announcement, m: map<ShortId, nat>)
    requires Located(a, m)
    ensures forall id :: id in m ==> m[id] < TxCount(a)
  {
    forall id | id in m ensures m[id] < TxCount(a) {
      var j := LocatedAt(a, m, id);
    }
  }

  lemma ScanStart(a: Announcement, m: map<ShortId, nat>, short: Tx -> ShortId, known: set<Tx>)
    requires Located(a, m)
    ensures Scanned(a, m, short, known, Scan(Start(a), seq(TxCount(a), _ => false), 0))
  {
    var s := Scan(Start(a), seq(TxCount(a), _ => false), 0);
    forall id | id in m && m[id] < TxCount(a) ensures Matched(short, known, s, id, m[id]) {
      var j := LocatedAt(a, m, id);
    }
  }

  /** An offer touches no slot but the one its id belongs to. */
  lemma OfferAt(m: map<ShortId, nat>, short: Tx -> ShortId, known: set<Tx>, s: Scan, t: Tx, extra: bool, other: ShortId)
    requires |s.have| == |s.slots| && (forall id :: id in m ==> m[id] < |s.slots|) && t in known
    requires other in m && Matched(short, known, s, other, m[other])
    requires short(t) in m && m[short(t)] == m[other] ==> short(t) == other
    ensures var n := Offer(m, short, s, t, extra);
      |n.have| == |n.slots| == |s.slots| && Matched(short, known, n, other, m[other])
  {
  }

  lemma OfferCount(m: map<ShortId, nat>, short: Tx -> ShortId, s: Scan, t: Tx, extra: bool)
    requires |s.have| == |s.slots| && (forall id :: id in m ==> m[id] < |s.slots|)
    requires short(t) in m && !s.have[m[short(t)]] ==> s.slots[m[short(t)]].None?
    ensures var n := Offer(m, short, s, t, extra);
      |n.have| == |n.slots| == |s.slots| && n.count - s.count == Count(n.slots) - Count(s.slots)
    ensures forall k :: 0 <= k < |s.slots| && !(short(t) in m && m[short(t)] == k) ==> Offer(m, short, s, t, extra).slots[k] == s.slots[k]
  {
    if short(t) in m {
      CountSet(s.slots, m[short(t)], Some(t));
      CountSet(s.slots, m[short(t)], None);
    }
  }

  lemma OfferKeeps(a: Announcement, m: map<ShortId, nat>, short: Tx -> ShortId, known: set<Tx>, s: Scan, t: Tx, extra: bool)
    requires Located(a, m) && Scanned(a, m, short, known, s) && t in known
    ensures (forall id :: id in m ==> m[id] < |s.slots|) && Scanned(a, m, short, known, Offer(m, short, s, t, extra))
  {
    InRange(a, m);
    var n, id := Offer(m, short, s, t, extra), short(t);
    if id in m {
      assert Matched(short, known, s, id, m[id]);
      var j := LocatedAt(a, m, id);
    }
    hide Count, Located, Start, Offer;
    OfferCount(m, short, s, t, extra);
    forall other | other in m && m[other] < TxCount(a) ensures Matched(short, known, n, other, m[other]) {
      if id in m && m[other] == m[id] { LocatedOnce(a, m, other, id); }
      OfferAt(m, short, known, s, t, extra, other);
    }
  }

  /** What InitData leaves: prefilled slots as announced, every other filled slot with a known
      transaction of the id announced for it, and the exact number of those. */
  ghost predicate Ready(a: Announcement, short: Tx -> ShortId, known: set<Tx>, slots: Slots, count: int) {
    && Placeable(a) && |slots| == TxCount(a) && |Free(Start(a))| == |a.ids| && count == Count(slots) - |a.prefilled|
    && (forall j :: 0 <= j < |a.prefilled| ==> InPlace(a, slots, j))
    && (forall k :: 0 <= k < |slots| && Start(a)[k].Some? ==> slots[k] == Start(a)[k])
    && forall j :: 0 <= j < |a.ids| ==> AsAnnounced(a, short, known, slots, j)
  }

  ghost predicate AsAnnounced(a: Announcement, short: Tx -> ShortId, known: set<Tx>, slots: Slots, j: nat)
    requires j < |a.ids| == |Free(Start(a))| && |slots| == TxCount(a)
  {
    var o := slots[Free(Start(a))[j]];
    o.Some? ==> short(o.value) == a.ids[j] && o.value in known
  }

  lemma ScanReady(a: Announcement, m: map<ShortId, nat>, short: Tx -> ShortId, known: set<Tx>, s: Scan)
    requires Placeable(a) && Located(a, m) && Scanned(a, m, short, known, s)
    ensures Ready(a, short, known, s.slots, s.count)
  {
    PrefillIs(a, |a.prefilled|);
    forall j | 0 <= j < |a.prefilled| ensures InPlace(a, s.slots, j) {
      assert InPlace(a, Start(a), j) && PlaceableAt(a, j);
    }
    forall j | 0 <= j < |a.ids| ensures AsAnnounced(a, short, known, s.slots, j) {
      assert Matched(short, known, s, a.ids[j], m[a.ids[j]]);
    }
  }

  /** Transactions offered one by one, until the count says that every id is matched. */
  function OfferAll(m: map<ShortId, nat>, short: Tx -> ShortId, s: Scan, offers: seq<Tx>, extra: bool): (n: Scan)
    requires |s.have| == |s.slots| && forall id :: id in m ==> m[id] < |s.slots|
    ensures |n.have| == |n.slots| == |s.slots|
    decreases |offers|
  {
    if offers == [] then s
    else
      var n := Offer(m, short, s, offers[0], extra);
      if n.count == |m| then n else OfferAll(m, short, n, offers[1..], extra)
  }

  lemma {:induction false} OfferAllKeeps(a: Announcement, m: map<ShortId, nat>, short: Tx -> ShortId, known: set<Tx>, s: Scan, offers: seq<Tx>, extra: bool)
    requires Located(a, m) && Scanned(a, m, short, known, s) && forall t :: t in offers ==> t in known
    ensures |s.have| == |s.slots| && (forall id :: id in m ==> m[id] < |s.slots|)
    ensures Scanned(a, m, short, known, OfferAll(m, short, s, offers, extra))
    decreases |offers|
  {
    InRange(a, m);
    if offers != [] {
      hide Located, Offer;
      OfferKeeps(a, m, short, known, s, offers[0], extra);
      OfferAllKeeps(a, m, short, known, Offer(m, short, s, offers[0], extra), offers[1..], extra);
    }
  }

  /** The slots before anything is offered. */
  function Unmatched(a: Announcement): (s: Scan)
    ensures |s.have| == |s.slots| == TxCount(a)
  {
    Scan(Start(a), seq(TxCount(a), _ => false), 0)
  }

  /** The slots after the pool's transactions and the extra ones are offered. */
  function Matching(a: Announcement, m: map<ShortId, nat>, short: Tx -> ShortId, pool: seq<Tx>, extra: seq<Tx>): Scan
    requires Recorded(a, m)
  {
    RecordedInRange(a, m);
    OfferAll(m, short, OfferAll(m, short, Unmatched(a), pool, false), extra, true)
  }

  ghost function Known(pool: seq<Tx>, extra: seq<Tx>): set<Tx> {
    (set t | t in pool) + (set t | t in extra)
  }

  /** What is left after everything is offered by the places kept of an announcement. */
  ghost predicate FilledFrom(a: Announcement, short: Tx -> ShortId, pool: seq<Tx>, extra: seq<Tx>, slots: Slots, count: int) {
    exists m :: Recorded(a, m) && Matching(a, m, short, pool, extra).slots == slots && Matching(a, m, short, pool, extra).count == count
  }

  /** With places kept, everything offered leaves the slots as the announcement promises. */
  lemma MatchingReady(a: Announcement, m: map<ShortId, nat>, short: Tx -> ShortId, pool: seq<Tx>, extra: seq<Tx>)
    requires Placeable(a) && Recorded(a, m) && TxCount(a) <= PLACES
    ensures var s := Matching(a, m, short, pool, extra); Ready(a, short, Known(pool, extra), s.slots, s.count)
  {
    RecordedLocated(a, m);
    var known := Known(pool, extra);
    hide Located, Scanned, Ready, OfferAll, Recorded, Placeable;
    ScanStart(a, m, short, known);
    OfferAllKeeps(a, m, short, known, Unmatched(a), pool, false);
    var s := OfferAll(m, short, Unmatched(a), pool, false);
    OfferAllKeeps(a, m, short, known, s, extra, true);
    ScanReady(a, m, short, known, OfferAll(m, short, s, extra, true));
  }

  // ---------------------------------------------------------------- rebuilding

  /** The announcement is one of the block b. */
  ghost predicate Describes(a: Announcement, short: Tx -> ShortId, b: seq<Tx>) {
    && TxCount(a) == |b| && |Free(Start(a))| == |a.ids|
    && (forall k :: 0 <= k < |b| && Start(a)[k].Some? ==> Start(a)[k].value == b[k])
    && forall j :: 0 <= j < |a.ids| ==> a.ids[j] == short(b[Free(Start(a))[j]])
  }

  /** The slots with the missing transactions put in, in order. */
  function Filled(slots: Slots, missing: seq<Tx>): seq<Tx>
    requires |missing| == |slots| - Count(slots)
  {
    if slots == [] then []
    else
      var last := |slots| - 1;
      if slots[last].Some? then Filled(slots[..last], missing) + [slots[last].value]
      else Filled(slots[..last], missing[..|missing| - 1]) + [missing[|missing| - 1]]
  }

  /** The transactions of b whose slots are empty. */
  function Missing(slots: Slots, b: seq<Tx>): (r: seq<Tx>)
    requires |slots| == |b|
    ensures |r| == |slots| - Count(slots)
  {
    if slots == [] then []
    else
      var last := |slots| - 1;
      Missing(slots[..last], b[..last]) + if slots[last].Some? then [] else [b[last]]
  }

  ghost predicate Agrees(slots: Slots, b: seq<Tx>) {
    |slots| == |b| && forall k :: 0 <= k < |b| && slots[k].Some? ==> slots[k].value == b[k]
  }

  lemma {:induction false} FillsIn(slots: Slots, b: seq<Tx>)
    requires Agrees(slots, b)
    ensures Filled(slots, Missing(slots, b)) == b
  {
    if slots != [] {
      var last := |slots| - 1;
      FillsIn(slots[..last], b[..last]);
      var m := Missing(slots, b);
      assert (if slots[last].None? then m[..|m| - 1] else m) == Missing(slots[..last], b[..last]);
      assert b == b[..last] + [b[last]];
    }
  }

  /** No known transaction only shares its short id with one of the block's. */
  ghost predicate Unambiguous(short: Tx -> ShortId, known: set<Tx>, b: seq<Tx>) {
    forall t, k :: t in known && 0 <= k < |b| && short(t) == short(b[k]) ==> t == b[k]
  }

  /** If no known transaction only shares its short id with one of the block's, the slots agree with
      the block and the missing transactions complete it. */
  lemma Rebuilds(a: Announcement, short: Tx -> ShortId, known: set<Tx>, slots: Slots, count: int, b: seq<Tx>)
    requires Ready(a, short, known, slots, count) && Describes(a, short, b)
    requires Unambiguous(short, known, b)
    ensures |slots| == |b| && Filled(slots, Missing(slots, b)) == b
  {
    forall k | 0 <= k < |b| && slots[k].Some? ensures slots[k].value == b[k] {
      if Start(a)[k].None? {
        FreeComplete(Start(a), k);
        var j :| 0 <= j < |Free(Start(a))| && Free(Start(a))[j] == k;
        assert AsAnnounced(a, short, known, slots, j);
      }
    }
    FillsIn(slots, b);
  }

  /** The announcement a node makes of a block: the first transaction sent along, the others by id. */
  function Announce(short: Tx -> ShortId, b: seq<Tx>): Announcement
    requires |b| > 0
  {
    Announcement(false, seq(|b| - 1, i requires 0 <= i < |b| - 1 => short(b[i + 1])), [Prefilled(0, Some(b[0]))])
  }

  lemma AnnounceFree(short: Tx -> ShortId, b: seq<Tx>)
    requires |b| > 0
    ensures var a := Announce(short, b); TxCount(a) == |b| && Start(a)[0] == Some(b[0]) && Free(Start(a)) == seq(|b| - 1, i => i + 1)
    ensures forall k :: 0 < k < |b| ==> Start(Announce(short, b))[k].None?
  {
    var a := Announce(short, b);
    var none: Slots := seq(|b|, _ => None);
    assert LastIndex(a.prefilled, 1) == 0;
    assert Start(a) == Prefill(a, 1) == none[0 := Some(b[0])];
    OneFilled(Start(a));
  }

  lemma AnnounceDescribes(short: Tx -> ShortId, b: seq<Tx>)
    requires |b| > 0
    ensures Placeable(Announce(short, b)) && Describes(Announce(short, b), short, b)
  {
    AnnounceFree(short, b);
    assert LastIndex(Announce(short, b).prefilled, 1) == 0;
  }

  lemma {:induction false} FilledAt(slots: Slots, missing: seq<Tx>, k: nat)
    requires k < |slots| && slots[k].Some? && |missing| == |slots| - Count(slots)
    ensures |Filled(slots, missing)| == |slots| && Filled(slots, missing)[k] == slots[k].value
  {
    var last := |slots| - 1;
    var rest := if slots[last].Some? then missing else missing[..|missing| - 1];
    FilledLength(slots[..last], rest);
    if k < last { FilledAt(slots[..last], rest, k); }
  }

  lemma {:induction false} FilledLength(slots: Slots, missing: seq<Tx>)
    requires |missing| == |slots| - Count(slots)
    ensures |Filled(slots, missing)| == |slots|
  {
    if slots != [] {
      var last := |slots| - 1;
      FilledLength(slots[..last], if slots[last].Some? then missing else missing[..|missing| - 1]);
    }
  }

  /** The places of a block's own announcement, in 16 bits. */
  lemma AnnouncePlaces(short: Tx -> ShortId, b: seq<Tx>, j: nat)
    requires 0 < j < |b|
    ensures |Places(Announce(short, b))| == |b| - 1 && Places(Announce(short, b))[j - 1] == j % PLACES
  {
    AnnounceDescribes(short, b);
    AnnounceFree(short, b);
  }

  /** In a block of more than 65536 transactions the one after them has the place of the first: when it is
      offered it replaces the first, which was sent along. */
  lemma WrapReplaces(short: Tx -> ShortId, b: seq<Tx>) returns (m: map<ShortId, nat>)
    requires |b| > PLACES && Distinct(Announce(short, b).ids)
    ensures Recorded(Announce(short, b), m) && Start(Announce(short, b))[0] == Some(b[0])
    ensures Matching(Announce(short, b), m, short, [b[PLACES]], []).slots[0] == Some(b[PLACES])
  {
    var a, t := Announce(short, b), b[PLACES];
    AnnouncePlaces(short, b, PLACES);
    m := Record(a);
    assert a.ids[PLACES - 1] == short(t);
    assert m[short(t)] == 0;
    RecordedInRange(a, m);
    AnnounceFree(short, b);
    hide Recorded, Start, Places, Announce;
    OfferOne(m, short, Unmatched(a), t);
  }

  lemma OfferOne(m: map<ShortId, nat>, short: Tx -> ShortId, s: Scan, t: Tx)
    requires |s.have| == |s.slots| && forall id :: id in m ==> m[id] < |s.slots|
    ensures var n := Offer(m, short, s, t, false);
      OfferAll(m, short, OfferAll(m, short, s, [t], false), [], true) == n
  {
    assert [t][1..] == [];
  }

  function Shorts(short: Tx -> ShortId, b: seq<Tx>): seq<ShortId> {
    seq(|b|, i requires 0 <= i < |b| => short(b[i]))
  }

  /** Whatever a node knows that is not ambiguous, a block's announcement and the transactions missing give
      the block. */
  ghost predicate AlwaysRebuilt(short: Tx -> ShortId, b: seq<Tx>)
    requires |b| > 0
  {
    forall m, pool, extra :: Recorded(Announce(short, b), m) && Unambiguous(short, Known(pool, extra), b) ==>
      Rebuilt(b, Matching(Announce(short, b), m, short, pool, extra).slots)
  }

  predicate Rebuilt(b: seq<Tx>, slots: Slots) {
    |slots| == |b| && Filled(slots, Missing(slots, b)) == b
  }

  lemma IdsDistinct(short: Tx -> ShortId, b: seq<Tx>)
    requires |b| > 0 && Distinct(Shorts(short, b))
    ensures Distinct(Announce(short, b).ids)
  {
    var s, ids := Shorts(short, b), Announce(short, b).ids;
    assert forall i :: 0 <= i < |ids| ==> ids[i] == s[i + 1];
  }

  lemma OneUnambiguous(short: Tx -> ShortId, b: seq<Tx>, j: nat)
    requires j < |b| && Distinct(Shorts(short, b))
    ensures Unambiguous(short, Known([b[j]], []), b) && forall i :: 0 <= i < j ==> b[i] != b[j]
  {
    var s := Shorts(short, b);
    assert Known([b[j]], []) == {b[j]};
    forall k | 0 <= k < |b| && k != j ensures short(b[k]) != short(b[j]) {
      assert s[k] != s[j];
    }
  }

  /** What is filled otherwise than in the block is not rebuilt. */
  lemma NotRebuilt(b: seq<Tx>, slots: Slots, k: nat)
    requires k < |b| && k < |slots| && slots[k].Some? && slots[k].value != b[k]
    ensures !Rebuilt(b, slots)
  {
    if Rebuilt(b, slots) { FilledAt(slots, Missing(slots, b), k); }
  }

  lemma WrapBreaks(short: Tx -> ShortId, b: seq<Tx>)
    requires |b| > PLACES && Distinct(Shorts(short, b))
    ensures !AlwaysRebuilt(short, b)
  {
    IdsDistinct(short, b);
    var a, t := Announce(short, b), b[PLACES];
    var m := WrapReplaces(short, b);
    OneUnambiguous(short, b, PLACES);
    hide *;
    var slots := Matching(a, m, short, [t], []).slots;
    NotRebuilt(b, slots, 0);
    Refutes(short, b, m, [t], []);
  }

  lemma Refutes(short: Tx -> ShortId, b: seq<Tx>, m: map<ShortId, nat>, pool: seq<Tx>, extra: seq<Tx>)
    requires |b| > 0 && Recorded(Announce(short, b), m) && Unambiguous(short, Known(pool, extra), b)
    requires !Rebuilt(b, Matching(Announce(short, b), m, short, pool, extra).slots)
    ensures !AlwaysRebuilt(short, b)
  {
  }

  /** A block whose short ids differ is always rebuilt from its announcement if and only if it has at most
      65536 transactions. */
  lemma RebuiltIff(short: Tx -> ShortId, b: seq<Tx>)
    requires |b| > 0 && Distinct(Shorts(short, b))
    ensures AlwaysRebuilt(short, b) <==> |b| <= PLACES
  {
    if |b| > PLACES {
      WrapBreaks(short, b);
    } else {
      var a := Announce(short, b);
      AnnounceDescribes(short, b);
      hide Placeable, Describes, Recorded, Ready, Matching, Known, Announce, Distinct;
      forall m, pool, extra | Recorded(a, m) && Unambiguous(short, Known(pool, extra), b)
        ensures Rebuilt(b, Matching(a, m, short, pool, extra).slots)
      {
        MatchingReady(a, m, short, pool, extra);
        var s := Matching(a, m, short, pool, extra);
        Rebuilds(a, short, Known(pool, extra), s.slots, s.count, b);
      }
    }
  }

  lemma {:induction false} OneFilled(slots: Slots)
    requires |slots| > 0 && slots[0].Some? && forall k :: 0 < k < |slots| ==> slots[k].None?
    ensures Free(slots) == seq(|slots| - 1, i => i + 1)
  {
    if |slots| > 1 {
      OneFilled(slots[..|slots| - 1]);
    } else {
      assert slots[..0] == [];
    }
  }
}
