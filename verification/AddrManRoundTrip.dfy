/** A saved address manager loads as the same manager: same entries, tables and counts, with the ids
    numbered anew in file order. */
module AddrManRoundTrip {

  import opened Basics
  import opened AddrMan
  import opened AddrManOps
  import opened AddrManDisk
  import Checks = AddrManCheck

  // ---------------------------------------------------------------- the order of the file

  /** Which entries a pass over the info table writes. */
  predicate Picked(i: Info, tried: bool) {
    if tried then i.inTried else i.refs != 0
  }

  /** The ids below n that a pass writes, in order. */
  function Pass(info: map<int, Info>, n: nat, tried: bool): seq<int> {
    if n == 0 then []
    else if n - 1 in info && Picked(info[n - 1], tried) then Pass(info, n - 1, tried) + [n - 1]
    else Pass(info, n - 1, tried)
  }

  /** The place in the pass of an entry. */
  function Rank(info: map<int, Info>, id: nat, tried: bool): nat {
    |Pass(info, id, tried)|
  }

  lemma {:induction false} PassHolds(info: map<int, Info>, n: nat, tried: bool, i: nat)
    requires i < |Pass(info, n, tried)|
    ensures var id := Pass(info, n, tried)[i];
      0 <= id < n && id in info && Picked(info[id], tried) && Rank(info, id, tried) == i
  {
    if !(n - 1 in info && Picked(info[n - 1], tried)) || i < |Pass(info, n - 1, tried)| {
      PassHolds(info, n - 1, tried, i);
    }
  }

  lemma {:induction false} PassFinds(info: map<int, Info>, n: nat, tried: bool, id: nat)
    requires id < n && id in info && Picked(info[id], tried)
    ensures Rank(info, id, tried) < |Pass(info, n, tried)| && Pass(info, n, tried)[Rank(info, id, tried)] == id
  {
    if id < n - 1 { PassFinds(info, n - 1, tried, id); }
  }

  function Chosen(info: map<int, Info>, n: nat, tried: bool): set<int> {
    set id | id in info && 0 <= id < n && Picked(info[id], tried)
  }

  lemma {:induction false} PassSize(info: map<int, Info>, n: nat, tried: bool)
    ensures |Pass(info, n, tried)| == |Chosen(info, n, tried)|
  {
    if n == 0 {
      assert Chosen(info, 0, tried) == {};
    } else {
      PassSize(info, n - 1, tried);
      if n - 1 in info && Picked(info[n - 1], tried) {
        assert Chosen(info, n, tried) == Chosen(info, n - 1, tried) + {n - 1};
      } else {
        assert Chosen(info, n, tried) == Chosen(info, n - 1, tried);
      }
    }
  }

  /** Having references is being new. */
  lemma RefsMeanNew(h: Hashes, st: State, id: int)
    requires Whole(h, st) && id in st.info
    ensures 0 <= id < st.idCount && (st.info[id].refs != 0 <==> !st.info[id].inTried)
    ensures 0 <= st.info[id].refs == |SlotsOf(st.newTable, id)| <= MAX_REFERENCES
  {
    if st.info[id].inTried { assert SlotsOf(st.newTable, id) == {}; }
  }

  lemma ChosenIs(h: Hashes, st: State)
    requires Whole(h, st) && st.idCount >= 0
    ensures Chosen(st.info, st.idCount, false) == NewIds(st.info) && Chosen(st.info, st.idCount, true) == TriedIds(st.info)
  {
    hide Mid;
    forall id
      ensures id in Chosen(st.info, st.idCount, false) <==> id in NewIds(st.info)
      ensures id in Chosen(st.info, st.idCount, true) <==> id in TriedIds(st.info)
    {
      if id in st.info { RefsMeanNew(h, st, id); }
    }
  }

  lemma PassCounts(h: Hashes, st: State)
    requires Whole(h, st)
    ensures st.idCount >= 0 && |Pass(st.info, st.idCount, false)| == st.nNew && |Pass(st.info, st.idCount, true)| == st.nTried
  {
    assert Counted(st.info, st.nTried, st.nNew, {}) && st.idCount >= 0;
    assert NewIds(st.info) - {} == NewIds(st.info);
    hide Mid, Pass, NewIds, TriedIds;
    ChosenIs(h, st);
    PassSize(st.info, st.idCount, false);
    PassSize(st.info, st.idCount, true);
  }

  // ---------------------------------------------------------------- saving

  /** The ids in file order. */
  function Order(st: State): seq<int>
    requires st.idCount >= 0
  {
    Pass(st.info, st.idCount, false) + Pass(st.info, st.idCount, true)
  }

  /** The id an entry gets when it is loaded. */
  function Renamed(st: State, id: nat): nat
    requires id in st.info && st.idCount >= 0
  {
    if st.info[id].inTried then |Pass(st.info, st.idCount, false)| + Rank(st.info, id, true) else Rank(st.info, id, false)
  }

  lemma OrderHolds(h: Hashes, st: State, i: nat)
    requires Whole(h, st) && i < |Order(st)|
    ensures var id := Order(st)[i];
      0 <= id < st.idCount && id in st.info && Renamed(st, id) == i && (st.info[id].inTried <==> i >= |Pass(st.info, st.idCount, false)|)
  {
    var n := |Pass(st.info, st.idCount, false)|;
    hide Mid, Pass;
    if i < n { PassHolds(st.info, st.idCount, false, i); } else { PassHolds(st.info, st.idCount, true, i - n); }
    RefsMeanNew(h, st, Order(st)[i]);
  }

  lemma OrderFinds(h: Hashes, st: State, id: int)
    requires Whole(h, st) && id in st.info
    ensures 0 <= id < st.idCount && Renamed(st, id) < |Order(st)| && Order(st)[Renamed(st, id)] == id
  {
    RefsMeanNew(h, st, id);
    hide Mid, Pass;
    PassFinds(st.info, st.idCount, st.info[id].inTried, id);
  }

  /** The indexes of bucket b, up to position i. */
  function Row(st: State, b: nat, i: nat): seq<int> {
    if i == 0 then []
    else
      var s := Slot(b, i - 1);
      if s in st.newTable && st.newTable[s] >= 0 then Row(st, b, i - 1) + [Rank(st.info, st.newTable[s], false)]
      else Row(st, b, i - 1)
  }

  function Records(st: State, ids: seq<int>): seq<Stored>
    requires forall i :: 0 <= i < |ids| ==> ids[i] in st.info
  {
    seq(|ids|, i requires 0 <= i < |ids| => StoredOf(st.info[ids[i]]))
  }

  lemma PassIn(info: map<int, Info>, n: nat, tried: bool)
    ensures forall i :: 0 <= i < |Pass(info, n, tried)| ==> Pass(info, n, tried)[i] in info
  {
    forall i | 0 <= i < |Pass(info, n, tried)| ensures Pass(info, n, tried)[i] in info {
      PassHolds(info, n, tried, i);
    }
  }

  function Save(st: State): Disk
    requires st.idCount >= 0
  {
    PassIn(st.info, st.idCount, false);
    PassIn(st.info, st.idCount, true);
    Disk(VERSION, KEY_SIZE, st.nNew, st.nTried, Flip(NEW_BUCKETS),
         Records(st, Pass(st.info, st.idCount, false)), Records(st, Pass(st.info, st.idCount, true)),
         seq(NEW_BUCKETS, b requires 0 <= b < NEW_BUCKETS => Row(st, b, BUCKET_SIZE)))
  }

  lemma SavedForm(h: Hashes, st: State)
    requires Whole(h, st)
    ensures st.idCount >= 0 && Formed(Save(st)) && Usable(Save(st))
    ensures |Order(st)| == |Save(st).news| + |Save(st).trieds| && |Save(st).news| == st.nNew
    ensures forall i :: 0 <= i < |Order(st)| ==> Order(st)[i] in st.info && (Save(st).news + Save(st).trieds)[i] == StoredOf(st.info[Order(st)[i]])
  {
    PassCounts(h, st);
    PassIn(st.info, st.idCount, false);
    PassIn(st.info, st.idCount, true);
  }

  /** The file holds, at the place of an entry, its address with port, source, services and time, the time of
      its last success and its attempts. */
  lemma SavedHolds(h: Hashes, st: State, id: int)
    requires Whole(h, st) && id in st.info
    ensures 0 <= id < st.idCount && Renamed(st, id) < |Save(st).news + Save(st).trieds|
    ensures var i, r := st.info[id], (Save(st).news + Save(st).trieds)[Renamed(st, id)];
      && r.service == i.service && r.source == i.source && r.services == i.services && r.time == i.time
      && r.lastSuccess == i.lastSuccess && r.attempts == i.attempts && (i.inTried <==> Renamed(st, id) >= |Save(st).news|)
  {
    SavedForm(h, st);
    OrderFinds(h, st, id);
    hide Save, Mid, Pass;
    OrderHolds(h, st, Renamed(st, id));
    PassCounts(h, st);
  }

  lemma SavedDistinct(h: Hashes, st: State)
    requires Whole(h, st)
    ensures st.idCount >= 0 && Distinct(AllIps(Save(st)))
  {
    SavedForm(h, st);
    var ips := AllIps(Save(st));
    forall i, j | 0 <= i < j < |ips| ensures ips[i] != ips[j] {
      OrderHolds(h, st, i);
      OrderHolds(h, st, j);
      assert ips[i] == st.info[Order(st)[i]].service.ip && ips[j] == st.info[Order(st)[j]].service.ip;
      OneAddress(h, st, Order(st)[i], Order(st)[j]);
    }
  }

  lemma OneAddress(h: Hashes, st: State, x: int, y: int)
    requires Whole(h, st) && x in st.info && y in st.info && x != y
    ensures st.info[x].service.ip != st.info[y].service.ip
  {
  }

  // ---------------------------------------------------------------- the file is within its limits

  function Holders(t: Table): set<int> {
    set s | s in t :: t[s]
  }

  lemma {:induction false} FewHolders(t: Table)
    ensures |Holders(t)| <= |t.Keys|
    decreases |t.Keys|
  {
    if t.Keys == {} {
      assert Holders(t) == {};
    } else {
      var s :| s in t.Keys;
      var rest := t - {s};
      assert rest.Keys == t.Keys - {s};
      FewHolders(rest);
      forall id ensures id in Holders(t) <==> id in Holders(rest) + {t[s]} {
        if id in Holders(t) {
          var x :| x in t && t[x] == id;
          assert x == s || (x in rest && rest[x] == id);
        }
      }
      assert Holders(t) == Holders(rest) + {t[s]};
    }
  }

  function Before(keys: set<Slot>, b: nat, i: nat): set<Slot> {
    set s | s in keys && (s.bucket < b || (s.bucket == b && s.pos < i))
  }

  lemma {:induction false} GridSize(keys: set<Slot>, b: nat, i: nat)
    requires (forall s :: s in keys ==> s.pos < BUCKET_SIZE) && i <= BUCKET_SIZE
    ensures |Before(keys, b, i)| <= b * BUCKET_SIZE + i
    decreases b, i
  {
    if i > 0 {
      GridSize(keys, b, i - 1);
      var s := Slot(b, i - 1);
      assert Before(keys, b, i) == if s in keys then Before(keys, b, i - 1) + {s} else Before(keys, b, i - 1);
    } else if b > 0 {
      GridSize(keys, b - 1, BUCKET_SIZE);
      assert Before(keys, b, 0) == Before(keys, b - 1, BUCKET_SIZE);
    } else {
      assert Before(keys, 0, 0) == {};
    }
  }

  lemma TableSize(t: Table, buckets: nat)
    requires forall s :: s in t ==> s.bucket < buckets && s.pos < BUCKET_SIZE
    ensures |Holders(t)| <= buckets * BUCKET_SIZE
  {
    FewHolders(t);
    GridSize(t.Keys, buckets, 0);
    assert Before(t.Keys, buckets, 0) == t.Keys;
  }

  lemma Limits(h: Hashes, st: State)
    requires Whole(h, st)
    ensures st.nNew <= NEW_BUCKETS * BUCKET_SIZE && st.nTried <= TRIED_BUCKETS * BUCKET_SIZE
  {
    TableSize(st.newTable, NEW_BUCKETS);
    TableSize(st.triedTable, TRIED_BUCKETS);
    forall id
      ensures id in NewIds(st.info) - {} <==> id in Holders(st.newTable)
      ensures id in TriedIds(st.info) <==> id in Holders(st.triedTable)
    {
      if id in st.info {
        if st.info[id].inTried {
          assert TriedSlot(h, st.info[id].service) in st.triedTable;
        } else {
          BucketFound(h, st, id);
        }
      }
    }
    assert NewIds(st.info) - {} == Holders(st.newTable);
    assert TriedIds(st.info) == Holders(st.triedTable);
  }

  // ---------------------------------------------------------------- what each phase of the load leaves

  /** The i-th record of the file as an entry, with so many references. */
  function Record(st: State, i: nat, refs: int): Info
    requires st.idCount >= 0 && i < |Order(st)| && Order(st)[i] in st.info
  {
    Restored(StoredOf(st.info[Order(st)[i]]), i >= |Pass(st.info, st.idCount, false)|, i).(refs := refs)
  }

  /** The first m records are loaded and have no references. */
  ghost predicate Content(h: Hashes, st: State, w: State, m: nat)
    requires Whole(h, st)
  {
    && m <= |Order(st)| && w.idCount == |w.random| == m && w.newTable == map[]
    && (forall j :: j in w.info <==> 0 <= j < m)
    && forall j :: 0 <= j < m ==> ContentAt(h, st, w, j)
  }

  ghost predicate ContentAt(h: Hashes, st: State, w: State, j: nat)
    requires Whole(h, st)
  {
    j < |Order(st)| && Order(st)[j] in st.info && j in w.info && w.info[j] == Record(st, j, 0)
  }

  lemma ContentStep(h: Hashes, st: State, w: State, x: State, m: nat, s: Stored)
    requires Whole(h, st) && Content(h, st, w, m) && m < |Order(st)|
    requires Order(st)[m] in st.info && s == StoredOf(st.info[Order(st)[m]])
    requires x.idCount == m + 1 && x.random == w.random + [m] && x.newTable == map[]
    requires x.info == w.info[m := Restored(s, m >= |Pass(st.info, st.idCount, false)|, m)]
    ensures Content(h, st, x, m + 1)
  {
    hide Mid, Pass, Order;
    forall j | 0 <= j < m + 1 ensures ContentAt(h, st, x, j) {
      if j < m { assert ContentAt(h, st, w, j); }
    }
  }

  lemma {:induction false} NewsLoaded(h: Hashes, st: State, k: nat)
    requires Whole(h, st) && st.idCount >= 0 && k <= |Save(st).news|
    ensures Content(h, st, LoadNews(h, Save(st).news, k, true), k)
    ensures LoadNews(h, Save(st).news, k, true).nNew == k && LoadNews(h, Save(st).news, k, true).nTried == 0
    ensures LoadNews(h, Save(st).news, k, true).triedTable == map[] && LoadNews(h, Save(st).news, k, true).lastGood == 1
  {
    if k > 0 {
      NewsLoaded(h, st, k - 1);
      SavedForm(h, st);
      var w, s := LoadNews(h, Save(st).news, k - 1, true), Save(st).news[k - 1];
      assert s == (Save(st).news + Save(st).trieds)[k - 1];
      hide Mid, Save, Content;
      ContentSizes(h, st, w, k - 1);
      ContentStep(h, st, w, LoadNew(h, w, s, true), k - 1, s);
    }
  }

  lemma ContentSizes(h: Hashes, st: State, w: State, m: nat)
    requires Whole(h, st) && Content(h, st, w, m)
    ensures m <= |Order(st)| && w.idCount == |w.random| == m && w.newTable == map[]
  {
  }

  /** The slot of the next tried record is free: no two tried entries of the saved manager share one. */
  lemma SlotFree(h: Hashes, st: State, w: State, m: nat)
    requires Whole(h, st) && Content(h, st, w, m) && Partly(h, w) && |Pass(st.info, st.idCount, false)| <= m < |Order(st)|
    ensures Order(st)[m] in st.info && TriedSlot(h, st.info[Order(st)[m]].service) !in w.triedTable
  {
    OrderHolds(h, st, m);
    var x := Order(st)[m];
    var slot := TriedSlot(h, st.info[x].service);
    if slot in w.triedTable {
      var i := w.triedTable[slot];
      TriedHolds(h, w, slot);
      assert ContentAt(h, st, w, i);
      OrderHolds(h, st, i);
      TriedOnce(h, st, Order(st)[i], x);
    }
  }

  lemma TriedHolds(h: Hashes, w: State, slot: Slot)
    requires Partly(h, w) && slot in w.triedTable
    ensures var i := w.triedTable[slot]; i in w.info && w.info[i].inTried && slot == TriedSlot(h, w.info[i].service)
  {
  }

  lemma TriedOnce(h: Hashes, st: State, x: int, y: int)
    requires Whole(h, st) && x in st.info && y in st.info && st.info[x].inTried && st.info[y].inTried
    requires TriedSlot(h, st.info[x].service) == TriedSlot(h, st.info[y].service)
    ensures x == y
  {
  }

  ghost predicate Start(h: Hashes, st: State, a: State)
    requires Whole(h, st)
  {
    st.idCount >= 0 && a == LoadNews(h, Save(st).news, |Save(st).news|, true)
  }

  lemma NewsReady(h: Hashes, a: State, ips: seq<NetAddr>, n: nat)
    requires NewsIn(h, a, ips, n)
    ensures TriedsIn(h, a, ips, n, 0)
  {
    hide Stocked, IndexedSoFar, NewFirst;
  }

  lemma TriedsInPartly(h: Hashes, w: State, ips: seq<NetAddr>, n: nat, k: nat)
    requires TriedsIn(h, w, ips, n, k) && Distinct(ips)
    ensures Partly(h, w) && NewFirst(w, n)
  {
    hide Stocked, Latest, Addressed, Known, NewFirst;
  }

  lemma TriedsPartly(h: Hashes, st: State, a: State, k: nat)
    requires Whole(h, st) && Start(h, st, a) && k <= |Save(st).trieds|
    ensures Partly(h, LoadTrieds(h, a, Save(st).trieds, k)) && NewFirst(LoadTrieds(h, a, Save(st).trieds, k), |Save(st).news|)
  {
    hide Mid, Save, NewsIn, TriedsIn, Distinct, Partly, NewFirst, LoadNews, LoadTrieds;
    var d := Save(st);
    SavedForm(h, st);
    SavedDistinct(h, st);
    var ips, n := AllIps(d), |d.news|;
    LoadNewsKeeps(h, d.news, ips, n, true);
    NewsReady(h, a, ips, n);
    LoadTriedsKeeps(h, a, ips, n, d.trieds, k);
    TriedsInPartly(h, LoadTrieds(h, a, d.trieds, k), ips, n, k);
  }

  lemma TriedStep(h: Hashes, st: State, w: State, m: nat, s: Stored)
    requires Whole(h, st) && Content(h, st, w, m) && Partly(h, w) && |Pass(st.info, st.idCount, false)| <= m < |Order(st)|
    requires Order(st)[m] in st.info && s == StoredOf(st.info[Order(st)[m]])
    ensures var x := LoadTried(h, w, s);
      Content(h, st, x, m + 1) && x.nNew == w.nNew && x.nTried == w.nTried + 1 && x.lastGood == w.lastGood
  {
    hide Mid, Content, Partly, Pass, Order;
    SlotFree(h, st, w, m);
    ContentSizes(h, st, w, m);
    ContentStep(h, st, w, LoadTried(h, w, s), m, s);
  }

  /** n new and k tried records are loaded. */
  ghost predicate BothLoaded(h: Hashes, st: State, w: State, n: nat, k: nat)
    requires Whole(h, st)
  {
    Content(h, st, w, n + k) && w.nNew == n && w.nTried == k && w.lastGood == 1
  }

  lemma SavedTried(h: Hashes, st: State, k: nat)
    requires Whole(h, st) && st.idCount >= 0 && k < |Save(st).trieds|
    ensures var m := |Save(st).news| + k;
      && |Pass(st.info, st.idCount, false)| <= m < |Order(st)| && Order(st)[m] in st.info
      && Save(st).trieds[k] == StoredOf(st.info[Order(st)[m]])
  {
    SavedForm(h, st);
    assert Save(st).trieds[k] == (Save(st).news + Save(st).trieds)[|Save(st).news| + k];
  }

  lemma BothStart(h: Hashes, st: State, a: State)
    requires Whole(h, st) && Start(h, st, a)
    ensures BothLoaded(h, st, a, |Save(st).news|, 0)
  {
    NewsLoaded(h, st, |Save(st).news|);
  }

  lemma BothStep(h: Hashes, st: State, w: State, n: nat, k: nat, s: Stored)
    requires Whole(h, st) && st.idCount >= 0 && BothLoaded(h, st, w, n, k) && Partly(h, w)
    requires |Pass(st.info, st.idCount, false)| <= n + k < |Order(st)| && Order(st)[n + k] in st.info && s == StoredOf(st.info[Order(st)[n + k]])
    ensures BothLoaded(h, st, LoadTried(h, w, s), n, k + 1)
  {
    hide Mid, Content, Partly, Pass, Order, LoadTried;
    TriedStep(h, st, w, n + k, s);
  }

  lemma {:induction false} TriedsLoaded(h: Hashes, st: State, a: State, k: nat)
    requires Whole(h, st) && Start(h, st, a) && st.idCount >= 0 && k <= |Save(st).trieds|
    ensures BothLoaded(h, st, LoadTrieds(h, a, Save(st).trieds, k), |Save(st).news|, k)
  {
    hide Mid, Save, Partly, Start, Pass, Order, LoadTried, NewFirst, BothLoaded;
    if k == 0 {
      BothStart(h, st, a);
    } else {
      TriedsPartly(h, st, a, k - 1);
      SavedTried(h, st, k - 1);
      TriedsLoaded(h, st, a, k - 1);
      BothStep(h, st, LoadTrieds(h, a, Save(st).trieds, k - 1), |Save(st).news|, k - 1, Save(st).trieds[k - 1]);
    }
  }

  // ---------------------------------------------------------------- the new table

  function RankOf(st: State, id: int): nat {
    if id >= 0 then Rank(st.info, id, false) else 0
  }

  /** A table with ids as they are numbered in the file. */
  function RenamedTable(st: State, t: Table): Table {
    map s | s in t :: RankOf(st, t[s])
  }

  lemma RankIs(h: Hashes, st: State, s: Slot)
    requires Whole(h, st) && s in st.newTable
    ensures var id := st.newTable[s];
      && id in st.info && 0 <= id < st.idCount && RankOf(st, id) == Renamed(st, id) < |Order(st)|
      && Order(st)[RankOf(st, id)] == id && RankOf(st, id) < |Pass(st.info, st.idCount, false)|
      && s == NewSlotIn(h, st.info[id].service, s.bucket) && s.bucket < NEW_BUCKETS
  {
    var id := st.newTable[s];
    RefsMeanNew(h, st, id);
    OrderFinds(h, st, id);
    OrderHolds(h, st, Renamed(st, id));
  }

  /** All records are loaded, with the references of the part t of the new table. */
  ghost predicate Referred(h: Hashes, st: State, w: State, t: Table)
    requires Whole(h, st)
  {
    && w.idCount == |Order(st)| && w.newTable == RenamedTable(st, t)
    && (forall j :: j in w.info <==> 0 <= j < |Order(st)|)
    && forall j :: 0 <= j < |Order(st)| ==> LinkedAt(h, st, w, j)
  }

  ghost predicate LinkedAt(h: Hashes, st: State, w: State, j: nat)
    requires Whole(h, st)
  {
    j < |Order(st)| && Order(st)[j] in st.info && j in w.info && w.info[j] == Record(st, j, |SlotsOf(w.newTable, j)|)
  }

  /** Slots of a renamed entry in part of the table are slots of the entry. */
  lemma SlotsWithin(h: Hashes, st: State, t: Table, id: int, s: Slot)
    requires Whole(h, st) && (forall x :: x in t ==> x in st.newTable && t[x] == st.newTable[x])
    requires s in st.newTable && st.newTable[s] == id && s !in t
    ensures |SlotsOf(RenamedTable(st, t), RankOf(st, id))| < |SlotsOf(st.newTable, id)| <= MAX_REFERENCES
  {
    RankIs(h, st, s);
    RefsMeanNew(h, st, id);
    var part, all := SlotsOf(RenamedTable(st, t), RankOf(st, id)), SlotsOf(st.newTable, id);
    forall x | x in part ensures x in all - {s} {
      RankIs(h, st, x);
    }
    assert s in all;
    Checks.Smaller(part, all - {s});
  }

  /** A saved reference is taken: its slot is the one it had, it is free, and the entry has room. */
  lemma RefTaken(h: Hashes, st: State, w: State, t: Table, s: Slot)
    requires Whole(h, st) && Referred(h, st, w, t) && (forall x :: x in t ==> x in st.newTable && t[x] == st.newTable[x])
    requires s in st.newTable && s !in t
    ensures var index := RankOf(st, st.newTable[s]);
      && index in w.info && index < |Order(st)| && s !in w.newTable
      && LoadRef(h, w, |Pass(st.info, st.idCount, false)|, s.bucket, index) == AddRef(w, s, index)
  {
    var id := st.newTable[s];
    RankIs(h, st, s);
    SlotsWithin(h, st, t, id, s);
    assert LinkedAt(h, st, w, RankOf(st, id));
    hide Mid, Pass, Order, RankOf, SlotsOf;
  }

  lemma AddedRef(h: Hashes, st: State, w: State, t: Table, s: Slot, id: int)
    requires Whole(h, st) && Referred(h, st, w, t) && s !in t && RankOf(st, id) < |Order(st)| && RankOf(st, id) in w.info
    ensures Referred(h, st, AddRef(w, s, RankOf(st, id)), t[s := id])
  {
    var index := RankOf(st, id);
    var x := AddRef(w, s, index);
    hide Mid, Pass, Order, RankOf, SlotsOf;
    assert x.newTable == RenamedTable(st, t[s := id]);
    forall j | 0 <= j < |Order(st)| ensures LinkedAt(h, st, x, j) {
      assert LinkedAt(h, st, w, j);
      SlotsAdd(w.newTable, s, index, j);
    }
  }

  lemma LinkStep(h: Hashes, st: State, w: State, t: Table, s: Slot)
    requires Whole(h, st) && Referred(h, st, w, t) && (forall x :: x in t ==> x in st.newTable && t[x] == st.newTable[x])
    requires s in st.newTable && s !in t
    ensures var x := LoadRef(h, w, |Pass(st.info, st.idCount, false)|, s.bucket, RankOf(st, st.newTable[s]));
      Referred(h, st, x, t[s := st.newTable[s]]) && x.nNew == w.nNew && x.nTried == w.nTried && x.triedTable == w.triedTable
  {
    RefTaken(h, st, w, t, s);
    hide Mid, Pass, Order, RankOf, Referred, LoadRef;
    AddedRef(h, st, w, t, s, st.newTable[s]);
  }

  // ---------------------------------------------------------------- all buckets

  /** The references up to position i of bucket b are loaded. */
  ghost predicate Upto(h: Hashes, st: State, a: State, w: State, b: nat, i: nat)
    requires Whole(h, st)
  {
    && Referred(h, st, w, Checks.Seen(st.newTable, b, i))
    && w.nNew == a.nNew && w.nTried == a.nTried && w.triedTable == a.triedTable && w.lastGood == a.lastGood
  }

  lemma {:induction false} RowLoaded(h: Hashes, st: State, a: State, w: State, b: nat, i: nat)
    requires Whole(h, st) && st.idCount >= 0 && Upto(h, st, a, w, b, 0)
    ensures Upto(h, st, a, LoadRefs(h, w, |Pass(st.info, st.idCount, false)|, b, Row(st, b, i)), b, i)
  {
    if i > 0 {
      RowLoaded(h, st, a, w, b, i - 1);
      RowStep(h, st, a, w, b, i - 1);
    }
  }

  lemma RowStep(h: Hashes, st: State, a: State, w: State, b: nat, i: nat)
    requires Whole(h, st) && st.idCount >= 0
    requires Upto(h, st, a, LoadRefs(h, w, |Pass(st.info, st.idCount, false)|, b, Row(st, b, i)), b, i)
    ensures Upto(h, st, a, LoadRefs(h, w, |Pass(st.info, st.idCount, false)|, b, Row(st, b, i + 1)), b, i + 1)
  {
    var s, row := Slot(b, i), Row(st, b, i);
    Checks.SeenStep(st.newTable, b, i);
    if s in st.newTable {
      RankIs(h, st, s);
      var more := Row(st, b, i + 1);
      assert more == row + [RankOf(st, st.newTable[s])] && more[..|more| - 1] == row;
      hide Mid, Pass, Order, RankOf, Referred, LoadRef, Row;
      LinkStep(h, st, LoadRefs(h, w, |Pass(st.info, st.idCount, false)|, b, row), Checks.Seen(st.newTable, b, i), s);
    }
  }

  lemma SlotBounds(h: Hashes, st: State)
    requires Whole(h, st)
    ensures forall s :: s in st.newTable ==> s.bucket < NEW_BUCKETS && s.pos < BUCKET_SIZE
  {
  }

  lemma {:induction false} BucketsLoaded(h: Hashes, st: State, a: State, k: nat)
    requires Whole(h, st) && st.idCount >= 0 && Upto(h, st, a, a, 0, 0) && k <= NEW_BUCKETS
    ensures Upto(h, st, a, LoadBuckets(h, a, |Pass(st.info, st.idCount, false)|, Save(st).buckets, k), k, 0)
  {
    if k > 0 {
      BucketsLoaded(h, st, a, k - 1);
      SlotBounds(h, st);
      Checks.SeenRow(st.newTable, k - 1);
      var w := LoadBuckets(h, a, |Pass(st.info, st.idCount, false)|, Save(st).buckets, k - 1);
      assert Save(st).buckets[k - 1] == Row(st, k - 1, BUCKET_SIZE);
      hide Mid, Pass, Order, Referred, LoadRefs, Row, Save;
      RowLoaded(h, st, a, w, k - 1, BUCKET_SIZE);
    }
  }

  lemma AllLoaded(h: Hashes, st: State, a: State)
    requires Whole(h, st) && st.idCount >= 0 && Content(h, st, a, |Order(st)|)
    ensures var w := LoadBuckets(h, a, |Pass(st.info, st.idCount, false)|, Save(st).buckets, NEW_BUCKETS);
      && Referred(h, st, w, st.newTable)
      && w.nNew == a.nNew && w.nTried == a.nTried && w.triedTable == a.triedTable && w.lastGood == a.lastGood
  {
    Checks.SeenNone(st.newTable);
    SlotBounds(h, st);
    Checks.SeenAll(st.newTable, NEW_BUCKETS);
    ReferredStart(h, st, a);
    hide Mid, Pass, Order, Referred, Content, LoadBuckets, Save;
    BucketsLoaded(h, st, a, NEW_BUCKETS);
  }

  lemma ReferredStart(h: Hashes, st: State, a: State)
    requires Whole(h, st) && st.idCount >= 0 && Content(h, st, a, |Order(st)|)
    ensures Referred(h, st, a, map[])
  {
    hide Mid, Pass, Order;
    assert RenamedTable(st, map[]) == map[];
    forall j | 0 <= j < |Order(st)| ensures LinkedAt(h, st, a, j) {
      assert ContentAt(h, st, a, j);
      assert SlotsOf(a.newTable, j) == {};
    }
  }

  // ---------------------------------------------------------------- nothing is pruned

  /** An entry keeps its number of references under its new id. */
  lemma RefsKept(h: Hashes, st: State, id: int)
    requires Whole(h, st) && id in st.info
    ensures 0 <= id < st.idCount
    ensures |SlotsOf(RenamedTable(st, st.newTable), Renamed(st, id))| == st.info[id].refs
  {
    RefsMeanNew(h, st, id);
    OrderFinds(h, st, id);
    var t, j := RenamedTable(st, st.newTable), Renamed(st, id);
    forall s ensures s in SlotsOf(t, j) <==> s in SlotsOf(st.newTable, id) {
      if s in st.newTable {
        RankIs(h, st, s);
        OrderHolds(h, st, j);
      }
    }
    assert SlotsOf(t, j) == SlotsOf(st.newTable, id);
  }

  lemma {:induction false} NothingPruned(st: State, k: nat)
    requires Listed(st) && forall j :: j in st.info ==> st.info[j].inTried || st.info[j].refs != 0
    ensures Prune(st, k) == st
  {
    if k > 0 { NothingPruned(st, k - 1); }
  }

  // ---------------------------------------------------------------- the round trip

  /** w is st with ids renamed and what is not stored at its initial value. */
  ghost predicate SameManager(h: Hashes, st: State, w: State)
    requires Whole(h, st)
  {
    && w.nNew == st.nNew && w.nTried == st.nTried && w.idCount == |Order(st)| && w.lastGood == 1
    && (forall id :: id in st.info ==> SameEntry(h, st, w, id))
    && (forall j :: j in w.info ==> 0 <= j < |Order(st)| && Order(st)[j] in st.info)
    && SameTable(h, st, st.newTable, w.newTable) && SameTable(h, st, st.triedTable, w.triedTable)
  }

  /** The same slots are taken, by the same entries under their new ids. */
  ghost predicate SameTable(h: Hashes, st: State, t: Table, u: Table)
    requires Whole(h, st)
  {
    forall s :: s in t || s in u ==> SameSlot(h, st, t, u, s)
  }

  ghost predicate SameSlot(h: Hashes, st: State, t: Table, u: Table, s: Slot)
    requires Whole(h, st)
  {
    s in t && s in u && 0 <= t[s] && t[s] in st.info && u[s] == Renamed(st, t[s])
  }

  /** The entry is there under its new id: all that is stored, its table and its references are as they
      were, the times of the last try and the last counted one are unknown, and the new id is also its
      position in the random list. */
  ghost predicate SameEntry(h: Hashes, st: State, w: State, id: int)
    requires Whole(h, st) && id in st.info
  {
    && 0 <= id && Renamed(st, id) < |Order(st)| && Order(st)[Renamed(st, id)] == id && Renamed(st, id) in w.info
    && var i, j := st.info[id], w.info[Renamed(st, id)];
    && j.service == i.service && j.source == i.source && j.services == i.services && j.time == i.time
    && j.lastSuccess == i.lastSuccess && j.attempts == i.attempts && j.inTried == i.inTried && j.refs == i.refs
    && j.lastTry == 0 && j.lastCountAttempt == 0 && j.randomPos == Renamed(st, id)
  }

  lemma EntryIs(h: Hashes, st: State, w: State, id: int)
    requires Whole(h, st) && Referred(h, st, w, st.newTable) && id in st.info
    ensures SameEntry(h, st, w, id)
  {
    RefsKept(h, st, id);
    OrderFinds(h, st, id);
    OrderHolds(h, st, Renamed(st, id));
    assert LinkedAt(h, st, w, Renamed(st, id));
  }

  lemma TriedSame(h: Hashes, st: State, w: State, s: Slot)
    requires Whole(h, st) && Partly(h, w) && Referred(h, st, w, st.newTable)
    ensures s in st.triedTable <==> s in w.triedTable
    ensures s in st.triedTable ==> 0 <= st.triedTable[s] && st.triedTable[s] in st.info && w.triedTable[s] == Renamed(st, st.triedTable[s])
  {
    if s in st.triedTable {
      var id := st.triedTable[s];
      EntryIs(h, st, w, id);
      TriedHeld(h, w, Renamed(st, id));
    }
    if s in w.triedTable {
      TriedHolds(h, w, s);
      var j := w.triedTable[s];
      assert LinkedAt(h, st, w, j);
      OrderHolds(h, st, j);
      HolderOf(h, st, Order(st)[j]);
    }
  }

  lemma TriedHeld(h: Hashes, w: State, id: int)
    requires Partly(h, w) && id in w.info && w.info[id].inTried
    ensures var s := TriedSlot(h, w.info[id].service); s in w.triedTable && w.triedTable[s] == id
  {
  }

  lemma HolderOf(h: Hashes, st: State, id: int)
    requires Whole(h, st) && id in st.info && st.info[id].inTried
    ensures var s := TriedSlot(h, st.info[id].service); s in st.triedTable && st.triedTable[s] == id
  {
  }

  /** What is in the tables before pruning. */
  lemma FilledIs(h: Hashes, st: State)
    requires Whole(h, st)
    ensures st.idCount >= 0 && Formed(Save(st)) && Distinct(AllIps(Save(st)))
    ensures var w := Filled(h, Save(st));
      Referred(h, st, w, st.newTable) && Partly(h, w) && w.nNew == st.nNew && w.nTried == st.nTried && w.lastGood == 1
  {
    SavedForm(h, st);
    SavedDistinct(h, st);
    var d := Save(st);
    var a := LoadNews(h, d.news, |d.news|, true);
    assert |d.news| == |Pass(st.info, st.idCount, false)| && |d.trieds| == st.nTried;
    FilledPartly(h, d);
    hide Mid, Save, Partly, Pass, Order, LoadNews, LoadTrieds, LoadBuckets, Referred, Distinct;
    assert Start(h, st, a);
    TriedsLoaded(h, st, a, |d.trieds|);
    AllLoaded(h, st, LoadTrieds(h, a, d.trieds, |d.trieds|));
  }

  lemma NewTableSame(h: Hashes, st: State)
    requires Whole(h, st)
    ensures SameTable(h, st, st.newTable, RenamedTable(st, st.newTable))
  {
    hide Mid, Pass, Order;
    forall s | s in st.newTable ensures SameSlot(h, st, st.newTable, RenamedTable(st, st.newTable), s) {
      RankIs(h, st, s);
    }
  }

  lemma TriedTableSame(h: Hashes, st: State, w: State)
    requires Whole(h, st) && Partly(h, w) && Referred(h, st, w, st.newTable)
    ensures SameTable(h, st, st.triedTable, w.triedTable)
  {
    hide Mid, Partly, Pass, Order, Referred;
    forall s | s in st.triedTable || s in w.triedTable ensures SameSlot(h, st, st.triedTable, w.triedTable, s) {
      TriedSame(h, st, w, s);
    }
  }

  lemma EntriesSame(h: Hashes, st: State, w: State)
    requires Whole(h, st) && Referred(h, st, w, st.newTable)
    ensures forall id :: id in st.info ==> SameEntry(h, st, w, id)
    ensures forall j :: j in w.info ==> 0 <= j < |Order(st)| && Order(st)[j] in st.info
    ensures w.newTable == RenamedTable(st, st.newTable) && w.idCount == |Order(st)|
  {
    assert forall j :: j in w.info ==> LinkedAt(h, st, w, j);
    hide Mid, Pass, Order, SameEntry;
    forall id | id in st.info ensures SameEntry(h, st, w, id) {
      EntryIs(h, st, w, id);
    }
  }

  lemma SameIs(h: Hashes, st: State, w: State)
    requires Whole(h, st) && Partly(h, w) && Referred(h, st, w, st.newTable) && w.nNew == st.nNew && w.nTried == st.nTried && w.lastGood == 1
    ensures SameManager(h, st, w)
  {
    hide Mid, Partly, Pass, Order, Referred, SameEntry, SameTable;
    EntriesSame(h, st, w);
    NewTableSame(h, st);
    TriedTableSame(h, st, w);
  }

  lemma NothingLoose(h: Hashes, st: State, w: State)
    requires Whole(h, st) && Referred(h, st, w, st.newTable)
    ensures forall j :: j in w.info ==> w.info[j].inTried || w.info[j].refs != 0
  {
    hide Mid, Pass, Order;
    forall j | j in w.info ensures w.info[j].inTried || w.info[j].refs != 0 {
      assert LinkedAt(h, st, w, j);
      OrderHolds(h, st, j);
      EntryIs(h, st, w, Order(st)[j]);
      RefsMeanNew(h, st, Order(st)[j]);
    }
  }

  lemma StatsKept(h: Hashes, st: State, w: State)
    requires Whole(h, st) && Stats(st.info) && Referred(h, st, w, st.newTable)
    ensures Stats(w.info)
  {
    hide Mid, Pass, Order;
    forall j | j in w.info
      ensures w.info[j].lastTry >= 0 && w.info[j].lastSuccess >= 0 && (w.info[j].inTried ==> w.info[j].lastSuccess != 0)
    {
      assert LinkedAt(h, st, w, j);
      OrderHolds(h, st, j);
    }
  }

  /** Saving a consistent manager and loading the file into a new one gives the same manager up to the
      ids: no entry is lost, tables, stored fields, reference counts and totals are the same, and the
      result is consistent again. */
  lemma RoundTrip(h: Hashes, st: State)
    requires Inv(h, st)
    ensures st.idCount >= 0 && Formed(Save(st)) && Distinct(AllIps(Save(st))) && Load(h, Save(st)).Success?
    ensures SameManager(h, st, Load(h, Save(st)).st) && Inv(h, Load(h, Save(st)).st)
  {
    FilledIs(h, st);
    Limits(h, st);
    var w := Filled(h, Save(st));
    assert Save(st).keySize == KEY_SIZE && Save(st).nNew == st.nNew && Save(st).nTried == st.nTried;
    assert Load(h, Save(st)) == Success(Prune(w, w.idCount)) by { hide Mid, Pass; }
    hide Mid, Partly, Pass, Order, Save, Filled, Referred, SameManager, Distinct, Stats;
    FilledListed(h, Save(st));
    NothingLoose(h, st, w);
    NothingPruned(w, w.idCount);
    SameIs(h, st, w);
    StatsKept(h, st, w);
    LoadWhole(h, Save(st));
  }

  // ---------------------------------------------------------------- the loops

  /** The records and places of the entries below n. */
  ghost predicate Written(st: State, n: nat, tried: bool, records: seq<Stored>, places: map<int, int>) {
    && |records| == |Pass(st.info, n, tried)|
    && (forall i :: 0 <= i < |records| ==> Pass(st.info, n, tried)[i] in st.info && records[i] == StoredOf(st.info[Pass(st.info, n, tried)[i]]))
    && forall j :: 0 <= j < n && j in st.info ==> j in places && places[j] == Rank(st.info, j, tried)
  }

  lemma WrittenNext(st: State, n: nat, tried: bool, records: seq<Stored>, places: map<int, int>)
    requires Written(st, n, tried, records, places)
    ensures n !in st.info ==> Written(st, n + 1, tried, records, places)
    ensures n in st.info ==> Written(st, n + 1, tried,
      if Picked(st.info[n], tried) then records + [StoredOf(st.info[n])] else records, places[n := |records|])
  {
  }

  lemma WrittenAll(h: Hashes, st: State, tried: bool, records: seq<Stored>, places: map<int, int>)
    requires Whole(h, st) && st.idCount >= 0 && Written(st, st.idCount, tried, records, places)
    ensures forall i :: 0 <= i < |Pass(st.info, st.idCount, tried)| ==> Pass(st.info, st.idCount, tried)[i] in st.info
    ensures records == Records(st, Pass(st.info, st.idCount, tried))
    ensures forall id :: id in st.info ==> id in places && id >= 0 && places[id] == Rank(st.info, id, tried)
  {
    hide Mid, Pass, StoredOf, Rank;
    forall id | id in st.info ensures 0 <= id < st.idCount { RefsMeanNew(h, st, id); }
    assert records == Records(st, Pass(st.info, st.idCount, tried));
  }

  /** One pass over the info table; the places of the entries are noted on the way. */
  method WritePass(h: Hashes, st: State, tried: bool) returns (records: seq<Stored>, places: map<int, int>)
    requires Whole(h, st)
    ensures st.idCount >= 0 && (forall i :: 0 <= i < |Pass(st.info, st.idCount, tried)| ==> Pass(st.info, st.idCount, tried)[i] in st.info)
    ensures records == Records(st, Pass(st.info, st.idCount, tried))
    ensures forall id :: id in st.info ==> id in places && id >= 0 && places[id] == Rank(st.info, id, tried)
  {
    hide Mid, Pass, Written, Picked, StoredOf, Records;
    PassCounts(h, st);
    records, places := [], map[];
    NothingWritten(st, tried);
    for id := 0 to st.idCount
      invariant Written(st, id, tried, records, places)
    {
      WrittenSize(st, id, tried, records, places);
      WrittenNext(st, id, tried, records, places);
      if id in st.info {
        places := places[id := |records|];
        if Picked(st.info[id], tried) {
          RoomLeft(h, st, id, tried, records);
          assert |records| != if tried then st.nTried else st.nNew;
          records := records + [StoredOf(st.info[id])];
        }
      }
    }
    WrittenAll(h, st, tried, records, places);
  }

  lemma NothingWritten(st: State, tried: bool)
    ensures Written(st, 0, tried, [], map[])
  {
  }

  /** Before an entry of the pass is written, fewer were than the counter says. */
  lemma RoomLeft(h: Hashes, st: State, id: nat, tried: bool, records: seq<Stored>)
    requires Whole(h, st) && id < st.idCount && id in st.info && Picked(st.info[id], tried) && |records| == |Pass(st.info, id, tried)|
    ensures |records| != if tried then st.nTried else st.nNew
  {
    hide Mid, Pass;
    PassCounts(h, st);
    PassFinds(st.info, st.idCount, tried, id);
  }

  lemma WrittenSize(st: State, n: nat, tried: bool, records: seq<Stored>, places: map<int, int>)
    requires Written(st, n, tried, records, places)
    ensures |records| == |Pass(st.info, n, tried)|
  {
  }

  /** One bucket of the new table, by the places of its entries. */
  method WriteRow(h: Hashes, st: State, places: map<int, int>, b: nat) returns (row: seq<int>)
    requires Whole(h, st) && forall id :: id in st.info ==> id in places && id >= 0 && places[id] == Rank(st.info, id, false)
    ensures row == Row(st, b, BUCKET_SIZE)
  {
    row := [];
    for i := 0 to BUCKET_SIZE
      invariant row == Row(st, b, i)
    {
      if Slot(b, i) in st.newTable {
        RankIs(h, st, Slot(b, i));
        row := row + [places[st.newTable[Slot(b, i)]]];
      }
    }
  }

  method Serialize(h: Hashes, st: State) returns (d: Disk)
    requires Whole(h, st)
    ensures st.idCount >= 0 && d == Save(st)
  {
    var news, places := WritePass(h, st, false);
    var trieds, _ := WritePass(h, st, true);
    var buckets: seq<seq<int>> := [];
    hide Mid, Pass, Row;
    for b := 0 to NEW_BUCKETS
      invariant |buckets| == b && forall k :: 0 <= k < b ==> buckets[k] == Row(st, k, BUCKET_SIZE)
    {
      var row := WriteRow(h, st, places, b);
      buckets := buckets + [row];
    }
    d := Disk(VERSION, KEY_SIZE, st.nNew, st.nTried, Flip(NEW_BUCKETS), news, trieds, buckets);
  }
}
